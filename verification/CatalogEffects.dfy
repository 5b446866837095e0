/** What each transaction of the catalog accepts and what it leaves behind, described on the
    rows alone: by the columns of the row it is about and by what stays as it was. */
module CatalogEffects {
  import opened Outcomes
  import opened LogicalPaths
  import opened CatalogTree

  // ---------------------------------------------------------------- descriptions

  /** A selector names a node within reach of the root: by its id, or by its path. */
  ghost predicate Names(c: Catalog, selector: Selector, n: Id) {
    && n in c.nodes && PathOf(c, n).Some?
    && match selector
       case Malformed => false
       case ById(id) => id == n
       case ByPath(path) => PathOf(c, n) == Some(path) && Addressable(c, n)
  }

  /** The node a request is about, or creates under, and the destination of a move. */
  ghost predicate NamedBy(c: Catalog, r: Request, n: Id, p: Id) {
    match r
    case Create(_, parent, _, _, _, _, _) => Names(c, parent, n)
    case RenameFolder(folder, _, _) => Names(c, folder, n)
    case UpdateConnection(connection, _, _, _) => Names(c, connection, n)
    case MoveFolder(folder, destination, _, _, _, _) => Names(c, folder, n) && Names(c, destination, p)
    case MoveConnection(connection, destination, _, _, _, _) => Names(c, connection, n) && Names(c, destination, p)
    case DeleteFolder(folder, _, _, _) => Names(c, folder, n)
    case DeleteConnection(connection, _) => Names(c, connection, n)
    case _ => n == r.node
  }

  predicate IsExpected(revision: nat, expected: Option<nat>) {
    expected == None || expected == Some(revision)
  }

  ghost predicate IsAt(c: Catalog, n: Id, path: string) {
    path == "" || PathOf(c, n) == Some(path)
  }

  /** No row but n's has this name under this parent. */
  ghost predicate NameIsFree(c: Catalog, parent: Option<Id>, name: string, n: Id) {
    forall k | k in c.nodes && k != n && c.nodes[k].parent == parent :: c.nodes[k].name != name
  }

  /** One row differs, under its next revision; so is the catalog, and nothing else. */
  ghost predicate OnlyRow(c: Catalog, n: Id, row: Node, d: Catalog) {
    && n in c.nodes && d.nodes.Keys == c.nodes.Keys
    && (forall k | k in c.nodes && k != n :: d.nodes[k] == c.nodes[k])
    && d.nodes[n] == row && row.revision == c.nodes[n].revision + 1
    && d.revision == c.revision + 1 && d.root == c.root && d.pending == c.pending && d.issued == c.issued
  }

  /** These rows are gone, with the operations on them; the others are as they were. */
  ghost predicate OnlyGone(c: Catalog, gone: set<Id>, d: Catalog) {
    && d.nodes.Keys == c.nodes.Keys - gone
    && (forall k | k in c.nodes && k !in gone :: d.nodes[k] == c.nodes[k])
    && d.pending == c.pending - gone
    && d.revision == c.revision + 1 && d.root == c.root && d.issued == c.issued
  }

  lemma RewriteIsOnlyRow(c: Catalog, n: Id, row: Node)
    requires n in c.nodes
    ensures OnlyRow(c, n, row.(revision := c.nodes[n].revision + 1), Rewrite(c, n, row))
  {
  }

  lemma RelinkIsOnlyRow(c: Catalog, n: Id, p: Id)
    requires n in c.nodes
    ensures var row := c.nodes[n];
      OnlyRow(c, n, row.(parent := Some(p), revision := row.revision + 1), Relinked(c, n, p))
  {
    hide Under;
  }

  lemma WithoutIsOnlyGone(c: Catalog, gone: set<Id>)
    ensures OnlyGone(c, gone, Without(c, gone))
  {
  }

  // ------------------------------------------------------------------------ laws

  /** Selecting finds exactly what is named. */
  lemma NamesResolve(c: Catalog, selector: Selector, n: Id)
    requires TreeOk(c)
    ensures Names(c, selector, n) <==> Resolve(c, selector) == Ok(n) && PathOf(c, n).Some?
    ensures Names(c, selector, n) ==> n in c.nodes
  {
    hide TreeOk, PathOf, Addressable, Walk;
    if n in c.nodes {
      PathsAndIdsAreInverse(c, n);
    } else if selector.ByPath? && Resolve(c, selector) == Ok(n) {
      Resolved(c, selector.path, n);
    }
  }

  lemma Resolved(c: Catalog, path: string, n: Id)
    requires TreeOk(c) && Resolve(c, ByPath(path)) == Ok(n)
    ensures n in c.nodes
  {
    hide TreeOk, PathOf;
    WalkIsUnique(c, Parse(path).value, n);
  }

  /** The root's path is a slash; a node's is its parent's, a slash, and its name. */
  lemma PathsFollowParents(c: Catalog, n: Id)
    requires TreeOk(c) && n in c.nodes && n in c.depth && c.depth[n] <= 100
    ensures PathOf(c, c.root) == Some("/")
    ensures n != c.root ==>
      && c.nodes[n].parent.Some? && PathOf(c, c.nodes[n].parent.value).Some?
      && var p, name := c.nodes[n].parent.value, c.nodes[n].name;
         PathOf(c, n) == Some((if p == c.root then "" else PathOf(c, p).value) + "/" + name)
  {
    hide TreeOk, Render, Walk;
    RenderStep([], "");
    Linked(c, n);
    if n != c.root {
      var p := c.nodes[n].parent.value;
      WalkNames(c, p, MAX_DEPTH - 1);
      var names := NamesTo(c, p, MAX_DEPTH - 1).value;
      WalkIsUnique(c, names, p);
      Linked(c, p);
      RenderStep(names, c.nodes[n].name);
      assert names == [] ==> names + [c.nodes[n].name] == [c.nodes[n].name];
      assert "" + "/" == "/";
      assert PathOf(c, n) == Some(Render(names + [c.nodes[n].name])) && PathOf(c, p) == Some(Render(names));
    }
  }

  /** Only a request whose nodes are named is accepted. */
  lemma AcceptedIsNamed(c: Catalog, r: Request) returns (n: Id, p: Id)
    requires TreeOk(c) && Transact(c, r).Ok?
    ensures NamedBy(c, r, n, p)
  {
    hide TreeOk, PathOf, Names, Resolve, Shallow, Pins, NameTaken, Under;
    p := NO_ID;
    match r {
      case Create(_, parent, _, _, _, _, _) => n := ResolvedBy(c, parent);
      case RenameFolder(folder, _, _) => n := ResolvedBy(c, folder);
      case UpdateConnection(connection, _, _, _) => n := ResolvedBy(c, connection);
      case MoveFolder(folder, destination, _, _, _, _) =>
        n := ResolvedBy(c, folder);
        p := ResolvedBy(c, destination);
      case MoveConnection(connection, destination, _, _, _, _) =>
        n := ResolvedBy(c, connection);
        p := ResolvedBy(c, destination);
      case DeleteFolder(folder, _, _, _) => n := ResolvedBy(c, folder);
      case DeleteConnection(connection, _) => n := ResolvedBy(c, connection);
      case _ => n := r.node;
    }
  }

  lemma ResolvedBy(c: Catalog, selector: Selector) returns (n: Id)
    requires TreeOk(c) && Resolve(c, selector).Ok? && PathOf(c, Resolve(c, selector).value).Some?
    ensures Names(c, selector, n)
  {
    n := Resolve(c, selector).value;
    NamesResolve(c, selector, n);
  }

  /** A rename is accepted exactly for a folder that is not the root, at the expected revision,
      to a valid name that is free beside it; and it changes the name. */
  lemma RenameIsExact(c: Catalog, folder: Selector, expected: Option<nat>, name: string, n: Id)
    requires TreeOk(c) && Names(c, folder, n)
    ensures var row, r := c.nodes[n], Transact(c, RenameFolder(folder, expected, name));
      && (r.Ok? <==>
            && row.kind.Folder? && n != c.root && ValidName(name)
            && IsExpected(row.revision, expected) && NameIsFree(c, row.parent, name, n))
      && (r.Ok? ==> OnlyRow(c, n, row.(name := name, revision := row.revision + 1), r.value))
  {
    hide TreeOk, PathOf, ValidName, SiblingsDiffer, Resolve, OnlyRow, Rewrite, NameIsFree, NameTaken;
    NamesResolve(c, folder, n);
    Linked(c, n);
    KeptNameIsFree(c, n);
    if n != c.root { FreeIsNotTaken(c, c.nodes[n].parent, name, n); }
    RewriteIsOnlyRow(c, n, c.nodes[n].(name := name));
  }

  lemma KeptNameIsFree(c: Catalog, n: Id)
    requires TreeOk(c) && n in c.nodes
    ensures NameIsFree(c, c.nodes[n].parent, c.nodes[n].name, n)
  {
  }

  /** An update is accepted exactly for a connection at the expected revision, with a valid
      free name if it has one; it changes the name and the other columns it brings, and
      keeps the reference. */
  lemma UpdateIsExact(c: Catalog, connection: Selector, expected: Option<nat>, name: Option<string>,
                      details: Option<string>, n: Id)
    requires TreeOk(c) && Names(c, connection, n)
    ensures var row, r := c.nodes[n], Transact(c, UpdateConnection(connection, expected, name, details));
      && (r.Ok? <==>
            && row.kind.Connection? && IsExpected(row.revision, expected)
            && (name.Some? ==> ValidName(name.value) && NameIsFree(c, row.parent, name.value, n)))
      && (r.Ok? ==>
            var newName := if name.Some? then name.value else row.name;
            var newDetails := if details.Some? then details.value else row.details;
            OnlyRow(c, n, row.(name := newName, details := newDetails, revision := row.revision + 1), r.value))
  {
    hide TreeOk, PathOf, ValidName, SiblingsDiffer, Resolve, OnlyRow, Rewrite, NameIsFree, NameTaken;
    NamesResolve(c, connection, n);
    RootIsFolder(c);
    KeptNameIsFree(c, n);
    Linked(c, n);
    if n != c.root && name.Some? { FreeIsNotTaken(c, c.nodes[n].parent, name.value, n); }
    var row := c.nodes[n];
    RewriteIsOnlyRow(c, n, row.(name := if name.Some? then name.value else row.name,
                                details := if details.Some? then details.value else row.details));
  }

  /** A creation is accepted exactly under a folder at the expected revision and path that is
      less than 100 steps below the root, with a valid name no child has; it adds one row, at
      revision 1 and without a reference. */
  lemma CreateIsExact(c: Catalog, r: Request, p: Id)
    requires TreeOk(c) && r.Create? && FreshId(c, r) && Names(c, r.parent, p)
    ensures var row, result := c.nodes[p], Transact(c, r);
      && (result.Ok? <==>
            && row.kind.Folder? && ValidName(r.name) && IsExpected(row.revision, r.expectedParent)
            && IsAt(c, p, r.expectedPath) && NameIsFree(c, Some(p), r.name, r.id)
            && p in c.depth && c.depth[p] < 100)
      && (result.Ok? ==>
            var d := result.value;
            && r.id !in c.nodes && d.nodes == c.nodes[r.id := Node(Some(p), r.kind, r.name, 1, None, r.details)]
            && d.revision == c.revision + 1 && d.root == c.root && d.pending == c.pending
            && d.issued == c.issued + {r.id})
  {
    hide TreeOk, PathOf, ValidName, Resolve, NameTaken, NameIsFree;
    NamesResolve(c, r.parent, p);
    Linked(c, p);
    FreeIsNotTaken(c, Some(p), r.name, r.id);
    if r.id in c.nodes { KnownRow(c, r.id); }
    if c.nodes[p].kind.Folder? && ValidName(r.name) && !NameTaken(c, p, r.name, None) {
      InsertKeepsTree(c, r.id, p, r.kind, r.name, r.details);
      PathsAndIdsAreInverse(Insert(c, r.id, p, r.kind, r.name, r.details), r.id);
    }
  }

  lemma FreeIsNotTaken(c: Catalog, parent: Option<Id>, name: string, n: Id)
    requires TreeOk(c) && parent.Some?
    ensures NameIsFree(c, parent, name, n) <==> !NameTaken(c, parent.value, name, Some(n))
    ensures n !in c.nodes ==> (NameTaken(c, parent.value, name, Some(n)) <==> NameTaken(c, parent.value, name, None))
  {
    hide TreeOk;
  }

  /** Both ends of a move are as the request expects them, and the destination has room. */
  ghost predicate MayMove(c: Catalog, r: Request, n: Id, p: Id)
    requires (r.MoveFolder? || r.MoveConnection?) && n in c.nodes && p in c.nodes
  {
    && c.nodes[p].kind.Folder?
    && IsExpected(c.nodes[n].revision, r.expected) && IsAt(c, n, r.expectedPath)
    && IsExpected(c.nodes[p].revision, r.expectedDestination) && IsAt(c, p, r.expectedDestinationPath)
    && NameIsFree(c, Some(p), c.nodes[n].name, n)
    && p in c.depth && c.depth[p] < 100
  }

  /** A folder moves exactly if it is not the root, reaches no deeper than 100 below itself, and
      does not contain its destination; it gets the destination as its parent, and its
      subtree comes along because no other row changes. */
  lemma MoveFolderIsExact(c: Catalog, r: Request, n: Id, p: Id)
    requires TreeOk(c) && r.MoveFolder? && Names(c, r.folder, n) && Names(c, r.destination, p)
    ensures var row, result := c.nodes[n], Transact(c, r);
      && (result.Ok? <==>
            row.kind.Folder? && n != c.root && MayMove(c, r, n, p) && Shallow(c, n) && p !in Subtree(c, n))
      && (result.Ok? ==> OnlyRow(c, n, row.(parent := Some(p), revision := row.revision + 1), result.value))
  {
    hide TreeOk, PathOf, Resolve, NameTaken, NameIsFree, Shallow, Under, OnlyRow, Relinked, Placed;
    RelinkIsOnlyRow(c, n, p);
    NamesResolve(c, r.folder, n);
    NamesResolve(c, r.destination, p);
    Linked(c, p);
    FreeIsNotTaken(c, Some(p), c.nodes[n].name, n);
    if n != c.root && c.nodes[p].kind.Folder? && !Under(c, p, n) {
      PlacedWithinReach(c, n, p);
    }
  }

  /** So does a connection, which contains nothing. */
  lemma MoveConnectionIsExact(c: Catalog, r: Request, n: Id, p: Id)
    requires TreeOk(c) && r.MoveConnection? && Names(c, r.connection, n) && Names(c, r.destination, p)
    ensures var row, result := c.nodes[n], Transact(c, r);
      && (result.Ok? <==> row.kind.Connection? && MayMove(c, r, n, p))
      && (result.Ok? ==> OnlyRow(c, n, row.(parent := Some(p), revision := row.revision + 1), result.value))
  {
    hide TreeOk, PathOf, Resolve, NameTaken, NameIsFree, Under, OnlyRow, Relinked, Placed;
    RelinkIsOnlyRow(c, n, p);
    NamesResolve(c, r.connection, n);
    NamesResolve(c, r.destination, p);
    Linked(c, p);
    FreeIsNotTaken(c, Some(p), c.nodes[n].name, n);
    if c.nodes[n].kind.Connection? && c.nodes[p].kind.Folder? {
      NothingUnderConnection(c, p, n);
      RootIsFolder(c);
      PlacedWithinReach(c, n, p);
    }
  }

  lemma PlacedWithinReach(c: Catalog, n: Id, p: Id)
    requires TreeOk(c) && n in c.nodes && n != c.root && p in c.nodes && c.nodes[p].kind.Folder? && !Under(c, p, n)
    ensures Placed(c, n, p).Ok? <==> !NameTaken(c, p, c.nodes[n].name, Some(n)) && p in c.depth && c.depth[p] < 100
    ensures Placed(c, n, p).Ok? ==> Placed(c, n, p) == Ok(Relinked(c, n, p))
  {
    hide TreeOk, PathOf, NameTaken, Under;
    Linked(c, p);
    if !NameTaken(c, p, c.nodes[n].name, Some(n)) {
      RelinkKeepsTree(c, n, p);
      RelinkedDepth(c, n, p, n);
      PathsAndIdsAreInverse(Relinked(c, n, p), n);
    }
  }

  /** A folder is deleted exactly if it is not the root, at the expected revision, within reach,
      with no operation pending in it, and either childless or, recursively, pinned by the
      snapshot; and what goes is its subtree. */
  lemma DeleteFolderIsExact(c: Catalog, folder: Selector, expected: Option<nat>, recursive: bool,
                            snapshot: seq<NodeRevision>, n: Id)
    requires TreeOk(c) && Names(c, folder, n)
    ensures var row, r := c.nodes[n], Transact(c, DeleteFolder(folder, expected, recursive, snapshot));
      && (r.Ok? <==>
            && row.kind.Folder? && n != c.root && IsExpected(row.revision, expected) && Shallow(c, n)
            && (if recursive then Pins(c, Subtree(c, n), snapshot)
                else forall k | k in c.nodes :: c.nodes[k].parent != Some(n))
            && forall k | k in Subtree(c, n) :: k !in c.pending)
      && (r.Ok? ==> OnlyGone(c, Subtree(c, n), r.value) && r.value.pending == c.pending)
  {
    hide TreeOk, PathOf, Resolve, Pins, Shallow, Subtree, OnlyGone;
    NamesResolve(c, folder, n);
    WithoutIsOnlyGone(c, Subtree(c, n));
    LoneFolder(c, n);
    Apart(Subtree(c, n), c.pending);
  }

  lemma Apart(a: set<Id>, b: set<Id>)
    ensures a * b == {} <==> forall k | k in a :: k !in b
  {
    if forall k | k in a :: k !in b {
      assert forall k :: k !in a * b;
    } else {
      var k :| k in a && k in b;
      assert k in a * b;
    }
  }

  lemma LoneFolder(c: Catalog, n: Id)
    requires TreeOk(c) && n in c.nodes
    ensures Subtree(c, n) == {n} <==> forall k | k in c.nodes :: c.nodes[k].parent != Some(n)
  {
    hide TreeOk;
    forall k | k in c.nodes && c.nodes[k].parent == Some(n)
      ensures k in Subtree(c, n) && k != n
    {
      Linked(c, k);
      assert Under(c, n, n);
    }
    forall k | k in Subtree(c, n) && k != n
      ensures exists q :: q in c.nodes && c.nodes[q].parent == Some(n)
    {
      var q := FirstBelow(c, k, n);
    }
  }

  lemma {:induction false} FirstBelow(c: Catalog, k: Id, n: Id) returns (q: Id)
    requires TreeOk(c) && k in c.nodes && Under(c, k, n) && k != n
    ensures q in c.nodes && c.nodes[q].parent == Some(n)
    decreases DepthOf(c, k)
  {
    hide TreeOk;
    Linked(c, k);
    q := k;
    if c.nodes[k].parent != Some(n) {
      q := FirstBelow(c, c.nodes[k].parent.value, n);
    }
  }

  /** A connection is deleted exactly at the expected revision and without a pending operation;
      and it alone goes. */
  lemma DeleteConnectionIsExact(c: Catalog, connection: Selector, expected: Option<nat>, n: Id)
    requires TreeOk(c) && Names(c, connection, n)
    ensures var row, r := c.nodes[n], Transact(c, DeleteConnection(connection, expected));
      && (r.Ok? <==> row.kind.Connection? && IsExpected(row.revision, expected) && n !in c.pending)
      && (r.Ok? ==> OnlyGone(c, {n}, r.value))
  {
    hide TreeOk, PathOf, Resolve, OnlyGone, Without;
    NamesResolve(c, connection, n);
    WithoutIsOnlyGone(c, {n});
  }

  /** The compare-and-swap of a credential operation succeeds exactly on a connection it is
      pending for, with the recorded revision and reference; it sets or clears the reference
      together with the authentication columns, or takes row and operation away. */
  lemma CredentialIsExact(c: Catalog, n: Id, revision: nat, oldRef: Option<Id>, change: Change, details: string)
    requires TreeOk(c)
    ensures var r := Transact(c, Credential(n, revision, oldRef, change, details));
      && (r.Ok? <==> n in c.pending && c.nodes[n].revision == revision && c.nodes[n].ref == oldRef)
      && (r.Ok? && change.SetRef? ==>
            OnlyRow(c, n, c.nodes[n].(ref := Some(change.ref), details := details, revision := revision + 1), r.value))
      && (r.Ok? && change.ClearRef? ==>
            OnlyRow(c, n, c.nodes[n].(ref := None, details := details, revision := revision + 1), r.value))
      && (r.Ok? && change.DropNode? ==> OnlyGone(c, {n}, r.value) && n !in r.value.pending)
  {
    hide TreeOk, OnlyRow, OnlyGone, Rewrite;
    OperationsAreConnections(c);
    if n in c.nodes {
      RewriteIsOnlyRow(c, n, c.nodes[n].(ref := if change.SetRef? then Some(change.ref) else None, details := details));
    }
    WithoutIsOnlyGone(c, {n});
  }

  /** An operation is stored exactly for a connection that has none, and ended whether or not
      it is there; neither touches a row or a revision. */
  lemma OperationsAreExact(c: Catalog, n: Id)
    requires TreeOk(c)
    ensures Transact(c, Begin(n)).Ok? <==> n in c.nodes && c.nodes[n].kind.Connection? && n !in c.pending
    ensures Transact(c, Begin(n)).Ok? ==> Transact(c, Begin(n)).value == c.(pending := c.pending + {n})
    ensures Transact(c, End(n)) == Ok(c.(pending := c.pending - {n}))
  {
    hide TreeOk;
  }

  // -------------------------------------------------------------------- refusals

  /** The state of the catalog is not the one the request was made for, or a name is taken. */
  ghost predicate Clashes(c: Catalog, r: Request, n: Id, p: Id)
    requires n in c.nodes && ((r.MoveFolder? || r.MoveConnection?) ==> p in c.nodes)
  {
    var row := c.nodes[n];
    match r
    case Create(_, _, expected, path, name, _, id) =>
      !IsExpected(row.revision, expected) || !IsAt(c, n, path) || !NameIsFree(c, Some(n), name, id)
    case RenameFolder(_, expected, name) => !IsExpected(row.revision, expected) || !NameIsFree(c, row.parent, name, n)
    case UpdateConnection(_, expected, name, _) =>
      !IsExpected(row.revision, expected) || (name.Some? && !NameIsFree(c, row.parent, name.value, n))
    case DeleteFolder(_, expected, recursive, snapshot) =>
      !IsExpected(row.revision, expected) || (recursive && !Pins(c, Subtree(c, n), snapshot))
    case DeleteConnection(_, expected) => !IsExpected(row.revision, expected)
    case Begin(_) => false
    case Credential(_, revision, oldRef, _, _) => row.revision != revision || row.ref != oldRef
    case End(_) => false
    case _ =>
      || !IsExpected(row.revision, r.expected) || !IsAt(c, n, r.expectedPath)
      || !IsExpected(c.nodes[p].revision, r.expectedDestination) || !IsAt(c, p, r.expectedDestinationPath)
      || !NameIsFree(c, Some(p), row.name, n)
  }

  /** The cause behind each error of a request whose nodes are named. */
  ghost predicate Explains(c: Catalog, r: Request, n: Id, p: Id, e: Error)
    requires n in c.nodes && ((r.MoveFolder? || r.MoveConnection?) ==> p in c.nodes)
  {
    match e
    case Invalid =>
      || (r.Create? && !ValidName(r.name)) || (r.RenameFolder? && !ValidName(r.newName))
      || (r.UpdateConnection? && r.changedName.Some? && !ValidName(r.changedName.value))
    case NotFound => false
    case WrongKind =>
      || ((r.MoveFolder? || r.MoveConnection?) && c.nodes[p].kind.Connection?)
      || (c.nodes[n].kind.Folder? <==> r.UpdateConnection? || r.MoveConnection? || r.DeleteConnection?)
    case Conflict => Clashes(c, r, n, p)
    case RootImmutable => n == c.root && (r.RenameFolder? || r.MoveFolder? || r.DeleteFolder?)
    case FolderNotEmpty => r.DeleteFolder? && !r.recursive && exists k :: k in c.nodes && c.nodes[k].parent == Some(n)
    case FolderCycle => r.MoveFolder? && p in Subtree(c, n)
    case HierarchyTooDeep => (r.MoveFolder? || r.DeleteFolder?) && !Shallow(c, n)
    case OperationPending =>
      (r.DeleteFolder? || r.DeleteConnection?) && exists k :: k in Subtree(c, n) && k in c.pending
    case NoPath =>
      || (r.Create? && n in c.depth && c.depth[n] >= 100)
      || ((r.MoveFolder? || r.MoveConnection?) && p in c.depth && c.depth[p] >= 100)
  }

  /** A refusal says why: its error has the cause that it names. */
  lemma RefusalsAreExplained(c: Catalog, r: Request, n: Id, p: Id)
    requires TreeOk(c) && FreshId(c, r) && NamedBy(c, r, n, p) && !r.Begin? && !r.Credential? && !r.End?
    ensures n in c.nodes && ((r.MoveFolder? || r.MoveConnection?) ==> p in c.nodes)
    ensures Transact(c, r).Err? ==> Explains(c, r, n, p, Transact(c, r).error)
  {
    hide TreeOk, Explains, Transact, Names;
    match r
    case Create(_, parent, _, _, _, _, _) => CreateRefusals(c, r, n, p);
    case MoveFolder(_, _, _, _, _, _) => MoveFolderRefusals(c, r, n, p);
    case MoveConnection(_, _, _, _, _, _) => MoveConnectionRefusals(c, r, n, p);
    case DeleteFolder(_, _, _, _) => DeletionRefusals(c, r, n, p);
    case DeleteConnection(_, _) => DeletionRefusals(c, r, n, p);
    case _ => RewriteRefusals(c, r, n, p);
  }

  lemma CreateRefusals(c: Catalog, r: Request, n: Id, p: Id)
    requires TreeOk(c) && FreshId(c, r) && r.Create? && Names(c, r.parent, n)
    ensures n in c.nodes
    ensures Transact(c, r).Err? ==> Explains(c, r, n, p, Transact(c, r).error)
  {
    hide TreeOk, PathOf, ValidName, Resolve, Names, NameIsFree, NameTaken;
    NamesResolve(c, r.parent, n);
    CreateIsExact(c, r, n);
    if r.id in c.nodes { KnownRow(c, r.id); }
    FreeIsNotTaken(c, Some(n), r.name, r.id);
    Linked(c, n);
  }

  lemma RewriteRefusals(c: Catalog, r: Request, n: Id, p: Id)
    requires TreeOk(c) && NamedBy(c, r, n, p) && (r.RenameFolder? || r.UpdateConnection?)
    ensures n in c.nodes
    ensures Transact(c, r).Err? ==> Explains(c, r, n, p, Transact(c, r).error)
  {
    hide TreeOk, PathOf, ValidName, Resolve, Names, NameIsFree, NameTaken;
    var selector := if r.RenameFolder? then r.folder else r.connection;
    NamesResolve(c, selector, n);
    Linked(c, n);
    RootIsFolder(c);
    if n != c.root && r.RenameFolder? { FreeIsNotTaken(c, c.nodes[n].parent, r.newName, n); }
    if n != c.root && r.UpdateConnection? && r.changedName.Some? {
      FreeIsNotTaken(c, c.nodes[n].parent, r.changedName.value, n);
    }
  }

  lemma MoveFolderRefusals(c: Catalog, r: Request, n: Id, p: Id)
    requires TreeOk(c) && r.MoveFolder? && Names(c, r.folder, n) && Names(c, r.destination, p)
    ensures n in c.nodes && p in c.nodes
    ensures Transact(c, r).Err? ==> Explains(c, r, n, p, Transact(c, r).error)
  {
    hide TreeOk, PathOf, Resolve, Names, NameIsFree, NameTaken, Shallow, Under, Relinked;
    NamesResolve(c, r.folder, n);
    NamesResolve(c, r.destination, p);
    FreeIsNotTaken(c, Some(p), c.nodes[n].name, n);
    Linked(c, p);
    if n != c.root && c.nodes[p].kind.Folder? && !Under(c, p, n) { PlacedWithinReach(c, n, p); }
  }

  lemma MoveConnectionRefusals(c: Catalog, r: Request, n: Id, p: Id)
    requires TreeOk(c) && r.MoveConnection? && Names(c, r.connection, n) && Names(c, r.destination, p)
    ensures n in c.nodes && p in c.nodes
    ensures Transact(c, r).Err? ==> Explains(c, r, n, p, Transact(c, r).error)
  {
    hide TreeOk, PathOf, Resolve, Names, NameIsFree, NameTaken, Under, Relinked;
    NamesResolve(c, r.connection, n);
    NamesResolve(c, r.destination, p);
    FreeIsNotTaken(c, Some(p), c.nodes[n].name, n);
    Linked(c, p);
    if c.nodes[n].kind.Connection? && c.nodes[p].kind.Folder? {
      NothingUnderConnection(c, p, n);
      RootIsFolder(c);
      PlacedWithinReach(c, n, p);
    }
  }

  lemma DeletionRefusals(c: Catalog, r: Request, n: Id, p: Id)
    requires TreeOk(c) && NamedBy(c, r, n, p) && (r.DeleteFolder? || r.DeleteConnection?)
    ensures n in c.nodes
    ensures Transact(c, r).Err? ==> Explains(c, r, n, p, Transact(c, r).error)
  {
    hide TreeOk, PathOf, Resolve, Names, Shallow, Subtree, Pins;
    var selector := if r.DeleteFolder? then r.folder else r.connection;
    NamesResolve(c, selector, n);
    LoneFolder(c, n);
    Apart(Subtree(c, n), c.pending);
    if c.nodes[n].kind.Connection? { ConnectionSubtree(c, n); }
  }
}
