/** The catalog as one value: rows of nodes under one root, the transactions that change
    them, and what every transaction keeps. */
module CatalogTree {
  import opened Outcomes
  import opened LogicalPaths

  const MAX_DEPTH := 100

  type Id = nat

  /** The empty id of a request; no node carries it. */
  const NO_ID: Id := 0

  datatype Kind = Folder | Connection

  /** A node row. `ref` is the credential reference of a connection, `details` the columns
      that no operation here reads. */
  datatype Node = Node(parent: Option<Id>, kind: Kind, name: string, revision: nat, ref: Option<Id>, details: string)

  /** `pending` holds the connections with a row in the table of credential operations, and
      `issued` every id handed out so far. `depth` is no column: it is the distance
      from the root, carried along as the certificate that the rows form a tree. */
  datatype Catalog = Catalog(
    nodes: map<Id, Node>, root: Id, revision: nat, pending: set<Id>, issued: set<Id>, depth: map<Id, nat>)

  datatype Error =
    | Invalid
    | NotFound
    | WrongKind
    | Conflict
    | RootImmutable
    | FolderNotEmpty
    | FolderCycle
    | HierarchyTooDeep
    | OperationPending
    | NoPath

  datatype Result<+T> = Ok(value: T) | Err(error: Error)

  // ------------------------------------------------------------------- the tree

  ghost predicate NodeOk(c: Catalog, n: Id)
    requires n in c.nodes
  {
    var row := c.nodes[n];
    && n in c.issued && n in c.depth && n != NO_ID
    && row.revision >= 1
    && (row.kind.Folder? ==> row.ref.None?)
    && (row.ref.Some? ==> row.revision >= 2)
    && if n == c.root then row.kind.Folder? && row.parent.None? && c.depth[n] == 0
       else
         && row.parent.Some? && row.parent.value in c.nodes && row.parent.value in c.depth
         && c.nodes[row.parent.value].kind.Folder?
         && c.depth[n] == c.depth[row.parent.value] + 1
         && ValidName(row.name)
  }

  ghost predicate SiblingsDiffer(c: Catalog) {
    forall m, n | m in c.nodes && n in c.nodes && c.nodes[m].parent == c.nodes[n].parent &&
      c.nodes[m].name == c.nodes[n].name ::
      m == n
  }

  /** Operations are rows of connections. */
  ghost predicate PendingOk(c: Catalog) {
    forall n | n in c.pending :: n in c.nodes && c.nodes[n].kind.Connection?
  }

  /** One tree: every node but the root has a folder as its parent, one step closer to the
      root; siblings have different names. */
  ghost predicate TreeOk(c: Catalog) {
    && c.root in c.nodes
    && c.revision >= 1
    && (forall n | n in c.nodes :: NodeOk(c, n))
    && SiblingsDiffer(c)
    && PendingOk(c)
  }

  function DepthOf(c: Catalog, n: Id): nat {
    if n in c.depth then c.depth[n] else 0
  }

  /** n is m or below it. */
  ghost predicate Under(c: Catalog, n: Id, m: Id)
    decreases DepthOf(c, n)
  {
    if n == m then true
    else if n !in c.nodes || c.nodes[n].parent.None? then false
    else if DepthOf(c, c.nodes[n].parent.value) >= DepthOf(c, n) then false
    else Under(c, c.nodes[n].parent.value, m)
  }

  ghost function Subtree(c: Catalog, m: Id): set<Id> {
    set n | n in c.nodes && Under(c, n, m)
  }

  // ---------------------------------------------------------------------- paths

  /** The names from the root down to a node, if the root is within `steps` of it. */
  function NamesTo(c: Catalog, n: Id, steps: nat): Option<seq<string>>
    decreases steps
  {
    if n == c.root then Some([])
    else if steps == 0 || n !in c.nodes || c.nodes[n].parent.None? then None
    else
      match NamesTo(c, c.nodes[n].parent.value, steps - 1)
      case None => None
      case Some(names) => Some(names + [c.nodes[n].name])
  }

  function PathOf(c: Catalog, n: Id): Option<string> {
    match NamesTo(c, n, MAX_DEPTH)
    case None => None
    case Some(names) => Some(Render(names))
  }

  /** The child of a folder with a given name. */
  ghost function Child(c: Catalog, parent: Id, name: string): Option<Id> {
    if exists n :: n in c.nodes && c.nodes[n].parent == Some(parent) && c.nodes[n].name == name then
      var n :| n in c.nodes && c.nodes[n].parent == Some(parent) && c.nodes[n].name == name; Some(n)
    else None
  }

  ghost function Walk(c: Catalog, from: Id, names: seq<string>): Result<Id>
    decreases |names|
  {
    if names == [] then Ok(from)
    else if from !in c.nodes || !c.nodes[from].kind.Folder? then Err(NotFound)
    else
      match Child(c, from, names[0])
      case None => Err(NotFound)
      case Some(n) => Walk(c, n, names[1..])
  }

  /** An id, a path, or neither or both. */
  datatype Selector = ById(id: Id) | ByPath(path: string) | Malformed

  ghost function Resolve(c: Catalog, selector: Selector): Result<Id> {
    match selector
    case Malformed => Err(Invalid)
    case ById(id) => if id in c.nodes then Ok(id) else Err(NotFound)
    case ByPath(path) =>
      match Parse(path)
      case None => Err(Invalid)
      case Some(names) => Walk(c, c.root, names)
  }

  /** What the tree says about one node. */
  lemma Linked(c: Catalog, n: Id)
    requires TreeOk(c) && n in c.nodes
    ensures n in c.depth
    ensures if n == c.root then c.nodes[n].parent == None && c.depth[n] == 0 else
      && c.nodes[n].parent.Some? && c.nodes[n].parent.value in c.nodes && c.nodes[n].parent.value in c.depth
      && c.nodes[c.nodes[n].parent.value].kind.Folder?
      && c.depth[n] == c.depth[c.nodes[n].parent.value] + 1
      && ValidName(c.nodes[n].name)
  {
    assert NodeOk(c, n);
  }

  lemma KnownRow(c: Catalog, n: Id)
    requires TreeOk(c) && n in c.nodes
    ensures n in c.issued && n != NO_ID && c.nodes[n].revision >= 1 &&
      (c.nodes[n].kind.Folder? ==> c.nodes[n].ref.None?)
  {
    assert NodeOk(c, n);
  }

  lemma {:induction false} NamesToDepth(c: Catalog, n: Id, steps: nat)
    requires TreeOk(c) && n in c.nodes
    ensures NamesTo(c, n, steps).Some? <==> DepthOf(c, n) <= steps
    ensures NamesTo(c, n, steps).Some? ==>
      var names := NamesTo(c, n, steps).value;
      |names| == DepthOf(c, n) && forall i | 0 <= i < |names| :: ValidName(names[i])
    decreases steps
  {
    hide TreeOk, ValidName;
    Linked(c, n);
    if n != c.root && steps > 0 {
      NamesToDepth(c, c.nodes[n].parent.value, steps - 1);
    }
  }

  lemma {:induction false} WalkAppend(c: Catalog, from: Id, names: seq<string>, last: string)
    requires Walk(c, from, names).Ok?
    ensures Walk(c, from, names + [last]) == Walk(c, Walk(c, from, names).value, [last])
    decreases |names|
  {
    if names == [] {
      assert names + [last] == [last];
    } else {
      assert (names + [last])[1..] == names[1..] + [last];
      WalkAppend(c, Child(c, from, names[0]).value, names[1..], last);
    }
  }

  lemma StepDown(c: Catalog, n: Id)
    requires TreeOk(c) && n in c.nodes && n != c.root
    ensures c.nodes[n].parent.Some? && c.nodes[n].parent.value in c.nodes
    ensures Walk(c, c.nodes[n].parent.value, [c.nodes[n].name]) == Ok(n)
    ensures n in c.depth && c.nodes[n].parent.value in c.depth && c.depth[n] == c.depth[c.nodes[n].parent.value] + 1
  {
    assert NodeOk(c, n);
    assert Child(c, c.nodes[n].parent.value, c.nodes[n].name) == Some(n);
    assert [c.nodes[n].name][1..] == [];
  }

  lemma {:induction false} WalkNames(c: Catalog, n: Id, steps: nat)
    requires TreeOk(c) && n in c.nodes && DepthOf(c, n) <= steps
    ensures NamesTo(c, n, steps).Some? && Walk(c, c.root, NamesTo(c, n, steps).value) == Ok(n)
    decreases steps
  {
    hide TreeOk;
    Linked(c, n);
    if n != c.root {
      StepDown(c, n);
      var p := c.nodes[n].parent.value;
      assert NamesTo(c, p, steps - 1).Some? ==>
        NamesTo(c, n, steps) == Some(NamesTo(c, p, steps - 1).value + [c.nodes[n].name]);
      hide *;
      WalkNames(c, p, steps - 1);
      WalkAppend(c, c.root, NamesTo(c, p, steps - 1).value, c.nodes[n].name);
    }
  }

  /** A walk that arrives has taken the node's own names. */
  lemma {:induction false} WalkIsUnique(c: Catalog, names: seq<string>, n: Id)
    requires TreeOk(c) && Walk(c, c.root, names) == Ok(n)
    ensures n in c.nodes && DepthOf(c, n) == |names|
    ensures forall steps: nat | |names| <= steps :: NamesTo(c, n, steps) == Some(names)
    decreases |names|
  {
    hide TreeOk, ValidName, NodeOk;
    RootIsFolder(c);
    Linked(c, c.root);
    if names != [] {
      var init, last := names[..|names| - 1], names[|names| - 1];
      assert names == init + [last];
      WalkPrefix(c, c.root, init, last);
      var p := Walk(c, c.root, init).value;
      WalkIsUnique(c, init, p);
      WalkAppend(c, c.root, init, last);
      LastStep(c, p, last, n);
      Linked(c, n);
      hide Walk;
      forall steps: nat | |names| <= steps
        ensures NamesTo(c, n, steps) == Some(names)
      {
        assert NamesTo(c, p, steps - 1) == Some(init);
      }
    }
  }

  lemma LastStep(c: Catalog, p: Id, last: string, n: Id)
    requires Walk(c, p, [last]) == Ok(n)
    ensures n in c.nodes && c.nodes[n].parent == Some(p) && c.nodes[n].name == last
  {
    assert [last][1..] == [];
    assert Child(c, p, last) == Some(n);
  }

  lemma {:induction false} WalkPrefix(c: Catalog, from: Id, init: seq<string>, last: string)
    requires Walk(c, from, init + [last]).Ok?
    ensures Walk(c, from, init).Ok?
    decreases |init|
  {
    if init != [] {
      assert (init + [last])[1..] == init[1..] + [last];
      WalkPrefix(c, Child(c, from, init[0]).value, init[1..], last);
    }
  }

  ghost predicate Addressable(c: Catalog, n: Id) {
    NamesTo(c, n, MAX_DEPTH).Some? && forall i | 0 <= i < |NamesTo(c, n, MAX_DEPTH).value| ::
      ValidSegment(NamesTo(c, n, MAX_DEPTH).value[i])
  }

  /** Paths and ids are inverse: a node within the depth limit has a path; the path leads
      back to the node exactly when no name on it is "." or ".."; and any path that leads to
      the node is that path. */
  lemma {:induction false} PathsAndIdsAreInverse(c: Catalog, n: Id)
    requires TreeOk(c) && n in c.nodes
    ensures PathOf(c, n).Some? <==> c.depth[n] <= MAX_DEPTH
    ensures PathOf(c, n).Some? ==>
      (Resolve(c, ByPath(PathOf(c, n).value)) == Ok(n) <==> Addressable(c, n))
    ensures forall path | Resolve(c, ByPath(path)) == Ok(n) && c.depth[n] <= MAX_DEPTH :: PathOf(c, n) == Some(path)
  {
    NamesToDepth(c, n, MAX_DEPTH);
    if c.depth[n] <= MAX_DEPTH {
      WalkNames(c, n, MAX_DEPTH);
      ParseRender(NamesTo(c, n, MAX_DEPTH).value);
    }
    forall path | Resolve(c, ByPath(path)) == Ok(n) && c.depth[n] <= MAX_DEPTH
      ensures PathOf(c, n) == Some(path)
    {
      RenderParse(path);
      WalkIsUnique(c, Parse(path).value, n);
    }
  }

  // --------------------------------------------------------------- transactions

  ghost predicate NameTaken(c: Catalog, parent: Id, name: string, except: Option<Id>) {
    exists n | n in c.nodes :: c.nodes[n].parent == Some(parent) && c.nodes[n].name == name && Some(n) != except
  }

  predicate Unexpected(actual: nat, expected: Option<nat>) {
    expected.Some? && expected.value != actual
  }

  predicate Elsewhere(actual: string, expected: string) {
    expected != "" && expected != actual
  }

  /** A selected node of the wanted kind. */
  ghost function Select(c: Catalog, selector: Selector, kind: Kind): Result<Id> {
    match Resolve(c, selector)
    case Err(e) => Err(e)
    case Ok(n) => if n in c.nodes && c.nodes[n].kind == kind then Ok(n) else Err(WrongKind)
  }

  function Insert(c: Catalog, id: Id, parent: Id, kind: Kind, name: string, details: string): Catalog {
    c.(nodes := c.nodes[id := Node(Some(parent), kind, name, 1, None, details)],
       revision := c.revision + 1, issued := c.issued + {id}, depth := c.depth[id := DepthOf(c, parent) + 1])
  }

  /** CreateFolder and CreateConnection. */
  ghost function CreateTx(c: Catalog, kind: Kind, parent: Selector, expectedParent: Option<nat>, expectedPath: string,
                          name: string, details: string, id: Id): Result<Catalog>
  {
    if !ValidName(name) then Err(Invalid)
    else
      match Select(c, parent, Folder)
      case Err(e) => Err(e)
      case Ok(p) =>
        if PathOf(c, p).None? then Err(NoPath)
        else if Unexpected(c.nodes[p].revision, expectedParent) || Elsewhere(PathOf(c, p).value, expectedPath) then
          Err(Conflict)
        else if NameTaken(c, p, name, None) then Err(Conflict)
        else
          var d := Insert(c, id, p, kind, name, details);
          if PathOf(d, id).None? then Err(NoPath) else Ok(d)
  }

  /** A row rewritten under the next revision. */
  function Rewrite(c: Catalog, n: Id, row: Node): Catalog
    requires n in c.nodes
  {
    c.(nodes := c.nodes[n := row.(revision := c.nodes[n].revision + 1)], revision := c.revision + 1)
  }

  ghost function RenameFolderTx(c: Catalog, folder: Selector, expected: Option<nat>, name: string): Result<Catalog> {
    if !ValidName(name) then Err(Invalid)
    else
      match Select(c, folder, Folder)
      case Err(e) => Err(e)
      case Ok(n) =>
        if n == c.root then Err(RootImmutable)
        else if PathOf(c, n).None? || c.nodes[n].parent.None? then Err(NoPath)
        else if Unexpected(c.nodes[n].revision, expected) then Err(Conflict)
        else if name != c.nodes[n].name && NameTaken(c, c.nodes[n].parent.value, name, Some(n)) then Err(Conflict)
        else Ok(Rewrite(c, n, c.nodes[n].(name := name)))
  }

  /** UpdateConnection: a new name, new other columns, or both; the reference stays. */
  ghost function UpdateConnectionTx(c: Catalog, connection: Selector, expected: Option<nat>, name: Option<string>,
                                    details: Option<string>): Result<Catalog>
  {
    if name.Some? && !ValidName(name.value) then Err(Invalid)
    else
      match Select(c, connection, Connection)
      case Err(e) => Err(e)
      case Ok(n) =>
        var row := c.nodes[n];
        if PathOf(c, n).None? || row.parent.None? then Err(NoPath)
        else if Unexpected(row.revision, expected) then Err(Conflict)
        else if name.Some? && name.value != row.name && NameTaken(c, row.parent.value, name.value, Some(n)) then
          Err(Conflict)
        else
          Ok(Rewrite(c, n, row.(name := if name.Some? then name.value else row.name,
                                details := if details.Some? then details.value else row.details)))
  }

  ghost function Relinked(c: Catalog, n: Id, parent: Id): Catalog
    requires n in c.nodes
  {
    var d := Rewrite(c, n, c.nodes[n].(parent := Some(parent)));
    d.(depth := map k | k in c.depth ::
      if Under(c, k, n) && c.depth[k] >= DepthOf(c, n) then c.depth[k] - DepthOf(c, n) + DepthOf(c, parent) + 1
        else c.depth[k])
  }

  /** The part of the tree below a folder is within reach of the recursive query. */
  ghost predicate Shallow(c: Catalog, n: Id) {
    forall k | k in c.nodes && Under(c, k, n) :: DepthOf(c, k) <= DepthOf(c, n) + MAX_DEPTH
  }

  /** What comes of a move whose places have been checked. */
  ghost function Placed(c: Catalog, n: Id, p: Id): Result<Catalog>
    requires n in c.nodes
  {
    if NameTaken(c, p, c.nodes[n].name, Some(n)) then Err(Conflict)
    else if PathOf(Relinked(c, n, p), n).None? then Err(NoPath)
    else Ok(Relinked(c, n, p))
  }

  ghost function MoveFolderTx(c: Catalog, folder: Selector, destination: Selector, expected: Option<nat>,
                              expectedDestination: Option<nat>, expectedPath: string,
                              expectedDestinationPath: string): Result<Catalog>
  {
    match Select(c, folder, Folder)
    case Err(e) => Err(e)
    case Ok(n) =>
      if n == c.root then Err(RootImmutable)
      else
        match Select(c, destination, Folder)
        case Err(e) => Err(e)
        case Ok(p) =>
          if PathOf(c, n).None? || PathOf(c, p).None? then Err(NoPath)
          else if Unexpected(c.nodes[p].revision, expectedDestination) ||
            Elsewhere(PathOf(c, p).value, expectedDestinationPath) then Err(Conflict)
          else if Unexpected(c.nodes[n].revision, expected) || Elsewhere(PathOf(c, n).value, expectedPath) then
            Err(Conflict)
          else if !Shallow(c, n) then Err(HierarchyTooDeep)
          else if Under(c, p, n) then Err(FolderCycle)
          else Placed(c, n, p)
  }

  ghost function MoveConnectionTx(c: Catalog, connection: Selector, destination: Selector, expected: Option<nat>,
                                  expectedDestination: Option<nat>, expectedPath: string,
                                  expectedDestinationPath: string): Result<Catalog>
  {
    match Select(c, connection, Connection)
    case Err(e) => Err(e)
    case Ok(n) =>
      match Select(c, destination, Folder)
      case Err(e) => Err(e)
      case Ok(p) =>
        if PathOf(c, p).None? then Err(NoPath)
        else if Unexpected(c.nodes[p].revision, expectedDestination) ||
          Elsewhere(PathOf(c, p).value, expectedDestinationPath) then Err(Conflict)
        else if PathOf(c, n).None? then Err(NoPath)
        else if Unexpected(c.nodes[n].revision, expected) || Elsewhere(PathOf(c, n).value, expectedPath) then
          Err(Conflict)
        else Placed(c, n, p)
  }

  function Without(c: Catalog, gone: set<Id>): Catalog {
    c.(nodes := c.nodes - gone, revision := c.revision + 1, pending := c.pending - gone)
  }

  datatype NodeRevision = NodeRevision(id: Id, revision: nat)

  ghost predicate ValidSnapshot(snapshot: seq<NodeRevision>) {
    && (forall i | 0 <= i < |snapshot| :: snapshot[i].id != NO_ID && snapshot[i].revision != 0)
    && (forall i, j | 0 <= i < j < |snapshot| :: snapshot[i].id != snapshot[j].id)
  }

  /** The snapshot pins exactly these nodes at exactly these revisions. */
  ghost predicate Pins(c: Catalog, nodes: set<Id>, snapshot: seq<NodeRevision>) {
    && ValidSnapshot(snapshot)
    && (forall i | 0 <= i < |snapshot| ::
         snapshot[i].id in nodes && snapshot[i].id in c.nodes &&
           snapshot[i].revision == c.nodes[snapshot[i].id].revision)
    && (forall n | n in nodes :: exists i | 0 <= i < |snapshot| :: snapshot[i].id == n)
  }

  ghost function DeleteFolderTx(c: Catalog, folder: Selector, expected: Option<nat>, recursive: bool,
                                snapshot: seq<NodeRevision>): Result<Catalog>
  {
    match Select(c, folder, Folder)
    case Err(e) => Err(e)
    case Ok(n) =>
      if n == c.root then Err(RootImmutable)
      else if PathOf(c, n).None? then Err(NoPath)
      else if Unexpected(c.nodes[n].revision, expected) then Err(Conflict)
      else if !Shallow(c, n) then Err(HierarchyTooDeep)
      else if !recursive && Subtree(c, n) != {n} then Err(FolderNotEmpty)
      else if recursive && !Pins(c, Subtree(c, n), snapshot) then Err(Conflict)
      else if Subtree(c, n) * c.pending != {} then Err(OperationPending)
      else Ok(Without(c, Subtree(c, n)))
  }

  ghost function DeleteConnectionTx(c: Catalog, connection: Selector, expected: Option<nat>): Result<Catalog> {
    match Select(c, connection, Connection)
    case Err(e) => Err(e)
    case Ok(n) =>
      if PathOf(c, n).None? then Err(NoPath)
      else if Unexpected(c.nodes[n].revision, expected) then Err(Conflict)
      else if n in c.pending then Err(OperationPending)
      else Ok(Without(c, {n}))
  }

  /** Storing the row of a credential operation: at most one for a connection. */
  function BeginTx(c: Catalog, n: Id): Result<Catalog> {
    if n !in c.nodes || !c.nodes[n].kind.Connection? || n in c.pending then Err(Conflict)
    else Ok(c.(pending := c.pending + {n}))
  }

  /** Deleting it, if it is there. */
  function EndTx(c: Catalog, n: Id): Result<Catalog> {
    Ok(c.(pending := c.pending - {n}))
  }

  /** The catalog step of a pending credential operation: its compare-and-swap on one
      connection. Deleting the connection takes the row of the operation with it. */
  datatype Change = SetRef(ref: Id) | ClearRef | DropNode

  function CredentialTx(c: Catalog, n: Id, expected: nat, oldRef: Option<Id>, change: Change,
                        details: string): Result<Catalog>
  {
    if n !in c.pending then Err(NotFound)
    else if n !in c.nodes || !c.nodes[n].kind.Connection? || c.nodes[n].revision != expected ||
      c.nodes[n].ref != oldRef then Err(Conflict)
    else
      match change
      case SetRef(r) => Ok(Rewrite(c, n, c.nodes[n].(ref := Some(r), details := details)))
      case ClearRef => Ok(Rewrite(c, n, c.nodes[n].(ref := None, details := details)))
      case DropNode => Ok(Without(c, {n}))
  }

  datatype Request =
    | Create(kind: Kind, parent: Selector, expectedParent: Option<nat>, expectedPath: string, name: string,
             details: string, id: Id)
    | RenameFolder(folder: Selector, expected: Option<nat>, newName: string)
    | UpdateConnection(connection: Selector, expected: Option<nat>, changedName: Option<string>,
                       changedDetails: Option<string>)
    | MoveFolder(folder: Selector, destination: Selector, expected: Option<nat>, expectedDestination: Option<nat>,
                 expectedPath: string, expectedDestinationPath: string)
    | MoveConnection(connection: Selector, destination: Selector, expected: Option<nat>,
                     expectedDestination: Option<nat>, expectedPath: string, expectedDestinationPath: string)
    | DeleteFolder(folder: Selector, expected: Option<nat>, recursive: bool, snapshot: seq<NodeRevision>)
    | DeleteConnection(connection: Selector, expected: Option<nat>)
    | Begin(node: Id)
    | Credential(node: Id, revision: nat, oldRef: Option<Id>, change: Change, details: string)
    | End(node: Id)

  ghost function Transact(c: Catalog, r: Request): Result<Catalog> {
    match r
    case Create(kind, parent, ep, path, name, details, id) => CreateTx(c, kind, parent, ep, path, name, details, id)
    case RenameFolder(folder, e, name) => RenameFolderTx(c, folder, e, name)
    case UpdateConnection(connection, e, name, details) => UpdateConnectionTx(c, connection, e, name, details)
    case MoveFolder(folder, destination, e, ed, path, dpath) => MoveFolderTx(c, folder, destination, e, ed, path, dpath)
    case MoveConnection(connection, destination, e, ed, path, dpath) =>
      MoveConnectionTx(c, connection, destination, e, ed, path, dpath)
    case DeleteFolder(folder, e, recursive, snapshot) => DeleteFolderTx(c, folder, e, recursive, snapshot)
    case DeleteConnection(connection, e) => DeleteConnectionTx(c, connection, e)
    case Begin(node) => BeginTx(c, node)
    case Credential(node, revision, oldRef, change, details) => CredentialTx(c, node, revision, oldRef, change, details)
    case End(node) => EndTx(c, node)
  }

  /** Identifiers for new nodes are new. */
  predicate FreshId(c: Catalog, r: Request) {
    r.Create? ==> r.id !in c.issued && r.id != NO_ID
  }

  // ------------------------------------------------------------- what they keep

  /** How a catalog can change: revisions grow, an unchanged node revision means an
      unchanged row, an unchanged catalog revision means unchanged rows, and a node that is
      gone never comes back. */
  ghost predicate Evolves(a: Catalog, b: Catalog) {
    && b.root == a.root
    && a.issued <= b.issued
    && a.revision <= b.revision && (a.revision == b.revision ==> a.nodes == b.nodes)
    && (forall n | n in b.nodes && n in a.issued ::
          && n in a.nodes
          && a.nodes[n].revision <= b.nodes[n].revision
          && (a.nodes[n].revision == b.nodes[n].revision ==> a.nodes[n] == b.nodes[n])
          && a.nodes[n].kind == b.nodes[n].kind)
  }

  lemma EvolvesTransitive(a: Catalog, b: Catalog, c: Catalog)
    requires Evolves(a, b) && Evolves(b, c)
    ensures Evolves(a, c)
  {
  }

  lemma {:induction false} TransactEvolves(c: Catalog, r: Request)
    requires TreeOk(c) && FreshId(c, r) && Transact(c, r).Ok?
    ensures Evolves(c, Transact(c, r).value)
  {
    hide TreeOk, Evolves, Pins, Under, Resolve, PathOf, NameTaken, ValidName, Shallow, Relinked;
    match r
    case Create(kind, parent, ep, path, name, details, id) =>
      InsertEvolves(c, id, Select(c, parent, Folder).value, kind, name, details);
    case RenameFolder(folder, e, name) =>
      var n := Select(c, folder, Folder).value;
      RewriteEvolves(c, n, c.nodes[n].(name := name));
    case UpdateConnection(connection, e, name, details) =>
      var n := Select(c, connection, Connection).value;
      RewriteEvolves(c, n, c.nodes[n].(name := if name.Some? then name.value else c.nodes[n].name,
                                       details := if details.Some? then details.value else c.nodes[n].details));
    case MoveFolder(_, _, _, _, _, _) => RelinkEvolves(c, r);
    case MoveConnection(_, _, _, _, _, _) => RelinkEvolves(c, r);
    case DeleteFolder(folder, e, recursive, snapshot) => WithoutEvolves(c, Subtree(c, Select(c, folder, Folder).value));
    case DeleteConnection(connection, e) => WithoutEvolves(c, {Select(c, connection, Connection).value});
    case Begin(n) => PendingEvolves(c, BeginTx(c, n).value.pending);
    case Credential(n, revision, oldRef, change, details) => CredentialEvolves(c, n, revision, oldRef, change, details);
    case End(n) => PendingEvolves(c, c.pending - {n});
  }

  lemma PendingEvolves(c: Catalog, pending: set<Id>)
    requires TreeOk(c)
    ensures Evolves(c, c.(pending := pending))
  {
    EvolvesReflexive(c);
  }

  lemma InsertEvolves(c: Catalog, id: Id, parent: Id, kind: Kind, name: string, details: string)
    requires TreeOk(c) && id !in c.issued
    ensures Evolves(c, Insert(c, id, parent, kind, name, details))
  {
  }

  lemma RewriteEvolves(c: Catalog, n: Id, row: Node)
    requires TreeOk(c) && n in c.nodes && row.kind == c.nodes[n].kind
    ensures Evolves(c, Rewrite(c, n, row))
  {
  }

  lemma WithoutEvolves(c: Catalog, gone: set<Id>)
    requires TreeOk(c)
    ensures Evolves(c, Without(c, gone))
  {
  }

  lemma RelinkEvolves(c: Catalog, r: Request)
    requires TreeOk(c) && Transact(c, r).Ok? && (r.MoveFolder? || r.MoveConnection?)
    ensures Evolves(c, Transact(c, r).value)
  {
    var (n, p) := MovedWhere(c, r);
    MoveChecks(c, r);
    hide TreeOk, MoveFolderTx, MoveConnectionTx, Under, NameTaken, MovedWhere;
    RewriteEvolves(c, n, c.nodes[n].(parent := Some(p)));
  }

  lemma CredentialEvolves(c: Catalog, n: Id, revision: nat, oldRef: Option<Id>, change: Change, details: string)
    requires TreeOk(c) && CredentialTx(c, n, revision, oldRef, change, details).Ok?
    ensures Evolves(c, CredentialTx(c, n, revision, oldRef, change, details).value)
  {
    hide TreeOk, Evolves;
    match change
    case SetRef(r) => RewriteEvolves(c, n, c.nodes[n].(ref := Some(r), details := details));
    case ClearRef => RewriteEvolves(c, n, c.nodes[n].(ref := None, details := details));
    case DropNode => WithoutEvolves(c, {n});
  }

  lemma {:induction false} UnderIsDeeper(c: Catalog, n: Id, m: Id)
    requires TreeOk(c) && n in c.nodes && Under(c, n, m)
    ensures m in c.nodes && c.depth[m] <= c.depth[n] && (c.depth[m] == c.depth[n] ==> m == n)
    decreases DepthOf(c, n)
  {
    assert NodeOk(c, n);
    if n != m { UnderIsDeeper(c, c.nodes[n].parent.value, m); }
  }

  lemma UnderParent(c: Catalog, n: Id, m: Id)
    requires TreeOk(c) && n in c.nodes && n != m && n != c.root
    ensures Under(c, n, m) <==> Under(c, c.nodes[n].parent.value, m)
  {
    assert NodeOk(c, n);
  }

  lemma {:induction false} TransactKeepsTree(c: Catalog, r: Request)
    requires TreeOk(c) && FreshId(c, r) && Transact(c, r).Ok?
    ensures TreeOk(Transact(c, r).value)
  {
    hide CreateTx, RenameFolderTx, UpdateConnectionTx, MoveFolderTx, MoveConnectionTx, DeleteFolderTx,
      DeleteConnectionTx, CredentialTx, TreeOk;
    match r
    case Create(kind, parent, ep, path, name, details, id) =>
      CreateKeepsTree(c, kind, parent, ep, path, name, details, id);
    case RenameFolder(folder, e, name) => RenameKeepsTree(c, folder, e, name);
    case UpdateConnection(connection, e, name, details) => UpdateKeepsTree(c, connection, e, name, details);
    case MoveFolder(folder, destination, e, ed, path, dpath) => MoveKeepsTree(c, r);
    case MoveConnection(connection, destination, e, ed, path, dpath) => MoveKeepsTree(c, r);
    case DeleteFolder(folder, e, recursive, snapshot) => DeletionKeepsTree(c, r);
    case DeleteConnection(connection, e) => DeletionKeepsTree(c, r);
    case Begin(node) => OperationsAreConnections(c); PendingKeepsTree(c, c.pending + {node});
    case Credential(node, revision, oldRef, change, details) =>
      CredentialKeepsTree(c, node, revision, oldRef, change, details);
    case End(node) => OperationsAreConnections(c); PendingKeepsTree(c, c.pending - {node});
  }

  lemma PendingKeepsTree(c: Catalog, pending: set<Id>)
    requires TreeOk(c) && forall n | n in pending :: n in c.nodes && c.nodes[n].kind.Connection?
    ensures TreeOk(c.(pending := pending))
  {
    hide TreeOk, SiblingsDiffer, NodeOk;
    var d := c.(pending := pending);
    Parts(c);
    forall n | n in c.nodes
      ensures NodeOk(d, n)
    {
      EveryNode(c, n);
      SameNode(c, d, n);
    }
    SameSiblings(c, d);
    Whole(d);
  }

  lemma SameNode(c: Catalog, d: Catalog, n: Id)
    requires n in c.nodes && NodeOk(c, n) && d == c.(pending := d.pending)
    ensures NodeOk(d, n)
  {
    hide ValidName;
  }

  lemma OperationsAreConnections(c: Catalog)
    requires TreeOk(c)
    ensures forall n | n in c.pending :: n in c.nodes && c.nodes[n].kind.Connection?
  {
  }

  lemma SameSiblings(c: Catalog, d: Catalog)
    requires SiblingsDiffer(c) && d.nodes == c.nodes
    ensures SiblingsDiffer(d)
  {
  }

  lemma CreateKeepsTree(c: Catalog, kind: Kind, parent: Selector, ep: Option<nat>, path: string, name: string,
                        details: string, id: Id)
    requires TreeOk(c) && id !in c.issued && id != NO_ID && CreateTx(c, kind, parent, ep, path, name, details, id).Ok?
    ensures TreeOk(CreateTx(c, kind, parent, ep, path, name, details, id).value)
  {
    hide TreeOk, PathOf, Resolve, NameTaken, ValidName, Insert;
    InsertKeepsTree(c, id, Select(c, parent, Folder).value, kind, name, details);
  }

  lemma RenameKeepsTree(c: Catalog, folder: Selector, e: Option<nat>, name: string)
    requires TreeOk(c) && RenameFolderTx(c, folder, e, name).Ok?
    ensures TreeOk(RenameFolderTx(c, folder, e, name).value)
  {
    hide TreeOk, PathOf, Resolve, NameTaken, ValidName, Rewrite;
    var n := Select(c, folder, Folder).value;
    Linked(c, n);
    KnownRow(c, n);
    RewriteKeepsTree(c, n, c.nodes[n].(name := name));
  }

  lemma MoveKeepsTree(c: Catalog, r: Request)
    requires TreeOk(c) && Transact(c, r).Ok? && (r.MoveFolder? || r.MoveConnection?)
    ensures TreeOk(Transact(c, r).value)
  {
    var (n, p) := MovedWhere(c, r);
    MoveChecks(c, r);
    hide TreeOk, MoveFolderTx, MoveConnectionTx, Under, NameTaken, Relinked, MovedWhere;
    RelinkKeepsTree(c, n, p);
  }

  ghost function MovedWhere(c: Catalog, r: Request): (Id, Id)
    requires Transact(c, r).Ok? && (r.MoveFolder? || r.MoveConnection?)
  {
    (if r.MoveFolder? then Select(c, r.folder, Folder).value else Select(c, r.connection, Connection).value,
     Select(c, r.destination, Folder).value)
  }

  lemma MoveChecks(c: Catalog, r: Request)
    requires TreeOk(c) && Transact(c, r).Ok? && (r.MoveFolder? || r.MoveConnection?)
    ensures var (n, p) := MovedWhere(c, r);
      && n in c.nodes && n != c.root && p in c.nodes && c.nodes[p].kind.Folder?
      && !Under(c, p, n) && !NameTaken(c, p, c.nodes[n].name, Some(n))
      && Transact(c, r).value == Relinked(c, n, p)
  {
    hide TreeOk, PathOf, Resolve, Shallow, Under, NameTaken, Relinked;
    if r.MoveConnection? { ConnectionMoveChecks(c, r); } else { hide MoveConnectionTx; }
  }

  lemma ConnectionMoveChecks(c: Catalog, r: Request)
    requires TreeOk(c) && r.MoveConnection? && Transact(c, r).Ok?
    ensures var (n, p) := MovedWhere(c, r);
      && n in c.nodes && n != c.root && p in c.nodes && c.nodes[p].kind.Folder?
      && !Under(c, p, n) && !NameTaken(c, p, c.nodes[n].name, Some(n))
      && Transact(c, r).value == Relinked(c, n, p)
  {
    hide TreeOk, PathOf, Resolve, Shallow, Under, NameTaken, Relinked, MoveFolderTx;
    RootIsFolder(c);
    NothingUnderConnection(c, Select(c, r.destination, Folder).value, Select(c, r.connection, Connection).value);
  }

  lemma DeletionKeepsTree(c: Catalog, r: Request)
    requires TreeOk(c) && Transact(c, r).Ok? && (r.DeleteFolder? || r.DeleteConnection?)
    ensures TreeOk(Transact(c, r).value)
  {
    hide TreeOk, PathOf, Resolve, Shallow, Under, Pins;
    if r.DeleteFolder? {
      DeleteKeepsTree(c, Select(c, r.folder, Folder).value);
    } else {
      var n := Select(c, r.connection, Connection).value;
      ConnectionSubtree(c, n);
      DeleteKeepsTree(c, n);
    }
  }

  lemma RootIsFolder(c: Catalog)
    requires TreeOk(c)
    ensures c.root in c.nodes && c.nodes[c.root].kind.Folder?
  {
  }

  lemma UpdateKeepsTree(c: Catalog, connection: Selector, e: Option<nat>, name: Option<string>, details: Option<string>)
    requires TreeOk(c) && UpdateConnectionTx(c, connection, e, name, details).Ok?
    ensures TreeOk(UpdateConnectionTx(c, connection, e, name, details).value)
  {
    hide TreeOk, PathOf, Resolve, NameTaken, ValidName, Rewrite;
    var n := Select(c, connection, Connection).value;
    RootIsFolder(c);
    Linked(c, n);
    KnownRow(c, n);
    RewriteKeepsTree(c, n, c.nodes[n].(name := if name.Some? then name.value else c.nodes[n].name,
                                       details := if details.Some? then details.value else c.nodes[n].details));
  }

  lemma CredentialKeepsTree(c: Catalog, n: Id, revision: nat, oldRef: Option<Id>, change: Change, details: string)
    requires TreeOk(c) && CredentialTx(c, n, revision, oldRef, change, details).Ok?
    ensures TreeOk(CredentialTx(c, n, revision, oldRef, change, details).value)
  {
    assert NodeOk(c, n) && NodeOk(c, c.root);
    hide TreeOk;
    match change
    case SetRef(r) => RewriteKeepsTree(c, n, c.nodes[n].(ref := Some(r), details := details));
    case ClearRef => RewriteKeepsTree(c, n, c.nodes[n].(ref := None, details := details));
    case DropNode =>
      ConnectionSubtree(c, n);
      DeleteKeepsTree(c, n);
  }

  lemma {:induction false} InsertKeepsTree(c: Catalog, id: Id, p: Id, kind: Kind, name: string, details: string)
    requires TreeOk(c) && id !in c.issued && id != NO_ID && p in c.nodes && c.nodes[p].kind.Folder? && ValidName(name)
    requires !NameTaken(c, p, name, None)
    ensures TreeOk(Insert(c, id, p, kind, name, details))
  {
    var d := Insert(c, id, p, kind, name, details);
    hide TreeOk, ValidName, NodeOk;
    Parts(c);
    forall k | k in d.nodes
      ensures NodeOk(d, k)
    {
      InsertedNode(c, id, p, kind, name, details, k);
    }
    assert id !in c.nodes by { if id in c.nodes { KnownRow(c, id); } }
    Whole(d);
  }

  lemma InsertedNode(c: Catalog, id: Id, p: Id, kind: Kind, name: string, details: string, k: Id)
    requires TreeOk(c) && id !in c.issued && id != NO_ID && p in c.nodes && c.nodes[p].kind.Folder? && ValidName(name)
    requires k in c.nodes || k == id
    ensures NodeOk(Insert(c, id, p, kind, name, details), k)
  {
    hide TreeOk, ValidName;
    Parts(c);
    KnownRow(c, c.root);
    EveryNode(c, p);
    if k in c.nodes {
      EveryNode(c, k);
      if k != c.root { EveryNode(c, c.nodes[k].parent.value); }
    }
  }

  /** A row that keeps clear of the other names may take its place. */
  lemma SiblingsStayDifferent(c: Catalog, n: Id, row: Node, d: Catalog)
    requires SiblingsDiffer(c) && n in c.nodes && row.parent.Some? && d.nodes == c.nodes[n := row]
    requires (row.parent == c.nodes[n].parent && row.name == c.nodes[n].name) ||
      !NameTaken(c, row.parent.value, row.name, Some(n))
    ensures SiblingsDiffer(d)
  {
  }

  lemma {:induction false} RewriteKeepsTree(c: Catalog, n: Id, row: Node)
    requires TreeOk(c) && n in c.nodes && n != c.root
    requires row.parent == c.nodes[n].parent && row.kind == c.nodes[n].kind && ValidName(row.name)
    requires row.kind.Folder? ==> row.ref.None?
    requires row.name != c.nodes[n].name ==> !NameTaken(c, row.parent.value, row.name, Some(n))
    ensures TreeOk(Rewrite(c, n, row))
  {
    var d := Rewrite(c, n, row);
    hide TreeOk, SiblingsDiffer, NameTaken, ValidName, NodeOk;
    Linked(c, n);
    Parts(c);
    SiblingsStayDifferent(c, n, d.nodes[n], d);
    forall k | k in d.nodes
      ensures NodeOk(d, k)
    {
      RewrittenNode(c, n, row, k);
    }
    Whole(d);
  }

  lemma RewrittenNode(c: Catalog, n: Id, row: Node, k: Id)
    requires TreeOk(c) && n in c.nodes && n != c.root && k in c.nodes
    requires row.parent == c.nodes[n].parent && row.kind == c.nodes[n].kind && ValidName(row.name)
    requires row.kind.Folder? ==> row.ref.None?
    ensures NodeOk(Rewrite(c, n, row), k)
  {
    KnownRow(c, n);
    assert NodeOk(c, k);
    hide TreeOk, ValidName;
  }

  lemma EveryNode(c: Catalog, n: Id)
    requires TreeOk(c) && n in c.nodes
    ensures NodeOk(c, n)
  {
  }

  lemma Parts(c: Catalog)
    requires TreeOk(c)
    ensures c.root in c.nodes && c.revision >= 1 && SiblingsDiffer(c) && PendingOk(c)
  {
  }

  lemma Whole(c: Catalog)
    requires c.root in c.nodes && c.revision >= 1 && SiblingsDiffer(c) && PendingOk(c)
    requires forall n | n in c.nodes :: NodeOk(c, n)
    ensures TreeOk(c)
  {
  }

  lemma {:induction false} RelinkKeepsTree(c: Catalog, n: Id, p: Id)
    requires TreeOk(c) && n in c.nodes && n != c.root && p in c.nodes && c.nodes[p].kind.Folder?
    requires !Under(c, p, n) && !NameTaken(c, p, c.nodes[n].name, Some(n))
    ensures TreeOk(Relinked(c, n, p))
  {
    var d := Relinked(c, n, p);
    hide TreeOk, SiblingsDiffer, NameTaken, Under, NodeOk;
    Parts(c);
    SiblingsStayDifferent(c, n, d.nodes[n], d);
    forall k | k in d.nodes
      ensures NodeOk(d, k)
    {
      RelinkedNode(c, n, p, k);
    }
    Whole(d);
  }

  lemma {:induction false} RelinkedNode(c: Catalog, n: Id, p: Id, k: Id)
    requires TreeOk(c) && n in c.nodes && n != c.root && p in c.nodes && c.nodes[p].kind.Folder? && k in c.nodes
    requires !Under(c, p, n)
    ensures NodeOk(Relinked(c, n, p), k)
  {
    hide TreeOk, Under, ValidName;
    Parts(c);
    RelinkedDepth(c, n, p, k);
    EveryNode(c, n);
    EveryNode(c, k);
  }

  lemma {:induction false} RelinkedDepth(c: Catalog, n: Id, p: Id, k: Id)
    requires TreeOk(c) && n in c.nodes && n != c.root && p in c.nodes && k in c.nodes
    requires !Under(c, p, n)
    ensures var d := Relinked(c, n, p);
      && k in d.depth && d.depth[c.root] == 0
      && (k != c.root ==>
           d.nodes[k].parent.Some? && d.nodes[k].parent.value in d.depth &&
             d.depth[k] == d.depth[d.nodes[k].parent.value] + 1)
  {
    hide TreeOk, ValidName, NodeOk;
    RootIsFolder(c);
    Linked(c, n);
    Linked(c, p);
    Linked(c, c.root);
    Linked(c, k);
    assert !Under(c, c.root, n);
    hide Under;
    if Under(c, k, n) { UnderIsDeeper(c, k, n); }
    if k != c.root && k != n {
      var q := c.nodes[k].parent.value;
      Linked(c, q);
      UnderParent(c, k, n);
      if Under(c, q, n) { UnderIsDeeper(c, q, n); }
    }
  }

  /** Whatever lies outside a subtree has its parent outside too. */
  lemma {:induction false} DeleteKeepsTree(c: Catalog, n: Id)
    requires TreeOk(c) && n in c.nodes && n != c.root
    ensures TreeOk(Without(c, Subtree(c, n)))
  {
    var d := Without(c, Subtree(c, n));
    assert NodeOk(c, c.root);
    assert !Under(c, c.root, n);
    forall k | k in d.nodes
      ensures NodeOk(d, k)
    {
      assert NodeOk(c, k);
      if k != c.root { UnderParent(c, k, n); }
    }
  }

  lemma {:induction false} NothingUnderConnection(c: Catalog, k: Id, n: Id)
    requires TreeOk(c) && k in c.nodes && n in c.nodes && c.nodes[n].kind.Connection?
    ensures Under(c, k, n) ==> k == n
    decreases DepthOf(c, k)
  {
    assert NodeOk(c, k);
    if k != n && k != c.root { NothingUnderConnection(c, c.nodes[k].parent.value, n); }
  }

  lemma {:induction false} ConnectionSubtree(c: Catalog, n: Id)
    requires TreeOk(c) && n in c.nodes && c.nodes[n].kind.Connection?
    ensures Subtree(c, n) == {n} && n != c.root
  {
    assert NodeOk(c, c.root);
    forall k | k in c.nodes && Under(c, k, n)
      ensures k == n
    {
      NothingUnderConnection(c, k, n);
    }
  }

  /** Every sequence of transactions keeps one tree, and only evolves it. */
  lemma {:induction false} RunsKeepTree(c: Catalog, requests: seq<Request>)
    requires TreeOk(c) && Fresh(c, requests)
    ensures TreeOk(After(c, requests)) && Evolves(c, After(c, requests))
    decreases |requests|
  {
    EvolvesReflexive(c);
    hide TreeOk, Evolves, Transact, Next;
    if requests != [] {
      StepKeepsTree(c, requests[0]);
      RunsKeepTree(Next(c, requests[0]), requests[1..]);
      EvolvesTransitive(c, Next(c, requests[0]), After(c, requests));
    }
  }

  lemma EvolvesReflexive(c: Catalog)
    requires TreeOk(c)
    ensures Evolves(c, c)
  {
  }

  lemma StepKeepsTree(c: Catalog, r: Request)
    requires TreeOk(c) && FreshId(c, r)
    ensures TreeOk(Next(c, r)) && Evolves(c, Next(c, r))
  {
    EvolvesReflexive(c);
    hide TreeOk, Evolves, Transact;
    if Transact(c, r).Ok? {
      TransactKeepsTree(c, r);
      TransactEvolves(c, r);
    }
  }

  /** A refused transaction is rolled back. */
  ghost function Next(c: Catalog, r: Request): Catalog {
    match Transact(c, r)
    case Ok(d) => d
    case Err(_) => c
  }

  ghost function After(c: Catalog, requests: seq<Request>): Catalog
    decreases |requests|
  {
    if requests == [] then c else After(Next(c, requests[0]), requests[1..])
  }

  ghost predicate Fresh(c: Catalog, requests: seq<Request>)
    decreases |requests|
  {
    requests == [] || (FreshId(c, requests[0]) && Fresh(Next(c, requests[0]), requests[1..]))
  }

  ghost predicate Committed(c: Catalog, requests: seq<Request>)
    decreases |requests|
  {
    requests == [] || (Transact(c, requests[0]).Ok? && Committed(Next(c, requests[0]), requests[1..]))
  }

  lemma {:induction false} AfterOneMore(c: Catalog, requests: seq<Request>, r: Request)
    requires Fresh(c, requests) && FreshId(After(c, requests), r)
    ensures Fresh(c, requests + [r]) && After(c, requests + [r]) == Next(After(c, requests), r)
    ensures Committed(c, requests) && Transact(After(c, requests), r).Ok? ==> Committed(c, requests + [r])
    decreases |requests|
  {
    hide Next, Transact;
    if requests == [] {
      assert requests + [r] == [r] && [r][1..] == [];
      assert Fresh(Next(c, r), []) && After(Next(c, r), []) == Next(c, r) && Committed(Next(c, r), []);
    } else {
      assert (requests + [r])[1..] == requests[1..] + [r];
      AfterOneMore(Next(c, requests[0]), requests[1..], r);
    }
  }

  /** c is what these requests, committed one after the other, have made of `origin`. */
  ghost predicate Logs(origin: Catalog, log: seq<Request>, c: Catalog) {
    TreeOk(origin) && Fresh(origin, log) && Committed(origin, log) && After(origin, log) == c
  }

  lemma LogOneMore(origin: Catalog, log: seq<Request>, c: Catalog, r: Request)
    requires Logs(origin, log, c) && FreshId(c, r) && Transact(c, r).Ok?
    ensures Logs(origin, log + [r], Transact(c, r).value)
  {
    hide TreeOk, Transact;
    AfterOneMore(origin, log, r);
  }

  lemma EmptyLog(c: Catalog)
    requires TreeOk(c)
    ensures Logs(c, [], c)
  {
    hide TreeOk;
  }

  /** c is what the first `at` requests of the log have made of `origin`. */
  ghost predicate Past(origin: Catalog, log: seq<Request>, at: nat, c: Catalog) {
    at <= |log| && After(origin, log[..at]) == c
  }

  lemma Present(origin: Catalog, log: seq<Request>, c: Catalog)
    requires Logs(origin, log, c)
    ensures Past(origin, log, |log|, c)
  {
    assert log[..|log|] == log;
  }

  lemma PastStays(origin: Catalog, log: seq<Request>, longer: seq<Request>, at: nat, c: Catalog)
    requires Past(origin, log, at, c) && log <= longer
    ensures Past(origin, longer, at, c)
  {
    assert longer[..at] == log[..at];
  }

  lemma {:induction false} RunSplit(c: Catalog, a: seq<Request>, b: seq<Request>)
    ensures After(c, a + b) == After(After(c, a), b)
    ensures Fresh(c, a + b) <==> Fresh(c, a) && Fresh(After(c, a), b)
    ensures Committed(c, a + b) <==> Committed(c, a) && Committed(After(c, a), b)
    decreases |a|
  {
    hide Next, Transact;
    if a == [] {
      assert a + b == b;
    } else {
      assert (a + b)[1..] == a[1..] + b;
      RunSplit(Next(c, a[0]), a[1..], b);
    }
  }

  /** The states a log went through: trees that evolve, and on each of them the next request
      was accepted. */
  lemma {:induction false} PastEvolves(origin: Catalog, log: seq<Request>, now: Catalog, at: nat, c: Catalog, end: nat,
                                       d: Catalog)
    requires Logs(origin, log, now) && Past(origin, log, at, c) && Past(origin, log, end, d) && at <= end
    ensures TreeOk(c) && TreeOk(d) && Evolves(c, d)
    ensures end < |log| ==> Transact(d, log[end]).Ok?
  {
    hide TreeOk, Evolves, Transact, Next;
    assert log == log[..end] + log[end..];
    RunSplit(origin, log[..end], log[end..]);
    assert log[..end] == log[..at] + log[at..end];
    RunSplit(origin, log[..at], log[at..end]);
    RunsKeepTree(origin, log[..at]);
    RunsKeepTree(c, log[at..end]);
  }

  /** An operation's row stays, and so does its connection, until somebody works on that
      very operation. */
  lemma {:induction false} OperationStays(c: Catalog, r: Request, n: Id)
    requires n in c.pending && Transact(c, r).Ok?
    requires (r.Credential? || r.End?) ==> r.node != n
    ensures n in Transact(c, r).value.pending
  {
    hide TreeOk, Under, Resolve, PathOf, Shallow, Pins, NameTaken, ValidName;
    if r.DeleteFolder? {
      var m := Select(c, r.folder, Folder).value;
      assert n !in Subtree(c, m) * c.pending;
    }
  }

  /** The checks of MoveFolder that come before its cycle check pass. */
  ghost predicate ReachesCycleCheck(c: Catalog, r: Request, n: Id, p: Id)
    requires r.MoveFolder?
  {
    && Select(c, r.folder, Folder) == Ok(n) && n != c.root && Select(c, r.destination, Folder) == Ok(p)
    && PathOf(c, n).Some? && PathOf(c, p).Some?
    && !Unexpected(c.nodes[p].revision, r.expectedDestination)
    && !Elsewhere(PathOf(c, p).value, r.expectedDestinationPath)
    && !Unexpected(c.nodes[n].revision, r.expected) && !Elsewhere(PathOf(c, n).value, r.expectedPath)
    && Shallow(c, n)
  }

  /** A move is refused as a cycle exactly for destinations in the moved subtree; and those
      are exactly the destinations for which the moved rows are no tree, whatever distances
      one assigns (a destination that already has a child of that name aside). */
  lemma {:induction false} CyclesAreRefusedExactly(c: Catalog, n: Id, p: Id, r: Request)
    requires TreeOk(c) && r.MoveFolder? && ReachesCycleCheck(c, r, n, p)
    ensures Transact(c, r) == Err(FolderCycle) <==> p in Subtree(c, n)
    ensures p in Subtree(c, n) ==> forall depth :: !TreeOk(Relinked(c, n, p).(depth := depth))
    ensures p !in Subtree(c, n) && !NameTaken(c, p, c.nodes[n].name, Some(n)) ==> TreeOk(Relinked(c, n, p))
  {
    hide TreeOk, Under, PathOf, NameTaken, Shallow, Resolve;
    if p in Subtree(c, n) {
      forall depth
        ensures !TreeOk(Relinked(c, n, p).(depth := depth))
      {
        NoTreeWithCycle(c, n, p, Relinked(c, n, p).(depth := depth));
      }
    } else if !NameTaken(c, p, c.nodes[n].name, Some(n)) {
      RelinkKeepsTree(c, n, p);
    }
  }

  lemma NoTreeWithCycle(c: Catalog, n: Id, p: Id, d: Catalog)
    requires TreeOk(c) && n in c.nodes && n != c.root && p in Subtree(c, n)
    requires d.root == c.root && d.nodes == Relinked(c, n, p).nodes
    ensures !TreeOk(d)
  {
    hide TreeOk, Under;
    if TreeOk(d) {
      StillBelow(c, n, p, d, p);
      Linked(d, n);
    }
  }

  lemma {:induction false} StillBelow(c: Catalog, n: Id, p: Id, d: Catalog, k: Id)
    requires TreeOk(c) && TreeOk(d) && n in c.nodes && n != c.root && k in c.nodes && Under(c, k, n)
    requires d.root == c.root && d.nodes == Relinked(c, n, p).nodes
    ensures k in d.depth && n in d.depth && d.depth[n] <= d.depth[k]
    decreases DepthOf(c, k)
  {
    Linked(d, n);
    Linked(d, k);
    if k != n {
      var q := c.nodes[k].parent.value;
      assert k != c.root by { Linked(c, k); }
      Linked(c, k);
      UnderParent(c, k, n);
      hide TreeOk, Under;
      StillBelow(c, n, p, d, q);
    }
  }

  /** A fresh catalog: the root folder alone. */
  function New(root: Id): Catalog {
    Catalog(map[root := Node(None, Folder, "/", 1, None, "")], root, 1, {}, {root}, map[root := 0])
  }

  lemma NewIsTree(root: Id)
    requires root != NO_ID
    ensures TreeOk(New(root))
  {
  }

  /** A fresh catalog after a folder was created under the name ".". */
  function DotFolder(): Catalog {
    Insert(New(1), 2, 1, Folder, ".", "")
  }

  lemma DotFolderIsCreated()
    ensures TreeOk(DotFolder()) && CreateTx(New(1), Folder, ById(1), None, "", ".", "", 2) == Ok(DotFolder())
  {
    assert ValidName(".") by { assert !IsSpace("."[0]); }
    NewIsTree(1);
    hide TreeOk, ValidName;
    InsertKeepsTree(New(1), 2, 1, Folder, ".", "");
    assert Select(New(1), ById(1), Folder) == Ok(1);
    assert PathOf(New(1), 1) == Some("/");
    DotFolderPath();
  }

  lemma DotFolderPath()
    ensures PathOf(DotFolder(), 2) == Some("/.")
  {
    var c := DotFolder();
    assert NamesTo(c, 1, MAX_DEPTH - 1) == Some([]);
    assert NamesTo(c, 2, MAX_DEPTH) == Some([] + ["."]);
    assert [] + ["."] == ["."];
    assert Render(["."]) == "/" + "." == "/.";
  }

  /** Its path leads nowhere. */
  lemma DotFolderIsUnreachable()
    ensures var c := DotFolder();
      && TreeOk(c) && CreateTx(New(1), Folder, ById(1), None, "", ".", "", 2) == Ok(c)
      && PathOf(c, 2) == Some("/.") && Resolve(c, ByPath("/.")) == Err(Invalid)
  {
    DotFolderIsCreated();
    DotFolderPath();
    assert ValidName(".") by { assert !IsSpace("."[0]); }
    hide TreeOk, ValidName, CreateTx;
    ParseRender(["."]);
    assert !ValidSegment(["."][0]);
    assert Render(["."]) == "/.";
    assert Parse("/.").None?;
  }

  /** The revision of a node pins its whole row, reference included, over any run. */
  lemma {:induction false} RevisionPinsRow(c: Catalog, requests: seq<Request>, n: Id)
    requires TreeOk(c) && Fresh(c, requests) && n in c.nodes && n in After(c, requests).nodes
    ensures After(c, requests).nodes[n].revision == c.nodes[n].revision <==> After(c, requests).nodes[n] == c.nodes[n]
  {
    RunsKeepTree(c, requests);
    assert NodeOk(c, n);
  }
}
