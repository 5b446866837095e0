/** Deleting one connection: the service reads it, and leaves it to the credential saga only
    if it then has a credential. What happens between that read and the deletion is what
    the expected revision is for. */
module ConnectionDelete {
  import opened Outcomes
  import opened LogicalPaths
  import opened CatalogTree
  import opened CatalogRepository
  import FolderDelete

  // ------------------------------------------------- what other actors can do

  /** Requests of other actors can lead from c to d. */
  ghost predicate Reaches(c: Catalog, d: Catalog) {
    exists requests :: Fresh(c, requests) && After(c, requests) == d
  }

  lemma ReachesItself(c: Catalog)
    ensures Reaches(c, c)
  {
    assert Fresh(c, []) && After(c, []) == c;
  }

  lemma ReachesNext(c: Catalog, d: Catalog, r: Request)
    requires Reaches(c, d) && FreshId(d, r)
    ensures Reaches(c, Next(d, r))
  {
    hide Next, Fresh, After;
    var requests :| Fresh(c, requests) && After(c, requests) == d;
    AfterOneMore(c, requests, r);
  }

  lemma Step(c: Catalog, d: Catalog, r: Request) returns (e: Catalog)
    requires TreeOk(c) && Reaches(c, d) && FreshId(d, r) && Transact(d, r).Ok?
    ensures e == Transact(d, r).value && Reaches(c, e) && TreeOk(e)
  {
    hide TreeOk, Reaches, Transact;
    e := Transact(d, r).value;
    ReachesNext(c, d, r);
    ReachableTree(c, e);
  }

  lemma ReachableTree(c: Catalog, d: Catalog)
    requires TreeOk(c) && Reaches(c, d)
    ensures TreeOk(d) && Evolves(c, d)
  {
    hide TreeOk, Evolves;
    var requests :| Fresh(c, requests) && After(c, requests) == d;
    RunsKeepTree(c, requests);
  }

  /** A plain deletion commits and drops a credential reference, whose secret then stays in
      the store with nothing in the catalog that names it. */
  ghost predicate Orphans(d: Catalog, selector: Selector, expected: Option<nat>) {
    var m := Select(d, selector, Connection);
    && m.Ok? && m.value in d.nodes && d.nodes[m.value].ref.Some?
    && DeleteConnectionTx(d, selector, expected).Ok?
  }

  /** A connection that was read without a reference is deleted plainly. Others can make
      that deletion drop a reference exactly when it names no expected revision, or finds
      the connection by its path and expects a revision that a successor can have. */
  lemma {:induction false} UnpinnedDeletionsOrphan(c: Catalog, n: Id, selector: Selector, expected: Option<nat>)
    requires TreeOk(c) && n in c.nodes && c.nodes[n].kind.Connection? && c.nodes[n].ref.None? && PathOf(c, n).Some?
    requires selector == ById(n) || (selector == ByPath(PathOf(c, n).value) && Addressable(c, n))
    requires expected.Some? ==> expected.value == c.nodes[n].revision
    ensures (exists d :: Reaches(c, d) && Orphans(d, selector, expected)) <==>
      expected.None? || (selector.ByPath? && expected.value >= 2)
  {
    hide TreeOk, Orphans, Addressable, PathOf, Reaches;
    if expected.None? {
      RememberedMeanwhile(c, n, selector);
    } else if selector.ByPath? && expected.value >= 2 {
      ReplacedMeanwhile(c, n, expected.value);
    }
    forall d | Reaches(c, d) && Orphans(d, selector, expected)
      ensures expected.None? || (selector.ByPath? && expected.value >= 2)
    {
      if expected.Some? { PinnedRow(c, d, n, selector, expected); }
    }
  }

  lemma PinnedRow(c: Catalog, d: Catalog, n: Id, selector: Selector, expected: Option<nat>)
    requires TreeOk(c) && n in c.nodes && c.nodes[n].ref.None? && Reaches(c, d) && Orphans(d, selector, expected)
    requires expected == Some(c.nodes[n].revision) && (selector == ById(n) || selector.ByPath?)
    ensures selector.ByPath? && expected.value >= 2
  {
    hide TreeOk, NodeOk, Reaches, Walk, PathOf, Evolves;
    ReachableTree(c, d);
    KnownRow(c, n);
    var m := Select(d, selector, Connection).value;
    HasSecondRevision(d, m);
    if n in d.nodes { SameRevision(c, d, n); }
  }

  /** A connection with a reference has been changed since it was created. */
  lemma HasSecondRevision(c: Catalog, n: Id)
    requires TreeOk(c) && n in c.nodes && c.nodes[n].ref.Some?
    ensures c.nodes[n].revision >= 2
  {
    EveryNode(c, n);
  }

  lemma SameRevision(a: Catalog, b: Catalog, n: Id)
    requires Evolves(a, b) && n in a.issued && n in b.nodes
    ensures n in a.nodes && (a.nodes[n].revision == b.nodes[n].revision ==> a.nodes[n] == b.nodes[n])
  {
  }

  /** Without an expected revision it is enough that the password is remembered meanwhile. */
  lemma RememberedMeanwhile(c: Catalog, n: Id, selector: Selector)
    requires TreeOk(c) && n in c.nodes && c.nodes[n].kind.Connection? && c.nodes[n].ref.None? && PathOf(c, n).Some?
    requires selector == ById(n) || (selector == ByPath(PathOf(c, n).value) && Addressable(c, n))
    ensures exists d :: Reaches(c, d) && Orphans(d, selector, None)
  {
    hide TreeOk, Reaches, Evolves, PathOf, Addressable, Orphans;
    ReachesItself(c);
    var d := Remembered(c, c, n);
    SamePlace(c, d, n, n);
    FoundAgain(d, n, selector);
    Dropped(d, n, selector, None);
  }

  /** A credential operation, once an earlier one has ended, gives a connection its first
      reference. */
  lemma Remembered(c: Catalog, d: Catalog, m: Id) returns (e: Catalog)
    requires TreeOk(c) && Reaches(c, d) && m in d.nodes && d.nodes[m].kind.Connection? && d.nodes[m].ref.None?
    ensures Reaches(c, e) && TreeOk(e) && e.root == d.root && m !in e.pending
    ensures e.nodes == d.nodes[m := d.nodes[m].(ref := Some(1), details := "", revision := d.nodes[m].revision + 1)]
  {
    hide TreeOk, Reaches;
    e := Step(c, d, End(m));
    e := Step(c, e, Begin(m));
    e := Step(c, e, Credential(m, d.nodes[m].revision, None, SetRef(1), ""));
    e := Step(c, e, End(m));
  }

  /** What a path selector finds is what stands there now. */
  lemma FoundAgain(d: Catalog, m: Id, selector: Selector)
    requires TreeOk(d) && m in d.nodes && d.nodes[m].kind.Connection? && PathOf(d, m).Some?
    requires selector == ById(m) || (selector == ByPath(PathOf(d, m).value) && Addressable(d, m))
    ensures Select(d, selector, Connection) == Ok(m)
  {
    PathsAndIdsAreInverse(d, m);
    hide TreeOk, PathOf, Addressable;
  }

  /** m stands in d where n stood in c: the same parent and name, and no folder differs. */
  ghost predicate TakesPlace(c: Catalog, d: Catalog, n: Id, m: Id) {
    && n in c.nodes && m in d.nodes && d.root == c.root && c.nodes[n].kind.Connection?
    && d.nodes[m].parent == c.nodes[n].parent && d.nodes[m].name == c.nodes[n].name
    && forall k | k in c.nodes && c.nodes[k].kind.Folder? ::
         k in d.nodes && d.nodes[k].parent == c.nodes[k].parent && d.nodes[k].name == c.nodes[k].name
  }

  lemma {:induction false} SameFolderNames(c: Catalog, d: Catalog, n: Id, m: Id, k: Id, steps: nat)
    requires TreeOk(c) && TakesPlace(c, d, n, m) && k in c.nodes && c.nodes[k].kind.Folder?
    ensures NamesTo(c, k, steps) == NamesTo(d, k, steps)
    decreases steps
  {
    hide TreeOk;
    Linked(c, k);
    if k != c.root && steps > 0 { SameFolderNames(c, d, n, m, c.nodes[k].parent.value, steps - 1); }
  }

  lemma SamePlace(c: Catalog, d: Catalog, n: Id, m: Id)
    requires TreeOk(c) && TreeOk(d) && TakesPlace(c, d, n, m) && d.nodes[m].kind.Connection?
    ensures PathOf(d, m) == PathOf(c, n) && (Addressable(d, m) <==> Addressable(c, n))
  {
    hide TreeOk, ValidName, ValidSegment;
    Linked(c, n);
    Linked(d, m);
    RootIsFolder(c);
    RootIsFolder(d);
    SameFolderNames(c, d, n, m, c.nodes[n].parent.value, MAX_DEPTH - 1);
    assert NamesTo(d, m, MAX_DEPTH) == NamesTo(c, n, MAX_DEPTH);
  }

  /** A path with an expected revision k of at least 2 does not pin either: the connection
      may be deleted and another one created in its place, be edited k - 2 times, and have
      its password remembered. */
  lemma ReplacedMeanwhile(c: Catalog, n: Id, k: nat)
    requires TreeOk(c) && n in c.nodes && c.nodes[n].kind.Connection? && PathOf(c, n).Some? && Addressable(c, n) &&
      k >= 2
    ensures exists d :: Reaches(c, d) && Orphans(d, ByPath(PathOf(c, n).value), Some(k))
  {
    hide TreeOk, Reaches, Addressable, PathOf, Evolves;
    var d, m := Successor(c, n);
    var e := Edited(c, d, m, k - 2);
    var f := Remembered(c, e, m);
    SamePlace(c, f, n, m);
    FoundAgain(f, m, ByPath(PathOf(c, n).value));
    hide Select, Orphans;
    Dropped(f, m, ByPath(PathOf(c, n).value), Some(k));
  }

  lemma Dropped(f: Catalog, m: Id, selector: Selector, expected: Option<nat>)
    requires Select(f, selector, Connection) == Ok(m) && m in f.nodes && f.nodes[m].ref.Some? && PathOf(f, m).Some?
    requires m !in f.pending
    requires expected.Some? ==> f.nodes[m].revision == expected.value
    ensures Orphans(f, selector, expected)
  {
  }

  /** Another connection takes the place. */
  lemma Successor(c: Catalog, n: Id) returns (e: Catalog, m: Id)
    requires TreeOk(c) && n in c.nodes && c.nodes[n].kind.Connection? && PathOf(c, n).Some?
    ensures Reaches(c, e) && TreeOk(e) && TakesPlace(c, e, n, m) && PathOf(e, m).Some?
    ensures e.nodes[m] == Node(c.nodes[n].parent, Connection, c.nodes[n].name, 1, None, "")
  {
    hide TreeOk, PathOf, Reaches, NameTaken;
    HasParent(c, n);
    var d := Vacated(c, n);
    var p := c.nodes[n].parent.value;
    m := FreshIdExists(d.issued);
    NodesAreIssued(d);
    Vacant(c, n, d);
    ParentReadable(c, n, d);
    Linked(c, n);
    e := Insert(d, m, p, Connection, c.nodes[n].name, "");
    InsertKeepsTree(d, m, p, Connection, c.nodes[n].name, "");
    SamePlace(c, e, n, m);
    ParentSelected(d, p);
    assert CreateTx(d, Connection, ById(p), None, "", c.nodes[n].name, "", m) == Ok(e);
    e := Step(c, d, Create(Connection, ById(p), None, "", c.nodes[n].name, "", m));
  }

  lemma ParentSelected(d: Catalog, p: Id)
    requires p in d.nodes && d.nodes[p].kind.Folder?
    ensures Select(d, ById(p), Folder) == Ok(p)
  {
  }

  /** The connection is deleted, its operation having ended. */
  lemma Vacated(c: Catalog, n: Id) returns (d: Catalog)
    requires TreeOk(c) && n in c.nodes && c.nodes[n].kind.Connection? && PathOf(c, n).Some?
    ensures Reaches(c, d) && TreeOk(d) && d.nodes == c.nodes - {n} && d.root == c.root && d.depth == c.depth
  {
    hide TreeOk, PathOf, Reaches;
    ReachesItself(c);
    d := Step(c, c, End(n));
    StillProjects(c, n, d);
    d := Step(c, d, Request.DeleteConnection(ById(n), None));
  }

  lemma NodesAreIssued(c: Catalog)
    requires TreeOk(c)
    ensures c.nodes.Keys <= c.issued
  {
  }

  lemma Vacant(c: Catalog, n: Id, d: Catalog)
    requires TreeOk(c) && n in c.nodes && n != c.root && d.nodes == c.nodes - {n}
    ensures c.nodes[n].parent.Some? && !NameTaken(d, c.nodes[n].parent.value, c.nodes[n].name, None)
  {
  }

  lemma ParentReadable(c: Catalog, n: Id, d: Catalog)
    requires TreeOk(c) && TreeOk(d) && n in c.nodes && c.nodes[n].kind.Connection? && PathOf(c, n).Some?
    requires d.nodes == c.nodes - {n} && d.depth == c.depth
    ensures c.nodes[n].parent.Some? && c.nodes[n].parent.value in d.nodes && PathOf(d, c.nodes[n].parent.value).Some?
  {
    hide TreeOk, ValidName;
    RootIsFolder(c);
    Linked(c, n);
    NamesToDepth(c, n, MAX_DEPTH);
    NamesToDepth(d, c.nodes[n].parent.value, MAX_DEPTH);
  }

  /** Editing bumps the revision. */
  lemma {:induction false} Edited(c: Catalog, d: Catalog, m: Id, times: nat) returns (e: Catalog)
    requires TreeOk(c) && TreeOk(d) && Reaches(c, d) && m in d.nodes && d.nodes[m].kind.Connection? &&
      PathOf(d, m).Some?
    ensures Reaches(c, e) && e.root == d.root
    ensures e.nodes == d.nodes[m := d.nodes[m].(revision := d.nodes[m].revision + times)]
    decreases times
  {
    hide TreeOk, PathOf, Reaches, Evolves;
    e := d;
    if times > 0 {
      var next := EditedOnce(c, d, m);
      e := Edited(c, next, m, times - 1);
    }
  }

  lemma EditedOnce(c: Catalog, d: Catalog, m: Id) returns (e: Catalog)
    requires TreeOk(c) && TreeOk(d) && Reaches(c, d) && m in d.nodes && d.nodes[m].kind.Connection? &&
      PathOf(d, m).Some?
    ensures Reaches(c, e) && TreeOk(e) && e.root == d.root && PathOf(e, m).Some?
    ensures e.nodes == d.nodes[m := d.nodes[m].(revision := d.nodes[m].revision + 1)]
  {
    hide TreeOk, PathOf, Reaches, Evolves;
    RootIsFolder(d);
    Linked(d, m);
    var edit := Request.UpdateConnection(ById(m), None, None, None);
    e := Rewrite(d, m, d.nodes[m]);
    assert Next(d, edit) == e;
    ReachesNext(c, d, edit);
    ReachableTree(c, e);
    StillProjects(d, m, e);
  }

  /** How the deletion of a connection went: refused, done by a plain transaction, or by the
      saga. */
  datatype Deletion = Refused | Plain | Saga

  class ConnectionService {
    const folders: FolderDelete.FolderService

    constructor (folders: FolderDelete.FolderService)
      ensures this.folders == folders
    {
      this.folders := folders;
    }

    /** Delete, among other actors. `read` and `last` are states that the catalog was in: the
        one the connection was read in, and the one the request that deleted it was made on.
        Named by id and with an expected revision, or undisturbed, the plain path drops no
        credential reference; the saga drops the very row that was read. */
    method Delete(connection: Selector, expected: Option<nat>)
      returns (r: Deletion, ghost read: Catalog, ghost at: nat, ghost last: Catalog, ghost end: nat)
      requires folders.repository.Valid()
      modifies folders.repository
      ensures folders.repository.Valid() && old(folders.repository.log) <= folders.repository.log
      ensures |old(folders.repository.log)| <= at <= end <= |folders.repository.log|
      ensures folders.repository.Saw(at, read) && folders.repository.Saw(end, last)
      ensures TreeOk(read) && TreeOk(last) && Evolves(old(folders.repository.State()), read) && Evolves(read, last)
      ensures r.Plain? ==>
        && folders.repository.log == folders.repository.log[..end] + [Request.DeleteConnection(connection, expected)]
        && DeleteConnectionTx(last, connection, expected) == Ok(folders.repository.State())
      ensures r.Plain? ==>
        var n := Select(last, connection, Connection).value;
        && n in last.nodes && n !in folders.repository.nodes
        && (folders.repository.alone || (expected.Some? && connection.ById?) ==> last.nodes[n].ref.None?)
      ensures r.Saga? ==>
        && Select(read, connection, Connection).Ok?
        && var n := Select(read, connection, Connection).value;
        && n in read.nodes && read.nodes[n].ref.Some? && n !in folders.repository.nodes
        && end < |folders.repository.log| && Drops(folders.repository.log[end], n)
        && n in last.nodes && last.nodes[n] == read.nodes[n]
      ensures folders.repository.alone && folders.calm ==>
        (r.Refused? <==> !Deletable(old(folders.repository.State()), connection, expected))
    {
      hide TreeOk, Logs, Past, Evolves, Resolve, PathOf, DeleteConnectionTx;
      var repository := folders.repository;
      read, at := repository.State(), |repository.log|;
      last, end := read, at;
      FolderDelete.Here(repository);
      if connection.Malformed? || expected == Some(0) {
        Undeletable(read, connection, expected);
        return Refused, read, at, last, end;
      }
      repository.Others({});
      read, at := repository.State(), |repository.log|;
      last, end := read, at;
      FolderDelete.Here(repository);
      var current := GetConnection(connection);
      if current.Err? || Unexpected(current.value.row.revision, expected) {
        return Refused, read, at, last, end;
      }
      if current.value.row.ref.Some? {
        r, last, end := DeleteBySaga(current.value, read, at);
      } else {
        r, last, end := DeletePlainly(connection, expected, read, at);
      }
    }

    method DeleteBySaga(current: Projection, ghost read: Catalog, ghost at: nat)
      returns (r: Deletion, ghost last: Catalog, ghost end: nat)
      requires folders.repository.Valid() && folders.repository.State() == read
      requires at == |folders.repository.log| && folders.repository.Saw(at, read)
      requires Projects(read, current) && current.row.kind.Connection?
      modifies folders.repository
      ensures folders.repository.Valid() && old(folders.repository.log) <= folders.repository.log
      ensures at <= end <= |folders.repository.log|
      ensures folders.repository.Saw(at, read) && folders.repository.Saw(end, last)
      ensures TreeOk(last) && Evolves(read, last) && !r.Plain?
      ensures r.Saga? ==>
        && current.id !in folders.repository.nodes
        && end < |folders.repository.log| && Drops(folders.repository.log[end], current.id)
        && current.id in last.nodes && last.nodes[current.id] == current.row
      ensures folders.repository.alone && folders.calm ==>
        (r.Refused? <==> current.id in old(folders.repository.pending))
    {
      hide TreeOk, Logs, Past, Evolves, PathOf;
      var repository := folders.repository;
      ghost var log := repository.log;
      var ok;
      ok, end := folders.DeleteWithCredential(current);
      if !ok { end := |repository.log|; }
      last := After(repository.origin, repository.log[..end]);
      PastStays(repository.origin, log, repository.log, at, read);
      Reached(repository, end, last);
      PastEvolves(repository.origin, repository.log, repository.State(), at, read, end, last);
      if ok { DroppedAsRead(read, last, current); }
      r := if ok then Saga else Refused;
    }

    method DeletePlainly(connection: Selector, expected: Option<nat>, ghost read: Catalog, ghost at: nat)
      returns (r: Deletion, ghost last: Catalog, ghost end: nat)
      requires folders.repository.Valid() && folders.repository.State() == read
      requires at == |folders.repository.log| && folders.repository.Saw(at, read)
      requires Select(read, connection, Connection).Ok?
      requires var n := Select(read, connection, Connection).value;
        PathOf(read, n).Some? && read.nodes[n].ref.None? && !Unexpected(read.nodes[n].revision, expected)
      modifies folders.repository
      ensures folders.repository.Valid() && old(folders.repository.log) <= folders.repository.log
      ensures at <= end <= |folders.repository.log|
      ensures folders.repository.Saw(at, read) && folders.repository.Saw(end, last)
      ensures TreeOk(last) && Evolves(read, last) && !r.Saga?
      ensures r.Plain? ==>
        && folders.repository.log == folders.repository.log[..end] + [Request.DeleteConnection(connection, expected)]
        && DeleteConnectionTx(last, connection, expected) == Ok(folders.repository.State())
      ensures r.Plain? ==>
        var n := Select(last, connection, Connection).value;
        && n in last.nodes && n !in folders.repository.nodes
        && (folders.repository.alone || (expected.Some? && connection.ById?) ==> last.nodes[n].ref.None?)
      ensures folders.repository.alone ==>
        (r.Refused? <==> Select(read, connection, Connection).value in old(folders.repository.pending))
    {
      hide TreeOk, Logs, Past, Evolves, Resolve, PathOf;
      var repository := folders.repository;
      ghost var log := repository.log;
      repository.Others({});
      last, end := repository.State(), |repository.log|;
      Present(repository.origin, repository.log, last);
      ghost var middle := repository.log;
      var deleted := repository.DeleteConnection(connection, expected);
      PastStays(repository.origin, middle, repository.log, end, last);
      PastStays(repository.origin, log, repository.log, at, read);
      if deleted.Ok? { DeletedRow(read, last, connection, expected, repository.State()); }
      r := if deleted.Ok? then Plain else Refused;
    }

    method GetConnection(connection: Selector) returns (r: Result<Projection>)
      requires TreeOk(folders.repository.State())
      ensures match Select(folders.repository.State(), connection, Connection)
              case Err(e) => r == Err(e)
              case Ok(n) =>
                if PathOf(folders.repository.State(), n).Some? then
                  r.Ok? && r.value.id == n && Projects(folders.repository.State(), r.value)
                            else r == Err(NoPath)
    {
      hide TreeOk, PathOf, Resolve;
      var selected := folders.repository.SelectKind(connection, Connection);
      if selected.Err? {
        return Err(selected.error);
      }
      r := folders.repository.Project(selected.value);
    }
  }

  ghost predicate Deletable(c: Catalog, connection: Selector, expected: Option<nat>) {
    var n := Select(c, connection, Connection);
    && n.Ok? && n.value in c.nodes && PathOf(c, n.value).Some?
    && !Unexpected(c.nodes[n.value].revision, expected) && n.value !in c.pending
  }

  lemma Undeletable(c: Catalog, connection: Selector, expected: Option<nat>)
    requires TreeOk(c) && (connection.Malformed? || expected == Some(0))
    ensures !Deletable(c, connection, expected)
  {
  }

  /** The catalog step of a saga that deletes this connection. */
  predicate Drops(request: Request, n: Id) {
    request.Credential? && request.node == n && request.change.DropNode?
  }

  lemma Reached(repository: Repository, end: nat, c: Catalog)
    requires end <= |repository.log| && c == After(repository.origin, repository.log[..end])
    ensures Past(repository.origin, repository.log, end, c)
  {
  }

  /** The compare-and-swap of the saga finds the row that was read. */
  lemma DroppedAsRead(read: Catalog, last: Catalog, p: Projection)
    requires TreeOk(read) && Evolves(read, last) && Projects(read, p)
    requires Transact(last, FolderDelete.DropRequest(p)).Ok?
    ensures p.id in last.nodes && last.nodes[p.id] == p.row
  {
    hide TreeOk, PathOf, Transact;
    KnownRow(read, p.id);
    AcceptedDrop(last, p);
  }

  lemma AcceptedDrop(c: Catalog, p: Projection)
    requires Transact(c, FolderDelete.DropRequest(p)).Ok?
    ensures p.id in c.nodes && c.nodes[p.id].revision == p.row.revision
  {
  }

  /** The row a plain deletion drops, when the connection was named by id. */
  lemma DeletedRow(read: Catalog, last: Catalog, connection: Selector, expected: Option<nat>, after: Catalog)
    requires TreeOk(read) && Evolves(read, last) && DeleteConnectionTx(last, connection, expected) == Ok(after)
    requires Select(read, connection, Connection).Ok?
    requires read.nodes[Select(read, connection, Connection).value].ref.None?
    requires !Unexpected(read.nodes[Select(read, connection, Connection).value].revision, expected)
    ensures Select(last, connection, Connection).Ok?
    ensures var n := Select(last, connection, Connection).value;
      && n in last.nodes && n !in after.nodes
      && (last == read || (expected.Some? && connection.ById?) ==> last.nodes[n].ref.None?)
  {
    hide TreeOk, PathOf, Walk, Evolves;
    var n := Select(read, connection, Connection).value;
    KnownRow(read, n);
    if n in last.nodes { SameRevision(read, last, n); }
  }
}
