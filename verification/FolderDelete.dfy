/** Deleting a confirmed folder tree while other actors keep changing the catalog: the tree
    is read in several transactions, connections with a stored credential go through the
    credential saga one by one, and the rest is deleted by one pinned transaction. */
module FolderDelete {
  import opened Outcomes
  import opened LogicalPaths
  import opened CatalogTree
  import opened CatalogRepository

  const MAX_SCOPE_DEPTH := 100

  datatype Pending = Pending(folder: Projection, depth: nat)

  datatype Scope = Scope(top: Projection, folders: nat, connections: seq<Projection>, snapshot: seq<NodeRevision>)

  // ------------------------------------------------------------------ snapshots

  ghost function Pairs(s: seq<NodeRevision>): set<NodeRevision> {
    set x | x in s
  }

  /** What a snapshot of these nodes has to say. */
  ghost function Revisions(c: Catalog, nodes: set<Id>): set<NodeRevision>
    requires nodes <= c.nodes.Keys
  {
    set n | n in nodes :: NodeRevision(n, c.nodes[n].revision)
  }

  lemma PinsMeansPairs(c: Catalog, nodes: set<Id>, s: seq<NodeRevision>)
    requires nodes <= c.nodes.Keys
    ensures Pins(c, nodes, s) <==> ValidSnapshot(s) && Pairs(s) == Revisions(c, nodes)
  {
    if ValidSnapshot(s) && Pairs(s) == Revisions(c, nodes) {
      forall i | 0 <= i < |s|
        ensures s[i].id in nodes && s[i].revision == c.nodes[s[i].id].revision
      {
        assert s[i] in Revisions(c, nodes);
      }
      forall n | n in nodes
        ensures exists i | 0 <= i < |s| :: s[i].id == n
      {
        assert NodeRevision(n, c.nodes[n].revision) in Pairs(s);
      }
    }
    if Pins(c, nodes, s) {
      forall x | x in Revisions(c, nodes)
        ensures x in Pairs(s)
      {
        var i :| 0 <= i < |s| && s[i].id == x.id;
        assert s[i] == x;
      }
    }
  }

  lemma {:induction false} PairsSize(s: seq<NodeRevision>)
    requires ValidSnapshot(s)
    ensures |Pairs(s)| == |s|
  {
    if s != [] {
      var init := s[..|s| - 1];
      assert s == init + [s[|s| - 1]];
      assert Pairs(s) == Pairs(init) + {s[|s| - 1]};
      assert s[|s| - 1] !in Pairs(init);
      PairsSize(init);
    }
  }

  method IsValidSnapshot(snapshot: seq<NodeRevision>) returns (ok: bool)
    ensures ok <==> snapshot != [] && ValidSnapshot(snapshot)
  {
    if |snapshot| == 0 {
      return false;
    }
    hide ValidSnapshot, SnapshotIds;
    var seen: set<Id> := {};
    NoSnapshotIds();
    for i := 0 to |snapshot|
      invariant seen == SnapshotIds(snapshot[..i]) && ValidSnapshot(snapshot[..i])
    {
      SnapshotStep(snapshot, i);
      if snapshot[i].id == NO_ID || snapshot[i].revision == 0 {
        return false;
      }
      if snapshot[i].id in seen {
        return false;
      }
      seen := seen + {snapshot[i].id};
    }
    assert snapshot[..|snapshot|] == snapshot;
    return true;
  }

  /** The revision that a snapshot ends up giving a node: its last entry, 0 without one. */
  function LastRevision(s: seq<NodeRevision>, id: Id): nat
    decreases |s|
  {
    if s == [] then 0
    else if s[|s| - 1].id == id then s[|s| - 1].revision
    else LastRevision(s[..|s| - 1], id)
  }

  /** On snapshots that name each id once, an entry is its last one. */
  lemma {:induction false} LastIsOnly(s: seq<NodeRevision>, x: NodeRevision)
    requires ValidSnapshot(s) && x.revision != 0
    ensures LastRevision(s, x.id) == x.revision <==> x in s
    decreases |s|
  {
    if s != [] {
      var init := s[..|s| - 1];
      assert s == init + [s[|s| - 1]];
      if s[|s| - 1].id == x.id {
        assert forall k | 0 <= k < |init| :: s[k].id != x.id;
      } else {
        LastIsOnly(init, x);
      }
    }
  }

  lemma SameOnValid(left: seq<NodeRevision>, right: seq<NodeRevision>)
    requires ValidSnapshot(left) && ValidSnapshot(right)
    ensures Pairs(left) == Pairs(right) <==>
      |left| == |right| && forall k | 0 <= k < |right| :: LastRevision(left, right[k].id) == right[k].revision
  {
    PairsSize(left);
    PairsSize(right);
    forall k | 0 <= k < |right|
      ensures LastRevision(left, right[k].id) == right[k].revision <==> right[k] in Pairs(left)
    {
      LastIsOnly(left, right[k]);
    }
    hide ValidSnapshot;
    if Pairs(left) == Pairs(right) {
      assert forall k | 0 <= k < |right| :: right[k] in Pairs(right);
    }
    if |left| == |right| && forall k | 0 <= k < |right| :: LastRevision(left, right[k].id) == right[k].revision {
      assert Pairs(right) <= Pairs(left);
      SubsetSize(Pairs(right), Pairs(left));
    }
  }

  /** sameSnapshot: it looks up the entries of one among the last entries of the other, which
      on valid snapshots means that they are equal as sets of pairs. */
  method SameSnapshot(left: seq<NodeRevision>, right: seq<NodeRevision>) returns (same: bool)
    ensures same <==>
      |left| == |right| && forall k | 0 <= k < |right| :: LastRevision(left, right[k].id) == right[k].revision
    ensures ValidSnapshot(left) && ValidSnapshot(right) ==> (same <==> Pairs(left) == Pairs(right))
  {
    hide ValidSnapshot, Pairs;
    if ValidSnapshot(left) && ValidSnapshot(right) { SameOnValid(left, right); }
    if |left| != |right| {
      return false;
    }
    var want: map<Id, nat> := map[];
    for i := 0 to |left|
      invariant forall id :: (if id in want then want[id] else 0) == LastRevision(left[..i], id)
    {
      assert left[..i + 1][..i] == left[..i];
      want := want[left[i].id := left[i].revision];
    }
    assert left[..|left|] == left;
    for i := 0 to |right|
      invariant forall k | 0 <= k < i :: LastRevision(left, right[k].id) == right[k].revision
    {
      if (if right[i].id in want then want[right[i].id] else 0) != right[i].revision {
        return false;
      }
    }
    return true;
  }

  // ------------------------------------------------------------------ the scope

  /** The scope describes the folder's whole subtree in one state of the catalog. */
  ghost predicate Exact(c: Catalog, scope: Scope) {
    && Projects(c, scope.top) && c.nodes[scope.top.id].kind.Folder?
    && Pins(c, Subtree(c, scope.top.id), scope.snapshot)
    && Recorded(c, Subtree(c, scope.top.id), scope.snapshot, scope.connections, scope.folders)
  }

  /** The bookkeeping for the nodes visited so far. */
  ghost predicate Recorded(c: Catalog, seen: set<Id>, nodes: seq<NodeRevision>, connections: seq<Projection>,
                           folders: nat)
  {
    && seen <= c.nodes.Keys && ValidSnapshot(nodes) && Pairs(nodes) == Revisions(c, seen)
    && (forall i | 0 <= i < |connections| :: Projects(c, connections[i]))
    && (forall i, j | 0 <= i < j < |connections| :: connections[i].id != connections[j].id)
    && ProjectedIds(connections) == OfKind(c, seen, Connection)
    && folders == |OfKind(c, seen, Folder)|
    && forall k | k in seen :: PathOf(c, k).Some?
  }

  lemma RecordOne(c: Catalog, seen: set<Id>, nodes: seq<NodeRevision>, connections: seq<Projection>, folders: nat,
                  p: Projection)
    requires TreeOk(c) && Recorded(c, seen, nodes, connections, folders) && Projects(c, p) && p.id !in seen
    ensures p.row.kind.Folder? ==>
      Recorded(c, seen + {p.id}, nodes + [NodeRevision(p.id, p.row.revision)], connections, folders + 1)
    ensures p.row.kind.Connection? ==>
      Recorded(c, seen + {p.id}, nodes + [NodeRevision(p.id, p.row.revision)], connections + [p], folders)
  {
    hide TreeOk, PathOf, ProjectedIds, OfKind, Pairs, Revisions, ValidSnapshot;
    KnownRow(c, p.id);
    PairOneMore(c, seen, nodes, p);
    AddKind(c, seen, p.id, Folder);
    NewConnection(c, seen, connections, p);
  }

  lemma NewConnection(c: Catalog, seen: set<Id>, connections: seq<Projection>, p: Projection)
    requires ProjectedIds(connections) == OfKind(c, seen, Connection) && Projects(c, p) && p.id !in seen
    ensures forall i | 0 <= i < |connections| :: connections[i].id != p.id
    ensures ProjectedIds(connections + [p]) == ProjectedIds(connections) + {p.id}
    ensures OfKind(c, seen + {p.id}, Connection) ==
      OfKind(c, seen, Connection) + if p.row.kind.Connection? then {p.id} else {}
  {
    hide PathOf;
    assert forall i | 0 <= i < |connections| :: connections[i].id in ProjectedIds(connections);
    ProjectedOneMore(connections, p);
    hide ProjectedIds;
  }

  lemma PairOneMore(c: Catalog, seen: set<Id>, nodes: seq<NodeRevision>, p: Projection)
    requires seen <= c.nodes.Keys && ValidSnapshot(nodes) && Pairs(nodes) == Revisions(c, seen)
    requires p.id in c.nodes && p.row == c.nodes[p.id] && p.id !in seen && p.id != NO_ID && p.row.revision != 0
    ensures ValidSnapshot(nodes + [NodeRevision(p.id, p.row.revision)])
    ensures Pairs(nodes + [NodeRevision(p.id, p.row.revision)]) == Revisions(c, seen + {p.id})
  {
    assert forall i | 0 <= i < |nodes| :: nodes[i] in Pairs(nodes);
    assert Revisions(c, seen + {p.id}) == Revisions(c, seen) + {NodeRevision(p.id, p.row.revision)};
    assert Pairs(nodes + [NodeRevision(p.id, p.row.revision)]) == Pairs(nodes) + {NodeRevision(p.id, p.row.revision)};
  }

  ghost function PendingIds(pending: seq<Pending>): set<Id> {
    set i | 0 <= i < |pending| :: pending[i].folder.id
  }

  /** The breadth-first frontier: what was visited and what waits are parts of the subtree
      reached through visited parents, and no child of a visited node is missing. */
  ghost predicate Frontier(c: Catalog, n: Id, seen: set<Id>, waiting: set<Id>) {
    && seen !! waiting && seen + waiting <= Subtree(c, n) && n in seen + waiting
    && (forall x | x in seen + waiting && x != n ::
         x in c.nodes && c.nodes[x].parent.Some? && c.nodes[x].parent.value in seen)
    && (forall k | k in c.nodes && c.nodes[k].parent.Some? && c.nodes[k].parent.value in seen :: k in seen + waiting)
  }

  ghost predicate Queue(c: Catalog, n: Id, pending: seq<Pending>) {
    && (forall i | 0 <= i < |pending| ::
          && Projects(c, pending[i].folder) && pending[i].folder.row.kind.Folder?
          && DepthOf(c, pending[i].folder.id) == DepthOf(c, n) + pending[i].depth)
    && (forall i, j | 0 <= i < j < |pending| :: pending[i].folder.id != pending[j].folder.id)
  }

  lemma FrontierStarts(c: Catalog, n: Id)
    requires TreeOk(c) && n in c.nodes
    ensures Frontier(c, n, {}, {n})
  {
  }

  lemma FrontierStep(c: Catalog, n: Id, seen: set<Id>, waiting: set<Id>, f: Id, connections: set<Id>, folders: set<Id>)
    requires TreeOk(c) && n in c.nodes && Frontier(c, n, seen, waiting) && f in waiting
    requires connections + folders == ChildrenOf(c, {f}) && connections !! folders
    requires forall k | k in connections :: k in c.nodes && c.nodes[k].kind.Connection?
    ensures ChildrenOf(c, {f}) !! seen + waiting
    ensures Frontier(c, n, seen + {f} + connections, waiting - {f} + folders)
  {
    hide TreeOk, Under;
    forall k | k in ChildrenOf(c, {f})
      ensures k != n && k in Subtree(c, n)
    {
      Linked(c, k);
      if k == n { ParentIsNotBelow(c, n); }
      UnderParent(c, k, n);
    }
    assert ChildrenOf(c, {f}) !! seen + waiting;
    forall k | k in c.nodes && c.nodes[k].parent.Some? && c.nodes[k].parent.value in seen + {f} + connections
      ensures k in seen + waiting + ChildrenOf(c, {f})
    {
      Linked(c, k);
    }
  }

  lemma {:induction false} AllVisited(c: Catalog, n: Id, seen: set<Id>, k: Id)
    requires TreeOk(c) && n in c.nodes && Frontier(c, n, seen, {}) && k in Subtree(c, n)
    ensures k in seen
    decreases DepthOf(c, k)
  {
    hide TreeOk, Under;
    if k != n {
      Linked(c, k);
      if k == c.root { UnderIsDeeper(c, k, n); Linked(c, n); }
      UnderParent(c, k, n);
      AllVisited(c, n, seen, c.nodes[k].parent.value);
    }
  }

  lemma FrontierDone(c: Catalog, n: Id, seen: set<Id>)
    requires TreeOk(c) && n in c.nodes && Frontier(c, n, seen, {})
    ensures seen == Subtree(c, n)
  {
    hide TreeOk, Under;
    forall k | k in Subtree(c, n)
      ensures k in seen
    {
      AllVisited(c, n, seen, k);
    }
  }

  /** Paths depend on the rows alone. */
  lemma {:induction false} SameNames(c: Catalog, d: Catalog, n: Id, steps: nat)
    requires c.nodes == d.nodes && c.root == d.root
    ensures NamesTo(c, n, steps) == NamesTo(d, n, steps)
    decreases steps
  {
    if n != c.root && steps > 0 && n in c.nodes && c.nodes[n].parent.Some? {
      SameNames(c, d, c.nodes[n].parent.value, steps - 1);
    }
  }

  lemma SameListing(c: Catalog, d: Catalog, folder: Id, children: Children)
    requires c.nodes == d.nodes && c.root == d.root && ListsChildren(d, folder, children)
    ensures Gathered(c, ChildrenOf(c, {folder}), children.folders, children.connections)
  {
    forall n
      ensures PathOf(c, n) == PathOf(d, n)
    {
      SameNames(c, d, n, MAX_DEPTH);
    }
    hide PathOf;
  }

  lemma GatheredChild(c: Catalog, f: Id, children: Children, i: nat)
    requires TreeOk(c) && f in c.nodes && Gathered(c, ChildrenOf(c, {f}), children.folders, children.connections)
    ensures i < |children.folders| ==>
      children.folders[i].id in ChildrenOf(c, {f}) && DepthOf(c, children.folders[i].id) == DepthOf(c, f) + 1
    ensures i < |children.connections| ==> children.connections[i].id in ChildrenOf(c, {f})
  {
    hide TreeOk, Projects;
    if i < |children.folders| {
      assert children.folders[i].id in ProjectedIds(children.folders);
      Linked(c, children.folders[i].id);
      Linked(c, f);
    }
    if i < |children.connections| { assert children.connections[i].id in ProjectedIds(children.connections); }
  }

  lemma SplitByKind(c: Catalog, f: Id, children: Children)
    requires Gathered(c, ChildrenOf(c, {f}), children.folders, children.connections)
    ensures ProjectedIds(children.folders) !! ProjectedIds(children.connections)
    ensures forall k | k in ProjectedIds(children.connections) :: k in c.nodes && c.nodes[k].kind.Connection?
  {
  }

  lemma QueueOneMore(c: Catalog, n: Id, pending: seq<Pending>, p: Pending)
    requires Queue(c, n, pending) && p.folder.id !in PendingIds(pending)
    requires Projects(c, p.folder) && p.folder.row.kind.Folder? && DepthOf(c, p.folder.id) == DepthOf(c, n) + p.depth
    ensures Queue(c, n, pending + [p])
    ensures PendingIds(pending + [p]) == PendingIds(pending) + {p.folder.id}
  {
    hide Projects;
    assert forall i | 0 <= i < |pending| :: pending[i].folder.id in PendingIds(pending);
    assert (pending + [p])[|pending|] == p;
    assert forall i | 0 <= i < |pending| :: (pending + [p])[i] == pending[i];
  }

  lemma QueueTail(c: Catalog, n: Id, pending: seq<Pending>)
    requires Queue(c, n, pending) && pending != []
    ensures Queue(c, n, pending[1..])
    ensures PendingIds(pending[1..]) == PendingIds(pending) - {pending[0].folder.id}
    ensures pending[0].folder.id in PendingIds(pending)
  {
  }

  lemma SameRevisionSameRows(c: Catalog, d: Catalog)
    requires Evolves(c, d) && d.revision == c.revision
    ensures c.nodes == d.nodes && c.root == d.root
  {
  }

  /** Everything the scope of this selector touches has a path. */
  ghost predicate Readable(c: Catalog, selector: Selector) {
    var s := Select(c, selector, Folder);
    s.Ok? && forall k | k in Subtree(c, s.value) :: PathOf(c, k).Some?
  }

  lemma TopIsReadable(c: Catalog, selector: Selector)
    requires Readable(c, selector)
    ensures Select(c, selector, Folder).Ok? && PathOf(c, Select(c, selector, Folder).value).Some?
  {
  }

  lemma ReadableChildren(c: Catalog, selector: Selector, f: Id)
    requires TreeOk(c) && Readable(c, selector) && f in Subtree(c, Select(c, selector, Folder).value)
    ensures forall k | k in ChildrenOf(c, {f}) :: PathOf(c, k).Some?
  {
  }

  lemma WithinDepth(c: Catalog, selector: Selector, p: Pending)
    requires TreeOk(c) && Readable(c, selector) && p.folder.id in Subtree(c, Select(c, selector, Folder).value)
    requires DepthOf(c, p.folder.id) == DepthOf(c, Select(c, selector, Folder).value) + p.depth
    ensures p.depth <= MAX_SCOPE_DEPTH
  {
    hide TreeOk, Under, Resolve;
    NamesToDepth(c, p.folder.id, MAX_DEPTH);
  }

  lemma VisitStarts(c: Catalog, top: Projection)
    requires TreeOk(c) && Projects(c, top) && top.row.kind.Folder?
    ensures PendingIds([Pending(top, 0)]) == {top.id} && Queue(c, top.id, [Pending(top, 0)])
    ensures Frontier(c, top.id, {}, {top.id}) && Recorded(c, {}, [], [], 0)
  {
    hide TreeOk, PathOf, Frontier;
    FrontierStarts(c, top.id);
    NothingRecorded(c);
    assert [Pending(top, 0)][0].folder.id in PendingIds([Pending(top, 0)]);
  }

  lemma NothingRecorded(c: Catalog)
    ensures Recorded(c, {}, [], [], 0)
  {
    hide PathOf;
    assert OfKind(c, {}, Folder) == {} && OfKind(c, {}, Connection) == ProjectedIds([]);
  }

  lemma Popped(c: Catalog, n: Id, seen: set<Id>, pending: seq<Pending>)
    requires Queue(c, n, pending) && pending != [] && Frontier(c, n, seen, PendingIds(pending))
    ensures var p := pending[0];
      && p.folder.id !in seen && p.folder.id in Subtree(c, n) && Projects(c, p.folder) && p.folder.row.kind.Folder?
      && p.folder.id in c.nodes && c.nodes[p.folder.id].kind.Folder?
      && DepthOf(c, p.folder.id) == DepthOf(c, n) + p.depth
      && Queue(c, n, pending[1..]) && PendingIds(pending) == PendingIds(pending[1..]) + {p.folder.id}
      && p.folder.id !in PendingIds(pending[1..])
  {
    QueueTail(c, n, pending);
    hide PathOf, Under;
  }

  lemma GatheredIds(c: Catalog, f: Id, children: Children)
    requires Gathered(c, ChildrenOf(c, {f}), children.folders, children.connections)
    ensures ProjectedIds(children.connections) + ProjectedIds(children.folders) == ChildrenOf(c, {f})
  {
  }

  lemma Shrinks(c: Catalog, n: Id, before: set<Id>, seen: set<Id>, f: Id, waiting: set<Id>)
    requires before < seen && Frontier(c, n, seen, waiting)
    ensures |before| < |seen| <= |Subtree(c, n)|
  {
    hide Under;
    SubsetSize(before, seen);
    SubsetSize(seen, Subtree(c, n));
    assert |seen - before| == |seen| - |before|;
    assert seen - before != {};
  }

  lemma Finished(c: Catalog, seen: set<Id>, scope: Scope)
    requires TreeOk(c) && Projects(c, scope.top) && scope.top.row.kind.Folder? && seen == Subtree(c, scope.top.id)
    requires Recorded(c, seen, scope.snapshot, scope.connections, scope.folders)
    ensures Exact(c, scope)
    ensures forall k | k in Subtree(c, scope.top.id) :: PathOf(c, k).Some?
  {
    PinsMeansPairs(c, seen, scope.snapshot);
    hide TreeOk, PathOf, Under;
  }

  // ------------------------------------------------------- deleting leaves first

  /** d is c after some connections were deleted. */
  ghost predicate Pruned(c: Catalog, d: Catalog, gone: set<Id>) {
    && d.nodes == c.nodes - gone && d.root == c.root && d.depth == c.depth
    && forall k | k in gone :: k in c.nodes && c.nodes[k].kind.Connection?
  }

  lemma {:induction false} UnderSurvives(c: Catalog, d: Catalog, gone: set<Id>, k: Id, n: Id)
    requires TreeOk(c) && TreeOk(d) && Pruned(c, d, gone) && k in d.nodes && n in c.nodes
    ensures Under(d, k, n) <==> Under(c, k, n)
    decreases DepthOf(c, k)
  {
    Linked(c, k);
    Linked(d, k);
    if k != n && k != c.root {
      UnderParent(c, k, n);
      UnderParent(d, k, n);
      hide TreeOk, Under;
      UnderSurvives(c, d, gone, c.nodes[k].parent.value, n);
    }
  }

  lemma SubtreeSurvives(c: Catalog, d: Catalog, gone: set<Id>, n: Id)
    requires TreeOk(c) && TreeOk(d) && Pruned(c, d, gone) && n in c.nodes
    ensures Subtree(d, n) == Subtree(c, n) - gone
  {
    hide TreeOk, Under;
    forall k | k in d.nodes
      ensures Under(d, k, n) <==> Under(c, k, n)
    {
      UnderSurvives(c, d, gone, k, n);
    }
  }

  lemma {:induction false} WalkSurvives(c: Catalog, d: Catalog, gone: set<Id>, from: Id, names: seq<string>, n: Id)
    requires TreeOk(c) && TreeOk(d) && Pruned(c, d, gone)
    requires Walk(c, from, names) == Ok(n) && n !in gone
    ensures Walk(d, from, names) == Ok(n)
    decreases |names|
  {
    hide TreeOk;
    if names != [] {
      var k := Child(c, from, names[0]).value;
      if k in gone { DeadEnd(c, k, names[1..], n); }
      Linked(c, k);
      Linked(d, k);
      ChildIs(d, k);
      WalkSurvives(c, d, gone, k, names[1..], n);
    }
  }

  /** A walk does not go through a connection. */
  lemma DeadEnd(c: Catalog, k: Id, names: seq<string>, n: Id)
    requires k in c.nodes && c.nodes[k].kind.Connection? && Walk(c, k, names) == Ok(n)
    ensures n == k
  {
  }

  lemma ChildIs(c: Catalog, n: Id)
    requires TreeOk(c) && n in c.nodes && n != c.root
    ensures c.nodes[n].parent.Some? && Child(c, c.nodes[n].parent.value, c.nodes[n].name) == Some(n)
  {
    assert NodeOk(c, n);
  }

  lemma SelectSurvives(c: Catalog, d: Catalog, gone: set<Id>, selector: Selector, n: Id)
    requires TreeOk(c) && TreeOk(d) && Pruned(c, d, gone) && Select(c, selector, Folder) == Ok(n)
    ensures Select(d, selector, Folder) == Ok(n)
  {
    hide TreeOk, Walk;
    if selector.ByPath? { WalkSurvives(c, d, gone, c.root, Parse(selector.path).value, n); }
  }

  // ---------------------------------------------------------------- the promise

  ghost predicate HasCredential(c: Catalog, k: Id) {
    k in c.nodes && c.nodes[k].kind.Connection? && c.nodes[k].ref.Some?
  }

  /** What a completed deletion did, whatever others did meanwhile: the confirmed snapshot
      was the whole subtree in one state `seen`; what the final transaction found of it in
      `last` was unchanged since then and carried no credential reference; it dropped
      exactly that; the rest were connections with a credential; and the counts are those
      of the confirmed subtree. */
  ghost predicate Deleted(seen: Catalog, last: Catalog, after: Catalog, n: Id, recursive: bool,
                          snapshot: seq<NodeRevision>, deletion: Deletion)
  {
    var scope := Subtree(seen, n);
    && (recursive ==> Pins(seen, scope, snapshot))
    && (!recursive ==> scope == {n})
    && (forall k | k in scope && k in last.nodes :: last.nodes[k] == seen.nodes[k] && last.nodes[k].ref.None?)
    && (forall k | k in scope && k !in last.nodes :: HasCredential(seen, k))
    && after.nodes == last.nodes - scope
    && Counts(seen, scope, deletion)
  }

  /** What the deletion needs in order to succeed when nothing interferes. */
  ghost predicate Confirmed(c: Catalog, folder: Selector, expected: Option<nat>, snapshot: seq<NodeRevision>) {
    && Readable(c, folder)
    && var n := Select(c, folder, Folder).value;
    && n != c.root && expected == Some(c.nodes[n].revision)
    && Pins(c, Subtree(c, n), snapshot)
    && Subtree(c, n) * c.pending == {}
  }

  /** The last request of a completed deletion, on the state that it found. */
  ghost predicate FinalStep(request: Request, last: Catalog, after: Catalog, folder: Selector, expected: Option<nat>,
                            recursive: bool)
  {
    && request.DeleteFolder?
    && request.folder == folder && request.expected == expected && request.recursive == recursive
    && DeleteFolderTx(last, folder, expected, recursive, request.snapshot) == Ok(after)
  }

  /** A connection that is as it was read and has no operation pending. */
  ghost predicate Unaltered(c: Catalog, p: Projection) {
    Matches(c, p) && p.id !in c.pending
  }

  ghost predicate Matches(c: Catalog, p: Projection) {
    && p.id in c.nodes && c.nodes[p.id].kind.Connection?
    && c.nodes[p.id].revision == p.row.revision && c.nodes[p.id].ref == p.row.ref
  }

  /** The rows after an undisturbed saga: all of them, or all but that of the connection. */
  ghost predicate Attempted(c: Catalog, d: Catalog, n: Id, ok: bool) {
    (!ok && Pruned(c, d, {})) || Pruned(c, d, {n})
  }

  function DropRequest(p: Projection): Request {
    Request.Credential(p.id, p.row.revision, p.row.ref, DropNode, "")
  }

  /** No folder is named by a malformed selector or stands at revision 0. */
  lemma NeverDeletes(c: Catalog, folder: Selector, expected: Option<nat>, snapshot: seq<NodeRevision>)
    requires TreeOk(c) && (folder.Malformed? || expected == Some(0))
    ensures DeleteFolderTx(c, folder, expected, false, snapshot).Err?
  {
    hide TreeOk, PathOf, Shallow, Under;
    if Select(c, folder, Folder).Ok? { KnownRow(c, Select(c, folder, Folder).value); }
  }

  lemma OnlyRootIsSlash(c: Catalog, n: Id)
    requires TreeOk(c) && n in c.nodes && PathOf(c, n).Some?
    ensures PathOf(c, n).value == "/" <==> n == c.root
  {
  }

  /** The final transaction, when it commits, deletes the pinned rest of the scope. */
  lemma FinalDeletion(seen: Catalog, last: Catalog, n: Id, m: Id, removed: set<Id>, snapshot: seq<NodeRevision>,
                      rest: seq<NodeRevision>)
    requires TreeOk(seen) && TreeOk(last) && Evolves(seen, last) && n in seen.nodes
    requires Pins(seen, Subtree(seen, n), snapshot)
    requires Pairs(rest) == set x | x in Pairs(snapshot) && x.id !in removed
    requires removed == Owned(seen, n)
    requires forall k | k in removed :: k !in last.nodes
    requires Pins(last, Subtree(last, m), rest)
    ensures
      && Subtree(last, m) == Subtree(seen, n) - removed
      && forall k | k in Subtree(last, m) ::
           k in last.nodes && last.nodes[k] == seen.nodes[k] && last.nodes[k].ref.None?
  {
    hide TreeOk, Under, Subtree;
    SubtreeInside(seen, n);
    SubtreeInside(last, m);
    PinsMeansPairs(seen, Subtree(seen, n), snapshot);
    PinsMeansPairs(last, Subtree(last, m), rest);
    hide Pins, ValidSnapshot;
    forall k | k in Subtree(last, m)
      ensures k in Subtree(seen, n) && k !in removed && last.nodes[k] == seen.nodes[k] && last.nodes[k].ref.None?
    {
      assert NodeRevision(k, last.nodes[k].revision) in Revisions(last, Subtree(last, m));
      assert NodeRevision(k, last.nodes[k].revision) in Revisions(seen, Subtree(seen, n));
      assert k in Subtree(seen, n) && k !in removed && seen.nodes[k].revision == last.nodes[k].revision;
      KnownRow(seen, k);
      assert last.nodes[k] == seen.nodes[k];
    }
    forall k | k in Subtree(seen, n) && k !in removed
      ensures k in Subtree(last, m)
    {
      var x := NodeRevision(k, seen.nodes[k].revision);
      assert x in Revisions(seen, Subtree(seen, n));
      assert x in Revisions(last, Subtree(last, m));
    }
  }

  lemma SubtreeInside(c: Catalog, n: Id)
    ensures Subtree(c, n) <= c.nodes.Keys
  {
  }

  /** Connections removed earlier plus those deleted at the end are those confirmed. */
  lemma CountsAddUp(seen: Catalog, last: Catalog, scope: set<Id>, removed: set<Id>, deletion: Deletion)
    requires removed <= scope <= seen.nodes.Keys
    requires forall k | k in removed :: seen.nodes[k].kind.Connection?
    requires forall k | k in scope - removed :: k in last.nodes && last.nodes[k] == seen.nodes[k]
    requires Counts(last, scope - removed, deletion)
    ensures Counts(seen, scope, deletion.(connections := deletion.connections + |removed|))
  {
    RemovedFrom(seen, last, scope, removed, Folder);
    RemovedFrom(seen, last, scope, removed, Connection);
    hide OfKind;
  }

  lemma RemovedFrom(seen: Catalog, last: Catalog, scope: set<Id>, removed: set<Id>, kind: Kind)
    requires removed <= scope <= seen.nodes.Keys
    requires forall k | k in removed :: seen.nodes[k].kind.Connection?
    requires forall k | k in scope - removed :: k in last.nodes && last.nodes[k] == seen.nodes[k]
    ensures |OfKind(seen, scope, kind)| ==
      |OfKind(last, scope - removed, kind)| + if kind.Connection? then |removed| else 0
  {
    var rest := OfKind(last, scope - removed, kind);
    if kind.Connection? {
      assert OfKind(seen, scope, kind) == rest + removed;
      assert rest !! removed;
    } else {
      assert OfKind(seen, scope, kind) == rest;
    }
  }

  /** Undisturbed, the final transaction is accepted. */
  lemma FinalAccepted(c: Catalog, last: Catalog, folder: Selector, expected: Option<nat>, removed: set<Id>,
                      snapshot: seq<NodeRevision>, rest: seq<NodeRevision>)
    requires TreeOk(c) && TreeOk(last) && Confirmed(c, folder, expected, snapshot) && Pruned(c, last, removed)
    requires ValidSnapshot(rest) && Pairs(rest) == set x | x in Pairs(snapshot) && x.id !in removed
    requires last.pending == c.pending
    ensures DeleteFolderTx(last, folder, expected, true, rest).Ok?
  {
    var n := Select(c, folder, Folder).value;
    hide TreeOk, Under, Resolve, PathOf, Shallow, Subtree, Pins, Pairs, ValidSnapshot;
    SubtreeSurvives(c, last, removed, n);
    SelectSurvives(c, last, removed, folder, n);
    StillReachable(c, last, folder, removed);
    RestIsPinned(c, last, n, removed, snapshot, rest);
  }

  /** Undisturbed, a completed deletion met no pending operation. */
  lemma NothingWasPending(c: Catalog, last: Catalog, folder: Selector, expected: Option<nat>, removed: set<Id>,
                          rest: seq<NodeRevision>)
    requires TreeOk(c) && TreeOk(last) && Pruned(c, last, removed) && removed * c.pending == {}
    requires Select(c, folder, Folder).Ok? && last.pending == c.pending
    requires DeleteFolderTx(last, folder, expected, true, rest).Ok? && Select(c, folder, Folder).value !in removed
    ensures Subtree(c, Select(c, folder, Folder).value) * c.pending == {}
  {
    var n := Select(c, folder, Folder).value;
    hide *;
    SelectSurvives(c, last, removed, folder, n);
    SubtreeSurvives(c, last, removed, n);
    DeletesNothingPending(last, folder, expected, rest);
    assert Subtree(c, n) <= Subtree(last, n) + removed;
  }

  lemma DeletesNothingPending(c: Catalog, folder: Selector, expected: Option<nat>, rest: seq<NodeRevision>)
    requires Select(c, folder, Folder).Ok? && DeleteFolderTx(c, folder, expected, true, rest).Ok?
    ensures Subtree(c, Select(c, folder, Folder).value) * c.pending == {}
  {
  }

  lemma RestIsPinned(c: Catalog, last: Catalog, n: Id, removed: set<Id>, snapshot: seq<NodeRevision>,
                     rest: seq<NodeRevision>)
    requires TreeOk(c) && TreeOk(last) && Pruned(c, last, removed) && n in c.nodes && Pins(c, Subtree(c, n), snapshot)
    requires ValidSnapshot(rest) && Pairs(rest) == set x | x in Pairs(snapshot) && x.id !in removed
    ensures Pins(last, Subtree(last, n), rest)
  {
    hide TreeOk, Under, Subtree, Pins, ValidSnapshot, Pairs;
    SubtreeSurvives(c, last, removed, n);
    SubtreeInside(c, n);
    PinsMeansPairs(c, Subtree(c, n), snapshot);
    PinsMeansPairs(last, Subtree(last, n), rest);
    RemainingRevisions(c, last, Subtree(c, n), removed);
  }

  lemma RemainingRevisions(c: Catalog, last: Catalog, nodes: set<Id>, removed: set<Id>)
    requires nodes <= c.nodes.Keys && last.nodes == c.nodes - removed
    ensures nodes - removed <= last.nodes.Keys
    ensures Revisions(last, nodes - removed) == set x | x in Revisions(c, nodes) && x.id !in removed
  {
    forall x | x in Revisions(c, nodes) && x.id !in removed
      ensures x in Revisions(last, nodes - removed)
    {
      assert x.id in nodes - removed && last.nodes[x.id] == c.nodes[x.id];
    }
    forall x | x in Revisions(last, nodes - removed)
      ensures x in Revisions(c, nodes)
    {
      assert x.id in nodes && last.nodes[x.id] == c.nodes[x.id];
    }
  }

  lemma StillReachable(c: Catalog, last: Catalog, folder: Selector, removed: set<Id>)
    requires TreeOk(c) && TreeOk(last) && Readable(c, folder) && Pruned(c, last, removed)
    ensures var n := Select(c, folder, Folder).value; n in last.nodes && PathOf(last, n).Some? && Shallow(last, n)
  {
    var n := Select(c, folder, Folder).value;
    SubtreeSurvives(c, last, removed, n);
    TopIsReadable(c, folder);
    hide TreeOk, Under, Resolve;
    NamesToDepth(c, n, MAX_DEPTH);
    NamesToDepth(last, n, MAX_DEPTH);
    forall k | k in last.nodes && Under(last, k, n)
      ensures DepthOf(last, k) <= MAX_DEPTH
    {
      assert k in Subtree(last, n);
      NamesToDepth(c, k, MAX_DEPTH);
    }
  }

  // ---------------------------------------------------------------- bookkeeping

  /** A node that is gone does not come back. */
  lemma GoneStaysGone(c: Catalog, d: Catalog, gone: set<Id>, origin: Catalog)
    requires Evolves(origin, c) && Evolves(c, d) && TreeOk(origin)
    requires forall k | k in gone :: k in origin.nodes && k !in c.nodes
    ensures forall k | k in gone :: k !in d.nodes
  {
  }

  lemma PrefixIds(s: seq<Projection>, n: nat)
    requires n <= |s|
    ensures ProjectedIds(s[..n]) <= ProjectedIds(s)
  {
  }

  lemma NothingPruned(c: Catalog)
    ensures Pruned(c, c, {})
  {
  }

  lemma ConfirmedMeans(c: Catalog, folder: Selector, expected: Option<nat>, snapshot: seq<NodeRevision>)
    requires TreeOk(c) && Confirmed(c, folder, expected, snapshot)
    ensures !folder.Malformed? && expected.Some? && expected.value > 0 && snapshot != [] && ValidSnapshot(snapshot)
  {
    var n := Select(c, folder, Folder).value;
    KnownRow(c, n);
    TopIsUnder(c, n);
    hide TreeOk, PathOf, Under, Walk;
    assert n in Subtree(c, n);
  }

  lemma NotReadable(c: Catalog, folder: Selector, expected: Option<nat>, snapshot: seq<NodeRevision>)
    requires !Readable(c, folder)
    ensures !Confirmed(c, folder, expected, snapshot)
  {
  }

  /** The checks after the scope was read decide whether it was confirmed, pending operations
      aside. */
  lemma ExactMeans(c: Catalog, folder: Selector, scope: Scope, expected: Option<nat>, snapshot: seq<NodeRevision>)
    requires TreeOk(c) && Exact(c, scope) && Select(c, folder, Folder) == Ok(scope.top.id) && ValidSnapshot(snapshot)
    ensures ValidSnapshot(scope.snapshot)
    ensures Pins(c, Subtree(c, scope.top.id), snapshot) <==> Pairs(scope.snapshot) == Pairs(snapshot)
    ensures Confirmed(c, folder, expected, snapshot) <==>
      && scope.top.path != "/" && Some(scope.top.row.revision) == expected && Pairs(scope.snapshot) == Pairs(snapshot)
      && Subtree(c, scope.top.id) * c.pending == {}
  {
    SubtreeInside(c, scope.top.id);
    OnlyRootIsSlash(c, scope.top.id);
    PinsMeansPairs(c, Subtree(c, scope.top.id), snapshot);
    PinsMeansPairs(c, Subtree(c, scope.top.id), scope.snapshot);
    hide TreeOk, Under, Resolve, Pins, Subtree, PathOf;
  }

  lemma PinsIsValid(c: Catalog, n: Id, snapshot: seq<NodeRevision>)
    requires Pins(c, Subtree(c, n), snapshot)
    ensures ValidSnapshot(snapshot)
  {
  }

  lemma ScopeConnections(c: Catalog, scope: Scope)
    requires Exact(c, scope)
    ensures forall i, j | 0 <= i < j < |scope.connections| :: scope.connections[i].id != scope.connections[j].id
  {
  }

  lemma CredentialedAreOwned(c: Catalog, scope: Scope, credentialed: seq<Projection>)
    requires Exact(c, scope)
    requires forall i | 0 <= i < |credentialed| :: credentialed[i] in scope.connections && credentialed[i].row.ref.Some?
    requires forall i | 0 <= i < |scope.connections| ::
      scope.connections[i].row.ref.Some? ==> scope.connections[i] in credentialed
    ensures forall i | 0 <= i < |credentialed| :: Projects(c, credentialed[i]) && credentialed[i].row.kind.Connection?
    ensures ProjectedIds(credentialed) == Owned(c, scope.top.id)
  {
    hide Under, Pins, PathOf, Subtree;
    forall i | 0 <= i < |credentialed|
      ensures Projects(c, credentialed[i]) && credentialed[i].id in Owned(c, scope.top.id)
    {
      var j :| 0 <= j < |scope.connections| && scope.connections[j] == credentialed[i];
      assert scope.connections[j].id in ProjectedIds(scope.connections);
    }
    forall k | k in Owned(c, scope.top.id)
      ensures k in ProjectedIds(credentialed)
    {
      assert k in OfKind(c, Subtree(c, scope.top.id), Connection);
      assert k in ProjectedIds(scope.connections);
      OwnedIsCredentialed(c, scope, credentialed, k);
    }
  }

  lemma OwnedIsCredentialed(c: Catalog, scope: Scope, credentialed: seq<Projection>, k: Id)
    requires HasCredential(c, k) && k in ProjectedIds(scope.connections)
    requires forall i | 0 <= i < |scope.connections| :: Projects(c, scope.connections[i])
    requires forall i | 0 <= i < |scope.connections| ::
      scope.connections[i].row.ref.Some? ==> scope.connections[i] in credentialed
    ensures k in ProjectedIds(credentialed)
  {
    hide PathOf;
    var j :| 0 <= j < |scope.connections| && scope.connections[j].id == k;
    var i :| 0 <= i < |credentialed| && credentialed[i] == scope.connections[j];
  }

  /** The connections of a subtree that have a stored credential. */
  ghost function Owned(c: Catalog, n: Id): set<Id> {
    set k | k in Subtree(c, n) && HasCredential(c, k)
  }

  lemma OwnedHaveCredentials(c: Catalog, n: Id)
    ensures forall k | k in Owned(c, n) ::
      HasCredential(c, k) && k in Subtree(c, n) && k in c.nodes && c.nodes[k].kind.Connection?
  {
  }

  lemma SelectedByDeletion(c: Catalog, folder: Selector, expected: Option<nat>, rest: seq<NodeRevision>)
    requires DeleteFolderTx(c, folder, expected, true, rest).Ok?
    ensures Select(c, folder, Folder).Ok?
  {
  }

  lemma Promise(seen: Catalog, last: Catalog, folder: Selector, expected: Option<nat>, n: Id, removed: set<Id>,
                snapshot: seq<NodeRevision>, rest: seq<NodeRevision>, after: Catalog, deletion: Deletion)
    requires TreeOk(seen) && TreeOk(last) && Evolves(seen, last) && n in seen.nodes
    requires Pins(seen, Subtree(seen, n), snapshot)
    requires Pairs(rest) == set x | x in Pairs(snapshot) && x.id !in removed
    requires removed == Owned(seen, n) && forall k | k in removed :: k !in last.nodes
    requires Select(last, folder, Folder).Ok? && DeleteFolderTx(last, folder, expected, true, rest) == Ok(after)
    requires Counts(last, Subtree(last, Select(last, folder, Folder).value), deletion)
    ensures Deleted(seen, last, after, n, true, snapshot, deletion.(connections := deletion.connections + |removed|))
  {
    var m := Select(last, folder, Folder).value;
    hide *;
    DeletionDrops(last, folder, expected, rest);
    FinalDeletion(seen, last, n, m, removed, snapshot, rest);
    SubtreeInside(seen, n);
    OwnedHaveCredentials(seen, n);
    CountsAddUp(seen, last, Subtree(seen, n), removed, deletion);
    PromiseKept(seen, last, after, n, removed, snapshot, deletion.(connections := deletion.connections + |removed|));
  }

  lemma DeletionDrops(c: Catalog, folder: Selector, expected: Option<nat>, rest: seq<NodeRevision>)
    requires Select(c, folder, Folder).Ok? && DeleteFolderTx(c, folder, expected, true, rest).Ok?
    ensures var m := Select(c, folder, Folder).value;
      && Pins(c, Subtree(c, m), rest)
      && DeleteFolderTx(c, folder, expected, true, rest).value.nodes == c.nodes - Subtree(c, m)
  {
  }

  lemma PromiseKept(seen: Catalog, last: Catalog, after: Catalog, n: Id, removed: set<Id>, snapshot: seq<NodeRevision>,
                    deletion: Deletion)
    requires Pins(seen, Subtree(seen, n), snapshot) && Counts(seen, Subtree(seen, n), deletion)
    requires after.nodes == last.nodes - (Subtree(seen, n) - removed)
    requires forall k | k in removed :: HasCredential(seen, k) && k !in last.nodes
    requires forall k | k in Subtree(seen, n) - removed ::
      k in seen.nodes && k in last.nodes && last.nodes[k] == seen.nodes[k] && last.nodes[k].ref.None?
    ensures Deleted(seen, last, after, n, true, snapshot, deletion)
  {
  }

  lemma NothingProjected()
    ensures ProjectedIds([]) == {}
  {
  }

  lemma NextProjected(s: seq<Projection>, i: nat)
    requires i < |s| && forall i, j | 0 <= i < j < |s| :: s[i].id != s[j].id
    ensures ProjectedIds(s[..i + 1]) == ProjectedIds(s[..i]) + {s[i].id} && s[i].id !in ProjectedIds(s[..i])
    ensures ProjectedIds(s[..i + 1]) <= ProjectedIds(s)
  {
    assert s[..i + 1] == s[..i] + [s[i]];
    ProjectedOneMore(s[..i], s[i]);
    PrefixIds(s, i + 1);
  }

  /** Deleting some connections leaves the others as they were read. */
  lemma StillUnaltered(c: Catalog, d: Catalog, gone: set<Id>, p: Projection)
    requires Pruned(c, d, gone) && Projects(c, p) && p.row.kind.Connection? && p.id !in gone && d.pending == c.pending
    ensures Unaltered(d, p) <==> p.id !in c.pending
  {
    hide PathOf;
  }

  lemma PrunedMore(c: Catalog, d: Catalog, e: Catalog, gone: set<Id>, n: Id, ok: bool)
    requires Pruned(c, d, gone) && Attempted(d, e, n, ok)
    ensures Pruned(c, e, gone + {n}) || (!ok && Pruned(c, e, gone))
  {
    if Pruned(d, e, {n}) {
      assert e.nodes == c.nodes - (gone + {n});
    } else {
      assert e.nodes == d.nodes;
    }
  }

  /** The present is a state that the catalog was in. */
  lemma Here(repository: Repository)
    requires repository.Valid()
    ensures repository.Saw(|repository.log|, repository.State()) && TreeOk(repository.State())
    ensures Evolves(repository.State(), repository.State())
  {
    hide TreeOk, Logs, Past, Evolves;
    Present(repository.origin, repository.log, repository.State());
    EvolvesReflexive(repository.State());
  }

  lemma OwnedNotPending(c: Catalog, folder: Selector, expected: Option<nat>, snapshot: seq<NodeRevision>)
    requires Confirmed(c, folder, expected, snapshot)
    ensures Owned(c, Select(c, folder, Folder).value) * c.pending == {}
  {
    var n := Select(c, folder, Folder).value;
    hide Under, Resolve, PathOf, Pins;
    assert Owned(c, n) <= Subtree(c, n);
  }

  lemma SelectedNode(c: Catalog, folder: Selector)
    requires Select(c, folder, Folder).Ok?
    ensures Select(c, folder, Folder).value in c.nodes
    ensures c.nodes[Select(c, folder, Folder).value].kind.Folder?
  {
  }

  class FolderService {
    const repository: Repository
    const calm: bool  // the credential saga never fails by itself

    constructor (repository: Repository, calm: bool)
      ensures this.repository == repository && this.calm == calm
    {
      this.repository := repository;
      this.calm := calm;
    }

    /** The children of one folder as one later transaction sees them, provided that the
        catalog revision is still that of `c`. */
    method ReadChildren(f: Id, ghost c: Catalog, expected: nat) returns (r: Result<Children>)
      requires TreeOk(c) && expected == c.revision && f in c.nodes && c.nodes[f].kind.Folder?
      requires repository.Valid() && Evolves(c, repository.State())
      modifies repository
      ensures repository.Valid() && old(repository.log) <= repository.log && Evolves(c, repository.State())
      ensures repository.alone ==> repository.State() == old(repository.State())
      ensures r.Ok? ==> Gathered(c, ChildrenOf(c, {f}), r.value.folders, r.value.connections)
      ensures repository.alone && c == repository.State() ==>
        (forall k | k in ChildrenOf(c, {f}) :: PathOf(c, k).Some?) ==> r.Ok?
    {
      hide TreeOk, Logs, Evolves, PathOf;
      repository.Others({});
      EvolvesTransitive(c, old(repository.State()), repository.State());
      r := repository.ListChildren(f);
      if r.Err? {
        return r;
      }
      if r.value.revision != expected {
        return Err(Conflict);
      }
      SameRevisionSameRows(c, repository.State());
      SameListing(c, repository.State(), f, r.value);
    }

    /** buildDeleteScope: what it returns is the whole subtree in a single state that the
        catalog was in, although every folder is listed by a transaction of its own. */
    method BuildDeleteScope(selector: Selector) returns (r: Result<Scope>, ghost c: Catalog, ghost at: nat)
      requires repository.Valid()
      modifies repository
      ensures repository.Valid() && old(repository.log) <= repository.log
      ensures |old(repository.log)| <= at <= |repository.log| && repository.Saw(at, c)
      ensures TreeOk(c) && Evolves(old(repository.State()), c) && Evolves(c, repository.State())
      ensures repository.alone ==> c == old(repository.State()) && repository.State() == c
      ensures r.Ok? ==> Exact(c, r.value) && Select(c, selector, Folder) == Ok(r.value.top.id)
      ensures repository.alone ==> (r.Ok? <==> Readable(c, selector))
    {
      hide TreeOk, Logs, Past, Evolves, PathOf, Resolve, Under, Exact, Frontier, Recorded, Queue, Gathered;
      repository.Others({});
      c, at := repository.State(), |repository.log|;
      ghost var log := repository.log;
      Present(repository.origin, log, c);
      EvolvesReflexive(c);
      var root := repository.GetFolder(selector);
      if root.Err? {
        if Readable(c, selector) { TopIsReadable(c, selector); }
        return Err(root.error), c, at;
      }
      r := VisitAll(selector, root.value.0, root.value.1, c);
      PastStays(repository.origin, log, repository.log, at, c);
    }

    /** The breadth-first visit of the folders below `top`. */
    method VisitAll(ghost selector: Selector, top: Projection, revision: nat, ghost c: Catalog)
      returns (r: Result<Scope>)
      requires repository.Valid() && repository.State() == c && revision == c.revision
      requires Select(c, selector, Folder) == Ok(top.id) && Projects(c, top) && top.row.kind.Folder?
      modifies repository
      ensures repository.Valid() && old(repository.log) <= repository.log && Evolves(c, repository.State())
      ensures repository.alone ==> repository.State() == c
      ensures r.Ok? ==> Exact(c, r.value) && r.value.top.id == top.id
      ensures repository.alone ==> (r.Ok? <==> Readable(c, selector))
    {
      hide TreeOk, Logs, Evolves, PathOf, Resolve, Under, Exact, Frontier, Recorded, Queue, Gathered;
      EvolvesReflexive(c);
      ghost var n := top.id;
      var pending := [Pending(top, 0)];
      var seen: set<Id>, nodes: seq<NodeRevision>, connections: seq<Projection>, folders := {}, [], [], 0;
      VisitStarts(c, top);
      while pending != []
        invariant repository.Valid() && old(repository.log) <= repository.log && Evolves(c, repository.State())
        invariant repository.alone ==> repository.State() == c
        invariant Queue(c, n, pending) && Frontier(c, n, seen, PendingIds(pending))
        invariant Recorded(c, seen, nodes, connections, folders)
        decreases |Subtree(c, n)| - |seen|
      {
        var current := pending[0];
        var f := current.folder.id;
        Popped(c, n, seen, pending);
        pending := pending[1..];
        if current.depth > MAX_SCOPE_DEPTH {
          if repository.alone && Readable(c, selector) { WithinDepth(c, selector, current); }
          return Err(Conflict);
        }
        if f in seen {
          return Err(Conflict);
        }
        RecordOne(c, seen, nodes, connections, folders, current.folder);
        ghost var before, waiting := seen, PendingIds(pending) + {f};
        seen := seen + {f};
        nodes := nodes + [NodeRevision(f, current.folder.row.revision)];
        folders := folders + 1;
        if repository.alone && Readable(c, selector) { ReadableChildren(c, selector, f); }
        var children := ReadChildren(f, c, revision);
        if children.Err? {
          return Err(children.error);
        }
        SplitByKind(c, f, children.value);
        GatheredIds(c, f, children.value);
        FrontierStep(c, n, before, waiting, f, ProjectedIds(children.value.connections),
                     ProjectedIds(children.value.folders));
        assert ChildrenOf(c, {f}) !! seen + PendingIds(pending);
        seen, nodes, connections := AddConnections(c, f, children.value, seen, nodes, connections, folders);
        pending := AddFolders(c, n, f, children.value, pending, current.depth);
        assert waiting - {f} + ProjectedIds(children.value.folders) == PendingIds(pending);
        Shrinks(c, n, before, seen, f, PendingIds(pending));
      }
      assert PendingIds([]) == {};
      FrontierDone(c, n, seen);
      r := Ok(Scope(top, folders, connections, nodes));
      Finished(c, seen, r.value);
    }

    method AddConnections(ghost c: Catalog, ghost f: Id, children: Children, seen: set<Id>, nodes: seq<NodeRevision>,
                          connections: seq<Projection>, ghost folders: nat)
      returns (seen': set<Id>, nodes': seq<NodeRevision>, connections': seq<Projection>)
      requires TreeOk(c) && Gathered(c, ChildrenOf(c, {f}), children.folders, children.connections)
      requires Recorded(c, seen, nodes, connections, folders) && ProjectedIds(children.connections) !! seen
      ensures Recorded(c, seen', nodes', connections', folders)
      ensures seen' == seen + ProjectedIds(children.connections)
    {
      hide TreeOk, Recorded, Projects;
      seen', nodes', connections' := seen, nodes, connections;
      ghost var all := children.connections;
      for i := 0 to |children.connections|
        invariant seen' == seen + ProjectedIds(all[..i])
        invariant Recorded(c, seen', nodes', connections', folders)
      {
        var connection := children.connections[i];
        assert all[..i + 1] == all[..i] + [connection];
        ProjectedOneMore(all[..i], connection);
        assert connection.id in ProjectedIds(all);
        assert connection.id !in ProjectedIds(all[..i]);
        RecordOne(c, seen', nodes', connections', folders, connection);
        seen' := seen' + {connection.id};
        nodes' := nodes' + [NodeRevision(connection.id, connection.row.revision)];
        connections' := connections' + [connection];
      }
      assert all[..|all|] == all;
    }

    method AddFolders(ghost c: Catalog, ghost n: Id, f: Id, children: Children, pending: seq<Pending>, depth: nat)
      returns (longer: seq<Pending>)
      requires TreeOk(c) && f in c.nodes && Gathered(c, ChildrenOf(c, {f}), children.folders, children.connections)
      requires Queue(c, n, pending) && ProjectedIds(children.folders) !! PendingIds(pending)
      requires DepthOf(c, f) == DepthOf(c, n) + depth
      ensures Queue(c, n, longer) && PendingIds(longer) == PendingIds(pending) + ProjectedIds(children.folders)
    {
      hide TreeOk, Queue, Projects;
      longer := pending;
      ghost var all := children.folders;
      for i := 0 to |children.folders|
        invariant Queue(c, n, longer) && PendingIds(longer) == PendingIds(pending) + ProjectedIds(all[..i])
      {
        var folder := children.folders[i];
        assert all[..i + 1] == all[..i] + [folder];
        ProjectedOneMore(all[..i], folder);
        assert folder.id in ProjectedIds(all);
        assert folder.id !in ProjectedIds(all[..i]);
        GatheredChild(c, f, children, i);
        QueueOneMore(c, n, longer, Pending(folder, depth + 1));
        longer := longer + [Pending(folder, depth + 1)];
      }
      assert all[..|all|] == all;
    }

    /** The credential saga for one connection, as the catalog sees it: the row of an
        operation, and between steps of other actors at most one compare-and-swap on exactly
        the row that was read. What fails leaves the operation undone or pending. */
    method DeleteWithCredential(connection: Projection) returns (ok: bool, ghost at: nat)
      requires repository.Valid()
      modifies repository
      ensures repository.Valid() && old(repository.log) <= repository.log
      ensures Evolves(old(repository.State()), repository.State())
      ensures ok ==> |old(repository.log)| <= at < |repository.log| && repository.log[at] == DropRequest(connection)
      ensures ok ==> connection.id !in repository.nodes
      ensures repository.alone ==> Attempted(old(repository.State()), repository.State(), connection.id, ok)
      ensures repository.alone && calm ==>
        && repository.pending == old(repository.pending)
        && (ok <==> Unaltered(old(repository.State()), connection))
        && (!ok ==> repository.nodes == old(repository.nodes))
    {
      hide TreeOk, Logs, Evolves, CredentialTx;
      var n := connection.id;
      ghost var c := repository.State();
      repository.Others({});
      ghost var d := repository.State();
      var started := repository.BeginCredential(n);
      if started.Err? {
        return false, 0;
      }
      PendingEvolves(d, repository.pending);
      EvolvesTransitive(c, d, repository.State());
      ghost var e := repository.State();
      repository.Others({n});
      EvolvesTransitive(c, e, repository.State());
      ghost var f := repository.State();
      var proceeds: bool := *;
      if !calm && !proceeds {
        GiveUp(n);
        ok, at := false, 0;
      } else {
        ok, at := DropConnection(connection);
      }
      EvolvesTransitive(c, f, repository.State());
    }

    /** The catalog step of the saga, and what follows it. */
    method DropConnection(connection: Projection) returns (ok: bool, ghost at: nat)
      requires repository.Valid() && connection.id in repository.pending
      modifies repository
      ensures repository.Valid() && old(repository.log) <= repository.log
      ensures Evolves(old(repository.State()), repository.State())
      ensures ok ==> |old(repository.log)| <= at < |repository.log| && repository.log[at] == DropRequest(connection)
      ensures ok ==> connection.id !in repository.nodes
      ensures repository.alone ==> Attempted(old(repository.State()), repository.State(), connection.id, ok)
      ensures repository.alone && calm ==>
        && repository.pending == old(repository.pending) - {connection.id}
        && (ok <==> Matches(old(repository.State()), connection))
        && (!ok ==> repository.nodes == old(repository.nodes))
    {
      hide TreeOk, Logs, Evolves;
      var n := connection.id;
      ghost var c := repository.State();
      var applied := repository.ApplyCredential(n, connection.row.revision, connection.row.ref, DropNode, "");
      if applied.Err? {
        GiveUp(n);
        return false, 0;
      }
      at := |repository.log| - 1;
      WithoutEvolves(c, {n});
      ghost var d := repository.State();
      repository.Others({});
      EvolvesTransitive(c, d, repository.State());
      EvolvesReflexive(c);
      GoneStaysGone(d, repository.State(), {n}, c);
      var reported: bool := *;
      ok := calm || reported;
    }

    /** The saga stops: it undoes its steps, or leaves the operation to recovery. */
    method GiveUp(n: Id)
      requires repository.Valid()
      modifies repository
      ensures repository.Valid() && old(repository.log) <= repository.log
      ensures Evolves(old(repository.State()), repository.State())
      ensures Pruned(old(repository.State()), repository.State(), {})
      ensures calm ==> repository.pending == old(repository.pending) - {n}
    {
      hide TreeOk, Logs, Evolves;
      EvolvesReflexive(repository.State());
      var undone: bool := *;
      if calm || undone {
        PendingEvolves(repository.State(), repository.pending - {n});
        repository.EndCredential(n);
      }
    }

    static method WithCredentials(connections: seq<Projection>) returns (credentialed: seq<Projection>)
      requires forall i, j | 0 <= i < j < |connections| :: connections[i].id != connections[j].id
      ensures forall i | 0 <= i < |credentialed| :: credentialed[i] in connections && credentialed[i].row.ref.Some?
      ensures forall i | 0 <= i < |connections| :: connections[i].row.ref.Some? ==> connections[i] in credentialed
      ensures forall i, j | 0 <= i < j < |credentialed| :: credentialed[i].id != credentialed[j].id
    {
      credentialed := [];
      for n := 0 to |connections|
        invariant forall i | 0 <= i < |credentialed| ::
          credentialed[i] in connections[..n] && credentialed[i].row.ref.Some?
        invariant forall i | 0 <= i < n :: connections[i].row.ref.Some? ==> connections[i] in credentialed
        invariant forall i, j | 0 <= i < j < |credentialed| :: credentialed[i].id != credentialed[j].id
      {
        if connections[n].row.ref.Some? {
          credentialed := credentialed + [connections[n]];
        }
        assert connections[..n + 1] == connections[..n] + [connections[n]];
      }
    }

    /** The sagas, one after the other; `removed` holds those that succeeded. */
    method DeleteCredentialed(credentialed: seq<Projection>, ghost c: Catalog) returns (ok: bool, removed: set<Id>)
      requires TreeOk(c) && repository.Valid() && Evolves(c, repository.State())
      requires forall i | 0 <= i < |credentialed| ::
        Projects(c, credentialed[i]) && credentialed[i].row.kind.Connection?
      requires forall i, j | 0 <= i < j < |credentialed| :: credentialed[i].id != credentialed[j].id
      requires repository.alone ==> repository.State() == c
      modifies repository
      ensures repository.Valid() && old(repository.log) <= repository.log && Evolves(c, repository.State())
      ensures ok ==> removed == ProjectedIds(credentialed) && forall k | k in removed :: k !in repository.nodes
      ensures repository.alone ==> exists gone ::
        gone <= ProjectedIds(credentialed) && Pruned(c, repository.State(), gone) && (ok ==> gone == removed)
      ensures repository.alone && calm ==>
        repository.pending == c.pending && (ok <==> ProjectedIds(credentialed) * c.pending == {})
    {
      hide TreeOk, Logs, Evolves, PathOf, Pruned, ProjectedIds;
      removed := {};
      NothingPruned(c);
      NothingProjected();
      for i := 0 to |credentialed|
        invariant repository.Valid() && old(repository.log) <= repository.log && Evolves(c, repository.State())
        invariant removed == ProjectedIds(credentialed[..i])
        invariant forall k | k in removed :: k in c.nodes && k !in repository.nodes
        invariant repository.alone ==> Pruned(c, repository.State(), removed)
        invariant repository.alone && calm ==> repository.pending == c.pending && removed * c.pending == {}
      {
        var connection := credentialed[i];
        NextProjected(credentialed, i);
        ghost var before := repository.State();
        if repository.alone && calm { StillUnaltered(c, before, removed, connection); }
        ghost var at;
        ok, at := DeleteWithCredential(connection);
        EvolvesTransitive(c, before, repository.State());
        GoneStaysGone(before, repository.State(), removed, c);
        if repository.alone { PrunedMore(c, before, repository.State(), removed, connection.id, ok); }
        if !ok {
          return false, removed;
        }
        removed := removed + {connection.id};
      }
      assert credentialed[..|credentialed|] == credentialed;
      return true, removed;
    }

    static method Remaining(snapshot: seq<NodeRevision>, removed: set<Id>) returns (rest: seq<NodeRevision>)
      requires ValidSnapshot(snapshot)
      ensures ValidSnapshot(rest) && Pairs(rest) == set x | x in Pairs(snapshot) && x.id !in removed
    {
      rest := [];
      for i := 0 to |snapshot|
        invariant forall k | 0 <= k < |rest| :: rest[k] in snapshot[..i] && rest[k].id !in removed
        invariant forall k | 0 <= k < i :: snapshot[k].id !in removed ==> snapshot[k] in rest
        invariant ValidSnapshot(rest)
      {
        assert snapshot[..i + 1] == snapshot[..i] + [snapshot[i]];
        if snapshot[i].id !in removed {
          rest := rest + [snapshot[i]];
        }
      }
    }

    /** Deletes a confirmed subtree. `seen` and `last` are states that the catalog was in: the
        one the subtree was read in, and the one the last committed request was made on. */
    method Delete(folder: Selector, expected: Option<nat>, recursive: bool, snapshot: seq<NodeRevision>)
      returns (r: Result<Deletion>, ghost seen: Catalog, ghost at: nat, ghost last: Catalog, ghost end: nat)
      requires repository.Valid()
      modifies repository
      ensures repository.Valid() && old(repository.log) <= repository.log
      ensures |old(repository.log)| <= at <= end <= |repository.log|
      ensures repository.Saw(at, seen) && repository.Saw(end, last)
      ensures TreeOk(seen) && TreeOk(last) && Evolves(old(repository.State()), seen) && Evolves(seen, last)
      ensures r.Ok? ==> |repository.log| == end + 1
      ensures r.Ok? ==> FinalStep(repository.log[end], last, repository.State(), folder, expected, recursive)
      ensures r.Ok? ==> Select(seen, folder, Folder).Ok?
      ensures r.Ok? ==>
        Deleted(seen, last, repository.State(), Select(seen, folder, Folder).value, recursive, snapshot, r.value)
      ensures r.Err? ==> repository.State() == last
      ensures repository.alone ==> seen == old(repository.State())
      ensures repository.alone && r.Err? ==>
        exists gone :: Pruned(seen, last, gone) && forall k | k in gone :: HasCredential(seen, k)
      ensures repository.alone && calm && recursive ==> (r.Ok? <==> Confirmed(seen, folder, expected, snapshot))
      ensures !recursive ==> (r.Ok? <==> DeleteFolderTx(last, folder, expected, false, snapshot).Ok?)
    {
      hide *;
      seen, at, last, end := repository.State(), |repository.log|, repository.State(), |repository.log|;
      Here(repository);
      NothingPruned(seen);
      if Confirmed(seen, folder, expected, snapshot) { ConfirmedMeans(seen, folder, expected, snapshot); }
      if folder.Malformed? || expected == Some(0) {
        NeverDeletes(seen, folder, expected, snapshot);
        return Err(Invalid), seen, at, last, end;
      }
      if !recursive {
        r, seen, at, last, end := DeleteSingle(folder, expected, snapshot);
        return;
      }
      var valid := IsValidSnapshot(snapshot);
      if expected.None? || !valid {
        return Err(Invalid), seen, at, last, end;
      }
      var scope;
      scope, seen, at := BuildDeleteScope(folder);
      last, end := repository.State(), |repository.log|;
      Here(repository);
      NothingPruned(seen);
      if scope.Err? {
        if repository.alone { NotReadable(seen, folder, expected, snapshot); }
        return Err(scope.error), seen, at, last, end;
      }
      ExactMeans(seen, folder, scope.value, expected, snapshot);
      var same := SameSnapshot(scope.value.snapshot, snapshot);
      if scope.value.top.path == "/" || Some(scope.value.top.row.revision) != expected || !same {
        return Err(Conflict), seen, at, last, end;
      }
      r, last, end := DeleteConfirmed(folder, expected, snapshot, scope.value, seen, at);
    }

    method DeleteSingle(folder: Selector, expected: Option<nat>, snapshot: seq<NodeRevision>)
      returns (r: Result<Deletion>, ghost seen: Catalog, ghost at: nat, ghost last: Catalog, ghost end: nat)
      requires repository.Valid()
      modifies repository
      ensures repository.Valid() && old(repository.log) <= repository.log
      ensures |old(repository.log)| <= at <= end <= |repository.log|
      ensures repository.Saw(at, seen) && repository.Saw(end, last)
      ensures TreeOk(seen) && TreeOk(last) && Evolves(old(repository.State()), seen) && Evolves(seen, last)
      ensures r.Ok? ==> |repository.log| == end + 1
      ensures r.Ok? ==> FinalStep(repository.log[end], last, repository.State(), folder, expected, false)
      ensures r.Ok? ==> Select(seen, folder, Folder).Ok?
      ensures r.Ok? ==>
        Deleted(seen, last, repository.State(), Select(seen, folder, Folder).value, false, snapshot, r.value)
      ensures r.Err? ==> repository.State() == last
      ensures repository.alone ==> seen == old(repository.State())
      ensures r.Err? ==> Pruned(seen, last, {})
      ensures r.Ok? <==> DeleteFolderTx(last, folder, expected, false, snapshot).Ok?
    {
      hide TreeOk, Logs, Past, Evolves, Resolve, PathOf, Under, Shallow, Counts;
      repository.Others({});
      seen, at := repository.State(), |repository.log|;
      last, end := seen, at;
      EvolvesReflexive(seen);
      Present(repository.origin, repository.log, seen);
      ghost var log := repository.log;
      r := repository.DeleteFolder(folder, expected, false, snapshot);
      PastStays(repository.origin, log, repository.log, at, seen);
      if r.Ok? { KnownRow(seen, Select(seen, folder, Folder).value); }
    }

    /** The sagas for the connections of the scope that have a credential, then the rest. */
    method DeleteConfirmed(folder: Selector, expected: Option<nat>, snapshot: seq<NodeRevision>, scope: Scope,
                           ghost seen: Catalog, ghost at: nat)
      returns (r: Result<Deletion>, ghost last: Catalog, ghost end: nat)
      requires TreeOk(seen) && repository.Valid() && Evolves(seen, repository.State()) && repository.Saw(at, seen)
      requires repository.alone ==> repository.State() == seen
      requires Exact(seen, scope) && Select(seen, folder, Folder) == Ok(scope.top.id)
      requires Pins(seen, Subtree(seen, scope.top.id), snapshot)
      modifies repository
      ensures repository.Valid() && old(repository.log) <= repository.log
      ensures |old(repository.log)| <= end <= |repository.log|
      ensures repository.Saw(at, seen) && repository.Saw(end, last)
      ensures TreeOk(last) && Evolves(seen, last)
      ensures r.Ok? ==> |repository.log| == end + 1
      ensures r.Ok? ==> FinalStep(repository.log[end], last, repository.State(), folder, expected, true)
      ensures r.Ok? ==> Deleted(seen, last, repository.State(), scope.top.id, true, snapshot, r.value)
      ensures r.Err? ==> repository.State() == last
      ensures repository.alone && r.Err? ==>
        exists gone :: Pruned(seen, last, gone) && forall k | k in gone :: HasCredential(seen, k)
      ensures repository.alone && calm && Confirmed(seen, folder, expected, snapshot) ==> r.Ok?
      ensures repository.alone && calm && r.Ok? ==> Subtree(seen, scope.top.id) * seen.pending == {}
    {
      hide TreeOk, Logs, Past, Evolves, Resolve, PathOf, Under, Exact, Pins, Deleted, Confirmed, Subtree, FinalStep,
           Owned, HasCredential, ProjectedIds, Projects, Pruned;
      ghost var n, log := scope.top.id, repository.log;
      ScopeConnections(seen, scope);
      var credentialed := WithCredentials(scope.connections);
      CredentialedAreOwned(seen, scope, credentialed);
      OwnedHaveCredentials(seen, n);
      var ok, removed := DeleteCredentialed(credentialed, seen);
      PastStays(repository.origin, log, repository.log, at, seen);
      if !ok {
        last, end := repository.State(), |repository.log|;
        Present(repository.origin, repository.log, last);
        if Confirmed(seen, folder, expected, snapshot) { OwnedNotPending(seen, folder, expected, snapshot); }
        return Err(Conflict), last, end;
      }
      r, last, end := DeleteRest(folder, expected, snapshot, removed, seen, at);
    }

    /** The final transaction, on the snapshot without the connections already removed. */
    method DeleteRest(folder: Selector, expected: Option<nat>, snapshot: seq<NodeRevision>, removed: set<Id>,
                      ghost seen: Catalog, ghost at: nat)
      returns (r: Result<Deletion>, ghost last: Catalog, ghost end: nat)
      requires TreeOk(seen) && repository.Valid() && Evolves(seen, repository.State()) && repository.Saw(at, seen)
      requires Select(seen, folder, Folder).Ok?
      requires Pins(seen, Subtree(seen, Select(seen, folder, Folder).value), snapshot)
      requires removed == Owned(seen, Select(seen, folder, Folder).value)
      requires forall k | k in removed :: k !in repository.nodes
      requires repository.alone ==> Pruned(seen, repository.State(), removed)
      requires repository.alone && calm ==> repository.pending == seen.pending && removed * seen.pending == {}
      modifies repository
      ensures repository.Valid() && old(repository.log) <= repository.log
      ensures |old(repository.log)| <= end <= |repository.log|
      ensures repository.Saw(at, seen) && repository.Saw(end, last)
      ensures TreeOk(last) && Evolves(seen, last)
      ensures r.Ok? ==> |repository.log| == end + 1
      ensures r.Ok? ==> FinalStep(repository.log[end], last, repository.State(), folder, expected, true)
      ensures r.Ok? ==>
        Deleted(seen, last, repository.State(), Select(seen, folder, Folder).value, true, snapshot, r.value)
      ensures r.Err? ==> repository.State() == last
      ensures repository.alone ==> Pruned(seen, last, removed)
      ensures repository.alone && calm && Confirmed(seen, folder, expected, snapshot) ==> r.Ok?
      ensures repository.alone && calm && r.Ok? ==>
        Subtree(seen, Select(seen, folder, Folder).value) * seen.pending == {}
    {
      hide TreeOk, Logs, Past, Evolves, Select, PathOf, Under, Pins, Deleted, Confirmed, Subtree, DeleteFolderTx, Owned,
           Pairs, Pruned, Counts, ValidSnapshot, HasCredential;
      ghost var n, log, before := Select(seen, folder, Folder).value, repository.log, repository.State();
      SelectedNode(seen, folder);
      OwnedHaveCredentials(seen, n);
      PinsIsValid(seen, n, snapshot);
      var rest := Remaining(snapshot, removed);
      repository.Others({});
      GoneStaysGone(before, repository.State(), removed, seen);
      EvolvesTransitive(seen, before, repository.State());
      last, end := repository.State(), |repository.log|;
      Present(repository.origin, repository.log, last);
      if repository.alone && calm && Confirmed(seen, folder, expected, snapshot) {
        FinalAccepted(seen, last, folder, expected, removed, snapshot, rest);
      }
      ghost var middle := repository.log;
      r := repository.DeleteFolder(folder, expected, true, rest);
      PastStays(repository.origin, middle, repository.log, end, last);
      PastStays(repository.origin, log, repository.log, at, seen);
      if r.Ok? {
        SelectedByDeletion(last, folder, expected, rest);
        Promise(seen, last, folder, expected, n, removed, snapshot, rest, repository.State(), r.value);
        if repository.alone && calm { NothingWasPending(seen, last, folder, expected, removed, rest); }
        r := Ok(r.value.(connections := r.value.connections + |removed|));
      }
    }
  }
}
