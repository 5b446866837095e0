/** The repository of the catalog: each operation reads and writes rows step by step inside
    one transaction, and commits exactly the transaction of `CatalogTree` or nothing. */
module CatalogRepository {
  import opened Outcomes
  import opened LogicalPaths
  import opened CatalogTree

  datatype Projection = Projection(id: Id, row: Node, path: string)

  datatype SubtreeNode = SubtreeNode(id: Id, kind: Kind, revision: nat, depth: nat)

  datatype Deletion = Deletion(folders: nat, connections: nat)

  datatype Children = Children(folders: seq<Projection>, connections: seq<Projection>, revision: nat)

  ghost predicate Projects(c: Catalog, p: Projection) {
    p.id in c.nodes && p.row == c.nodes[p.id] && PathOf(c, p.id) == Some(p.path)
  }

  function Logged<T>(log: seq<Request>, r: Result<T>, request: Request): seq<Request> {
    if r.Ok? then log + [request] else log
  }

  /** An operation commits its transaction, or reports its error and changes nothing. */
  ghost predicate Settled<T>(before: Catalog, outcome: Result<Catalog>, after: Catalog, r: Result<T>) {
    && TreeOk(after)
    && match r
       case Ok(_) => outcome == Ok(after)
       case Err(e) => outcome == Err(e) && after == before
  }

  // ------------------------------------------------------------------- subtrees

  ghost predicate Describes(c: Catalog, top: Id, row: SubtreeNode) {
    && row.id in c.nodes && row.kind == c.nodes[row.id].kind && row.revision == c.nodes[row.id].revision
    && DepthOf(c, row.id) == DepthOf(c, top) + row.depth
  }

  ghost predicate Distinct(rows: seq<SubtreeNode>) {
    forall i, j | 0 <= i < j < |rows| :: rows[i].id != rows[j].id
  }

  ghost function Ids(rows: seq<SubtreeNode>): set<Id> {
    set i | 0 <= i < |rows| :: rows[i].id
  }

  /** The rows list these nodes, each once. */
  ghost predicate Lists(c: Catalog, top: Id, rows: seq<SubtreeNode>, nodes: set<Id>) {
    && (forall i | 0 <= i < |rows| :: Describes(c, top, rows[i]))
    && Distinct(rows)
    && Ids(rows) == nodes
  }

  lemma {:induction false} IdsSize(rows: seq<SubtreeNode>)
    requires Distinct(rows)
    ensures |Ids(rows)| == |rows|
  {
    if rows != [] {
      var init, last := rows[..|rows| - 1], rows[|rows| - 1];
      LaterRowIsNew(rows, |rows| - 1);
      assert rows == init[..|init|] + [last] + init[|init|..];
      IdsInserted(init, |init|, last);
      hide Ids;
      IdsSize(init);
    }
  }

  /** The nodes `distance` below `top`. */
  ghost function Level(c: Catalog, top: Id, distance: nat): set<Id> {
    set k | k in c.nodes && Under(c, k, top) && DepthOf(c, k) == DepthOf(c, top) + distance
  }

  ghost function Above(c: Catalog, top: Id, distance: nat): set<Id> {
    set k | k in c.nodes && Under(c, k, top) && DepthOf(c, k) < DepthOf(c, top) + distance
  }

  lemma FirstLevel(c: Catalog, top: Id)
    requires TreeOk(c) && top in c.nodes
    ensures Level(c, top, 0) == {top} && Above(c, top, 0) == {}
  {
    hide TreeOk;
    forall k | k in c.nodes && Under(c, k, top)
      ensures DepthOf(c, k) >= DepthOf(c, top) && (DepthOf(c, k) == DepthOf(c, top) ==> k == top)
    {
      Linked(c, k);
      Linked(c, top);
      UnderIsDeeper(c, k, top);
    }
  }

  function ChildrenOf(c: Catalog, parents: set<Id>): set<Id> {
    set k | k in c.nodes && c.nodes[k].parent.Some? && c.nodes[k].parent.value in parents
  }

  lemma NextLevel(c: Catalog, top: Id, distance: nat)
    requires TreeOk(c) && top in c.nodes
    ensures Level(c, top, distance + 1) == ChildrenOf(c, Level(c, top, distance))
    ensures Above(c, top, distance + 1) == Above(c, top, distance) + Level(c, top, distance)
  {
    hide TreeOk, Under;
    forall k | k in c.nodes
      ensures k in Level(c, top, distance + 1) <==>
        c.nodes[k].parent.Some? && c.nodes[k].parent.value in Level(c, top, distance)
    {
      Linked(c, k);
      if k != c.root {
        var p := c.nodes[k].parent.value;
        if k == top { ParentIsNotBelow(c, k); } else { UnderParent(c, k, top); }
      } else if k in Level(c, top, distance + 1) {
        UnderIsDeeper(c, k, top);
      }
    }
  }

  lemma ParentIsNotBelow(c: Catalog, n: Id)
    requires TreeOk(c) && n in c.nodes && n != c.root
    ensures !Under(c, c.nodes[n].parent.value, n)
  {
    hide TreeOk;
    Linked(c, n);
    if Under(c, c.nodes[n].parent.value, n) { UnderIsDeeper(c, c.nodes[n].parent.value, n); }
  }

  /** Below an empty level there is nothing. */
  lemma {:induction false} NothingBelow(c: Catalog, top: Id, distance: nat, k: Id)
    requires TreeOk(c) && top in c.nodes && Level(c, top, distance) == {} && k in Subtree(c, top)
    ensures DepthOf(c, k) < DepthOf(c, top) + distance
    decreases DepthOf(c, k)
  {
    hide TreeOk, Under;
    Linked(c, k);
    assert k !in Level(c, top, distance);
    if DepthOf(c, k) > DepthOf(c, top) + distance {
      if k == top || k == c.root {
        UnderIsDeeper(c, k, top);
      } else {
        UnderParent(c, k, top);
        NothingBelow(c, top, distance, c.nodes[k].parent.value);
      }
    }
  }

  lemma WholeSubtree(c: Catalog, top: Id, distance: nat)
    requires TreeOk(c) && top in c.nodes && Level(c, top, distance) == {} && distance <= MAX_DEPTH + 1
    ensures Above(c, top, distance) == Subtree(c, top) && Shallow(c, top)
  {
    hide TreeOk, Under;
    forall k | k in Subtree(c, top)
      ensures DepthOf(c, k) < DepthOf(c, top) + distance
    {
      NothingBelow(c, top, distance, k);
    }
  }

  // ----------------------------------------------------------- paths of a chain

  /** A set of nodes closed under parents that misses the root has no path to it. */
  lemma {:induction false} NoPathFromCycle(c: Catalog, closed: set<Id>, n: Id, steps: nat)
    requires c.root !in closed && n in closed
    requires forall k | k in closed :: k in c.nodes && c.nodes[k].parent.Some? && c.nodes[k].parent.value in closed
    ensures NamesTo(c, n, steps).None?
    decreases steps
  {
    if steps > 0 { NoPathFromCycle(c, closed, c.nodes[n].parent.value, steps - 1); }
  }

  /** The nodes on a walk upwards: each has its parent among them or goes on to `current`. */
  ghost predicate Climbed(c: Catalog, visited: set<Id>, current: Id) {
    && c.root !in visited
    && forall k | k in visited ::
         && k in c.nodes && c.nodes[k].parent.Some?
         && (c.nodes[k].parent.value in visited || c.nodes[k].parent.value == current)
  }

  lemma NoneClimbed(c: Catalog, current: Id)
    ensures Climbed(c, {}, current)
  {
  }

  lemma ClimbOn(c: Catalog, visited: set<Id>, current: Id)
    requires Climbed(c, visited, current) && current != c.root && current in c.nodes && c.nodes[current].parent.Some?
    ensures Climbed(c, visited + {current}, c.nodes[current].parent.value)
  {
  }

  lemma GoingInCircles(c: Catalog, visited: set<Id>, current: Id, steps: nat, gathered: seq<string>)
    requires Climbed(c, visited, current) && current in visited
    ensures Continue(NamesTo(c, current, steps), gathered).None?
  {
    NoPathFromCycle(c, visited, current, steps);
  }

  /** The names gathered from a node upwards, in that order. */
  function Reversed(s: seq<string>): (r: seq<string>)
    ensures |r| == |s|
  {
    seq(|s|, i requires 0 <= i < |s| => s[|s| - 1 - i])
  }

  /** Mirrors the walk so far: the names above, then those already gathered. */
  ghost function Continue(above: Option<seq<string>>, gathered: seq<string>): Option<seq<string>> {
    match above
    case None => None
    case Some(names) => Some(names + Reversed(gathered))
  }

  lemma ContinueEmpty(above: Option<seq<string>>)
    ensures Continue(above, []) == above
  {
    assert above.Some? ==> above.value + Reversed([]) == above.value;
  }

  lemma GatherOne(above: Option<seq<string>>, name: string, gathered: seq<string>)
    ensures Continue(above, gathered + [name]) ==
      Continue(match above case None => None case Some(names) => Some(names + [name]), gathered)
  {
    assert Reversed(gathered + [name]) == [name] + Reversed(gathered);
    if above.Some? {
      assert above.value + ([name] + Reversed(gathered)) == above.value + [name] + Reversed(gathered);
    }
  }

  /** One step of the walk upwards. */
  lemma StepUp(c: Catalog, n: Id, steps: nat, gathered: seq<string>)
    requires n != c.root && steps > 0 && n in c.nodes && c.nodes[n].parent.Some?
    ensures Continue(NamesTo(c, n, steps), gathered) ==
            Continue(NamesTo(c, c.nodes[n].parent.value, steps - 1), gathered + [c.nodes[n].name])
  {
    GatherOne(NamesTo(c, c.nodes[n].parent.value, steps - 1), c.nodes[n].name, gathered);
  }

  lemma NoStepUp(c: Catalog, n: Id, steps: nat, gathered: seq<string>)
    requires n != c.root && (steps == 0 || n !in c.nodes || c.nodes[n].parent.None?)
    ensures Continue(NamesTo(c, n, steps), gathered).None?
  {
  }

  lemma Arrived(c: Catalog, steps: nat, gathered: seq<string>)
    ensures Continue(NamesTo(c, c.root, steps), gathered) == Some(Reversed(gathered))
  {
    assert [] + Reversed(gathered) == Reversed(gathered);
  }

  ghost function SnapshotIds(s: seq<NodeRevision>): set<Id> {
    set i | 0 <= i < |s| :: s[i].id
  }

  lemma {:induction false} SnapshotSize(s: seq<NodeRevision>)
    requires ValidSnapshot(s)
    ensures |SnapshotIds(s)| == |s|
  {
    if s != [] {
      var init := s[..|s| - 1];
      assert forall i | 0 <= i < |init| :: init[i].id != s[|s| - 1].id;
      AddSnapshotId(s);
      SnapshotSize(init);
    }
  }

  lemma AddSnapshotId(s: seq<NodeRevision>)
    requires s != []
    ensures SnapshotIds(s) == SnapshotIds(s[..|s| - 1]) + {s[|s| - 1].id}
  {
  }

  lemma NoSnapshotIds()
    ensures SnapshotIds([]) == {} && ValidSnapshot([])
  {
  }

  /** One more entry spoils a snapshot exactly if it is empty or repeats an id. */
  lemma SnapshotStep(s: seq<NodeRevision>, i: nat)
    requires i < |s| && ValidSnapshot(s[..i])
    ensures SnapshotIds(s[..i + 1]) == SnapshotIds(s[..i]) + {s[i].id}
    ensures if s[i].id == NO_ID || s[i].revision == 0 || s[i].id in SnapshotIds(s[..i]) then !ValidSnapshot(s)
            else ValidSnapshot(s[..i + 1])
  {
    assert s[..i + 1][..i] == s[..i];
    AddSnapshotId(s[..i + 1]);
    if s[i].id in SnapshotIds(s[..i]) {
      var k :| 0 <= k < i && s[..i][k].id == s[i].id;
      assert s[k].id == s[i].id;
    }
  }

  /** There is always a next identifier. */
  lemma {:induction false} FreshIdExists(used: set<Id>) returns (id: Id)
    ensures id !in used && id != NO_ID && forall k | k in used :: k < id
    decreases |used|
  {
    if used == {} {
      id := 1;
    } else {
      var k :| k in used;
      var next := FreshIdExists(used - {k});
      assert used == used - {k} + {k};
      id := if next <= k then k + 1 else next;
    }
  }

  lemma EmptyList(c: Catalog, top: Id)
    ensures Lists(c, top, [], {})
  {
  }

  lemma ListsOneMore(c: Catalog, top: Id, rows: seq<SubtreeNode>, row: SubtreeNode)
    requires Lists(c, top, rows, Ids(rows)) && Describes(c, top, row) && row.id !in Ids(rows)
    ensures Lists(c, top, rows + [row], Ids(rows) + {row.id})
  {
    assert forall i | 0 <= i < |rows| :: rows[i].id in Ids(rows);
    assert forall i | 0 <= i < |rows| :: (rows + [row])[i] == rows[i];
    assert (rows + [row])[|rows|] == row;
  }

  lemma PinnedIds(c: Catalog, top: Id, s: seq<NodeRevision>)
    requires Pins(c, Subtree(c, top), s)
    ensures SnapshotIds(s) == Subtree(c, top) && |s| == |Subtree(c, top)|
  {
    hide Under;
    assert SnapshotIds(s) == Subtree(c, top);
    SnapshotSize(s);
  }

  lemma Unpinned(c: Catalog, top: Id, actual: seq<SubtreeNode>, s: seq<NodeRevision>, i: nat)
    requires TreeOk(c) && Lists(c, top, actual, Subtree(c, top)) && i < |actual|
    requires forall k | 0 <= k < |s| :: s[k].id == actual[i].id ==> s[k].revision != actual[i].revision
    ensures !Pins(c, Subtree(c, top), s)
  {
    hide TreeOk, Under;
    assert actual[i].id in Ids(actual);
  }

  lemma Accepted(c: Catalog, top: Id, actual: seq<SubtreeNode>, s: seq<NodeRevision>, expected: map<Id, nat>)
    requires TreeOk(c) && Lists(c, top, actual, Subtree(c, top)) && ValidSnapshot(s) && |s| == |actual|
    requires expected.Keys == SnapshotIds(s)
    requires forall k | 0 <= k < |s| :: Lookup(expected, s[k].id) == Some(s[k].revision)
    requires forall k | 0 <= k < |actual| :: Lookup(expected, actual[k].id) == Some(actual[k].revision)
    ensures Pins(c, Subtree(c, top), s)
  {
    hide TreeOk, Under;
    IdsSize(actual);
    SnapshotSize(s);
    assert Ids(actual) <= SnapshotIds(s);
    SubsetSize(Ids(actual), SnapshotIds(s));
    forall i | 0 <= i < |s|
      ensures s[i].id in Subtree(c, top) && s[i].revision == c.nodes[s[i].id].revision
    {
      assert s[i].id in SnapshotIds(s);
      var k :| 0 <= k < |actual| && actual[k].id == s[i].id;
      assert Describes(c, top, actual[k]);
    }
  }

  /** A rewritten row that stays in place keeps its distance, hence its path. */
  lemma StillProjects(c: Catalog, n: Id, d: Catalog)
    requires TreeOk(c) && TreeOk(d) && n in c.nodes && n in d.nodes && d.depth == c.depth && PathOf(c, n).Some?
    ensures PathOf(d, n).Some?
  {
    hide TreeOk, ValidName;
    NamesToDepth(c, n, MAX_DEPTH);
    NamesToDepth(d, n, MAX_DEPTH);
  }

  lemma NothingToTake(pending: set<Id>, gone: set<Id>)
    requires gone * pending == {}
    ensures pending - gone == pending
  {
    assert forall n | n in pending :: n !in gone * pending;
  }

  lemma HasParent(c: Catalog, n: Id)
    requires TreeOk(c) && n in c.nodes && (n != c.root || c.nodes[n].kind.Connection?)
    ensures c.nodes[n].parent.Some? && n != c.root
  {
    RootIsFolder(c);
    Linked(c, n);
  }

  // ------------------------------------------------------------------ deletions

  ghost function OfKind(c: Catalog, nodes: set<Id>, kind: Kind): set<Id> {
    set n | n in nodes && n in c.nodes && c.nodes[n].kind == kind
  }

  /** The reported counts are those of the deleted nodes. */
  ghost predicate Counts(c: Catalog, nodes: set<Id>, deletion: Deletion) {
    && deletion.folders == |OfKind(c, nodes, Folder)|
    && deletion.connections == |OfKind(c, nodes, Connection)|
  }

  ghost predicate DeepestFirst(rows: seq<SubtreeNode>) {
    forall i, j | 0 <= i < j < |rows| :: rows[i].depth >= rows[j].depth
  }

  lemma SingleNode(c: Catalog, top: Id, rows: seq<SubtreeNode>)
    requires top in c.nodes && Lists(c, top, rows, Subtree(c, top))
    ensures |rows| == 1 <==> Subtree(c, top) == {top}
  {
    hide Under;
    IdsSize(rows);
    assert Under(c, top, top) by { TopIsUnder(c, top); }
    assert top in Subtree(c, top);
    if |rows| == 1 {
      assert |Subtree(c, top) - {top}| == 0;
      assert Subtree(c, top) == Subtree(c, top) - {top} + {top};
    }
  }

  lemma TopIsUnder(c: Catalog, top: Id)
    ensures Under(c, top, top)
  {
  }

  lemma InsertRow(c: Catalog, top: Id, rows: seq<SubtreeNode>, n: nat, sorted: seq<SubtreeNode>, at: nat)
    requires n < |rows| && Distinct(rows) && Describes(c, top, rows[n]) && at <= |sorted|
    requires Lists(c, top, sorted, Ids(rows[..n])) && DeepestFirst(sorted)
    requires forall k | at <= k < |sorted| :: sorted[k].depth < rows[n].depth
    requires at > 0 ==> sorted[at - 1].depth >= rows[n].depth
    ensures Lists(c, top, sorted[..at] + [rows[n]] + sorted[at..], Ids(rows[..n + 1]))
    ensures DeepestFirst(sorted[..at] + [rows[n]] + sorted[at..])
  {
    hide Describes, Distinct, DeepestFirst;
    LaterRowIsNew(rows, n);
    InsertedRows(sorted, at, rows[n]);
    IdsInserted(sorted, at, rows[n]);
    assert rows[..n + 1] == rows[..n] + [rows[n]] + [];
    IdsInserted(rows[..n], n, rows[n]);
    hide Ids;
    InsertedInOrder(sorted, at, rows[n]);
    var longer := sorted[..at] + [rows[n]] + sorted[at..];
    forall k | 0 <= k < |longer|
      ensures Describes(c, top, longer[k])
    {
      assert longer[k] == if k < at then sorted[k] else if k == at then rows[n] else sorted[k - 1];
    }
  }

  lemma InsertedInOrder(sorted: seq<SubtreeNode>, at: nat, row: SubtreeNode)
    requires at <= |sorted| && DeepestFirst(sorted)
    requires forall k | at <= k < |sorted| :: sorted[k].depth < row.depth
    requires at > 0 ==> sorted[at - 1].depth >= row.depth
    ensures DeepestFirst(sorted[..at] + [row] + sorted[at..])
  {
    var longer := sorted[..at] + [row] + sorted[at..];
    assert forall k | 0 <= k < |longer| ::
        longer[k] == if k < at then sorted[k] else if k == at then row else sorted[k - 1];
  }

  lemma LaterRowIsNew(rows: seq<SubtreeNode>, n: nat)
    requires n < |rows| && Distinct(rows)
    ensures rows[n].id !in Ids(rows[..n])
  {
  }

  lemma InsertedRows(rows: seq<SubtreeNode>, at: nat, row: SubtreeNode)
    requires at <= |rows| && Distinct(rows) && row.id !in Ids(rows)
    ensures Distinct(rows[..at] + [row] + rows[at..])
  {
  }

  lemma IdsInserted(rows: seq<SubtreeNode>, at: nat, row: SubtreeNode)
    requires at <= |rows|
    ensures Ids(rows[..at] + [row] + rows[at..]) == Ids(rows) + {row.id}
  {
    var longer := rows[..at] + [row] + rows[at..];
    assert longer[at] == row;
    forall k | 0 <= k < |rows|
      ensures rows[k].id in Ids(longer)
    {
      assert longer[if k < at then k else k + 1] == rows[k];
    }
  }

  /** When a row's turn comes, its children have been deleted. */
  lemma NothingHangs(c: Catalog, top: Id, rows: seq<SubtreeNode>, i: nat)
    requires TreeOk(c) && Lists(c, top, rows, Subtree(c, top)) && DeepestFirst(rows) && i < |rows|
    ensures rows[i].id !in Ids(rows[..i])
    ensures forall k | k in c.nodes - Ids(rows[..i]) :: c.nodes[k].parent != Some(rows[i].id)
  {
    hide TreeOk, Under;
    assert rows[i].id in Ids(rows);
    forall k | k in c.nodes && c.nodes[k].parent == Some(rows[i].id)
      ensures k in Ids(rows[..i])
    {
      Linked(c, k);
      if k == top { ParentIsNotBelow(c, k); }
      UnderParent(c, k, top);
      assert k in Ids(rows);
      var j :| 0 <= j < |rows| && rows[j].id == k;
      assert Describes(c, top, rows[j]) && Describes(c, top, rows[i]);
      assert rows[..i][j] == rows[j];
    }
  }

  lemma RowsTurn(c: Catalog, top: Id, rows: seq<SubtreeNode>, i: nat, deletion: Deletion)
    requires TreeOk(c) && Lists(c, top, rows, Subtree(c, top)) && DeepestFirst(rows) && i < |rows|
    requires Counts(c, Ids(rows[..i]), deletion)
    ensures var row := rows[i];
      && row.id in c.nodes - Ids(rows[..i]) && row.revision == c.nodes[row.id].revision && row.id in Subtree(c, top)
      && (forall k | k in c.nodes - Ids(rows[..i]) :: c.nodes[k].parent != Some(row.id))
      && Ids(rows[..i + 1]) == Ids(rows[..i]) + {row.id}
      && Counts(c, Ids(rows[..i + 1]),
           if row.kind.Folder? then deletion.(folders := deletion.folders + 1)
           else deletion.(connections := deletion.connections + 1))
  {
    hide TreeOk, Subtree, DeepestFirst, Counts;
    assert Describes(c, top, rows[i]);
    assert rows[i].id in Ids(rows);
    NothingHangs(c, top, rows, i);
    CountOne(c, rows, i, deletion);
  }

  lemma NothingCounted(c: Catalog, rows: seq<SubtreeNode>)
    ensures Ids(rows[..0]) == {} && Counts(c, Ids(rows[..0]), Deletion(0, 0))
  {
    assert OfKind(c, {}, Folder) == {} && OfKind(c, {}, Connection) == {};
  }

  lemma AllListed(c: Catalog, top: Id, rows: seq<SubtreeNode>)
    requires Lists(c, top, rows, Subtree(c, top))
    ensures Ids(rows[..|rows|]) == Subtree(c, top)
  {
    assert rows[..|rows|] == rows;
  }

  lemma CountOne(c: Catalog, rows: seq<SubtreeNode>, i: nat, deletion: Deletion)
    requires i < |rows| && Distinct(rows) && rows[i].id in c.nodes && Counts(c, Ids(rows[..i]), deletion)
    ensures Ids(rows[..i + 1]) == Ids(rows[..i]) + {rows[i].id}
    ensures Counts(c, Ids(rows[..i + 1]),
              if c.nodes[rows[i].id].kind.Folder? then deletion.(folders := deletion.folders + 1)
                else deletion.(connections := deletion.connections + 1))
  {
    assert rows[..i + 1] == rows[..i] + [rows[i]] + [];
    IdsInserted(rows[..i], i, rows[i]);
    LaterRowIsNew(rows, i);
    hide Ids, Distinct, OfKind;
    AddKind(c, Ids(rows[..i]), rows[i].id, Folder);
    AddKind(c, Ids(rows[..i]), rows[i].id, Connection);
  }

  lemma AddKind(c: Catalog, nodes: set<Id>, n: Id, kind: Kind)
    requires n in c.nodes && n !in nodes
    ensures |OfKind(c, nodes + {n}, kind)| == |OfKind(c, nodes, kind)| + if c.nodes[n].kind == kind then 1 else 0
  {
    if c.nodes[n].kind == kind {
      assert OfKind(c, nodes + {n}, kind) == OfKind(c, nodes, kind) + {n};
    } else {
      assert OfKind(c, nodes + {n}, kind) == OfKind(c, nodes, kind);
    }
  }

  /** Projections of the children of a folder, split by kind, each child once. */
  ghost predicate Gathered(c: Catalog, children: set<Id>, folders: seq<Projection>, connections: seq<Projection>) {
    && (forall i | 0 <= i < |folders| :: Projects(c, folders[i]) && folders[i].row.kind.Folder?)
    && (forall i | 0 <= i < |connections| :: Projects(c, connections[i]) && connections[i].row.kind.Connection?)
    && (forall i, j | 0 <= i < j < |folders| :: folders[i].id != folders[j].id)
    && (forall i, j | 0 <= i < j < |connections| :: connections[i].id != connections[j].id)
    && children == ProjectedIds(folders) + ProjectedIds(connections)
  }

  ghost function ProjectedIds(s: seq<Projection>): set<Id> {
    set i | 0 <= i < |s| :: s[i].id
  }

  lemma GatherChild(c: Catalog, children: set<Id>, folders: seq<Projection>, connections: seq<Projection>,
                    child: Projection)
    requires Gathered(c, children, folders, connections) && Projects(c, child) && child.id !in children
    ensures child.row.kind.Folder? ==> Gathered(c, children + {child.id}, folders + [child], connections)
    ensures child.row.kind.Connection? ==> Gathered(c, children + {child.id}, folders, connections + [child])
  {
    hide Projects;
    ProjectedOneMore(folders, child);
    ProjectedOneMore(connections, child);
    assert forall i | 0 <= i < |folders| :: folders[i].id in ProjectedIds(folders);
    assert forall i | 0 <= i < |connections| :: connections[i].id in ProjectedIds(connections);
    hide ProjectedIds;
  }

  lemma ProjectedOneMore(s: seq<Projection>, p: Projection)
    ensures ProjectedIds(s + [p]) == ProjectedIds(s) + {p.id}
  {
    assert (s + [p])[|s|] == p;
    assert forall i | 0 <= i < |s| :: (s + [p])[i] == s[i];
  }

  ghost predicate ListsChildren(c: Catalog, folder: Id, children: Children) {
    && Gathered(c, ChildrenOf(c, {folder}), children.folders, children.connections)
    && children.revision == c.revision
  }

  class Repository {
    var nodes: map<Id, Node>
    var revision: nat
    var pending: set<Id>    // the connections that have a row in the operation table
    var issued: set<Id>
    const root: Id
    const alone: bool       // no other process writes the catalog
    ghost var depth: map<Id, nat>
    ghost const origin: Catalog
    ghost var log: seq<Request>  // what was committed since `origin`, by anybody

    ghost function State(): Catalog
      reads this
    {
      Catalog(nodes, root, revision, pending, issued, depth)
    }

    ghost predicate Valid()
      reads this
    {
      TreeOk(State()) && Logs(origin, log, State())
    }

    /** The catalog was in state c when the log had `at` entries. */
    ghost predicate Saw(at: nat, c: Catalog)
      reads this
    {
      Past(origin, log, at, c)
    }

    /** A fresh catalog: the root folder alone. */
    constructor (root: Id, alone: bool)
      requires root != NO_ID
      ensures Valid() && nodes.Keys == {root} && pending == {} && log == []
      ensures this.root == root && this.alone == alone
    {
      this.nodes := map[root := Node(None, Folder, "/", 1, None, "")];
      this.revision := 1;
      this.pending := {};
      this.issued := {root};
      this.root := root;
      this.alone := alone;
      this.depth := map[root := 0];
      this.origin := New(root);
      this.log := [];
      new;
      EmptyLog(State());
    }

    ghost method Commit(request: Request, before: Catalog)
      requires Logs(origin, log, before) && FreshId(before, request) && Transact(before, request) == Ok(State())
      modifies `log
      ensures Logs(origin, log, State()) && State() == old(State()) && log == old(log) + [request]
    {
      LogOneMore(origin, log, before, request);
      log := log + [request];
    }

    method Restore(nodes: map<Id, Node>, revision: nat, issued: set<Id>, ghost depth: map<Id, nat>)
      modifies `nodes, `revision, `issued, `depth
      ensures State() == Catalog(nodes, root, revision, pending, issued, depth)
    {
      this.nodes := nodes;
      this.revision := revision;
      this.issued := issued;
      this.depth := depth;
    }

    // ------------------------------------------------------------------ reading

    /** pathForNode, on any rows whatever: it finds the path exactly when the root is within
        MAX_DEPTH steps; a cycle among the rows ends the walk. */
    method PathForNode(id: Id) returns (r: Result<string>)
      ensures r.Ok? <==> PathOf(State(), id).Some?
      ensures r.Ok? ==> PathOf(State(), id) == Some(r.value)
      ensures r.Err? && TreeOk(State()) && id in nodes ==> r.error == NoPath
    {
      hide TreeOk, NamesTo, Reversed, Render;
      var gathered := GatherNames(id);
      if gathered.Err? {
        return Err(gathered.error);
      }
      var names := ReverseInPlace(gathered.value);
      return Ok(Render(names));
    }

    /** The names from a node upwards. */
    method GatherNames(id: Id) returns (r: Result<seq<string>>)
      ensures NamesTo(State(), id, MAX_DEPTH) == if r.Ok? then Some(Reversed(r.value)) else None
      ensures r.Err? && TreeOk(State()) && id in nodes ==> r.error == NoPath
    {
      hide TreeOk, NamesTo, Continue, Reversed, Climbed;
      ghost var c := State();
      var reversed: seq<string> := [];
      var visited: set<Id> := {};
      var current := id;
      ContinueEmpty(NamesTo(c, id, MAX_DEPTH));
      NoneClimbed(c, id);
      while current != root
        invariant |visited| == |reversed| <= MAX_DEPTH
        invariant Climbed(c, visited, current)
        invariant NamesTo(c, id, MAX_DEPTH) == Continue(NamesTo(c, current, MAX_DEPTH - |reversed|), reversed)
        invariant TreeOk(c) && id in nodes ==> current in nodes
        decreases MAX_DEPTH - |reversed|
      {
        if current in visited {
          GoingInCircles(c, visited, current, MAX_DEPTH - |reversed|, reversed);
          return Err(NoPath);
        }
        if |visited| >= MAX_DEPTH {
          NoStepUp(c, current, 0, reversed);
          return Err(NoPath);
        }
        if current !in nodes {
          NoStepUp(c, current, MAX_DEPTH - |reversed|, reversed);
          return Err(NotFound);
        }
        if nodes[current].parent.None? {
          NoStepUp(c, current, MAX_DEPTH - |reversed|, reversed);
          return Err(NoPath);
        }
        ClimbOn(c, visited, current);
        visited := visited + {current};
        StepUp(c, current, MAX_DEPTH - |reversed|, reversed);
        if TreeOk(c) { Linked(c, current); }
        reversed := reversed + [nodes[current].name];
        current := nodes[current].parent.value;
      }
      Arrived(c, MAX_DEPTH - |reversed|, reversed);
      return Ok(reversed);
    }

    static method ReverseInPlace(s: seq<string>) returns (r: seq<string>)
      ensures r == Reversed(s)
    {
      r := s;
      var left, right := 0, |s| - 1;
      while left < right
        invariant 0 <= left && right == |s| - 1 - left && left <= right + 2
        invariant |r| == |s|
        invariant forall i | left <= i <= right :: r[i] == s[i]
        invariant forall i | 0 <= i < left && i < |s| :: r[i] == s[|s| - 1 - i]
        invariant forall i | right < i < |s| && 0 <= i :: r[i] == s[|s| - 1 - i]
      {
        r := r[left := r[right]][right := r[left]];
        left, right := left + 1, right - 1;
      }
    }

    method FindChild(parent: Id, name: string) returns (found: Option<Id>)
      requires TreeOk(State())
      ensures found == Child(State(), parent, name)
    {
      if n :| n in nodes && nodes[n].parent == Some(parent) && nodes[n].name == name {
        found := Some(n);
      } else {
        found := None;
      }
    }

    method ResolveSelector(selector: Selector) returns (r: Result<Id>)
      requires TreeOk(State())
      ensures r == Resolve(State(), selector)
    {
      hide TreeOk, Child, ValidName;
      match selector {
        case Malformed => return Err(Invalid);
        case ById(id) => return if id in nodes then Ok(id) else Err(NotFound);
        case ByPath(path) =>
          var names := Parse(path);
          if names.None? {
            return Err(Invalid);
          }
          var current := root;
          var i := 0;
          while i < |names.value|
            invariant 0 <= i <= |names.value|
            invariant Walk(State(), root, names.value) == Walk(State(), current, names.value[i..])
          {
            if current !in nodes || !nodes[current].kind.Folder? {
              return Err(NotFound);
            }
            var child := FindChild(current, names.value[i]);
            if child.None? {
              return Err(NotFound);
            }
            assert names.value[i..][1..] == names.value[i + 1..];
            current := child.value;
            i := i + 1;
          }
          return Ok(current);
      }
    }

    method SelectKind(selector: Selector, kind: Kind) returns (r: Result<Id>)
      requires TreeOk(State())
      ensures r == Select(State(), selector, kind)
      ensures r.Ok? ==> r.value in nodes && nodes[r.value].kind == kind
    {
      hide TreeOk, Resolve;
      r := ResolveSelector(selector);
      if r.Ok? && (r.value !in nodes || nodes[r.value].kind != kind) {
        return Err(WrongKind);
      }
    }

    method NameAvailable(parent: Id, name: string, except: Option<Id>) returns (available: bool)
      ensures available <==> !NameTaken(State(), parent, name, except)
    {
      if n :| n in nodes && nodes[n].parent == Some(parent) && nodes[n].name == name && Some(n) != except {
        return false;
      } else {
        return true;
      }
    }

    /** The recursive query with its two guards: all rows below a folder, level by level. */
    method ReadSubtree(top: Id) returns (r: Result<seq<SubtreeNode>>)
      requires TreeOk(State()) && top in nodes
      ensures r.Ok? <==> Shallow(State(), top)
      ensures r.Err? ==> r.error == HierarchyTooDeep
      ensures r.Ok? ==> Lists(State(), top, r.value, Subtree(State(), top))
    {
      hide TreeOk, Under, Lists;
      ghost var c := State();
      var rows: seq<SubtreeNode> := [];
      var level, seen: set<Id>, distance := {top}, {}, 0;
      FirstLevel(c, top);
      EmptyList(c, top);
      while level != {}
        invariant distance <= MAX_DEPTH + 1
        invariant level == Level(c, top, distance) && seen == Above(c, top, distance)
        invariant distance == MAX_DEPTH + 1 ==> level == {}
        invariant Lists(c, top, rows, seen)
        decreases MAX_DEPTH + 1 - distance
      {
        if level * seen != {} {
          return Err(FolderCycle);
        }
        NextLevel(c, top, distance);
        var children := set k | k in nodes && nodes[k].parent.Some? && nodes[k].parent.value in level;
        assert children == ChildrenOf(c, level);
        if distance == MAX_DEPTH && children != {} {
          ghost var k :| k in children;
          assert k in Subtree(c, top) && DepthOf(c, k) == DepthOf(c, top) + MAX_DEPTH + 1;
          return Err(HierarchyTooDeep);
        }
        rows := AppendLevel(top, distance, level, seen, rows);
        seen := seen + level;
        level := children;
        distance := distance + 1;
      }
      WholeSubtree(c, top, distance);
      r := Ok(rows);
    }

    method AppendLevel(top: Id, distance: nat, level: set<Id>, seen: set<Id>, rows: seq<SubtreeNode>)
      returns (longer: seq<SubtreeNode>)
      requires TreeOk(State()) && level == Level(State(), top, distance) && level !! seen
      requires Lists(State(), top, rows, seen)
      ensures Lists(State(), top, longer, seen + level)
    {
      hide TreeOk, Under;
      ghost var c := State();
      longer := rows;
      var rest := level;
      while rest != {}
        invariant rest <= level
        invariant Lists(c, top, longer, seen + (level - rest))
      {
        var k :| k in rest;
        ListsOneMore(c, top, longer, SubtreeNode(k, nodes[k].kind, nodes[k].revision, distance));
        longer := longer + [SubtreeNode(k, nodes[k].kind, nodes[k].revision, distance)];
        rest := rest - {k};
      }
      assert level - rest == level;
    }

    /** matchesSnapshot accepts exactly the snapshots that pin the listed nodes. */
    method MatchesSnapshot(top: Id, actual: seq<SubtreeNode>, requested: seq<NodeRevision>) returns (ok: bool)
      requires TreeOk(State()) && Lists(State(), top, actual, Subtree(State(), top))
      ensures ok <==> Pins(State(), Subtree(State(), top), requested)
    {
      ghost var c := State();
      hide TreeOk, Under;
      IdsSize(actual);
      if |actual| != |requested| {
        if Pins(c, Subtree(c, top), requested) { PinnedIds(c, top, requested); }
        return false;
      }
      var expected := SnapshotMap(requested);
      if expected.None? {
        return false;
      }
      for i := 0 to |actual|
        invariant forall k | 0 <= k < i :: Lookup(expected.value, actual[k].id) == Some(actual[k].revision)
      {
        assert Describes(c, top, actual[i]);
        KnownRow(c, actual[i].id);
        if (if actual[i].id in expected.value then expected.value[actual[i].id] else 0) != actual[i].revision {
          Unpinned(c, top, actual, requested, i);
          return false;
        }
      }
      Accepted(c, top, actual, requested, expected.value);
      return true;
    }

    static method SnapshotMap(requested: seq<NodeRevision>) returns (r: Option<map<Id, nat>>)
      ensures r.Some? <==> ValidSnapshot(requested)
      ensures r.Some? ==> r.value.Keys == SnapshotIds(requested)
      ensures r.Some? ==>
        forall k | 0 <= k < |requested| :: Lookup(r.value, requested[k].id) == Some(requested[k].revision)
    {
      hide ValidSnapshot, SnapshotIds;
      var expected: map<Id, nat> := map[];
      NoSnapshotIds();
      for i := 0 to |requested|
        invariant expected.Keys == SnapshotIds(requested[..i]) && ValidSnapshot(requested[..i])
        invariant forall k | 0 <= k < i ::
          requested[k].id in SnapshotIds(requested[..i]) &&
          Lookup(expected, requested[k].id) == Some(requested[k].revision)
      {
        SnapshotStep(requested, i);
        if requested[i].id == NO_ID || requested[i].revision == 0 {
          return None;
        }
        if requested[i].id in expected {
          return None;
        }
        expected := expected[requested[i].id := requested[i].revision];
      }
      assert requested[..|requested|] == requested;
      return Some(expected);
    }

    // ------------------------------------------------------------------ writing

    method Project(id: Id) returns (r: Result<Projection>)
      requires TreeOk(State()) && id in nodes
      ensures if PathOf(State(), id).Some? then r.Ok? && r.value.id == id && Projects(State(), r.value)
        else r == Err(NoPath)
    {
      hide TreeOk, PathOf;
      var path := PathForNode(id);
      if path.Err? {
        return Err(path.error);
      }
      return Ok(Projection(id, nodes[id], path.value));
    }

    /** UPDATE of one row under its next revision, and of the catalog revision. */
    method UpdateRow(id: Id, row: Node)
      requires id in nodes
      modifies `nodes, `revision
      ensures State() == Rewrite(old(State()), id, row)
    {
      nodes := nodes[id := row.(revision := nodes[id].revision + 1)];
      revision := revision + 1;
    }

    /** UPDATE of one row in place, and the projection of the result. */
    method Overwrite(id: Id, row: Node) returns (r: Result<Projection>)
      requires TreeOk(State()) && id in nodes && PathOf(State(), id).Some? && TreeOk(Rewrite(State(), id, row))
      modifies `nodes, `revision
      ensures State() == Rewrite(old(State()), id, row)
      ensures r.Ok? && Projects(State(), r.value)
    {
      hide TreeOk, PathOf;
      UpdateRow(id, row);
      StillProjects(old(State()), id, State());
      r := Project(id);
    }

    /** CreateFolder and CreateConnection, whose steps are the same. */
    method Create(kind: Kind, parent: Selector, expectedParent: Option<nat>, expectedPath: string, name: string,
                  details: string, id: Id)
      returns (r: Result<Projection>)
      requires Valid() && id !in issued && id != NO_ID
      modifies this
      ensures Valid() && log == Logged(old(log), r,
                Request.Create(kind, parent, expectedParent, expectedPath, name, details, id))
      ensures Settled(old(State()),
                CreateTx(old(State()), kind, parent, expectedParent, expectedPath, name, details, id), State(), r)
      ensures r.Ok? ==> r.value.id == id && Projects(State(), r.value)
    {
      hide TreeOk, Logs, PathOf, CreateTx, NameTaken, ValidName;
      var where := CheckCreate(kind, parent, expectedParent, expectedPath, name, details, id);
      if where.Err? {
        return Err(where.error);
      }
      var p := where.value;
      var before := (nodes, revision, issued);
      InsertKeepsTree(State(), id, p, kind, name, details);
      nodes := nodes[id := Node(Some(p), kind, name, 1, None, details)];
      revision := revision + 1;
      issued := issued + {id};
      depth := depth[id := DepthOf(old(State()), p) + 1];
      r := Project(id);
      if r.Err? {
        Restore(before.0, before.1, before.2, old(depth));
        return r;
      }
      Commit(Request.Create(kind, parent, expectedParent, expectedPath, name, details, id), old(State()));
    }

    /** The folder that a creation selects. */
    method CheckCreate(kind: Kind, parent: Selector, expectedParent: Option<nat>, expectedPath: string, name: string,
                       ghost details: string, ghost id: Id)
      returns (r: Result<Id>)
      requires TreeOk(State())
      ensures r.Err? ==>
        CreateTx(State(), kind, parent, expectedParent, expectedPath, name, details, id) == Err(r.error)
      ensures r.Ok? ==>
        var d := Insert(State(), id, r.value, kind, name, details);
        && r.value in nodes && nodes[r.value].kind.Folder?
        && ValidName(name) && !NameTaken(State(), r.value, name, None)
        && CreateTx(State(), kind, parent, expectedParent, expectedPath, name, details, id) ==
           if PathOf(d, id).None? then Err(NoPath) else Ok(d)
    {
      hide TreeOk, PathOf, Resolve, ValidName, NameTaken, Insert;
      if !ValidName(name) {
        return Err(Invalid);
      }
      var selected := SelectKind(parent, Folder);
      if selected.Err? {
        return Err(selected.error);
      }
      var folder := Project(selected.value);
      if folder.Err? {
        return Err(folder.error);
      }
      if Unexpected(folder.value.row.revision, expectedParent) || Elsewhere(folder.value.path, expectedPath) {
        return Err(Conflict);
      }
      var available := NameAvailable(selected.value, name, None);
      if !available {
        return Err(Conflict);
      }
      return Ok(selected.value);
    }

    method RenameFolder(folder: Selector, expected: Option<nat>, name: string) returns (r: Result<Projection>)
      requires Valid()
      modifies this
      ensures Valid() && log == Logged(old(log), r, Request.RenameFolder(folder, expected, name))
      ensures Settled(old(State()), RenameFolderTx(old(State()), folder, expected, name), State(), r)
      ensures r.Ok? ==> Projects(State(), r.value)
    {
      hide TreeOk, Logs, PathOf, RenameFolderTx;
      var change := CheckRename(folder, expected, name);
      if change.Err? {
        return Err(change.error);
      }
      RenameKeepsTree(State(), folder, expected, name);
      r := Overwrite(change.value, nodes[change.value].(name := name));
      Commit(Request.RenameFolder(folder, expected, name), old(State()));
    }

    /** The folder that a rename selects. */
    method CheckRename(folder: Selector, expected: Option<nat>, name: string) returns (r: Result<Id>)
      requires TreeOk(State())
      ensures r.Err? ==> RenameFolderTx(State(), folder, expected, name) == Err(r.error)
      ensures r.Ok? ==>
        && r.value in nodes && PathOf(State(), r.value).Some?
        && RenameFolderTx(State(), folder, expected, name) ==
           Ok(Rewrite(State(), r.value, nodes[r.value].(name := name)))
    {
      hide TreeOk, PathOf, Resolve, ValidName, NameTaken;
      if !ValidName(name) {
        return Err(Invalid);
      }
      var selected := SelectKind(folder, Folder);
      if selected.Err? {
        return Err(selected.error);
      }
      var n := selected.value;
      if n == root {
        return Err(RootImmutable);
      }
      HasParent(State(), n);
      var current := Project(n);
      if current.Err? {
        return Err(current.error);
      }
      if Unexpected(current.value.row.revision, expected) {
        return Err(Conflict);
      }
      if name != current.value.row.name {
        var available := NameAvailable(current.value.row.parent.value, name, Some(n));
        if !available {
          return Err(Conflict);
        }
      }
      return Ok(n);
    }

    method UpdateConnection(connection: Selector, expected: Option<nat>, name: Option<string>, details: Option<string>)
      returns (r: Result<Projection>)
      requires Valid()
      modifies this
      ensures Valid() && log == Logged(old(log), r, Request.UpdateConnection(connection, expected, name, details))
      ensures Settled(old(State()), UpdateConnectionTx(old(State()), connection, expected, name, details), State(), r)
      ensures r.Ok? ==> Projects(State(), r.value)
    {
      hide TreeOk, Logs, PathOf, UpdateConnectionTx;
      var change := CheckUpdate(connection, expected, name, details);
      if change.Err? {
        return Err(change.error);
      }
      UpdateKeepsTree(State(), connection, expected, name, details);
      r := Overwrite(change.value.0, change.value.1);
      Commit(Request.UpdateConnection(connection, expected, name, details), old(State()));
    }

    /** The row that an update selects, and what it becomes. */
    method CheckUpdate(connection: Selector, expected: Option<nat>, name: Option<string>, details: Option<string>)
      returns (r: Result<(Id, Node)>)
      requires TreeOk(State())
      ensures r.Err? ==> UpdateConnectionTx(State(), connection, expected, name, details) == Err(r.error)
      ensures r.Ok? ==>
        var (n, row) := r.value;
        && n in nodes && PathOf(State(), n).Some?
        && UpdateConnectionTx(State(), connection, expected, name, details) == Ok(Rewrite(State(), n, row))
    {
      hide TreeOk, PathOf, Resolve, ValidName, NameTaken;
      if name.Some? && !ValidName(name.value) {
        return Err(Invalid);
      }
      var selected := SelectKind(connection, Connection);
      if selected.Err? {
        return Err(selected.error);
      }
      var n := selected.value;
      HasParent(State(), n);
      var current := Project(n);
      if current.Err? {
        return Err(current.error);
      }
      var row := current.value.row;
      if Unexpected(row.revision, expected) {
        return Err(Conflict);
      }
      var changed := ChangedRow(n, row, name, details);
      if changed.Err? {
        return Err(changed.error);
      }
      return Ok((n, changed.value));
    }

    /** The connection's columns after an update, unless the new name is taken. */
    method ChangedRow(n: Id, row: Node, name: Option<string>, details: Option<string>) returns (r: Result<Node>)
      requires row.parent.Some?
      ensures r ==
        if name.Some? && name.value != row.name && NameTaken(State(), row.parent.value, name.value, Some(n)) then
          Err(Conflict)
        else Ok(row.(name := if name.Some? then name.value else row.name,
                     details := if details.Some? then details.value else row.details))
    {
      var changed := row;
      if name.Some? {
        if name.value != row.name {
          var available := NameAvailable(row.parent.value, name.value, Some(n));
          if !available {
            return Err(Conflict);
          }
        }
        changed := changed.(name := name.value);
      }
      if details.Some? {
        changed := changed.(details := details.value);
      }
      return Ok(changed);
    }

    method MoveFolder(folder: Selector, destination: Selector, expected: Option<nat>, expectedDestination: Option<nat>,
                      expectedPath: string, expectedDestinationPath: string)
      returns (r: Result<Projection>)
      requires Valid()
      modifies this
      ensures Valid() && log == Logged(old(log), r,
                Request.MoveFolder(folder, destination, expected, expectedDestination, expectedPath,
                                   expectedDestinationPath))
      ensures Settled(old(State()),
                MoveFolderTx(old(State()), folder, destination, expected, expectedDestination, expectedPath,
                             expectedDestinationPath), State(), r)
      ensures r.Ok? ==> Projects(State(), r.value)
    {
      hide TreeOk, Logs, PathOf, Under, MoveFolderTx, Placed;
      var where := CheckMoveFolder(folder, destination, expected, expectedDestination, expectedPath,
                                   expectedDestinationPath);
      if where.Err? {
        return Err(where.error);
      }
      r := Relink(where.value.0, where.value.1, nodes[where.value.0].name);
      if r.Ok? {
        Commit(Request.MoveFolder(folder, destination, expected, expectedDestination, expectedPath,
                                  expectedDestinationPath), old(State()));
      }
    }

    /** The folder and the destination that a move selects. */
    method CheckMoveFolder(folder: Selector, destination: Selector, expected: Option<nat>,
                           expectedDestination: Option<nat>, expectedPath: string, expectedDestinationPath: string)
      returns (r: Result<(Id, Id)>)
      requires TreeOk(State())
      ensures r.Err? ==>
        MoveFolderTx(State(), folder, destination, expected, expectedDestination, expectedPath,
                     expectedDestinationPath) == Err(r.error)
      ensures r.Ok? ==>
        var (n, p) := r.value;
        && n in nodes && n != root && p in nodes && nodes[p].kind.Folder? && !Under(State(), p, n)
        && MoveFolderTx(State(), folder, destination, expected, expectedDestination, expectedPath,
                        expectedDestinationPath) == Placed(State(), n, p)
    {
      hide TreeOk, PathOf, Resolve, Under, Shallow, Placed;
      var selected := SelectKind(folder, Folder);
      if selected.Err? {
        return Err(selected.error);
      }
      var n := selected.value;
      if n == root {
        return Err(RootImmutable);
      }
      var target := SelectKind(destination, Folder);
      if target.Err? {
        return Err(target.error);
      }
      var p := target.value;
      var checked := CheckPlaces(n, p, expected, expectedDestination, expectedPath, expectedDestinationPath);
      if checked.Some? {
        return Err(checked.value);
      }
      var subtree := ReadSubtree(n);
      if subtree.Err? {
        return Err(subtree.error);
      }
      var below := Contains(subtree.value, p);
      if below {
        return Err(FolderCycle);
      }
      return Ok((n, p));
    }

    /** The expectations about both places, the destination first. */
    method CheckPlaces(n: Id, p: Id, expected: Option<nat>, expectedDestination: Option<nat>, expectedPath: string,
                       expectedDestinationPath: string)
      returns (r: Option<Error>)
      requires TreeOk(State()) && n in nodes && p in nodes
      ensures r ==
        if PathOf(State(), n).None? || PathOf(State(), p).None? then Some(NoPath)
        else if
          || Unexpected(nodes[p].revision, expectedDestination)
          || Elsewhere(PathOf(State(), p).value, expectedDestinationPath)
          || Unexpected(nodes[n].revision, expected)
          || Elsewhere(PathOf(State(), n).value, expectedPath) then Some(Conflict)
        else None
    {
      hide TreeOk, PathOf;
      var current := Project(n);
      if current.Err? {
        return Some(current.error);
      }
      var goal := Project(p);
      if goal.Err? {
        return Some(goal.error);
      }
      if
        || Unexpected(goal.value.row.revision, expectedDestination)
        || Elsewhere(goal.value.path, expectedDestinationPath)
      {
        return Some(Conflict);
      }
      if Unexpected(current.value.row.revision, expected) || Elsewhere(current.value.path, expectedPath) {
        return Some(Conflict);
      }
      return None;
    }

    /** The loop that looks for the destination among the subtree's rows. */
    static method Contains(rows: seq<SubtreeNode>, id: Id) returns (found: bool)
      ensures found <==> id in Ids(rows)
    {
      for i := 0 to |rows|
        invariant id !in Ids(rows[..i])
      {
        if rows[i].id == id {
          return true;
        }
        assert Ids(rows[..i + 1]) == Ids(rows[..i]) + {rows[i].id};
      }
      assert rows[..|rows|] == rows;
      return false;
    }

    /** The last steps of both moves: name check, UPDATE, and the projection of the result. */
    method Relink(n: Id, p: Id, name: string) returns (r: Result<Projection>)
      requires TreeOk(State()) && n in nodes && n != root && p in nodes && nodes[p].kind.Folder?
      requires name == nodes[n].name && !Under(State(), p, n)
      modifies `nodes, `revision, `issued, `depth
      ensures Settled(old(State()), Placed(old(State()), n, p), State(), r)
      ensures r.Ok? ==> Projects(State(), r.value)
    {
      hide TreeOk, PathOf, NameTaken, Under;
      var available := NameAvailable(p, name, Some(n));
      if !available {
        return Err(Conflict);
      }
      var before := (nodes, revision, issued);
      RelinkKeepsTree(State(), n, p);
      depth := Relinked(State(), n, p).depth;
      UpdateRow(n, nodes[n].(parent := Some(p)));
      assert State() == Relinked(old(State()), n, p);
      r := Project(n);
      if r.Err? {
        Restore(before.0, before.1, before.2, old(depth));
      }
    }

    method MoveConnection(connection: Selector, destination: Selector, expected: Option<nat>,
                          expectedDestination: Option<nat>, expectedPath: string, expectedDestinationPath: string)
      returns (r: Result<Projection>)
      requires Valid()
      modifies this
      ensures Valid() && log == Logged(old(log), r,
                Request.MoveConnection(connection, destination, expected, expectedDestination, expectedPath,
                                       expectedDestinationPath))
      ensures Settled(old(State()),
                MoveConnectionTx(old(State()), connection, destination, expected, expectedDestination, expectedPath,
                                 expectedDestinationPath), State(), r)
      ensures r.Ok? ==> Projects(State(), r.value)
    {
      hide TreeOk, Logs, PathOf, Under, MoveConnectionTx, Placed;
      var where := CheckMoveConnection(connection, destination, expected, expectedDestination, expectedPath,
                                       expectedDestinationPath);
      if where.Err? {
        return Err(where.error);
      }
      r := Relink(where.value.0, where.value.1, nodes[where.value.0].name);
      if r.Ok? {
        Commit(Request.MoveConnection(connection, destination, expected, expectedDestination, expectedPath,
                                      expectedDestinationPath), old(State()));
      }
    }

    /** The expectations about one place. */
    method CheckPlace(n: Id, expected: Option<nat>, expectedPath: string) returns (r: Option<Error>)
      requires TreeOk(State()) && n in nodes
      ensures r ==
        if PathOf(State(), n).None? then Some(NoPath)
        else if Unexpected(nodes[n].revision, expected) || Elsewhere(PathOf(State(), n).value, expectedPath) then
          Some(Conflict)
        else None
    {
      hide TreeOk, PathOf;
      var current := Project(n);
      if current.Err? {
        return Some(current.error);
      }
      if Unexpected(current.value.row.revision, expected) || Elsewhere(current.value.path, expectedPath) {
        return Some(Conflict);
      }
      return None;
    }

    /** The connection and the destination that a move selects. */
    method CheckMoveConnection(connection: Selector, destination: Selector, expected: Option<nat>,
                               expectedDestination: Option<nat>, expectedPath: string, expectedDestinationPath: string)
      returns (r: Result<(Id, Id)>)
      requires TreeOk(State())
      ensures r.Err? ==>
        MoveConnectionTx(State(), connection, destination, expected, expectedDestination, expectedPath,
                         expectedDestinationPath) == Err(r.error)
      ensures r.Ok? ==>
        var (n, p) := r.value;
        && n in nodes && n != root && p in nodes && nodes[p].kind.Folder? && !Under(State(), p, n)
        && MoveConnectionTx(State(), connection, destination, expected, expectedDestination, expectedPath,
                            expectedDestinationPath) == Placed(State(), n, p)
    {
      hide TreeOk, PathOf, Resolve, Under, Placed;
      var selected := SelectKind(connection, Connection);
      if selected.Err? {
        return Err(selected.error);
      }
      var n := selected.value;
      var target := SelectKind(destination, Folder);
      if target.Err? {
        return Err(target.error);
      }
      var p := target.value;
      var goal := CheckPlace(p, expectedDestination, expectedDestinationPath);
      if goal.Some? {
        return Err(goal.value);
      }
      var current := CheckPlace(n, expected, expectedPath);
      if current.Some? {
        return Err(current.value);
      }
      HasParent(State(), n);
      NothingUnderConnection(State(), p, n);
      return Ok((n, p));
    }

    /** The foreign key of the operation table keeps a connection whose operation is
        pending. */
    method DeleteConnection(connection: Selector, expected: Option<nat>) returns (r: Result<Projection>)
      requires Valid()
      modifies this
      ensures Valid() && log == Logged(old(log), r, Request.DeleteConnection(connection, expected))
      ensures Settled(old(State()), DeleteConnectionTx(old(State()), connection, expected), State(), r)
      ensures r.Ok? ==> Projects(old(State()), r.value)
    {
      hide TreeOk, Logs, PathOf, DeleteConnectionTx, Under;
      r := CheckDeleteConnection(connection, expected);
      if r.Err? {
        return;
      }
      var n := r.value.id;
      if n in pending {
        return Err(OperationPending);
      }
      ConnectionSubtree(State(), n);
      DeleteKeepsTree(State(), n);
      nodes := nodes - {n};
      revision := revision + 1;
      assert pending - {n} == pending;
      Commit(Request.DeleteConnection(connection, expected), old(State()));
    }

    /** The connection that a deletion selects. */
    method CheckDeleteConnection(connection: Selector, expected: Option<nat>) returns (r: Result<Projection>)
      requires TreeOk(State())
      ensures r.Err? ==> DeleteConnectionTx(State(), connection, expected) == Err(r.error)
      ensures r.Ok? ==>
        && Projects(State(), r.value) && r.value.row.kind.Connection?
        && DeleteConnectionTx(State(), connection, expected) ==
           if r.value.id in pending then Err(OperationPending) else Ok(Without(State(), {r.value.id}))
    {
      hide TreeOk, PathOf, Resolve;
      var selected := SelectKind(connection, Connection);
      if selected.Err? {
        return Err(selected.error);
      }
      r := Project(selected.value);
      if r.Ok? && Unexpected(r.value.row.revision, expected) {
        return Err(Conflict);
      }
    }

    /** CreateCredentialOperation: the row is stored unless the connection has one, and only
        for a connection. */
    method BeginCredential(n: Id) returns (r: Result<Id>)
      requires Valid()
      modifies this
      ensures Valid() && log == Logged(old(log), r, Request.Begin(n))
      ensures Settled(old(State()), BeginTx(old(State()), n), State(), r)
      ensures r.Ok? ==> nodes == old(nodes) && pending == old(pending) + {n} && n !in old(pending)
    {
      hide TreeOk, Logs;
      if n !in nodes || !nodes[n].kind.Connection? || n in pending {
        return Err(Conflict);
      }
      OperationsAreConnections(State());
      PendingKeepsTree(State(), pending + {n});
      pending := pending + {n};
      Commit(Request.Begin(n), old(State()));
      return Ok(n);
    }

    /** DeleteCredentialOperation, which does not mind a missing row. */
    method EndCredential(n: Id)
      requires Valid()
      modifies this
      ensures Valid() && log == old(log) + [Request.End(n)]
      ensures EndTx(old(State()), n) == Ok(State())
      ensures nodes == old(nodes) && pending == old(pending) - {n}
    {
      hide TreeOk, Logs;
      OperationsAreConnections(State());
      PendingKeepsTree(State(), pending - {n});
      pending := pending - {n};
      Commit(Request.End(n), old(State()));
    }

    /** The catalog step of a credential operation: it changes the connection only if both
        its revision and its reference are still the recorded ones. */
    method ApplyCredential(n: Id, expected: nat, oldRef: Option<Id>, change: Change, details: string)
      returns (r: Result<Id>)
      requires Valid()
      modifies this
      ensures Valid() && log == Logged(old(log), r, Request.Credential(n, expected, oldRef, change, details))
      ensures Settled(old(State()), CredentialTx(old(State()), n, expected, oldRef, change, details), State(), r)
    {
      hide TreeOk, Logs;
      if n !in pending {
        return Err(NotFound);
      }
      if n !in nodes || !nodes[n].kind.Connection? || nodes[n].revision != expected || nodes[n].ref != oldRef {
        return Err(Conflict);
      }
      CredentialKeepsTree(State(), n, expected, oldRef, change, details);
      match change {
        case SetRef(ref) => UpdateRow(n, nodes[n].(ref := Some(ref), details := details));
        case ClearRef => UpdateRow(n, nodes[n].(ref := None, details := details));
        case DropNode =>
          pending := pending - {n};
          nodes := nodes - {n};
          revision := revision + 1;
      }
      Commit(Request.Credential(n, expected, oldRef, change, details), old(State()));
      return Ok(n);
    }

    /** DeleteFolder: the listed rows are deleted deepest first, so that no row is deleted
        while another names it as its parent; a pending operation ends the transaction. */
    method DeleteFolder(folder: Selector, expected: Option<nat>, recursive: bool, snapshot: seq<NodeRevision>)
      returns (r: Result<Deletion>)
      requires Valid()
      modifies this
      ensures Valid() && log == Logged(old(log), r, Request.DeleteFolder(folder, expected, recursive, snapshot))
      ensures Settled(old(State()), DeleteFolderTx(old(State()), folder, expected, recursive, snapshot), State(), r)
      ensures r.Ok? ==>
        Counts(old(State()), Subtree(old(State()), Select(old(State()), folder, Folder).value), r.value)
    {
      hide TreeOk, Logs, DeleteFolderTx, Select, Subtree, Lists, Counts;
      ghost var c := State();
      var checked := CheckDeleteFolder(folder, expected, recursive, snapshot);
      if checked.Err? {
        return Err(checked.error);
      }
      var (n, subtree) := checked.value;
      DeleteKeepsTree(c, n);
      subtree := SortDeepestFirst(n, subtree);
      var before := (nodes, revision, issued);
      var deletion := DeleteRows(n, subtree);
      if deletion.None? {
        Restore(before.0, before.1, before.2, depth);
        return Err(OperationPending);
      }
      revision := revision + 1;
      NothingToTake(pending, Subtree(c, n));
      Commit(Request.DeleteFolder(folder, expected, recursive, snapshot), c);
      return Ok(deletion.value);
    }

    /** The folder that a deletion selects, and the rows of its subtree. */
    method CheckDeleteFolder(folder: Selector, expected: Option<nat>, recursive: bool, snapshot: seq<NodeRevision>)
      returns (r: Result<(Id, seq<SubtreeNode>)>)
      requires TreeOk(State())
      ensures r.Err? ==> DeleteFolderTx(State(), folder, expected, recursive, snapshot) == Err(r.error)
      ensures r.Ok? ==>
        var (n, rows) := r.value;
        && n in nodes && n != root && Select(State(), folder, Folder) == Ok(n)
        && Lists(State(), n, rows, Subtree(State(), n))
        && DeleteFolderTx(State(), folder, expected, recursive, snapshot) ==
           if Subtree(State(), n) * pending != {} then Err(OperationPending)
           else Ok(Without(State(), Subtree(State(), n)))
    {
      hide TreeOk, PathOf, Resolve, Under, Subtree, Shallow, Pins, Lists;
      ghost var c := State();
      var selected := SelectKind(folder, Folder);
      if selected.Err? {
        return Err(selected.error);
      }
      var n := selected.value;
      if n == root {
        return Err(RootImmutable);
      }
      var current := Project(n);
      if current.Err? {
        return Err(current.error);
      }
      if Unexpected(current.value.row.revision, expected) {
        return Err(Conflict);
      }
      var read := ReadSubtree(n);
      if read.Err? {
        return Err(read.error);
      }
      if !recursive {
        SingleNode(c, n, read.value);
        if |read.value| != 1 {
          return Err(FolderNotEmpty);
        }
      } else {
        var matches := MatchesSnapshot(n, read.value, snapshot);
        if !matches {
          return Err(Conflict);
        }
      }
      return Ok((n, read.value));
    }

    method SortDeepestFirst(top: Id, rows: seq<SubtreeNode>) returns (sorted: seq<SubtreeNode>)
      requires Lists(State(), top, rows, Subtree(State(), top))
      ensures Lists(State(), top, sorted, Subtree(State(), top)) && DeepestFirst(sorted)
    {
      hide Under;
      ghost var c := State();
      sorted := [];
      for n := 0 to |rows|
        invariant Lists(c, top, sorted, Ids(rows[..n])) && DeepestFirst(sorted)
      {
        var at := |sorted|;
        while at > 0 && sorted[at - 1].depth < rows[n].depth
          invariant 0 <= at <= |sorted|
          invariant forall k | at <= k < |sorted| :: sorted[k].depth < rows[n].depth
        {
          at := at - 1;
        }
        InsertRow(c, top, rows, n, sorted, at);
        sorted := sorted[..at] + [rows[n]] + sorted[at..];
      }
      assert rows[..|rows|] == rows;
    }

    method DeleteRows(top: Id, rows: seq<SubtreeNode>) returns (r: Option<Deletion>)
      requires TreeOk(State()) && Lists(State(), top, rows, Subtree(State(), top)) && DeepestFirst(rows)
      modifies `nodes
      ensures r.Some? <==> Subtree(old(State()), top) * pending == {}
      ensures r.Some? ==> nodes == old(nodes) - Subtree(old(State()), top)
      ensures r.Some? ==> Counts(old(State()), Subtree(old(State()), top), r.value)
    {
      hide TreeOk, Subtree, Lists, DeepestFirst, Ids, Counts;
      ghost var c := State();
      var deletion := Deletion(0, 0);
      NothingCounted(c, rows);
      for i := 0 to |rows|
        invariant nodes == c.nodes - Ids(rows[..i])
        invariant Ids(rows[..i]) * pending == {}
        invariant Counts(c, Ids(rows[..i]), deletion)
      {
        RowsTurn(c, top, rows, i, deletion);
        var deleted := DeleteRow(rows[i].id, rows[i].revision);
        if !deleted {
          assert rows[i].id in Subtree(c, top) * pending;
          return None;
        }
        deletion := if rows[i].kind.Folder? then deletion.(folders := deletion.folders + 1)
                    else deletion.(connections := deletion.connections + 1);
      }
      AllListed(c, top, rows);
      return Some(deletion);
    }

    /** DELETE of one row, refused by the foreign key of the operation table; what it requires
        is what the foreign key of the parents and the revision test of the statement would
        otherwise refuse. */
    method DeleteRow(id: Id, expected: nat) returns (deleted: bool)
      requires id in nodes && nodes[id].revision == expected
      requires forall k | k in nodes :: nodes[k].parent != Some(id)
      modifies `nodes
      ensures deleted <==> id !in pending
      ensures nodes == if deleted then old(nodes) - {id} else old(nodes)
    {
      deleted := id !in pending;
      if deleted {
        nodes := nodes - {id};
      }
    }

    // ------------------------------------------------------------------- reading

    method GetFolder(folder: Selector) returns (r: Result<(Projection, nat)>)
      requires TreeOk(State())
      ensures match Select(State(), folder, Folder)
              case Err(e) => r == Err(e)
              case Ok(n) =>
                if PathOf(State(), n).Some? then
                  r.Ok? && r.value.0.id == n && Projects(State(), r.value.0) && r.value.1 == revision
                            else r == Err(NoPath)
    {
      hide TreeOk, PathOf, Resolve;
      var selected := SelectKind(folder, Folder);
      if selected.Err? {
        return Err(selected.error);
      }
      var projection := Project(selected.value);
      if projection.Err? {
        return Err(projection.error);
      }
      return Ok((projection.value, revision));
    }

    /** ListChildren of a folder given by id. */
    method ListChildren(folder: Id) returns (r: Result<Children>)
      requires TreeOk(State())
      ensures r.Ok? <==>
        folder in nodes && nodes[folder].kind.Folder? && forall k | k in ChildrenOf(State(), {folder}) ::
          PathOf(State(), k).Some?
      ensures r.Ok? ==> ListsChildren(State(), folder, r.value)
    {
      hide TreeOk, PathOf;
      if folder !in nodes || !nodes[folder].kind.Folder? {
        return Err(if folder !in nodes then NotFound else WrongKind);
      }
      var folders, connections := [], [];
      var all := set k | k in nodes && nodes[k].parent == Some(folder);
      assert all == ChildrenOf(State(), {folder});
      var rest := all;
      while rest != {}
        invariant rest <= all
        invariant Gathered(State(), all - rest, folders, connections)
      {
        var k :| k in rest;
        var child := Project(k);
        if child.Err? {
          return Err(child.error);
        }
        GatherChild(State(), all - rest, folders, connections, child.value);
        if nodes[k].kind.Folder? {
          folders := folders + [child.value];
        } else {
          connections := connections + [child.value];
        }
        assert all - (rest - {k}) == all - rest + {k};
        rest := rest - {k};
      }
      assert all - rest == all;
      return Ok(Children(folders, connections, revision));
    }

    // ----------------------------------------------------------------- other actors

    /** One request of any actor. */
    method Perform(request: Request)
      requires Valid() && FreshId(State(), request)
      modifies this
      ensures Valid() && State() == Next(old(State()), request)
      ensures log == if Transact(old(State()), request).Ok? then old(log) + [request] else old(log)
    {
      hide TreeOk, CreateTx, RenameFolderTx, UpdateConnectionTx, MoveFolderTx, MoveConnectionTx, DeleteFolderTx,
           DeleteConnectionTx, CredentialTx, Counts, Projects, Logs;
      match request {
        case Create(kind, parent, ep, path, name, details, id) =>
          var r := Create(kind, parent, ep, path, name, details, id);
        case RenameFolder(folder, e, name) =>
          var r := RenameFolder(folder, e, name);
        case UpdateConnection(connection, e, name, details) =>
          var r := UpdateConnection(connection, e, name, details);
        case MoveFolder(folder, destination, e, ed, path, dpath) =>
          var r := MoveFolder(folder, destination, e, ed, path, dpath);
        case MoveConnection(connection, destination, e, ed, path, dpath) =>
          var r := MoveConnection(connection, destination, e, ed, path, dpath);
        case DeleteFolder(folder, e, recursive, snapshot) =>
          var r := DeleteFolder(folder, e, recursive, snapshot);
        case DeleteConnection(connection, e) =>
          var r := DeleteConnection(connection, e);
        case Credential(n, expected, oldRef, change, details) =>
          var r := ApplyCredential(n, expected, oldRef, change, details);
        case Begin(n) =>
          var r := BeginCredential(n);
        case End(n) =>
          EndCredential(n);
      }
    }

    method NewId() returns (id: Id)
      ensures id !in issued && id != NO_ID
    {
      ghost var unused := FreshIdExists(issued);
      id :| id !in issued && id != NO_ID;
    }

    /** One request of another actor, as long as it leaves the operations in `held` to
        whoever began them. */
    method OneOther(held: set<Id>)
      requires Valid()
      modifies this
      ensures Valid() && old(log) <= log && Evolves(old(State()), State()) && held * old(pending) <= pending
    {
      hide TreeOk, Evolves, Transact, Logs;
      ghost var c := State();
      EvolvesReflexive(c);
      var request: Request := *;
      if request.Create? {
        var id := NewId();
        request := request.(id := id);
      }
      if (request.Credential? || request.End?) && request.node in held {
        return;
      }
      StepKeepsTree(c, request);
      Perform(request);
      forall n | n in held * c.pending
        ensures n in pending
      {
        if Transact(c, request).Ok? { OperationStays(c, request, n); }
      }
    }

    /** Whatever other actors commit between two calls: any number of requests. */
    method Others(held: set<Id>)
      requires Valid()
      modifies this
      ensures Valid() && old(log) <= log && Evolves(old(State()), State())
      ensures held * old(pending) <= pending
      ensures alone ==> State() == old(State()) && log == old(log)
    {
      hide TreeOk, Evolves, Logs;
      EvolvesReflexive(State());
      var requests: nat := *;
      while requests > 0 && !alone
        invariant Valid() && old(log) <= log && Evolves(old(State()), State())
        invariant held * old(pending) <= pending
        invariant alone ==> State() == old(State()) && log == old(log)
        decreases requests
      {
        ghost var c := State();
        OneOther(held);
        EvolvesTransitive(old(State()), c, State());
        requests := requests - 1;
      }
    }
  }
}
