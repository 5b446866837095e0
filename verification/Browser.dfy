/** The catalog tree on screen: which rows are shown for a set of expanded folders, and how
    the cursor moves over them without ever losing a visible row. */
module Browser {
  import opened Outcomes

  type Id = nat

  const NO_ID: Id := 0

  datatype TreeNode = TreeNode(folder: bool, root: bool)

  /** A loaded catalog. `depth` and `height` are no part of the program's snapshot: they
      certify that the parent links lead to the root. */
  datatype Snapshot = Snapshot(
    rootId: Id, nodes: map<Id, TreeNode>, children: map<Id, seq<Id>>, parents: map<Id, Id>, depth: map<Id, nat>,
    height: nat)

  datatype Row = Row(id: Id, depth: nat, expanded: bool, hasChildren: bool)

  function Children(s: Snapshot, n: Id): seq<Id> {
    if n in s.children then s.children[n] else []
  }

  function Parent(s: Snapshot, n: Id): Id {
    if n in s.parents then s.parents[n] else NO_ID
  }

  ghost predicate NodeFormed(s: Snapshot, n: Id)
    requires n in s.nodes
  {
    && n != NO_ID && n in s.depth && s.depth[n] <= s.height
    && (s.nodes[n].root <==> n == s.rootId)
    && if n == s.rootId then n !in s.parents && s.nodes[n].folder && s.depth[n] == 0
       else
         && n in s.parents && s.parents[n] in s.nodes && s.parents[n] in s.depth && s.nodes[s.parents[n]].folder
         && s.depth[n] == s.depth[s.parents[n]] + 1
         && n in Children(s, s.parents[n])
  }

  ghost predicate ListFormed(s: Snapshot, p: Id)
    requires p in s.children
  {
    && p in s.nodes
    && (forall i, j | 0 <= i < j < |s.children[p]| :: s.children[p][i] != s.children[p][j])
    && (forall c | c in s.children[p] :: c in s.nodes && c in s.parents && s.parents[c] == p)
  }

  ghost predicate Formed(s: Snapshot) {
    && s.rootId in s.nodes
    && s.parents.Keys <= s.nodes.Keys
    && (forall n | n in s.nodes :: NodeFormed(s, n))
    && (forall p | p in s.children :: ListFormed(s, p))
  }

  /** What the shape says about one node. */
  lemma Shape(s: Snapshot, n: Id)
    requires Formed(s) && n in s.nodes
    ensures n != NO_ID && DepthOf(s, n) <= s.height && (s.nodes[n].root <==> n == s.rootId)
    ensures n == s.rootId ==> n !in s.parents && Parent(s, n) == NO_ID && s.nodes[n].folder
    ensures n != s.rootId ==>
      var p := Parent(s, n);
      && n in s.parents && p != NO_ID && p in s.nodes && s.nodes[p].folder && DepthOf(s, n) == DepthOf(s, p) + 1
      && n in Children(s, p)
  {
  }

  lemma ChildShape(s: Snapshot, p: Id, c: Id)
    requires Formed(s) && p in s.nodes && c in Children(s, p)
    ensures c in s.nodes && c != s.rootId && Parent(s, c) == p && s.nodes[p].folder &&
      DepthOf(s, c) == DepthOf(s, p) + 1
  {
    assert ListFormed(s, p);
    assert NodeFormed(s, c);
    assert NodeFormed(s, s.rootId);
  }

  function DepthOf(s: Snapshot, n: Id): nat {
    if n in s.depth then s.depth[n] else 0
  }

  // --------------------------------------------------------------------- loading

  ghost predicate Unique(ids: seq<Id>) {
    forall i, j | 0 <= i < j < |ids| :: ids[i] != ids[j]
  }

  /** d is s with ids hung below a node, before the node's list of children is set. */
  ghost predicate Hung(s: Snapshot, d: Snapshot, parent: Id, ids: seq<Id>) {
    && d.rootId == s.rootId && d.height == s.height && d.children == s.children
    && (forall c | c in ids :: c != NO_ID && c !in s.nodes)
    && Unique(ids)
    && d.nodes.Keys == s.nodes.Keys + Members(ids)
    && d.parents.Keys == s.parents.Keys + Members(ids)
    && (forall n | n in s.nodes :: HungOld(s, d, n))
    && (forall c | c in ids :: HungNew(s, d, parent, c))
  }

  ghost predicate HungOld(s: Snapshot, d: Snapshot, n: Id)
    requires n in s.nodes && n in d.nodes
  {
    d.nodes[n] == s.nodes[n] && Parent(d, n) == Parent(s, n) && Lookup(d.depth, n) == Lookup(s.depth, n)
  }

  ghost predicate HungNew(s: Snapshot, d: Snapshot, parent: Id, c: Id)
    requires c in d.nodes
  {
    !d.nodes[c].root && c in d.parents && d.parents[c] == parent && Lookup(d.depth, c) == Some(DepthOf(s, parent) + 1)
  }

  ghost function Members(ids: seq<Id>): set<Id> {
    set c | c in ids
  }

  /** addChildren. Refused, it leaves the nodes that it has hung so far, without a list. */
  method AddChildren(s: Snapshot, parent: Id, folders: seq<Id>, connections: seq<Id>) returns (ok: bool, d: Snapshot)
    ensures ok <==>
      && parent in s.nodes && Unique(folders + connections)
      && forall c | c in folders + connections :: c != NO_ID && c !in s.nodes
    ensures ok ==>
      && Children(d, parent) == folders + connections
      && d.nodes.Keys == s.nodes.Keys + Members(folders + connections)
    ensures ok ==> forall k | 0 <= k < |folders + connections| ::
      && (folders + connections)[k] in d.nodes
      && d.nodes[(folders + connections)[k]].folder == (k < |folders|)
    ensures ok && Formed(s) && s.nodes[parent].folder && Children(s, parent) == [] ==> Formed(d)
    ensures !ok && parent !in s.nodes ==> d == s
    ensures !ok && parent in s.nodes ==> Interrupted(s, d, parent, folders + connections)
  {
    hide Formed, Hung, Unique;
    d := s;
    if parent !in s.nodes {
      return false, d;
    }
    var ids := folders + connections;
    NothingHung(s, parent);
    for i := 0 to |ids|
      invariant Hung(s, d, parent, ids[..i])
      invariant forall k | 0 <= k < i :: ids[k] in d.nodes && d.nodes[ids[k]].folder == (k < |folders|)
    {
      var c := ids[i];
      assert c in folders + connections;
      HangOne(s, d, parent, ids, i, i < |folders|);
      if c == NO_ID || c in d.nodes {
        return false, d;
      }
      d := Hang(s, d, parent, c, i < |folders|);
    }
    assert ids[..|ids|] == ids;
    HungMeans(s, d, parent, ids);
    if Formed(s) && s.nodes[parent].folder && Children(s, parent) == [] { HungIsFormed(s, d, parent, ids); }
    return true, Listed(s, d, parent, ids);
  }

  /** d is s with some of the ids hung below the parent, up to an unusable one. */
  ghost predicate Interrupted(s: Snapshot, d: Snapshot, parent: Id, ids: seq<Id>) {
    exists i | 0 <= i < |ids| :: Hung(s, d, parent, ids[..i]) && (ids[i] == NO_ID || ids[i] in d.nodes)
  }

  /** The list of children is set last. */
  function Listed(s: Snapshot, d: Snapshot, parent: Id, ids: seq<Id>): Snapshot {
    var below := DepthOf(s, parent) + 1;
    d.(children := d.children[parent := ids], height := if s.height < below then below else s.height)
  }

  function Hang(s: Snapshot, d: Snapshot, parent: Id, c: Id, folder: bool): Snapshot {
    d.(nodes := d.nodes[c := TreeNode(folder, false)], parents := d.parents[c := parent],
       depth := d.depth[c := DepthOf(s, parent) + 1])
  }

  lemma NothingHung(s: Snapshot, parent: Id)
    ensures Hung(s, s, parent, [])
  {
  }

  lemma HangOne(s: Snapshot, d: Snapshot, parent: Id, ids: seq<Id>, i: nat, folder: bool)
    requires i < |ids| && Hung(s, d, parent, ids[..i])
    ensures ids[i] != NO_ID && ids[i] !in d.nodes ==> Hung(s, Hang(s, d, parent, ids[i], folder), parent, ids[..i + 1])
    ensures ids[i] in d.nodes ==> ids[i] in s.nodes || !Unique(ids)
  {
    hide Hung;
    var c := ids[i];
    HungMeans(s, d, parent, ids[..i]);
    if c in d.nodes {
      if c !in s.nodes {
        var k :| 0 <= k < i && ids[..i][k] == c;
      }
    } else if c != NO_ID {
      assert ids[..i + 1] == ids[..i] + [c];
      HungOneMore(s, d, parent, ids[..i], c, folder);
    }
  }

  lemma HungOneMore(s: Snapshot, d: Snapshot, parent: Id, ids: seq<Id>, c: Id, folder: bool)
    requires Hung(s, d, parent, ids) && c != NO_ID && c !in d.nodes
    ensures Hung(s, Hang(s, d, parent, c, folder), parent, ids + [c])
  {
    hide HungOld, HungNew;
    assert Members(ids + [c]) == Members(ids) + {c};
    StillHung(s, d, parent, ids, c, folder);
  }

  lemma StillHung(s: Snapshot, d: Snapshot, parent: Id, ids: seq<Id>, c: Id, folder: bool)
    requires Hung(s, d, parent, ids) && c !in d.nodes
    ensures var e := Hang(s, d, parent, c, folder);
      && (forall n | n in s.nodes :: n in e.nodes && HungOld(s, e, n))
      && (forall n | n in ids + [c] :: n in e.nodes && HungNew(s, e, parent, n))
  {
  }

  lemma HungMeans(s: Snapshot, d: Snapshot, parent: Id, ids: seq<Id>)
    requires Hung(s, d, parent, ids)
    ensures Unique(ids) && (forall c | c in ids :: c != NO_ID && c !in s.nodes)
    ensures d.rootId == s.rootId && d.children == s.children && d.height == s.height
    ensures d.nodes.Keys == s.nodes.Keys + Members(ids) && d.parents.Keys == s.parents.Keys + Members(ids)
  {
  }

  lemma HungIsFormed(s: Snapshot, d: Snapshot, parent: Id, ids: seq<Id>)
    requires Formed(s) && parent in s.nodes && s.nodes[parent].folder && Children(s, parent) == []
    requires Hung(s, d, parent, ids)
    ensures Formed(Listed(s, d, parent, ids))
  {
    hide Formed, Hung, NodeFormed, ListFormed, Children;
    var e := Listed(s, d, parent, ids);
    HungMeans(s, d, parent, ids);
    RootShape(s);
    KnownParents(s);
    forall n | n in e.nodes
      ensures NodeFormed(e, n)
    {
      if n in s.nodes { OldNode(s, d, parent, ids, e, n); } else { NewNode(s, d, parent, ids, e, n); }
    }
    forall p | p in e.children
      ensures ListFormed(e, p)
    {
      ListKept(s, d, parent, ids, e, p);
    }
    IsFormed(e);
  }

  lemma KnownParents(s: Snapshot)
    requires Formed(s)
    ensures s.parents.Keys <= s.nodes.Keys
  {
  }

  lemma IsFormed(s: Snapshot)
    requires s.rootId in s.nodes && s.parents.Keys <= s.nodes.Keys
    requires forall n | n in s.nodes :: NodeFormed(s, n)
    requires forall p | p in s.children :: ListFormed(s, p)
    ensures Formed(s)
  {
  }

  lemma OldNode(s: Snapshot, d: Snapshot, parent: Id, ids: seq<Id>, e: Snapshot, n: Id)
    requires Formed(s) && parent in s.nodes && Children(s, parent) == [] && Hung(s, d, parent, ids) && n in s.nodes
    requires e == d.(children := d.children[parent := ids], height := e.height) && e.height >= s.height
    ensures NodeFormed(e, n)
  {
    hide Formed;
    Whole(s, n);
    assert HungOld(s, d, n);
    if n != s.rootId {
      Whole(s, s.parents[n]);
      assert s.parents[n] != parent;
      assert HungOld(s, d, s.parents[n]);
    }
  }

  lemma Whole(s: Snapshot, n: Id)
    requires Formed(s) && n in s.nodes
    ensures NodeFormed(s, n)
  {
  }

  lemma NewNode(s: Snapshot, d: Snapshot, parent: Id, ids: seq<Id>, e: Snapshot, n: Id)
    requires Formed(s) && parent in s.nodes && s.nodes[parent].folder && Hung(s, d, parent, ids) && n in ids
    requires e == d.(children := d.children[parent := ids], height := e.height) && e.height >= DepthOf(s, parent) + 1
    ensures n in e.nodes && NodeFormed(e, n)
  {
    assert s.rootId in s.nodes;
    hide Formed;
    Whole(s, parent);
    assert HungOld(s, d, parent) && HungNew(s, d, parent, n);
    assert n in d.nodes && n != NO_ID && n != d.rootId;
    hide Hung;
  }

  lemma ListKept(s: Snapshot, d: Snapshot, parent: Id, ids: seq<Id>, e: Snapshot, p: Id)
    requires Formed(s) && parent in s.nodes && Hung(s, d, parent, ids) && p in e.children
    requires e == d.(children := d.children[parent := ids], height := e.height)
    ensures ListFormed(e, p)
  {
  }

  // ------------------------------------------------------------------ visibility

  /** Every folder from `top` down to the parent of n is expanded. */
  ghost predicate VisibleFrom(s: Snapshot, expanded: set<Id>, n: Id, top: Id)
    decreases DepthOf(s, n)
  {
    n == top
    || (Parent(s, n) in expanded && DepthOf(s, Parent(s, n)) < DepthOf(s, n) &&
         VisibleFrom(s, expanded, Parent(s, n), top))
  }

  ghost predicate Visible(s: Snapshot, expanded: set<Id>, n: Id) {
    n in s.nodes && VisibleFrom(s, expanded, n, s.rootId)
  }

  /** a is a proper ancestor of n. */
  ghost predicate Below(s: Snapshot, n: Id, a: Id)
    decreases DepthOf(s, n)
  {
    && n in s.parents && DepthOf(s, Parent(s, n)) < DepthOf(s, n)
    && (Parent(s, n) == a || Below(s, Parent(s, n), a))
  }

  /** The rows of a subtree, in preorder. */
  ghost function RowsFrom(s: Snapshot, expanded: set<Id>, n: Id, depth: nat): seq<Row>
    requires Formed(s) && n in s.nodes
    decreases s.height + 1 - DepthOf(s, n), 0, 0
  {
    Shape(s, n);
    [Row(n, depth, n in expanded, Children(s, n) != [])]
    + if !s.nodes[n].folder || n !in expanded then []
      else
        ChildrenAre(s, n);
        RowsOfAll(s, expanded, Children(s, n), DepthOf(s, n) + 1, depth + 1)
  }

  ghost function RowsOfAll(s: Snapshot, expanded: set<Id>, ids: seq<Id>, level: nat, depth: nat): seq<Row>
    requires Formed(s) && forall c | c in ids :: c in s.nodes && DepthOf(s, c) == level
    decreases s.height + 1 - level, 1, |ids|
  {
    if ids == [] then []
    else RowsOfAll(s, expanded, ids[..|ids| - 1], level, depth) + RowsFrom(s, expanded, ids[|ids| - 1], depth)
  }

  lemma ChildrenAre(s: Snapshot, p: Id)
    requires Formed(s) && p in s.nodes
    ensures forall c | c in Children(s, p) :: c in s.nodes && DepthOf(s, c) == DepthOf(s, p) + 1
    ensures Unique(Children(s, p))
  {
  }

  ghost function RowIds(rows: seq<Row>): set<Id> {
    set i | 0 <= i < |rows| :: rows[i].id
  }

  lemma RowIdsConcat(a: seq<Row>, b: seq<Row>)
    ensures RowIds(a + b) == RowIds(a) + RowIds(b)
  {
    forall i | 0 <= i < |a|
      ensures a[i].id in RowIds(a + b)
    {
      assert (a + b)[i] == a[i];
    }
    forall i | 0 <= i < |b|
      ensures b[i].id in RowIds(a + b)
    {
      assert (a + b)[|a| + i] == b[i];
    }
  }

  lemma {:induction false} VisibleIsDeeper(s: Snapshot, expanded: set<Id>, n: Id, top: Id)
    requires Formed(s) && n in s.nodes && VisibleFrom(s, expanded, n, top)
    ensures top in s.nodes && DepthOf(s, top) <= DepthOf(s, n) && (DepthOf(s, top) == DepthOf(s, n) ==> top == n)
    decreases DepthOf(s, n)
  {
    hide Formed;
    if n != top {
      Shape(s, n);
      if n == s.rootId { Shape(s, n); }
      ParentInside(s, expanded, n);
      VisibleIsDeeper(s, expanded, Parent(s, n), top);
    }
  }

  lemma ParentInside(s: Snapshot, expanded: set<Id>, n: Id)
    requires Formed(s) && n in s.nodes && DepthOf(s, Parent(s, n)) < DepthOf(s, n)
    ensures n != s.rootId && Parent(s, n) in s.nodes
  {
    assert NodeFormed(s, n);
  }

  ghost predicate Expandable(s: Snapshot, expanded: set<Id>) {
    forall n | n in expanded :: n in s.nodes && s.nodes[n].folder
  }

  /** Whatever is seen below a node is seen through one of its children, and only if the
      node is expanded. */
  lemma {:induction false} SeenThroughChild(s: Snapshot, expanded: set<Id>, k: Id, n: Id) returns (c: Id)
    requires Formed(s) && k in s.nodes && n in s.nodes && VisibleFrom(s, expanded, k, n) && k != n
    ensures n in expanded && c in Children(s, n) && c in s.nodes && VisibleFrom(s, expanded, k, c)
    decreases DepthOf(s, k)
  {
    hide Formed;
    ParentInside(s, expanded, k);
    Shape(s, k);
    var p := Parent(s, k);
    if p == n {
      c := k;
    } else {
      c := SeenThroughChild(s, expanded, p, n);
    }
  }

  lemma {:induction false} SeenFromParent(s: Snapshot, expanded: set<Id>, k: Id, c: Id, n: Id)
    requires Formed(s) && k in s.nodes && n in s.nodes && n in expanded && c in Children(s, n) &&
      VisibleFrom(s, expanded, k, c)
    ensures VisibleFrom(s, expanded, k, n)
    decreases DepthOf(s, k)
  {
    hide Formed;
    ChildShape(s, n, c);
    if k != c {
      ParentInside(s, expanded, k);
      SeenFromParent(s, expanded, Parent(s, k), c, n);
    }
  }

  lemma {:induction false} SeenThroughOne(s: Snapshot, expanded: set<Id>, k: Id, c: Id, d: Id)
    requires Formed(s) && k in s.nodes && DepthOf(s, c) == DepthOf(s, d)
    requires VisibleFrom(s, expanded, k, c) && VisibleFrom(s, expanded, k, d)
    ensures c == d
    decreases DepthOf(s, k)
  {
    hide Formed;
    VisibleIsDeeper(s, expanded, k, c);
    VisibleIsDeeper(s, expanded, k, d);
    if k != c && k != d {
      ParentInside(s, expanded, k);
      SeenThroughOne(s, expanded, Parent(s, k), c, d);
    }
  }

  /** The rows list exactly these nodes, each once, indented by their distance from `top`. */
  ghost predicate Shows(s: Snapshot, expanded: set<Id>, rows: seq<Row>, nodes: iset<Id>, base: int) {
    && (forall i | 0 <= i < |rows| ::
          && rows[i].id in nodes && rows[i].id in s.nodes && rows[i].depth == DepthOf(s, rows[i].id) - base
          && (rows[i].expanded <==> rows[i].id in expanded) && (rows[i].hasChildren <==> Children(s, rows[i].id) != []))
    && (forall i, j | 0 <= i < j < |rows| :: rows[i].id != rows[j].id)
    && (forall n | n in nodes :: n in RowIds(rows))
  }

  ghost function SeenFrom(s: Snapshot, expanded: set<Id>, top: Id): iset<Id> {
    iset n | n in s.nodes && VisibleFrom(s, expanded, n, top)
  }

  ghost function SeenFromAny(s: Snapshot, expanded: set<Id>, tops: seq<Id>): iset<Id> {
    iset n | n in s.nodes && exists c :: c in tops && VisibleFrom(s, expanded, n, c)
  }

  lemma ShowsConcat(s: Snapshot, expanded: set<Id>, a: seq<Row>, x: iset<Id>, b: seq<Row>, y: iset<Id>, base: int)
    requires Shows(s, expanded, a, x, base) && Shows(s, expanded, b, y, base) && forall n | n in x :: n !in y
    ensures Shows(s, expanded, a + b, x + y, base)
  {
    RowIdsConcat(a, b);
    var rows := a + b;
    assert forall i | 0 <= i < |rows| :: rows[i] == if i < |a| then a[i] else b[i - |a|];
    hide RowIds;
  }

  lemma {:induction false} RowsFromShow(s: Snapshot, expanded: set<Id>, n: Id, depth: nat)
    requires Formed(s) && Expandable(s, expanded) && n in s.nodes
    ensures Shows(s, expanded, RowsFrom(s, expanded, n, depth), SeenFrom(s, expanded, n), DepthOf(s, n) as int - depth)
    decreases s.height + 1 - DepthOf(s, n), 0, 0
  {
    hide Formed, Shows;
    Shape(s, n);
    ChildrenAre(s, n);
    var row := Row(n, depth, n in expanded, Children(s, n) != []);
    var base := DepthOf(s, n) as int - depth;
    SingleRow(s, expanded, n, row, base);
    if n in expanded {
      var rest := RowsOfAll(s, expanded, Children(s, n), DepthOf(s, n) + 1, depth + 1);
      RowsOfAllShow(s, expanded, Children(s, n), DepthOf(s, n) + 1, depth + 1);
      ChildrenSee(s, expanded, n);
      ShowsConcat(s, expanded, [row], iset{n}, rest, SeenFromAny(s, expanded, Children(s, n)), base);
    } else {
      OnlyItself(s, expanded, n);
      assert [row] + [] == [row];
    }
  }

  lemma SingleRow(s: Snapshot, expanded: set<Id>, n: Id, row: Row, base: int)
    requires n in s.nodes && row == Row(n, row.depth, n in expanded, Children(s, n) != []) &&
      base == DepthOf(s, n) as int - row.depth
    ensures Shows(s, expanded, [row], iset{n}, base)
  {
    assert [row][0].id in RowIds([row]);
  }

  lemma ChildrenSee(s: Snapshot, expanded: set<Id>, n: Id)
    requires Formed(s) && n in s.nodes && n in expanded
    ensures SeenFrom(s, expanded, n) == iset{n} + SeenFromAny(s, expanded, Children(s, n))
    ensures n !in SeenFromAny(s, expanded, Children(s, n))
  {
    hide Formed;
    forall k | k in s.nodes && VisibleFrom(s, expanded, k, n) && k != n
      ensures k in SeenFromAny(s, expanded, Children(s, n))
    {
      var c := SeenThroughChild(s, expanded, k, n);
    }
    forall k, c | k in s.nodes && c in Children(s, n) && VisibleFrom(s, expanded, k, c)
      ensures VisibleFrom(s, expanded, k, n) && k != n
    {
      SeenFromParent(s, expanded, k, c, n);
      VisibleIsDeeper(s, expanded, k, c);
      ChildShape(s, n, c);
    }
    assert VisibleFrom(s, expanded, n, n);
  }

  lemma OnlyItself(s: Snapshot, expanded: set<Id>, n: Id)
    requires Formed(s) && n in s.nodes && n !in expanded
    ensures SeenFrom(s, expanded, n) == iset{n}
  {
    hide Formed;
    forall k | k in s.nodes && VisibleFrom(s, expanded, k, n)
      ensures k == n
    {
      if k != n { var c := SeenThroughChild(s, expanded, k, n); }
    }
    assert VisibleFrom(s, expanded, n, n);
  }

  lemma {:induction false} RowsOfAllShow(s: Snapshot, expanded: set<Id>, ids: seq<Id>, level: nat, depth: nat)
    requires Formed(s) && Expandable(s, expanded) && Unique(ids) && forall c | c in ids ::
      c in s.nodes && DepthOf(s, c) == level
    ensures Shows(s, expanded, RowsOfAll(s, expanded, ids, level, depth), SeenFromAny(s, expanded, ids),
                  level as int - depth)
    decreases s.height + 1 - level, 1, |ids|
  {
    hide Formed, Shows;
    if ids == [] {
      NoRows(s, expanded, level as int - depth);
      assert SeenFromAny(s, expanded, []) == iset{};
    } else {
      var init, last := ids[..|ids| - 1], ids[|ids| - 1];
      Shape(s, last);
      RowsOfAllShow(s, expanded, init, level, depth);
      RowsFromShow(s, expanded, last, depth);
      LastSees(s, expanded, ids, level);
      ShowsConcat(s, expanded, RowsOfAll(s, expanded, init, level, depth), SeenFromAny(s, expanded, init),
                  RowsFrom(s, expanded, last, depth), SeenFrom(s, expanded, last), level as int - depth);
    }
  }

  lemma NoRows(s: Snapshot, expanded: set<Id>, base: int)
    ensures Shows(s, expanded, [], iset{}, base)
  {
  }

  lemma LastSees(s: Snapshot, expanded: set<Id>, ids: seq<Id>, level: nat)
    requires Formed(s) && ids != [] && Unique(ids) && forall c | c in ids :: c in s.nodes && DepthOf(s, c) == level
    ensures var init, last := ids[..|ids| - 1], ids[|ids| - 1];
      && SeenFromAny(s, expanded, ids) == SeenFromAny(s, expanded, init) + SeenFrom(s, expanded, last)
      && forall n | n in SeenFromAny(s, expanded, init) :: n !in SeenFrom(s, expanded, last)
  {
    hide Formed;
    var init, last := ids[..|ids| - 1], ids[|ids| - 1];
    assert ids == init + [last];
    forall n | n in SeenFromAny(s, expanded, init)
      ensures n !in SeenFrom(s, expanded, last)
    {
      var c :| c in init && VisibleFrom(s, expanded, n, c);
      if VisibleFrom(s, expanded, n, last) { SeenThroughOne(s, expanded, n, c, last); }
    }
  }

  /** The rows of the whole tree are exactly the nodes whose ancestors are all expanded. */
  lemma RowsAreTheVisible(s: Snapshot, expanded: set<Id>)
    requires Formed(s) && Expandable(s, expanded)
    ensures Shows(s, expanded, RowsFrom(s, expanded, s.rootId, 0), SeenFrom(s, expanded, s.rootId), 0)
    ensures forall n :: n in RowIds(RowsFrom(s, expanded, s.rootId, 0)) <==> Visible(s, expanded, n)
  {
    RowsFromShow(s, expanded, s.rootId, 0);
    assert NodeFormed(s, s.rootId);
    hide Formed;
  }

  // -------------------------------------------------------------------- preorder

  /** Rows of a forest whose trees hang below `parent` at indentation `depth`: a row is the
      root of one of the trees, or the closest row above it that is indented less is its
      parent. */
  ghost predicate Forest(s: Snapshot, rows: seq<Row>, parent: Id, depth: nat) {
    forall i | 0 <= i < |rows| ::
      rows[i].depth >= depth && (TopRow(s, rows, i, parent, depth) || exists j :: 0 <= j < i && Under(s, rows, i, j))
  }

  ghost predicate TopRow(s: Snapshot, rows: seq<Row>, i: nat, parent: Id, depth: nat)
    requires i < |rows|
  {
    rows[i].depth == depth && Parent(s, rows[i].id) == parent
  }

  ghost predicate Under(s: Snapshot, rows: seq<Row>, i: nat, j: nat)
    requires j < i < |rows|
  {
    && rows[j].id == Parent(s, rows[i].id) && rows[j].depth + 1 == rows[i].depth
    && forall k | j < k < i :: rows[k].depth >= rows[i].depth
  }

  lemma ForestConcat(s: Snapshot, a: seq<Row>, b: seq<Row>, parent: Id, depth: nat)
    requires Forest(s, a, parent, depth) && Forest(s, b, parent, depth)
    ensures Forest(s, a + b, parent, depth)
  {
    var rows := a + b;
    forall i | 0 <= i < |rows|
      ensures rows[i].depth >= depth &&
        (TopRow(s, rows, i, parent, depth) || exists j :: 0 <= j < i && Under(s, rows, i, j))
    {
      if i < |a| {
        if !TopRow(s, a, i, parent, depth) {
          var j :| 0 <= j < i && Under(s, a, i, j);
          assert Under(s, rows, i, j);
        }
      } else if !TopRow(s, b, i - |a|, parent, depth) {
        var j :| 0 <= j < i - |a| && Under(s, b, i - |a|, j);
        assert Under(s, rows, i, |a| + j);
      }
    }
  }

  lemma ForestBelow(s: Snapshot, row: Row, rest: seq<Row>)
    requires Forest(s, rest, row.id, row.depth + 1)
    ensures Forest(s, [row] + rest, Parent(s, row.id), row.depth)
  {
    var rows := [row] + rest;
    forall i | 0 <= i < |rows|
      ensures rows[i].depth >= row.depth &&
        (TopRow(s, rows, i, Parent(s, row.id), row.depth) || exists j :: 0 <= j < i && Under(s, rows, i, j))
    {
      if i > 0 {
        var j := RowBelow(s, row, rest, i - 1);
      }
    }
    hide Under, TopRow;
  }

  lemma RowBelow(s: Snapshot, row: Row, rest: seq<Row>, i: nat) returns (j: nat)
    requires Forest(s, rest, row.id, row.depth + 1) && i < |rest|
    ensures j < i + 1 && Under(s, [row] + rest, i + 1, j) && ([row] + rest)[i + 1].depth >= row.depth
  {
    if TopRow(s, rest, i, row.id, row.depth + 1) {
      j := 0;
      assert forall k | 0 <= k < i :: rest[k].depth >= row.depth + 1;
      hide Forest;
      assert forall k | 0 < k < i + 1 :: ([row] + rest)[k] == rest[k - 1];
    } else {
      var h :| 0 <= h < i && Under(s, rest, i, h);
      hide Forest;
      j := h + 1;
      Shifted(s, row, rest, i, h);
    }
  }

  lemma Shifted(s: Snapshot, row: Row, rest: seq<Row>, i: nat, h: nat)
    requires h < i < |rest| && Under(s, rest, i, h)
    ensures Under(s, [row] + rest, i + 1, h + 1)
  {
  }

  lemma {:induction false} RowsAreNested(s: Snapshot, expanded: set<Id>, n: Id, depth: nat)
    requires Formed(s) && n in s.nodes
    ensures Forest(s, RowsFrom(s, expanded, n, depth), Parent(s, n), depth)
    decreases s.height + 1 - DepthOf(s, n), 0, 0
  {
    hide Formed, Forest;
    Shape(s, n);
    ChildrenAre(s, n);
    var row := Row(n, depth, n in expanded, Children(s, n) != []);
    NoForest(s, n, depth + 1);
    if s.nodes[n].folder && n in expanded {
      ChildrenAreNested(s, expanded, n, Children(s, n), depth + 1);
      ForestBelow(s, row, RowsOfAll(s, expanded, Children(s, n), DepthOf(s, n) + 1, depth + 1));
    } else {
      ForestBelow(s, row, []);
    }
  }

  lemma NoForest(s: Snapshot, parent: Id, depth: nat)
    ensures Forest(s, [], parent, depth)
  {
  }

  lemma {:induction false} ChildrenAreNested(s: Snapshot, expanded: set<Id>, n: Id, ids: seq<Id>, depth: nat)
    requires Formed(s) && n in s.nodes && forall c | c in ids ::
      c in s.nodes && DepthOf(s, c) == DepthOf(s, n) + 1 && c in Children(s, n)
    ensures Forest(s, RowsOfAll(s, expanded, ids, DepthOf(s, n) + 1, depth), n, depth)
    decreases s.height - DepthOf(s, n), 1, |ids|
  {
    hide Formed, Forest;
    if ids == [] {
      NoForest(s, n, depth);
    } else {
      var init, last := ids[..|ids| - 1], ids[|ids| - 1];
      Shape(s, last);
      ChildShape(s, n, last);
      ChildrenAreNested(s, expanded, n, init, depth);
      RowsAreNested(s, expanded, last, depth);
      ForestConcat(s, RowsOfAll(s, expanded, init, DepthOf(s, n) + 1, depth), RowsFrom(s, expanded, last, depth), n,
                   depth);
    }
  }

  lemma {:induction false} FirstOfAll(s: Snapshot, expanded: set<Id>, ids: seq<Id>, level: nat, depth: nat)
    requires Formed(s) && ids != [] && forall c | c in ids :: c in s.nodes && DepthOf(s, c) == level
    ensures var rows := RowsOfAll(s, expanded, ids, level, depth); rows != [] && rows[0].id == ids[0]
    decreases |ids|
  {
    hide Formed;
    Shape(s, ids[|ids| - 1]);
    if |ids| > 1 {
      FirstOfAll(s, expanded, ids[..|ids| - 1], level, depth);
    } else {
      NoneOfAll(s, expanded, level, depth);
      assert ids[..0] == [];
    }
  }

  /** The row after an open folder is that of its first child. */
  lemma {:induction false} FirstChildIsNext(s: Snapshot, expanded: set<Id>, n: Id, depth: nat, k: nat)
    requires Formed(s) && Expandable(s, expanded) && n in s.nodes && k < |RowsFrom(s, expanded, n, depth)|
    requires var id := RowsFrom(s, expanded, n, depth)[k].id; id in expanded && Children(s, id) != []
    ensures var rows := RowsFrom(s, expanded, n, depth);
      k + 1 < |rows| && rows[k + 1].id == Children(s, rows[k].id)[0]
    decreases s.height + 1 - DepthOf(s, n), 0, 0
  {
    hide Formed, RowsFrom, RowsOfAll;
    Shape(s, n);
    ChildrenAre(s, n);
    RowsFromIs(s, expanded, n, depth);
    if k == 0 {
      FirstOfAll(s, expanded, Children(s, n), DepthOf(s, n) + 1, depth + 1);
    } else {
      FirstChildIsNextOf(s, expanded, n, Children(s, n), depth + 1, k - 1);
    }
  }

  lemma {:induction false} FirstChildIsNextOf(s: Snapshot, expanded: set<Id>, n: Id, ids: seq<Id>, depth: nat, k: nat)
    requires Formed(s) && Expandable(s, expanded) && n in s.nodes
    requires forall c | c in ids :: c in s.nodes && DepthOf(s, c) == DepthOf(s, n) + 1
    requires k < |RowsOfAll(s, expanded, ids, DepthOf(s, n) + 1, depth)|
    requires var id := RowsOfAll(s, expanded, ids, DepthOf(s, n) + 1, depth)[k].id;
      id in expanded && Children(s, id) != []
    ensures var rows := RowsOfAll(s, expanded, ids, DepthOf(s, n) + 1, depth);
      k + 1 < |rows| && rows[k + 1].id == Children(s, rows[k].id)[0]
    decreases s.height - DepthOf(s, n), 1, |ids|
  {
    hide Formed, RowsFrom, RowsOfAll;
    var level := DepthOf(s, n) + 1;
    NoneOfAll(s, expanded, level, depth);
    if ids != [] {
      var init, last := ids[..|ids| - 1], ids[|ids| - 1];
      Shape(s, last);
      assert ids[..|ids|] == ids;
      RowsOfAllStep(s, expanded, ids, |ids| - 1, level, depth);
      var before := |RowsOfAll(s, expanded, init, level, depth)|;
      if k < before {
        FirstChildIsNextOf(s, expanded, n, init, depth, k);
      } else {
        FirstChildIsNext(s, expanded, last, depth, k - before);
      }
    }
  }

  /** The children of a folder are shown in their order. */
  lemma {:induction false} ChildrenKeepOrder(s: Snapshot, expanded: set<Id>, n: Id, depth: nat, p: Id, i: nat, j: nat,
                                             x: nat, y: nat)
    requires Formed(s) && Expandable(s, expanded) && n in s.nodes && p in s.nodes && i < j < |Children(s, p)|
    requires var rows := RowsFrom(s, expanded, n, depth);
      x < |rows| && y < |rows| && rows[x].id == Children(s, p)[i] && rows[y].id == Children(s, p)[j]
    ensures x < y
    decreases s.height + 1 - DepthOf(s, n), 0, 0
  {
    hide Formed, RowsFrom, RowsOfAll, Shows;
    Shape(s, n);
    ChildrenAre(s, n);
    ChildrenAre(s, p);
    RowsFromIs(s, expanded, n, depth);
    SeenRow(s, expanded, n, depth, x);
    if y == 0 {
      VisibleIsDeeper(s, expanded, Children(s, p)[i], n);
    } else if x > 0 {
      AllKeepOrder(s, expanded, n, Children(s, n), depth + 1, p, i, j, x - 1, y - 1);
    }
  }

  lemma SeenRow(s: Snapshot, expanded: set<Id>, n: Id, depth: nat, x: nat)
    requires Formed(s) && Expandable(s, expanded) && n in s.nodes && x < |RowsFrom(s, expanded, n, depth)|
    ensures var k := RowsFrom(s, expanded, n, depth)[x].id; k in s.nodes && VisibleFrom(s, expanded, k, n)
  {
    RowsFromShow(s, expanded, n, depth);
    hide Formed, RowsFrom;
  }

  lemma SeenRowOf(s: Snapshot, expanded: set<Id>, ids: seq<Id>, level: nat, depth: nat, x: nat) returns (c: Id)
    requires Formed(s) && Expandable(s, expanded) && Unique(ids)
    requires forall c | c in ids :: c in s.nodes && DepthOf(s, c) == level
    requires x < |RowsOfAll(s, expanded, ids, level, depth)|
    ensures var k := RowsOfAll(s, expanded, ids, level, depth)[x].id;
      k in s.nodes && c in ids && VisibleFrom(s, expanded, k, c)
  {
    RowsOfAllShow(s, expanded, ids, level, depth);
    hide Formed, RowsOfAll;
    var k := RowsOfAll(s, expanded, ids, level, depth)[x].id;
    assert k in SeenFromAny(s, expanded, ids);
    c :| c in ids && VisibleFrom(s, expanded, k, c);
  }

  lemma {:induction false} AllKeepOrder(s: Snapshot, expanded: set<Id>, n: Id, ids: seq<Id>, depth: nat, p: Id, i: nat,
                                        j: nat, x: nat, y: nat)
    requires Formed(s) && Expandable(s, expanded) && n in s.nodes && p in s.nodes && i < j < |Children(s, p)|
    requires ids <= Children(s, n) && forall c | c in ids :: c in s.nodes && DepthOf(s, c) == DepthOf(s, n) + 1
    requires var rows := RowsOfAll(s, expanded, ids, DepthOf(s, n) + 1, depth);
      x < |rows| && y < |rows| && rows[x].id == Children(s, p)[i] && rows[y].id == Children(s, p)[j]
    ensures x < y
    decreases s.height - DepthOf(s, n), 1, |ids|
  {
    hide Formed, RowsFrom, RowsOfAll, Shows;
    var level := DepthOf(s, n) + 1;
    NoneOfAll(s, expanded, level, depth);
    if ids != [] {
      var init, last := ids[..|ids| - 1], ids[|ids| - 1];
      Shape(s, last);
      ChildrenAre(s, n);
      assert ids[..|ids|] == ids;
      RowsOfAllStep(s, expanded, ids, |ids| - 1, level, depth);
      var before := |RowsOfAll(s, expanded, init, level, depth)|;
      if x < before && y < before {
        AllKeepOrder(s, expanded, n, init, depth, p, i, j, x, y);
      } else if x >= before && y >= before {
        ChildrenKeepOrder(s, expanded, last, depth, p, i, j, x - before, y - before);
      } else if x >= before {
        SeenRow(s, expanded, last, depth, x - before);
        var c := SeenRowOf(s, expanded, init, level, depth, y);
        NoneIsLeftOf(s, expanded, n, |init|, p, i, j, c);
      }
    }
  }

  /** What is seen through a child has no later sibling that is seen through an earlier one. */
  lemma NoneIsLeftOf(s: Snapshot, expanded: set<Id>, n: Id, m: nat, p: Id, i: nat, j: nat, c: Id)
    requires Formed(s) && n in s.nodes && p in s.nodes && i < j < |Children(s, p)| && m < |Children(s, n)|
    requires VisibleFrom(s, expanded, Children(s, p)[i], Children(s, n)[m]) && c in Children(s, n)[..m]
    ensures !VisibleFrom(s, expanded, Children(s, p)[j], c)
  {
    hide Formed;
    var last, k, q := Children(s, n)[m], Children(s, p)[i], Children(s, p)[j];
    ChildrenAre(s, n);
    ChildrenAre(s, p);
    ChildShape(s, n, last);
    ChildShape(s, n, c);
    ChildShape(s, p, k);
    ChildShape(s, p, q);
    if p == n {
      VisibleIsDeeper(s, expanded, k, last);
      if VisibleFrom(s, expanded, q, c) { VisibleIsDeeper(s, expanded, q, c); }
    } else if VisibleFrom(s, expanded, p, c) {
      SeenThroughOne(s, expanded, p, c, last);
    }
  }

  // ------------------------------------------------------------------ the cursor

  datatype View = View(snapshot: Snapshot, expanded: set<Id>, selected: Id)

  /** The selection is always a visible row. */
  ghost predicate ViewOk(v: View) {
    && Formed(v.snapshot) && Expandable(v.snapshot, v.expanded) && v.snapshot.rootId in v.expanded
    && Visible(v.snapshot, v.expanded, v.selected)
  }

  ghost function Collapsed(v: View, id: Id): View {
    if id !in v.snapshot.nodes || !v.snapshot.nodes[id].folder || v.snapshot.nodes[id].root then v
    else v.(selected := if Below(v.snapshot, v.selected, id) then id else v.selected, expanded := v.expanded - {id})
  }

  ghost function Toggled(v: View): View
    requires v.selected in v.snapshot.nodes
  {
    var node := v.snapshot.nodes[v.selected];
    if !node.folder || node.root then v
    else v.(expanded := if v.selected in v.expanded then v.expanded - {v.selected} else v.expanded + {v.selected})
  }

  ghost function Rightward(v: View): View
    requires v.selected in v.snapshot.nodes
  {
    if !v.snapshot.nodes[v.selected].folder then v
    else if v.selected !in v.expanded then v.(expanded := v.expanded + {v.selected})
    else if Children(v.snapshot, v.selected) != [] then v.(selected := Children(v.snapshot, v.selected)[0])
    else v
  }

  ghost function Leftward(v: View): View
    requires v.selected in v.snapshot.nodes
  {
    var node := v.snapshot.nodes[v.selected];
    if node.folder && !node.root && v.selected in v.expanded then v.(expanded := v.expanded - {v.selected})
    else if Parent(v.snapshot, v.selected) != NO_ID then v.(selected := Parent(v.snapshot, v.selected))
    else v
  }

  /** Closing a folder hides exactly what is below it. */
  lemma {:induction false} ClosingHides(s: Snapshot, expanded: set<Id>, n: Id, id: Id)
    requires Formed(s) && n in s.nodes && id in s.nodes && id != s.rootId
    ensures VisibleFrom(s, expanded - {id}, n, s.rootId) <==> VisibleFrom(s, expanded, n, s.rootId) && !Below(s, n, id)
    decreases DepthOf(s, n)
  {
    RootIsBelowNothing(s, id);
    hide Formed;
    Shape(s, n);
    if n != s.rootId {
      ClosingHides(s, expanded, Parent(s, n), id);
    }
  }

  lemma {:induction false} RootIsBelowNothing(s: Snapshot, a: Id)
    requires Formed(s)
    ensures s.rootId in s.nodes && !Below(s, s.rootId, a)
  {
  }

  lemma {:induction false} NotBelowItself(s: Snapshot, n: Id, a: Id)
    requires Formed(s) && n in s.nodes && Below(s, n, a)
    ensures a in s.nodes && DepthOf(s, a) < DepthOf(s, n)
    decreases DepthOf(s, n)
  {
    ParentIsAbove(s, n);
    hide Formed;
    if Parent(s, n) != a { NotBelowItself(s, Parent(s, n), a); }
  }

  lemma ParentIsAbove(s: Snapshot, n: Id)
    requires Formed(s) && n in s.nodes && n in s.parents
    ensures n != s.rootId && Parent(s, n) in s.nodes && DepthOf(s, n) == DepthOf(s, Parent(s, n)) + 1
  {
    assert NodeFormed(s, n);
  }

  /** The ancestors of a visible node are visible and expanded. */
  lemma {:induction false} AncestorsAreSeen(s: Snapshot, expanded: set<Id>, n: Id, a: Id)
    requires Formed(s) && Visible(s, expanded, n) && Below(s, n, a)
    ensures Visible(s, expanded, a) && a in expanded
    decreases DepthOf(s, n)
  {
    ParentIsAbove(s, n);
    hide Formed;
    if Parent(s, n) != a { AncestorsAreSeen(s, expanded, Parent(s, n), a); }
  }

  lemma CollapseKeepsOk(v: View, id: Id)
    requires ViewOk(v)
    ensures ViewOk(Collapsed(v, id))
  {
    hide Formed, Below, VisibleFrom;
    var s := v.snapshot;
    RootShape(s);
    if id in s.nodes && s.nodes[id].folder && !s.nodes[id].root {
      ClosingHides(s, v.expanded, v.selected, id);
      if Below(s, v.selected, id) {
        AncestorsAreSeen(s, v.expanded, v.selected, id);
        ClosingHides(s, v.expanded, id, id);
        NeverBelowItself(s, id);
      }
    }
  }

  lemma RootShape(s: Snapshot)
    requires Formed(s)
    ensures s.rootId in s.nodes && s.nodes[s.rootId].root && s.nodes[s.rootId].folder && forall n | n in s.nodes ::
      s.nodes[n].root ==> n == s.rootId
  {
  }

  lemma {:induction false} OpeningHidesNothing(s: Snapshot, expanded: set<Id>, more: set<Id>, n: Id, top: Id)
    requires VisibleFrom(s, expanded, n, top)
    ensures VisibleFrom(s, expanded + more, n, top)
    decreases DepthOf(s, n)
  {
    if n != top { OpeningHidesNothing(s, expanded, more, Parent(s, n), top); }
  }

  lemma CursorKeysKeepOk(v: View)
    requires ViewOk(v)
    ensures ViewOk(Toggled(v)) && ViewOk(Rightward(v)) && ViewOk(Leftward(v))
  {
    hide ViewOk, Formed;
    SelectionExists(v);
    OpeningKeepsOk(v);
    ClosingKeepsOk(v);
    SteppingKeepsOk(v);
  }

  lemma OpeningKeepsOk(v: View)
    requires ViewOk(v)
    ensures v.snapshot.nodes[v.selected].folder ==> ViewOk(v.(expanded := v.expanded + {v.selected}))
  {
    hide Formed;
    OpeningHidesNothing(v.snapshot, v.expanded, {v.selected}, v.selected, v.snapshot.rootId);
  }

  lemma ClosingKeepsOk(v: View)
    requires ViewOk(v)
    ensures v.snapshot.nodes[v.selected].folder && !v.snapshot.nodes[v.selected].root ==>
      ViewOk(v.(expanded := v.expanded - {v.selected}))
  {
    hide ViewOk, Formed, Below;
    SelectionExists(v);
    CollapseKeepsOk(v, v.selected);
    NeverBelowItself(v.snapshot, v.selected);
  }

  lemma SteppingKeepsOk(v: View)
    requires ViewOk(v)
    ensures forall c | c in Children(v.snapshot, v.selected) && v.selected in v.expanded :: ViewOk(v.(selected := c))
    ensures Parent(v.snapshot, v.selected) != NO_ID ==> ViewOk(v.(selected := Parent(v.snapshot, v.selected)))
  {
    var s := v.snapshot;
    Shape(s, v.selected);
    RootShape(s);
    forall c | c in Children(s, v.selected) && v.selected in v.expanded
      ensures ViewOk(v.(selected := c))
    {
      ChildShape(s, v.selected, c);
      hide Formed;
    }
    hide Formed;
  }

  /** Left undoes Right, and a second toggle undoes the first. */
  lemma KeysCancel(v: View)
    requires ViewOk(v)
    ensures Toggled(Toggled(v)) == v
    ensures v.snapshot.nodes[v.selected].folder && v.selected !in v.expanded ==> Leftward(Rightward(v)) == v
    ensures Rightward(v).selected != v.selected && Rightward(v).selected !in v.expanded ==> Leftward(Rightward(v)) == v
  {
    hide Formed, VisibleFrom, Expandable;
    var s := v.snapshot;
    Shape(s, v.selected);
    if Children(s, v.selected) != [] { ChildShape(s, v.selected, Children(s, v.selected)[0]); }
    assert v.selected in v.expanded ==> v.expanded - {v.selected} + {v.selected} == v.expanded;
    assert v.selected !in v.expanded ==> v.expanded + {v.selected} - {v.selected} == v.expanded;
  }

  /** What toggling does: the selected folder, the root excepted, is open if it was closed and
      closed if it was open; no other folder changes, nor does the selection. */
  lemma ToggleDoes(v: View)
    requires ViewOk(v)
    ensures var w := Toggled(v);
      && w.snapshot == v.snapshot && w.selected == v.selected
      && forall n :: n in w.expanded <==>
           if n == v.selected && v.snapshot.nodes[n].folder && n != v.snapshot.rootId then n !in v.expanded
           else n in v.expanded
  {
    hide ViewOk, Formed;
    SelectionExists(v);
    Shape(v.snapshot, v.selected);
  }

  /** What the right key does: it opens a closed folder; on an open one that is not empty it
      moves the cursor to the next row, which is the first child's; otherwise it does
      nothing. */
  lemma RightDoes(v: View, k: nat)
    requires ViewOk(v)
    requires var rows := RowsOf(v); k < |rows| && rows[k].id == v.selected
    ensures v.selected in v.snapshot.nodes
    ensures var w, rows, folder := Rightward(v), RowsOf(v), v.snapshot.nodes[v.selected].folder;
      && w.snapshot == v.snapshot
      && (forall n :: n in w.expanded <==> n in v.expanded || (n == v.selected && folder))
      && (w.selected != v.selected <==> v.selected in v.expanded && Children(v.snapshot, v.selected) != [])
      && (w.selected != v.selected ==>
            k + 1 < |rows| && w.selected == rows[k + 1].id && Parent(v.snapshot, w.selected) == v.selected)
  {
    hide ViewOk, Formed, RowsFrom;
    SelectionExists(v);
    if v.selected in v.expanded && Children(v.snapshot, v.selected) != [] {
      FirstChildIsNext(v.snapshot, v.expanded, v.snapshot.rootId, 0, k);
      ChildShape(v.snapshot, v.selected, Children(v.snapshot, v.selected)[0]);
    }
  }

  ghost function RowsOf(v: View): seq<Row>
    requires ViewOk(v)
  {
    SelectionExists(v);
    RowsFrom(v.snapshot, v.expanded, v.snapshot.rootId, 0)
  }

  /** What the left key does: it closes an open folder other than the root; otherwise it moves
      the cursor to the parent, and at the root it does nothing. */
  lemma LeftDoes(v: View)
    requires ViewOk(v)
    ensures var w, s := Leftward(v), v.snapshot;
      var closes := v.selected in v.expanded && v.selected != s.rootId;
      && w.snapshot == s
      && (forall n :: n in w.expanded <==> n in v.expanded && !(closes && n == v.selected))
      && (closes || v.selected == s.rootId ==> w.selected == v.selected)
      && (!closes && v.selected != s.rootId ==> v.selected in s.parents && w.selected == s.parents[v.selected])
  {
    hide ViewOk, Formed;
    SelectionExists(v);
    Shape(v.snapshot, v.selected);
  }

  /** What closing a folder does: it alone is closed, and the cursor moves, to it, exactly if
      the row it was on is hidden. */
  lemma CollapseDoes(v: View, id: Id)
    requires ViewOk(v)
    ensures var w, s := Collapsed(v, id), v.snapshot;
      var closes := id in s.nodes && s.nodes[id].folder && id != s.rootId;
      && w.snapshot == s
      && (forall n :: n in w.expanded <==> n in v.expanded && !(closes && n == id))
      && w.selected == if Visible(s, w.expanded, v.selected) then v.selected else id
  {
    hide ViewOk, Formed, Below, VisibleFrom;
    SelectionExists(v);
    if id in v.snapshot.nodes { Shape(v.snapshot, id); }
    if id in v.snapshot.nodes && id != v.snapshot.rootId {
      ClosingHides(v.snapshot, v.expanded, v.selected, id);
    }
  }

  // -------------------------------------------------------------- a new snapshot

  ghost function Ancestors(s: Snapshot, n: Id): set<Id>
    decreases DepthOf(s, n)
  {
    if n !in s.parents || DepthOf(s, Parent(s, n)) >= DepthOf(s, n) then {}
    else {Parent(s, n)} + Ancestors(s, Parent(s, n))
  }

  /** The closest ancestor in the old catalog that the new one still has, else its root. */
  ghost function Survivor(was: Snapshot, n: Id, now: Snapshot): Id
    decreases DepthOf(was, n)
  {
    if n !in was.parents || DepthOf(was, Parent(was, n)) >= DepthOf(was, n) then now.rootId
    else if Parent(was, n) in now.nodes then Parent(was, n)
    else Survivor(was, Parent(was, n), now)
  }

  /** What is selected when a snapshot arrives. */
  ghost function Choice(initialized: bool, previous: View, s: Snapshot, pending: Id): Id {
    if !initialized then s.rootId
    else if pending != NO_ID && pending in s.nodes then pending
    else if previous.selected in s.nodes then previous.selected
    else Survivor(previous.snapshot, previous.selected, s)
  }

  /** The pending node is selected if the new catalog has it, else the previous one, else the
      nearest of its ancestors that is left, else the root. */
  lemma {:induction false} ChoiceIsNearest(v: View, s: Snapshot, pending: Id)
    requires ViewOk(v) && Formed(s)
    ensures Choice(false, v, s, pending) == s.rootId
    ensures var choice, was := Choice(true, v, s, pending), v.snapshot;
      && choice in s.nodes
      && (pending in s.nodes ==> choice == pending)
      && (pending !in s.nodes && v.selected in s.nodes ==> choice == v.selected)
      && (pending !in s.nodes && v.selected !in s.nodes ==>
            && (choice != s.rootId ==> Below(was, v.selected, choice))
            && forall a | Below(was, v.selected, a) && a in s.nodes :: a == choice || Below(was, choice, a))
  {
    hide ViewOk, Formed, Survivor, Below;
    SelectionExists(v);
    RootShape(s);
    if pending in s.nodes { Shape(s, pending); }
    SurvivorExists(v.snapshot, v.selected, s);
    SurvivorIsNearest(v.snapshot, v.selected, s);
  }

  lemma {:induction false} SurvivorIsNearest(was: Snapshot, n: Id, now: Snapshot)
    ensures var choice := Survivor(was, n, now);
      && (choice != now.rootId ==> Below(was, n, choice))
      && forall a | Below(was, n, a) && a in now.nodes :: a == choice || Below(was, choice, a)
    decreases DepthOf(was, n)
  {
    if n in was.parents && DepthOf(was, Parent(was, n)) < DepthOf(was, n) && Parent(was, n) !in now.nodes {
      SurvivorIsNearest(was, Parent(was, n), now);
    }
  }

  /** The folders opened for a selection are those it lies below. */
  lemma {:induction false} AncestorsAreAbove(s: Snapshot, n: Id, a: Id)
    ensures a in Ancestors(s, n) <==> Below(s, n, a)
    decreases DepthOf(s, n)
  {
    if n in s.parents && DepthOf(s, Parent(s, n)) < DepthOf(s, n) {
      AncestorsAreAbove(s, Parent(s, n), a);
    }
  }

  lemma {:induction false} OpenedPathIsSeen(s: Snapshot, expanded: set<Id>, n: Id)
    requires Formed(s) && n in s.nodes && Ancestors(s, n) <= expanded
    ensures Visible(s, expanded, n)
    decreases DepthOf(s, n)
  {
    Shape(s, n);
    if n != s.rootId {
      hide Formed;
      OpenedPathIsSeen(s, expanded, Parent(s, n));
    }
  }

  lemma {:induction false} AncestorsAreFolders(s: Snapshot, n: Id)
    requires Formed(s) && n in s.nodes
    ensures Expandable(s, Ancestors(s, n))
    decreases DepthOf(s, n)
  {
    Shape(s, n);
    hide Formed;
    if n in s.parents && DepthOf(s, Parent(s, n)) < DepthOf(s, n) && n != s.rootId {
      AncestorsAreFolders(s, Parent(s, n));
    }
  }

  lemma {:induction false} SurvivorExists(was: Snapshot, n: Id, now: Snapshot)
    requires now.rootId in now.nodes
    ensures Survivor(was, n, now) in now.nodes
    decreases DepthOf(was, n)
  {
    if n in was.parents && DepthOf(was, Parent(was, n)) < DepthOf(was, n) && Parent(was, n) !in now.nodes {
      SurvivorExists(was, Parent(was, n), now);
    }
  }

  /** The ancestors of n, nearest first, up to the root. */
  ghost function Lineage(s: Snapshot, n: Id): seq<Id>
    decreases DepthOf(s, n)
  {
    if n !in s.parents || DepthOf(s, Parent(s, n)) >= DepthOf(s, n) then []
    else [Parent(s, n)] + Lineage(s, Parent(s, n))
  }

  lemma LineageStep(s: Snapshot, n: Id)
    requires Formed(s) && n in s.nodes
    ensures Parent(s, n) == NO_ID ==> Lineage(s, n) == []
    ensures Parent(s, n) != NO_ID ==>
      && Parent(s, n) in s.nodes && DepthOf(s, Parent(s, n)) < DepthOf(s, n)
      && Lineage(s, n) == [Parent(s, n)] + Lineage(s, Parent(s, n))
  {
  }

  lemma LineageGathered(s: Snapshot, from: Id, gathered: seq<Id>, n: Id)
    requires Formed(s) && n in s.nodes && Parent(s, n) != NO_ID && Lineage(s, from) == gathered + Lineage(s, n)
    ensures Parent(s, n) in s.nodes && DepthOf(s, Parent(s, n)) < DepthOf(s, n)
    ensures Lineage(s, from) == gathered + [Parent(s, n)] + Lineage(s, Parent(s, n))
  {
    hide Formed;
    LineageStep(s, n);
    hide Lineage;
  }

  lemma SurvivorStep(s: Snapshot, n: Id, d: Snapshot)
    ensures Lineage(s, n) == [] ==> Survivor(s, n, d) == d.rootId
    ensures Lineage(s, n) != [] ==>
      && Lineage(s, n)[1..] == Lineage(s, Lineage(s, n)[0])
      && Survivor(s, n, d) == if Lineage(s, n)[0] in d.nodes then Lineage(s, n)[0] else Survivor(s, Lineage(s, n)[0], d)
  {
  }

  lemma NewViewOk(s: Snapshot, kept: set<Id>, selected: Id)
    requires Formed(s) && Expandable(s, kept) && selected in s.nodes
    ensures ViewOk(View(s, kept + {s.rootId} + Ancestors(s, selected), selected))
  {
    AncestorsAreFolders(s, selected);
    RootShape(s);
    OpenedPathIsSeen(s, kept + {s.rootId} + Ancestors(s, selected), selected);
    hide Formed, Ancestors, VisibleFrom;
  }

  lemma RowsFromIs(s: Snapshot, expanded: set<Id>, n: Id, depth: nat)
    requires Formed(s) && n in s.nodes
    ensures RowsFrom(s, expanded, n, depth) ==
      [Row(n, depth, n in expanded, Children(s, n) != [])]
      + if !s.nodes[n].folder || n !in expanded then []
        else (ChildrenAre(s, n); RowsOfAll(s, expanded, Children(s, n), DepthOf(s, n) + 1, depth + 1))
  {
  }

  lemma RowsOfAllStep(s: Snapshot, expanded: set<Id>, ids: seq<Id>, i: nat, level: nat, depth: nat)
    requires Formed(s) && i < |ids| && forall c | c in ids :: c in s.nodes && DepthOf(s, c) == level
    ensures RowsOfAll(s, expanded, ids[..i + 1], level, depth) ==
      RowsOfAll(s, expanded, ids[..i], level, depth) + RowsFrom(s, expanded, ids[i], depth)
  {
    hide Formed;
    assert ids[..i + 1][..i] == ids[..i];
  }

  lemma NoneOfAll(s: Snapshot, expanded: set<Id>, level: nat, depth: nat)
    requires Formed(s)
    ensures RowsOfAll(s, expanded, [], level, depth) == []
  {
  }

  /** A visible selection has its row. */
  lemma SelectionHasRow(v: View, rows: seq<Row>) returns (k: nat)
    requires ViewOk(v) && v.snapshot.rootId in v.snapshot.nodes &&
      rows == RowsFrom(v.snapshot, v.expanded, v.snapshot.rootId, 0)
    ensures k < |rows| && rows[k].id == v.selected
    ensures forall i | 0 <= i < |rows| && rows[i].id == v.selected :: i == k
  {
    RowsAreTheVisible(v.snapshot, v.expanded);
    hide Formed, VisibleFrom, RowsFrom;
    assert v.selected in RowIds(rows);
    k :| 0 <= k < |rows| && rows[k].id == v.selected;
  }

  /** Any row can be selected. */
  lemma RowIsSelectable(v: View, rows: seq<Row>, i: nat)
    requires ViewOk(v) && v.snapshot.rootId in v.snapshot.nodes &&
      rows == RowsFrom(v.snapshot, v.expanded, v.snapshot.rootId, 0) && i < |rows|
    ensures ViewOk(v.(selected := rows[i].id))
  {
    RowsAreTheVisible(v.snapshot, v.expanded);
    hide Formed, VisibleFrom, RowsFrom, Shows;
    assert rows[i].id in RowIds(rows);
  }

  lemma SelectionExists(v: View)
    requires ViewOk(v)
    ensures v.selected in v.snapshot.nodes && Formed(v.snapshot) && v.snapshot.rootId in v.snapshot.nodes
    ensures Expandable(v.snapshot, v.expanded) && Visible(v.snapshot, v.expanded, v.selected)
  {
  }

  function Clamped(index: int, length: nat): nat
    requires length > 0
    ensures Clamped(index, length) < length
  {
    if index < 0 then 0 else if index >= length then length - 1 else index
  }

  class BrowserModel {
    var snapshot: Snapshot
    var expanded: set<Id>
    var selectedID: Id
    var rows: seq<Row>
    var initialized: bool

    ghost function V(): View
      reads this
    {
      View(snapshot, expanded, selectedID)
    }

    /** Once a snapshot has arrived, the rows are those of the view. */
    ghost predicate Valid()
      reads this
    {
      if initialized then ViewOk(V()) && rows == RowsFrom(snapshot, expanded, snapshot.rootId, 0)
      else selectedID == NO_ID && expanded == {} && rows == [] && snapshot.nodes == map[] && snapshot.parents == map[]
    }

    lemma ValidView()
      requires Valid() && initialized
      ensures ViewOk(V()) && selectedID in snapshot.nodes && Formed(snapshot)
    {
      hide Formed;
    }

    constructor ()
      ensures Valid() && !initialized
    {
      snapshot := Snapshot(NO_ID, map[], map[], map[], map[], 0);
      expanded, selectedID, rows, initialized := {}, NO_ID, [], false;
    }

    method SetSnapshot(s: Snapshot, pending: Id)
      requires Valid() && Formed(s)
      modifies this
      ensures Valid() && initialized && snapshot == s
      ensures selectedID == Choice(old(initialized), old(V()), s, pending)
      ensures expanded ==
        (set n | n in old(expanded) && n in s.nodes && s.nodes[n].folder) + {s.rootId} + Ancestors(s, selectedID)
    {
      hide Formed, ViewOk, RowsFrom, Survivor, Ancestors, Lineage, Choice;
      var ancestors := SelectionAncestors();
      var selected := Choose(s, pending, ancestors);
      var kept := set n | n in expanded && n in s.nodes && s.nodes[n].folder;
      RootShape(s);
      NewViewOk(s, kept, selected);
      snapshot := s;
      expanded := kept + {s.rootId};
      initialized := true;
      selectedID := selected;
      ExpandAncestors(selected);
      SelectionExists(V());
      RebuildRows();
    }

    method Choose(s: Snapshot, pending: Id, ancestors: seq<Id>) returns (selected: Id)
      requires Formed(s) && (initialized ==> ancestors == Lineage(snapshot, selectedID))
      ensures selected == Choice(initialized, V(), s, pending) && selected in s.nodes
    {
      hide Formed, Survivor, Lineage;
      RootShape(s);
      if !initialized {
        return s.rootId;
      }
      if pending != NO_ID && pending in s.nodes {
        return pending;
      }
      if selectedID != NO_ID && selectedID in s.nodes {
        return selectedID;
      }
      assert NO_ID !in s.nodes by { if NO_ID in s.nodes { Shape(s, NO_ID); } }
      SurvivorExists(snapshot, selectedID, s);
      selected := NearestExisting(ancestors, V(), s);
    }

    /** The ids above the selection, nearest first. */
    method SelectionAncestors() returns (ancestors: seq<Id>)
      requires Valid()
      ensures initialized ==> ancestors == Lineage(snapshot, selectedID)
    {
      ancestors := [];
      if !initialized {
        return;
      }
      hide Valid, Formed, ViewOk, Lineage, Parent, DepthOf;
      ValidView();
      ghost var n := selectedID;
      var id := Parent(snapshot, selectedID);
      while id != NO_ID
        invariant n in snapshot.nodes && id == Parent(snapshot, n)
        invariant Lineage(snapshot, selectedID) == ancestors + Lineage(snapshot, n)
        decreases DepthOf(snapshot, n)
      {
        LineageGathered(snapshot, selectedID, ancestors, n);
        ancestors := ancestors + [id];
        n := id;
        id := Parent(snapshot, id);
      }
      LineageStep(snapshot, n);
    }

    static method NearestExisting(ancestors: seq<Id>, ghost was: View, s: Snapshot) returns (id: Id)
      requires ancestors == Lineage(was.snapshot, was.selected)
      ensures id == Survivor(was.snapshot, was.selected, s)
    {
      hide Lineage, Survivor;
      ghost var n := was.selected;
      for i := 0 to |ancestors|
        invariant ancestors[i..] == Lineage(was.snapshot, n) &&
          Survivor(was.snapshot, was.selected, s) == Survivor(was.snapshot, n, s)
      {
        SurvivorStep(was.snapshot, n, s);
        assert ancestors[i..][0] == ancestors[i];
        if ancestors[i] in s.nodes {
          return ancestors[i];
        }
        assert ancestors[i..][1..] == ancestors[i + 1..];
        n := ancestors[i];
      }
      SurvivorStep(was.snapshot, n, s);
      return s.rootId;
    }

    method ExpandAncestors(id: Id)
      requires Formed(snapshot) && id in snapshot.nodes
      modifies `expanded
      ensures expanded == old(expanded) + Ancestors(snapshot, id)
    {
      hide Formed;
      ghost var n := id;
      var parent := Parent(snapshot, id);
      while parent != NO_ID
        invariant n in snapshot.nodes && parent == Parent(snapshot, n)
        invariant expanded + Ancestors(snapshot, n) == old(expanded) + Ancestors(snapshot, id)
        decreases DepthOf(snapshot, n)
      {
        Shape(snapshot, n);
        expanded := expanded + {parent};
        n := parent;
        parent := Parent(snapshot, parent);
      }
      Shape(snapshot, n);
    }

    /** rebuildRows: the selection falls back to the root exactly when it has no row. */
    method RebuildRows()
      requires Formed(snapshot) && Expandable(snapshot, expanded)
      modifies `rows, `selectedID
      ensures snapshot.rootId in snapshot.nodes && rows == RowsFrom(snapshot, expanded, snapshot.rootId, 0)
      ensures selectedID == if Visible(snapshot, expanded, old(selectedID)) then old(selectedID) else snapshot.rootId
    {
      hide Formed, Visible, RowsFrom, Shows, Expandable;
      RootShape(snapshot);
      RowsAreTheVisible(snapshot, expanded);
      rows := [];
      AppendNode(snapshot.rootId, 0);
      assert rows == RowsFrom(snapshot, expanded, snapshot.rootId, 0);
      var visible := HasRow(selectedID);
      assert visible <==> selectedID in RowIds(rows);
      if !visible {
        selectedID := snapshot.rootId;
      }
    }

    method HasRow(id: Id) returns (visible: bool)
      ensures visible <==> exists i | 0 <= i < |rows| :: rows[i].id == id
    {
      for i := 0 to |rows|
        invariant forall k | 0 <= k < i :: rows[k].id != id
      {
        if rows[i].id == id {
          return true;
        }
      }
      return false;
    }

    method AppendNode(id: Id, depth: nat)
      requires Formed(snapshot) && id in snapshot.nodes
      modifies `rows
      ensures rows == old(rows) + RowsFrom(snapshot, expanded, id, depth)
      decreases snapshot.height + 1 - DepthOf(snapshot, id)
    {
      hide Formed, RowsFrom, RowsOfAll;
      Shape(snapshot, id);
      ChildrenAre(snapshot, id);
      RowsFromIs(snapshot, expanded, id, depth);
      var children := Children(snapshot, id);
      rows := rows + [Row(id, depth, id in expanded, |children| != 0)];
      if !snapshot.nodes[id].folder || id !in expanded {
        return;
      }
      ghost var before := rows;
      ghost var level := DepthOf(snapshot, id) + 1;
      NoneOfAll(snapshot, expanded, level, depth + 1);
      for i := 0 to |children|
        invariant rows == before + RowsOfAll(snapshot, expanded, children[..i], level, depth + 1)
      {
        Shape(snapshot, children[i]);
        RowsOfAllStep(snapshot, expanded, children, i, level, depth + 1);
        AppendNode(children[i], depth + 1);
      }
      assert children[..|children|] == children;
    }

    method SelectedIndex() returns (index: nat)
      requires Valid() && initialized
      ensures index < |rows| && rows[index].id == selectedID
      ensures forall i | 0 <= i < |rows| && rows[i].id == selectedID :: i == index
    {
      SelectionExists(V());
      hide Formed, ViewOk, RowsFrom, Expandable, Visible;
      ghost var k := SelectionHasRow(V(), rows);
      for i := 0 to |rows|
        invariant i <= k
      {
        if rows[i].id == selectedID {
          return i;
        }
      }
      assert false;
    }

    /** The cursor moves by rows and stops at both ends. */
    method Move(delta: int)
      requires Valid()
      modifies `selectedID
      ensures Valid()
      ensures forall i | 0 <= i < |rows| && rows[i].id == old(selectedID) ::
        selectedID == rows[if i + delta < 0 then 0 else if i + delta >= |rows| then |rows| - 1 else i + delta].id
    {
      if |rows| == 0 {
        return;
      }
      hide *;
      var index := SelectedIndex();
      Select(Clamped(index + delta, |rows|));
    }

    method Select(index: nat)
      requires Valid() && initialized && index < |rows|
      modifies `selectedID
      ensures Valid() && selectedID == rows[index].id
    {
      SelectionExists(V());
      RowIsSelectable(V(), rows, index);
      hide Formed, ViewOk, RowsFrom, Expandable, Visible;
      selectedID := rows[index].id;
    }

    method Open()
      requires initialized && ViewOk(V().(expanded := expanded + {selectedID}))
      modifies `expanded, `rows, `selectedID
      ensures Valid() && V() == old(V()).(expanded := old(expanded) + {old(selectedID)})
    {
      hide Formed, ViewOk, Expandable, Visible, RowsFrom;
      expanded := expanded + {selectedID};
      SelectionExists(V());
      RebuildRows();
    }

    /** The cursor goes to another row; the rows stay. */
    method Enter(id: Id)
      requires Valid() && initialized && ViewOk(V().(selected := id))
      modifies `selectedID
      ensures Valid() && V() == old(V()).(selected := id)
    {
      SelectionExists(V());
      hide Formed, ViewOk, Expandable, Visible, RowsFrom;
      selectedID := id;
    }

    method Toggle()
      requires Valid() && initialized
      modifies this
      ensures Valid() && initialized && V() == Toggled(old(V()))
    {
      hide Valid, ViewOk, Formed, Below;
      ValidView();
      CursorKeysKeepOk(V());
      var node := snapshot.nodes[selectedID];
      if !node.folder || node.root {
        return;
      }
      if selectedID in expanded {
        NeverBelowItself(snapshot, selectedID);
        Collapse(selectedID);
      } else {
        Open();
      }
    }

    method Right()
      requires Valid() && initialized
      modifies this
      ensures Valid() && initialized && V() == Rightward(old(V()))
    {
      hide Valid, ViewOk, Formed;
      ValidView();
      CursorKeysKeepOk(V());
      var node := snapshot.nodes[selectedID];
      if !node.folder {
        return;
      }
      if selectedID !in expanded {
        Open();
        return;
      }
      var children := Children(snapshot, selectedID);
      if |children| != 0 {
        Enter(children[0]);
      }
    }

    method Left()
      requires Valid() && initialized
      modifies this
      ensures Valid() && initialized && V() == Leftward(old(V()))
    {
      hide Valid, ViewOk, Formed, Below;
      ValidView();
      CursorKeysKeepOk(V());
      var node := snapshot.nodes[selectedID];
      if node.folder && !node.root {
        if selectedID in expanded {
          NeverBelowItself(snapshot, selectedID);
          Collapse(selectedID);
          return;
        }
      }
      var parent := Parent(snapshot, selectedID);
      if parent != NO_ID {
        Enter(parent);
      }
    }

    method Collapse(id: Id)
      requires Valid() && initialized
      modifies this
      ensures Valid() && initialized && V() == Collapsed(old(V()), id)
    {
      ghost var goal := Collapsed(V(), id);
      hide Formed, ViewOk, RowsFrom, Below, Expandable, Visible;
      CollapseKeepsOk(V(), id);
      SelectionExists(V());
      if id !in snapshot.nodes || !snapshot.nodes[id].folder || snapshot.nodes[id].root {
        return;
      }
      Shape(snapshot, id);
      var below := DescendantOf(selectedID, id);
      if below {
        selectedID := id;
      }
      expanded := expanded - {id};
      assert V() == goal;
      hide Collapsed;
      SelectionExists(goal);
      RebuildRows();
    }

    method DescendantOf(id: Id, ancestor: Id) returns (below: bool)
      requires Formed(snapshot) && id in snapshot.nodes && ancestor != NO_ID
      ensures below <==> Below(snapshot, id, ancestor)
    {
      ghost var n := id;
      var parent := Parent(snapshot, id);
      while parent != NO_ID
        invariant n in snapshot.nodes && parent == Parent(snapshot, n)
        invariant Below(snapshot, id, ancestor) <==> Below(snapshot, n, ancestor)
        decreases DepthOf(snapshot, n)
      {
        Shape(snapshot, n);
        hide Formed;
        if parent == ancestor {
          return true;
        }
        n := parent;
        parent := Parent(snapshot, parent);
      }
      Shape(snapshot, n);
      return false;
    }
  }

  lemma NeverBelowItself(s: Snapshot, n: Id)
    requires Formed(s) && n in s.nodes
    ensures !Below(s, n, n)
  {
    if Below(s, n, n) { NotBelowItself(s, n, n); }
  }
}
