/**
 The rows shown of a tree: all its nodes in order, cut at collapsed groups; and
 where the cursor goes when a group closes over it.
 */
module TreeRows {
  import opened Paths
  import opened Specs
  import opened Orders
  import opened Tree
  import opened TreeFlat

  // ----- The rows -----

  /** A node's own row, and those under it when it is an open group. */
  function RowsAt(nodes: Nodes, c: Path): seq<Path>
    requires c in nodes
    decreases Below(nodes, c), 1, 0
  {
    if nodes[c].Task? || nodes[c].collapsed then [c] else [c] + RowsList(nodes, c, nodes[c].children)
  }

  function RowsList(nodes: Nodes, g: Path, children: seq<Path>): seq<Path>
    decreases Below(nodes, g), 0, |children|
  {
    if children == [] then []
    else
      var last := children[|children| - 1];
      RowsList(nodes, g, children[..|children| - 1]) +
      if g < last && last in nodes then (BelowShrinks(nodes, g, last); RowsAt(nodes, last)) else []
  }

  /** The rows shown, which leave out the root. */
  function Rows(nodes: Nodes): seq<Path> {
    if ROOT in nodes && nodes[ROOT].Group? then RowsList(nodes, ROOT, nodes[ROOT].children) else []
  }

  // ----- Cutting at collapsed groups -----

  predicate Closed(nodes: Nodes, g: Path) {
    g in nodes && nodes[g].Group? && nodes[g].collapsed
  }

  /** No group below `from` and strictly above a path is collapsed. */
  predicate Open(nodes: Nodes, from: Path, p: Path) {
    forall k | |from| < k < |p| :: !Closed(nodes, p[..k])
  }

  /** What a path's own group, or one above it short of the root, does not hide. */
  predicate Visible(nodes: Nodes, p: Path) {
    Open(nodes, ROOT, p)
  }

  /** Every node at and under one, whatever is collapsed: each group ahead of what is in it. */
  function OrderAt(nodes: Nodes, c: Path): seq<Path>
    requires c in nodes
    decreases Below(nodes, c), 1, 0
  {
    if nodes[c].Task? then [c] else [c] + OrderList(nodes, c, nodes[c].children)
  }

  function OrderList(nodes: Nodes, g: Path, children: seq<Path>): seq<Path>
    decreases Below(nodes, g), 0, |children|
  {
    if children == [] then []
    else
      var last := children[|children| - 1];
      OrderList(nodes, g, children[..|children| - 1]) +
      if g < last && last in nodes then (BelowShrinks(nodes, g, last); OrderAt(nodes, last)) else []
  }

  function Order(nodes: Nodes): seq<Path> {
    if ROOT in nodes && nodes[ROOT].Group? then OrderList(nodes, ROOT, nodes[ROOT].children) else []
  }

  function Kept(list: seq<Path>, keep: Path -> bool): seq<Path> {
    if list == [] then []
    else
      var last := list[|list| - 1];
      Kept(list[..|list| - 1], keep) + if keep(last) then [last] else []
  }

  lemma {:induction false} KeptSum(a: seq<Path>, b: seq<Path>, keep: Path -> bool)
    ensures Kept(a + b, keep) == Kept(a, keep) + Kept(b, keep)
  {
    if b == [] {
      assert a + b == a;
    } else {
      var last := |b| - 1;
      KeptSum(a, b[..last], keep);
      assert (a + b)[..|a + b| - 1] == a + b[..last];
    }
  }

  lemma {:induction false} KeptNone(list: seq<Path>, keep: Path -> bool)
    requires forall x | x in list :: !keep(x)
    ensures Kept(list, keep) == []
  {
    if list != [] {
      KeptNone(list[..|list| - 1], keep);
    }
  }

  lemma KeptOne(x: Path, keep: Path -> bool)
    ensures Kept([x], keep) == if keep(x) then [x] else []
  {
    assert [x][..0] == [];
  }

  lemma {:induction false} KeptSame(list: seq<Path>, keep: Path -> bool, same: Path -> bool)
    requires forall x | x in list :: keep(x) == same(x)
    ensures Kept(list, keep) == Kept(list, same)
  {
    if list != [] {
      KeptSame(list[..|list| - 1], keep, same);
    }
  }

  lemma {:induction false} OrderHas(nodes: Nodes, c: Path, x: Path)
    requires c in nodes
    ensures x in OrderAt(nodes, c) ==> x in nodes && c <= x
    decreases Below(nodes, c), 1, 0
  {
    if nodes[c].Group? {
      OrderListHas(nodes, c, nodes[c].children, x);
    }
  }

  lemma {:induction false} OrderListHas(nodes: Nodes, g: Path, children: seq<Path>, x: Path)
    ensures x in OrderList(nodes, g, children) ==> x in nodes && g < x && exists c | c in children :: c <= x
    decreases Below(nodes, g), 0, |children|
  {
    if children != [] {
      var (rest, last) := (children[..|children| - 1], children[|children| - 1]);
      OrderListHas(nodes, g, rest, x);
      if x in OrderList(nodes, g, rest) {
        var c :| c in rest && c <= x;
        assert c in children;
      } else if g < last && last in nodes {
        BelowShrinks(nodes, g, last);
        OrderHas(nodes, last, x);
        assert last in children;
      }
    }
  }

  lemma OpenStep(nodes: Nodes, g: Path, c: Path, x: Path)
    requires |c| == |g| + 1 && c <= x
    ensures c < x ==> (Open(nodes, g, x) <==> !Closed(nodes, c) && Open(nodes, c, x))
    ensures c == x ==> Open(nodes, g, x)
  {
    if c < x {
      assert x[..|c|] == c;
      if Open(nodes, g, x) {
        assert !Closed(nodes, x[..|c|]);
      }
      if !Closed(nodes, c) && Open(nodes, c, x) {
        forall k | |g| < k < |x| ensures !Closed(nodes, x[..k]) {
        }
      }
    }
  }

  /** The rows of a node are the nodes at and under it that no group from it on hides. */
  lemma {:induction false} RowsAtAreOpen(nodes: Nodes, g: Path, c: Path)
    requires AllGroupsOk(nodes) && c in nodes && |c| == |g| + 1
    ensures RowsAt(nodes, c) == Kept(OrderAt(nodes, c), x => Open(nodes, g, x))
    decreases Below(nodes, c), 1, 0
  {
    var keep := x => Open(nodes, g, x);
    OpenStep(nodes, g, c, c);
    KeptOne(c, keep);
    if nodes[c].Group? {
      var (under, open) := (OrderList(nodes, c, nodes[c].children), x => Open(nodes, c, x));
      KeptSum([c], under, keep);
      forall x | x in under ensures c < x {
        OrderListHas(nodes, c, nodes[c].children, x);
      }
      forall x | x in under ensures keep(x) == (!nodes[c].collapsed && open(x)) {
        OpenStep(nodes, g, c, x);
      }
      if nodes[c].collapsed {
        KeptNone(under, keep);
      } else {
        assert GroupOk(nodes, c, nodes[c]);
        RowsListAreOpen(nodes, c, nodes[c].children);
        KeptSame(under, keep, open);
      }
    }
  }

  lemma {:induction false} RowsListAreOpen(nodes: Nodes, g: Path, children: seq<Path>)
    requires AllGroupsOk(nodes) && forall c | c in children :: |c| == |g| + 1 && Parent(c) == g
    ensures RowsList(nodes, g, children) == Kept(OrderList(nodes, g, children), x => Open(nodes, g, x))
    decreases Below(nodes, g), 0, |children|
  {
    if children != [] {
      var (rest, last) := (children[..|children| - 1], children[|children| - 1]);
      RowsListAreOpen(nodes, g, rest);
      assert last in children && g < last;
      if last !in nodes {
        assert RowsList(nodes, g, children) == RowsList(nodes, g, rest);
        assert OrderList(nodes, g, children) == OrderList(nodes, g, rest);
      } else {
        BelowShrinks(nodes, g, last);
        RowsAtAreOpen(nodes, g, last);
        KeptSum(OrderList(nodes, g, rest), OrderAt(nodes, last), x => Open(nodes, g, x));
      }
    }
  }

  /** The rows are the nodes in order, cut at collapsed groups. */
  lemma RowsAreVisible(nodes: Nodes)
    requires AllGroupsOk(nodes)
    ensures Rows(nodes) == Kept(Order(nodes), x => Visible(nodes, x))
  {
    if ROOT in nodes && nodes[ROOT].Group? {
      assert GroupOk(nodes, ROOT, nodes[ROOT]);
      RowsListAreOpen(nodes, ROOT, nodes[ROOT].children);
      KeptSame(Order(nodes), x => Open(nodes, ROOT, x), x => Visible(nodes, x));
    }
  }

  // ----- What has a row -----

  lemma {:induction false} KeptHas(list: seq<Path>, keep: Path -> bool, x: Path)
    ensures x in Kept(list, keep) <==> x in list && keep(x)
  {
    if list != [] {
      var (rest, last) := (list[..|list| - 1], list[|list| - 1]);
      assert list == rest + [last];
      KeptHas(rest, keep, x);
    }
  }

  lemma {:induction false} OrderListSum(nodes: Nodes, g: Path, a: seq<Path>, b: seq<Path>)
    ensures OrderList(nodes, g, a + b) == OrderList(nodes, g, a) + OrderList(nodes, g, b)
  {
    if b == [] {
      assert a + b == a;
    } else {
      var last := |b| - 1;
      OrderListSum(nodes, g, a, b[..last]);
      assert (a + b)[..|a + b| - 1] == a + b[..last];
    }
  }

  /** What a group lists has what each child has. */
  lemma ChildInOrder(nodes: Nodes, g: Path, children: seq<Path>, c: Path, x: Path)
    requires c in children && g < c && c in nodes && x in OrderAt(nodes, c)
    ensures x in OrderList(nodes, g, children)
  {
    var i := IndexOf(children, c);
    assert children == children[..i + 1] + children[i + 1..];
    OrderListSum(nodes, g, children[..i + 1], children[i + 1..]);
    assert children[..i + 1][..i] == children[..i];
  }

  /** Every node under a group is in what it lists. */
  lemma {:induction false} NodeInOrder(nodes: Nodes, g: Path, x: Path)
    requires AllLinked(nodes) && AllGroupsOk(nodes) && x in nodes && g < x
    ensures g in nodes && nodes[g].Group? && x in OrderList(nodes, g, nodes[g].children)
    decreases |x| - |g|
  {
    assert x[..|g|] == g;
    AboveAreGroups(nodes, x, |g|);
    var c := x[..|g| + 1];
    assert GroupOk(nodes, g, nodes[g]);
    if c != x {
      NodeInOrder(nodes, c, x);
    }
    ChildInOrder(nodes, g, nodes[g].children, c, x);
  }

  /** A row for each node but the root that no collapsed group hides. */
  lemma RowsHave(nodes: Nodes, x: Path)
    requires WellFormed(nodes)
    ensures x in Rows(nodes) <==> x in nodes && x != ROOT && Visible(nodes, x)
  {
    RowsAreVisible(nodes);
    KeptHas(Order(nodes), y => Visible(nodes, y), x);
    if x in nodes && x != ROOT {
      NodeInOrder(nodes, ROOT, x);
    }
    if x in Order(nodes) {
      OrderListHas(nodes, ROOT, nodes[ROOT].children, x);
    }
  }

  // ----- The rows and the list of tasks and folders -----

  lemma EntryOf(nodes: Nodes, c: Path)
    requires c in nodes
    ensures FlatAt(nodes, c) == (if IsEntry(nodes[c]) then [c] else []) +
                                if nodes[c].Group? then FlatList(nodes, c, nodes[c].children) else []
  {
  }

  /** The list of tasks and folders is in the order of the rows. */
  lemma {:induction false} FlatAtInOrder(nodes: Nodes, c: Path)
    requires c in nodes
    ensures FlatAt(nodes, c) == Kept(OrderAt(nodes, c), x => x in nodes && IsEntry(nodes[x]))
    decreases Below(nodes, c), 1, 0
  {
    var entry := x => x in nodes && IsEntry(nodes[x]);
    EntryOf(nodes, c);
    KeptOne(c, entry);
    if nodes[c].Group? {
      FlatListInOrder(nodes, c, nodes[c].children);
      KeptSum([c], OrderList(nodes, c, nodes[c].children), entry);
    }
  }

  lemma {:induction false} FlatListInOrder(nodes: Nodes, g: Path, children: seq<Path>)
    ensures FlatList(nodes, g, children) == Kept(OrderList(nodes, g, children), x => x in nodes && IsEntry(nodes[x]))
    decreases Below(nodes, g), 0, |children|
  {
    if children != [] {
      var (rest, last) := (children[..|children| - 1], children[|children| - 1]);
      FlatListInOrder(nodes, g, rest);
      if g < last && last in nodes {
        BelowShrinks(nodes, g, last);
        FlatAtInOrder(nodes, last);
        KeptSum(OrderList(nodes, g, rest), OrderAt(nodes, last), x => x in nodes && IsEntry(nodes[x]));
      } else {
        assert FlatList(nodes, g, children) == FlatList(nodes, g, rest);
        assert OrderList(nodes, g, children) == OrderList(nodes, g, rest);
      }
    }
  }

  /** With every group open, the rows that are tasks or folders are the kernel's list. */
  lemma FlatInOrder(nodes: Nodes)
    requires WellFormed(nodes)
    ensures Flat(nodes) == Kept(Order(nodes), x => x in nodes && IsEntry(nodes[x]))
  {
    if ROOT in nodes {
      RootIsGroup(nodes);
      EntryOf(nodes, ROOT);
      FlatListInOrder(nodes, ROOT, nodes[ROOT].children);
    }
  }

  lemma RootIsGroup(nodes: Nodes)
    requires WellFormed(nodes) && ROOT in nodes
    ensures nodes[ROOT].Group? && nodes[ROOT].folder.None?
  {
    assert GroupOk(nodes, ROOT, nodes[ROOT]) && TaskOk(ROOT, nodes[ROOT]);
  }

  // ----- Opening and closing groups -----

  /** The tree with some groups all closed, or all open. */
  function Folded(nodes: Nodes, groups: set<Path>, collapsed: bool): Nodes {
    map q | q in nodes ::
      if q in groups && nodes[q].Group? then nodes[q].(collapsed := collapsed) else nodes[q]
  }

  /** Where the cursor goes from a path: to it, or to the nearest one above it that is shown. */
  function NearestShown(rows: seq<Path>, p: Path): Option<Path>
    decreases |p|
  {
    if p == ROOT then None
    else if p in rows then Some(p)
    else NearestShown(rows, Parent(p))
  }

  /** It is shown, at or above the path, and nothing between the two is. */
  lemma {:induction false} NearestIsLongest(rows: seq<Path>, p: Path)
    ensures NearestShown(rows, p).Some? ==>
              && NearestShown(rows, p).value in rows && NearestShown(rows, p).value <= p && NearestShown(rows, p).value != ROOT
              && forall k | |NearestShown(rows, p).value| < k <= |p| :: p[..k] !in rows
    ensures NearestShown(rows, p).None? ==> forall k | 0 < k <= |p| :: p[..k] !in rows
    decreases |p|
  {
    if p != ROOT && p !in rows {
      NearestIsLongest(rows, Parent(p));
      var low := if NearestShown(rows, p).Some? then |NearestShown(rows, p).value| else 0;
      forall k | low < k <= |p| ensures p[..k] !in rows {
        if k < |p| {
          assert p[..k] == Parent(p)[..k];
        } else {
          assert p[..k] == p;
        }
      }
    }
  }

  lemma FoldKeepsTree(nodes: Nodes, groups: set<Path>, collapsed: bool)
    requires WellFormed(nodes)
    ensures WellFormed(Folded(nodes, groups, collapsed))
  {
    var tree := Folded(nodes, groups, collapsed);
    forall q | q in tree ensures Linked(tree, q) && GroupOk(tree, q, tree[q]) && TaskOk(q, tree[q]) {
      assert Linked(nodes, q) && GroupOk(nodes, q, nodes[q]) && TaskOk(q, nodes[q]);
    }
  }

  lemma FoldKeepsCounts(nodes: Nodes, groups: set<Path>, collapsed: bool)
    requires Counted(nodes)
    ensures Counted(Folded(nodes, groups, collapsed))
  {
    var tree := Folded(nodes, groups, collapsed);
    forall q | q in tree ensures Recount(tree, q, tree[q]) {
      assert Recount(nodes, q, nodes[q]);
      assert TasksUnder(tree, q) == TasksUnder(nodes, q);
      assert UpUnder(tree, q) == UpUnder(nodes, q);
      assert FailedUnder(tree, q) == FailedUnder(nodes, q);
    }
  }

  /** Folding leaves the list of tasks and folders as it is. */
  lemma FoldKeepsFlat(nodes: Nodes, groups: set<Path>, collapsed: bool)
    ensures Flat(Folded(nodes, groups, collapsed)) == Flat(nodes)
  {
    FoldKeepsFlatAt(nodes, groups, collapsed, ROOT);
  }

  lemma {:induction false} FoldKeepsFlatAt(nodes: Nodes, groups: set<Path>, collapsed: bool, c: Path)
    ensures FlatAt(Folded(nodes, groups, collapsed), c) == FlatAt(nodes, c)
    decreases Below(nodes, c), 1, 0
  {
    if c in nodes && nodes[c].Group? {
      FoldKeepsFlatList(nodes, groups, collapsed, c, nodes[c].children);
    }
  }

  lemma {:induction false} FoldKeepsFlatList(nodes: Nodes, groups: set<Path>, collapsed: bool, g: Path, children: seq<Path>)
    ensures FlatList(Folded(nodes, groups, collapsed), g, children) == FlatList(nodes, g, children)
    decreases Below(nodes, g), 0, |children|
  {
    if children != [] {
      var last := children[|children| - 1];
      FoldKeepsFlatList(nodes, groups, collapsed, g, children[..|children| - 1]);
      if g < last && last in nodes {
        BelowShrinks(nodes, g, last);
        FoldKeepsFlatAt(nodes, groups, collapsed, last);
      }
    }
  }

  /** The path the cursor is moved to, when a fold hides its row: the outermost closed group above it. */
  lemma ShownIsOutermost(nodes: Nodes, p: Path)
    requires WellFormed(nodes) && p in nodes && p != ROOT
    ensures var shown := NearestShown(Rows(nodes), p);
            && shown.Some? && shown.value <= p && shown.value in nodes && Visible(nodes, shown.value)
            && (shown.value == p <==> Visible(nodes, p))
            && (shown.value != p ==> Closed(nodes, shown.value))
  {
    var (rows, n) := (Rows(nodes), 1);
    NearestIsLongest(rows, p);
    AboveHasNode(nodes, p, 1);
    RowsHave(nodes, p[..1]);
    assert Visible(nodes, p[..1]);
    var shown := NearestShown(rows, p).value;
    RowsHave(nodes, shown);
    RowsHave(nodes, p);
    if shown != p {
      var next := p[..|shown| + 1];
      AboveHasNode(nodes, p, |shown| + 1);
      RowsHave(nodes, next);
      assert !Visible(nodes, next);
      var k :| 0 < k < |next| && Closed(nodes, next[..k]);
      assert shown == p[..|shown|];
      FirstOfFirst(p, |shown| + 1, k);
      FirstOfFirst(p, |shown|, k);
    }
  }

  lemma FirstOfFirst(p: Path, n: nat, k: nat)
    requires k <= n <= |p|
    ensures p[..n][..k] == p[..k]
  {
  }

  lemma AboveHasNode(nodes: Nodes, p: Path, k: nat)
    requires AllLinked(nodes) && p in nodes && k <= |p|
    ensures p[..k] in nodes
  {
    if k < |p| {
      AboveAreGroups(nodes, p, k);
    } else {
      assert p[..k] == p;
    }
  }
}
