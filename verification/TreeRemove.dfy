/**
 Taking a task or a folder away keeps the tree a tree and every group's counts
 a recount, and takes exactly that entry off the list.
 */
module TreeRemove {
  import opened Paths
  import opened Specs
  import opened Orders
  import opened Tree
  import opened TreeFlat
  import opened TreeInsert

  // ----- What a removal does -----

  /** The tree without a task, each group above counting it no more. */
  function Uncounted(nodes: Nodes, p: Path, task: TaskView): Nodes {
    map q | q in nodes && q != p ::
      if q < p && nodes[q].Group? then CountOut(nodes[q], task) else nodes[q]
  }

  /** Clears the folder at `p`, and drops its group when that is empty. */
  function Unfoldered(nodes: Nodes, p: Path): Nodes
    requires p in nodes && nodes[p].Group?
  {
    if nodes[p].children == [] then nodes - {p} else nodes[p := nodes[p].(folder := None)]
  }

  /** What is taken away itself. */
  function Taken(nodes: Nodes, p: Path): Nodes
    requires p in nodes
  {
    if nodes[p].Task? then Uncounted(nodes, p, nodes[p].view) else Unfoldered(nodes, p)
  }

  /** A group once a child that is gone is off its list; gone too when it is left empty and is no folder. */
  function Unlisted(nodes: Nodes, child: Path): Nodes
    requires Parent(child) in nodes && nodes[Parent(child)].Group?
  {
    var g := Parent(child);
    var left := Without(nodes[g].children, child);
    if g != ROOT && left == [] && nodes[g].folder.None? then nodes - {g}
    else nodes[g := nodes[g].(children := left)]
  }

  /** A path that nothing is at is taken off its group's list, and so is each group above that this leaves empty. */
  function Pruned(nodes: Nodes, child: Path): Nodes
    decreases |child|
  {
    if child == ROOT || child in nodes || Parent(child) !in nodes || nodes[Parent(child)].Task? then nodes
    else Pruned(Unlisted(nodes, child), Parent(child))
  }

  function Removed(nodes: Nodes, p: Path): Nodes
    requires p in nodes
  {
    Pruned(Taken(nodes, p), p)
  }

  // ----- A tree with one path still listed that nothing is at -----

  /** As a group is, but that it may list the gap. */
  ghost predicate GroupOkBut(nodes: Nodes, p: Path, node: Node, gap: Path) {
    node.Group? ==>
      && Distinct(node.children)
      && (forall c | c in node.children :: |c| == |p| + 1 && Parent(c) == p && (c in nodes || c == gap))
      && (if p == ROOT then node.folder.None? else node.children != [] || node.folder.Some?)
  }

  ghost predicate AllGroupsOkBut(nodes: Nodes, gap: Path) {
    forall p {:trigger GroupOkBut(nodes, p, nodes[p], gap)} | p in nodes :: GroupOkBut(nodes, p, nodes[p], gap)
  }

  /** A tree but for a gap, whose group is there. */
  ghost predicate Gapped(nodes: Nodes, gap: Path) {
    && ROOT in nodes && AllLinked(nodes) && AllTasksOk(nodes) && AllGroupsOkBut(nodes, gap)
    && (gap != ROOT ==> Parent(gap) in nodes && nodes[Parent(gap)].Group?)
  }

  lemma UnlistedAt(nodes: Nodes, child: Path, q: Path)
    requires Parent(child) in nodes && nodes[Parent(child)].Group?
    ensures q in Unlisted(nodes, child) ==>
              q in nodes && Unlisted(nodes, child)[q] ==
                            if q == Parent(child) then nodes[q].(children := Without(nodes[q].children, child)) else nodes[q]
    ensures q in nodes && q != Parent(child) ==> q in Unlisted(nodes, child)
  {
  }

  /** A group gone in the pruning has no children. */
  lemma GoneIsEmpty(nodes: Nodes, child: Path)
    requires Parent(child) in nodes && nodes[Parent(child)].Group? && child !in nodes && child != ROOT
    requires AllLinked(nodes) && GroupOkBut(nodes, Parent(child), nodes[Parent(child)], child)
    requires Parent(child) !in Unlisted(nodes, child)
    ensures forall q | q in nodes && q != ROOT :: Parent(q) != Parent(child)
  {
    var g := Parent(child);
    WithoutHas(nodes[g].children, child);
    forall q | q in nodes && q != ROOT ensures Parent(q) != g {
      assert Linked(nodes, q);
      assert q !in Without(nodes[g].children, child);
    }
  }

  lemma UnlistedLinked(nodes: Nodes, child: Path, q: Path)
    requires Gapped(nodes, child) && child !in nodes && child != ROOT && q in Unlisted(nodes, child)
    ensures Linked(Unlisted(nodes, child), q)
  {
    var g := Parent(child);
    UnlistedAt(nodes, child, q);
    if q != ROOT {
      assert Linked(nodes, q) && GroupOkBut(nodes, g, nodes[g], child);
      WithoutHas(nodes[g].children, child);
      UnlistedAt(nodes, child, Parent(q));
      if g !in Unlisted(nodes, child) {
        GoneIsEmpty(nodes, child);
      }
    }
  }

  lemma UnlistedGroup(nodes: Nodes, child: Path, q: Path)
    requires Gapped(nodes, child) && child !in nodes && child != ROOT && q in Unlisted(nodes, child)
    ensures GroupOkBut(Unlisted(nodes, child), q, Unlisted(nodes, child)[q], Parent(child))
    ensures TaskOk(q, Unlisted(nodes, child)[q])
  {
    var (g, tree) := (Parent(child), Unlisted(nodes, child));
    UnlistedAt(nodes, child, q);
    assert GroupOkBut(nodes, q, nodes[q], child) && TaskOk(q, nodes[q]) && GroupOkBut(nodes, g, nodes[g], child);
    WithoutHas(nodes[g].children, child);
    if tree[q].Group? {
      forall c | c in tree[q].children ensures |c| == |q| + 1 && Parent(c) == q && (c in tree || c == g) {
        UnlistedAt(nodes, child, c);
      }
    }
  }

  lemma UnlistedGapped(nodes: Nodes, child: Path)
    requires Gapped(nodes, child) && child !in nodes && child != ROOT
    ensures Gapped(Unlisted(nodes, child), Parent(child))
  {
    var (g, tree) := (Parent(child), Unlisted(nodes, child));
    forall q | q in tree ensures Linked(tree, q) && GroupOkBut(tree, q, tree[q], g) && TaskOk(q, tree[q]) {
      UnlistedLinked(nodes, child, q);
      UnlistedGroup(nodes, child, q);
    }
    assert Linked(nodes, g);
    UnlistedAt(nodes, child, Parent(g));
  }

  /** A tree whose gap is filled, or whose root is the gap, has none. */
  lemma NoGap(nodes: Nodes, gap: Path)
    requires Gapped(nodes, gap) && (gap == ROOT || gap in nodes)
    ensures WellFormed(nodes)
  {
    forall q | q in nodes ensures GroupOk(nodes, q, nodes[q]) {
      assert GroupOkBut(nodes, q, nodes[q], gap);
    }
  }

  /** Pruning closes the gap. */
  lemma {:induction false} PruneKeepsTree(nodes: Nodes, child: Path)
    requires Gapped(nodes, child)
    ensures WellFormed(Pruned(nodes, child)) && ROOT in Pruned(nodes, child)
    decreases |child|
  {
    if child == ROOT || child in nodes {
      NoGap(nodes, child);
    } else {
      UnlistedGapped(nodes, child);
      PruneKeepsTree(Unlisted(nodes, child), Parent(child));
    }
  }

  // ----- Taking one away leaves a tree but for its path -----

  ghost predicate CanTake(nodes: Nodes, p: Path) {
    p in nodes && IsEntry(nodes[p])
  }

  /** What taking an entry away leaves of the others: the same but for counts. */
  lemma TakenAt(nodes: Nodes, p: Path, q: Path)
    requires WellFormed(nodes) && CanTake(nodes, p)
    ensures p != ROOT
    ensures q != p ==> (q in Taken(nodes, p) <==> q in nodes)
    ensures q != p && q in nodes ==> AlikeBut(nodes[q], Taken(nodes, p)[q])
    ensures p in Taken(nodes, p) ==>
              nodes[p].Group? && nodes[p].children != [] && Taken(nodes, p)[p] == nodes[p].(folder := None)
  {
    assert GroupOk(nodes, p, nodes[p]) && TaskOk(p, nodes[p]);
  }

  /** Nodes that differ in no more than their counts. */
  predicate AlikeBut(a: Node, b: Node) {
    if a.Task? then a == b
    else b.Group? && b.children == a.children && b.folder == a.folder && b.collapsed == a.collapsed
  }

  /** Nothing is under a task, or under a group with no children. */
  lemma NoneUnderTaken(nodes: Nodes, p: Path, q: Path)
    requires WellFormed(nodes) && CanTake(nodes, p) && q in nodes && q != ROOT && p !in Taken(nodes, p)
    ensures Parent(q) != p
  {
    assert Linked(nodes, q);
  }

  lemma TakenGapped(nodes: Nodes, p: Path)
    requires WellFormed(nodes) && CanTake(nodes, p)
    ensures Gapped(Taken(nodes, p), p)
  {
    var tree := Taken(nodes, p);
    TakenAt(nodes, p, ROOT);
    forall q | q in tree ensures Linked(tree, q) && GroupOkBut(tree, q, tree[q], p) && TaskOk(q, tree[q]) {
      TakenNode(nodes, p, q);
      TakenLinked(nodes, p, q);
    }
    assert Linked(nodes, p);
    TakenAt(nodes, p, Parent(p));
  }

  lemma TakenNode(nodes: Nodes, p: Path, q: Path)
    requires WellFormed(nodes) && CanTake(nodes, p) && q in Taken(nodes, p)
    ensures GroupOkBut(Taken(nodes, p), q, Taken(nodes, p)[q], p) && TaskOk(q, Taken(nodes, p)[q])
  {
    var tree := Taken(nodes, p);
    TakenAt(nodes, p, q);
    assert GroupOk(nodes, q, nodes[q]) && TaskOk(q, nodes[q]);
    if tree[q].Group? {
      forall c | c in tree[q].children ensures |c| == |q| + 1 && Parent(c) == q && (c in tree || c == p) {
        TakenAt(nodes, p, c);
      }
    }
  }

  lemma TakenLinked(nodes: Nodes, p: Path, q: Path)
    requires WellFormed(nodes) && CanTake(nodes, p) && q in Taken(nodes, p)
    ensures Linked(Taken(nodes, p), q)
  {
    TakenAt(nodes, p, q);
    if q != ROOT {
      assert Linked(nodes, q);
      if p !in Taken(nodes, p) {
        NoneUnderTaken(nodes, p, q);
      }
      TakenAt(nodes, p, Parent(q));
    }
  }

  /** Taking an entry away keeps the tree a tree. */
  lemma RemoveKeepsTree(nodes: Nodes, p: Path)
    requires WellFormed(nodes) && CanTake(nodes, p)
    ensures WellFormed(Removed(nodes, p)) && ROOT in Removed(nodes, p)
  {
    TakenGapped(nodes, p);
    PruneKeepsTree(Taken(nodes, p), p);
  }

  // ----- The counts -----

  /** Pruning takes no task, and changes no group's counts. */
  lemma {:induction false} PruneKeepsCounts(nodes: Nodes, child: Path)
    requires Counted(nodes)
    ensures Counted(Pruned(nodes, child))
    decreases |child|
  {
    if child == ROOT || child in nodes || Parent(child) !in nodes || nodes[Parent(child)].Task? {
    } else {
      UnlistedCounted(nodes, child);
      PruneKeepsCounts(Unlisted(nodes, child), Parent(child));
    }
  }

  lemma UnlistedCounted(nodes: Nodes, child: Path)
    requires Counted(nodes) && Parent(child) in nodes && nodes[Parent(child)].Group?
    ensures Counted(Unlisted(nodes, child))
  {
    var tree := Unlisted(nodes, child);
    forall q ensures q in tree && tree[q].Task? <==> q in nodes && nodes[q].Task? {
      UnlistedAt(nodes, child, q);
    }
    forall g | g in tree ensures Recount(tree, g, tree[g]) {
      SameUnder(nodes, tree, g);
      UnlistedAt(nodes, child, g);
      assert Recount(nodes, g, nodes[g]);
    }
  }

  lemma SameUnder(a: Nodes, b: Nodes, g: Path)
    requires forall q :: q in a && a[q].Task? <==> q in b && b[q].Task?
    requires forall q | q in a && a[q].Task? :: a[q] == b[q]
    ensures TasksUnder(a, g) == TasksUnder(b, g) && UpUnder(a, g) == UpUnder(b, g) && FailedUnder(a, g) == FailedUnder(b, g)
  {
  }

  function Less(s: set<Path>, p: Path, counted: bool): set<Path> {
    if counted then s - {p} else s
  }

  /** The tasks under a group, but for one taken away. */
  lemma UncountedUnder(nodes: Nodes, p: Path, g: Path)
    requires p in nodes && nodes[p].Task?
    ensures var (tree, task) := (Uncounted(nodes, p, nodes[p].view), nodes[p].view);
            && TasksUnder(tree, g) == Less(TasksUnder(nodes, g), p, g < p)
            && UpUnder(tree, g) == Less(UpUnder(nodes, g), p, g < p && IsUp(task))
            && FailedUnder(tree, g) == Less(FailedUnder(nodes, g), p, g < p && HasFailed(task))
            && (g < p ==> p in TasksUnder(nodes, g))
            && (g < p && IsUp(task) ==> p in UpUnder(nodes, g))
            && (g < p && HasFailed(task) ==> p in FailedUnder(nodes, g))
  {
  }

  lemma LessSize(s: set<Path>, p: Path, counted: bool)
    requires counted ==> p in s
    ensures |Less(s, p, counted)| == |s| - Count(counted)
  {
  }

  lemma UncountedCounted(nodes: Nodes, p: Path)
    requires Counted(nodes) && p in nodes && nodes[p].Task?
    ensures Counted(Uncounted(nodes, p, nodes[p].view))
  {
    var tree := Uncounted(nodes, p, nodes[p].view);
    forall g | g in tree ensures Recount(tree, g, tree[g]) {
      assert Recount(nodes, g, nodes[g]);
      UncountedRecount(nodes, p, g);
    }
  }

  lemma UncountedRecount(nodes: Nodes, p: Path, g: Path)
    requires p in nodes && nodes[p].Task? && g in nodes && g != p && Recount(nodes, g, nodes[g])
    ensures var tree := Uncounted(nodes, p, nodes[p].view); Recount(tree, g, tree[g])
  {
    var (task, tree) := (nodes[p].view, Uncounted(nodes, p, nodes[p].view));
    UncountedUnder(nodes, p, g);
    if nodes[g].Group? {
      RecountLess(nodes, tree, g, p, nodes[g], tree[g], g < p, g < p && IsUp(task), g < p && HasFailed(task));
    }
  }

  lemma RecountLess(nodes: Nodes, tree: Nodes, g: Path, p: Path, before: Node, node: Node, task: bool, up: bool, failed: bool)
    requires (task ==> p in TasksUnder(nodes, g)) && (up ==> p in UpUnder(nodes, g)) && (failed ==> p in FailedUnder(nodes, g))
    requires TasksUnder(tree, g) == Less(TasksUnder(nodes, g), p, task)
    requires UpUnder(tree, g) == Less(UpUnder(nodes, g), p, up)
    requires FailedUnder(tree, g) == Less(FailedUnder(nodes, g), p, failed)
    requires before.Group? && Recount(nodes, g, before) && node.Group?
    requires node.tasks == before.tasks - Count(task) && node.up == before.up - Count(up)
    requires node.failed == before.failed - Count(failed)
    ensures Recount(tree, g, node)
  {
    LessSize(TasksUnder(nodes, g), p, task);
    LessSize(UpUnder(nodes, g), p, up);
    LessSize(FailedUnder(nodes, g), p, failed);
  }

  lemma UnfolderedCounted(nodes: Nodes, p: Path)
    requires Counted(nodes) && p in nodes && nodes[p].Group?
    ensures Counted(Unfoldered(nodes, p))
  {
    var tree := Unfoldered(nodes, p);
    forall g | g in tree ensures Recount(tree, g, tree[g]) {
      SameUnder(nodes, tree, g);
      assert Recount(nodes, g, nodes[g]);
    }
  }

  /** Taking an entry away keeps every group's counts a recount; so no count goes below none. */
  lemma RemoveKeepsCounts(nodes: Nodes, p: Path)
    requires Counted(nodes) && p in nodes
    ensures Counted(Removed(nodes, p))
  {
    if nodes[p].Task? {
      UncountedCounted(nodes, p);
    } else {
      UnfolderedCounted(nodes, p);
    }
    PruneKeepsCounts(Taken(nodes, p), p);
  }

  // ----- The list -----

  /** A list without one of its elements. */
  function Drop(list: seq<Path>, p: Path): seq<Path> {
    if list == [] then []
    else
      var last := list[|list| - 1];
      Drop(list[..|list| - 1], p) + if last == p then [] else [last]
  }

  lemma {:induction false} DropSum(a: seq<Path>, b: seq<Path>, p: Path)
    ensures Drop(a + b, p) == Drop(a, p) + Drop(b, p)
  {
    if b == [] {
      assert a + b == a;
    } else {
      var last := |b| - 1;
      DropSum(a, b[..last], p);
      assert (a + b)[..|a + b| - 1] == a + b[..last];
    }
  }

  lemma {:induction false} DropNone(list: seq<Path>, p: Path)
    requires p !in list
    ensures Drop(list, p) == list
  {
    if list != [] {
      DropNone(list[..|list| - 1], p);
    }
  }

  lemma DropItself(p: Path)
    ensures Drop([p], p) == []
  {
    assert [p][..0] == [];
  }

  lemma Joined(d: seq<Path>, da: seq<Path>, dpb: seq<Path>, dp: seq<Path>, db: seq<Path>)
    requires d == da + dpb && dpb == dp + db && dp == []
    ensures d == da + db
  {
  }

  lemma DropMiddle(a: seq<Path>, p: Path, b: seq<Path>)
    requires p !in a && p !in b
    ensures Drop(a + ([p] + b), p) == a + b
  {
    DropItself(p);
    DropSum(a, [p] + b, p);
    DropSum([p], b, p);
    Joined(Drop(a + ([p] + b), p), Drop(a, p), Drop([p] + b, p), Drop([p], p), Drop(b, p));
    DropNone(a, p);
    DropNone(b, p);
  }

  lemma Elsewhere(list: seq<Path>, i: nat)
    requires Distinct(list) && i < |list|
    ensures list[i] !in list[..i] && list[i] !in list[i + 1..]
    ensures list == list[..i] + ([list[i]] + list[i + 1..])
  {
  }

  /** From a list that has nothing twice, exactly the one place goes. */
  lemma DropOne(list: seq<Path>, i: nat)
    requires Distinct(list) && i < |list|
    ensures Drop(list, list[i]) == list[..i] + list[i + 1..]
  {
    var (a, p, b) := (list[..i], list[i], list[i + 1..]);
    Elsewhere(list, i);
    DropMiddle(a, p, b);
  }

  /** The same trees but for an entry `p` that one of them does not have. */
  ghost predicate ButFor(nodes: Nodes, tree: Nodes, p: Path) {
    && (forall q | q != p :: (q in tree <==> q in nodes) && (q in nodes ==> AlikeBut(nodes[q], tree[q])))
    && p in nodes
    && (p in tree ==> nodes[p].Group? && tree[p] == nodes[p].(folder := None))
    && (p !in tree && nodes[p].Group? ==> nodes[p].children == [])
    && (nodes[p].Group? ==> nodes[p].folder.Some?)
  }

  /** The list without the entry is the list of the tree without it. */
  lemma {:induction false} FlatDrops(nodes: Nodes, tree: Nodes, p: Path, c: Path)
    requires ButFor(nodes, tree, p)
    ensures FlatAt(tree, c) == Drop(FlatAt(nodes, c), p)
    decreases Below(nodes, c), 1, 0
  {
    if c !in nodes {
    } else if nodes[c].Task? {
      DropSingle(c, p);
    } else {
      FlatListDrops(nodes, tree, p, c, nodes[c].children);
      GroupDrops(nodes, tree, p, c);
    }
  }

  lemma DropSingle(c: Path, p: Path)
    ensures Drop([c], p) == if c == p then [] else [c]
  {
    assert [c][..0] == [];
  }

  lemma GroupDrops(nodes: Nodes, tree: Nodes, p: Path, c: Path)
    requires ButFor(nodes, tree, p) && c in nodes && nodes[c].Group?
    requires FlatList(tree, c, nodes[c].children) == Drop(FlatList(nodes, c, nodes[c].children), p)
    ensures FlatAt(tree, c) == Drop(FlatAt(nodes, c), p)
  {
    DropSum(Head(nodes[c], c), FlatList(nodes, c, nodes[c].children), p);
    DropSingle(c, p);
    if c != p {
      assert AlikeBut(nodes[c], tree[c]);
    } else if c !in tree {
      assert nodes[c].children == [];
    }
  }

  lemma {:induction false} FlatListDrops(nodes: Nodes, tree: Nodes, p: Path, g: Path, children: seq<Path>)
    requires ButFor(nodes, tree, p)
    ensures FlatList(tree, g, children) == Drop(FlatList(nodes, g, children), p)
    decreases Below(nodes, g), 0, |children|
  {
    if children != [] {
      var (rest, last) := (children[..|children| - 1], children[|children| - 1]);
      FlatListDrops(nodes, tree, p, g, rest);
      var more := if g < last && last in nodes then FlatAt(nodes, last) else [];
      DropSum(FlatList(nodes, g, rest), more, p);
      if g < last && last in nodes {
        BelowShrinks(nodes, g, last);
        FlatDrops(nodes, tree, p, last);
      }
    }
  }

  lemma TakenButFor(nodes: Nodes, p: Path)
    requires WellFormed(nodes) && CanTake(nodes, p)
    ensures ButFor(nodes, Taken(nodes, p), p)
  {
    forall q | q != p
      ensures (q in Taken(nodes, p) <==> q in nodes) && (q in nodes ==> AlikeBut(nodes[q], Taken(nodes, p)[q]))
    {
      TakenAt(nodes, p, q);
    }
    TakenAt(nodes, p, p);
  }

  /** A path that nothing is at adds nothing to its group's list. */
  lemma {:induction false} UnlistedFlat(nodes: Nodes, child: Path, c: Path)
    requires Parent(child) in nodes && nodes[Parent(child)].Group? && child !in nodes
    ensures FlatAt(Unlisted(nodes, child), c) == FlatAt(nodes, c)
    decreases Below(nodes, c), 1, 0
  {
    if c in nodes && nodes[c].Group? {
      var left := if c == Parent(child) then Without(nodes[c].children, child) else nodes[c].children;
      FlatListWithout(nodes, c, nodes[c].children, child);
      FlatListUnlisted(nodes, child, c, left);
      if c !in Unlisted(nodes, child) {
        assert left == [];
      }
    }
  }

  lemma {:induction false} FlatListUnlisted(nodes: Nodes, child: Path, g: Path, children: seq<Path>)
    requires Parent(child) in nodes && nodes[Parent(child)].Group? && child !in nodes
    ensures FlatList(Unlisted(nodes, child), g, children) == FlatList(nodes, g, children)
    decreases Below(nodes, g), 0, |children|
  {
    if children != [] {
      var last := children[|children| - 1];
      FlatListUnlisted(nodes, child, g, children[..|children| - 1]);
      if g < last && last in nodes {
        BelowShrinks(nodes, g, last);
        UnlistedFlat(nodes, child, last);
      }
    }
  }

  lemma FlatListWithout(nodes: Nodes, g: Path, children: seq<Path>, child: Path)
    requires child !in nodes
    ensures FlatList(nodes, g, Without(children, child)) == FlatList(nodes, g, children)
  {
    if child in children {
      var i := IndexOf(children, child);
      assert children == children[..i] + ([child] + children[i + 1..]);
      FlatListSum(nodes, g, children[..i], [child] + children[i + 1..]);
      FlatListSum(nodes, g, [child], children[i + 1..]);
      assert [child][..0] == [];
      assert FlatList(nodes, g, [child]) == [];
      FlatListSum(nodes, g, children[..i], children[i + 1..]);
    }
  }

  lemma {:induction false} PrunedFlat(nodes: Nodes, child: Path)
    ensures Flat(Pruned(nodes, child)) == Flat(nodes)
    decreases |child|
  {
    if child == ROOT || child in nodes || Parent(child) !in nodes || nodes[Parent(child)].Task? {
    } else {
      UnlistedFlat(nodes, child, ROOT);
      PrunedFlat(Unlisted(nodes, child), Parent(child));
    }
  }

  lemma ListableDistinct(list: seq<Path>)
    requires Listable(list)
    ensures Distinct(list)
  {
    forall i, j | 0 <= i < j < |list| ensures list[i] != list[j] {
      assert list[i] == list[j] ==> AtOrUnder(list[i], list[j]);
    }
  }

  /** Taking an entry away takes it off the list, and leaves the others where they are. */
  lemma RemoveDrops(nodes: Nodes, p: Path)
    requires WellFormed(nodes) && CanTake(nodes, p)
    ensures p in Flat(nodes)
    ensures Flat(Removed(nodes, p)) == RemoveAt(Flat(nodes), IndexOf(Flat(nodes), p))
  {
    EntryInFlat(nodes, ROOT, p);
    RemovedFlat(nodes, p);
    FlatListable(nodes, ROOT);
    ListableDistinct(Flat(nodes));
    DropOne(Flat(nodes), IndexOf(Flat(nodes), p));
  }

  lemma RemovedFlat(nodes: Nodes, p: Path)
    requires WellFormed(nodes) && CanTake(nodes, p)
    ensures Flat(Removed(nodes, p)) == Drop(Flat(nodes), p)
  {
    TakenButFor(nodes, p);
    FlatDrops(nodes, Taken(nodes, p), p, ROOT);
    PrunedFlat(Taken(nodes, p), p);
  }
}
