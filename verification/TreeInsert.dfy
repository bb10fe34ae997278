/**
 Adding an entry after another changes the list exactly by putting the entry
 right after the other, at any depth, when the kernel could keep that list.
 */
module TreeInsert {
  import opened Paths
  import opened Specs
  import opened Orders
  import opened Tree
  import opened TreeAdd
  import opened TreeFlat

  /** The kernel's list with an entry put right after another, or first. */
  function PutInList(list: seq<Path>, p: Path, after: Option<Path>): seq<Path> {
    if after.Some? && after.value in list then InsertAt(list, IndexOf(list, after.value) + 1, p) else [p] + list
  }

  // ----- Every tree's list is one the kernel could keep -----

  lemma Diverge(q: Path, x: Path, y: Path, c: Path, d: Path, g: Path)
    requires |c| == |g| + 1 && |d| == |g| + 1 && Parent(c) == g && Parent(d) == g && c != d
    requires c <= x && d <= y && q <= x && q <= y
    ensures q <= g
  {
    assert c == x[..|g| + 1] && d == y[..|g| + 1];
  }

  /** What is under one child is not above what is under another. */
  lemma NotAcross(x: Path, y: Path, c: Path, d: Path, g: Path)
    requires |c| == |g| + 1 && |d| == |g| + 1 && c != d && c <= x && d <= y
    ensures !AtOrUnder(x, y)
  {
    assert c == x[..|g| + 1] && d == y[..|g| + 1];
  }

  /** Two lists, each of one child's entries or of other children's, are listable together. */
  lemma SumListable(a: seq<Path>, b: seq<Path>, g: Path, others: seq<Path>, d: Path)
    requires Listable(a) && Listable(b)
    requires |d| == |g| + 1 && Parent(d) == g && forall c | c in others :: |c| == |g| + 1 && Parent(c) == g && c != d
    requires forall x | x in a :: exists c | c in others :: AtOrUnder(x, c)
    requires forall y | y in b :: AtOrUnder(y, d)
    ensures Listable(a + b)
  {
    var list := a + b;
    forall i | 0 <= i < |list| ensures AtOrUnder(list[i], g) {
      if i < |a| {
        assert list[i] in a;
        var c :| c in others && AtOrUnder(list[i], c);
        assert g <= c;
      } else {
        assert list[i] in b;
        assert g <= d;
      }
    }
    forall q, i, j | 0 <= i < |a| <= j < |list| && AtOrUnder(list[i], q) && AtOrUnder(list[j], q) ensures q <= g {
      assert list[i] in a && list[j] in b;
      var c :| c in others && AtOrUnder(list[i], c);
      Diverge(q, list[i], list[j], c, d, g);
    }
    SumTogether(a, b, g);
    forall i, j | 0 <= j < |a| <= i < |list| ensures !AtOrUnder(list[j], list[i]) {
      assert list[j] in a && list[i] in b;
      var c :| c in others && AtOrUnder(list[j], c);
      NotAcross(list[j], list[i], c, d, g);
    }
    SumAhead(a, b);
  }

  lemma SumAhead(a: seq<Path>, b: seq<Path>)
    requires FoldersAhead(a) && FoldersAhead(b)
    requires forall i, j | 0 <= j < |a| <= i < |a + b| :: !AtOrUnder((a + b)[j], (a + b)[i])
    ensures FoldersAhead(a + b)
  {
    var list := a + b;
    forall i, j | 0 <= i < |list| && 0 <= j < |list| && AtOrUnder(list[j], list[i]) ensures i <= j {
      if i < |a| && j < |a| {
        assert a[i] == list[i] && a[j] == list[j];
      } else if i >= |a| && j >= |a| {
        assert b[i - |a|] == list[i] && b[j - |a|] == list[j];
      }
    }
  }

  lemma SumTogether(a: seq<Path>, b: seq<Path>, g: Path)
    requires Together(a) && Together(b)
    requires forall i | 0 <= i < |a + b| :: AtOrUnder((a + b)[i], g)
    requires forall q, i, j | 0 <= i < |a| <= j < |a + b| && AtOrUnder((a + b)[i], q) && AtOrUnder((a + b)[j], q) :: q <= g
    ensures Together(a + b)
  {
    var list := a + b;
    forall q, i, j, k | q != ROOT && 0 <= i < j < k < |list| && AtOrUnder(list[i], q) && AtOrUnder(list[k], q)
      ensures AtOrUnder(list[j], q)
    {
      if k < |a| {
        assert a[i] == list[i] && a[j] == list[j] && a[k] == list[k];
      } else if i >= |a| {
        assert b[i - |a|] == list[i] && b[j - |a|] == list[j] && b[k - |a|] == list[k];
      } else {
        assert q <= g && AtOrUnder(list[j], g);
      }
    }
  }

  /** The entries of one group are together and folders ahead, whatever the tree. */
  lemma {:induction false} FlatListable(nodes: Nodes, c: Path)
    requires AllGroupsOk(nodes)
    ensures Listable(FlatAt(nodes, c))
    decreases Below(nodes, c), 1, 0
  {
    if c in nodes && nodes[c].Group? {
      var node := nodes[c];
      assert GroupOk(nodes, c, node);
      FlatListListable(nodes, c, node.children);
      var list := FlatList(nodes, c, node.children);
      forall x | x in list ensures c < x {
        FlatListHas(nodes, c, node.children, x);
      }
      if node.folder.Some? {
        HeadListable(c, list);
      }
    }
  }

  lemma HeadListable(c: Path, list: seq<Path>)
    requires Listable(list) && forall x | x in list :: c < x
    ensures Listable([c] + list)
  {
    var all := [c] + list;
    forall i | 0 < i < |all| ensures all[i] == list[i - 1] && all[i] in list {
    }
    forall q, i, j, k | q != ROOT && 0 <= i < j < k < |all| && AtOrUnder(all[i], q) && AtOrUnder(all[k], q)
      ensures AtOrUnder(all[j], q)
    {
      if i > 0 {
        assert AtOrUnder(list[i - 1], q) && AtOrUnder(list[k - 1], q);
        assert AtOrUnder(list[j - 1], q);
      } else {
        assert c < all[j];
      }
    }
    forall i, j | 0 <= i < |all| && 0 <= j < |all| && AtOrUnder(all[j], all[i]) ensures i <= j {
      if i > 0 && j > 0 {
        assert AtOrUnder(list[j - 1], list[i - 1]);
      }
    }
  }

  ghost predicate ChildrenOf(g: Path, children: seq<Path>) {
    Distinct(children) && forall c | c in children :: |c| == |g| + 1 && Parent(c) == g
  }

  lemma {:induction false} FlatListListable(nodes: Nodes, g: Path, children: seq<Path>)
    requires AllGroupsOk(nodes) && ChildrenOf(g, children)
    ensures Listable(FlatList(nodes, g, children))
    decreases Below(nodes, g), 0, |children|
  {
    if children != [] {
      var (rest, last) := (children[..|children| - 1], children[|children| - 1]);
      FlatListListable(nodes, g, rest);
      assert last in children && g < last;
      if last in nodes {
        BelowShrinks(nodes, g, last);
        FlatListable(nodes, last);
        var (a, b) := (FlatList(nodes, g, rest), FlatAt(nodes, last));
        forall x | x in a ensures exists c | c in rest :: AtOrUnder(x, c) {
          FlatListHas(nodes, g, rest, x);
          var c :| c in rest && c <= x;
          assert AtOrUnder(x, c);
        }
        forall y | y in b ensures AtOrUnder(y, last) {
          FlatHas(nodes, last, y);
        }
        SumListable(a, b, g, rest, last);
      }
    }
  }

  /** The list of any tree is one the kernel could keep. */
  lemma TreeIsListable(nodes: Nodes)
    requires AllGroupsOk(nodes)
    ensures Listable(Flat(nodes))
  {
    FlatListable(nodes, ROOT);
  }

  // ----- Where an entry goes in a group it is first in -----

  function Next(g: Path, p: Path): Path
    requires g < p
  {
    p[..|g| + 1]
  }

  /** Nothing under a group is ahead of a path to be added. */
  ghost predicate FirstIn(nodes: Nodes, g: Path, p: Path)
    requires g <= p && g in nodes && nodes[g].Group?
    decreases |p| - |g|, 0
  {
    g < p ==>
      var c := Next(g, p);
      (c in nodes[g].children ==> nodes[g].children[0] == c) && First(nodes, c, p)
  }

  /** Nothing at or under a group is ahead of a path to be added. */
  ghost predicate First(nodes: Nodes, g: Path, p: Path)
    requires g <= p
    decreases |p| - |g|, 1
  {
    g in nodes ==> nodes[g].Group? && nodes[g].folder.None? && FirstIn(nodes, g, p)
  }

  /** What adding leaves alone: everything at and under a path off the way to the new one. */
  lemma AddedElsewhere(nodes: Nodes, seeds: Seeds, entry: Entry, after: Option<Path>, c: Path)
    requires !(c <= entry.Path())
    ensures AlikeAt(nodes, Added(nodes, seeds, entry, after), c)
  {
    forall q | AtOrUnder(q, c)
      ensures (q in nodes <==> q in Added(nodes, seeds, entry, after))
      ensures q in nodes ==> nodes[q] == Added(nodes, seeds, entry, after)[q]
    {
      AddedAt(nodes, seeds, entry, after, q);
    }
  }

  /** Children off the way to the new path keep their lists. */
  lemma OthersList(nodes: Nodes, seeds: Seeds, entry: Entry, after: Option<Path>, g: Path, children: seq<Path>)
    requires forall c | c in children :: !(c <= entry.Path())
    ensures FlatList(nodes, g, children) == FlatList(Added(nodes, seeds, entry, after), g, children)
  {
    var tree := Added(nodes, seeds, entry, after);
    forall c | c in children && g < c ensures AlikeAt(nodes, tree, c) {
      AddedElsewhere(nodes, seeds, entry, after, c);
    }
    FlatListFrame(nodes, tree, g, children);
  }

  lemma OneOnTheWay(g: Path, p: Path, c: Path)
    requires g < p && |c| == |g| + 1 && c <= p
    ensures c == Next(g, p)
  {
  }

  lemma OwnChildren(nodes: Nodes, seeds: Seeds, entry: Entry, after: Option<Path>)
    requires AllGroupsOk(nodes) && entry.Path() in nodes && nodes[entry.Path()].Group?
    ensures forall c | c in nodes[entry.Path()].children :: !(c <= entry.Path())
  {
    assert GroupOk(nodes, entry.Path(), nodes[entry.Path()]);
  }

  /** The new entry's own list: itself, then what was under its path. */
  lemma OwnList(nodes: Nodes, seeds: Seeds, entry: Entry, after: Option<Path>)
    requires AllGroupsOk(nodes) && CanAdd(nodes, entry, after)
    ensures FlatAt(Added(nodes, seeds, entry, after), entry.Path()) == [entry.Path()] + FlatAt(nodes, entry.Path())
  {
    var (p, tree) := (entry.Path(), Added(nodes, seeds, entry, after));
    AddedAt(nodes, seeds, entry, after, p);
    if entry.FolderEntry? && p in nodes {
      OwnChildren(nodes, seeds, entry, after);
      OthersList(nodes, seeds, entry, after, p, nodes[p].children);
    }
    OwnListOf(nodes, tree, seeds, entry);
  }

  lemma OwnListOf(nodes: Nodes, tree: Nodes, seeds: Seeds, entry: Entry)
    requires var p := entry.Path();
             && (p in nodes ==> entry.FolderEntry? && nodes[p].Group? && nodes[p].folder.None?)
             && p in tree && tree[p] == EntryNode(nodes, seeds, entry)
             && (p in nodes ==> FlatList(nodes, p, nodes[p].children) == FlatList(tree, p, nodes[p].children))
    ensures FlatAt(tree, entry.Path()) == [entry.Path()] + FlatAt(nodes, entry.Path())
  {
  }

  lemma PlaceFirst(children: seq<Path>, c: Path)
    requires Distinct(children)
    ensures PlaceChild(children, c, None) == [c] + Without(children, c)
  {
    PlaceChildIs(children, c, None);
  }

  /** The children of a group above the new path, as a list around the way to it. */
  lemma ListedFirst(nodes: Nodes, seeds: Seeds, entry: Entry, after: Option<Path>, g: Path)
    requires AllGroupsOk(nodes) && CanAdd(nodes, entry, after)
    requires g < entry.Path() && BesideIn(g, after) == None
    ensures var (tree, c) := (Added(nodes, seeds, entry, after), Next(g, entry.Path()));
            && GroupAt(nodes, seeds, g).Group?
            && g in tree && tree[g].Group? && tree[g].folder == GroupAt(nodes, seeds, g).folder
            && tree[g].children == [c] + Without(GroupAt(nodes, seeds, g).children, c)
  {
    AddedAt(nodes, seeds, entry, after, g);
    GroupAbove(nodes, seeds, entry, after, g);
    PlaceFirst(GroupAt(nodes, seeds, g).children, Next(g, entry.Path()));
  }

  lemma FirstChildList(nodes: Nodes, g: Path, children: seq<Path>)
    requires children != [] && g < children[0] && children[0] in nodes
    ensures FlatList(nodes, g, children) == FlatAt(nodes, children[0]) + FlatList(nodes, g, children[1..])
  {
    FlatListSum(nodes, g, [children[0]], children[1..]);
    FlatListOne(nodes, g, children[0]);
    assert children == [children[0]] + children[1..];
  }

  lemma WithoutFirst(children: seq<Path>)
    requires children != []
    ensures Without(children, children[0]) == children[1..]
  {
    assert IndexOf(children, children[0]) == 0;
    assert children[..0] + children[1..] == children[1..];
  }

  /** The list of a group whose first child, if listed, is on the way. */
  lemma ListWithout(nodes: Nodes, g: Path, c: Path, children: seq<Path>)
    requires ChildrenOf(g, children) && |c| == |g| + 1 && Parent(c) == g
    requires c in nodes <==> c in children
    requires c in children ==> children[0] == c
    ensures FlatList(nodes, g, children) == FlatAt(nodes, c) + FlatList(nodes, g, Without(children, c))
  {
    if c in children {
      FirstChildList(nodes, g, children);
      WithoutFirst(children);
    } else {
      assert FlatAt(nodes, c) == [];
    }
  }

  /** Nothing of an entry's siblings is on the way to it. */
  lemma SiblingsElsewhere(g: Path, p: Path, children: seq<Path>)
    requires g < p && ChildrenOf(g, children)
    ensures forall c | c in Without(children, Next(g, p)) :: !(c <= p)
  {
    WithoutHas(children, Next(g, p));
    forall c | c in Without(children, Next(g, p)) ensures !(c <= p) {
      if c <= p {
        OneOnTheWay(g, p, c);
      }
    }
  }

  lemma ChildrenAt(nodes: Nodes, seeds: Seeds, g: Path, c: Path)
    requires AllLinked(nodes) && AllGroupsOk(nodes) && GroupAt(nodes, seeds, g).Group?
    requires |c| == |g| + 1 && Parent(c) == g
    ensures ChildrenOf(g, GroupAt(nodes, seeds, g).children)
    ensures c in nodes <==> c in GroupAt(nodes, seeds, g).children
  {
    assert g in nodes ==> GroupOk(nodes, g, nodes[g]);
    assert c in nodes ==> Linked(nodes, c);
  }

  /** What a group listed, around the way to the new entry when nothing is ahead of that. */
  lemma OldList(nodes: Nodes, seeds: Seeds, g: Path, c: Path)
    requires AllLinked(nodes) && AllGroupsOk(nodes) && (g in nodes ==> nodes[g].Group?)
    requires |c| == |g| + 1 && Parent(c) == g && (g in nodes && c in nodes[g].children ==> nodes[g].children[0] == c)
    ensures GroupAt(nodes, seeds, g).Group?
    ensures FlatAt(nodes, c) + FlatList(nodes, g, Without(GroupAt(nodes, seeds, g).children, c)) ==
            if g in nodes then FlatList(nodes, g, nodes[g].children) else []
  {
    var children := GroupAt(nodes, seeds, g).children;
    ChildrenAt(nodes, seeds, g, c);
    ListWithout(nodes, g, c, children);
    if g !in nodes {
      assert FlatList(nodes, g, []) == [];
    }
  }

  /** What a group lists with the new entry first, given the list of the child on the way. */
  lemma NewList(nodes: Nodes, seeds: Seeds, entry: Entry, after: Option<Path>, g: Path)
    requires AllLinked(nodes) && AllGroupsOk(nodes) && CanAdd(nodes, entry, after)
    requires g < entry.Path() && BesideIn(g, after) == None
    ensures GroupAt(nodes, seeds, g).Group?
    ensures var (tree, c) := (Added(nodes, seeds, entry, after), Next(g, entry.Path()));
            && g in tree && tree[g].Group?
            && FlatList(tree, g, tree[g].children) ==
               FlatAt(tree, c) + FlatList(nodes, g, Without(GroupAt(nodes, seeds, g).children, c))
  {
    var (p, tree) := (entry.Path(), Added(nodes, seeds, entry, after));
    GroupAbove(nodes, seeds, entry, after, g);
    ListedFirst(nodes, seeds, entry, after, g);
    NextIsUnder(g, p);
    AddedAt(nodes, seeds, entry, after, Next(g, p));
    FirstChildList(tree, g, tree[g].children);
    ChildrenAt(nodes, seeds, g, Next(g, p));
    SiblingsElsewhere(g, p, GroupAt(nodes, seeds, g).children);
    OthersList(nodes, seeds, entry, after, g, tree[g].children[1..]);
  }

  /** First in the child on the way, the new entry is first in what the group lists. */
  lemma FirstStep(nodes: Nodes, seeds: Seeds, entry: Entry, after: Option<Path>, g: Path)
    requires AllLinked(nodes) && AllGroupsOk(nodes) && CanAdd(nodes, entry, after)
    requires g < entry.Path() && (g in nodes ==> nodes[g].Group?) && BesideIn(g, after) == None
    requires var c := Next(g, entry.Path());
             && (g in nodes && c in nodes[g].children ==> nodes[g].children[0] == c)
             && FlatAt(Added(nodes, seeds, entry, after), c) == [entry.Path()] + FlatAt(nodes, c)
    ensures var tree := Added(nodes, seeds, entry, after);
            && g in tree && tree[g].Group?
            && FlatList(tree, g, tree[g].children) ==
               [entry.Path()] + if g in nodes then FlatList(nodes, g, nodes[g].children) else []
  {
    var (p, c, tree) := (entry.Path(), Next(g, entry.Path()), Added(nodes, seeds, entry, after));
    NewList(nodes, seeds, entry, after, g);
    NextIsUnder(g, p);
    OldList(nodes, seeds, g, c);
    SumOfThree([p], FlatAt(nodes, c), FlatList(nodes, g, Without(GroupAt(nodes, seeds, g).children, c)));
  }

  lemma SumOfThree(a: seq<Path>, b: seq<Path>, c: seq<Path>)
    ensures (a + b) + c == a + (b + c)
  {
  }

  lemma NextFirst(nodes: Nodes, g: Path, p: Path)
    requires AllLinked(nodes) && g < p && (g in nodes ==> nodes[g].Group? && FirstIn(nodes, g, p))
    ensures First(nodes, Next(g, p), p)
    ensures g in nodes && Next(g, p) in nodes[g].children ==> nodes[g].children[0] == Next(g, p)
  {
    NextIsUnder(g, p);
    assert Next(g, p) in nodes ==> Linked(nodes, Next(g, p));
  }

  /** An entry first in a group comes first in the group's list. */
  lemma {:induction false} FirstInserts(nodes: Nodes, seeds: Seeds, entry: Entry, after: Option<Path>, g: Path)
    requires AllLinked(nodes) && AllGroupsOk(nodes) && CanAdd(nodes, entry, after)
    requires g <= entry.Path() && First(nodes, g, entry.Path())
    requires after.Some? ==> !AtOrUnder(after.value, g)
    ensures FlatAt(Added(nodes, seeds, entry, after), g) == [entry.Path()] + FlatAt(nodes, g)
    decreases |entry.Path()| - |g|, 1
  {
    if g == entry.Path() {
      OwnList(nodes, seeds, entry, after);
    } else {
      ListedFirst(nodes, seeds, entry, after, g);
      FirstInInserts(nodes, seeds, entry, after, g);
    }
  }

  /** An entry first in a group, even after the folder the group is, comes first in what the group lists. */
  lemma {:induction false} FirstInInserts(nodes: Nodes, seeds: Seeds, entry: Entry, after: Option<Path>, g: Path)
    requires AllLinked(nodes) && AllGroupsOk(nodes) && CanAdd(nodes, entry, after)
    requires g < entry.Path() && (g in nodes ==> nodes[g].Group? && FirstIn(nodes, g, entry.Path()))
    requires after.Some? ==> !(g < after.value)
    ensures var tree := Added(nodes, seeds, entry, after);
            && g in tree && tree[g].Group?
            && FlatList(tree, g, tree[g].children) ==
               [entry.Path()] + if g in nodes then FlatList(nodes, g, nodes[g].children) else []
    decreases |entry.Path()| - |g|, 0
  {
    var c := Next(g, entry.Path());
    NextIsUnder(g, entry.Path());
    NextFirst(nodes, g, entry.Path());
    FirstInserts(nodes, seeds, entry, after, c);
    FirstStep(nodes, seeds, entry, after, g);
  }

  // ----- Where an entry goes after another -----

  lemma PutInMiddle(a: seq<Path>, b: seq<Path>, c: seq<Path>, p: Path, x: Path)
    requires x !in a && x in b
    ensures PutInList(a + b + c, p, Some(x)) == a + PutInList(b, p, Some(x)) + c
  {
    var i := IndexOf(b, x);
    var list := a + b + c;
    assert list[|a| + i] == x;
    forall j | 0 <= j < |a| + i ensures list[j] != x {
      if j >= |a| {
        assert list[j] == b[j - |a|];
      } else {
        assert list[j] == a[j] && a[j] in a;
      }
    }
    assert IndexOf(list, x) == |a| + i;
  }

  lemma PutAtEnd(a: seq<Path>, b: seq<Path>, p: Path, x: Path)
    requires a != [] && a[|a| - 1] == x && x !in a[..|a| - 1]
    ensures PutInList(a + b, p, Some(x)) == a + [p] + b
  {
    var list := a + b;
    forall j | 0 <= j < |a| - 1 ensures list[j] != x {
      assert list[j] == a[..|a| - 1][j];
    }
    assert list[|a| - 1] == x;
    assert IndexOf(list, x) == |a| - 1;
    assert list[..|a|] == a && list[|a|..] == b;
  }

  /** Whether what a group lists takes an entry after another where the list does. */
  ghost predicate Fits(nodes: Nodes, g: Path, p: Path, a: Path)
    requires g <= p && g <= a
    decreases |p| - |g|
  {
    && g != p && g in nodes && nodes[g].Group?
    && if g == a then FirstIn(nodes, g, p)
       else
         var (b, c, children) := (Next(g, a), Next(g, p), nodes[g].children);
         if b == c then Fits(nodes, c, p, a)
         else FitsBeside(nodes, children, b, c, a) && First(nodes, c, p)
  }

  /** The child after is right after the child before, if listed, and the entry before is the last of its own. */
  ghost predicate FitsBeside(nodes: Nodes, children: seq<Path>, b: Path, c: Path, a: Path) {
    && b in children
    && (c in children ==> IndexOf(children, c) == IndexOf(children, b) + 1)
    && FlatAt(nodes, b) != [] && FlatAt(nodes, b)[|FlatAt(nodes, b)| - 1] == a
  }

  /** An entry after one under the same child leaves the order of the children. */
  lemma SameChildren(nodes: Nodes, seeds: Seeds, entry: Entry, a: Path, g: Path)
    requires AllLinked(nodes) && AllGroupsOk(nodes) && CanAdd(nodes, entry, Some(a))
    requires g < entry.Path() && g < a && Next(g, a) == Next(g, entry.Path())
    ensures var tree := Added(nodes, seeds, entry, Some(a));
            && g in nodes && nodes[g].Group? && g in tree && tree[g].Group? && tree[g].folder == nodes[g].folder
            && tree[g].children == nodes[g].children
            && Next(g, a) in nodes[g].children && Next(g, a) in nodes
  {
    BeforeIsIn(nodes, g, a);
    PlacedAt(nodes, seeds, entry, a, g);
  }

  /** The list around the child that both entries are under. */
  lemma ListAround(nodes: Nodes, tree: Nodes, g: Path, children: seq<Path>, c: Path, p: Path)
    requires ChildrenOf(g, children) && c in children && c in nodes && c in tree && g < p && c == Next(g, p)
    requires forall d | d in children && d != c :: AlikeAt(nodes, tree, d)
    ensures var i := IndexOf(children, c);
            && FlatList(nodes, g, children) ==
               FlatList(nodes, g, children[..i]) + FlatAt(nodes, c) + FlatList(nodes, g, children[i + 1..])
            && FlatList(tree, g, children) ==
               FlatList(nodes, g, children[..i]) + FlatAt(tree, c) + FlatList(nodes, g, children[i + 1..])
  {
    var i := IndexOf(children, c);
    FlatAround(nodes, g, children, i);
    FlatAround(tree, g, children, i);
    forall d | d in children[..i] ensures d in children && d != c {
    }
    forall d | d in children[i + 1..] ensures d in children && d != c {
    }
    FlatListFrame(nodes, tree, g, children[..i]);
    FlatListFrame(nodes, tree, g, children[i + 1..]);
  }

  /** Children off the way to the new entry are alike before and after. */
  lemma OthersAlike(nodes: Nodes, seeds: Seeds, entry: Entry, after: Option<Path>, g: Path, children: seq<Path>)
    requires ChildrenOf(g, children) && g < entry.Path()
    ensures forall d | d in children && d != Next(g, entry.Path()) :: AlikeAt(nodes, Added(nodes, seeds, entry, after), d)
  {
    forall d | d in children && d != Next(g, entry.Path()) ensures AlikeAt(nodes, Added(nodes, seeds, entry, after), d) {
      if d <= entry.Path() {
        OneOnTheWay(g, entry.Path(), d);
      }
      AddedElsewhere(nodes, seeds, entry, after, d);
    }
  }

  /** Of two children only one is above a path. */
  lemma OneAbove(c: Path, d: Path, a: Path)
    requires |c| == |d| && c != d && c <= a
    ensures !(d <= a)
  {
  }

  /** The entry before is in no other child's list, and is not the group's own. */
  lemma NotBefore(nodes: Nodes, g: Path, children: seq<Path>, i: nat, a: Path)
    requires ChildrenOf(g, children) && i < |children| && children[i] <= a
    requires g in nodes
    ensures a !in Head(nodes[g], g) + FlatList(nodes, g, children[..i])
  {
    FlatListHas(nodes, g, children[..i], a);
    assert children[i] in children && g < a;
    forall d | d in children[..i] ensures !(d <= a) {
      assert d in children && d != children[i];
      OneAbove(children[i], d, a);
    }
  }

  /** A list with an entry put in the middle part, whatever the parts are of. */
  lemma SplitPut(list: seq<Path>, put: seq<Path>, x: seq<Path>, b: seq<Path>, c: seq<Path>, y: seq<Path>, p: Path, a: Path)
    requires list == x + b + y && put == x + c + y && c == PutInList(b, p, Some(a)) && a !in x && a in b
    ensures put == PutInList(list, p, Some(a))
  {
    PutInMiddle(x, b, y, p, a);
  }

  /** The list of a group, around its child on the way to a path, before and after. */
  lemma SameParts(nodes: Nodes, seeds: Seeds, entry: Entry, a: Path, g: Path)
    requires AllLinked(nodes) && AllGroupsOk(nodes) && CanAdd(nodes, entry, Some(a))
    requires g < entry.Path() && g < a && Next(g, a) == Next(g, entry.Path())
    ensures var (c, tree) := (Next(g, a), Added(nodes, seeds, entry, Some(a)));
            && g in nodes && nodes[g].Group? && c in nodes[g].children && ChildrenOf(g, nodes[g].children)
            && var i := IndexOf(nodes[g].children, c);
               var x := Head(nodes[g], g) + FlatList(nodes, g, nodes[g].children[..i]);
               var y := FlatList(nodes, g, nodes[g].children[i + 1..]);
               FlatAt(nodes, g) == x + FlatAt(nodes, c) + y && FlatAt(tree, g) == x + FlatAt(tree, c) + y
  {
    var (p, c, tree) := (entry.Path(), Next(g, a), Added(nodes, seeds, entry, Some(a)));
    SameChildren(nodes, seeds, entry, a, g);
    assert GroupOk(nodes, g, nodes[g]);
    var children := nodes[g].children;
    OthersAlike(nodes, seeds, entry, Some(a), g, children);
    AddedAt(nodes, seeds, entry, Some(a), c);
    NextIsUnder(g, p);
    ListAround(nodes, tree, g, children, c, p);
    SumOfFour(Head(nodes[g], g), FlatList(nodes, g, children[..IndexOf(children, c)]), FlatAt(nodes, c),
              FlatList(nodes, g, children[IndexOf(children, c) + 1..]));
    SumOfFour(Head(nodes[g], g), FlatList(nodes, g, children[..IndexOf(children, c)]), FlatAt(tree, c),
              FlatList(nodes, g, children[IndexOf(children, c) + 1..]));
  }

  lemma SumOfFour(a: seq<Path>, b: seq<Path>, c: seq<Path>, d: seq<Path>)
    ensures a + (b + c + d) == (a + b) + c + d
  {
  }

  /** The new entry goes in where it goes in the child that both are under. */
  lemma SameStep(nodes: Nodes, seeds: Seeds, entry: Entry, a: Path, g: Path)
    requires AllLinked(nodes) && AllGroupsOk(nodes) && CanAdd(nodes, entry, Some(a))
    requires g < entry.Path() && g < a && Next(g, a) == Next(g, entry.Path())
    requires var c := Next(g, a);
             FlatAt(Added(nodes, seeds, entry, Some(a)), c) == PutInList(FlatAt(nodes, c), entry.Path(), Some(a))
    ensures FlatAt(Added(nodes, seeds, entry, Some(a)), g) == PutInList(FlatAt(nodes, g), entry.Path(), Some(a))
  {
    var (c, tree) := (Next(g, a), Added(nodes, seeds, entry, Some(a)));
    SameParts(nodes, seeds, entry, a, g);
    EntryInFlat(nodes, c, a);
    SameJoin(nodes, tree, g, IndexOf(nodes[g].children, c), entry.Path(), a);
  }

  lemma SameJoin(nodes: Nodes, tree: Nodes, g: Path, i: nat, p: Path, a: Path)
    requires g in nodes && nodes[g].Group? && ChildrenOf(g, nodes[g].children) && i < |nodes[g].children|
    requires var c := nodes[g].children[i];
             var (x, y) := (Head(nodes[g], g) + FlatList(nodes, g, nodes[g].children[..i]), FlatList(nodes, g, nodes[g].children[i + 1..]));
             && FlatAt(nodes, g) == x + FlatAt(nodes, c) + y && FlatAt(tree, g) == x + FlatAt(tree, c) + y
             && FlatAt(tree, c) == PutInList(FlatAt(nodes, c), p, Some(a)) && a in FlatAt(nodes, c) && c <= a
    ensures FlatAt(tree, g) == PutInList(FlatAt(nodes, g), p, Some(a))
  {
    var c := nodes[g].children[i];
    NotBefore(nodes, g, nodes[g].children, i, a);
    SplitPut(FlatAt(nodes, g), FlatAt(tree, g), Head(nodes[g], g) + FlatList(nodes, g, nodes[g].children[..i]),
             FlatAt(nodes, c), FlatAt(tree, c), FlatList(nodes, g, nodes[g].children[i + 1..]), p, a);
  }

  // ----- After the last entry of the child before -----

  function Rest(children: seq<Path>, b: Path, c: Path): seq<Path>
    requires b in children
    requires c in children ==> IndexOf(children, c) == IndexOf(children, b) + 1
  {
    if c in children then children[IndexOf(children, b) + 2..] else children[IndexOf(children, b) + 1..]
  }

  /** Placing a child beside another that it follows, or new, puts it between the same two lists. */
  lemma PlacedBeside(children: seq<Path>, b: Path, c: Path)
    requires Distinct(children) && b in children && b != c
    requires c in children ==> IndexOf(children, c) == IndexOf(children, b) + 1
    ensures PlaceChild(children, c, Some(b)) == children[..IndexOf(children, b) + 1] + [c] + Rest(children, b, c)
    ensures children == children[..IndexOf(children, b) + 1] + (if c in children then [c] else []) + Rest(children, b, c)
  {
    var i := IndexOf(children, b);
    PlaceChildIs(children, c, Some(b));
    if c in children {
      IndexWithout(children, c, b);
      WithoutHas(children, c);
      PutBetween(children, i, c);
    }
  }

  lemma PutBetween(children: seq<Path>, i: nat, c: Path)
    requires i + 1 < |children| && IndexOf(children, c) == i + 1
    ensures Without(children, c) == children[..i + 1] + children[i + 2..]
    ensures InsertAt(Without(children, c), i + 1, c) == children[..i + 1] + [c] + children[i + 2..]
    ensures children == children[..i + 1] + [c] + children[i + 2..]
  {
    assert c in children && children[i + 1] == c;
    var others := Without(children, c);
    assert others[..i + 1] == children[..i + 1] && others[i + 1..] == children[i + 2..];
  }

  /** A list of children around one that may be listed. */
  lemma ListBeside(nodes: Nodes, g: Path, x: seq<Path>, c: Path, y: seq<Path>, listed: bool)
    requires g < c && (listed <==> c in nodes)
    ensures FlatList(nodes, g, x + (if listed then [c] else []) + y) ==
            FlatList(nodes, g, x) + FlatAt(nodes, c) + FlatList(nodes, g, y)
  {
    if listed {
      FlatListSplit(nodes, g, x, c, y);
    } else {
      assert x + [] + y == x + y;
      FlatListSum(nodes, g, x, y);
    }
  }

  /** What an added entry's group lists once it is placed beside the child `b`. */
  lemma PlacedIn(nodes: Nodes, seeds: Seeds, entry: Entry, a: Path, g: Path)
    requires AllLinked(nodes) && AllGroupsOk(nodes) && CanAdd(nodes, entry, Some(a))
    requires g < entry.Path() && g < a && Next(g, a) != Next(g, entry.Path())
    ensures var (b, c, tree) := (Next(g, a), Next(g, entry.Path()), Added(nodes, seeds, entry, Some(a)));
            && g in nodes && nodes[g].Group? && g in tree && tree[g].Group? && tree[g].folder == nodes[g].folder
            && b in nodes && b in nodes[g].children && ChildrenOf(g, nodes[g].children)
            && (c in nodes <==> c in nodes[g].children) && c in tree
            && tree[g].children == PlaceChild(nodes[g].children, c, Some(b))
  {
    BeforeIsIn(nodes, g, a);
    NextIsUnder(g, entry.Path());
    ChildrenAt(nodes, seeds, g, Next(g, entry.Path()));
    PlacedAt(nodes, seeds, entry, a, g);
  }

  lemma BeforeIsIn(nodes: Nodes, g: Path, a: Path)
    requires AllLinked(nodes) && a in nodes && g < a
    ensures g in nodes && nodes[g].Group? && Next(g, a) in nodes && Next(g, a) in nodes[g].children
  {
    AboveAreGroups(nodes, a, |g|);
    assert a[..|g|] == g;
  }

  lemma PlacedAt(nodes: Nodes, seeds: Seeds, entry: Entry, a: Path, g: Path)
    requires g in nodes && nodes[g].Group? && g < entry.Path() && g < a
    ensures var (c, tree) := (Next(g, entry.Path()), Added(nodes, seeds, entry, Some(a)));
            && g in tree && tree[g].Group? && tree[g].folder == nodes[g].folder && c in tree
            && tree[g].children == PlaceChild(nodes[g].children, c, Some(Next(g, a)))
  {
    AddedAt(nodes, seeds, entry, Some(a), g);
    AddedAt(nodes, seeds, entry, Some(a), Next(g, entry.Path()));
  }

  /** Both lists, around where the new entry goes. */
  lemma BesideParts(nodes: Nodes, seeds: Seeds, entry: Entry, a: Path, g: Path)
    requires AllLinked(nodes) && AllGroupsOk(nodes) && CanAdd(nodes, entry, Some(a))
    requires g < entry.Path() && g < a && Next(g, a) != Next(g, entry.Path())
    requires g in nodes && nodes[g].Group? && FitsBeside(nodes, nodes[g].children, Next(g, a), Next(g, entry.Path()), a)
    ensures var (b, c, tree) := (Next(g, a), Next(g, entry.Path()), Added(nodes, seeds, entry, Some(a)));
            && g in tree && tree[g].Group? && tree[g].folder == nodes[g].folder
            && b in nodes && ChildrenOf(g, nodes[g].children)
            && var x := FlatList(nodes, g, nodes[g].children[..IndexOf(nodes[g].children, b) + 1]);
               var y := FlatList(nodes, g, Rest(nodes[g].children, b, c));
               && FlatList(nodes, g, nodes[g].children) == x + FlatAt(nodes, c) + y
               && FlatList(tree, g, tree[g].children) == x + FlatAt(tree, c) + y
  {
    var (b, c, tree) := (Next(g, a), Next(g, entry.Path()), Added(nodes, seeds, entry, Some(a)));
    PlacedIn(nodes, seeds, entry, a, g);
    var children := nodes[g].children;
    PlacedBeside(children, b, c);
    NextIsUnder(g, entry.Path());
    var (x, y) := (children[..IndexOf(children, b) + 1], Rest(children, b, c));
    ListBeside(nodes, g, x, c, y, c in children);
    ListBeside(tree, g, x, c, y, true);
    forall d | d in x ensures d in children && d != c {
    }
    forall d | d in y ensures d in children && d != c {
    }
    NoneOnTheWay(g, entry.Path(), children, x);
    NoneOnTheWay(g, entry.Path(), children, y);
    OthersList(nodes, seeds, entry, Some(a), g, x);
    OthersList(nodes, seeds, entry, Some(a), g, y);
  }

  lemma NoneOnTheWay(g: Path, p: Path, children: seq<Path>, list: seq<Path>)
    requires g < p && ChildrenOf(g, children) && forall d | d in list :: d in children && d != Next(g, p)
    ensures forall d | d in list :: !(d <= p)
  {
    forall d | d in list ensures !(d <= p) {
      if d <= p { OneOnTheWay(g, p, d); }
    }
  }

  /** A listable list has nothing twice. */
  lemma LastOnce(list: seq<Path>)
    requires Listable(list) && list != []
    ensures list[|list| - 1] !in list[..|list| - 1]
  {
    forall i | 0 <= i < |list| - 1 ensures list[i] != list[|list| - 1] {
      assert list[i] == list[|list| - 1] ==> AtOrUnder(list[i], list[|list| - 1]);
    }
  }

  lemma UpToChild(nodes: Nodes, g: Path, children: seq<Path>, i: nat)
    requires i < |children| && g < children[i] && children[i] in nodes
    ensures FlatList(nodes, g, children[..i + 1]) == FlatList(nodes, g, children[..i]) + FlatAt(nodes, children[i])
  {
    assert children[..i + 1] == children[..i] + [children[i]];
    FlatListSum(nodes, g, children[..i], [children[i]]);
    FlatListOne(nodes, g, children[i]);
  }

  /** Up to the child before, the list ends in the entry before, which is nowhere else in it. */
  lemma EndsInBefore(nodes: Nodes, g: Path, children: seq<Path>, i: nat, a: Path)
    requires AllGroupsOk(nodes) && g in nodes && ChildrenOf(g, children)
    requires i < |children| && children[i] <= a && children[i] in nodes
    requires FlatAt(nodes, children[i]) != [] && FlatAt(nodes, children[i])[|FlatAt(nodes, children[i])| - 1] == a
    ensures var x := Head(nodes[g], g) + FlatList(nodes, g, children[..i + 1]);
            x != [] && x[|x| - 1] == a && a !in x[..|x| - 1]
  {
    NotBefore(nodes, g, children, i, a);
    FlatEndsOnce(nodes, children[i]);
    assert children[i] in children;
    UpToChild(nodes, g, children, i);
    EndOf(Head(nodes[g], g), FlatList(nodes, g, children[..i]), FlatAt(nodes, children[i]),
          FlatList(nodes, g, children[..i + 1]), a);
  }

  lemma FlatEndsOnce(nodes: Nodes, c: Path)
    requires AllGroupsOk(nodes) && FlatAt(nodes, c) != []
    ensures FlatAt(nodes, c)[|FlatAt(nodes, c)| - 1] !in FlatAt(nodes, c)[..|FlatAt(nodes, c)| - 1]
  {
    FlatListable(nodes, c);
    LastOnce(FlatAt(nodes, c));
  }

  lemma EndOf(h: seq<Path>, w: seq<Path>, list: seq<Path>, all: seq<Path>, a: Path)
    requires all == w + list && list != [] && list[|list| - 1] == a && a !in list[..|list| - 1] && a !in h + w
    ensures var x := h + all;
            x != [] && x[|x| - 1] == a && a !in x[..|x| - 1]
  {
    var x := h + all;
    assert x[..|x| - 1] == (h + w) + list[..|list| - 1];
  }

  lemma SplitPutAtEnd(list: seq<Path>, put: seq<Path>, h: seq<Path>, x: seq<Path>, b: seq<Path>, y: seq<Path>, p: Path, a: Path)
    requires list == h + (x + b + y) && put == h + (x + ([p] + b) + y)
    requires h + x != [] && (h + x)[|h + x| - 1] == a && a !in (h + x)[..|h + x| - 1]
    ensures put == PutInList(list, p, Some(a))
  {
    PutAtEnd(h + x, b + y, p, a);
    assert list == (h + x) + (b + y);
    assert put == (h + x) + [p] + (b + y);
  }

  lemma FlatOf(nodes: Nodes, g: Path)
    requires g in nodes && nodes[g].Group?
    ensures FlatAt(nodes, g) == Head(nodes[g], g) + FlatList(nodes, g, nodes[g].children)
  {
  }

  /** First in its child, the new entry goes right after the last entry of the child before. */
  lemma BesideStep(nodes: Nodes, seeds: Seeds, entry: Entry, a: Path, g: Path)
    requires AllLinked(nodes) && AllGroupsOk(nodes) && CanAdd(nodes, entry, Some(a))
    requires g < entry.Path() && g < a && Next(g, a) != Next(g, entry.Path())
    requires g in nodes && nodes[g].Group? && FitsBeside(nodes, nodes[g].children, Next(g, a), Next(g, entry.Path()), a)
    requires FlatAt(Added(nodes, seeds, entry, Some(a)), Next(g, entry.Path())) ==
             [entry.Path()] + FlatAt(nodes, Next(g, entry.Path()))
    ensures FlatAt(Added(nodes, seeds, entry, Some(a)), g) == PutInList(FlatAt(nodes, g), entry.Path(), Some(a))
  {
    var (p, b, c, tree) := (entry.Path(), Next(g, a), Next(g, entry.Path()), Added(nodes, seeds, entry, Some(a)));
    BesideParts(nodes, seeds, entry, a, g);
    BesideJoin(nodes, tree, g, b, c, p, a);
  }

  lemma BesideJoin(nodes: Nodes, tree: Nodes, g: Path, b: Path, c: Path, p: Path, a: Path)
    requires AllGroupsOk(nodes) && g in nodes && nodes[g].Group? && ChildrenOf(g, nodes[g].children)
    requires FitsBeside(nodes, nodes[g].children, b, c, a) && b in nodes && b <= a
    requires g in tree && tree[g].Group? && tree[g].folder == nodes[g].folder
    requires var x := FlatList(nodes, g, nodes[g].children[..IndexOf(nodes[g].children, b) + 1]);
             var y := FlatList(nodes, g, Rest(nodes[g].children, b, c));
             && FlatList(nodes, g, nodes[g].children) == x + FlatAt(nodes, c) + y
             && FlatList(tree, g, tree[g].children) == x + ([p] + FlatAt(nodes, c)) + y
    ensures FlatAt(tree, g) == PutInList(FlatAt(nodes, g), p, Some(a))
  {
    var (i, rest) := (IndexOf(nodes[g].children, b), Rest(nodes[g].children, b, c));
    EndsInBefore(nodes, g, nodes[g].children, i, a);
    BesideEnd(nodes, tree, g, i, c, p, a, rest);
  }

  lemma BesideEnd(nodes: Nodes, tree: Nodes, g: Path, i: nat, c: Path, p: Path, a: Path, rest: seq<Path>)
    requires g in nodes && nodes[g].Group? && g in tree && tree[g].Group? && tree[g].folder == nodes[g].folder
    requires i < |nodes[g].children|
    requires var (x, y) := (FlatList(nodes, g, nodes[g].children[..i + 1]), FlatList(nodes, g, rest));
             && FlatList(nodes, g, nodes[g].children) == x + FlatAt(nodes, c) + y
             && FlatList(tree, g, tree[g].children) == x + ([p] + FlatAt(nodes, c)) + y
    requires var z := Head(nodes[g], g) + FlatList(nodes, g, nodes[g].children[..i + 1]);
             z != [] && z[|z| - 1] == a && a !in z[..|z| - 1]
    ensures FlatAt(tree, g) == PutInList(FlatAt(nodes, g), p, Some(a))
  {
    FlatOf(nodes, g);
    FlatOf(tree, g);
    SplitPutAtEnd(FlatAt(nodes, g), FlatAt(tree, g), Head(nodes[g], g),
                  FlatList(nodes, g, nodes[g].children[..i + 1]), FlatAt(nodes, c), FlatList(nodes, g, rest), p, a);
  }

  /** After the folder the group is, the new entry is first in what the group lists. */
  lemma FolderStep(nodes: Nodes, seeds: Seeds, entry: Entry, a: Path)
    requires AllLinked(nodes) && AllGroupsOk(nodes) && CanAdd(nodes, entry, Some(a))
    requires a < entry.Path() && Fits(nodes, a, entry.Path(), a)
    ensures FlatAt(Added(nodes, seeds, entry, Some(a)), a) == PutInList(FlatAt(nodes, a), entry.Path(), Some(a))
  {
    var (p, tree) := (entry.Path(), Added(nodes, seeds, entry, Some(a)));
    assert nodes[a].folder.Some?;
    ListedFirst(nodes, seeds, entry, Some(a), a);
    FirstInInserts(nodes, seeds, entry, Some(a), a);
    PutAtEnd([a], FlatList(nodes, a, nodes[a].children), p, a);
    SumOfThree([a], [p], FlatList(nodes, a, nodes[a].children));
  }

  lemma NotAboveBefore(g: Path, a: Path, p: Path)
    requires g < a && g < p && Next(g, a) != Next(g, p)
    ensures !AtOrUnder(a, Next(g, p))
  {
  }

  /** Where it fits, an entry added after another goes right after it in the list. */
  lemma {:induction false} FitsInserts(nodes: Nodes, seeds: Seeds, entry: Entry, a: Path, g: Path)
    requires AllLinked(nodes) && AllGroupsOk(nodes) && CanAdd(nodes, entry, Some(a))
    requires g <= entry.Path() && g <= a && Fits(nodes, g, entry.Path(), a)
    ensures FlatAt(Added(nodes, seeds, entry, Some(a)), g) == PutInList(FlatAt(nodes, g), entry.Path(), Some(a))
    decreases |entry.Path()| - |g|
  {
    var p := entry.Path();
    assert g < p;
    if g == a {
      FolderStep(nodes, seeds, entry, a);
    } else if Next(g, a) == Next(g, p) {
      FitsInserts(nodes, seeds, entry, a, Next(g, a));
      SameStep(nodes, seeds, entry, a, g);
    } else {
      NextIsUnder(g, p);
      NotAboveBefore(g, a, p);
      FirstInserts(nodes, seeds, entry, Some(a), Next(g, p));
      BesideStep(nodes, seeds, entry, a, g);
    }
  }
}
