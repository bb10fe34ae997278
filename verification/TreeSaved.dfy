/**
 How the groups are shown survives a save: a tree that starts from the saved
 flags, and lists the same entries, shows the same rows.
 */
module TreeSaved {
  import opened Paths
  import opened Specs
  import opened Tree
  import opened TreeAdd
  import opened TreeFlat
  import opened TreeWhere
  import opened TreeRows

  // ----- Trees with the same list have the same groups in the same order -----

  /** Both are tasks, or both are groups with the same children, folders both or neither. */
  predicate SameNode(a: Node, b: Node) {
    if a.Task? then b.Task?
    else b.Group? && b.children == a.children && (b.folder.Some? <==> a.folder.Some?)
  }

  ghost predicate SameKinds(a: Nodes, b: Nodes) {
    forall x | x in a && x in b && IsEntry(a[x]) && IsEntry(b[x]) :: a[x].Task? == b[x].Task?
  }

  lemma OnEitherSide(x: seq<Path>, i: nat, b: seq<Path>, j: nat, c: Path)
    requires (forall s | s in x :: c <= s) && (forall s | s in b :: !(c <= s)) && i < |x| && j < |b|
    ensures x[i] != b[j]
  {
    assert x[i] in x && b[j] in b;
  }

  lemma NotShorter(a: seq<Path>, x: seq<Path>, b: seq<Path>, y: seq<Path>, c: Path)
    requires a + x == b + y && (forall s | s in x :: c <= s) && (forall s | s in b :: !(c <= s))
    ensures |a| >= |b|
  {
    if |a| < |b| {
      assert (a + x)[|a|] == x[0] && (b + y)[|a|] == b[|a|];
      OnEitherSide(x, 0, b, |a|, c);
    }
  }

  lemma SplitAtUnder(a: seq<Path>, x: seq<Path>, b: seq<Path>, y: seq<Path>, c: Path)
    requires a + x == b + y
    requires (forall s | s in a :: !(c <= s)) && (forall s | s in x :: c <= s)
    requires (forall s | s in b :: !(c <= s)) && (forall s | s in y :: c <= s)
    ensures a == b && x == y
  {
    NotShorter(a, x, b, y, c);
    NotShorter(b, y, a, x, c);
    assert a == (a + x)[..|a|] && b == (b + y)[..|b|];
    assert x == (a + x)[|a|..] && y == (b + y)[|b|..];
  }

  /** What the last child of a list lists comes last. */
  lemma LastParts(nodes: Nodes, g: Path, children: seq<Path>)
    requires Listing(nodes, g, children) && children != []
    ensures var (rest, last) := (children[..|children| - 1], children[|children| - 1]);
            && FlatList(nodes, g, children) == FlatList(nodes, g, rest) + FlatAt(nodes, last)
            && FlatAt(nodes, last) != []
            && (forall s | s in FlatList(nodes, g, rest) :: !(last <= s))
            && (forall s | s in FlatAt(nodes, last) :: last <= s)
            && Listing(nodes, g, rest) && last in nodes && |last| == |g| + 1
  {
    var (rest, last) := (children[..|children| - 1], children[|children| - 1]);
    assert last in children && g < last;
    assert children[0..|children| - 1] == rest;
    PartListing(nodes, g, children, 0, |children| - 1);
    forall s | s in FlatList(nodes, g, rest) ensures !(last <= s) {
      NoneUnder(nodes, g, rest, last, s);
    }
    forall s | s in FlatAt(nodes, last) ensures last <= s {
      FlatHas(nodes, last, s);
    }
  }

  lemma SameLastChild(a: Nodes, b: Nodes, g: Path, inA: seq<Path>, inB: seq<Path>)
    requires Listing(a, g, inA) && Listing(b, g, inB) && FlatList(a, g, inA) == FlatList(b, g, inB)
    requires inA != [] && inB != []
    ensures inA[|inA| - 1] == inB[|inB| - 1] && FlatAt(a, inA[|inA| - 1]) == FlatAt(b, inA[|inA| - 1])
    ensures FlatList(a, g, inA[..|inA| - 1]) == FlatList(b, g, inB[..|inB| - 1])
    ensures Listing(a, g, inA[..|inA| - 1]) && Listing(b, g, inB[..|inB| - 1])
  {
    var (c, d) := (inA[|inA| - 1], inB[|inB| - 1]);
    var (restA, restB) := (FlatList(a, g, inA[..|inA| - 1]), FlatList(b, g, inB[..|inB| - 1]));
    LastParts(a, g, inA);
    LastParts(b, g, inB);
    SameLast(restA, FlatAt(a, c), restB, FlatAt(b, d), c, d);
    SplitAtUnder(restA, FlatAt(a, c), restB, FlatAt(b, c), c);
  }

  lemma OneMore(a: Nodes, b: Nodes, inA: seq<Path>, inB: seq<Path>, rest: seq<Path>)
    requires inA != [] && inB != [] && rest == inA[..|inA| - 1] == inB[..|inB| - 1]
    requires inA[|inA| - 1] == inB[|inB| - 1] && FlatAt(a, inA[|inA| - 1]) == FlatAt(b, inA[|inA| - 1])
    requires forall c | c in rest :: FlatAt(a, c) == FlatAt(b, c)
    ensures inA == inB && forall c | c in inA :: FlatAt(a, c) == FlatAt(b, c)
  {
    assert inA == rest + [inA[|inA| - 1]] && inB == rest + [inA[|inA| - 1]];
  }

  /** Under one group, the list tells the children and what each of them lists. */
  lemma {:induction false} ListTellsChildren(a: Nodes, b: Nodes, g: Path, inA: seq<Path>, inB: seq<Path>)
    requires Listing(a, g, inA) && Listing(b, g, inB) && FlatList(a, g, inA) == FlatList(b, g, inB)
    ensures inA == inB
    ensures forall c | c in inA :: FlatAt(a, c) == FlatAt(b, c)
    decreases |inA|
  {
    if inA == [] || inB == [] {
      if inA != [] { ListNotEmpty(a, g, inA); }
      if inB != [] { ListNotEmpty(b, g, inB); }
    } else {
      SameLastChild(a, b, g, inA, inB);
      var (restA, restB) := (inA[..|inA| - 1], inB[..|inB| - 1]);
      ListTellsChildren(a, b, g, restA, restB);
      OneMore(a, b, inA, inB, restA);
    }
  }

  lemma SameLast(a: seq<Path>, x: seq<Path>, b: seq<Path>, y: seq<Path>, c: Path, d: Path)
    requires a + x == b + y && x != [] && y != [] && |c| == |d|
    requires (forall s | s in x :: c <= s) && (forall s | s in y :: d <= s)
    ensures c == d
  {
    var last := (a + x)[|a + x| - 1];
    assert last == x[|x| - 1] == y[|y| - 1];
    assert last in x && last in y;
    assert c == last[..|c|] == d;
  }

  /** A node lists itself exactly as an entry. */
  lemma OwnEntry(nodes: Nodes, c: Path)
    requires c in nodes
    ensures c in FlatAt(nodes, c) <==> IsEntry(nodes[c])
  {
    EntryOf(nodes, c);
    if nodes[c].Group? && c in FlatList(nodes, c, nodes[c].children) {
      FlatListHas(nodes, c, nodes[c].children, c);
    }
  }

  lemma SameListSameNode(a: Nodes, b: Nodes, c: Path)
    requires AllGroupsOk(a) && AllGroupsOk(b) && SameKinds(a, b) && c in a && c in b
    requires FlatAt(a, c) == FlatAt(b, c) && (c == ROOT ==> a[c].Group? && b[c].Group?)
    ensures SameNode(a[c], b[c])
    ensures a[c].Group? ==> forall d | d in a[c].children :: FlatAt(a, d) == FlatAt(b, d)
  {
    NotTaskAndPlain(a, b, c);
    NotTaskAndPlain(b, a, c);
    if a[c].Group? {
      SameListSameGroup(a, b, c);
    }
  }

  lemma SameListSameGroup(a: Nodes, b: Nodes, c: Path)
    requires AllGroupsOk(a) && AllGroupsOk(b) && c in a && c in b && a[c].Group? && b[c].Group? && FlatAt(a, c) == FlatAt(b, c)
    ensures SameNode(a[c], b[c]) && forall d | d in a[c].children :: FlatAt(a, d) == FlatAt(b, d)
  {
    OwnEntry(a, c);
    OwnEntry(b, c);
    EntryOf(a, c);
    EntryOf(b, c);
    GroupListing(a, c);
    GroupListing(b, c);
    SameTail(if IsEntry(a[c]) then [c] else [], FlatList(a, c, a[c].children), FlatList(b, c, b[c].children));
    ListTellsChildren(a, b, c, a[c].children, b[c].children);
  }

  lemma SameTail(h: seq<Path>, a: seq<Path>, b: seq<Path>)
    requires h + a == h + b
    ensures a == b
  {
    assert a == (h + a)[|h|..] && b == (h + b)[|h|..];
  }

  /** A task is not a plain group by its list. */
  lemma NotTaskAndPlain(a: Nodes, b: Nodes, c: Path)
    requires c in a && c in b && FlatAt(a, c) == FlatAt(b, c) && SameKinds(a, b)
    ensures a[c].Task? ==> b[c].Task?
  {
    OwnEntry(a, c);
    OwnEntry(b, c);
  }

  /** Trees that list the same entries have the same nodes. */
  lemma {:induction false} SameListSameTree(a: Nodes, b: Nodes, q: Path)
    requires WellFormed(a) && WellFormed(b) && SameKinds(a, b) && Flat(a) == Flat(b) && q in a && ROOT in b
    ensures q in b && SameNode(a[q], b[q]) && FlatAt(a, q) == FlatAt(b, q)
    decreases |q|
  {
    if q == ROOT {
      assert TaskOk(ROOT, a[ROOT]) && TaskOk(ROOT, b[ROOT]);
    } else {
      assert Linked(a, q);
      SameListSameTree(a, b, Parent(q));
      SameListSameNode(a, b, Parent(q));
      assert GroupOk(b, Parent(q), b[Parent(q)]);
    }
    SameListSameNode(a, b, q);
  }

  // ----- Saving, and starting from what was saved -----

  /** The flags a save keeps: each folder's, and of the other groups each closed one. */
  function Saved(nodes: Nodes): Seeds {
    map q | q in nodes && q != ROOT && nodes[q].Group? && (nodes[q].collapsed || nodes[q].folder.Some?) ::
      nodes[q].collapsed
  }

  /** Each flag is taken once, by the group an add makes. */
  function SeedsLeft(nodes: Nodes, seeds: Seeds, entry: Entry): Seeds {
    map g | g in seeds && !(g !in nodes && (g < entry.Path() || (g == entry.Path() && entry.FolderEntry?))) :: seeds[g]
  }

  datatype Addition = Addition(entry: Entry, after: Option<Path>)

  datatype Replay = Replay(nodes: Nodes, seeds: Seeds)

  /** Entries added one by one to an empty tree that starts with the flags. */
  function Replayed(seeds: Seeds, adds: seq<Addition>): Replay {
    if adds == [] then Replay(map[], seeds)
    else
      var (was, add) := (Replayed(seeds, adds[..|adds| - 1]), adds[|adds| - 1]);
      Replay(Added(was.nodes, was.seeds, add.entry, add.after), SeedsLeft(was.nodes, was.seeds, add.entry))
  }

  ghost predicate CanReplay(seeds: Seeds, adds: seq<Addition>) {
    adds != [] ==>
      && CanReplay(seeds, adds[..|adds| - 1])
      && CanAdd(Replayed(seeds, adds[..|adds| - 1]).nodes, adds[|adds| - 1].entry, adds[|adds| - 1].after)
  }

  /** A group is shown as saved; one that was not saved, and is no folder, is open. */
  predicate ShownAs(seeds: Seeds, q: Path, node: Node) {
    node.Group? ==>
      && (q in seeds ==> node.collapsed == seeds[q])
      && (q !in seeds && node.folder.None? ==> !node.collapsed)
  }

  ghost predicate AllShownAs(seeds: Seeds, state: Replay) {
    && (forall q | q in state.nodes :: ShownAs(seeds, q, state.nodes[q]))
    && (forall q | q !in state.nodes :: (q in state.seeds <==> q in seeds) && (q in seeds ==> state.seeds[q] == seeds[q]))
  }

  lemma AddShows(seeds: Seeds, was: Replay, entry: Entry, after: Option<Path>, q: Path)
    requires AllShownAs(seeds, was) && CanAdd(was.nodes, entry, after) && AllGroupsOk(was.nodes)
    requires q in Added(was.nodes, was.seeds, entry, after)
    ensures ShownAs(seeds, q, Added(was.nodes, was.seeds, entry, after)[q])
  {
    AddedAt(was.nodes, was.seeds, entry, after, q);
    assert q in was.nodes ==> ShownAs(seeds, q, was.nodes[q]);
    if q < entry.Path() {
      GroupAbove(was.nodes, was.seeds, entry, after, q);
    }
  }

  /**
   What an addition puts at its path, and how groups are shown: one there already as it
   was, and one made by it as saved, or else open but for the folder added, as told.
   */
  lemma AddedIsShown(nodes: Nodes, seeds: Seeds, entry: Entry, after: Option<Path>, q: Path)
    requires CanAdd(nodes, entry, after) && AllGroupsOk(nodes) && q in Added(nodes, seeds, entry, after)
    ensures var node := Added(nodes, seeds, entry, after)[q];
            && (q == entry.Path() ==>
                  if entry.TaskEntry? then node == Task(entry.view) else node.Group? && node.folder == Some(entry.id))
            && (node.Group? ==>
                  node.collapsed ==
                  if q in nodes && nodes[q].Group? then nodes[q].collapsed
                  else if q in seeds then seeds[q]
                  else q == entry.Path() && entry.collapsed)
            && (node.Group? && q != entry.Path() ==> node.folder == if q in nodes && nodes[q].Group? then nodes[q].folder else None)
  {
    AddedAt(nodes, seeds, entry, after, q);
    if q < entry.Path() {
      GroupAbove(nodes, seeds, entry, after, q);
    }
  }

  lemma {:induction false} ReplayShows(seeds: Seeds, adds: seq<Addition>)
    requires CanReplay(seeds, adds)
    ensures AllShownAs(seeds, Replayed(seeds, adds)) && WellFormed(Replayed(seeds, adds).nodes)
    decreases |adds|
  {
    if adds != [] {
      var (was, add) := (Replayed(seeds, adds[..|adds| - 1]), adds[|adds| - 1]);
      ReplayShows(seeds, adds[..|adds| - 1]);
      AddKeepsTree(was.nodes, was.seeds, add.entry, add.after);
      var tree := Added(was.nodes, was.seeds, add.entry, add.after);
      forall q | q in tree ensures ShownAs(seeds, q, tree[q]) {
        AddShows(seeds, was, add.entry, add.after, q);
      }
      forall q | q !in tree
        ensures q !in was.nodes && (q in SeedsLeft(was.nodes, was.seeds, add.entry) <==> q in was.seeds)
      {
        AddedAt(was.nodes, was.seeds, add.entry, add.after, q);
      }
    }
  }

  // ----- The same rows -----

  /** Trees with the same nodes, shown the same. */
  ghost predicate ShownAlike(a: Nodes, b: Nodes) {
    forall q :: AlikeAtNode(a, b, q)
  }

  predicate AlikeAtNode(a: Nodes, b: Nodes, q: Path) {
    && (q in a <==> q in b) && (q in a ==> SameNode(a[q], b[q]))
    && (q in a && q != ROOT && a[q].Group? ==> a[q].collapsed == b[q].collapsed)
  }

  lemma SavedAlike(nodes: Nodes, tree: Nodes, q: Path)
    requires WellFormed(nodes) && WellFormed(tree) && SameKinds(nodes, tree) && Flat(tree) == Flat(nodes)
    requires ROOT in nodes && ROOT in tree && (q in tree ==> ShownAs(Saved(nodes), q, tree[q]))
    ensures AlikeAtNode(nodes, tree, q)
  {
    if q in tree {
      SameListSameTree(tree, nodes, q);
    }
    if q in nodes {
      SameListSameTree(nodes, tree, q);
    }
  }

  lemma {:induction false} SameRowsAt(a: Nodes, b: Nodes, c: Path)
    requires ShownAlike(a, b) && c in a && c != ROOT
    ensures c in b && RowsAt(a, c) == RowsAt(b, c)
    decreases Below(a, c), 1, 0
  {
    assert AlikeAtNode(a, b, c);
    if a[c].Group? {
      SameRowsList(a, b, c, a[c].children);
    }
  }

  lemma {:induction false} SameRowsList(a: Nodes, b: Nodes, g: Path, children: seq<Path>)
    requires ShownAlike(a, b)
    ensures RowsList(a, g, children) == RowsList(b, g, children)
    decreases Below(a, g), 0, |children|
  {
    if children != [] {
      var last := children[|children| - 1];
      assert AlikeAtNode(a, b, last);
      SameRowsList(a, b, g, children[..|children| - 1]);
      if g < last && last in a {
        BelowShrinks(a, g, last);
        SameRowsAt(a, b, last);
      }
    }
  }

  /**
   A tree that starts with the flags saved of another and comes to list the same
   entries, in whatever order they are added, shows its groups and rows the same.
   */
  lemma FoldsSurviveSave(nodes: Nodes, adds: seq<Addition>)
    requires WellFormed(nodes) && CanReplay(Saved(nodes), adds)
    requires Flat(Replayed(Saved(nodes), adds).nodes) == Flat(nodes)
    requires SameKinds(nodes, Replayed(Saved(nodes), adds).nodes)
    requires ROOT in nodes <==> adds != []
    ensures ShownAlike(nodes, Replayed(Saved(nodes), adds).nodes)
    ensures Rows(Replayed(Saved(nodes), adds).nodes) == Rows(nodes)
  {
    var (seeds, tree) := (Saved(nodes), Replayed(Saved(nodes), adds).nodes);
    ReplayShows(seeds, adds);
    ReplayHasRoot(seeds, adds);
    if adds == [] {
      assert nodes == map[];
    } else {
      forall q ensures AlikeAtNode(nodes, tree, q) {
        assert q in tree ==> ShownAs(seeds, q, tree[q]);
        SavedAlike(nodes, tree, q);
      }
      SameRows(nodes, tree);
    }
  }

  lemma ReplayHasRoot(seeds: Seeds, adds: seq<Addition>)
    requires CanReplay(seeds, adds)
    ensures if adds == [] then Replayed(seeds, adds).nodes == map[] else ROOT in Replayed(seeds, adds).nodes
  {
    if adds != [] {
      var (was, add) := (Replayed(seeds, adds[..|adds| - 1]), adds[|adds| - 1]);
      AddedAt(was.nodes, was.seeds, add.entry, add.after, ROOT);
    }
  }

  lemma SameRows(a: Nodes, b: Nodes)
    requires ShownAlike(a, b)
    ensures Rows(a) == Rows(b)
  {
    assert AlikeAtNode(a, b, ROOT);
    if ROOT in a && a[ROOT].Group? {
      SameRowsList(a, b, ROOT, a[ROOT].children);
    }
  }
}
