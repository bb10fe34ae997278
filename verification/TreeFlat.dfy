/**
 The tree's list of tasks and folders, and the list the kernel keeps: an entry
 added after another goes right after it in the list.
 */
module TreeFlat {
  import opened Paths
  import opened Orders
  import opened Tree

  // ----- The entries in list order -----

  /** What is under a path. */
  function Below(nodes: Nodes, g: Path): set<Path> {
    set q | q in nodes && g < q
  }

  lemma BelowShrinks(nodes: Nodes, g: Path, c: Path)
    requires g < c && c in nodes
    ensures Below(nodes, c) < Below(nodes, g)
  {
    assert c in Below(nodes, g) && c !in Below(nodes, c);
  }

  /** The entry at a path and those under it, each folder ahead of what is in it. */
  function FlatAt(nodes: Nodes, c: Path): seq<Path>
    decreases Below(nodes, c), 1, 0
  {
    if c !in nodes then []
    else if nodes[c].Task? then [c]
    else Head(nodes[c], c) + FlatList(nodes, c, nodes[c].children)
  }

  /** A folder is an entry of its own. */
  function Head(node: Node, c: Path): seq<Path> {
    if node.Group? && node.folder.Some? then [c] else []
  }

  function FlatList(nodes: Nodes, g: Path, children: seq<Path>): seq<Path>
    decreases Below(nodes, g), 0, |children|
  {
    if children == [] then []
    else
      var last := children[|children| - 1];
      FlatList(nodes, g, children[..|children| - 1]) +
      if g < last && last in nodes then (BelowShrinks(nodes, g, last); FlatAt(nodes, last)) else []
  }

  function Flat(nodes: Nodes): seq<Path> {
    FlatAt(nodes, ROOT)
  }

  // ----- How the lists of children make up the list -----

  lemma {:induction false} FlatListSum(nodes: Nodes, g: Path, a: seq<Path>, b: seq<Path>)
    ensures FlatList(nodes, g, a + b) == FlatList(nodes, g, a) + FlatList(nodes, g, b)
  {
    if b == [] {
      assert a + b == a;
    } else {
      var last := |b| - 1;
      FlatListSum(nodes, g, a, b[..last]);
      assert (a + b)[..|a + b| - 1] == a + b[..last];
    }
  }

  lemma FlatListOne(nodes: Nodes, g: Path, c: Path)
    requires g < c && c in nodes
    ensures FlatList(nodes, g, [c]) == FlatAt(nodes, c)
  {
    assert FlatList(nodes, g, []) == [];
    assert [c][..0] == [];
  }

  lemma FlatListSplit(nodes: Nodes, g: Path, a: seq<Path>, c: Path, b: seq<Path>)
    requires g < c && c in nodes
    ensures FlatList(nodes, g, a + [c] + b) == FlatList(nodes, g, a) + FlatAt(nodes, c) + FlatList(nodes, g, b)
  {
    FlatListSum(nodes, g, a + [c], b);
    FlatListSum(nodes, g, a, [c]);
    FlatListOne(nodes, g, c);
  }

  /** The list of a group around one of its children. */
  lemma FlatAround(nodes: Nodes, g: Path, children: seq<Path>, i: nat)
    requires i < |children| && g < children[i] && children[i] in nodes
    ensures FlatList(nodes, g, children) ==
            FlatList(nodes, g, children[..i]) + FlatAt(nodes, children[i]) + FlatList(nodes, g, children[i + 1..])
  {
    assert children == children[..i] + [children[i]] + children[i + 1..];
    FlatListSplit(nodes, g, children[..i], children[i], children[i + 1..]);
  }

  // ----- What the list has -----

  lemma {:induction false} FlatHas(nodes: Nodes, c: Path, x: Path)
    ensures x in FlatAt(nodes, c) ==> x in nodes && c <= x && IsEntry(nodes[x])
    decreases Below(nodes, c), 1, 0
  {
    if c in nodes && nodes[c].Group? {
      FlatListHas(nodes, c, nodes[c].children, x);
    }
  }

  lemma {:induction false} FlatListHas(nodes: Nodes, g: Path, children: seq<Path>, x: Path)
    ensures x in FlatList(nodes, g, children) ==>
              x in nodes && g < x && IsEntry(nodes[x]) && exists c | c in children :: c <= x
    decreases Below(nodes, g), 0, |children|
  {
    if children != [] {
      var (rest, last) := (children[..|children| - 1], children[|children| - 1]);
      FlatListHas(nodes, g, rest, x);
      if x in FlatList(nodes, g, rest) {
        var c :| c in rest && c <= x;
        assert c in children;
      } else if g < last && last in nodes {
        BelowShrinks(nodes, g, last);
        FlatHas(nodes, last, x);
        assert last in children;
      }
    }
  }

  /** Every entry at or under a path is in its list. */
  lemma {:induction false} EntryInFlat(nodes: Nodes, c: Path, x: Path)
    requires AllLinked(nodes) && AllGroupsOk(nodes) && x in nodes && IsEntry(nodes[x]) && c <= x
    ensures x in FlatAt(nodes, c)
    decreases |x| - |c|
  {
    if c == x {
    } else {
      assert x[..|c|] == c;
      AboveAreGroups(nodes, x, |c|);
      var d := x[..|c| + 1];
      EntryInFlat(nodes, d, x);
      var i := IndexOf(nodes[c].children, d);
      assert GroupOk(nodes, c, nodes[c]);
      FlatAround(nodes, c, nodes[c].children, i);
    }
  }

  /** There is an entry at or under every node but the root. */
  lemma {:induction false} FlatNotEmpty(nodes: Nodes, c: Path)
    requires AllGroupsOk(nodes) && c in nodes && c != ROOT
    ensures FlatAt(nodes, c) != []
    decreases Below(nodes, c)
  {
    if nodes[c].Group? && nodes[c].folder.None? {
      assert GroupOk(nodes, c, nodes[c]);
      var d := nodes[c].children[0];
      assert d in nodes[c].children;
      assert Parent(d) == c && c < d;
      BelowShrinks(nodes, c, d);
      FlatNotEmpty(nodes, d);
      FlatAround(nodes, c, nodes[c].children, 0);
    }
  }

  /** Trees alike at and under a path. */
  ghost predicate AlikeAt(a: Nodes, b: Nodes, c: Path) {
    forall q | AtOrUnder(q, c) :: (q in a <==> q in b) && (q in a ==> a[q] == b[q])
  }

  lemma AlikeUnder(a: Nodes, b: Nodes, c: Path, d: Path)
    requires AlikeAt(a, b, c) && c <= d
    ensures AlikeAt(a, b, d)
  {
    forall q | AtOrUnder(q, d) ensures (q in a <==> q in b) && (q in a ==> a[q] == b[q]) {
      assert AtOrUnder(q, c);
    }
  }

  /** Trees alike at and under a path have the same list there. */
  lemma {:induction false} FlatFrame(a: Nodes, b: Nodes, c: Path)
    requires AlikeAt(a, b, c)
    ensures FlatAt(a, c) == FlatAt(b, c)
    decreases Below(a, c), 1, 0
  {
    assert AtOrUnder(c, c);
    if c in a && a[c].Group? {
      forall d | d in a[c].children && c < d ensures AlikeAt(a, b, d) {
        AlikeUnder(a, b, c, d);
      }
      FlatListFrame(a, b, c, a[c].children);
    }
  }

  lemma {:induction false} FlatListFrame(a: Nodes, b: Nodes, g: Path, children: seq<Path>)
    requires forall c | c in children && g < c :: AlikeAt(a, b, c)
    ensures FlatList(a, g, children) == FlatList(b, g, children)
    decreases Below(a, g), 0, |children|
  {
    if children != [] {
      var last := children[|children| - 1];
      FlatListFrame(a, b, g, children[..|children| - 1]);
      if g < last {
        assert last in children && AtOrUnder(last, last);
        if last in a {
          BelowShrinks(a, g, last);
          FlatFrame(a, b, last);
        }
      }
    }
  }

  // ----- A list the kernel could keep -----

  /** Each group's entries are together. */
  ghost predicate Together(list: seq<Path>) {
    forall q, i, j, k | q != ROOT && 0 <= i < j < k < |list| && AtOrUnder(list[i], q) && AtOrUnder(list[k], q) ::
      AtOrUnder(list[j], q)
  }

  /** Each folder is ahead of what is in it. */
  ghost predicate FoldersAhead(list: seq<Path>) {
    forall i, j | 0 <= i < |list| && 0 <= j < |list| && AtOrUnder(list[j], list[i]) :: i <= j
  }

  ghost predicate Listable(list: seq<Path>) {
    Together(list) && FoldersAhead(list)
  }

  /** Any part of such a list is one. */
  lemma PartListable(list: seq<Path>, a: seq<Path>, part: seq<Path>, b: seq<Path>)
    requires Listable(list) && list == a + part + b
    ensures Listable(part)
  {
    forall i | 0 <= i < |part| ensures part[i] == list[|a| + i] {
    }
    forall q, i, j, k | q != ROOT && 0 <= i < j < k < |part| && AtOrUnder(part[i], q) && AtOrUnder(part[k], q)
      ensures AtOrUnder(part[j], q)
    {
      assert AtOrUnder(list[|a| + i], q) && AtOrUnder(list[|a| + k], q);
      assert AtOrUnder(list[|a| + j], q);
    }
    forall i, j | 0 <= i < |part| && 0 <= j < |part| && AtOrUnder(part[j], part[i]) ensures i <= j {
      var (m, n) := (|a| + i, |a| + j);
      assert 0 <= m < |list| && 0 <= n < |list| && AtOrUnder(list[n], list[m]);
    }
  }
}
