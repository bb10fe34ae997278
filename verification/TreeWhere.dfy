/**
 When the list with an entry put in is one the kernel could keep, the entry
 goes right where it is put, and only then.
 */
module TreeWhere {
  import opened Paths
  import opened Specs
  import opened Orders
  import opened Tree
  import opened TreeAdd
  import opened TreeFlat
  import opened TreeInsert

  // ----- What a listable list tells -----

  /** Between two entries of a group there is nothing else. */
  lemma Between(list: seq<Path>, w: seq<Path>, x: Path, m: seq<Path>, y: Path, z: seq<Path>, q: Path, s: Path)
    requires Together(list) && list == w + [x] + m + [y] + z && q != ROOT
    requires q <= x && q <= y && s in m
    ensures q <= s
  {
    var j := IndexOf(m, s);
    var (i, k) := (|w|, |w| + 1 + |m|);
    assert list[i] == x && list[i + 1 + j] == s && list[k] == y;
    assert AtOrUnder(list[i], q) && AtOrUnder(list[k], q);
    assert AtOrUnder(list[i + 1 + j], q);
  }

  /** Nothing comes after what is in it. */
  lemma NoneAhead(list: seq<Path>, w: seq<Path>, x: Path, m: seq<Path>, y: Path, z: seq<Path>)
    requires FoldersAhead(list) && list == w + [x] + m + [y] + z
    ensures !(y <= x)
  {
    var (i, k) := (|w|, |w| + 1 + |m|);
    assert list[i] == x && list[k] == y;
    if y <= x {
      assert AtOrUnder(list[i], list[k]);
      assert false;
    }
  }

  /** Each child is in the tree, with something in its list. */
  ghost predicate Listing(nodes: Nodes, g: Path, children: seq<Path>) {
    ChildrenOf(g, children) && forall c | c in children :: c in nodes && FlatAt(nodes, c) != []
  }

  lemma GroupListing(nodes: Nodes, g: Path)
    requires AllGroupsOk(nodes) && g in nodes && nodes[g].Group?
    ensures Listing(nodes, g, nodes[g].children)
  {
    assert GroupOk(nodes, g, nodes[g]);
    forall c | c in nodes[g].children ensures FlatAt(nodes, c) != [] {
      FlatNotEmpty(nodes, c);
    }
  }

  lemma PartListing(nodes: Nodes, g: Path, children: seq<Path>, i: nat, j: nat)
    requires Listing(nodes, g, children) && i <= j <= |children|
    ensures Listing(nodes, g, children[i..j])
  {
    var part := children[i..j];
    forall k | 0 <= k < |part| ensures part[k] == children[i + k] {
    }
    forall k, l | 0 <= k < l < |part| ensures part[k] != part[l] {
      assert children[i + k] != children[i + l];
    }
  }

  lemma {:induction false} ListNotEmpty(nodes: Nodes, g: Path, children: seq<Path>)
    requires Listing(nodes, g, children) && children != []
    ensures FlatList(nodes, g, children) != []
  {
    assert children[0] in children && g < children[0];
    FirstChildList(nodes, g, children);
  }

  lemma NoneUnder(nodes: Nodes, g: Path, children: seq<Path>, c: Path, x: Path)
    requires ChildrenOf(g, children) && |c| == |g| + 1 && c !in children && x in FlatList(nodes, g, children)
    ensures !(c <= x)
  {
    FlatListHas(nodes, g, children, x);
    var d :| d in children && d <= x;
    OneAbove(d, c, x);
  }

  /** Between an entry and another of the same group there is nothing else. */
  lemma NothingBetween(list: seq<Path>, w: seq<Path>, p: Path, x: seq<Path>, y: seq<Path>, z: seq<Path>, c: Path)
    requires Together(list) && list == w + [p] + (x + y + z) && x != [] && y != [] && c != ROOT && c <= p && c <= y[0]
    ensures c <= x[0]
  {
    assert y == [y[0]] + y[1..];
    assert list == w + [p] + x + [y[0]] + (y[1..] + z);
    Between(list, w, p, x, y[0], y[1..] + z, c, x[0]);
  }

  /** What a group lists before, at and after a child that is not the first. */
  lemma NotFirstParts(nodes: Nodes, g: Path, children: seq<Path>, i: nat)
    requires Listing(nodes, g, children) && 0 < i < |children|
    ensures var (x, y, z) := (FlatList(nodes, g, children[..i]), FlatAt(nodes, children[i]), FlatList(nodes, g, children[i + 1..]));
            && FlatList(nodes, g, children) == x + y + z && x != [] && y != [] && children[i] <= y[0] && !(children[i] <= x[0])
  {
    var c := children[i];
    assert c in children && g < c;
    PartListing(nodes, g, children, 0, i);
    ListNotEmpty(nodes, g, children[..i]);
    FlatAround(nodes, g, children, i);
    FlatHas(nodes, c, FlatAt(nodes, c)[0]);
    NoneUnder(nodes, g, children[..i], c, FlatList(nodes, g, children[..i])[0]);
  }

  /** Listed right after a new entry, the child it is under comes first. */
  lemma ChildFirst(nodes: Nodes, g: Path, children: seq<Path>, w: seq<Path>, p: Path, c: Path)
    requires Listing(nodes, g, children) && c in children && c <= p
    requires Together(w + [p] + FlatList(nodes, g, children))
    ensures children[0] == c
  {
    var i := IndexOf(children, c);
    if i > 0 {
      NotFirstParts(nodes, g, children, i);
      NothingBetween(w + [p] + FlatList(nodes, g, children), w, p, FlatList(nodes, g, children[..i]), FlatAt(nodes, c),
                     FlatList(nodes, g, children[i + 1..]), c);
    }
  }

  // ----- First in a group -----

  lemma AboveIsGroup(nodes: Nodes, entry: Entry, after: Option<Path>, g: Path)
    requires CanAdd(nodes, entry, after) && g in nodes && g < entry.Path()
    ensures nodes[g].Group?
  {
    assert entry.Path()[..|g|] == g;
  }

  lemma {:induction false} FirstFrom(nodes: Nodes, entry: Entry, after: Option<Path>, g: Path)
    requires AllLinked(nodes) && AllGroupsOk(nodes) && CanAdd(nodes, entry, after) && g <= entry.Path()
    requires Listable([entry.Path()] + FlatAt(nodes, g))
    ensures First(nodes, g, entry.Path())
    decreases |entry.Path()| - |g|, 1
  {
    var p := entry.Path();
    if g in nodes && g < p {
      AboveIsGroup(nodes, entry, after, g);
      var list := FlatList(nodes, g, nodes[g].children);
      if nodes[g].folder.Some? {
        assert [p] + FlatAt(nodes, g) == [] + [p] + [] + [g] + list;
        NoneAhead([p] + FlatAt(nodes, g), [], p, [], g, list);
      }
      assert FlatAt(nodes, g) == list;
      FirstInFrom(nodes, entry, after, g);
    } else {
      assert g in nodes ==> g == p;
    }
  }

  lemma {:induction false} FirstInFrom(nodes: Nodes, entry: Entry, after: Option<Path>, g: Path)
    requires AllLinked(nodes) && AllGroupsOk(nodes) && CanAdd(nodes, entry, after) && g < entry.Path()
    requires g in nodes && nodes[g].Group?
    requires Listable([entry.Path()] + FlatList(nodes, g, nodes[g].children))
    ensures FirstIn(nodes, g, entry.Path())
    decreases |entry.Path()| - |g|, 0
  {
    var (p, children) := (entry.Path(), nodes[g].children);
    var c := Next(g, p);
    NextIsUnder(g, p);
    ChildrenAt(nodes, map[], g, c);
    if c in children {
      FirstOf(nodes, g, p, c);
      FirstFrom(nodes, entry, after, c);
    }
  }

  /** A listed child on the way to a new entry right ahead of what the group lists is the first one. */
  lemma FirstOf(nodes: Nodes, g: Path, p: Path, c: Path)
    requires AllGroupsOk(nodes) && g in nodes && nodes[g].Group? && c in nodes[g].children && c <= p
    requires Listable([p] + FlatList(nodes, g, nodes[g].children))
    ensures nodes[g].children[0] == c && Listable([p] + FlatAt(nodes, c))
  {
    var children := nodes[g].children;
    GroupListing(nodes, g);
    assert [] + [p] + FlatList(nodes, g, children) == [p] + FlatList(nodes, g, children);
    ChildFirst(nodes, g, children, [], p, c);
    ChildPart(nodes, g, [p] + FlatList(nodes, g, children), [], p, children);
  }

  /** A new entry and what the first child lists are a part of the list. */
  lemma ChildPart(nodes: Nodes, g: Path, list: seq<Path>, w: seq<Path>, p: Path, children: seq<Path>)
    requires Listing(nodes, g, children) && children != []
    requires Listable(list) && list == w + [p] + FlatList(nodes, g, children)
    ensures Listable([p] + FlatAt(nodes, children[0]))
  {
    assert children[0] in children;
    FirstChildList(nodes, g, children);
    FirstPart(list, w, p, FlatAt(nodes, children[0]), FlatList(nodes, g, children[1..]));
  }

  lemma FirstPart(list: seq<Path>, w: seq<Path>, p: Path, a: seq<Path>, b: seq<Path>)
    requires Listable(list) && list == w + [p] + (a + b)
    ensures Listable([p] + a)
  {
    assert list == w + ([p] + a) + b;
    PartListable(list, w, [p] + a, b);
  }

  // ----- After another entry -----

  /** Put right after an entry it is above, an entry would come after what is in it. */
  lemma NotAboveIt(list: seq<Path>, p: Path, a: Path)
    requires a in list && FoldersAhead(PutInList(list, p, Some(a)))
    ensures !(p <= a)
  {
    var i := IndexOf(list, a);
    var put := PutInList(list, p, Some(a));
    assert put == list[..i] + [a] + [] + [p] + list[i + 1..];
    NoneAhead(put, list[..i], a, [], p, list[i + 1..]);
  }

  lemma GroupOnTheWay(nodes: Nodes, entry: Entry, a: Path, g: Path)
    requires AllLinked(nodes) && CanAdd(nodes, entry, Some(a)) && g < entry.Path() && g <= a
    ensures g in nodes && nodes[g].Group?
    ensures g < a ==> Next(g, a) in nodes[g].children && Next(g, a) in nodes
  {
    if g < a {
      AboveAreGroups(nodes, a, |g|);
      assert a[..|g|] == g;
    } else {
      assert g == a;
      AboveIsGroup(nodes, entry, Some(a), g);
    }
  }

  /** What is put after an entry in the middle of a list, is put there in the middle. */
  lemma MiddleListable(list: seq<Path>, x: seq<Path>, b: seq<Path>, y: seq<Path>, p: Path, a: Path)
    requires list == x + b + y && a !in x && a in b && Listable(PutInList(list, p, Some(a)))
    ensures Listable(PutInList(b, p, Some(a)))
  {
    PutInMiddle(x, b, y, p, a);
    PartListable(PutInList(list, p, Some(a)), x, PutInList(b, p, Some(a)), y);
  }

  /** The list of a group around one of its children, and where an entry of the child's is in it. */
  lemma GroupParts(nodes: Nodes, g: Path, c: Path, a: Path)
    requires AllLinked(nodes) && AllGroupsOk(nodes) && g in nodes && nodes[g].Group? && c in nodes[g].children
    requires a in nodes && IsEntry(nodes[a]) && c <= a
    ensures ChildrenOf(g, nodes[g].children) && c in nodes && g < c
    ensures var i := IndexOf(nodes[g].children, c);
            var x := Head(nodes[g], g) + FlatList(nodes, g, nodes[g].children[..i]);
            var y := FlatList(nodes, g, nodes[g].children[i + 1..]);
            FlatAt(nodes, g) == x + FlatAt(nodes, c) + y && a !in x && a in FlatAt(nodes, c)
  {
    var i := IndexOf(nodes[g].children, c);
    assert GroupOk(nodes, g, nodes[g]);
    FlatAround(nodes, g, nodes[g].children, i);
    EntryInFlat(nodes, c, a);
    NotBefore(nodes, g, nodes[g].children, i, a);
    SumOfFour(Head(nodes[g], g), FlatList(nodes, g, nodes[g].children[..i]), FlatAt(nodes, c),
              FlatList(nodes, g, nodes[g].children[i + 1..]));
  }

  /** Put after an entry of a group it is not in, a new entry goes after the group's last. */
  lemma AfterLast(list: seq<Path>, p: Path, a: Path, b: Path)
    requires Listable(PutInList(list, p, Some(a))) && a in list && b != ROOT && !(b <= p)
    requires forall x | x in list :: b <= x
    ensures list[|list| - 1] == a
  {
    var i := IndexOf(list, a);
    if i < |list| - 1 {
      var put := PutInList(list, p, Some(a));
      var y := list[i + 1];
      assert y in list;
      assert put == list[..i] + [a] + [p] + [y] + list[i + 2..];
      Between(put, list[..i], a, [p], y, list[i + 2..], b, p);
    }
  }

  /** An entry that follows another is not of a group with anything ahead of the other, unless the other is of it too. */
  lemma AheadOf(list: seq<Path>, pre: seq<Path>, a: Path, p: Path, post: seq<Path>, z: Path, c: Path)
    requires Together(list) && list == pre + [a] + [p] + post && z in pre && c != ROOT && c <= z && c <= p
    ensures c <= a
  {
    var i := IndexOf(pre, z);
    assert list == pre[..i] + [z] + (pre[i + 1..] + [a]) + [p] + post;
    Between(list, pre[..i], z, pre[i + 1..] + [a], p, post, c, a);
  }

  /** What a group lists up to the last entry of one of its children. */
  function BeforeLast(nodes: Nodes, g: Path, children: seq<Path>, i: nat): seq<Path>
    requires g in nodes && i < |children| && FlatAt(nodes, children[i]) != []
  {
    var list := FlatAt(nodes, children[i]);
    Head(nodes[g], g) + FlatList(nodes, g, children[..i]) + list[..|list| - 1]
  }

  /** The list with the entry put in, around the entry and the child before. */
  lemma PutParts(nodes: Nodes, g: Path, children: seq<Path>, i: nat, p: Path, a: Path)
    requires AllLinked(nodes) && AllGroupsOk(nodes) && g in nodes && nodes[g].Group? && children == nodes[g].children
    requires i < |children| && a in nodes && IsEntry(nodes[a]) && children[i] <= a && !(children[i] <= p)
    requires Listable(PutInList(FlatAt(nodes, g), p, Some(a)))
    ensures FlatAt(nodes, children[i]) != [] && FlatAt(nodes, children[i])[|FlatAt(nodes, children[i])| - 1] == a
    ensures PutInList(FlatAt(nodes, g), p, Some(a)) ==
            BeforeLast(nodes, g, children, i) + [a] + [p] + FlatList(nodes, g, children[i + 1..])
  {
    ChildParts(nodes, g, children, i, a);
    PutAround(nodes, children[i], FlatAt(nodes, g), Head(nodes[g], g) + FlatList(nodes, g, children[..i]),
              FlatList(nodes, g, children[i + 1..]), p, a);
  }

  lemma PutAround(nodes: Nodes, b: Path, all: seq<Path>, h: seq<Path>, y: seq<Path>, p: Path, a: Path)
    requires AllGroupsOk(nodes) && b != ROOT && !(b <= p) && a in FlatAt(nodes, b) && a !in h
    requires all == h + FlatAt(nodes, b) + y && Listable(PutInList(all, p, Some(a)))
    ensures var list := FlatAt(nodes, b);
            && list != [] && list[|list| - 1] == a
            && PutInList(all, p, Some(a)) == (h + list[..|list| - 1]) + [a] + [p] + y
  {
    MiddleListable(all, h, FlatAt(nodes, b), y, p, a);
    EndsThere(nodes, b, p, a);
    EndPut(all, h, FlatAt(nodes, b), y, p, a);
  }

  lemma ChildParts(nodes: Nodes, g: Path, children: seq<Path>, i: nat, a: Path)
    requires AllLinked(nodes) && AllGroupsOk(nodes) && g in nodes && nodes[g].Group? && children == nodes[g].children
    requires i < |children| && a in nodes && IsEntry(nodes[a]) && children[i] <= a
    ensures var (x, y) := (Head(nodes[g], g) + FlatList(nodes, g, children[..i]), FlatList(nodes, g, children[i + 1..]));
            FlatAt(nodes, g) == x + FlatAt(nodes, children[i]) + y && a !in x && a in FlatAt(nodes, children[i])
    ensures children[i] != ROOT
  {
    assert children[i] in children;
    GroupParts(nodes, g, children[i], a);
    assert IndexOf(children, children[i]) == i;
  }

  /** Put after an entry of a child it is not in, a new entry goes after the child's last. */
  lemma EndsThere(nodes: Nodes, b: Path, p: Path, a: Path)
    requires AllGroupsOk(nodes) && b != ROOT && !(b <= p) && a in FlatAt(nodes, b)
    requires Listable(PutInList(FlatAt(nodes, b), p, Some(a)))
    ensures var list := FlatAt(nodes, b); list != [] && list[|list| - 1] == a && a !in list[..|list| - 1]
  {
    var list := FlatAt(nodes, b);
    forall x | x in list ensures b <= x { FlatHas(nodes, b, x); }
    AfterLast(list, p, a, b);
    FlatEndsOnce(nodes, b);
  }

  lemma EndPut(all: seq<Path>, h: seq<Path>, list: seq<Path>, y: seq<Path>, p: Path, a: Path)
    requires all == h + list + y && list != [] && list[|list| - 1] == a && a !in h && a !in list[..|list| - 1]
    ensures PutInList(all, p, Some(a)) == (h + list[..|list| - 1]) + [a] + [p] + y
  {
    assert (h + list)[..|h + list| - 1] == h + list[..|list| - 1];
    PutAtEnd(h + list, y, p, a);
  }

  /** A child listed before another has its entries in the list before. */
  lemma EarlierChild(nodes: Nodes, g: Path, children: seq<Path>, k: nat, i: nat)
    requires Listing(nodes, g, children) && k < i <= |children|
    ensures FlatAt(nodes, children[k]) != [] && children[k] <= FlatAt(nodes, children[k])[0]
    ensures FlatAt(nodes, children[k])[0] in FlatList(nodes, g, children[..i])
  {
    var (c, part) := (children[k], children[..i]);
    assert part[k] == c && c in children && g < c;
    FlatAround(nodes, g, part, k);
    FlatHas(nodes, c, FlatAt(nodes, c)[0]);
  }

  lemma NotEarlier(nodes: Nodes, g: Path, children: seq<Path>, k: nat, i: nat, p: Path, a: Path, w: seq<Path>, m: seq<Path>, y: seq<Path>)
    requires Listing(nodes, g, children) && i < |children| && k < |children| && k != i
    requires children[k] <= p && children[i] <= a
    requires Together((w + FlatList(nodes, g, children[..i]) + m) + [a] + [p] + y)
    ensures k > i
  {
    assert children[k] in children && children[i] in children;
    if k < i {
      var z := FlatAt(nodes, children[k])[0];
      EarlierChild(nodes, g, children, k, i);
      AheadOf((w + FlatList(nodes, g, children[..i]) + m) + [a] + [p] + y,
              w + FlatList(nodes, g, children[..i]) + m, a, p, y, z, children[k]);
      OneAbove(children[i], children[k], a);
      assert false;
    }
  }

  /** The child of a new entry is listed right after the child of the one before. */
  lemma ChildAfter(nodes: Nodes, g: Path, children: seq<Path>, k: nat, i: nat, p: Path, w: seq<Path>)
    requires Listing(nodes, g, children) && i < k < |children| && children[k] <= p
    requires Listable(w + [p] + FlatList(nodes, g, children[i + 1..]))
    ensures k == i + 1 && Listable([p] + FlatAt(nodes, children[k]))
  {
    var rest := children[i + 1..|children|];
    assert rest == children[i + 1..];
    PartListing(nodes, g, children, i + 1, |children|);
    assert rest[k - i - 1] == children[k];
    ChildFirst(nodes, g, rest, w, p, children[k]);
    ChildPart(nodes, g, w + [p] + FlatList(nodes, g, rest), w, p, rest);
  }

  lemma BesideFrom(nodes: Nodes, entry: Entry, a: Path, g: Path)
    requires AllLinked(nodes) && AllGroupsOk(nodes) && CanAdd(nodes, entry, Some(a))
    requires g < entry.Path() && g < a && Next(g, a) != Next(g, entry.Path())
    requires Listable(PutInList(FlatAt(nodes, g), entry.Path(), Some(a)))
    ensures Fits(nodes, g, entry.Path(), a)
  {
    var (p, b, c) := (entry.Path(), Next(g, a), Next(g, entry.Path()));
    GroupOnTheWay(nodes, entry, a, g);
    NextIsUnder(g, p);
    BesideOf(nodes, g, p, a, b, c);
    ChildrenAt(nodes, map[], g, c);
    if c in nodes {
      FirstFrom(nodes, entry, Some(a), c);
    }
  }

  lemma BesideOf(nodes: Nodes, g: Path, p: Path, a: Path, b: Path, c: Path)
    requires AllLinked(nodes) && AllGroupsOk(nodes) && g in nodes && nodes[g].Group? && b in nodes[g].children
    requires a in nodes && IsEntry(nodes[a]) && b <= a && |b| == |c| && b != c && c <= p
    requires Listable(PutInList(FlatAt(nodes, g), p, Some(a)))
    ensures FitsBeside(nodes, nodes[g].children, b, c, a)
    ensures c in nodes[g].children ==> Listable([p] + FlatAt(nodes, c))
  {
    OneAbove(c, b, p);
    LastOfChild(nodes, g, nodes[g].children, IndexOf(nodes[g].children, b), p, a);
    if c in nodes[g].children {
      ListedAfter(nodes, g, p, a, b, c);
    }
  }

  lemma LastOfChild(nodes: Nodes, g: Path, children: seq<Path>, i: nat, p: Path, a: Path)
    requires AllLinked(nodes) && AllGroupsOk(nodes) && g in nodes && nodes[g].Group? && children == nodes[g].children
    requires i < |children| && a in nodes && IsEntry(nodes[a]) && children[i] <= a && !(children[i] <= p)
    requires Listable(PutInList(FlatAt(nodes, g), p, Some(a)))
    ensures FlatAt(nodes, children[i]) != [] && FlatAt(nodes, children[i])[|FlatAt(nodes, children[i])| - 1] == a
  {
    PutParts(nodes, g, children, i, p, a);
  }

  lemma ListedAfter(nodes: Nodes, g: Path, p: Path, a: Path, b: Path, c: Path)
    requires AllLinked(nodes) && AllGroupsOk(nodes) && g in nodes && nodes[g].Group?
    requires b in nodes[g].children && c in nodes[g].children && b != c && b <= a && c <= p && !(b <= p)
    requires a in nodes && IsEntry(nodes[a])
    requires Listable(PutInList(FlatAt(nodes, g), p, Some(a)))
    ensures IndexOf(nodes[g].children, c) == IndexOf(nodes[g].children, b) + 1
    ensures Listable([p] + FlatAt(nodes, c))
  {
    var (children, i, k) := (nodes[g].children, IndexOf(nodes[g].children, b), IndexOf(nodes[g].children, c));
    PutParts(nodes, g, children, i, p, a);
    GroupListing(nodes, g);
    ListedBeside(nodes, g, children, i, k, p, a, BeforeLast(nodes, g, children, i));
  }

  lemma ListedBeside(nodes: Nodes, g: Path, children: seq<Path>, i: nat, k: nat, p: Path, a: Path, before: seq<Path>)
    requires g in nodes && Listing(nodes, g, children) && i < |children| && k < |children| && i != k
    requires children[i] <= a && children[k] <= p && FlatAt(nodes, children[i]) != []
    requires before == BeforeLast(nodes, g, children, i)
    requires Listable(before + [a] + [p] + FlatList(nodes, g, children[i + 1..]))
    ensures k == i + 1
    ensures Listable([p] + FlatAt(nodes, children[k]))
  {
    var list := FlatAt(nodes, children[i]);
    NotEarlier(nodes, g, children, k, i, p, a, Head(nodes[g], g), list[..|list| - 1], FlatList(nodes, g, children[i + 1..]));
    ChildAfter(nodes, g, children, k, i, p, before + [a]);
  }

  /** After the folder a new entry is in. */
  lemma FolderFrom(nodes: Nodes, entry: Entry, a: Path)
    requires AllLinked(nodes) && AllGroupsOk(nodes) && CanAdd(nodes, entry, Some(a)) && a < entry.Path()
    requires Listable(PutInList(FlatAt(nodes, a), entry.Path(), Some(a)))
    ensures Fits(nodes, a, entry.Path(), a)
  {
    var p := entry.Path();
    GroupOnTheWay(nodes, entry, a, a);
    var list := FlatList(nodes, a, nodes[a].children);
    PutAtEnd([a], list, p, a);
    assert FlatAt(nodes, a) == [a] + list;
    assert [a] + [p] + list == [a] + ([p] + list) + [];
    PartListable([a] + [p] + list, [a], [p] + list, []);
    FirstInFrom(nodes, entry, Some(a), a);
  }

  /** Where the list can take an entry after another, the groups on the way do. */
  lemma {:induction false} FitsFrom(nodes: Nodes, entry: Entry, a: Path, g: Path)
    requires AllLinked(nodes) && AllGroupsOk(nodes) && CanAdd(nodes, entry, Some(a))
    requires g <= entry.Path() && g <= a
    requires Listable(PutInList(FlatAt(nodes, g), entry.Path(), Some(a)))
    ensures Fits(nodes, g, entry.Path(), a)
    decreases |entry.Path()| - |g|
  {
    var p := entry.Path();
    EntryInFlat(nodes, g, a);
    NotAboveIt(FlatAt(nodes, g), p, a);
    if g == a {
      FolderFrom(nodes, entry, a);
    } else if Next(g, a) == Next(g, p) {
      var c := Next(g, a);
      GroupOnTheWay(nodes, entry, a, g);
      GroupParts(nodes, g, c, a);
      var i := IndexOf(nodes[g].children, c);
      MiddleListable(FlatAt(nodes, g), Head(nodes[g], g) + FlatList(nodes, g, nodes[g].children[..i]), FlatAt(nodes, c),
                     FlatList(nodes, g, nodes[g].children[i + 1..]), p, a);
      FitsFrom(nodes, entry, a, c);
    } else {
      BesideFrom(nodes, entry, a, g);
    }
  }

  // ----- The list once an entry is added -----

  /** Adding an entry changes the list exactly as the kernel's changes, whenever the kernel could keep that. */
  lemma AddInserts(nodes: Nodes, seeds: Seeds, entry: Entry, after: Option<Path>)
    requires WellFormed(nodes) && CanAdd(nodes, entry, after)
    ensures Flat(Added(nodes, seeds, entry, after)) == PutInList(Flat(nodes), entry.Path(), after) <==>
            Listable(PutInList(Flat(nodes), entry.Path(), after))
  {
    if Listable(PutInList(Flat(nodes), entry.Path(), after)) {
      if after.Some? {
        FitsFrom(nodes, entry, after.value, ROOT);
        FitsInserts(nodes, seeds, entry, after.value, ROOT);
      } else {
        FirstFrom(nodes, entry, after, ROOT);
        FirstInserts(nodes, seeds, entry, after, ROOT);
      }
    }
    AddKeepsTree(nodes, seeds, entry, after);
    TreeIsListable(Added(nodes, seeds, entry, after));
  }
}
