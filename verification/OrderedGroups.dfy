/**
 Where the moves into the config's order leave a group, told from the config's
 entries and where they are: what has an entry comes by its first one, and the rest
 comes last, as it was.
 */
module OrderedGroups {
  import opened Paths
  import opened Orders
  import opened ReloadRun
  import opened SiblingOrder
  import opened ConfigOrder

  // ----- Which entries are at or under a path -----

  predicate HasEntryAt(sources: seq<Source>, at: At, c: Path, i: nat) {
    i < |sources| && sources[i] in at && AtOrUnder(at[sources[i]], c)
  }

  ghost predicate HasEntry(sources: seq<Source>, at: At, c: Path) {
    exists i :: HasEntryAt(sources, at, c, i)
  }

  /** Some entry of one comes before every entry of the other. */
  ghost predicate ComesFirst(sources: seq<Source>, at: At, c: Path, d: Path) {
    exists i :: HasEntryAt(sources, at, c, i) && forall j | 0 <= j <= i :: !HasEntryAt(sources, at, d, j)
  }

  /** The child of a group that a path is at or under. */
  function ChildOn(g: Path, p: Path): Path
    requires g < p
  {
    p[..|g| + 1]
  }

  predicate IsChild(c: Path, g: Path) { g < c && |c| == |g| + 1 }

  lemma ChildIs(c: Path, g: Path, p: Path)
    requires IsChild(c, g)
    ensures Parent(c) == g && (c <= p <==> g < p && c == ChildOn(g, p))
  {
  }

  // ----- What is come to under a group -----

  lemma UnderMore(paths: seq<Path>, p: Path, g: Path)
    ensures Under(paths + [p], g) == Under(paths, g) + if Parent(p) == g then [p] else []
  {
    assert (paths + [p])[..|paths|] == paths;
  }

  /** On the way down to a path, each of its ancestors is come to. */
  lemma {:induction false} OnTheWayHas(visits: seq<Path>, p: Path, n: nat, x: Path)
    requires n <= |p|
    ensures x in FirstSeen(visits + FromTop(p, n)) <==> x in FirstSeen(visits) || (0 < |x| <= n && x <= p)
  {
    if n == 0 {
      assert visits + [] == visits;
    } else {
      OnTheWayHas(visits, p, n - 1, x);
      WayMore(visits, p, n);
      SeenMore(visits + FromTop(p, n - 1), p[..n]);
      assert x <= p && |x| == n ==> x == p[..n];
    }
  }

  lemma WayMore(visits: seq<Path>, p: Path, n: nat)
    requires 0 < n <= |p|
    ensures visits + FromTop(p, n) == (visits + FromTop(p, n - 1)) + [p[..n]]
  {
  }

  /** What an entry at a path adds to the children of a group come to before. */
  function NewChild(seen: seq<Path>, g: Path, p: Path): seq<Path> {
    if g < p && ChildOn(g, p) !in seen then [ChildOn(g, p)] else []
  }

  /** Of a path's ancestors, only the one right under a group is new there. */
  lemma {:induction false} UnderOnTheWay(visits: seq<Path>, seen: seq<Path>, way: seq<Path>, p: Path, n: nat, g: Path)
    requires n <= |p| && way == visits + FromTop(p, n) && seen == FirstSeen(visits)
    ensures Under(FirstSeen(way), g) == Under(seen, g) + if |g| < n then NewChild(seen, g, p) else []
    decreases n
  {
    if n == 0 {
      assert way == visits;
    } else {
      var before := visits + FromTop(p, n - 1);
      WayMore(visits, p, n);
      UnderOnTheWay(visits, seen, before, p, n - 1, g);
      OnTheWayHas(visits, p, n - 1, p[..n]);
      UnderStep(Under(seen, g), seen, before, FirstSeen(before), p, n, g);
    }
  }

  lemma UnderStep(under: seq<Path>, seen: seq<Path>, before: seq<Path>, seenBefore: seq<Path>, p: Path, n: nat, g: Path)
    requires 0 < n <= |p| && seenBefore == FirstSeen(before) && (p[..n] in seenBefore <==> p[..n] in seen)
    requires Under(seenBefore, g) == under + if |g| < n - 1 then NewChild(seen, g, p) else []
    ensures Under(FirstSeen(before + [p[..n]]), g) == under + if |g| < n then NewChild(seen, g, p) else []
  {
    UnderVisit(before, p[..n], g);
    StepOnTheWay(under, seen, p, n, g);
  }

  lemma UnderVisit(way: seq<Path>, x: Path, g: Path)
    ensures Under(FirstSeen(way + [x]), g) ==
            Under(FirstSeen(way), g) + if x !in FirstSeen(way) && Parent(x) == g then [x] else []
  {
    SeenMore(way, x);
    UnderMore(FirstSeen(way), x, g);
    assert Under(FirstSeen(way), g) + [] == Under(FirstSeen(way), g);
  }

  lemma StepOnTheWay(before: seq<Path>, seen: seq<Path>, p: Path, n: nat, g: Path)
    requires 0 < n <= |p|
    ensures (before + if |g| < n - 1 then NewChild(seen, g, p) else [])
            + (if p[..n] !in seen && Parent(p[..n]) == g then [p[..n]] else []) ==
            before + if |g| < n then NewChild(seen, g, p) else []
  {
    assert Parent(p[..n]) == p[..n - 1] && (g < p && |g| == n - 1 <==> g == p[..n - 1]);
    assert |g| == n - 1 && g < p ==> ChildOn(g, p) == p[..n];
  }

  /** Of the first entries, those that come to be under a group. */
  function UnderOf(sources: seq<Source>, at: At, g: Path, n: nat): seq<Path>
    requires n <= |sources|
  {
    Under(FirstSeen(Visits(sources[..n], at)), g)
  }

  lemma VisitsMore(sources: seq<Source>, at: At, n: nat)
    requires n < |sources|
    ensures Visits(sources[..n + 1], at) ==
            if sources[n] in at then Visits(sources[..n], at) + FromTop(at[sources[n]], |at[sources[n]]|)
            else Visits(sources[..n], at)
  {
    assert sources[..n + 1][..n] == sources[..n];
  }

  lemma {:induction false} SeenHas(sources: seq<Source>, at: At, n: nat, c: Path)
    requires n <= |sources|
    ensures c in FirstSeen(Visits(sources[..n], at)) <==> c != ROOT && exists i | 0 <= i < n :: HasEntryAt(sources, at, c, i)
  {
    if n > 0 {
      SeenHas(sources, at, n - 1, c);
      VisitsMore(sources, at, n - 1);
      if sources[n - 1] in at {
        var p := at[sources[n - 1]];
        OnTheWayHas(Visits(sources[..n - 1], at), p, |p|, c);
      }
      assert (exists i | 0 <= i < n :: HasEntryAt(sources, at, c, i)) <==>
             (exists i | 0 <= i < n - 1 :: HasEntryAt(sources, at, c, i)) || HasEntryAt(sources, at, c, n - 1);
    } else {
      assert sources[..0] == [];
    }
  }

  /** One entry more adds the child it is under, unless an entry before it is under that too. */
  lemma UnderOneMore(sources: seq<Source>, at: At, g: Path, n: nat)
    requires n < |sources|
    ensures UnderOf(sources, at, g, n + 1) ==
            UnderOf(sources, at, g, n) + if sources[n] in at then NewChild(UnderOf(sources, at, g, n), g, at[sources[n]]) else []
  {
    VisitsMore(sources, at, n);
    var visits := Visits(sources[..n], at);
    if sources[n] in at {
      var p := at[sources[n]];
      UnderOnTheWay(visits, FirstSeen(visits), visits + FromTop(p, |p|), p, |p|, g);
      if g < p {
        assert Parent(ChildOn(g, p)) == g;
        UnderHas(FirstSeen(visits), g, ChildOn(g, p));
      }
    } else {
      assert UnderOf(sources, at, g, n) + [] == UnderOf(sources, at, g, n);
    }
  }

  /** Those of the first entries: each child that one of them is under, by the first. */
  ghost predicate ByFirst(sources: seq<Source>, at: At, g: Path, n: nat, list: seq<Path>) {
    && (forall c :: c in list <==> IsChild(c, g) && exists i | 0 <= i < n :: HasEntryAt(sources, at, c, i))
    && (forall k, l | 0 <= k < l < |list| :: ComesFirst(sources, at, list[k], list[l]))
  }

  lemma {:induction false} UnderByFirst(sources: seq<Source>, at: At, g: Path, n: nat)
    requires n <= |sources|
    ensures ByFirst(sources, at, g, n, UnderOf(sources, at, g, n))
  {
    if n == 0 {
      assert sources[..0] == [];
    } else {
      UnderByFirst(sources, at, g, n - 1);
      UnderOneMore(sources, at, g, n - 1);
      MoreByFirst(sources, at, g, n - 1, UnderOf(sources, at, g, n - 1));
    }
  }

  lemma MoreByFirst(sources: seq<Source>, at: At, g: Path, n: nat, list: seq<Path>)
    requires n < |sources| && ByFirst(sources, at, g, n, list)
    ensures ByFirst(sources, at, g, n + 1, list + if sources[n] in at then NewChild(list, g, at[sources[n]]) else [])
  {
    var more := if sources[n] in at then NewChild(list, g, at[sources[n]]) else [];
    forall c ensures c in list + more <==> IsChild(c, g) && exists i | 0 <= i < n + 1 :: HasEntryAt(sources, at, c, i) {
      OneEntryMore(sources, at, c, n);
      NewChildIs(sources, at, g, n, list, c);
    }
    if more != [] {
      forall c | c in list ensures ComesFirst(sources, at, c, more[0]) {
        NewChildIs(sources, at, g, n, list, more[0]);
        NewComesLast(sources, at, c, more[0], n);
      }
    }
    PairsMore(sources, at, list, more);
  }

  lemma OneEntryMore(sources: seq<Source>, at: At, c: Path, n: nat)
    ensures (exists i | 0 <= i < n + 1 :: HasEntryAt(sources, at, c, i)) <==>
            (exists i | 0 <= i < n :: HasEntryAt(sources, at, c, i)) || HasEntryAt(sources, at, c, n)
  {
  }

  lemma PairsMore(sources: seq<Source>, at: At, list: seq<Path>, more: seq<Path>)
    requires |more| <= 1 && (more != [] ==> forall c | c in list :: ComesFirst(sources, at, c, more[0]))
    requires forall k, l | 0 <= k < l < |list| :: ComesFirst(sources, at, list[k], list[l])
    ensures forall k, l | 0 <= k < l < |list + more| :: ComesFirst(sources, at, (list + more)[k], (list + more)[l])
  {
  }

  lemma NewChildIs(sources: seq<Source>, at: At, g: Path, n: nat, list: seq<Path>, c: Path)
    requires n < |sources|
    ensures var more := if sources[n] in at then NewChild(list, g, at[sources[n]]) else [];
            |more| <= 1 && (c in more <==> c !in list && IsChild(c, g) && HasEntryAt(sources, at, c, n))
  {
    if sources[n] in at && IsChild(c, g) {
      ChildIs(c, g, at[sources[n]]);
    }
  }

  lemma NewComesLast(sources: seq<Source>, at: At, c: Path, last: Path, n: nat)
    requires (exists i | 0 <= i < n :: HasEntryAt(sources, at, c, i)) && forall j | 0 <= j < n :: !HasEntryAt(sources, at, last, j)
    ensures ComesFirst(sources, at, c, last)
  {
    var i :| 0 <= i < n && HasEntryAt(sources, at, c, i);
    assert forall j | 0 <= j <= i :: !HasEntryAt(sources, at, last, j);
  }

  // ----- The order a group is left in -----

  /** One of a list comes before another. */
  predicate Before(list: seq<Path>, c: Path, d: Path) {
    c in list && d in list && IndexOf(list, c) < IndexOf(list, d)
  }

  lemma FirstNotBoth(sources: seq<Source>, at: At, c: Path, d: Path)
    requires ComesFirst(sources, at, c, d)
    ensures !ComesFirst(sources, at, d, c) && c != d
  {
  }

  lemma {:induction false} OthersKeepOrder(list: seq<Path>, first: seq<Path>, c: Path, d: Path)
    requires Distinct(list) && c !in first && d !in first && Before(list, c, d)
    ensures Before(ConfigOrder.Others(list, first), c, d)
  {
    var (init, last) := (list[..|list| - 1], list[|list| - 1]);
    var rest := ConfigOrder.Others(init, first);
    assert list == init + [last];
    ConfigOrder.OthersHas(init, first, c);
    ConfigOrder.OthersHas(init, first, d);
    InInit(list, c, d);
    if d in init {
      OthersKeepOrder(init, first, c, d);
      IndexKept(rest, ConfigOrder.Others(list, first), d);
    } else {
      assert ConfigOrder.Others(list, first) == rest + [d];
      FirstIndex(rest + [d], |rest|, d);
    }
    IndexKept(rest, ConfigOrder.Others(list, first), c);
  }

  lemma InInit(list: seq<Path>, c: Path, d: Path)
    requires Distinct(list) && Before(list, c, d)
    ensures var init := list[..|list| - 1]; c in init && if d in init then Before(init, c, d) else d == list[|list| - 1]
  {
    var init := list[..|list| - 1];
    var (i, j) := (IndexOf(list, c), IndexOf(list, d));
    assert init[i] == c;
    FirstIndex(init, i, c);
    if j < |init| {
      assert init[j] == d;
      FirstIndex(init, j, d);
    }
    assert d in init ==> IndexOf(init, d) < |init| && list[IndexOf(init, d)] == d;
  }

  lemma IndexKept(part: seq<Path>, list: seq<Path>, x: Path)
    requires part <= list && x in part
    ensures IndexOf(list, x) == IndexOf(part, x)
  {
    FirstIndex(list, IndexOf(part, x), x);
  }

  /** Of two lists put together, what is in the first comes first. */
  lemma BeforeInSum(a: seq<Path>, b: seq<Path>, c: Path, d: Path)
    requires Distinct(a + b)
    ensures c in a && d in b ==> Before(a + b, c, d)
    ensures Before(a, c, d) || Before(b, c, d) ==> Before(a + b, c, d)
  {
    if c in a { At(a + b, IndexOf(a, c), c, a, b); }
    if d in a { At(a + b, IndexOf(a, d), d, a, b); }
    if c in b { At(a + b, |a| + IndexOf(b, c), c, a, b); }
    if d in b { At(a + b, |a| + IndexOf(b, d), d, a, b); }
  }

  lemma At(list: seq<Path>, i: nat, x: Path, a: seq<Path>, b: seq<Path>)
    requires list == a + b && Distinct(list) && i < |list| && (if i < |a| then a[i] == x else b[i - |a|] == x)
    ensures x in list && IndexOf(list, x) == i
  {
    assert list[i] == x;
    IndexInDistinct(list, i);
  }

  lemma {:induction false} SameElements(list: seq<Path>, first: seq<Path>, x: Path)
    requires forall c | c in first :: c in list
    ensures x in first + ConfigOrder.Others(list, first) <==> x in list
  {
    ConfigOrder.OthersHas(list, first, x);
  }

  /**
   Where the moves leave a group. Of two children, the one whose first entry comes
   first in the config comes first; one with no entry comes after all that have one;
   and those with none keep their order. None is lost, and none listed twice.
   */
  lemma ChildrenByFirstEntry(lists: Lists, sources: seq<Source>, at: At, g: Path, c: Path, d: Path)
    requires g in lists && Distinct(lists[g])
    requires forall s | s in sources && s in at && g < at[s] :: ChildOn(g, at[s]) in lists[g]
    requires c in lists[g] && d in lists[g] && IsChild(c, g) && IsChild(d, g)
    ensures var moved := AllMoved(lists, MovesOf(FirstSeen(Visits(sources, at))));
            && g in moved && Distinct(moved[g]) && (forall x :: x in moved[g] <==> x in lists[g])
            && (ComesFirst(sources, at, c, d) ==> Before(moved[g], c, d))
            && (!HasEntry(sources, at, c) && !HasEntry(sources, at, d) && Before(lists[g], c, d) ==> Before(moved[g], c, d))
  {
    var first := UnderOf(sources, at, g, |sources|);
    assert sources[..|sources|] == sources;
    UnderByFirst(sources, at, g, |sources|);
    AllListed(lists[g], sources, at, g, first);
    forall p | p in FirstSeen(Visits(sources, at)) && Parent(p) == g ensures p in lists[g] {
      UnderHas(FirstSeen(Visits(sources, at)), g, p);
    }
    GroupsInConfigOrder(lists, sources, at, g);
    SeenDistinct(Visits(sources, at));
    UnderDistinct(FirstSeen(Visits(sources, at)), g);
    FirstThenRest(first, lists[g]);
    forall x ensures x in first + ConfigOrder.Others(lists[g], first) <==> x in lists[g] {
      SameElements(lists[g], first, x);
    }
    LeftAs(sources, at, g, first, lists[g], c, d);
  }

  lemma AllListed(list: seq<Path>, sources: seq<Source>, at: At, g: Path, first: seq<Path>)
    requires ByFirst(sources, at, g, |sources|, first)
    requires forall s | s in sources && s in at && g < at[s] :: ChildOn(g, at[s]) in list
    ensures forall x | x in first :: x in list
  {
    forall x | x in first ensures x in list {
      var i :| 0 <= i < |sources| && HasEntryAt(sources, at, x, i);
      ChildIs(x, g, at[sources[i]]);
    }
  }

  lemma LeftAs(sources: seq<Source>, at: At, g: Path, first: seq<Path>, list: seq<Path>, c: Path, d: Path)
    requires ByFirst(sources, at, g, |sources|, first) && Distinct(first + ConfigOrder.Others(list, first)) && Distinct(list)
    requires c in list && d in list && IsChild(c, g) && IsChild(d, g)
    ensures ComesFirst(sources, at, c, d) ==> Before(first + ConfigOrder.Others(list, first), c, d)
    ensures !HasEntry(sources, at, c) && !HasEntry(sources, at, d) && Before(list, c, d) ==>
              Before(first + ConfigOrder.Others(list, first), c, d)
  {
    var rest := ConfigOrder.Others(list, first);
    assert c in first <==> HasEntry(sources, at, c);
    assert d in first <==> HasEntry(sources, at, d);
    ConfigOrder.OthersHas(list, first, d);
    BeforeInSum(first, rest, c, d);
    if ComesFirst(sources, at, c, d) && d in first {
      var (i, j) := (IndexOf(first, c), IndexOf(first, d));
      if j <= i {
        FirstNotBoth(sources, at, c, d);
      }
    }
    if c !in first && d !in first && Before(list, c, d) {
      OthersKeepOrder(list, first, c, d);
    }
  }
}
