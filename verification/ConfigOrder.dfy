/**
 The moves that put what is listed into the config's order: each group ends up
 with its config children in the order they first appear, and then the rest as
 they were.
 */
module ConfigOrder {
  import opened Paths
  import opened Specs
  import opened Orders
  import opened ReloadRun
  import opened Tree
  import opened SiblingOrder

  // ----- The moves -----

  datatype Moved = Moved(path: Path, place: Place)

  /** A path's groups from the top, and the path. */
  function FromTop(p: Path, n: nat): seq<Path>
    requires n <= |p|
  {
    if n == 0 then [] else FromTop(p, n - 1) + [p[..n]]
  }

  /** Every path come to, entry by entry in the config's order, each from the top. */
  function Visits(sources: seq<Source>, at: At): seq<Path> {
    if sources == [] then []
    else
      var (before, last) := (Visits(sources[..|sources| - 1], at), sources[|sources| - 1]);
      if last in at then before + FromTop(at[last], |at[last]|) else before
  }

  /** Each path the first time it is come to. */
  function FirstSeen(visits: seq<Path>): seq<Path> {
    if visits == [] then []
    else
      var (before, last) := (FirstSeen(visits[..|visits| - 1]), visits[|visits| - 1]);
      if last in before then before else before + [last]
  }

  /** Of some paths, those right under a group. */
  function Under(paths: seq<Path>, g: Path): seq<Path> {
    if paths == [] then []
    else
      var (before, last) := (Under(paths[..|paths| - 1], g), paths[|paths| - 1]);
      if Parent(last) == g then before + [last] else before
  }

  /** Next to the last sibling come to before it, or at the front with none. */
  function PlaceAfter(before: seq<Path>, p: Path): Place {
    var beside := Under(before, Parent(p));
    if beside == [] then First else After(beside[|beside| - 1])
  }

  function MovesOf(paths: seq<Path>): seq<Moved> {
    if paths == [] then []
    else
      var (before, last) := (paths[..|paths| - 1], paths[|paths| - 1]);
      MovesOf(before) + [Moved(last, PlaceAfter(before, last))]
  }

  /** The moves that a reload in the config's order makes. */
  method OrderMoves(sources: seq<Source>, at: At) returns (moves: seq<Moved>)
    ensures moves == MovesOf(FirstSeen(Visits(sources, at)))
  {
    moves := [];
    var last: map<Path, Path> := map[];
    var placed: set<Path> := {};
    ghost var seen: seq<Path> := [];
    for i := 0 to |sources|
      invariant Keeps(Visits(sources[..i], at), seen, moves, last, placed)
    {
      assert sources[..i + 1][..i] == sources[..i];
      if sources[i] in at {
        moves, last, placed, seen := MoveFromTop(at[sources[i]], Visits(sources[..i], at), moves, last, placed, seen);
      }
    }
    assert sources[..|sources|] == sources;
  }

  /** An entry's groups from the top, and the entry, each moved the first time it is come to. */
  method MoveFromTop(path: Path, ghost before: seq<Path>, moves: seq<Moved>, last: map<Path, Path>, placed: set<Path>, ghost seen: seq<Path>)
    returns (all: seq<Moved>, lastNow: map<Path, Path>, placedNow: set<Path>, ghost seenNow: seq<Path>)
    requires Keeps(before, seen, moves, last, placed)
    ensures Keeps(before + FromTop(path, |path|), seenNow, all, lastNow, placedNow)
  {
    all, lastNow, placedNow, seenNow := moves, last, placed, seen;
    ghost var visits := before;
    assert before + [] == before;
    for n := 0 to |path|
      invariant visits == before + FromTop(path, n) && Keeps(visits, seenNow, all, lastNow, placedNow)
    {
      var p := path[..n + 1];
      KeepsMore(visits, seenNow, all, lastNow, placedNow, p);
      visits := visits + [p];
      if p in placedNow {
        continue;
      }
      var place := if Parent(p) in lastNow then After(lastNow[Parent(p)]) else First;
      all := all + [Moved(p, place)];
      lastNow, placedNow, seenNow := lastNow[Parent(p) := p], placedNow + {p}, seenNow + [p];
    }
  }

  /** The last path come to under a group, if any was. */
  ghost predicate LastAt(seen: seq<Path>, last: map<Path, Path>, g: Path) {
    && (g in last <==> Under(seen, g) != [])
    && (g in last ==> last[g] == Under(seen, g)[|Under(seen, g)| - 1])
  }

  ghost predicate LastKept(seen: seq<Path>, last: map<Path, Path>) {
    forall g {:trigger LastAt(seen, last, g)} :: LastAt(seen, last, g)
  }

  /** What the loop has kept of the paths come to. */
  ghost predicate Keeps(visits: seq<Path>, seen: seq<Path>, moves: seq<Moved>, last: map<Path, Path>, placed: set<Path>) {
    && seen == FirstSeen(visits) && moves == MovesOf(seen)
    && (forall p :: p in placed <==> p in seen) && LastKept(seen, last)
  }

  lemma SeenMore(visits: seq<Path>, p: Path)
    ensures FirstSeen(visits + [p]) == if p in FirstSeen(visits) then FirstSeen(visits) else FirstSeen(visits) + [p]
  {
    assert (visits + [p])[..|visits|] == visits;
  }

  lemma LastMore(seen: seq<Path>, last: map<Path, Path>, p: Path, g: Path)
    requires LastAt(seen, last, g)
    ensures LastAt(seen + [p], last[Parent(p) := p], g)
  {
    assert (seen + [p])[..|seen|] == seen;
  }

  lemma MovesMore(seen: seq<Path>, last: map<Path, Path>, p: Path)
    requires LastAt(seen, last, Parent(p))
    ensures MovesOf(seen + [p]) == MovesOf(seen) + [Moved(p, if Parent(p) in last then After(last[Parent(p)]) else First)]
  {
    assert (seen + [p])[..|seen|] == seen;
  }

  /** One more path come to, moved there the first time. */
  lemma KeepsMore(visits: seq<Path>, seen: seq<Path>, moves: seq<Moved>, last: map<Path, Path>, placed: set<Path>, p: Path)
    requires Keeps(visits, seen, moves, last, placed)
    ensures p in placed ==> Keeps(visits + [p], seen, moves, last, placed)
    ensures p !in placed ==>
              var place := if Parent(p) in last then After(last[Parent(p)]) else First;
              Keeps(visits + [p], seen + [p], moves + [Moved(p, place)], last[Parent(p) := p], placed + {p})
  {
    SeenMore(visits, p);
    if p !in placed {
      assert LastAt(seen, last, Parent(p));
      MovesMore(seen, last, p);
      var (now, more) := (seen + [p], last[Parent(p) := p]);
      forall g ensures LastAt(now, more, g) {
        assert LastAt(seen, last, g);
        LastMore(seen, last, p, g);
      }
    }
  }

  // ----- What a move does in the kernel -----

  /** A path put right after another beside it, or first: refused when either is not there. */
  function AfterMove(list: seq<Path>, move: Moved): seq<Path> {
    if move.path !in list then list
    else
      match move.place
      case First => PutAfter(Tree.Without(list, move.path), move.path, None)
      case After(a) =>
        if a == move.path || a !in list then list
        else PutAfter(Tree.Without(list, move.path), move.path, Some(a))
  }

  function ListsMoved(lists: Lists, move: Moved): Lists {
    var g := Parent(move.path);
    if g in lists then lists[g := AfterMove(lists[g], move)] else lists
  }

  function AllMoved(lists: Lists, moves: seq<Moved>): Lists {
    if moves == [] then lists else ListsMoved(AllMoved(lists, moves[..|moves| - 1]), moves[|moves| - 1])
  }

  // ----- Where they leave each group -----

  /** A list without some of its elements, the rest in their order. */
  function Others(list: seq<Path>, first: seq<Path>): seq<Path> {
    if list == [] then []
    else
      var (before, last) := (Others(list[..|list| - 1], first), list[|list| - 1]);
      if last in first then before else before + [last]
  }

  lemma {:induction false} OthersHas(list: seq<Path>, first: seq<Path>, x: Path)
    ensures x in Others(list, first) <==> x in list && x !in first
  {
    if list != [] {
      var (init, last) := (list[..|list| - 1], list[|list| - 1]);
      assert list == init + [last];
      OthersHas(init, first, x);
    }
  }

  lemma {:induction false} OthersDistinct(list: seq<Path>, first: seq<Path>)
    requires Distinct(list)
    ensures Distinct(Others(list, first))
  {
    if list != [] {
      var (init, last) := (list[..|list| - 1], list[|list| - 1]);
      OthersDistinct(init, first);
      OthersHas(init, first, last);
    }
  }

  lemma {:induction false} OthersNone(list: seq<Path>)
    ensures Others(list, []) == list
  {
    if list != [] {
      OthersNone(list[..|list| - 1]);
    }
  }

  /** One more element left out is one taken out of the rest. */
  lemma {:induction false} OthersLess(list: seq<Path>, first: seq<Path>, x: Path)
    requires Distinct(list)
    ensures Others(list, first + [x]) == Tree.Without(Others(list, first), x)
  {
    if list != [] {
      var (init, last) := (list[..|list| - 1], list[|list| - 1]);
      var rest := Others(init, first);
      OthersLess(init, first, x);
      OthersHas(init, first, last);
      OthersDistinct(init, first);
      WithoutMore(rest, last, x);
      assert last in first + [x] <==> last in first || last == x;
    }
  }

  lemma WithoutMore(list: seq<Path>, last: Path, x: Path)
    requires Distinct(list) && last !in list
    ensures Tree.Without(list + [last], x) == if x == last then list else Tree.Without(list, x) + [last]
  {
    var all := list + [last];
    if x in list {
      var i := IndexOf(list, x);
      FirstIndex(all, i, x);
      assert RemoveAt(all, i) == RemoveAt(list, i) + [last];
    } else if x == last {
      FirstIndex(all, |list|, x);
      assert RemoveAt(all, |list|) == list;
    } else {
      assert x !in all;
    }
  }

  lemma WithoutInRest(first: seq<Path>, rest: seq<Path>, p: Path)
    requires Distinct(first + rest) && p in rest
    ensures p in first + rest && Tree.Without(first + rest, p) == first + Tree.Without(rest, p)
  {
    var (i, list) := (IndexOf(rest, p), first + rest);
    assert list[|first| + i] == p;
    IndexInDistinct(list, |first| + i);
    RemoveInSum(first, rest, i);
  }

  lemma RemoveInSum(first: seq<Path>, rest: seq<Path>, i: nat)
    requires i < |rest|
    ensures RemoveAt(first + rest, |first| + i) == first + RemoveAt(rest, i)
  {
    assert (first + rest)[..|first| + i] == first + rest[..i];
    assert (first + rest)[|first| + i + 1..] == rest[i + 1..];
  }

  lemma LastIndex(first: seq<Path>, rest: seq<Path>)
    requires first != [] && Distinct(first + rest)
    ensures IndexOf(first + rest, first[|first| - 1]) == |first| - 1
  {
    assert (first + rest)[|first| - 1] == first[|first| - 1];
    IndexInDistinct(first + rest, |first| - 1);
  }

  lemma PutAfterFirst(first: seq<Path>, rest: seq<Path>, p: Path)
    requires Distinct(first + rest)
    ensures PutAfter(first + rest, p, if first == [] then None else Some(first[|first| - 1])) == first + [p] + rest
  {
    var list := first + rest;
    if first != [] {
      LastIndex(first, rest);
      assert list[|first| - 1] == first[|first| - 1];
    }
    assert list[..|first|] == first && list[|first|..] == rest;
  }

  /** A move puts its path right after those put in place before it. */
  lemma MoveAppends(first: seq<Path>, rest: seq<Path>, p: Path)
    requires Distinct(first + rest) && p in rest
    ensures AfterMove(first + rest, Moved(p, if first == [] then First else After(first[|first| - 1]))) ==
            first + [p] + Tree.Without(rest, p)
  {
    WithoutInRest(first, rest, p);
    WithoutHas(first + rest, p);
    PutAfterFirst(first, Tree.Without(rest, p), p);
    if first != [] {
      LastIndex(first, rest);
      NotInFirst(first, rest, p);
      assert (first + rest)[|first| - 1] == first[|first| - 1];
    }
  }

  lemma NotInFirst(first: seq<Path>, rest: seq<Path>, p: Path)
    requires Distinct(first + rest) && p in rest
    ensures p !in first
  {
    var j := IndexOf(rest, p);
    forall i | 0 <= i < |first| ensures first[i] != p {
      assert (first + rest)[i] == first[i] && (first + rest)[|first| + j] == p;
    }
  }

  /** One more path moved into its place. */
  lemma LeaveStep(list: seq<Path>, first: seq<Path>, last: Path)
    requires Distinct(list) && Distinct(first) && last in list && last !in first
    ensures AfterMove(first + Others(list, first), Moved(last, if first == [] then First else After(first[|first| - 1]))) ==
            (first + [last]) + Others(list, first + [last])
  {
    FirstThenRest(first, list);
    OthersHas(list, first, last);
    MoveAppends(first, Others(list, first), last);
    OthersLess(list, first, last);
  }

  lemma {:induction false} UnderHas(paths: seq<Path>, g: Path, x: Path)
    ensures x in Under(paths, g) <==> x in paths && Parent(x) == g
  {
    if paths != [] {
      var (init, last) := (paths[..|paths| - 1], paths[|paths| - 1]);
      assert paths == init + [last];
      UnderHas(init, g, x);
    }
  }

  lemma {:induction false} UnderDistinct(paths: seq<Path>, g: Path)
    requires Distinct(paths)
    ensures Distinct(Under(paths, g))
  {
    if paths != [] {
      var (init, last) := (paths[..|paths| - 1], paths[|paths| - 1]);
      UnderDistinct(init, g);
      UnderHas(init, g, last);
    }
  }

  lemma FirstThenRest(first: seq<Path>, list: seq<Path>)
    requires Distinct(first) && Distinct(list)
    ensures Distinct(first + Others(list, first))
  {
    var all := first + Others(list, first);
    OthersDistinct(list, first);
    forall i, j | 0 <= i < j < |all| ensures all[i] != all[j] {
      if i < |first| <= j {
        OthersHas(list, first, all[j]);
        assert all[i] in first && all[j] in Others(list, first);
      }
    }
  }

  lemma LastMove(lists: Lists, init: seq<Path>, last: Path)
    ensures AllMoved(lists, MovesOf(init + [last])) == ListsMoved(AllMoved(lists, MovesOf(init)), Moved(last, PlaceAfter(init, last)))
    ensures forall g :: Under(init + [last], g) == Under(init, g) + if Parent(last) == g then [last] else []
  {
    assert (init + [last])[..|init|] == init;
    var moves := MovesOf(init + [last]);
    assert moves[..|moves| - 1] == MovesOf(init);
  }

  /** What one more move leaves of a group. */
  lemma MoveLeaves(lists: Lists, init: seq<Path>, last: Path, g: Path, list: seq<Path>)
    requires Distinct(init) && Distinct(list) && last !in init && (Parent(last) == g ==> last in list)
    requires g in lists && lists[g] == Under(init, g) + Others(list, Under(init, g))
    ensures var moved := ListsMoved(lists, Moved(last, PlaceAfter(init, last)));
            var first := Under(init, g) + if Parent(last) == g then [last] else [];
            g in moved && moved[g] == first + Others(list, first)
  {
    if Parent(last) == g {
      UnderDistinct(init, g);
      UnderHas(init, g, last);
      LeaveStep(list, Under(init, g), last);
    } else {
      assert Under(init, g) + [] == Under(init, g);
    }
  }

  /** After the moves of some paths, a group lists those under it in their order, and then the rest. */
  lemma {:induction false} MovesLeave(lists: Lists, paths: seq<Path>, g: Path)
    requires Distinct(paths) && g in lists && Distinct(lists[g])
    requires forall p | p in paths && Parent(p) == g :: p in lists[g]
    ensures g in AllMoved(lists, MovesOf(paths))
    ensures AllMoved(lists, MovesOf(paths))[g] == Under(paths, g) + Others(lists[g], Under(paths, g))
    decreases |paths|
  {
    if paths == [] {
      OthersNone(lists[g]);
    } else {
      var (init, last) := (paths[..|paths| - 1], paths[|paths| - 1]);
      assert paths == init + [last];
      MovesLeave(lists, init, g);
      LastMove(lists, init, last);
      MoveLeaves(AllMoved(lists, MovesOf(init)), init, last, g, lists[g]);
    }
  }

  lemma {:induction false} SeenDistinct(visits: seq<Path>)
    ensures Distinct(FirstSeen(visits))
  {
    if visits != [] {
      SeenDistinct(visits[..|visits| - 1]);
    }
  }

  /**
   The moves leave each group with its config children in the order they first
   appear, each group where its first entry is, and then the rest in their old order.
   */
  lemma GroupsInConfigOrder(lists: Lists, sources: seq<Source>, at: At, g: Path)
    requires g in lists && Distinct(lists[g])
    requires forall p | p in FirstSeen(Visits(sources, at)) && Parent(p) == g :: p in lists[g]
    ensures var (paths, moved) := (FirstSeen(Visits(sources, at)), AllMoved(lists, MovesOf(FirstSeen(Visits(sources, at)))));
            g in moved && moved[g] == Under(paths, g) + Others(lists[g], Under(paths, g))
  {
    SeenDistinct(Visits(sources, at));
    MovesLeave(lists, FirstSeen(Visits(sources, at)), g);
  }
}
