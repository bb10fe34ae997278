/**
 Where new entries are listed. Each is placed by its closest config predecessor among its
 siblings, so a group follows the config's order however the additions are ordered. The
 exceptions are paths listed before their turn, and additions refused; the laws here say
 exactly when a group is out of order.
 */
module SiblingOrder {
  import opened Paths
  import opened Specs
  import opened Orders
  import opened Reload
  import opened ReloadChoices
  import opened ReloadRun

  // ----- The kernel's lists -----

  /** What is listed right under each path, in order. */
  type Lists = map<Path, seq<Path>>

  function ListOf(lists: Lists, g: Path): seq<Path> {
    if g in lists then lists[g] else []
  }

  /** Where a new path goes among those beside it. */
  function PlaceAmong(list: seq<Path>, p: Path, place: Place): (at: nat)
    ensures at <= |list|
  {
    match place
    case First => 0
    case After(a) => if Parent(a) == Parent(p) && a in list then IndexOf(list, a) + 1 else |list|
  }

  /** A group's list once a path is made under it: the place is the path's, and a group made on the way goes last. */
  function ListMade(list: seq<Path>, g: Path, p: Path, place: Place): seq<Path>
    requires g < p
  {
    var child := p[..|g| + 1];
    if child in list then list
    else if |child| < |p| then list + [child]
    else InsertAt(list, PlaceAmong(list, p, place), child)
  }

  function Groups(p: Path): set<Path> {
    set k | 0 <= k < |p| :: p[..k]
  }

  /** The lists with a path added to them, and every group above it. */
  function Made(lists: Lists, p: Path, place: Place): Lists {
    map g | g in lists.Keys + Groups(p) :: if g < p then ListMade(ListOf(lists, g), g, p, place) else lists[g]
  }

  lemma MadeAt(lists: Lists, p: Path, place: Place, g: Path)
    ensures ListOf(Made(lists, p, place), g) == if g < p then ListMade(ListOf(lists, g), g, p, place) else ListOf(lists, g)
  {
    if g < p {
      assert p[..|g|] == g;
    }
  }

  // ----- The config's order under a group -----

  /** The paths right under a group of the first `n` entries that are there, in the config's order. */
  function Beside(sources: seq<Source>, at: At, g: Path, n: nat): seq<Path>
    requires n <= |sources|
  {
    if n == 0 then []
    else
      Beside(sources, at, g, n - 1) + IfUnder(at, sources[n - 1], g)
  }

  function IfUnder(at: At, source: Source, g: Path): seq<Path> {
    if source in at && Parent(at[source]) == g then [at[source]] else []
  }

  function OrderIn(sources: seq<Source>, at: At, g: Path): seq<Path> {
    Beside(sources, at, g, |sources|)
  }

  /** Entries are at different paths, none of them the root, each listed by the group it is in. */
  ghost predicate Listed(lists: Lists, at: At) {
    && (forall s | s in at :: at[s] != ROOT && at[s] in ListOf(lists, Parent(at[s])))
    && (forall s, t | s in at && t in at && s != t :: at[s] != at[t])
  }

  /** No list has a path twice. */
  ghost predicate ListsDistinct(lists: Lists) {
    forall g :: Distinct(ListOf(lists, g))
  }

  lemma {:induction false} BesideHas(sources: seq<Source>, at: At, g: Path, n: nat, p: Path)
    requires n <= |sources|
    ensures p in Beside(sources, at, g, n) <==> exists i | 0 <= i < n :: sources[i] in at && at[sources[i]] == p && Parent(p) == g
  {
    if n > 0 {
      BesideHas(sources, at, g, n - 1, p);
      var rest := Beside(sources, at, g, n - 1);
      if p in Beside(sources, at, g, n) && p !in rest {
        assert sources[n - 1] in at && at[sources[n - 1]] == p;
      }
    }
  }

  lemma {:induction false} BesideDistinct(sources: seq<Source>, at: At, g: Path, n: nat)
    requires n <= |sources| && Distinct(sources) && forall s, t | s in at && t in at && s != t :: at[s] != at[t]
    ensures Distinct(Beside(sources, at, g, n))
  {
    if n > 0 {
      BesideDistinct(sources, at, g, n - 1);
      if sources[n - 1] in at {
        BesideHas(sources, at, g, n - 1, at[sources[n - 1]]);
      }
    }
  }

  /** An entry that comes to be there changes nothing of those before it. */
  lemma {:induction false} BesideBefore(sources: seq<Source>, at: At, source: Source, p: Path, g: Path, n: nat)
    requires n <= |sources| && forall i | 0 <= i < n :: sources[i] != source
    ensures Beside(sources, at[source := p], g, n) == Beside(sources, at, g, n)
  {
    if n > 0 {
      BesideBefore(sources, at, source, p, g, n - 1);
    }
  }

  /** Nor under another group. */
  lemma {:induction false} BesideElsewhere(sources: seq<Source>, at: At, source: Source, p: Path, g: Path, n: nat)
    requires n <= |sources| && source !in at && Parent(p) != g
    ensures Beside(sources, at[source := p], g, n) == Beside(sources, at, g, n)
  {
    if n > 0 {
      BesideElsewhere(sources, at, source, p, g, n - 1);
    }
  }

  lemma {:induction false} BesideGrows(sources: seq<Source>, at: At, g: Path, n: nat, m: nat)
    requires n <= m <= |sources|
    ensures Beside(sources, at, g, n) <= Beside(sources, at, g, m)
  {
    if n < m {
      BesideGrows(sources, at, g, n, m - 1);
    }
  }

  /** The nearest entry before another that is there beside it is the last of those before it. */
  lemma {:induction false} AfterIsLast(sources: seq<Source>, n: nat, at: At, change: Change)
    requires n <= |sources|
    ensures var (after, before) := (AfterIn(sources, n, at, change), Beside(sources, at, Parent(change.path), n));
            (after.None? <==> before == []) && (after.Some? ==> at[after.value] == before[|before| - 1])
  {
    if n > 0 {
      AfterIsLast(sources, n - 1, at, change);
    }
  }

  lemma SourceFirst(sources: seq<Source>, source: Source)
    requires Distinct(sources) && source in sources
    ensures SourceIndex(sources, source) < |sources|
    ensures forall i | 0 <= i < SourceIndex(sources, source) :: sources[i] != source
  {
  }

  lemma BesideWith(sources: seq<Source>, at: At, n: nat, p: Path)
    requires n < |sources|
    ensures Beside(sources, at[sources[n] := p], Parent(p), n + 1) == Beside(sources, at[sources[n] := p], Parent(p), n) + [p]
  {
  }

  /** Where a new entry is in its group's order: right after those before it. */
  lemma OrderSplits(sources: seq<Source>, at: At, source: Source, p: Path, n: nat)
    requires n < |sources| && sources[n] == source && forall i | 0 <= i < n :: sources[i] != source
    ensures Beside(sources, at, Parent(p), n) + [p] <= OrderIn(sources, at[source := p], Parent(p))
  {
    BesideBefore(sources, at, source, p, Parent(p), n);
    BesideWith(sources, at, n, p);
    BesideGrows(sources, at[source := p], Parent(p), n + 1, |sources|);
  }

  /** The place a new entry is given is the one its group's order gives it. */
  lemma PlaceIsInOrder(lists: Lists, sources: seq<Source>, at: At, change: Change)
    requires Distinct(sources) && change.source in sources && change.source !in at && Listed(lists, at)
    requires forall s | s in at :: at[s] != change.path
    ensures var (list, g) := (ListOf(lists, Parent(change.path)), Parent(change.path));
            PlaceAmong(list, change.path, PlaceIn(sources, at, change)) ==
            PlaceFor(list, OrderIn(sources, at[change.source := change.path], g), change.path)
  {
    var (n, g, p) := (SourceIndex(sources, change.source), Parent(change.path), change.path);
    var (list, before, order) := (ListOf(lists, g), Beside(sources, at, g, n), OrderIn(sources, at[change.source := p], g));
    SourceFirst(sources, change.source);
    OrderSplits(sources, at, change.source, p, n);
    AfterIsLast(sources, n, at, change);
    NotAmong(sources, at, g, n, p);
    if before != [] {
      LastListed(lists, sources, at, g, n);
    }
    PlaceAtEnd(list, before, order, p);
  }

  lemma LastListed(lists: Lists, sources: seq<Source>, at: At, g: Path, n: nat)
    requires n <= |sources| && Listed(lists, at) && Beside(sources, at, g, n) != []
    ensures var before := Beside(sources, at, g, n);
            before[|before| - 1] in ListOf(lists, g) && Parent(before[|before| - 1]) == g
  {
    var before := Beside(sources, at, g, n);
    var last := before[|before| - 1];
    BesideHas(sources, at, g, n, last);
    assert last in before;
  }

  /** With those before it in the order listed, a new element's place is right after the last of them. */
  lemma PlaceAtEnd(list: seq<Path>, before: seq<Path>, order: seq<Path>, p: Path)
    requires before + [p] <= order && p !in before && (before != [] ==> before[|before| - 1] in list)
    ensures PlaceFor(list, order, p) == if before == [] then 0 else IndexOf(list, before[|before| - 1]) + 1
  {
    assert order[|before|] == p && order[..|before|] == before;
    FirstAt(order, |before|, p);
    assert before != [] ==> order[|before| - 1] == before[|before| - 1];
  }

  lemma NotAmong(sources: seq<Source>, at: At, g: Path, n: nat, p: Path)
    requires n <= |sources| && forall s | s in at :: at[s] != p
    ensures p !in Beside(sources, at, g, n)
  {
    BesideHas(sources, at, g, n, p);
  }

  lemma FirstAt(order: seq<Path>, n: nat, p: Path)
    requires n < |order| && order[n] == p && p !in order[..n]
    ensures IndexOf(order, p) == n
  {
    forall i | 0 <= i < n ensures order[i] != p {
      assert order[i] == order[..n][i];
    }
  }

  // ----- Adding one -----

  /** A list but for one path, and where the path goes in it: where it is listed already, or else its place. */
  function Others(list: seq<Path>, p: Path): seq<Path> {
    if p in list then RemoveAt(list, IndexOf(list, p)) else list
  }

  function Spot(list: seq<Path>, p: Path, place: Place): (at: nat)
    ensures at <= |Others(list, p)|
  {
    if p in list then IndexOf(list, p) else PlaceAmong(list, p, place)
  }

  /** With the entries before a path in the order on one side of a place, and those after it on the other. */
  ghost predicate OnItsSide(list: seq<Path>, order: seq<Path>, p: Path, at: nat) {
    forall i | 0 <= i < |list| && list[i] in order :: i < at <==> IndexOf(order, list[i]) < IndexOf(order, p)
  }

  lemma MadeIsInsert(list: seq<Path>, p: Path, place: Place)
    requires p != ROOT && Distinct(list)
    ensures ListMade(list, Parent(p), p, place) == InsertAt(Others(list, p), Spot(list, p, place), p)
    ensures p !in Others(list, p) && (p !in list ==> Others(list, p) == list)
    ensures p in list ==> list == InsertAt(Others(list, p), Spot(list, p, place), p)
  {
    assert p[..|Parent(p)| + 1] == p;
    if p in list {
      RemoveIsDistinct(list, IndexOf(list, p));
    }
  }

  /**
   A group lists the config's entries in order once one more is listed in it,
   exactly when it did before and no entry is on the wrong side of where the path
   is listed. Any place may be given; one already listed stays where it is.
   */
  lemma OwnGroup(lists: Lists, sources: seq<Source>, at: At, source: Source, p: Path, place: Place)
    requires Distinct(sources) && source in sources && source !in at && p != ROOT
    requires Distinct(ListOf(lists, Parent(p))) && forall s | s in at :: at[s] != p
    ensures var (list, g, now) := (ListOf(lists, Parent(p)), Parent(p), at[source := p]);
            Agrees(ListMade(list, g, p, place), OrderIn(sources, now, g)) <==>
            Agrees(list, OrderIn(sources, at, g)) && OnItsSide(Others(list, p), OrderIn(sources, now, g), p, Spot(list, p, place))
  {
    var (list, g, now) := (ListOf(lists, Parent(p)), Parent(p), at[source := p]);
    var (others, spot) := (Others(list, p), Spot(list, p, place));
    MadeIsInsert(list, p, place);
    BesideHas(sources, now, g, |sources|, p);
    var n := SourceIndex(sources, source);
    assert sources[n] in now && now[sources[n]] == p;
    InsertInOrderIff(others, OrderIn(sources, now, g), p, spot);
    SameOthers(sources, at, source, p, g, others);
    NotAmong(sources, at, g, |sources|, p);
    if p in list {
      OtherInsert(others, OrderIn(sources, at, g), p, spot);
    }
  }

  /** A list agrees with an order, an element put in, exactly when it did and each side of the place is as the order has it. */
  lemma InsertInOrderIff(list: seq<Path>, order: seq<Path>, p: Path, at: nat)
    requires at <= |list| && p in order && p !in list
    ensures Agrees(InsertAt(list, at, p), order) <==> Agrees(list, order) && OnItsSide(list, order, p, at)
  {
    if Agrees(InsertAt(list, at, p), order) {
      InsertedWas(list, order, p, at);
    }
    if Agrees(list, order) && OnItsSide(list, order, p, at) {
      InsertedAgrees(list, order, p, at);
    }
  }

  lemma InsertedAgrees(list: seq<Path>, order: seq<Path>, p: Path, at: nat)
    requires at <= |list| && p in order && p !in list && Agrees(list, order) && OnItsSide(list, order, p, at)
    ensures Agrees(InsertAt(list, at, p), order)
  {
    var all := InsertAt(list, at, p);
    forall i, j | 0 <= i < j < |all| && all[i] in order && all[j] in order
      ensures IndexOf(order, all[i]) < IndexOf(order, all[j])
    {
      assert i != at ==> all[i] == list[if i < at then i else i - 1];
      assert j != at ==> all[j] == list[if j < at then j else j - 1];
    }
  }

  function Shifted(at: nat, i: nat): nat {
    if i < at then i else i + 1
  }

  lemma InsertedAgreed(list: seq<Path>, order: seq<Path>, x: Path, at: nat)
    requires at <= |list| && Agrees(InsertAt(list, at, x), order)
    ensures Agrees(list, order)
  {
    var all := InsertAt(list, at, x);
    forall i, j | 0 <= i < j < |list| && list[i] in order && list[j] in order
      ensures IndexOf(order, list[i]) < IndexOf(order, list[j])
    {
      assert all[Shifted(at, i)] == list[i] && all[Shifted(at, j)] == list[j];
    }
  }

  lemma InsertedWas(list: seq<Path>, order: seq<Path>, p: Path, at: nat)
    requires at <= |list| && p in order && p !in list && Agrees(InsertAt(list, at, p), order)
    ensures Agrees(list, order) && OnItsSide(list, order, p, at)
  {
    var all := InsertAt(list, at, p);
    assert all[at] == p;
    InsertedAgreed(list, order, p, at);
    forall i | 0 <= i < |list| && list[i] in order ensures i < at <==> IndexOf(order, list[i]) < IndexOf(order, p) {
      assert all[Shifted(at, i)] == list[i];
    }
  }

  /** An element that the order has not makes no difference where it is put. */
  lemma OtherInsert(list: seq<Path>, order: seq<Path>, x: Path, at: nat)
    requires at <= |list| && x !in order
    ensures Agrees(InsertAt(list, at, x), order) <==> Agrees(list, order)
  {
    var all := InsertAt(list, at, x);
    assert all[at] == x;
    if Agrees(all, order) {
      InsertedAgreed(list, order, x, at);
    }
    if Agrees(list, order) {
      forall i, j | 0 <= i < j < |all| && all[i] in order && all[j] in order
        ensures IndexOf(order, all[i]) < IndexOf(order, all[j])
      {
        assert all[i] == list[if i < at then i else i - 1];
        assert all[j] == list[if j < at then j else j - 1];
      }
    }
  }

  /** Elements but a new one come in the order with it as they did without it. */
  lemma SameOthers(sources: seq<Source>, at: At, source: Source, p: Path, g: Path, list: seq<Path>)
    requires p !in list && source !in at
    ensures Agrees(list, OrderIn(sources, at[source := p], g)) <==> Agrees(list, OrderIn(sources, at, g))
  {
    var (was, now) := (OrderIn(sources, at, g), OrderIn(sources, at[source := p], g));
    forall i, j | 0 <= i < j < |list|
      ensures list[i] in now && list[j] in now <==> list[i] in was && list[j] in was
      ensures list[i] in now && list[j] in now ==>
                (IndexOf(was, list[i]) < IndexOf(was, list[j]) <==> IndexOf(now, list[i]) < IndexOf(now, list[j]))
    {
      InOther(sources, at, source, p, g, |sources|, list[i]);
      InOther(sources, at, source, p, g, |sources|, list[j]);
      if list[i] in now && list[j] in now {
        OrderWithout(sources, at, source, p, g, |sources|, list[i], list[j]);
      }
    }
  }

  /** Which of two comes first in the order does not change with another in it. */
  lemma {:induction false} OrderWithout(sources: seq<Source>, at: At, source: Source, p: Path, g: Path, n: nat, a: Path, b: Path)
    requires n <= |sources| && a != p && b != p && source !in at
    requires a in Beside(sources, at[source := p], g, n) && b in Beside(sources, at[source := p], g, n)
    ensures var (was, now) := (Beside(sources, at, g, n), Beside(sources, at[source := p], g, n));
            && a in was && b in was && (IndexOf(was, a) < IndexOf(was, b) <==> IndexOf(now, a) < IndexOf(now, b))
  {
    var (was, now) := (Beside(sources, at, g, n - 1), Beside(sources, at[source := p], g, n - 1));
    InOther(sources, at, source, p, g, n - 1, a);
    InOther(sources, at, source, p, g, n - 1, b);
    if a in now && b in now {
      OrderWithout(sources, at, source, p, g, n - 1, a, b);
    }
    PartsAlike(at, source, p, sources[n - 1], g);
    MoreInBoth(was, IfUnder(at, sources[n - 1], g), now, IfUnder(at[source := p], sources[n - 1], g), p, a, b);
  }

  lemma PartsAlike(at: At, source: Source, p: Path, s: Source, g: Path)
    requires source !in at
    ensures var (there, added) := (IfUnder(at, s, g), IfUnder(at[source := p], s, g));
            |added| <= 1 && (added == there || (added == [p] && there == []))
  {
  }

  lemma MoreInBoth(was: seq<Path>, there: seq<Path>, now: seq<Path>, added: seq<Path>, p: Path, a: Path, b: Path)
    requires |added| <= 1 && (added == there || (added == [p] && there == [])) && a != p && b != p
    requires (a in now <==> a in was) && (b in now <==> b in was)
    requires a in now && b in now ==> (IndexOf(was, a) < IndexOf(was, b) <==> IndexOf(now, a) < IndexOf(now, b))
    requires a in now + added && b in now + added
    ensures a in was + there && b in was + there
    ensures IndexOf(was + there, a) < IndexOf(was + there, b) <==> IndexOf(now + added, a) < IndexOf(now + added, b)
  {
    IndexInSum(was, there, a);
    IndexInSum(was, there, b);
    IndexInSum(now, added, a);
    IndexInSum(now, added, b);
  }

  lemma InOther(sources: seq<Source>, at: At, source: Source, p: Path, g: Path, n: nat, a: Path)
    requires n <= |sources| && a != p && source !in at
    ensures a in Beside(sources, at[source := p], g, n) <==> a in Beside(sources, at, g, n)
  {
    BesideHas(sources, at, g, n, a);
    BesideHas(sources, at[source := p], g, n, a);
    if i :| 0 <= i < n && sources[i] in at && at[sources[i]] == a && Parent(a) == g {
      assert sources[i] in at[source := p] && at[source := p][sources[i]] == a;
    }
    if i :| 0 <= i < n && sources[i] in at[source := p] && at[source := p][sources[i]] == a && Parent(a) == g {
      assert sources[i] in at && at[sources[i]] == a;
    }
  }

  lemma IndexInSum(a: seq<Path>, b: seq<Path>, x: Path)
    requires |b| <= 1
    ensures IndexOf(a + b, x) == if x in a then IndexOf(a, x) else if x in b then |a| else |a| + |b|
  {
    if x in a {
      FirstIndex(a + b, IndexOf(a, x), x);
    } else if x in b {
      FirstIndex(a + b, |a|, x);
    } else {
      assert x !in a + b;
    }
  }

  lemma FirstIndex(list: seq<Path>, n: nat, x: Path)
    requires n < |list| && list[n] == x && forall i | 0 <= i < n :: list[i] != x
    ensures IndexOf(list, x) == n
  {
  }

  /** A group on the way lists at most one path more, last, and none of the config's entries. */
  lemma OtherGroup(lists: Lists, sources: seq<Source>, at: At, p: Path, place: Place, g: Path)
    requires Listed(lists, at) && g < p && g != Parent(p)
    ensures Agrees(ListMade(ListOf(lists, g), g, p, place), OrderIn(sources, at, g)) <==>
            Agrees(ListOf(lists, g), OrderIn(sources, at, g))
  {
    var (list, child, order) := (ListOf(lists, g), p[..|g| + 1], OrderIn(sources, at, g));
    assert |child| == |p| ==> child == p && Parent(p) == g;
    if child !in list {
      BesideHas(sources, at, g, |sources|, child);
      assert list + [child] == InsertAt(list, |list|, child);
      OtherInsert(list, order, child, |list|);
    }
  }

  /** What is listed stays listed. */
  lemma MadeKeeps(list: seq<Path>, g: Path, p: Path, place: Place, x: Path)
    requires g < p
    ensures x in ListMade(list, g, p, place) <==> x in list || x == p[..|g| + 1]
  {
    var child := p[..|g| + 1];
    if child !in list && |child| == |p| {
      InsertHas(list, PlaceAmong(list, p, place), child, x);
    }
  }

  lemma InsertHas(list: seq<Path>, at: nat, child: Path, x: Path)
    requires at <= |list|
    ensures x in InsertAt(list, at, child) <==> x in list || x == child
  {
    var all := InsertAt(list, at, child);
    assert all[at] == child;
    if x in list {
      var i := IndexOf(list, x);
      assert all[if i < at then i else i + 1] == x;
    }
  }

  lemma MadeDistinct(list: seq<Path>, g: Path, p: Path, place: Place)
    requires g < p && Distinct(list)
    ensures Distinct(ListMade(list, g, p, place))
  {
    var child := p[..|g| + 1];
    if child !in list && |child| == |p| {
      InsertIsDistinct(list, PlaceAmong(list, p, place), child);
    }
  }

  lemma AddLists(lists: Lists, at: At, source: Source, p: Path, place: Place)
    requires Listed(lists, at) && source !in at && p != ROOT && forall s | s in at :: at[s] != p
    ensures Listed(Made(lists, p, place), at[source := p])
  {
    var now := at[source := p];
    forall s | s in now ensures now[s] != ROOT && now[s] in ListOf(Made(lists, p, place), Parent(now[s])) {
      var g := Parent(now[s]);
      MadeAt(lists, p, place, g);
      if g < p {
        MadeKeeps(ListOf(lists, g), g, p, place, now[s]);
      }
      if s == source {
        assert p[..|g| + 1] == p;
      }
    }
  }

  lemma AddDistinct(lists: Lists, p: Path, place: Place)
    requires ListsDistinct(lists)
    ensures ListsDistinct(Made(lists, p, place))
  {
    forall g ensures Distinct(ListOf(Made(lists, p, place), g)) {
      MadeAt(lists, p, place, g);
      assert Distinct(ListOf(lists, g));
      if g < p {
        MadeDistinct(ListOf(lists, g), g, p, place);
      }
    }
  }

  // ----- Adding all of them, in any order, some of them refused -----

  /**
   A reload in the middle of its additions: what is listed, where the steps count
   each config entry to be, and where those that are there are. One refused is
   counted all the same, since the steps are made before any is taken.
   */
  datatype Progress = Progress(lists: Lists, at: At, there: At)

  /** An addition, and whether the kernel accepts it. */
  datatype Answered = Answered(change: Change, accepted: bool)

  function Added(sources: seq<Source>, w: Progress, add: Answered): Progress {
    var (source, p) := (add.change.source, add.change.path);
    if add.accepted then
      Progress(Made(w.lists, p, PlaceIn(sources, w.at, add.change)), w.at[source := p], w.there[source := p])
    else
      w.(at := w.at[source := p])
  }

  function AddedAll(sources: seq<Source>, w: Progress, adds: seq<Answered>): Progress
    decreases |adds|
  {
    if adds == [] then w else AddedAll(sources, Added(sources, w, adds[0]), adds[1..])
  }

  /** What is there is counted, and listed. */
  ghost predicate Sound(w: Progress) {
    w.there.Keys <= w.at.Keys && Listed(w.lists, w.there) && ListsDistinct(w.lists)
  }

  /** A new entry is the config's and not counted yet; the kernel accepts none at the path of one that is there. */
  ghost predicate CanAdd(sources: seq<Source>, w: Progress, add: Answered) {
    && add.change.source in sources && add.change.source !in w.at
    && (add.accepted ==> add.change.path != ROOT && forall s | s in w.there :: w.there[s] != add.change.path)
  }

  /** Each new entry is added once, and the kernel accepts no two at one path. */
  ghost predicate CanAddAll(sources: seq<Source>, w: Progress, adds: seq<Answered>) {
    && (forall i | 0 <= i < |adds| :: CanAdd(sources, w, adds[i]))
    && (forall i, j | 0 <= i < j < |adds| ::
          && adds[i].change.source != adds[j].change.source
          && (adds[i].accepted && adds[j].accepted ==> adds[i].change.path != adds[j].change.path))
  }

  lemma CanAddRest(sources: seq<Source>, w: Progress, adds: seq<Answered>)
    requires Sound(w) && CanAddAll(sources, w, adds) && adds != []
    ensures Sound(Added(sources, w, adds[0])) && CanAddAll(sources, Added(sources, w, adds[0]), adds[1..])
  {
    var (add, now) := (adds[0], Added(sources, w, adds[0]));
    assert CanAdd(sources, w, add);
    if add.accepted {
      AddLists(w.lists, w.there, add.change.source, add.change.path, PlaceIn(sources, w.at, add.change));
      AddDistinct(w.lists, add.change.path, PlaceIn(sources, w.at, add.change));
    }
    forall i | 0 <= i < |adds| - 1 ensures CanAdd(sources, now, adds[1..][i]) {
      assert adds[1..][i] == adds[i + 1] && CanAdd(sources, w, adds[i + 1]);
    }
  }

  /** A group lists the config's entries that are there in the config's order. */
  ghost predicate GroupInOrder(sources: seq<Source>, w: Progress, g: Path) {
    Agrees(ListOf(w.lists, g), OrderIn(sources, w.there, g))
  }

  /** An entry accepted under a group comes to be listed with no other on its wrong side. */
  ghost predicate InPlace(sources: seq<Source>, w: Progress, add: Answered, g: Path) {
    var (list, p) := (ListOf(w.lists, g), add.change.path);
    add.accepted && Parent(p) == g ==>
      OnItsSide(Others(list, p), OrderIn(sources, w.there[add.change.source := p], g), p,
                Spot(list, p, PlaceIn(sources, w.at, add.change)))
  }

  ghost predicate AllInPlace(sources: seq<Source>, w: Progress, adds: seq<Answered>, g: Path)
    decreases |adds|
  {
    adds != [] ==> InPlace(sources, w, adds[0], g) && AllInPlace(sources, Added(sources, w, adds[0]), adds[1..], g)
  }

  /** One addition leaves a group in order exactly when it was and the entry is in place; none puts it right again. */
  lemma OneInOrderIff(sources: seq<Source>, w: Progress, add: Answered, g: Path)
    requires Distinct(sources) && Sound(w) && CanAdd(sources, w, add)
    ensures GroupInOrder(sources, Added(sources, w, add), g) <==> GroupInOrder(sources, w, g) && InPlace(sources, w, add, g)
  {
    var (source, p, place) := (add.change.source, add.change.path, PlaceIn(sources, w.at, add.change));
    if add.accepted {
      MadeAt(w.lists, p, place, g);
      if g == Parent(p) {
        assert Distinct(ListOf(w.lists, g));
        OwnGroup(w.lists, sources, w.there, source, p, place);
      } else {
        BesideElsewhere(sources, w.there, source, p, g, |sources|);
        if g < p {
          OtherGroup(w.lists, sources, w.there, p, place, g);
        }
      }
    }
  }

  /**
   Whatever order the new entries are added in and whichever are refused, a group
   ends up with the config's entries in the config's order exactly when it started
   so and each entry accepted under it came to be listed in place.
   */
  lemma {:induction false} GroupInOrderIff(sources: seq<Source>, w: Progress, adds: seq<Answered>, g: Path)
    requires Distinct(sources) && Sound(w) && CanAddAll(sources, w, adds)
    ensures GroupInOrder(sources, AddedAll(sources, w, adds), g) <==>
            GroupInOrder(sources, w, g) && AllInPlace(sources, w, adds, g)
    decreases |adds|
  {
    if adds != [] {
      assert CanAdd(sources, w, adds[0]);
      OneInOrderIff(sources, w, adds[0], g);
      CanAddRest(sources, w, adds);
      GroupInOrderIff(sources, Added(sources, w, adds[0]), adds[1..], g);
    }
  }

  ghost predicate EachInOrder(sources: seq<Source>, w: Progress) {
    forall g :: GroupInOrder(sources, w, g)
  }

  ghost predicate EachInPlace(sources: seq<Source>, w: Progress, adds: seq<Answered>) {
    forall g :: AllInPlace(sources, w, adds, g)
  }

  /** Every group at once. */
  lemma EachInOrderIff(sources: seq<Source>, w: Progress, adds: seq<Answered>)
    requires Distinct(sources) && Sound(w) && CanAddAll(sources, w, adds)
    ensures EachInOrder(sources, AddedAll(sources, w, adds)) <==> EachInOrder(sources, w) && EachInPlace(sources, w, adds)
  {
    var end := AddedAll(sources, w, adds);
    forall g ensures GroupInOrder(sources, end, g) <==> GroupInOrder(sources, w, g) && AllInPlace(sources, w, adds, g) {
      GroupInOrderIff(sources, w, adds, g);
    }
    if EachInOrder(sources, end) {
      forall g ensures GroupInOrder(sources, w, g) { assert GroupInOrder(sources, end, g); }
      forall g ensures AllInPlace(sources, w, adds, g) { assert GroupInOrder(sources, end, g); }
    }
    if EachInOrder(sources, w) && EachInPlace(sources, w, adds) {
      forall g ensures GroupInOrder(sources, end, g) {
        assert GroupInOrder(sources, w, g) && AllInPlace(sources, w, adds, g);
      }
    }
  }

  // ----- The reload's own additions -----

  function ChangesOf(adds: seq<Answered>): seq<Change> {
    seq(|adds|, i requires 0 <= i < |adds| => adds[i].change)
  }

  /** What a step that the kernel accepts lists. */
  function ListedBy(lists: Lists, act: Act): Lists {
    match act
    case AddTask(path, _, _, place) => Made(lists, path, place)
    case AddFolder(path, _, _, place) => Made(lists, path, place)
    case _ => lists
  }

  function ListedByAll(lists: Lists, steps: seq<Step>, accepted: seq<bool>): Lists
    requires |steps| == |accepted|
    decreases |steps|
  {
    if steps == [] then lists
    else ListedByAll(if accepted[0] then ListedBy(lists, steps[0].act) else lists, steps[1..], accepted[1..])
  }

  function AnswersOf(adds: seq<Answered>): seq<bool> {
    seq(|adds|, i requires 0 <= i < |adds| => adds[i].accepted)
  }

  /** The lists that a reload's steps for its additions make are those that the laws below are about. */
  lemma {:induction false} StepsListAs(sources: seq<Source>, w: Progress, adds: seq<Answered>, live: Live)
    requires forall i | 0 <= i < |adds| :: IsNew(adds[i].change) && adds[i].change.apply && adds[i].change.config.Some?
    ensures var steps := AddSteps(ChangesOf(adds), sources, w.at, live);
            |steps| == |adds| && ListedByAll(w.lists, steps, AnswersOf(adds)) == AddedAll(sources, w, adds).lists
    decreases |adds|
  {
    if adds != [] {
      var (first, rest) := (adds[0], adds[1..]);
      assert ChangesOf(adds)[1..] == ChangesOf(rest) && AnswersOf(adds)[1..] == AnswersOf(rest);
      forall i | 0 <= i < |rest| ensures rest[i] == adds[i + 1] {
      }
      StepsListAs(sources, Added(sources, w, first), rest, live);
      OneStepLists(sources, w, adds, live);
    }
  }

  lemma OneStepLists(sources: seq<Source>, w: Progress, adds: seq<Answered>, live: Live)
    requires adds != [] && IsNew(adds[0].change) && adds[0].change.apply && adds[0].change.config.Some?
    ensures var (steps, c) := (AddSteps(ChangesOf(adds), sources, w.at, live), adds[0].change);
            && steps != [] && steps[1..] == AddSteps(ChangesOf(adds)[1..], sources, w.at[c.source := c.path], live)
            && ListedBy(w.lists, steps[0].act) == Made(w.lists, c.path, PlaceIn(sources, w.at, c))
  {
    var c := ChangesOf(adds)[0];
    var act := ActOf(c, live, PlaceIn(sources, w.at, c));
    assert AddSteps(ChangesOf(adds), sources, w.at, live) ==
           [Step(Some(c.source), act.value)] + AddSteps(ChangesOf(adds)[1..], sources, w.at[c.source := c.path], live);
  }

  // ----- When every entry is in place -----

  /** Those counted under a group are there. */
  ghost predicate AllThere(w: Progress, g: Path) {
    forall s | s in w.at && Parent(w.at[s]) == g :: s in w.there && w.there[s] == w.at[s]
  }

  ghost predicate NoneMoved(w: Progress) {
    forall s | s in w.there :: s in w.at && w.at[s] == w.there[s]
  }

  /** The nearest entry before a new one, counted under its group, is the nearest that is there. */
  lemma {:induction false} SameAfter(sources: seq<Source>, n: nat, w: Progress, change: Change)
    requires n <= |sources| && w.there.Keys <= w.at.Keys && NoneMoved(w) && AllThere(w, Parent(change.path))
    ensures AfterIn(sources, n, w.at, change) == AfterIn(sources, n, w.there, change)
  {
    if n > 0 {
      SameAfter(sources, n - 1, w, change);
    }
  }

  /** An entry that is not listed yet, in a group in order with none counted that is not there, is put in place. */
  lemma UnlistedInPlace(sources: seq<Source>, w: Progress, add: Answered, g: Path)
    requires Distinct(sources) && Sound(w) && CanAdd(sources, w, add) && NoneMoved(w) && AllThere(w, g)
    requires GroupInOrder(sources, w, g)
    requires add.accepted && Parent(add.change.path) == g && add.change.path !in ListOf(w.lists, g)
    ensures InPlace(sources, w, add, g)
  {
    var (source, p, list) := (add.change.source, add.change.path, ListOf(w.lists, g));
    var order := OrderIn(sources, w.there[source := p], g);
    SameAfter(sources, SourceIndex(sources, source), w, add.change);
    PlaceIsInOrder(w.lists, sources, w.there, add.change);
    SameOthers(sources, w.there, source, p, g, list);
    BesideDistinct(sources, w.there[source := p], g, |sources|);
    NewInOrder(sources, w.there, source, p);
    forall i | 0 <= i < |list| && list[i] in order
      ensures i < PlaceFor(list, order, p) <==> IndexOf(order, list[i]) < IndexOf(order, p)
    {
      PlaceSplits(list, order, p, i);
    }
  }

  lemma NewInOrder(sources: seq<Source>, at: At, source: Source, p: Path)
    requires source in sources
    ensures p in OrderIn(sources, at[source := p], Parent(p))
  {
    BesideHas(sources, at[source := p], Parent(p), |sources|, p);
    var n := SourceIndex(sources, source);
    assert sources[n] in at[source := p];
  }

  /**
   Told before the run: each entry to be added under a group is accepted, is not
   listed at the start, and is not above one that is added before it, which would
   make its path a group, listed last.
   */
  ghost predicate NoneListedBefore(w: Progress, adds: seq<Answered>, g: Path) {
    forall i | 0 <= i < |adds| && Parent(adds[i].change.path) == g ::
      && adds[i].accepted && adds[i].change.path !in ListOf(w.lists, g)
      && forall j | 0 <= j < i && adds[j].accepted :: !AtOrUnder(adds[j].change.path, adds[i].change.path)
  }

  lemma NoneListedInRest(sources: seq<Source>, w: Progress, adds: seq<Answered>, g: Path)
    requires NoneListedBefore(w, adds, g) && adds != []
    ensures NoneListedBefore(Added(sources, w, adds[0]), adds[1..], g)
  {
    var (add, now) := (adds[0], Added(sources, w, adds[0]));
    forall i | 0 <= i < |adds| - 1 && Parent(adds[1..][i].change.path) == g
      ensures adds[1..][i].accepted && adds[1..][i].change.path !in ListOf(now.lists, g)
      ensures forall j | 0 <= j < i && adds[1..][j].accepted :: !AtOrUnder(adds[1..][j].change.path, adds[1..][i].change.path)
    {
      assert adds[1..][i] == adds[i + 1];
      if add.accepted {
        var place := PlaceIn(sources, w.at, add.change);
        MadeAt(w.lists, add.change.path, place, g);
        if g < add.change.path {
          MadeKeeps(ListOf(w.lists, g), g, add.change.path, place, adds[i + 1].change.path);
        }
      }
    }
  }

  /**
   A group stays in the config's order when each entry added under it is accepted
   and is not listed before its turn, whatever is added or refused elsewhere.
   */
  lemma {:induction false} GroupStaysInOrder(sources: seq<Source>, w: Progress, adds: seq<Answered>, g: Path)
    requires Distinct(sources) && Sound(w) && CanAddAll(sources, w, adds) && NoneMoved(w) && AllThere(w, g)
    requires GroupInOrder(sources, w, g) && NoneListedBefore(w, adds, g)
    ensures GroupInOrder(sources, AddedAll(sources, w, adds), g) && AllInPlace(sources, w, adds, g)
    decreases |adds|
  {
    if adds != [] {
      var now := Added(sources, w, adds[0]);
      assert CanAdd(sources, w, adds[0]);
      if Parent(adds[0].change.path) == g {
        UnlistedInPlace(sources, w, adds[0], g);
      }
      OneInOrderIff(sources, w, adds[0], g);
      CanAddRest(sources, w, adds);
      NoneListedInRest(sources, w, adds, g);
      GroupStaysInOrder(sources, now, adds[1..], g);
    }
  }

  /**
   Whatever order the new entries are added in, each group ends up in the config's
   order when it was so, none is refused, and none is listed before its turn.
   */
  lemma AddsKeepOrder(sources: seq<Source>, w: Progress, adds: seq<Answered>)
    requires Distinct(sources) && Sound(w) && CanAddAll(sources, w, adds) && w.at == w.there
    requires EachInOrder(sources, w)
    requires forall i | 0 <= i < |adds| ::
               adds[i].accepted && adds[i].change.path !in ListOf(w.lists, Parent(adds[i].change.path))
    requires forall i, j | 0 <= j < i < |adds| :: !AtOrUnder(adds[j].change.path, adds[i].change.path)
    ensures EachInOrder(sources, AddedAll(sources, w, adds))
  {
    forall g ensures GroupInOrder(sources, AddedAll(sources, w, adds), g) {
      assert GroupInOrder(sources, w, g);
      GroupStaysInOrder(sources, w, adds, g);
    }
  }

  // ----- When one is not -----

  lemma TwoOutOfOrder(list: seq<Path>, order: seq<Path>, x: Path, y: Path)
    requires x != y && list == [x, y] && order == [y, x]
    ensures !Agrees(list, order)
  {
    FirstIndex(order, 0, y);
    FirstIndex(order, 1, x);
    assert list[0] == x && list[1] == y;
  }

  /** With one config entry there, every group is in order. */
  lemma OneInOrder(sources: seq<Source>, w: Progress, source: Source)
    requires ListsDistinct(w.lists) && w.there.Keys == {source}
    ensures EachInOrder(sources, w)
  {
    forall g ensures GroupInOrder(sources, w, g) {
      var order := OrderIn(sources, w.there, g);
      forall p | p in order ensures p == w.there[source] {
        BesideHas(sources, w.there, g, |sources|, p);
      }
      assert Distinct(ListOf(w.lists, g));
    }
  }

  lemma OutAtRoot(sources: seq<Source>, w: Progress, x: Path, y: Path)
    requires x != y && ListOf(w.lists, ROOT) == [x, y] && OrderIn(sources, w.there, ROOT) == [y, x]
    ensures !EachInOrder(sources, w)
  {
    TwoOutOfOrder(ListOf(w.lists, ROOT), OrderIn(sources, w.there, ROOT), x, y);
    assert !GroupInOrder(sources, w, ROOT);
  }

  /** What is at the start, in the cases below: one config entry, and what is listed at the root. */
  function Start(list: seq<Path>, source: Source, p: Path): Progress {
    Progress(map[ROOT := list], map[source := p], map[source := p])
  }

  lemma StartIsSound(list: seq<Path>, sources: seq<Source>, source: Source, p: Path)
    requires Distinct(list) && p in list && Parent(p) == ROOT && p != ROOT
    ensures Sound(Start(list, source, p)) && EachInOrder(sources, Start(list, source, p))
  {
    OneInOrder(sources, Start(list, source, p), source);
  }

  lemma AddsTwo(sources: seq<Source>, w: Progress, first: Answered, second: Answered)
    ensures AddedAll(sources, w, [first, second]) == Added(sources, Added(sources, w, first), second)
  {
    var now := Added(sources, w, first);
    assert [first, second][1..] == [second] && [second][1..] == [];
    assert AddedAll(sources, now, [second]) == AddedAll(sources, Added(sources, now, second), [second][1..]);
  }

  lemma TwoCanBeAdded(sources: seq<Source>, w: Progress, first: Answered, second: Answered)
    requires CanAdd(sources, w, first) && CanAdd(sources, w, second)
    requires first.change.source != second.change.source && first.change.path != second.change.path
    ensures CanAddAll(sources, w, [first, second])
  {
  }

  lemma AddsOne(sources: seq<Source>, w: Progress, add: Answered)
    ensures AddedAll(sources, w, [add]) == Added(sources, w, add)
  {
    assert [add][1..] == [];
  }

  /** The order at the root, of two entries there. */
  lemma RootOrder(sources: seq<Source>, at: At, i: nat, j: nat)
    requires Distinct(sources) && i < j < |sources| <= 3 && sources[i] in at && sources[j] in at
    requires Parent(at[sources[i]]) == ROOT && Parent(at[sources[j]]) == ROOT
    requires forall k | 0 <= k < |sources| && k != i && k != j && sources[k] in at :: Parent(at[sources[k]]) != ROOT
    ensures OrderIn(sources, at, ROOT) == [at[sources[i]], at[sources[j]]]
  {
    assert Beside(sources, at, ROOT, 0) == [];
    assert Beside(sources, at, ROOT, 1) == if i == 0 then [at[sources[i]]] else [];
    assert |sources| == 3 ==> OrderIn(sources, at, ROOT) == Beside(sources, at, ROOT, 2) + if j == 2 then [at[sources[j]]] else [];
  }

  /** A path of one name already listed at the root leaves the list as it is. */
  lemma ListedStays(lists: Lists, name: string, place: Place)
    requires [name] in ListOf(lists, ROOT)
    ensures ListOf(Made(lists, [name], place), ROOT) == ListOf(lists, ROOT)
  {
    MadeAt(lists, [name], place, ROOT);
    assert [name][..1] == [name];
  }

  /**
   A folder added where a group already stands stays where the group is, out of the
   config's order: `b/` is before `a` in the config, and the group `b` listed after it.
   */
  lemma StandingGroupStays(sources: seq<Source>, a: Source, b: Change)
    requires b.source != a && b.path == ["b"] && sources == [b.source, a]
    ensures var (w, adds) := (Start([["a"], ["b"]], a, ["a"]), [Answered(b, true)]);
            && Sound(w) && EachInOrder(sources, w) && CanAddAll(sources, w, adds)
            && !EachInOrder(sources, AddedAll(sources, w, adds))
  {
    var (w, add) := (Start([["a"], ["b"]], a, ["a"]), Answered(b, true));
    assert [["a"], ["b"]][0] == ["a"] && [["a"], ["b"]][1] == ["b"];
    StartIsSound([["a"], ["b"]], sources, a, ["a"]);
    AddsOne(sources, w, add);
    ListedStays(w.lists, "b", PlaceIn(sources, w.at, b));
    var end := Added(sources, w, add);
    assert sources[0] == b.source && sources[1] == a;
    RootOrder(sources, end.there, 0, 1);
    OutAtRoot(sources, end, ["a"], ["b"]);
  }

  /**
   Nothing need stand there at the start: with `a/b/` before `a/` in the config and
   `c` after both, adding `a/b/` lists the group `a` last, and there `a/` stays.
   */
  lemma MadeGroupStays(sources: seq<Source>, c: Source, ab: Change, a: Change)
    requires ab.path == ["a", "b"] && a.path == ["a"] && Distinct(sources) && sources == [ab.source, a.source, c]
    ensures var (w, adds) := (Start([["c"]], c, ["c"]), [Answered(ab, true), Answered(a, true)]);
            && Sound(w) && EachInOrder(sources, w) && CanAddAll(sources, w, adds)
            && a.path !in ListOf(w.lists, ROOT) && ab.path !in ListOf(w.lists, ["a"])
            && !EachInOrder(sources, AddedAll(sources, w, adds))
  {
    var (w, first, second) := (Start([["c"]], c, ["c"]), Answered(ab, true), Answered(a, true));
    assert sources[0] == ab.source && sources[1] == a.source && sources[2] == c;
    StartIsSound([["c"]], sources, c, ["c"]);
    TwoCanBeAdded(sources, w, first, second);
    AddsTwo(sources, w, first, second);
    MadeGroupEnd(sources, c, first, second);
  }

  lemma MadeGroupEnd(sources: seq<Source>, c: Source, ab: Answered, a: Answered)
    requires ab.accepted && a.accepted && ab.change.path == ["a", "b"] && a.change.path == ["a"]
    requires Distinct(sources) && sources == [ab.change.source, a.change.source, c]
    ensures !EachInOrder(sources, Added(sources, Added(sources, Start([["c"]], c, ["c"]), ab), a))
  {
    var w := Start([["c"]], c, ["c"]);
    var half := Added(sources, w, ab);
    var end := Added(sources, half, a);
    assert sources[0] == ab.change.source && sources[1] == a.change.source && sources[2] == c;
    GroupGoesLast(w.lists, PlaceIn(sources, w.at, ab.change));
    assert [["c"], ["a"]][1] == ["a"];
    ListedStays(half.lists, "a", PlaceIn(sources, half.at, a.change));
    RootOrder(sources, end.there, 1, 2);
    OutAtRoot(sources, end, ["c"], ["a"]);
  }

  lemma GroupGoesLast(lists: Lists, place: Place)
    requires lists == map[ROOT := [["c"]]]
    ensures ListOf(Made(lists, ["a", "b"], place), ROOT) == [["c"], ["a"]]
  {
    MadeAt(lists, ["a", "b"], place, ROOT);
    assert ["a", "b"][..1] == ["a"] && [["c"]][0] == ["c"];
  }

  /**
   An entry placed after one that was refused goes last: of `a`, `b` and `c` in the
   config, with `c` there and `a` refused, `b` is listed after `c`.
   */
  lemma RefusedPutsLast(sources: seq<Source>, c: Source, a: Change, b: Change)
    requires a.path == ["a"] && b.path == ["b"] && Distinct(sources) && sources == [a.source, b.source, c]
    ensures var (w, adds) := (Start([["c"]], c, ["c"]), [Answered(a, false), Answered(b, true)]);
            && Sound(w) && EachInOrder(sources, w) && CanAddAll(sources, w, adds)
            && !EachInOrder(sources, AddedAll(sources, w, adds))
  {
    var (w, first, second) := (Start([["c"]], c, ["c"]), Answered(a, false), Answered(b, true));
    assert sources[0] == a.source && sources[1] == b.source && sources[2] == c;
    StartIsSound([["c"]], sources, c, ["c"]);
    TwoCanBeAdded(sources, w, first, second);
    AddsTwo(sources, w, first, second);
    RefusedEnd(sources, c, first, second);
  }

  lemma RefusedEnd(sources: seq<Source>, c: Source, a: Answered, b: Answered)
    requires !a.accepted && b.accepted && a.change.path == ["a"] && b.change.path == ["b"]
    requires Distinct(sources) && sources == [a.change.source, b.change.source, c]
    ensures !EachInOrder(sources, Added(sources, Added(sources, Start([["c"]], c, ["c"]), a), b))
  {
    var w := Start([["c"]], c, ["c"]);
    var half := Added(sources, w, a);
    var end := Added(sources, half, b);
    assert sources[0] == a.change.source && sources[1] == b.change.source && sources[2] == c;
    AfterMissing(w.lists);
    AfterRefused(sources, half.at, b.change);
    RootOrder(sources, end.there, 1, 2);
    OutAtRoot(sources, end, ["c"], ["b"]);
  }

  lemma AfterMissing(lists: Lists)
    requires lists == map[ROOT := [["c"]]]
    ensures ListOf(Made(lists, ["b"], After(["a"])), ROOT) == [["c"], ["b"]]
  {
    MadeAt(lists, ["b"], After(["a"]), ROOT);
    assert ["b"][..1] == ["b"] && [["c"]][0] == ["c"];
  }

  lemma AfterRefused(sources: seq<Source>, at: At, b: Change)
    requires |sources| == 3 && Distinct(sources) && sources[1] == b.source && b.path == ["b"]
    requires sources[0] in at && at[sources[0]] == ["a"]
    ensures PlaceIn(sources, at, b) == After(["a"])
  {
    assert sources[0] != sources[1];
    assert Parent(["a"]) == ROOT && Parent(["b"]) == ROOT;
    assert AfterIn(sources, 1, at, b) == Some(sources[0]);
  }
}
