/**
 A worklist emptied round by round: each round takes the elements that need
 none of those still pending, or all that are left when there is none.
 */
module Worklist {

  predicate IsReady<T(==)>(needs: (T, T) -> bool, x: T, pending: seq<T>) {
    forall dep | dep in pending :: !needs(x, dep)
  }

  /** The elements that are ready, or those that are not, in their order. */
  function Select<T(==)>(needs: (T, T) -> bool, list: seq<T>, pending: seq<T>, ready: bool): seq<T> {
    if list == [] then []
    else
      var (rest, last) := (Select(needs, list[..|list| - 1], pending, ready), list[|list| - 1]);
      if IsReady(needs, last, pending) == ready then rest + [last] else rest
  }

  lemma {:induction false} SelectSizes<T>(needs: (T, T) -> bool, list: seq<T>, pending: seq<T>)
    ensures |Select(needs, list, pending, true)| + |Select(needs, list, pending, false)| == |list|
  {
    if list != [] {
      SelectSizes(needs, list[..|list| - 1], pending);
    }
  }

  lemma {:induction false} SelectHas<T>(needs: (T, T) -> bool, list: seq<T>, pending: seq<T>, ready: bool, x: T)
    ensures x in Select(needs, list, pending, ready) <==> x in list && IsReady(needs, x, pending) == ready
  {
    if list != [] {
      var last := |list| - 1;
      SelectHas(needs, list[..last], pending, ready, x);
      assert x in list <==> x in list[..last] || x == list[last];
    }
  }

  lemma {:induction false} SelectKeeps<T>(needs: (T, T) -> bool, list: seq<T>, pending: seq<T>)
    ensures multiset(Select(needs, list, pending, true)) + multiset(Select(needs, list, pending, false)) == multiset(list)
  {
    if list != [] {
      var last := |list| - 1;
      SelectKeeps(needs, list[..last], pending);
      assert list == list[..last] + [list[last]];
    }
  }

  lemma {:induction false} NoneSelected<T>(needs: (T, T) -> bool, list: seq<T>, pending: seq<T>)
    requires Select(needs, list, pending, true) == []
    ensures Select(needs, list, pending, false) == list
  {
    if list != [] {
      var last := |list| - 1;
      assert list == list[..last] + [list[last]];
      NoneSelected(needs, list[..last], pending);
    }
  }

  function Rounds<T(==)>(needs: (T, T) -> bool, list: seq<T>): seq<T>
    decreases |list|
  {
    var ready := Select(needs, list, list, true);
    SelectSizes(needs, list, list);
    if ready == [] then list else ready + Rounds(needs, Select(needs, list, list, false))
  }

  // ----- The loop -----

  method Partition<T(==)>(needs: (T, T) -> bool, list: seq<T>) returns (ready: seq<T>, waiting: seq<T>)
    ensures ready == Select(needs, list, list, true) && waiting == Select(needs, list, list, false)
  {
    ready, waiting := [], [];
    for i := 0 to |list|
      invariant ready == Select(needs, list[..i], list, true)
      invariant waiting == Select(needs, list[..i], list, false)
    {
      assert list[..i + 1][..i] == list[..i];
      if IsReady(needs, list[i], list) {
        ready := ready + [list[i]];
      } else {
        waiting := waiting + [list[i]];
      }
    }
    assert list[..|list|] == list;
  }

  /** What a round takes, and what it leaves. */
  method Round<T(==)>(needs: (T, T) -> bool, list: seq<T>) returns (ready: seq<T>, waiting: seq<T>)
    requires list != []
    ensures Rounds(needs, list) == ready + Rounds(needs, waiting)
    ensures |waiting| < |list|
  {
    ready, waiting := Partition(needs, list);
    SelectSizes(needs, list, list);
    if ready == [] {
      NoneSelected(needs, list, list);
      ready, waiting := waiting, ready;
      assert Rounds(needs, list) == list;
    }
  }

  /** Ends whatever is needed: a round with nothing ready takes all that is left. */
  method Order<T(==)>(needs: (T, T) -> bool, list: seq<T>) returns (order: seq<T>)
    ensures order == Rounds(needs, list)
  {
    var adds := list;
    order := [];
    while adds != []
      invariant order + Rounds(needs, adds) == Rounds(needs, list)
      decreases |adds|
    {
      var ready, waiting := Round(needs, adds);
      assert order + (ready + Rounds(needs, waiting)) == (order + ready) + Rounds(needs, waiting);
      order, adds := order + ready, waiting;
    }
  }

  // ----- Each element exactly once -----

  /** Every element comes exactly once, whatever is needed, cycles included. */
  lemma {:induction false} EachOnce<T>(needs: (T, T) -> bool, list: seq<T>)
    ensures multiset(Rounds(needs, list)) == multiset(list)
    decreases |list|
  {
    SelectSizes(needs, list, list);
    if Select(needs, list, list, true) != [] {
      EachOnce(needs, Select(needs, list, list, false));
      SelectKeeps(needs, list, list);
    }
  }

  lemma InRounds<T>(needs: (T, T) -> bool, list: seq<T>, x: T)
    ensures x in Rounds(needs, list) <==> x in list
  {
    EachOnce(needs, list);
    assert x in Rounds(needs, list) <==> x in multiset(Rounds(needs, list));
  }

  // ----- What needs nothing comes first -----

  lemma {:induction false} AllReady<T>(needs: (T, T) -> bool, list: seq<T>, pending: seq<T>)
    requires forall x | x in list :: IsReady(needs, x, pending)
    ensures Select(needs, list, pending, true) == list && Select(needs, list, pending, false) == []
  {
    if list != [] {
      var last := |list| - 1;
      AllReady(needs, list[..last], pending);
      assert list == list[..last] + [list[last]];
    }
  }

  lemma {:induction false} SelectOfSum<T>(needs: (T, T) -> bool, a: seq<T>, b: seq<T>, pending: seq<T>, ready: bool)
    ensures Select(needs, a + b, pending, ready) == Select(needs, a, pending, ready) + Select(needs, b, pending, ready)
  {
    if b == [] {
      assert a + b == a;
    } else {
      var last := |b| - 1;
      SelectOfSum(needs, a, b[..last], pending, ready);
      assert (a + b)[..|a + b| - 1] == a + b[..last];
    }
  }

  lemma RoundIn<T>(needs: (T, T) -> bool, list: seq<T>, pending: seq<T>, x: T)
    requires x in Select(needs, list, pending, true) + Rounds(needs, Select(needs, list, pending, false))
    ensures x in list
  {
    var waiting := Select(needs, list, pending, false);
    SelectHas(needs, list, pending, true, x);
    SelectHas(needs, list, pending, false, x);
    InRounds(needs, waiting, x);
  }

  /** A round over elements that need nothing and others takes the first all, and in front. */
  lemma FreeRound<T>(needs: (T, T) -> bool, free: seq<T>, rest: seq<T>, all: seq<T>)
    requires all == free + rest
    requires forall x | x in free :: IsReady(needs, x, all)
    ensures Select(needs, all, all, true) == free + Select(needs, rest, all, true)
    ensures Select(needs, all, all, false) == Select(needs, rest, all, false)
  {
    AllReady(needs, free, all);
    SelectOfSum(needs, free, rest, all, true);
    SelectOfSum(needs, free, rest, all, false);
  }

  /** Elements at the front that need nothing stay at the front. */
  lemma FreeFirst<T>(needs: (T, T) -> bool, free: seq<T>, rest: seq<T>) returns (tail: seq<T>)
    requires forall x | x in free :: IsReady(needs, x, free + rest)
    ensures Rounds(needs, free + rest) == free + tail
    ensures forall x | x in tail :: x in rest
  {
    var all := free + rest;
    FreeRound(needs, free, rest, all);
    var (ready, waiting) := (Select(needs, rest, all, true), Select(needs, rest, all, false));
    if free + ready == [] {
      tail := rest;
    } else {
      tail := ready + Rounds(needs, waiting);
      assert free + tail == (free + ready) + Rounds(needs, waiting);
      forall x | x in tail ensures x in rest {
        RoundIn(needs, rest, all, x);
      }
    }
  }

  // ----- After what they need -----

  /** Each element comes after all the elements it needs. */
  ghost predicate AfterNeeds<T>(needs: (T, T) -> bool, order: seq<T>) {
    forall i, j | 0 <= i < |order| && 0 <= j < |order| && needs(order[i], order[j]) :: j < i
  }

  /** Each of the chain needs the next. */
  ghost predicate Chain<T>(needs: (T, T) -> bool, chain: seq<T>) {
    forall k | 0 <= k < |chain| - 1 :: needs(chain[k], chain[k + 1])
  }

  ghost predicate IsCycle<T>(needs: (T, T) -> bool, cycle: seq<T>, list: seq<T>) {
    && cycle != [] && Chain(needs, cycle)
    && needs(cycle[|cycle| - 1], cycle[0])
    && forall x | x in cycle :: x in list
  }

  ghost predicate Acyclic<T(!new)>(needs: (T, T) -> bool, list: seq<T>) {
    forall cycle :: !IsCycle(needs, cycle, list)
  }

  /** With nothing ready, a chain of any length can be followed through what each needs. */
  lemma {:induction false} FollowNeeds<T>(needs: (T, T) -> bool, list: seq<T>, n: nat) returns (chain: seq<T>)
    requires list != [] && Select(needs, list, list, true) == []
    ensures |chain| == n && Chain(needs, chain) && forall x | x in chain :: x in list
  {
    if n == 0 {
      chain := [];
    } else if n == 1 {
      chain := [list[0]];
    } else {
      var shorter := FollowNeeds(needs, list, n - 1);
      var last := shorter[n - 2];
      SelectHas(needs, list, list, true, last);
      var dep :| dep in list && needs(last, dep);
      chain := shorter + [dep];
      forall k | 0 <= k < n - 1 ensures needs(chain[k], chain[k + 1]) {
        if k < n - 2 {
          assert needs(shorter[k], shorter[k + 1]);
        }
      }
    }
  }

  lemma {:induction false} Pigeonhole<T>(s: seq<T>, holes: set<T>) returns (i: nat, j: nat)
    requires |s| > |holes| && forall x | x in s :: x in holes
    ensures i < j < |s| && s[i] == s[j]
  {
    assert s[0] in s;
    var last := |s| - 1;
    if s[last] in s[..last] {
      i :| 0 <= i < last && s[..last][i] == s[last];
      j := last;
    } else {
      var (rest, fewer) := (s[..last], holes - {s[last]});
      forall x | x in rest ensures x in fewer {
        assert x in s;
      }
      i, j := Pigeonhole(rest, fewer);
    }
  }

  lemma {:induction false} SetOfSeqSize<T>(s: seq<T>)
    ensures |set x | x in s| <= |s|
  {
    if s != [] {
      var last := |s| - 1;
      SetOfSeqSize(s[..last]);
      assert (set x | x in s) == (set x | x in s[..last]) + {s[last]};
    }
  }

  /** A round with nothing ready means a cycle. */
  lemma NothingReadyIsCycle<T>(needs: (T, T) -> bool, list: seq<T>) returns (cycle: seq<T>)
    requires list != [] && Select(needs, list, list, true) == []
    ensures IsCycle(needs, cycle, list)
  {
    var chain := FollowNeeds(needs, list, |list| + 1);
    SetOfSeqSize(list);
    var i, j := Pigeonhole(chain, set x | x in list);
    cycle := chain[i..j];
    forall k | 0 <= k < |cycle| - 1 ensures needs(cycle[k], cycle[k + 1]) {
      assert needs(chain[i + k], chain[i + k + 1]);
    }
    assert needs(chain[j - 1], chain[j - 1 + 1]);
    assert forall x | x in cycle :: x in chain;
  }

  lemma FewerAcyclic<T(!new)>(needs: (T, T) -> bool, list: seq<T>, fewer: seq<T>)
    requires Acyclic(needs, list) && forall x | x in fewer :: x in list
    ensures Acyclic(needs, fewer)
  {
    forall cycle ensures !IsCycle(needs, cycle, fewer) {
      assert !IsCycle(needs, cycle, list);
    }
  }

  lemma {:induction false} RoundsAfterNeeds<T(!new)>(needs: (T, T) -> bool, list: seq<T>)
    requires Acyclic(needs, list)
    ensures AfterNeeds(needs, Rounds(needs, list))
    decreases |list|
  {
    var (ready, waiting) := (Select(needs, list, list, true), Select(needs, list, list, false));
    if list == [] {
    } else if ready == [] {
      var cycle := NothingReadyIsCycle(needs, list);
    } else {
      forall x | x in waiting ensures x in list {
        SelectHas(needs, list, list, false, x);
      }
      SelectSizes(needs, list, list);
      FewerAcyclic(needs, list, waiting);
      RoundsAfterNeeds(needs, waiting);
      var rest := Rounds(needs, waiting);
      var order := ready + rest;
      forall i, j | 0 <= i < |order| && 0 <= j < |order| && needs(order[i], order[j])
        ensures j < i
      {
        InRounds(needs, list, order[j]);
        if i < |ready| {
          SelectHas(needs, list, list, true, order[i]);
        } else if j >= |ready| {
          assert needs(rest[i - |ready|], rest[j - |ready|]);
        }
      }
    }
  }

  /** Down a chain in an order that has each after what it needs, the places only go down. */
  lemma {:induction false} ChainGoesDown<T>(needs: (T, T) -> bool, order: seq<T>, chain: seq<T>, k: nat, at: nat)
    returns (down: nat)
    requires AfterNeeds(needs, order) && Chain(needs, chain) && k < |chain|
    requires forall x | x in chain :: x in order
    requires at < |order| && order[at] == chain[0]
    ensures down <= at && order[down] == chain[k]
  {
    if k == 0 {
      down := at;
    } else {
      var above := ChainGoesDown(needs, order, chain, k - 1, at);
      assert chain[k] in order;
      assert needs(chain[k - 1], chain[k - 1 + 1]);
      down :| 0 <= down < |order| && order[down] == chain[k];
    }
  }

  lemma CycleBreaksOrder<T>(needs: (T, T) -> bool, order: seq<T>, cycle: seq<T>)
    requires IsCycle(needs, cycle, order)
    ensures !AfterNeeds(needs, order)
  {
    if AfterNeeds(needs, order) {
      assert cycle[0] in order;
      var at :| 0 <= at < |order| && order[at] == cycle[0];
      var down := ChainGoesDown(needs, order, cycle, |cycle| - 1, at);
      assert false;
    }
  }

  /** Each element comes after all those it needs, exactly when there is no cycle. */
  lemma AfterNeedsIffAcyclic<T(!new)>(needs: (T, T) -> bool, list: seq<T>)
    ensures AfterNeeds(needs, Rounds(needs, list)) <==> Acyclic(needs, list)
  {
    var order := Rounds(needs, list);
    if Acyclic(needs, list) {
      RoundsAfterNeeds(needs, list);
    } else {
      var cycle :| IsCycle(needs, cycle, list);
      forall x | x in cycle ensures x in order {
        InRounds(needs, list, x);
      }
      CycleBreaksOrder(needs, order, cycle);
    }
  }

  // ----- The order of the list is kept -----

  lemma {:induction false} NoneReady<T>(needs: (T, T) -> bool, list: seq<T>, pending: seq<T>)
    requires forall x | x in list :: !IsReady(needs, x, pending)
    ensures Select(needs, list, pending, true) == [] && Select(needs, list, pending, false) == list
  {
    if list != [] {
      forall x | x in list[..|list| - 1] ensures x in list {
      }
      NoneReady(needs, list[..|list| - 1], pending);
      assert list[|list| - 1] in list;
    }
  }

  /** With all ready at once the order is the list's, and with none ready too. */
  lemma OneRound<T>(needs: (T, T) -> bool, list: seq<T>)
    requires (forall x | x in list :: IsReady(needs, x, list)) || (forall x | x in list :: !IsReady(needs, x, list))
    ensures Rounds(needs, list) == list
  {
    if list != [] {
      if forall x | x in list :: IsReady(needs, x, list) {
        AllReady(needs, list, list);
      } else {
        NoneReady(needs, list, list);
      }
    }
  }

  /** The elements of a round come in the list's order. */
  lemma {:induction false} SelectedAt<T>(needs: (T, T) -> bool, list: seq<T>, pending: seq<T>, ready: bool) returns (at: seq<nat>)
    ensures var chosen := Select(needs, list, pending, ready);
            && |at| == |chosen| && (forall i | 0 <= i < |at| :: at[i] < |list| && list[at[i]] == chosen[i])
            && forall i, j | 0 <= i < j < |at| :: at[i] < at[j]
  {
    at := [];
    if list != [] {
      at := SelectedAt(needs, list[..|list| - 1], pending, ready);
      if IsReady(needs, list[|list| - 1], pending) == ready {
        at := at + [|list| - 1];
      }
    }
  }
}
