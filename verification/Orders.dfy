/**
 Lists that agree with an order, and how a new element goes into one right
 after the nearest element before it in the order.
 */
module Orders {
  import opened Specs

  predicate Distinct<T(==)>(list: seq<T>) {
    forall i, j | 0 <= i < j < |list| :: list[i] != list[j]
  }

  /** Where an element is in a list from `i` on; past its end when it is not there. */
  function IndexFrom<T(==)>(list: seq<T>, x: T, i: nat): (r: nat)
    requires i <= |list|
    ensures i <= r <= |list|
    ensures r < |list| ==> list[r] == x
    ensures forall j | i <= j < r :: list[j] != x
    decreases |list| - i
  {
    if i == |list| || list[i] == x then i else IndexFrom(list, x, i + 1)
  }

  function IndexOf<T(==)>(list: seq<T>, x: T): (r: nat)
    ensures r <= |list|
    ensures r < |list| <==> x in list
    ensures r < |list| ==> list[r] == x
  {
    IndexFrom(list, x, 0)
  }

  lemma IndexInDistinct<T>(list: seq<T>, i: nat)
    requires Distinct(list) && i < |list|
    ensures IndexOf(list, list[i]) == i
  {
  }

  /** Of the elements the order has, each comes in the list in its order. */
  ghost predicate Agrees<T>(list: seq<T>, order: seq<T>) {
    forall i, j | 0 <= i < j < |list| && list[i] in order && list[j] in order ::
      IndexOf(order, list[i]) < IndexOf(order, list[j])
  }

  /** The last of the order's first `n` elements that the list has. */
  function NearestBefore<T(==)>(list: seq<T>, order: seq<T>, n: nat): (r: Option<nat>)
    requires n <= |order|
    ensures r.Some? ==> r.value < n && order[r.value] in list && forall j | r.value < j < n :: order[j] !in list
    ensures r.None? ==> forall j | 0 <= j < n :: order[j] !in list
  {
    if n == 0 then None
    else if order[n - 1] in list then Some(n - 1)
    else NearestBefore(list, order, n - 1)
  }

  /** How many elements come before one in an order; none when the order has it not. */
  function CountBefore<T(==)>(order: seq<T>, x: T): (n: nat)
    ensures n <= |order|
  {
    if x in order then IndexOf(order, x) else 0
  }

  /** Right after the nearest element before it in the order, or first with none there. */
  function PlaceFor<T(==)>(list: seq<T>, order: seq<T>, x: T): (at: nat)
    ensures at <= |list|
  {
    match NearestBefore(list, order, CountBefore(order, x))
    case Some(k) => IndexOf(list, order[k]) + 1
    case None => 0
  }

  function InsertAt<T>(list: seq<T>, at: nat, x: T): seq<T>
    requires at <= |list|
  {
    list[..at] + [x] + list[at..]
  }

  function InsertInOrder<T(==)>(list: seq<T>, order: seq<T>, x: T): seq<T> {
    InsertAt(list, PlaceFor(list, order, x), x)
  }

  /** Which side of the place for `x` an element of the list is on, as the order has it. */
  lemma PlaceSplits<T>(list: seq<T>, order: seq<T>, x: T, i: nat)
    requires Agrees(list, order) && Distinct(order) && x in order && x !in list
    requires i < |list| && list[i] in order
    ensures i < PlaceFor(list, order, x) <==> IndexOf(order, list[i]) < IndexOf(order, x)
  {
    var n := IndexOf(order, x);
    var near := NearestBefore(list, order, n);
    if near.Some? {
      var at := IndexOf(list, order[near.value]);
      IndexInDistinct(order, near.value);
      assert IndexOf(order, list[at]) == near.value;
    }
  }

  /** A new element put in right after the nearest one before it keeps the list in the order. */
  lemma InsertKeepsOrder<T>(list: seq<T>, order: seq<T>, x: T)
    requires Agrees(list, order) && Distinct(order) && x !in list
    ensures Agrees(InsertInOrder(list, order, x), order)
  {
    var after := InsertInOrder(list, order, x);
    var at := PlaceFor(list, order, x);
    forall i, j | 0 <= i < j < |after| && after[i] in order && after[j] in order
      ensures IndexOf(order, after[i]) < IndexOf(order, after[j])
    {
      if i == at {
        PlaceSplits(list, order, x, j - 1);
      } else if j == at {
        PlaceSplits(list, order, x, i);
      } else {
        assert after[i] == list[if i < at then i else i - 1];
        assert after[j] == list[if j < at then j else j - 1];
      }
    }
  }

  /** Taking an element out keeps the rest in the order. */
  lemma RemoveKeepsOrder<T>(list: seq<T>, order: seq<T>, at: nat)
    requires Agrees(list, order) && at < |list|
    ensures Agrees(list[..at] + list[at + 1..], order)
  {
    var after := list[..at] + list[at + 1..];
    forall i, j | 0 <= i < j < |after| && after[i] in order && after[j] in order
      ensures IndexOf(order, after[i]) < IndexOf(order, after[j])
    {
      assert after[i] == list[if i < at then i else i + 1];
      assert after[j] == list[if j < at then j else j + 1];
    }
  }

  lemma InsertIsDistinct<T>(list: seq<T>, at: nat, x: T)
    requires Distinct(list) && at <= |list| && x !in list
    ensures Distinct(InsertAt(list, at, x))
    ensures forall y :: y in InsertAt(list, at, x) <==> y == x || y in list
  {
    var after := InsertAt(list, at, x);
    assert after[at] == x;
    forall i | 0 <= i < |list| ensures list[i] in after {
      assert after[if i < at then i else i + 1] == list[i];
    }
  }

  function RemoveAt<T>(list: seq<T>, at: nat): seq<T>
    requires at < |list|
  {
    list[..at] + list[at + 1..]
  }

  lemma RemoveIsDistinct<T>(list: seq<T>, at: nat)
    requires Distinct(list) && at < |list|
    ensures Distinct(RemoveAt(list, at))
    ensures forall x :: x in RemoveAt(list, at) <==> x in list && x != list[at]
  {
    var rest := RemoveAt(list, at);
    forall i | 0 <= i < |rest| ensures rest[i] == list[if i < at then i else i + 1] {
    }
    forall x | x in list && x != list[at] ensures x in rest {
      var i := IndexOf(list, x);
      assert rest[if i < at then i else i - 1] == x;
    }
  }
}
