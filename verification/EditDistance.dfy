/** How far apart two words are, and the known key a mistyped one is closest to. */
module EditDistance {
  import opened Specs

  // ----- Scripts -----

  /** One step of turning a word into another, from its start to its end. */
  datatype Edit = Insert(c: char) | Delete(c: char) | Change(c: char, to: char)

  function EditCost(edit: Edit): nat {
    if edit.Change? && edit.c == edit.to then 0 else 1
  }

  function Cost(script: seq<Edit>): nat {
    if script == [] then 0 else Cost(script[..|script| - 1]) + EditCost(script[|script| - 1])
  }

  function FromOf(edit: Edit): string { if edit.Insert? then [] else [edit.c] }

  function ToOf(edit: Edit): string { if edit.Insert? then [edit.c] else if edit.Change? then [edit.to] else [] }

  /** The word a script starts from. */
  function From(script: seq<Edit>): string {
    if script == [] then "" else From(script[..|script| - 1]) + FromOf(script[|script| - 1])
  }

  /** The word it ends with. */
  function To(script: seq<Edit>): string {
    if script == [] then "" else To(script[..|script| - 1]) + ToOf(script[|script| - 1])
  }

  lemma ScriptMore(script: seq<Edit>, edit: Edit)
    ensures From(script + [edit]) == From(script) + FromOf(edit)
    ensures To(script + [edit]) == To(script) + ToOf(edit)
    ensures Cost(script + [edit]) == Cost(script) + EditCost(edit)
  {
    assert (script + [edit])[..|script|] == script;
  }

  /** Turns one word into another at a cost no script is below. */
  ghost predicate Cheapest(a: string, b: string, cost: nat) {
    && (exists script :: From(script) == a && To(script) == b && Cost(script) == cost)
    && (forall script | From(script) == a && To(script) == b :: cost <= Cost(script))
  }

  // ----- The distance -----

  function Min(a: nat, b: nat): nat { if a < b then a else b }

  function Differ(c: char, d: char): nat { if c == d then 0 else 1 }

  /** The distance of the first `i` characters from the first `j`. */
  function Distance(a: string, b: string, i: nat, j: nat): nat
    requires i <= |a| && j <= |b|
  {
    if i == 0 then j
    else if j == 0 then i
    else Min(Min(Distance(a, b, i - 1, j) + 1, Distance(a, b, i, j - 1) + 1),
             Distance(a, b, i - 1, j - 1) + Differ(a[i - 1], b[j - 1]))
  }

  lemma FirstMore(a: string, i: nat)
    requires i < |a|
    ensures a[..i + 1] == a[..i] + [a[i]]
  {
  }

  lemma WithEdit(a: string, b: string, i: nat, j: nat, script: seq<Edit>, edit: Edit)
    requires i < |a| + 1 && j < |b| + 1
    requires var (m, n) := (if edit.Insert? then i else i - 1, if edit.Delete? then j else j - 1);
             m >= 0 && n >= 0 && From(script) == a[..m] && To(script) == b[..n]
    requires (!edit.Insert? ==> edit.c == a[i - 1]) && (edit.Insert? ==> edit.c == b[j - 1]) && (edit.Change? ==> edit.to == b[j - 1])
    ensures From(script + [edit]) == a[..i] && To(script + [edit]) == b[..j]
    ensures Cost(script + [edit]) == Cost(script) + EditCost(edit)
  {
    ScriptMore(script, edit);
    if !edit.Insert? { FirstMore(a, i - 1); }
    if !edit.Delete? { FirstMore(b, j - 1); }
  }

  /** A script of that cost. */
  lemma {:induction false} ScriptFor(a: string, b: string, i: nat, j: nat) returns (script: seq<Edit>)
    requires i <= |a| && j <= |b|
    ensures From(script) == a[..i] && To(script) == b[..j] && Cost(script) == Distance(a, b, i, j)
    decreases i + j
  {
    if i == 0 && j == 0 {
      script := [];
    } else {
      var d := Distance(a, b, i, j);
      var edit;
      if j > 0 && d == Distance(a, b, i, j - 1) + 1 {
        script := ScriptFor(a, b, i, j - 1);
        edit := Insert(b[j - 1]);
      } else if i > 0 && d == Distance(a, b, i - 1, j) + 1 {
        script := ScriptFor(a, b, i - 1, j);
        edit := Delete(a[i - 1]);
      } else {
        script := ScriptFor(a, b, i - 1, j - 1);
        edit := Change(a[i - 1], b[j - 1]);
      }
      WithEdit(a, b, i, j, script, edit);
      script := script + [edit];
    }
  }

  lemma LastOf(s: string, c: char, a: string, i: nat)
    requires i <= |a| && a[..i] == s + [c]
    ensures i > 0 && a[i - 1] == c && a[..i - 1] == s
  {
    assert |a[..i]| == |s| + 1;
    assert a[..i][i - 1] == c;
    assert a[..i - 1] == a[..i][..i - 1];
  }

  /** One edit brings the distance no farther down than its cost. */
  lemma DistanceBounds(a: string, b: string, i: nat, j: nat)
    requires i <= |a| && j <= |b|
    ensures i > 0 ==> Distance(a, b, i, j) <= Distance(a, b, i - 1, j) + 1
    ensures j > 0 ==> Distance(a, b, i, j) <= Distance(a, b, i, j - 1) + 1
    ensures i > 0 && j > 0 ==> Distance(a, b, i, j) <= Distance(a, b, i - 1, j - 1) + Differ(a[i - 1], b[j - 1])
  {
  }

  /** What the last edit of a script comes after. */
  lemma BeforeLast(a: string, b: string, i: nat, j: nat, script: seq<Edit>)
    requires i <= |a| && j <= |b| && From(script) == a[..i] && To(script) == b[..j] && script != []
    ensures var (init, edit) := (script[..|script| - 1], script[|script| - 1]);
            var (m, n) := (if edit.Insert? then i else i - 1, if edit.Delete? then j else j - 1);
            && 0 <= m && 0 <= n && From(init) == a[..m] && To(init) == b[..n]
            && (edit.Change? ==> edit.c == a[m] && edit.to == b[n])
  {
    var (init, edit) := (script[..|script| - 1], script[|script| - 1]);
    if !edit.Insert? { LastOf(From(init), edit.c, a, i); }
    if !edit.Delete? { LastOf(To(init), ToOf(edit)[0], b, j); }
  }

  /** No script costs less. */
  lemma {:induction false} NoneCheaper(a: string, b: string, i: nat, j: nat, script: seq<Edit>)
    requires i <= |a| && j <= |b| && From(script) == a[..i] && To(script) == b[..j]
    ensures Distance(a, b, i, j) <= Cost(script)
    decreases |script|
  {
    if script == [] {
    } else {
      var (init, edit) := (script[..|script| - 1], script[|script| - 1]);
      BeforeLast(a, b, i, j, script);
      DistanceBounds(a, b, i, j);
      NoneCheaper(a, b, if edit.Insert? then i else i - 1, if edit.Delete? then j else j - 1, init);
    }
  }

  function Apart(a: string, b: string): nat {
    Distance(a, b, |a|, |b|)
  }

  /** The distance is the cost of a cheapest way to turn one word into the other. */
  lemma ApartIsCheapest(a: string, b: string)
    ensures Cheapest(a, b, Apart(a, b))
  {
    assert a[..|a|] == a && b[..|b|] == b;
    var script := ScriptFor(a, b, |a|, |b|);
    forall other | From(other) == a && To(other) == b ensures Apart(a, b) <= Cost(other) {
      NoneCheaper(a, b, |a|, |b|, other);
    }
  }

  // ----- It is a distance -----

  function Undo(edit: Edit): Edit {
    match edit
    case Insert(c) => Delete(c)
    case Delete(c) => Insert(c)
    case Change(c, to) => Change(to, c)
  }

  lemma {:induction false} Undone(script: seq<Edit>) returns (back: seq<Edit>)
    ensures From(back) == To(script) && To(back) == From(script) && Cost(back) == Cost(script)
  {
    back := [];
    if script != [] {
      var (init, edit) := (script[..|script| - 1], script[|script| - 1]);
      back := Undone(init);
      ScriptMore(back, Undo(edit));
      back := back + [Undo(edit)];
    }
  }

  lemma NoFarther(a: string, b: string)
    ensures Apart(b, a) <= Apart(a, b)
  {
    ApartIsCheapest(a, b);
    ApartIsCheapest(b, a);
    var script :| From(script) == a && To(script) == b && Cost(script) == Apart(a, b);
    var back := Undone(script);
  }

  lemma Symmetric(a: string, b: string)
    ensures Apart(a, b) == Apart(b, a)
  {
    NoFarther(a, b);
    NoFarther(b, a);
  }

  lemma {:induction false} FreeIsSame(script: seq<Edit>)
    requires Cost(script) == 0
    ensures From(script) == To(script)
  {
    if script != [] {
      FreeIsSame(script[..|script| - 1]);
    }
  }

  lemma {:induction false} Unchanged(a: string) returns (script: seq<Edit>)
    ensures From(script) == a && To(script) == a && Cost(script) == 0
  {
    script := [];
    if a != "" {
      var c := a[|a| - 1];
      script := Unchanged(a[..|a| - 1]);
      ScriptMore(script, Change(c, c));
      script := script + [Change(c, c)];
    }
  }

  /** Only equal words are no distance apart. */
  lemma ZeroIsSame(a: string, b: string)
    ensures Apart(a, b) == 0 <==> a == b
  {
    ApartIsCheapest(a, b);
    if Apart(a, b) == 0 {
      var script :| From(script) == a && To(script) == b && Cost(script) == 0;
      FreeIsSame(script);
    }
    if a == b {
      var script := Unchanged(a);
    }
  }

  lemma SameLast(x: string, c: char, y: string, d: char)
    requires x + [c] == y + [d]
    ensures x == y && c == d
  {
    assert x == (x + [c])[..|x|] && y == (y + [d])[..|y|];
    assert c == (x + [c])[|x|] && d == (y + [d])[|y|];
  }

  /** The edit that does what two in a row do; none when the second takes away what the first put in. */
  function Both(first: Edit, second: Edit): seq<Edit>
    requires !first.Delete? && !second.Insert?
  {
    if first.Insert? then (if second.Delete? then [] else [Insert(second.to)])
    else if second.Delete? then [Delete(first.c)]
    else [Change(first.c, second.to)]
  }

  /** One script for two in a row, no dearer than both. */
  lemma {:induction false} OneScript(first: seq<Edit>, second: seq<Edit>) returns (script: seq<Edit>)
    requires To(first) == From(second)
    ensures From(script) == From(first) && To(script) == To(second) && Cost(script) <= Cost(first) + Cost(second)
    decreases |first| + |second|
  {
    if second != [] && second[|second| - 1].Insert? {
      script := OneScript(first, second[..|second| - 1]);
      ScriptMore(script, second[|second| - 1]);
      script := script + [second[|second| - 1]];
    } else if first != [] && first[|first| - 1].Delete? {
      script := OneScript(first[..|first| - 1], second);
      ScriptMore(script, first[|first| - 1]);
      script := script + [first[|first| - 1]];
    } else if first == [] || second == [] {
      script := [];
    } else {
      script := OneScriptAtEnd(first, second);
    }
  }

  lemma {:induction false} OneScriptAtEnd(first: seq<Edit>, second: seq<Edit>) returns (script: seq<Edit>)
    requires To(first) == From(second) && first != [] && second != []
    requires !first[|first| - 1].Delete? && !second[|second| - 1].Insert?
    ensures From(script) == From(first) && To(script) == To(second) && Cost(script) <= Cost(first) + Cost(second)
    decreases |first| + |second|, 0
  {
    var (a, e) := (first[..|first| - 1], first[|first| - 1]);
    var (b, f) := (second[..|second| - 1], second[|second| - 1]);
    SameLast(To(a), ToOf(e)[0], From(b), FromOf(f)[0]);
    script := OneScript(a, b);
    var both := Both(e, f);
    if both != [] {
      ScriptMore(script, both[0]);
      script := script + both;
    }
  }

  /** By way of another word it is no shorter. */
  lemma Triangle(a: string, b: string, c: string)
    ensures Apart(a, c) <= Apart(a, b) + Apart(b, c)
  {
    ApartIsCheapest(a, b);
    ApartIsCheapest(b, c);
    ApartIsCheapest(a, c);
    var first :| From(first) == a && To(first) == b && Cost(first) == Apart(a, b);
    var second :| From(second) == b && To(second) == c && Cost(second) == Apart(b, c);
    var script := OneScript(first, second);
  }

  // ----- Two rows -----

  /** The distances of the first `i` characters of one word from each beginning of the other. */
  ghost function Row(a: string, b: string, i: nat): seq<nat>
    requires i <= |a|
  {
    seq(|b| + 1, j requires 0 <= j <= |b| => Distance(a, b, i, j))
  }

  lemma RowStep(a: string, b: string, i: nat, j: nat)
    requires i < |a| && j < |b|
    ensures Row(a, b, i + 1)[j + 1] ==
            Min(Min(Row(a, b, i)[j + 1] + 1, Row(a, b, i + 1)[j] + 1), Row(a, b, i)[j] + Differ(a[i], b[j]))
  {
  }

  /** A row from the row before. */
  method NextRow(a: string, b: string, i: nat, prev: array<nat>, cur: array<nat>)
    requires i < |a| && prev != cur && prev.Length == cur.Length == |b| + 1 && prev[..] == Row(a, b, i)
    modifies cur
    ensures cur[..] == Row(a, b, i + 1)
  {
    ghost var (was, now) := (Row(a, b, i), Row(a, b, i + 1));
    cur[0] := i + 1;
    for j := 0 to |b|
      invariant forall k | 0 <= k <= j :: cur[k] == now[k]
    {
      RowStep(a, b, i, j);
      assert prev[j] == was[j] && prev[j + 1] == was[j + 1];
      var cost := if a[i] == b[j] then 0 else 1;
      cur[j + 1] := Min(Min(prev[j + 1] + 1, cur[j] + 1), prev[j] + cost);
    }
  }

  /** The distance, a row at a time with only the row before kept. */
  method Measure(a: string, b: string) returns (distance: nat)
    ensures distance == Apart(a, b)
  {
    var prev := new nat[|b| + 1](j => j);
    var cur := new nat[|b| + 1](j => 0);
    assert prev[..] == Row(a, b, 0);
    for i := 0 to |a|
      invariant prev != cur && prev.Length == cur.Length == |b| + 1 && fresh(prev) && fresh(cur)
      invariant prev[..] == Row(a, b, i)
    {
      NextRow(a, b, i, prev, cur);
      prev, cur := cur, prev;
    }
    assert prev[..][|b|] == Row(a, b, |a|)[|b|];
    distance := prev[|b|];
  }

  // ----- The closest known key -----

  /** Without `_` and `-`, in lower case. */
  function Normalized(s: string, lower: char -> string): string {
    if s == "" then ""
    else Normalized(s[..|s| - 1], lower) + if s[|s| - 1] in "_-" then "" else lower(s[|s| - 1])
  }

  lemma {:induction false} NormalizedSum(a: string, b: string, lower: char -> string)
    ensures Normalized(a + b, lower) == Normalized(a, lower) + Normalized(b, lower)
  {
    if b == "" {
      assert a + b == a;
    } else {
      var (init, last) := (b[..|b| - 1], b[|b| - 1]);
      assert (a + b)[..|a + b| - 1] == a + init && (a + b)[|a + b| - 1] == last;
      NormalizedSum(a, init, lower);
    }
  }

  lemma NormalizedOne(c: char, lower: char -> string)
    ensures Normalized([c], lower) == if c == '_' || c == '-' then "" else lower(c)
  {
    assert [c][..0] == "";
  }

  /** Where a `_` or a `-` is makes no difference, and any other character counts in lower case. */
  lemma SeparatorsIgnored(a: string, c: char, b: string, lower: char -> string)
    ensures Normalized(a + [c] + b, lower) ==
            if c == '_' || c == '-' then Normalized(a + b, lower) else Normalized(a, lower) + lower(c) + Normalized(b, lower)
  {
    NormalizedSum(a + [c], b, lower);
    NormalizedSum(a, [c], lower);
    NormalizedSum(a, b, lower);
    NormalizedOne(c, lower);
  }

  function ByteCount(c: char): nat {
    if c < 0x80 as char then 1 else if c < 0x800 as char then 2 else if c < 0x10000 as char then 3 else 4
  }

  /** The length in UTF-8. */
  function Bytes(s: string): nat {
    if s == "" then 0 else Bytes(s[..|s| - 1]) + ByteCount(s[|s| - 1])
  }

  function Bound(word: string): nat { if Bytes(word) <= 4 then 1 else 2 }

  function Off(unknown: string, key: string, lower: char -> string): nat {
    Apart(Normalized(unknown, lower), Normalized(key, lower))
  }

  /** The first key that is the same but for case, `_` and `-`. */
  ghost predicate FirstSame(unknown: string, known: seq<string>, lower: char -> string, n: nat) {
    && n < |known| && Normalized(known[n], lower) == Normalized(unknown, lower)
    && forall k | 0 <= k < n :: Normalized(known[k], lower) != Normalized(unknown, lower)
  }

  /** How far each known key is off. */
  ghost function Offs(unknown: string, known: seq<string>, lower: char -> string): (offs: seq<nat>)
    ensures |offs| == |known|
  {
    seq(|known|, k requires 0 <= k < |known| => Off(unknown, known[k], lower))
  }

  /** The first of the least, when that is within a bound. */
  ghost predicate FirstLeast(offs: seq<nat>, bound: nat, n: nat) {
    && n < |offs| && offs[n] <= bound
    && (forall k | 0 <= k < |offs| :: offs[n] <= offs[k])
    && (forall k | 0 <= k < n :: offs[n] < offs[k])
  }

  /** The first of the least of the first `n` that are within a bound, if any are. */
  ghost predicate BestTo(offs: seq<nat>, bound: nat, n: nat, best: Option<nat>)
    requires n <= |offs|
  {
    match best
    case Some(b) => FirstLeast(offs[..n], bound, b)
    case None => forall k | 0 <= k < n :: offs[k] > bound
  }

  lemma BestMore(offs: seq<nat>, bound: nat, n: nat, best: Option<(nat, nat)>)
    requires n < |offs| && BestIs(offs, bound, n, best)
    ensures BestIs(offs, bound, n + 1, if offs[n] <= bound && (best.None? || best.value.1 > offs[n]) then Some((n, offs[n])) else best)
  {
  }

  /** The first key the same once normalized, or else the first of the closest; none when no key is near. */
  method SuggestKey(unknown: string, known: seq<string>, lower: char -> string) returns (key: Option<nat>)
    ensures BestTo(Offs(unknown, known, lower), Bound(Normalized(unknown, lower)), |known|, key)
    ensures (exists n :: FirstSame(unknown, known, lower, n)) ==> key.Some? && FirstSame(unknown, known, lower, key.value)
  {
    var word := Normalized(unknown, lower);
    ghost var offs := Offs(unknown, known, lower);
    var best: Option<(nat, nat)> := None;
    for n := 0 to |known|
      invariant forall k | 0 <= k < n :: offs[k] > 0
      invariant BestIs(offs, Bound(word), n, best)
    {
      var same := Normalized(known[n], lower);
      OffZero(unknown, known, lower, n);
      if same == word {
        SameIsBest(unknown, known, lower, n);
        return Some(n);
      }
      var distance := Measure(word, same);
      var bound := if Bytes(word) <= 4 then 1 else 2;
      BestMore(offs, bound, n, best);
      if distance <= bound && (best.None? || best.value.1 > distance) {
        best := Some((n, distance));
      }
    }
    NoneSame(unknown, known, lower);
    return if best.Some? then Some(best.value.0) else None;
  }

  /** The best so far, with how far off it is. */
  ghost predicate BestIs(offs: seq<nat>, bound: nat, n: nat, best: Option<(nat, nat)>)
    requires n <= |offs|
  {
    && BestTo(offs, bound, n, if best.Some? then Some(best.value.0) else None)
    && (best.Some? ==> best.value.0 < n && best.value.1 == offs[best.value.0])
  }

  lemma NoneSame(unknown: string, known: seq<string>, lower: char -> string)
    requires forall k | 0 <= k < |known| :: Offs(unknown, known, lower)[k] > 0
    ensures forall n: nat :: !FirstSame(unknown, known, lower, n)
  {
    forall n: nat ensures !FirstSame(unknown, known, lower, n) {
      if n < |known| {
        OffZero(unknown, known, lower, n);
      }
    }
  }

  lemma OffZero(unknown: string, known: seq<string>, lower: char -> string, n: nat)
    requires n < |known|
    ensures Offs(unknown, known, lower)[n] == Apart(Normalized(unknown, lower), Normalized(known[n], lower))
    ensures Offs(unknown, known, lower)[n] == 0 <==> Normalized(unknown, lower) == Normalized(known[n], lower)
  {
    ZeroIsSame(Normalized(unknown, lower), Normalized(known[n], lower));
  }

  /** A key the same once normalized is the closest, when none before it is. */
  lemma SameIsBest(unknown: string, known: seq<string>, lower: char -> string, n: nat)
    requires n < |known| && Offs(unknown, known, lower)[n] == 0
    requires forall k | 0 <= k < n :: Offs(unknown, known, lower)[k] > 0
    ensures BestTo(Offs(unknown, known, lower), Bound(Normalized(unknown, lower)), |known|, Some(n))
    ensures FirstSame(unknown, known, lower, n)
  {
    forall k: nat | k <= n ensures Normalized(known[k], lower) == Normalized(unknown, lower) <==> k == n {
      OffZero(unknown, known, lower, k);
    }
    assert Offs(unknown, known, lower)[..|known|] == Offs(unknown, known, lower);
  }
}
