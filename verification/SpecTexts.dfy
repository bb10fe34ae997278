/** A task's definition with its keys in order, as it is kept and shown. */
module SpecTexts {
  import opened Specs

  datatype Pair = Pair(key: Value, value: Value)

  const TASK_KEYS: seq<string> := [
    "label", "type", "cmd", "script", "deps", "tags", "ready", "cwd", "env", "add_path",
    "autostart", "autorestart", "stop", "log", "scrollback_len", "mouse_scroll_speed"
  ]

  /** Where a name is among the keys of a task; any other is last. */
  function RankIn(names: seq<string>, name: string): (r: nat)
    ensures r <= |names|
  {
    if names == [] then 0 else if names[0] == name then 0 else 1 + RankIn(names[1..], name)
  }

  function Rank(key: Value): nat {
    if key.Text? then RankIn(TASK_KEYS, key.text) else |TASK_KEYS|
  }

  /** A definition as the loader makes it has the keys of a task and no other. */
  predicate HasTaskKeys(spec: Spec) {
    forall key | key in spec :: key.Text? && key.text in TASK_KEYS
  }

  lemma TaskKeyIsNoVariable(key: string)
    requires key in TASK_KEYS
    ensures !NamesVariable(key)
  {
    assert key != ENV ==> key[0] != ENV_DOT[0];
  }

  /** Between definitions as the loader makes them, a patch with every changed key leaves none changed. */
  lemma PatchedTaskIsUnchanged(here: Spec, config: Spec, keys: seq<string>)
    requires HasTaskKeys(here) && HasTaskKeys(config) && forall key :: key in keys <==> key in Changed(here, config)
    ensures Changed(Patch(here, config, keys), config) == {}
  {
    forall name | name in Names(here) + Names(config) ensures !NamesVariable(name) {
      TaskKeyIsNoVariable(name);
    }
    PatchedIsUnchanged(here, config, keys);
  }

  /** What is mapped, whatever the order. */
  function SpecOf(entries: seq<Pair>): Spec {
    if entries == [] then map[]
    else SpecOf(entries[..|entries| - 1])[entries[|entries| - 1].key := entries[|entries| - 1].value]
  }

  predicate OnceEach(entries: seq<Pair>) {
    forall i, j | 0 <= i < j < |entries| :: entries[i].key != entries[j].key
  }

  /** Each key comes no later than those ranked after it. */
  predicate Ranked(entries: seq<Pair>) {
    forall i, j | 0 <= i < j < |entries| :: Rank(entries[i].key) <= Rank(entries[j].key)
  }

  function Place(entries: seq<Pair>, key: Value): (at: nat)
    ensures at <= |entries|
    ensures at < |entries| ==> entries[at].key == key
    ensures at == |entries| ==> forall i | 0 <= i < |entries| :: entries[i].key != key
  {
    if entries == [] then 0 else if entries[0].key == key then 0 else 1 + Place(entries[1..], key)
  }

  /** Puts an entry after those ranked no later. */
  function InsertRanked(entries: seq<Pair>, x: Pair): seq<Pair> {
    if entries == [] then [x]
    else
      var (init, last) := (entries[..|entries| - 1], entries[|entries| - 1]);
      if Rank(last.key) <= Rank(x.key) then entries + [x] else InsertRanked(init, x) + [last]
  }

  /** Stable, by rank. */
  function SortRanked(entries: seq<Pair>): seq<Pair> {
    if entries == [] then [] else InsertRanked(SortRanked(entries[..|entries| - 1]), entries[|entries| - 1])
  }

  // ----- What the order makes no difference to -----

  lemma SpecMore(entries: seq<Pair>, x: Pair)
    ensures SpecOf(entries + [x]) == SpecOf(entries)[x.key := x.value]
  {
    assert (entries + [x])[..|entries|] == entries;
  }

  lemma {:induction false} SpecHas(entries: seq<Pair>, i: nat)
    requires OnceEach(entries) && i < |entries|
    ensures entries[i].key in SpecOf(entries) && SpecOf(entries)[entries[i].key] == entries[i].value
  {
    var (init, last) := (entries[..|entries| - 1], entries[|entries| - 1]);
    if i < |entries| - 1 {
      SpecHas(init, i);
    }
  }

  lemma {:induction false} SpecHasNot(entries: seq<Pair>, key: Value)
    requires forall i | 0 <= i < |entries| :: entries[i].key != key
    ensures key !in SpecOf(entries)
  {
    if entries != [] {
      SpecHasNot(entries[..|entries| - 1], key);
    }
  }

  ghost predicate SameEntries(a: seq<Pair>, b: seq<Pair>) {
    forall x :: x in a <==> x in b
  }

  /** The same entries in another order map the same. */
  lemma SpecOfSame(a: seq<Pair>, b: seq<Pair>)
    requires OnceEach(a) && OnceEach(b) && SameEntries(a, b)
    ensures SpecOf(a) == SpecOf(b)
  {
    forall key ensures (key in SpecOf(a) <==> key in SpecOf(b)) && (key in SpecOf(a) ==> SpecOf(a)[key] == SpecOf(b)[key]) {
      var (i, j) := (Place(a, key), Place(b, key));
      if i < |a| {
        SpecHas(a, i);
        assert a[i] in b;
        var k :| 0 <= k < |b| && b[k] == a[i];
        SpecHas(b, k);
      } else {
        SpecHasNot(a, key);
        forall k | 0 <= k < |b| ensures b[k].key != key {
          assert b[k] in a;
        }
        SpecHasNot(b, key);
      }
    }
  }

  lemma {:induction false} InsertHas(entries: seq<Pair>, x: Pair)
    requires OnceEach(entries) && forall i | 0 <= i < |entries| :: entries[i].key != x.key
    ensures var all := InsertRanked(entries, x);
            OnceEach(all) && SameEntries(all, entries + [x])
  {
    if entries == [] {
      assert entries + [x] == [x];
    } else {
      var (init, last) := (entries[..|entries| - 1], entries[|entries| - 1]);
      assert entries == init + [last];
      if Rank(last.key) > Rank(x.key) {
        InsertHas(init, x);
        var rest := InsertRanked(init, x);
        forall i | 0 <= i < |rest| ensures rest[i].key != last.key {
          assert rest[i] in init + [x];
        }
      }
    }
  }

  lemma {:induction false} InsertKeepsRanked(entries: seq<Pair>, x: Pair)
    requires Ranked(entries)
    ensures Ranked(InsertRanked(entries, x))
    ensures forall y | y in InsertRanked(entries, x) :: y == x || y in entries
  {
    if entries != [] {
      var (init, last) := (entries[..|entries| - 1], entries[|entries| - 1]);
      if Rank(last.key) > Rank(x.key) {
        InsertKeepsRanked(init, x);
        var rest := InsertRanked(init, x);
        forall i | 0 <= i < |rest| ensures Rank(rest[i].key) <= Rank(last.key) {
          assert rest[i] in rest;
          assert rest[i] == x || rest[i] in init;
        }
      }
    }
  }

  /** Sorting keeps what is mapped, and leaves every key in its order. */
  lemma {:induction false} SortKeeps(entries: seq<Pair>)
    requires OnceEach(entries)
    ensures OnceEach(SortRanked(entries)) && SameEntries(SortRanked(entries), entries) && Ranked(SortRanked(entries))
  {
    if entries != [] {
      var (init, last) := (entries[..|entries| - 1], entries[|entries| - 1]);
      var rest := SortRanked(init);
      assert entries == init + [last];
      SortKeeps(init);
      forall i | 0 <= i < |rest| ensures rest[i].key != last.key {
        assert rest[i] in init;
      }
      InsertHas(rest, last);
      InsertKeepsRanked(rest, last);
    }
  }

  // ----- The definition -----

  class TaskSpec {
    var entries: seq<Pair>

    ghost predicate Valid() reads this {
      OnceEach(entries)
    }

    ghost function Spec(): Spec reads this {
      SpecOf(entries)
    }

    constructor ()
      ensures Valid() && Spec() == map[] && Ranked(entries)
    {
      entries := [];
    }

    /** Writes a value at a key, or drops the key; ranks already in order stay in order. */
    method Set(name: string, value: Option<Value>)
      requires Valid()
      modifies this
      ensures Valid() && Spec() == Put(old(Spec()), name, value)
      ensures old(Ranked(entries)) ==> Ranked(entries)
    {
      var key := Text(name);
      var at := Place(entries, key);
      if value.None? {
        RemoveEntry(entries, key, at);
        if at < |entries| {
          entries := entries[..at] + entries[at + 1..];
        }
        return;
      }
      if at < |entries| {
        ReplaceEntry(entries, at, value.value);
        entries := entries[at := Pair(key, value.value)];
        return;
      }
      var inOrder := entries == [] || Rank(entries[|entries| - 1].key) <= Rank(key);
      SpecMore(entries, Pair(key, value.value));
      ghost var was := entries;
      entries := entries + [Pair(key, value.value)];
      if !inOrder {
        SortKeeps(entries);
        SpecOfSame(entries, SortRanked(entries));
        entries := SortRanked(entries);
      }
    }

    /** As `Set`, for keys that may reach into `env`. */
    method SetAt(key: string, value: Option<Value>)
      requires Valid()
      modifies this
      ensures Valid() && Spec() == Specs.SetAt(old(Spec()), key, value)
      ensures old(Ranked(entries)) ==> Ranked(entries)
    {
      if NamesVariable(key) {
        var env := Env(SpecOf(entries));
        env := Put(env, Variable(key), value);
        Set(ENV, if env == map[] then None else Some(Mapping(env)));
      } else {
        Set(key, value);
      }
    }
  }

  lemma RemoveEntry(entries: seq<Pair>, key: Value, at: nat)
    requires OnceEach(entries) && at == Place(entries, key)
    ensures var left := if at < |entries| then entries[..at] + entries[at + 1..] else entries;
            && OnceEach(left) && SpecOf(left) == SpecOf(entries) - {key} && (Ranked(entries) ==> Ranked(left))
  {
    if at < |entries| {
      var left := entries[..at] + entries[at + 1..];
      forall i | 0 <= i < |left| ensures left[i] == entries[if i < at then i else i + 1] {
      }
      forall k ensures (k in SpecOf(left) <==> k in SpecOf(entries) && k != key) && (k in SpecOf(left) ==> SpecOf(left)[k] == SpecOf(entries)[k]) {
        LeftAt(entries, left, at, k);
      }
    } else {
      SpecHasNot(entries, key);
    }
  }

  lemma LeftAt(entries: seq<Pair>, left: seq<Pair>, at: nat, k: Value)
    requires OnceEach(entries) && at < |entries| && left == entries[..at] + entries[at + 1..] && OnceEach(left)
    ensures k in SpecOf(left) <==> k in SpecOf(entries) && k != entries[at].key
    ensures k in SpecOf(left) ==> SpecOf(left)[k] == SpecOf(entries)[k]
  {
    var i := Place(entries, k);
    if i == |entries| {
      SpecHasNot(entries, k);
      SpecHasNot(left, k);
    } else if i == at {
      SpecHasNot(left, k);
    } else {
      SpecHas(entries, i);
      assert left[if i < at then i else i - 1] == entries[i];
      SpecHas(left, if i < at then i else i - 1);
    }
  }

  lemma ReplaceEntry(entries: seq<Pair>, at: nat, value: Value)
    requires OnceEach(entries) && at < |entries|
    ensures var now := entries[at := Pair(entries[at].key, value)];
            && OnceEach(now) && SpecOf(now) == SpecOf(entries)[entries[at].key := value] && (Ranked(entries) ==> Ranked(now))
  {
    var now := entries[at := Pair(entries[at].key, value)];
    forall i | 0 <= i < |now| ensures now[i].key == entries[i].key {
    }
    forall k ensures k in SpecOf(now) <==> k in SpecOf(entries) || k == entries[at].key
             ensures k in SpecOf(now) ==> SpecOf(now)[k] == if k == entries[at].key then value else SpecOf(entries)[k] {
      var i := Place(entries, k);
      if i == |entries| {
        SpecHasNot(entries, k);
        SpecHasNot(now, k);
      } else {
        SpecHas(entries, i);
        SpecHas(now, i);
      }
    }
  }

  // ----- What differs -----

  /** What a name that differs is listed as: `env` variable by variable. */
  function KeysFor(a: Spec, b: Spec, name: string): set<string> {
    if Lookup(a, name) == Lookup(b, name) then {}
    else if name == ENV then set n | n in Differing(Env(a), Env(b)) :: ENV_DOT + n
    else {name}
  }

  /** What is changed is what each name that either has is listed as. */
  lemma ChangedIsEach(a: Spec, b: Spec, key: string)
    ensures key in Changed(a, b) <==> exists name | name in Names(a) + Names(b) :: key in KeysFor(a, b, name)
  {
    if key in Differing(a, b) && key != ENV {
      assert key in KeysFor(a, b, key);
    }
    if Lookup(a, ENV) != Lookup(b, ENV) {
      DifferingNames(a, b, ENV);
      assert ENV in Names(a) + Names(b);
      assert key in KeysFor(a, b, ENV) <==> key in (set n | n in Differing(Env(a), Env(b)) :: ENV_DOT + n);
    }
    if name :| name in Names(a) + Names(b) && key in KeysFor(a, b, name) {
      DifferingNames(a, b, name);
    }
  }

  /** The names two mappings differ at, each once. */
  method NamesDiffering(a: map<Value, Value>, b: map<Value, Value>) returns (names: seq<string>)
    ensures forall n :: n in names <==> n in Differing(a, b)
  {
    names := [];
    var left := a.Keys + b.Keys;
    while left != {}
      invariant left <= a.Keys + b.Keys
      invariant forall n :: n in names <==> n in Differing(a, b) && Text(n) !in left
      decreases |left|
    {
      var key :| key in left;
      left := left - {key};
      if key.Text? && Lookup(a, key.text) != Lookup(b, key.text) && key.text !in names {
        DifferingNames(a, b, key.text);
        names := names + [key.text];
      }
    }
    forall n | n in Differing(a, b) ensures n in names {
    }
  }

  function Prefixed(names: seq<string>): (keys: seq<string>)
    ensures |keys| == |names| && forall i | 0 <= i < |names| :: keys[i] == ENV_DOT + names[i]
  {
    seq(|names|, i requires 0 <= i < |names| => ENV_DOT + names[i])
  }

  lemma PrefixedHas(names: seq<string>, key: string)
    ensures key in Prefixed(names) <==> exists n | n in names :: key == ENV_DOT + n
  {
    if n :| n in names && key == ENV_DOT + n {
      var i :| 0 <= i < |names| && names[i] == n;
      assert Prefixed(names)[i] == key;
    }
  }

  /** The part of a key before its first `.`. */
  function TopOf(key: string): string {
    if key == "" || key[0] == '.' then "" else [key[0]] + TopOf(key[1..])
  }

  function KeyRank(key: string): nat { RankIn(TASK_KEYS, TopOf(key)) }

  function InsertKey(keys: seq<string>, x: string): seq<string> {
    if keys == [] then [x]
    else
      var (init, last) := (keys[..|keys| - 1], keys[|keys| - 1]);
      if KeyRank(last) <= KeyRank(x) then keys + [x] else InsertKey(init, x) + [last]
  }

  function SortKeys(keys: seq<string>): seq<string> {
    if keys == [] then [] else InsertKey(SortKeys(keys[..|keys| - 1]), keys[|keys| - 1])
  }

  predicate KeysRanked(keys: seq<string>) {
    forall i, j | 0 <= i < j < |keys| :: KeyRank(keys[i]) <= KeyRank(keys[j])
  }

  lemma {:induction false} InsertKeyHas(keys: seq<string>, x: string)
    requires KeysRanked(keys)
    ensures KeysRanked(InsertKey(keys, x)) && forall k :: k in InsertKey(keys, x) <==> k == x || k in keys
  {
    if keys != [] {
      var (init, last) := (keys[..|keys| - 1], keys[|keys| - 1]);
      assert keys == init + [last];
      if KeyRank(last) > KeyRank(x) {
        InsertKeyHas(init, x);
        var rest := InsertKey(init, x);
        forall i | 0 <= i < |rest| ensures KeyRank(rest[i]) <= KeyRank(last) {
          assert rest[i] in rest;
        }
      }
    }
  }

  lemma {:induction false} SortKeysHas(keys: seq<string>)
    ensures KeysRanked(SortKeys(keys)) && forall k :: k in SortKeys(keys) <==> k in keys
  {
    if keys != [] {
      var (init, last) := (keys[..|keys| - 1], keys[|keys| - 1]);
      assert keys == init + [last];
      SortKeysHas(init);
      InsertKeyHas(SortKeys(init), last);
    }
  }

  /** The keys listed so far are those of the names seen so far. */
  ghost predicate Listed(a: Spec, b: Spec, keys: seq<string>, seen: set<string>) {
    forall k :: k in keys <==> exists n | n in seen :: k in KeysFor(a, b, n)
  }

  /** The names `Changed` gives, sorted by the rank of the key they are in. */
  method ChangedKeys(ours: seq<Pair>, other: seq<Pair>) returns (keys: seq<string>)
    requires OnceEach(ours) && OnceEach(other)
    ensures forall k :: k in keys <==> k in Changed(SpecOf(ours), SpecOf(other))
    ensures KeysRanked(keys)
  {
    var (a, b) := (SpecOf(ours), SpecOf(other));
    var all := ours + other;
    var seen: set<string> := {};
    keys := [];
    for i := 0 to |all|
      invariant Listed(a, b, keys, seen)
      invariant forall n :: n in seen <==> exists j | 0 <= j < i :: all[j].key == Text(n)
    {
      var key := all[i].key;
      if !key.Text? || key.text in seen {
        continue;
      }
      var name := key.text;
      var more: seq<string> := [];
      if Lookup(a, name) != Lookup(b, name) {
        if name == ENV {
          var vars := NamesDiffering(Env(a), Env(b));
          more := Prefixed(vars);
          forall k ensures k in more <==> k in KeysFor(a, b, name) {
            PrefixedHas(vars, k);
          }
        } else {
          more := [name];
        }
      }
      ListMore(a, b, keys, seen, name, more);
      keys := keys + more;
      seen := seen + {name};
    }
    NamesSeen(ours, other, seen);
    forall k ensures k in keys <==> k in Changed(a, b) {
      ChangedIsEach(a, b, k);
    }
    SortKeysHas(keys);
    keys := SortKeys(keys);
  }

  lemma ListMore(a: Spec, b: Spec, keys: seq<string>, seen: set<string>, name: string, more: seq<string>)
    requires Listed(a, b, keys, seen) && forall k :: k in more <==> k in KeysFor(a, b, name)
    ensures Listed(a, b, keys + more, seen + {name})
  {
    forall k ensures k in keys + more <==> exists n | n in seen + {name} :: k in KeysFor(a, b, n) {
      if k in more {
        assert name in seen + {name} && k in KeysFor(a, b, name);
      }
      if k in keys {
        var n :| n in seen && k in KeysFor(a, b, n);
        assert n in seen + {name};
      }
    }
  }

  /** The names seen are those either definition has. */
  lemma NamesSeen(ours: seq<Pair>, other: seq<Pair>, seen: set<string>)
    requires OnceEach(ours) && OnceEach(other)
    requires forall n :: n in seen <==> exists j | 0 <= j < |ours + other| :: (ours + other)[j].key == Text(n)
    ensures seen == Names(SpecOf(ours)) + Names(SpecOf(other))
  {
    forall n ensures n in seen <==> n in Names(SpecOf(ours)) + Names(SpecOf(other)) {
      NameIn(ours, n);
      NameIn(other, n);
      if i :| 0 <= i < |ours| && ours[i].key == Text(n) {
        assert (ours + other)[i].key == Text(n);
      }
      if i :| 0 <= i < |other| && other[i].key == Text(n) {
        assert (ours + other)[|ours| + i].key == Text(n);
      }
      if j :| 0 <= j < |ours + other| && (ours + other)[j].key == Text(n) {
        assert j < |ours| ==> ours[j].key == Text(n);
        assert j >= |ours| ==> other[j - |ours|].key == Text(n);
      }
    }
  }

  lemma NameIn(entries: seq<Pair>, n: string)
    requires OnceEach(entries)
    ensures n in Names(SpecOf(entries)) <==> exists i | 0 <= i < |entries| :: entries[i].key == Text(n)
  {
    var i := Place(entries, Text(n));
    if i < |entries| {
      SpecHas(entries, i);
      assert n in Names(SpecOf(entries));
    } else {
      SpecHasNot(entries, Text(n));
    }
  }
}
