/**
 Definitions of tasks (`TaskSpec`) as key-value mappings, and their three-way merge. YAML
 mappings are equal whatever their order, so a definition is a `map` here;
 `SpecTexts.TaskSpec` keeps the order of the keys.
 */
module Specs {

  datatype Option<+T> = None | Some(value: T)

  datatype Value =
    | Null
    | Bool(flag: bool)
    | Number(number: int)
    | Text(text: string)
    | Items(items: seq<Value>)
    | Mapping(mapping: map<Value, Value>)

  type Spec = map<Value, Value>

  const ENV := "env"
  const ENV_DOT := "env."

  function Lookup(m: map<Value, Value>, name: string): Option<Value> {
    if Text(name) in m then Some(m[Text(name)]) else None
  }

  /** The mapping a value holds, or an empty one. */
  function AsMapping(value: Option<Value>): map<Value, Value> {
    if value.Some? && value.value.Mapping? then value.value.mapping else map[]
  }

  function Env(spec: Spec): map<Value, Value> {
    AsMapping(Lookup(spec, ENV))
  }

  /** Whether a key names one variable, as `env.NAME`. */
  predicate NamesVariable(key: string) {
    ENV_DOT <= key
  }

  function Variable(key: string): string
    requires NamesVariable(key)
  {
    key[|ENV_DOT|..]
  }

  /** Reads what a key given by `Changed` stands for: a top-level key or a variable. */
  function ValueAt(spec: Spec, key: string): Option<Value> {
    if NamesVariable(key) then Lookup(Env(spec), Variable(key)) else Lookup(spec, key)
  }

  /** One name mapped to a value, or to nothing. */
  function Put(m: map<Value, Value>, name: string, value: Option<Value>): map<Value, Value> {
    match value
    case Some(v) => m[Text(name) := v]
    case None => m - {Text(name)}
  }

  /** Writes what a key given by `Changed` stands for. The last variable takes `env` with it. */
  function SetAt(spec: Spec, key: string, value: Option<Value>): Spec {
    if NamesVariable(key) then
      var env := Put(Env(spec), Variable(key), value);
      Put(spec, ENV, if env == map[] then None else Some(Mapping(env)))
    else
      Put(spec, key, value)
  }

  /** The names, as text, that a mapping has at the top. */
  function Names(m: map<Value, Value>): set<string> {
    set k | k in m.Keys && k.Text? :: k.text
  }

  /** The names that two mappings have different values at. */
  function Differing(a: map<Value, Value>, b: map<Value, Value>): set<string> {
    set name | name in Names(a) + Names(b) && Lookup(a, name) != Lookup(b, name)
  }

  /** The keys two definitions disagree on, variables counted one at a time. */
  function Changed(a: Spec, b: Spec): set<string> {
    (Differing(a, b) - {ENV}) +
    (if Lookup(a, ENV) == Lookup(b, ENV) then {}
     else set name | name in Differing(Env(a), Env(b)) :: ENV_DOT + name)
  }

  /** A key the config changed, with the value on each side. */
  datatype Field = Field(
    base: Option<Value>,
    here: Option<Value>,
    config: Option<Value>,
    conflict: bool,
    take: bool)

  /** Merging a definition: a field for every key at which the config moved away from both other sides. */
  function Merge(base: Spec, here: Spec, config: Spec): map<string, Field> {
    map key | key in Changed(base, config) + Changed(base, here)
              && ValueAt(config, key) != ValueAt(base, key)
              && ValueAt(config, key) != ValueAt(here, key)
      :: MergedField(base, here, config, key)
  }

  function MergedField(base: Spec, here: Spec, config: Spec, key: string): Field {
    var (b, h, c) := (ValueAt(base, key), ValueAt(here, key), ValueAt(config, key));
    Field(b, h, c, h != b, h == b)
  }

  /** Whether some key was edited here that the config left as it was in the base. */
  predicate ChangedHere(base: Spec, here: Spec, config: Spec) {
    exists key | key in Changed(base, config) + Changed(base, here) ::
      ValueAt(config, key) == ValueAt(base, key) && ValueAt(here, key) != ValueAt(base, key)
  }

  /** `here` with the config's value at each of `keys`, set one after the other. */
  function Patch(here: Spec, config: Spec, keys: seq<string>): Spec {
    if keys == [] then here
    else
      var last := |keys| - 1;
      SetAt(Patch(here, config, keys[..last]), keys[last], ValueAt(config, keys[last]))
  }

  // ----- The keys of a definition are independent -----

  lemma DifferingNames(a: map<Value, Value>, b: map<Value, Value>, name: string)
    ensures name in Differing(a, b) <==> Lookup(a, name) != Lookup(b, name)
  {
    if Text(name) in a { assert name in Names(a); }
    if Text(name) in b { assert name in Names(b); }
  }

  lemma VariableOfName(name: string)
    ensures NamesVariable(ENV_DOT + name) && Variable(ENV_DOT + name) == name
  {
  }

  lemma NameOfVariable(key: string)
    requires NamesVariable(key)
    ensures key == ENV_DOT + Variable(key)
  {
  }

  /** Setting one key sets it, and leaves every other key, `env.NAME` included, as it was. */
  lemma SetAtSetsOne(spec: Spec, key: string, value: Option<Value>, other: string)
    requires key != ENV && other != ENV
    ensures ValueAt(SetAt(spec, key, value), other) == if other == key then value else ValueAt(spec, other)
  {
    if NamesVariable(key) && NamesVariable(other) {
      var env := Put(Env(spec), Variable(key), value);
      assert Env(SetAt(spec, key, value)) == env;
      NameOfVariable(key);
      NameOfVariable(other);
      assert Variable(key) == Variable(other) ==> key == other;
    }
  }

  /** A key is listed as changed exactly when its values differ, but for a top-level `env.NAME`. */
  lemma ChangedAt(a: Spec, b: Spec, key: string)
    ensures key == ENV ==> key !in Changed(a, b)
    ensures key != ENV && ValueAt(a, key) != ValueAt(b, key) ==> key in Changed(a, b)
    ensures key in Changed(a, b) ==> ValueAt(a, key) != ValueAt(b, key) || Lookup(a, key) != Lookup(b, key)
    ensures key != ENV && Lookup(a, key) != Lookup(b, key) ==> key in Changed(a, b)
  {
    DifferingNames(a, b, key);
    var vars := set name | name in Differing(Env(a), Env(b)) :: ENV_DOT + name;
    if NamesVariable(key) {
      NameOfVariable(key);
      DifferingNames(Env(a), Env(b), Variable(key));
    }
    if key in vars {
      var name :| name in Differing(Env(a), Env(b)) && key == ENV_DOT + name;
      VariableOfName(name);
      DifferingNames(Env(a), Env(b), name);
    }
  }

  // ----- The merge law -----

  /**
   `Merge` lists exactly the keys where the config differs from both the base
   and here, and marks a conflict exactly where here differs from the base too.
   */
  lemma MergeLists(base: Spec, here: Spec, config: Spec, key: string)
    requires key != ENV
    ensures key in Merge(base, here, config) <==>
            ValueAt(config, key) != ValueAt(base, key) && ValueAt(config, key) != ValueAt(here, key)
    ensures key in Merge(base, here, config) ==>
            var field := Merge(base, here, config)[key];
            && (field.conflict <==> ValueAt(here, key) != ValueAt(base, key))
            && field.take == !field.conflict
            && field.base == ValueAt(base, key)
            && field.here == ValueAt(here, key)
            && field.config == ValueAt(config, key)
  {
    ChangedAt(base, config, key);
  }

  /** Something changed here only exactly when some key says so. */
  lemma ChangedHereFinds(base: Spec, here: Spec, config: Spec)
    ensures ChangedHere(base, here, config) <==>
            exists key :: key != ENV && ValueAt(config, key) == ValueAt(base, key)
                          && ValueAt(here, key) != ValueAt(base, key)
  {
    forall key | key != ENV && ValueAt(here, key) != ValueAt(base, key)
      ensures key in Changed(base, config) + Changed(base, here)
    {
      ChangedAt(base, here, key);
    }
    forall key | key in Changed(base, config) + Changed(base, here)
      ensures key != ENV
    {
      ChangedAt(base, here, key);
      ChangedAt(base, config, key);
    }
  }

  /** A patch gives the config's value at the keys patched and leaves the others. */
  lemma {:induction false} PatchAt(here: Spec, config: Spec, keys: seq<string>, key: string)
    requires key != ENV && ENV !in keys
    ensures ValueAt(Patch(here, config, keys), key) ==
            if key in keys then ValueAt(config, key) else ValueAt(here, key)
  {
    if keys != [] {
      var last := |keys| - 1;
      PatchAt(here, config, keys[..last], key);
      SetAtSetsOne(Patch(here, config, keys[..last]), keys[last], ValueAt(config, keys[last]), key);
      assert keys == keys[..last] + [keys[last]];
    }
  }

  /** The keys a reload takes unless the user says otherwise, in some order. */
  ghost predicate ListsTaken(keys: seq<string>, fields: map<string, Field>) {
    forall key :: key in keys <==> key in fields && fields[key].take
  }

  /**
   The three-way merge law. Taking the fields that are taken by default gives,
   at every key, the config's value where here says what the base says and
   here's value elsewhere, whatever order the fields are set in.
   */
  lemma ThreeWayMerge(base: Spec, here: Spec, config: Spec, keys: seq<string>, key: string)
    requires ListsTaken(keys, Merge(base, here, config))
    requires key != ENV
    ensures ValueAt(Patch(here, config, keys), key) ==
            if ValueAt(here, key) == ValueAt(base, key) then ValueAt(config, key) else ValueAt(here, key)
  {
    ChangedAt(base, config, ENV);
    ChangedAt(base, here, ENV);
    MergeLists(base, here, config, key);
    PatchAt(here, config, keys, key);
  }

  /** Top-level keys that read as a variable: they are listed, and never read or set. */
  predicate SameDotted(a: Spec, b: Spec) {
    forall name | name in Names(a) + Names(b) && NamesVariable(name) :: Lookup(a, name) == Lookup(b, name)
  }

  /** Patching leaves the top-level keys that read as a variable alone. */
  lemma {:induction false} PatchKeepsDotted(here: Spec, config: Spec, keys: seq<string>, name: string)
    requires NamesVariable(name)
    ensures Lookup(Patch(here, config, keys), name) == Lookup(here, name)
  {
    if keys != [] {
      PatchKeepsDotted(here, config, keys[..|keys| - 1], name);
    }
  }

  /**
   A definition patched with every key changed has none changed left, exactly
   when no top-level key named like a variable differs: such a key is listed
   under the variable's name and never set.
   */
  lemma PatchedIsUnchanged(here: Spec, config: Spec, keys: seq<string>)
    requires forall key :: key in keys <==> key in Changed(here, config)
    ensures Changed(Patch(here, config, keys), config) == {} <==> SameDotted(here, config)
  {
    var patched := Patch(here, config, keys);
    ChangedAt(here, config, ENV);
    if SameDotted(here, config) {
      forall key ensures key !in Changed(patched, config) {
        ChangedAt(patched, config, key);
        if key != ENV {
          PatchAt(here, config, keys, key);
          ChangedAt(here, config, key);
          if NamesVariable(key) {
            PatchKeepsDotted(here, config, keys, key);
            DifferingNames(here, config, key);
            assert Lookup(here, key) != Lookup(config, key) ==> key in Names(here) + Names(config);
          }
        }
      }
    } else {
      var name :| name in Names(here) + Names(config) && NamesVariable(name) && Lookup(here, name) != Lookup(config, name);
      PatchKeepsDotted(here, config, keys, name);
      ChangedAt(patched, config, name);
    }
  }

  /** The failing case: an entry with a top-level `env.A` keeps it as a change for ever. */
  lemma DottedKeyStays()
    ensures var here: Spec := map[];
            var config: Spec := map[Text("env.A") := Null];
            var keys := ["env.A"];
            && (forall key :: key in keys <==> key in Changed(here, config))
            && Changed(Patch(here, config, keys), config) != {}
  {
    var here: Spec := map[];
    var config: Spec := map[Text("env.A") := Null];
    var keys := ["env.A"];
    assert Text("env.A") in config;
    assert NamesVariable("env.A");
    ChangedAt(here, config, "env.A");
    forall key | key in Changed(here, config) ensures key == "env.A" {
      ChangedAt(here, config, key);
      assert Env(here) == Env(config) == map[];
    }
    assert "env.A" in Names(config);
    PatchedIsUnchanged(here, config, keys);
  }

  /** Both sides the same: nothing to merge. */
  lemma MergeWithItself(config: Spec, here: Spec)
    ensures Merge(config, here, config) == map[]
  {
  }
}
