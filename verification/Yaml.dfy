/** Config values with their keys in order, and edits made on them. */
module Yaml {
  import opened Specs

  /** A number is known by how it is written. */
  datatype Yaml =
    | NullOf
    | BoolOf(flag: bool)
    | NumberOf(text: string)
    | TextOf(text: string)
    | ListOf(items: seq<Yaml>)
    | MapOf(pairs: Pairs)
    | TaggedOf(tag: string, value: Yaml)

  datatype Pairs = End | Pair(key: Yaml, value: Yaml, rest: Pairs)

  datatype Edit =
    | Set(task: string, field: string, value: Option<Yaml>)
    | AddTask(task: string, entry: Pairs)
    | RemoveTask(task: string)
    | RenameTask(task: string, to: string)

  // ----- Mappings -----

  /** How a key is written: only text, numbers and flags have names. */
  function NameOf(key: Yaml): Option<string> {
    match key
    case TextOf(text) => Some(text)
    case NumberOf(text) => Some(text)
    case BoolOf(flag) => Some(if flag then "true" else "false")
    case _ => None
  }

  predicate Named(key: Yaml, name: string) {
    NameOf(key) == Some(name)
  }

  predicate Has(m: Pairs, name: string) {
    m.Pair? && (Named(m.key, name) || Has(m.rest, name))
  }

  /** What the first key written as `name` is mapped to. */
  function At(m: Pairs, name: string): Yaml
    requires Has(m, name)
  {
    if Named(m.key, name) then m.value else At(m.rest, name)
  }

  function Find(m: Pairs, name: string): Option<Yaml> {
    if Has(m, name) then Some(At(m, name)) else None
  }

  /** A value at a key: where the key is, or at the end. */
  function Put(m: Pairs, name: string, value: Yaml): Pairs {
    match m
    case End => Pair(TextOf(name), value, End)
    case Pair(k, v, rest) => if Named(k, name) then Pair(k, value, rest) else Pair(k, v, Put(rest, name, value))
  }

  /** The mapping without a key. */
  function Without(m: Pairs, key: Yaml): Pairs {
    match m
    case End => End
    case Pair(k, v, rest) => if k == key then Without(rest, key) else Pair(k, v, Without(rest, key))
  }

  function KeyAt(m: Pairs, name: string): Yaml
    requires Has(m, name)
  {
    if Named(m.key, name) then m.key else KeyAt(m.rest, name)
  }

  function Removed(m: Pairs, name: string): Pairs {
    if Has(m, name) then Without(m, KeyAt(m, name)) else m
  }

  function Rekeyed(m: Pairs, key: Yaml, to: Yaml): Pairs {
    match m
    case End => End
    case Pair(k, v, rest) => Pair(if k == key then to else k, v, Rekeyed(rest, key, to))
  }

  predicate HasKey(m: Pairs, key: Yaml) {
    m.Pair? && (m.key == key || HasKey(m.rest, key))
  }

  /** No key twice. */
  predicate Keyed(m: Pairs) {
    m.Pair? ==> !HasKey(m.rest, m.key) && Keyed(m.rest)
  }

  /** A mapping, which nothing at all is too. */
  function AsMap(v: Yaml): Option<Pairs> {
    match v
    case NullOf => Some(End)
    case MapOf(pairs) => Some(pairs)
    case _ => None
  }

  // ----- Edits -----

  const TASKS := "tasks"
  const ENV := "env"
  const ENV_DOT := "env."

  function EnvName(field: string): Option<string> {
    if |field| >= 4 && field[..4] == ENV_DOT then Some(field[4..]) else None
  }

  function SetField(entry: Yaml, field: string, value: Option<Yaml>): Option<Yaml> {
    if value.None? && entry.NullOf? then Some(entry)
    else if AsMap(entry).None? then None
    else
      var m := AsMap(entry).value;
      match value
      case Some(v) => Some(MapOf(Put(m, field, v)))
      case None => Some(MapOf(Removed(m, field)))
  }

  /** One variable; `env` is made for the first and goes with the last. */
  function SetEnv(entry: Yaml, name: string, value: Option<Yaml>): Option<Yaml> {
    if value.None? && entry.NullOf? then Some(entry)
    else if AsMap(entry).None? then None
    else
      var m := AsMap(entry).value;
      match value
      case Some(v) =>
        if !Has(m, ENV) then Some(MapOf(Put(m, ENV, MapOf(Put(End, name, v)))))
        else if AsMap(At(m, ENV)).None? then None
        else Some(MapOf(Put(m, ENV, MapOf(Put(AsMap(At(m, ENV)).value, name, v)))))
      case None =>
        if !Has(m, ENV) || At(m, ENV).NullOf? then Some(entry)
        else if !At(m, ENV).MapOf? then None
        else
          var env := At(m, ENV).pairs;
          if Has(env, name) && Removed(env, name) == End then Some(MapOf(Removed(m, ENV)))
          else Some(MapOf(Put(m, ENV, MapOf(Removed(env, name)))))
  }

  function SetValue(entry: Yaml, field: string, value: Option<Yaml>): Option<Yaml> {
    match EnvName(field)
    case Some(name) => SetEnv(entry, name, value)
    case None => SetField(entry, field, value)
  }

  function EditTasks(tasks: Pairs, edit: Edit): Option<Pairs> {
    match edit
    case AddTask(task, entry) => if Has(tasks, task) then None else Some(Put(tasks, task, MapOf(entry)))
    case RemoveTask(task) => if Has(tasks, task) then Some(Removed(tasks, task)) else None
    case RenameTask(task, to) =>
      if !Has(tasks, task) then None
      else if task == to then Some(tasks)
      else if Has(tasks, to) then None
      else Some(Rekeyed(tasks, KeyAt(tasks, task), TextOf(to)))
    case Set(task, field, value) =>
      if !Has(tasks, task) then None
      else
        var entry := SetValue(At(tasks, task), field, value);
        if entry.None? then None else Some(Put(tasks, task, entry.value))
  }

  predicate HasTasks(root: Pairs) {
    HasKey(root, TextOf(TASKS))
  }

  function TasksOf(root: Pairs): Yaml
    requires HasTasks(root)
  {
    if root.key == TextOf(TASKS) then root.value else TasksOf(root.rest)
  }

  function PutTasks(root: Pairs, tasks: Yaml): Pairs {
    match root
    case End => Pair(TextOf(TASKS), tasks, End)
    case Pair(k, v, rest) => if k == TextOf(TASKS) then Pair(k, tasks, rest) else Pair(k, v, PutTasks(rest, tasks))
  }

  /** An edit made on the parsed file; none when it cannot be. */
  function ApplyValue(root: Yaml, edit: Edit): Option<Yaml> {
    if AsMap(root).None? then None
    else
      var m := AsMap(root).value;
      if !HasTasks(m) && !edit.AddTask? then None
      else
        var tasks := AsMap(if HasTasks(m) then TasksOf(m) else NullOf);
        if tasks.None? then None
        else
          var edited := EditTasks(tasks.value, edit);
          if edited.None? then None else Some(MapOf(PutTasks(m, MapOf(edited.value))))
  }

  function ApplyValues(root: Yaml, edits: seq<Edit>): Option<Yaml> {
    if edits == [] then Some(root)
    else
      var before := ApplyValues(root, edits[..|edits| - 1]);
      if before.None? then None else ApplyValue(before.value, edits[|edits| - 1])
  }

  // ----- Equality, where the order of keys counts -----

  predicate Same(a: Yaml, b: Yaml) {
    if a.MapOf? && b.MapOf? then SamePairs(a.pairs, b.pairs)
    else if a.ListOf? && b.ListOf? then SameItems(a.items, b.items)
    else if a.TaggedOf? && b.TaggedOf? then a.tag == b.tag && Same(a.value, b.value)
    else (a.NullOf? && b.NullOf?) || (a.BoolOf? && a == b) || (a.NumberOf? && a == b) || (a.TextOf? && a == b)
  }

  predicate SamePairs(a: Pairs, b: Pairs) {
    if a.End? || b.End? then a.End? && b.End?
    else Same(a.key, b.key) && Same(a.value, b.value) && SamePairs(a.rest, b.rest)
  }

  predicate SameItems(a: seq<Yaml>, b: seq<Yaml>) {
    |a| == |b| && forall i | 0 <= i < |a| :: Same(a[i], b[i])
  }

  lemma {:induction false} SameIsEqual(a: Yaml, b: Yaml)
    ensures Same(a, b) <==> a == b
  {
    if a.MapOf? && b.MapOf? {
      SamePairsAreEqual(a.pairs, b.pairs);
    } else if a.ListOf? && b.ListOf? {
      if |a.items| == |b.items| {
        forall i | 0 <= i < |a.items| ensures Same(a.items[i], b.items[i]) <==> a.items[i] == b.items[i] {
          SameIsEqual(a.items[i], b.items[i]);
        }
      }
    } else if a.TaggedOf? && b.TaggedOf? {
      SameIsEqual(a.value, b.value);
    }
  }

  lemma {:induction false} SamePairsAreEqual(a: Pairs, b: Pairs)
    ensures SamePairs(a, b) <==> a == b
  {
    if a.Pair? && b.Pair? {
      SameIsEqual(a.key, b.key);
      SameIsEqual(a.value, b.value);
      SamePairsAreEqual(a.rest, b.rest);
    }
  }

  // ----- What an edit changes, and what it leaves -----

  lemma {:induction false} PutFinds(m: Pairs, name: string, value: Yaml, other: string)
    ensures Find(Put(m, name, value), other) == if other == name then Some(value) else Find(m, other)
  {
    if m.Pair? {
      PutFinds(m.rest, name, value, other);
    }
  }

  lemma {:induction false} WithoutFinds(m: Pairs, key: Yaml, other: string)
    requires !Named(key, other)
    ensures Find(Without(m, key), other) == Find(m, other)
  {
    if m.Pair? {
      WithoutFinds(m.rest, key, other);
    }
  }

  lemma {:induction false} KeyIsNamed(m: Pairs, name: string)
    requires Has(m, name)
    ensures Named(KeyAt(m, name), name)
  {
    if !Named(m.key, name) {
      KeyIsNamed(m.rest, name);
    }
  }

  /** Removing a key leaves the others. */
  lemma RemovedFinds(m: Pairs, name: string, other: string)
    requires other != name
    ensures Find(Removed(m, name), other) == Find(m, other)
  {
    if Has(m, name) {
      KeyIsNamed(m, name);
      WithoutFinds(m, KeyAt(m, name), other);
    }
  }

  lemma {:induction false} TasksPut(root: Pairs, tasks: Yaml)
    ensures HasTasks(PutTasks(root, tasks)) && TasksOf(PutTasks(root, tasks)) == tasks
  {
    if root.Pair? && root.key != TextOf(TASKS) {
      TasksPut(root.rest, tasks);
    }
  }

  /** The tasks of a file. */
  function Tasks(root: Yaml): Option<Pairs> {
    if AsMap(root).None? || !HasTasks(AsMap(root).value) then None else AsMap(TasksOf(AsMap(root).value))
  }

  lemma ApplyEdits(root: Yaml, edit: Edit)
    requires ApplyValue(root, edit).Some?
    ensures Tasks(ApplyValue(root, edit).value) == EditTasks(if Tasks(root).Some? then Tasks(root).value else End, edit)
  {
    var m := AsMap(root).value;
    var tasks := AsMap(if HasTasks(m) then TasksOf(m) else NullOf);
    TasksPut(m, MapOf(EditTasks(tasks.value, edit).value));
  }

  /** What a task's field, or its variable, is. */
  function FieldOf(entry: Yaml, field: string): Option<Yaml> {
    if AsMap(entry).None? then None
    else
      match EnvName(field)
      case None => Find(AsMap(entry).value, field)
      case Some(name) =>
        var env := Find(AsMap(entry).value, ENV);
        if env.None? || AsMap(env.value).None? then None else Find(AsMap(env.value).value, name)
  }

  /** Setting a field reads back, and leaves every field that is not of the same key. */
  lemma FieldSet(entry: Yaml, field: string, v: Yaml, other: string)
    requires EnvName(field).None? && SetField(entry, field, Some(v)).Some?
    ensures var now := SetField(entry, field, Some(v)).value;
            && FieldOf(now, field) == Some(v)
            && (other != field && !(field == ENV && EnvName(other).Some?) ==> FieldOf(now, other) == FieldOf(entry, other))
  {
    var m := AsMap(entry).value;
    PutFinds(m, field, v, field);
    PutFinds(m, field, v, other);
    PutFinds(m, field, v, ENV);
  }

  /** Setting a variable reads back, and leaves the other variables and every other field. */
  lemma VariableSet(entry: Yaml, field: string, v: Yaml, other: string)
    requires EnvName(field).Some? && SetEnv(entry, EnvName(field).value, Some(v)).Some?
    ensures var now := SetEnv(entry, EnvName(field).value, Some(v)).value;
            && FieldOf(now, field) == Some(v)
            && (other != field && other != ENV ==> FieldOf(now, other) == FieldOf(entry, other))
  {
    var (m, name) := (AsMap(entry).value, EnvName(field).value);
    var env := if Has(m, ENV) then AsMap(At(m, ENV)).value else End;
    assert ENV_DOT + name == field;
    PutFinds(m, ENV, MapOf(Put(env, name, v)), ENV);
    PutFinds(m, ENV, MapOf(Put(env, name, v)), other);
    PutFinds(env, name, v, name);
    if EnvName(other).Some? {
      assert ENV_DOT + EnvName(other).value == other;
      PutFinds(env, name, v, EnvName(other).value);
    }
  }

  /** Setting a task's field changes that task alone. */
  lemma SetChangesOne(root: Yaml, task: string, field: string, value: Option<Yaml>, other: string)
    requires ApplyValue(root, Set(task, field, value)).Some?
    ensures Tasks(root).Some? && Has(Tasks(root).value, task)
    ensures var (was, now) := (Tasks(root).value, Tasks(ApplyValue(root, Set(task, field, value)).value));
            && now.Some? && Find(now.value, task) == SetValue(At(was, task), field, value)
            && (other != task ==> Find(now.value, other) == Find(was, other))
  {
    ApplyEdits(root, Set(task, field, value));
    var was := Tasks(root).value;
    var entry := SetValue(At(was, task), field, value).value;
    PutFinds(was, task, entry, task);
    PutFinds(was, task, entry, other);
  }

  lemma {:induction false} WithoutPut(m: Pairs, name: string, value: Yaml)
    requires !Has(m, name)
    ensures Has(Put(m, name, value), name) && KeyAt(Put(m, name, value), name) == TextOf(name)
    ensures Without(Put(m, name, value), TextOf(name)) == m
  {
    if m.Pair? {
      WithoutPut(m.rest, name, value);
    }
  }

  /** A task added is there with its entry, the others as they were; removed again, it leaves the tasks as they were. */
  lemma AddThenRemove(tasks: Pairs, task: string, entry: Pairs, other: string)
    requires EditTasks(tasks, AddTask(task, entry)).Some?
    ensures var now := EditTasks(tasks, AddTask(task, entry)).value;
            && EditTasks(now, RemoveTask(task)) == Some(tasks)
            && Find(now, other) == if other == task then Some(MapOf(entry)) else Find(tasks, other)
  {
    WithoutPut(tasks, task, MapOf(entry));
    PutFinds(tasks, task, MapOf(entry), other);
  }

  /** Removing a task leaves the others as they were. */
  lemma RemoveLeavesOthers(tasks: Pairs, task: string, other: string)
    requires EditTasks(tasks, RemoveTask(task)).Some? && other != task
    ensures Find(EditTasks(tasks, RemoveTask(task)).value, other) == Find(tasks, other)
  {
    RemovedFinds(tasks, task, other);
  }

  lemma {:induction false} RekeyedBack(m: Pairs, key: Yaml, to: string)
    requires !Has(m, to)
    ensures Rekeyed(Rekeyed(m, key, TextOf(to)), TextOf(to), key) == m
  {
    if m.Pair? {
      RekeyedBack(m.rest, key, to);
    }
  }

  lemma {:induction false} RekeyedHas(m: Pairs, key: Yaml, name: string, to: string)
    requires Has(m, name) && KeyAt(m, name) == key && !Has(m, to)
    ensures Has(Rekeyed(m, key, TextOf(to)), to) && KeyAt(Rekeyed(m, key, TextOf(to)), to) == TextOf(to)
    ensures At(Rekeyed(m, key, TextOf(to)), to) == At(m, name)
  {
    KeyIsNamed(m, name);
    if !Named(m.key, name) {
      RekeyedHas(m.rest, key, name, to);
    }
  }

  lemma {:induction false} RekeyedFinds(m: Pairs, key: Yaml, to: string, other: string)
    requires !Named(key, other) && other != to
    ensures Find(Rekeyed(m, key, TextOf(to)), other) == Find(m, other)
  {
    if m.Pair? {
      RekeyedFinds(m.rest, key, to, other);
    }
  }

  lemma {:induction false} NotNamedAnymore(m: Pairs, name: string, to: string)
    requires Has(m, name) && name != to && Keyed(m)
    requires OneNamed(m, name)
    ensures !Has(Rekeyed(m, KeyAt(m, name), TextOf(to)), name)
  {
    KeyIsNamed(m, name);
    if Named(m.key, name) {
      NoneNamed(m.rest, m.key, name, to);
    } else {
      NotNamedAnymore(m.rest, name, to);
    }
  }

  /** One key at most is written as a name. */
  predicate OneNamed(m: Pairs, name: string) {
    m.Pair? ==> if Named(m.key, name) then !Has(m.rest, name) else OneNamed(m.rest, name)
  }

  lemma {:induction false} NoneNamed(m: Pairs, key: Yaml, name: string, to: string)
    requires !Has(m, name) && name != to
    ensures !Has(Rekeyed(m, key, TextOf(to)), name)
  {
    if m.Pair? {
      NoneNamed(m.rest, key, name, to);
    }
  }

  /**
   A renamed task keeps its entry, the others are as they were, and renaming it
   back restores the tasks in their order; its key was text and the only one written so.
   */
  lemma RenameThenBack(tasks: Pairs, task: string, to: string, other: string)
    requires EditTasks(tasks, RenameTask(task, to)).Some? && task != to
    requires Keyed(tasks) && OneNamed(tasks, task) && KeyAt(tasks, task) == TextOf(task)
    ensures var now := EditTasks(tasks, RenameTask(task, to)).value;
            && Find(now, to) == Find(tasks, task) && EditTasks(now, RenameTask(to, task)) == Some(tasks)
            && (other != task && other != to ==> Find(now, other) == Find(tasks, other))
  {
    if other != task && other != to {
      RekeyedFinds(tasks, TextOf(task), to, other);
    }
    RekeyedHas(tasks, TextOf(task), task, to);
    NotNamedAnymore(tasks, task, to);
    RekeyedBack(tasks, TextOf(task), to);
  }

  // ----- Taking away -----

  lemma {:induction false} WithoutNone(m: Pairs, name: string)
    requires OneNamed(m, name)
    ensures !Has(Removed(m, name), name)
  {
    if m.Pair? && Has(m, name) {
      if Named(m.key, name) {
        WithoutKeepsNone(m.rest, m.key, name);
      } else {
        KeyIsNamed(m.rest, name);
        WithoutNone(m.rest, name);
      }
    }
  }

  lemma {:induction false} WithoutKeepsNone(m: Pairs, key: Yaml, name: string)
    requires !Has(m, name)
    ensures !Has(Without(m, key), name)
  {
    if m.Pair? {
      WithoutKeepsNone(m.rest, key, name);
    }
  }

  /** A field taken away is gone, and the others stay. */
  lemma FieldTaken(entry: Yaml, field: string, other: string)
    requires EnvName(field).None? && SetField(entry, field, None).Some?
    requires AsMap(entry).Some? ==> OneNamed(AsMap(entry).value, field)
    ensures var now := SetField(entry, field, None).value;
            && FieldOf(now, field) == None
            && (other != field && !(field == ENV && EnvName(other).Some?) ==> FieldOf(now, other) == FieldOf(entry, other))
  {
    var m := AsMap(entry).value;
    WithoutNone(m, field);
    if other != field {
      RemovedFinds(m, field, other);
    }
    if field != ENV {
      RemovedFinds(m, field, ENV);
    }
  }

  /** The one variable that there is. */
  predicate IsOnly(env: Option<Yaml>, name: string) {
    env.Some? && env.value.MapOf? && Has(env.value.pairs, name) && Removed(env.value.pairs, name) == End
  }

  /** A variable taken away is gone, the others stay, and `env` goes with the last. */
  lemma VariableTaken(entry: Yaml, name: string, other: string)
    requires SetEnv(entry, name, None).Some?
    requires AsMap(entry).Some? ==> OneNamed(AsMap(entry).value, ENV)
    requires FieldOf(entry, ENV).Some? && FieldOf(entry, ENV).value.MapOf? ==> OneNamed(FieldOf(entry, ENV).value.pairs, name)
    ensures var now := SetEnv(entry, name, None).value;
            && FieldOf(now, ENV_DOT + name) == None
            && (other != ENV && other != ENV_DOT + name ==> FieldOf(now, other) == FieldOf(entry, other))
            && (IsOnly(FieldOf(entry, ENV), name) ==> FieldOf(now, ENV) == None)
  {
    assert EnvName(ENV_DOT + name) == Some(name) && EnvName(ENV) == None;
    var m := AsMap(entry).value;
    if Has(m, ENV) && At(m, ENV).MapOf? {
      var env := At(m, ENV).pairs;
      WithoutNone(env, name);
      WithoutNone(m, ENV);
      PutFinds(m, ENV, MapOf(Removed(env, name)), ENV);
      if EnvName(other).Some? && other != ENV_DOT + name {
        assert ENV_DOT + EnvName(other).value == other;
        RemovedFinds(env, name, EnvName(other).value);
      }
      if other != ENV {
        RemovedFinds(m, ENV, other);
        PutFinds(m, ENV, MapOf(Removed(env, name)), other);
      }
    }
  }

  // ----- Which edits can be made -----

  predicate IsMapping(v: Yaml) { v.NullOf? || v.MapOf? }

  /** Of an entry, and of its `env` when a variable is set, nothing but a mapping, or nothing at all. */
  predicate CanSet(entry: Yaml, field: string) {
    IsMapping(entry) && (EnvName(field).Some? && FieldOf(entry, ENV).Some? ==> IsMapping(FieldOf(entry, ENV).value))
  }

  predicate CanEdit(tasks: Pairs, edit: Edit) {
    match edit
    case AddTask(task, _) => Find(tasks, task).None?
    case RemoveTask(task) => Find(tasks, task).Some?
    case RenameTask(task, to) => Find(tasks, task).Some? && (task == to || Find(tasks, to).None?)
    case Set(task, field, _) => Find(tasks, task).Some? && CanSet(Find(tasks, task).value, field)
  }

  /** An edit can be made exactly when the file is a mapping, its tasks one too, or absent for an addition, and the task is as it needs. */
  lemma AppliesIff(root: Yaml, edit: Edit)
    ensures ApplyValue(root, edit).Some? <==>
            && IsMapping(root)
            && (Tasks(root).Some? || (edit.AddTask? && !HasTasks(AsMap(root).value)))
            && CanEdit(if Tasks(root).Some? then Tasks(root).value else End, edit)
  {
    assert EnvName(ENV) == None;
  }
}
