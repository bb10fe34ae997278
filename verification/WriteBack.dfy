/** The forms a value is written back to a config file in, and how the loader reads each. */
module WriteBack {
  import opened Specs

  // ----- Paths -----

  /** A path without `.` or `..`, as the names from the root of the file system. */
  type Names = seq<string>

  datatype Step = Here | Up | Name(name: string)

  /** A path as a file writes it: whole, or as steps from the file's directory. */
  datatype PathText = Whole(names: Names) | Steps(steps: seq<Step>)

  /** How many names two paths start with alike. */
  function Common(a: Names, b: Names): (n: nat)
    ensures n <= |a| && n <= |b| && a[..n] == b[..n]
  {
    if a == [] || b == [] || a[0] != b[0] then 0 else 1 + Common(a[1..], b[1..])
  }

  function Ups(n: nat): seq<Step> {
    if n == 0 then [] else [Up] + Ups(n - 1)
  }

  function NamesOf(names: Names): seq<Step> {
    if names == [] then [] else [Name(names[0])] + NamesOf(names[1..])
  }

  function StepsTo(steps: seq<Step>): PathText {
    Steps(if steps == [] then [Here] else steps)
  }

  /** A path at or under a directory from there, any other whole. */
  function RelativePath(path: Names, dir: Names): PathText {
    if dir <= path then StepsTo(NamesOf(path[|dir|..])) else Whole(path)
  }

  /** A path from a file's directory, up while in the project; one outside it whole. */
  function PathInFile(path: Names, dir: Names, root: Names): PathText {
    if !(root <= path && root <= dir) then RelativePath(path, dir) else PathBetween(path[|root|..], dir[|root|..])
  }

  /** From one place in a project to another: up to where they part, and down. */
  function PathBetween(to: Names, from: Names): PathText {
    var common := Common(to, from);
    StepsTo(Ups(|from| - common) + NamesOf(to[common..]))
  }

  /** Takes one step; going up from the root goes nowhere. */
  function Stepped(path: Names, step: Step): Names {
    match step
    case Here => path
    case Up => if path == [] then [] else path[..|path| - 1]
    case Name(name) => path + [name]
  }

  function Walked(path: Names, steps: seq<Step>): Names
    decreases |steps|
  {
    if steps == [] then path else Walked(Stepped(path, steps[0]), steps[1..])
  }

  function Resolved(dir: Names, text: PathText): Names {
    match text
    case Whole(names) => names
    case Steps(steps) => Walked(dir, steps)
  }

  lemma {:induction false} WalkedSum(path: Names, a: seq<Step>, b: seq<Step>)
    ensures Walked(path, a + b) == Walked(Walked(path, a), b)
    decreases |a|
  {
    if a == [] {
      assert a + b == b;
    } else {
      assert (a + b)[1..] == a[1..] + b;
      WalkedSum(Stepped(path, a[0]), a[1..], b);
    }
  }

  lemma {:induction false} WalkedUp(path: Names, n: nat)
    requires n <= |path|
    ensures Walked(path, Ups(n)) == path[..|path| - n]
  {
    if n > 0 {
      assert Ups(n)[1..] == Ups(n - 1);
      WalkedUp(path[..|path| - 1], n - 1);
    }
  }

  lemma WalkedName(path: Names, name: string, steps: seq<Step>)
    ensures Walked(path, [Name(name)] + steps) == Walked(path + [name], steps)
  {
    assert ([Name(name)] + steps)[1..] == steps;
  }

  lemma NamesJoin(path: Names, names: Names)
    requires names != []
    ensures path + [names[0]] + names[1..] == path + names
  {
  }

  lemma {:induction false} WalkedDown(path: Names, names: Names)
    ensures Walked(path, NamesOf(names)) == path + names
    decreases |names|
  {
    if names != [] {
      WalkedName(path, names[0], NamesOf(names[1..]));
      WalkedDown(path + [names[0]], names[1..]);
      NamesJoin(path, names);
    }
  }

  /** Steps of a path are not left out by being written as `.`. */
  lemma WalkedTo(dir: Names, steps: seq<Step>)
    ensures Resolved(dir, StepsTo(steps)) == Walked(dir, steps)
  {
    if steps == [] {
      assert [Here][1..] == [];
    }
  }

  /** Whatever the file's directory and the project's, a path reads back from the form it is written in. */
  lemma PathReadsBack(path: Names, dir: Names, root: Names)
    ensures Resolved(dir, PathInFile(path, dir, root)) == path
  {
    if !(root <= path && root <= dir) {
      if dir <= path {
        WalkedTo(dir, NamesOf(path[|dir|..]));
        WalkedDown(dir, path[|dir|..]);
      }
    } else {
      var (to, from) := (path[|root|..], dir[|root|..]);
      var common := Common(to, from);
      var n := |from| - common;
      WalkedTo(dir, Ups(n) + NamesOf(to[common..]));
      WalkedSum(dir, Ups(n), NamesOf(to[common..]));
      WalkedUp(dir, n);
      WalkedDown(dir[..|dir| - n], to[common..]);
      InProject(path, dir, root, common);
    }
  }

  // What is in the project is written from the file, so that it is the same wherever the project is.

  /** A project's path and a file's directory, wherever the project is. */
  lemma WrittenFromFile(path: Names, dir: Names, root: Names, elsewhere: Names)
    ensures PathInFile(root + path, root + dir, root).Steps?
    ensures PathInFile(elsewhere + path, elsewhere + dir, elsewhere) == PathInFile(root + path, root + dir, root)
  {
    FormInProject(path, dir, root);
    FormInProject(path, dir, elsewhere);
  }

  lemma FormInProject(path: Names, dir: Names, root: Names)
    ensures PathInFile(root + path, root + dir, root) == PathBetween(path, dir)
  {
    assert (root + path)[|root|..] == path && (root + dir)[|root|..] == dir;
  }

  /** With one of the two outside the project, a path is written from the directory when it is in it, and else whole. */
  lemma WrittenOutside(path: Names, dir: Names, root: Names)
    requires !(root <= path && root <= dir)
    ensures PathInFile(path, dir, root).Steps? <==> dir <= path
    ensures PathInFile(path, dir, root).Whole? ==> PathInFile(path, dir, root) == Whole(path)
  {
  }

  function UpsIn(steps: seq<Step>): nat {
    if steps == [] then 0 else UpsIn(steps[1..]) + if steps[0] == Up then 1 else 0
  }

  lemma {:induction false} NoUps(names: Names)
    ensures UpsIn(NamesOf(names)) == 0
  {
    if names != [] {
      assert NamesOf(names)[1..] == NamesOf(names[1..]);
      NoUps(names[1..]);
    }
  }

  lemma {:induction false} UpsFirst(n: nat, steps: seq<Step>)
    ensures UpsIn(Ups(n) + steps) == n + UpsIn(steps)
  {
    if n > 0 {
      assert (Ups(n) + steps)[1..] == Ups(n - 1) + steps;
      UpsFirst(n - 1, steps);
    } else {
      assert Ups(0) + steps == steps;
    }
  }

  lemma UpsTo(steps: seq<Step>)
    ensures UpsIn(StepsTo(steps).steps) == UpsIn(steps)
  {
    assert [Here][1..] == [];
  }

  lemma UpsBetween(path: Names, dir: Names)
    ensures PathBetween(path, dir).Steps? && UpsIn(PathBetween(path, dir).steps) == |dir| - Common(path, dir)
  {
    var common := Common(path, dir);
    UpsTo(Ups(|dir| - common) + NamesOf(path[common..]));
    UpsFirst(|dir| - common, NamesOf(path[common..]));
    NoUps(path[common..]);
  }

  /** It goes up no further than to where the two paths part, and so never out of the project. */
  lemma GoesUpToCommon(path: Names, dir: Names, root: Names)
    ensures var ups := UpsIn(PathInFile(root + path, root + dir, root).steps);
            && ups <= |dir| && dir[..|dir| - ups] <= path
            && (ups > 0 && |dir| - ups < |path| ==> path[|dir| - ups] != dir[|dir| - ups])
  {
    FormInProject(path, dir, root);
    UpsBetween(path, dir);
    MostCommon(path, dir);
  }

  lemma {:induction false} MostCommon(a: Names, b: Names)
    ensures Common(a, b) < |a| && Common(a, b) < |b| ==> a[Common(a, b)] != b[Common(a, b)]
  {
    if a != [] && b != [] && a[0] == b[0] {
      MostCommon(a[1..], b[1..]);
    }
  }

  /** Up to what two paths share, one leads to the other. */
  lemma InProject(path: Names, dir: Names, root: Names, common: nat)
    requires root <= path && root <= dir && common <= |path| - |root| && common <= |dir| - |root|
    requires path[|root|..][..common] == dir[|root|..][..common]
    ensures dir[..|root| + common] + path[|root|..][common..] == path
  {
    assert dir[..|root| + common] == root + dir[|root|..][..common];
    assert path == root + path[|root|..][..common] + path[|root|..][common..];
  }

  /** The path a file's text is of, a step at a time. */
  method ResolvePath(dir: Names, text: PathText) returns (resolved: Names)
    ensures resolved == Resolved(dir, text)
  {
    if text.Whole? {
      return text.names;
    }
    resolved := dir;
    var steps := text.steps;
    for i := 0 to |steps|
      invariant Walked(resolved, steps[i..]) == Walked(dir, steps)
    {
      assert steps[i..][1..] == steps[i + 1..];
      match steps[i] {
        case Here =>
        case Up =>
          if resolved != [] {
            resolved := resolved[..|resolved| - 1];
          }
        case Name(name) =>
          resolved := resolved + [name];
      }
    }
  }

  // ----- Deps -----

  predicate StartsWith(s: string, prefix: string) {
    |prefix| <= |s| && s[..|prefix|] == prefix
  }

  /** What remains of a path below a mount, when it is below it. */
  function KeyIn(mount: string, path: string): Option<string> {
    if mount == "" then Some(path)
    else if StartsWith(path, mount + "/") then Some(path[|mount| + 1..])
    else None
  }

  /** A dep as the file writes it: from its mount, or from the root with a `/`. */
  function DepInFile(mount: string, dep: string): string {
    match KeyIn(mount, dep)
    case Some(key) => key
    case None => "/" + dep
  }

  function Join(parent: string, child: string): string {
    if parent == "" then child else if child == "" then parent else parent + "/" + child
  }

  /** The dep the loader takes from what a file writes. */
  function LoadedDep(mount: string, dep: string): string {
    if StartsWith(dep, "/") then dep[1..] else if mount != "" then Join(mount, dep) else dep
  }

  /** A part of a path that no task path has: nothing before its first `/`, or nothing at all. */
  predicate IsBare(key: string) {
    key == "" || key[0] == '/'
  }

  /** A dep reads back exactly when what it is from its mount is a path of its own; nothing is from the root. */
  lemma DepReadsBack(mount: string, dep: string)
    ensures LoadedDep(mount, DepInFile(mount, dep)) == dep <==>
            !(KeyIn(mount, dep).Some? && IsBare(KeyIn(mount, dep).value) && dep != "")
  {
  }

  /** A task path: no part of it between `/`s is empty. */
  predicate IsTaskPath(path: string) {
    path != "" && path[0] != '/' && path[|path| - 1] != '/' &&
    forall i | 0 <= i < |path| - 1 :: !(path[i] == '/' && path[i + 1] == '/')
  }

  /** Every task path reads back as a dep, from a file mounted anywhere. */
  lemma TaskDepReadsBack(mount: string, dep: string)
    requires IsTaskPath(dep)
    ensures LoadedDep(mount, DepInFile(mount, dep)) == dep
  {
    DepReadsBack(mount, dep);
    if mount != "" && StartsWith(dep, mount + "/") {
      var n := |mount|;
      assert dep[..n + 1][n] == '/';
      assert dep[n] == '/';
      assert n + 1 < |dep| ==> dep[n + 1] != '/';
    }
  }

  // ----- How to stop, over the defaults -----

  datatype How<R> = Signal(signal: R, group: R) | Keys(keys: R) | Cmd(cmd: R)

  /** The parts of a `stop` entry, each optional where `defaults` supplies it. */
  datatype Stop<R> = Stop(how: Option<How<R>>, timeout: Option<R>)

  type Fields<R> = map<string, R>

  const HOW: seq<string> := ["signal", "group", "keys", "cmd"]
  const TIMEOUT: seq<string> := ["timeout"]

  function Get<R>(fields: Fields<R>, key: string): Option<R> {
    if key in fields then Some(fields[key]) else None
  }

  /** At most one way to stop, and a group only with a signal. */
  predicate IsStop<R>(fields: Fields<R>) {
    && !("signal" in fields && "keys" in fields) && !("signal" in fields && "cmd" in fields)
    && !("keys" in fields && "cmd" in fields) && ("group" in fields ==> "signal" in fields)
  }

  /** What the loader reads; a group is killed unless the fields say otherwise. */
  function StopOf<R>(fields: Fields<R>, yes: R): Stop<R> {
    var how :=
      if "signal" in fields then Some(Signal(fields["signal"], if "group" in fields then fields["group"] else yes))
      else if "keys" in fields then Some(Keys(fields["keys"]))
      else if "cmd" in fields then Some(Cmd(fields["cmd"]))
      else None;
    Stop(how, Get(fields, "timeout"))
  }

  function Merged<R>(stop: Stop<R>, over: Stop<R>): Stop<R> {
    Stop(if over.how.Some? then over.how else stop.how, if over.timeout.Some? then over.timeout else stop.timeout)
  }

  /** A part all of whose keys are as in the defaults, and that the entry says none of. */
  predicate Inherited<R(==)>(value: Fields<R>, own: Fields<R>, defaults: Fields<R>, part: seq<string>) {
    && (forall k | k in part :: Get(value, k) == Get(defaults, k))
    && (forall k | k in part :: k !in own)
  }

  function Dropped<R>(value: Fields<R>, part: seq<string>): Fields<R> {
    value - set k | k in part
  }

  /** The fields with the inherited parts left out. */
  function OwnParts<R(==)>(value: Fields<R>, own: Fields<R>, defaults: Fields<R>): Fields<R> {
    var how := if Inherited(value, own, defaults, HOW) then Dropped(value, HOW) else value;
    if Inherited(how, own, defaults, TIMEOUT) then Dropped(how, TIMEOUT) else how
  }

  /** The value written, part by part; none when nothing is left. */
  method InheritedOut<R(==)>(value: Fields<R>, own: Fields<R>, defaults: Fields<R>) returns (out: Option<Fields<R>>)
    ensures out == (if OwnParts(value, own, defaults) == map[] then None else Some(OwnParts(value, own, defaults)))
  {
    var fields := value;
    var parts := [HOW, TIMEOUT];
    for i := 0 to 2
      invariant i == 0 ==> fields == value
      invariant i == 1 ==> fields == if Inherited(value, own, defaults, HOW) then Dropped(value, HOW) else value
      invariant i == 2 ==> fields == OwnParts(value, own, defaults)
    {
      var part := parts[i];
      if Inherited(fields, own, defaults, part) {
        ghost var was := fields;
        for j := 0 to |part|
          invariant fields == Dropped(was, part[..j])
        {
          fields := fields - {part[j]};
          assert part[..j + 1] == part[..j] + [part[j]];
        }
        assert part[..|part|] == part;
      }
    }
    return if fields == map[] then None else Some(fields);
  }

  /** Each part the defaults have, the value has. */
  predicate HasParts<R>(stop: Stop<R>, defaults: Stop<R>) {
    (defaults.how.Some? ==> stop.how.Some?) && (defaults.timeout.Some? ==> stop.timeout.Some?)
  }

  lemma HowDropped<R>(value: Fields<R>, defaults: Fields<R>, yes: R)
    requires forall k | k in HOW :: Get(value, k) == Get(defaults, k)
    ensures StopOf(value, yes).how == StopOf(defaults, yes).how
    ensures StopOf(Dropped(value, HOW), yes).how == None
    ensures StopOf(Dropped(value, HOW), yes).timeout == StopOf(value, yes).timeout
  {
    assert "signal" in HOW && "group" in HOW && "keys" in HOW && "cmd" in HOW && "timeout" !in HOW;
    assert Get(value, "signal") == Get(defaults, "signal") && Get(value, "group") == Get(defaults, "group");
    assert Get(value, "keys") == Get(defaults, "keys") && Get(value, "cmd") == Get(defaults, "cmd");
  }

  lemma TimeoutDropped<R>(value: Fields<R>, defaults: Fields<R>, yes: R)
    requires forall k | k in TIMEOUT :: Get(value, k) == Get(defaults, k)
    ensures StopOf(value, yes).timeout == StopOf(defaults, yes).timeout
    ensures StopOf(Dropped(value, TIMEOUT), yes) == Stop(StopOf(value, yes).how, None)
  {
    assert TIMEOUT == ["timeout"] && "timeout" in TIMEOUT;
    assert "signal" !in TIMEOUT && "group" !in TIMEOUT && "keys" !in TIMEOUT && "cmd" !in TIMEOUT;
  }

  /**
   What is written, over the defaults, is the value: exactly when the value has each
   part the defaults have.
   */
  lemma StopReadsBack<R>(value: Fields<R>, own: Fields<R>, defaults: Fields<R>, yes: R)
    requires IsStop(value) && IsStop(defaults)
    ensures Merged(StopOf(defaults, yes), StopOf(OwnParts(value, own, defaults), yes)) == StopOf(value, yes) <==>
            HasParts(StopOf(value, yes), StopOf(defaults, yes))
  {
    var dropHow := Inherited(value, own, defaults, HOW);
    var how := if dropHow then Dropped(value, HOW) else value;
    if dropHow {
      HowDropped(value, defaults, yes);
    }
    if Inherited(how, own, defaults, TIMEOUT) {
      TimeoutDropped(how, defaults, yes);
    }
  }

  /** All of a part's keys are said alike in the value and in the defaults, and none in the entry itself. */
  ghost predicate SaidByDefaults<R>(value: Fields<R>, own: Fields<R>, defaults: Fields<R>, part: seq<string>) {
    forall k | k in part :: k !in own && (k in value <==> k in defaults) && (k in value ==> value[k] == defaults[k])
  }

  lemma InheritedIs<R>(value: Fields<R>, own: Fields<R>, defaults: Fields<R>, part: seq<string>)
    ensures Inherited(value, own, defaults, part) <==> SaidByDefaults(value, own, defaults, part)
  {
    if Inherited(value, own, defaults, part) {
      forall k | k in part ensures (k in value <==> k in defaults) && (k in value ==> value[k] == defaults[k]) {
        assert Get(value, k) == Get(defaults, k);
      }
    }
  }

  /** Exactly what the defaults say is left out, a way to stop whole or not at all; and nothing written is altered. */
  lemma LeftOutIff<R>(value: Fields<R>, own: Fields<R>, defaults: Fields<R>, key: string)
    ensures key in OwnParts(value, own, defaults) <==>
            key in value && !(key in ["signal", "group", "keys", "cmd"] && SaidByDefaults(value, own, defaults, ["signal", "group", "keys", "cmd"]))
            && !(key == "timeout" && SaidByDefaults(value, own, defaults, ["timeout"]))
    ensures key in OwnParts(value, own, defaults) ==> OwnParts(value, own, defaults)[key] == value[key]
  {
    InheritedIs(value, own, defaults, HOW);
    var how := if Inherited(value, own, defaults, HOW) then Dropped(value, HOW) else value;
    InheritedIs(how, own, defaults, TIMEOUT);
    assert "timeout" !in HOW && ("timeout" in how <==> "timeout" in value);
    assert TIMEOUT == ["timeout"];
    assert SaidByDefaults(how, own, defaults, TIMEOUT) <==> SaidByDefaults(value, own, defaults, TIMEOUT);
  }
}
