/**
 Carrying a reload's plan out: the steps, and the kernel as an environment in
 which each step either has its whole effect or fails with none.
 */
module ReloadRun {
  import opened Paths
  import opened Specs
  import opened Reload
  import opened ReloadChoices
  import opened AddOrder

  datatype Place = First | After(path: Path)

  datatype Act =
    | SetOrigin(id: nat, origin: Option<Source>)
    | SetFolder(id: nat, collapsed: bool, origin: Option<Source>)
    | RemoveTask(id: nat)
    | DropFolder(id: nat)
    | AddTask(path: Path, spec: Spec, origin: Option<Source>, place: Place)
    | AddFolder(path: Path, collapsed: bool, origin: Option<Source>, place: Place)
    | Update(path: Path, spec: Spec, was: Spec)
    | Move(path: Path, place: Place)

  /** An act for the kernel; the entry tells whose change it carries out. */
  datatype Step = Step(source: Option<Source>, act: Act)

  // ----- Folders' definitions -----

  const COLLAPSED := "collapsed"

  function FolderSpec(collapsed: bool): Spec {
    if collapsed then map[Text(COLLAPSED) := Bool(true)] else map[]
  }

  predicate Collapsed(spec: Spec) {
    Lookup(spec, COLLAPSED) == Some(Bool(true))
  }

  // ----- The steps -----

  function Find(items: seq<Item>, id: nat): Option<Item> {
    if items == [] then None
    else if items[0].id == id then Some(items[0])
    else Find(items[1..], id)
  }

  /** Whether the folder with this id is shown collapsed at first; a folder that is not there is not. */
  predicate FolderIsCollapsed(live: Live, id: nat) {
    var folder := Find(live.folders, id);
    folder.Some? && Collapsed(SpecOf(folder.value))
  }

  function AdoptStep(adoption: (nat, Source), live: Live): Step {
    var (id, source) := adoption;
    Step(None, if Find(live.folders, id).Some?
               then SetFolder(id, FolderIsCollapsed(live, id), Some(source))
               else SetOrigin(id, Some(source)))
  }

  function AdoptSteps(adopt: seq<(nat, Source)>, live: Live): seq<Step> {
    seq(|adopt|, i requires 0 <= i < |adopt| => AdoptStep(adopt[i], live))
  }

  /** The keys of the fields taken, in some order: the order they are set in makes no difference. */
  ghost function InSomeOrder(keys: set<string>): (r: seq<string>)
    ensures forall key :: key in r <==> key in keys
  {
    if keys == {} then []
    else
      var key :| key in keys;
      [key] + InSomeOrder(keys - {key})
  }

  function TakenKeys(change: Change): set<string> {
    set key | key in change.fields && change.fields[key].take
  }

  /** What a changed task says with the fields taken, and what it says without. */
  ghost function TakenSpec(change: Change, here: Spec): Spec
    requires change.config.Some?
  {
    Patch(here, change.config.value, InSomeOrder(TakenKeys(change)))
  }

  /** What carries a change out, if anything does; a new one at a place. */
  ghost function ActOf(change: Change, live: Live, place: Place): Option<Act> {
    match change.kind
    case Removed =>
      if change.task.None? then None
      else
        var id := change.task.value;
        Some(match (change.apply, change.folder)
             case (true, true) => DropFolder(id)
             case (true, false) => RemoveTask(id)
             case (false, true) => SetFolder(id, FolderIsCollapsed(live, id), None)
             case (false, false) => SetOrigin(id, None))
    case Written =>
      if change.task.None? || !change.apply then None
      else
        var id := change.task.value;
        Some(if change.folder
             then SetFolder(id, change.config.Some? && Collapsed(change.config.value), Some(change.source))
             else SetOrigin(id, Some(change.source)))
    case Altered =>
      if change.task.None? || change.config.None? then None
      else if change.folder then
        var id := change.task.value;
        var taken := COLLAPSED in TakenKeys(change);
        Some(SetFolder(id, if taken then Collapsed(change.config.value) else FolderIsCollapsed(live, id), Some(change.source)))
      else
        var task := Find(live.tasks, change.task.value);
        if task.None? || task.value.spec.None? then None
        else
          var here := task.value.spec.value;
          if TakenSpec(change, here) == here then None
          else Some(Update(task.value.path, TakenSpec(change, here), here))
    case _ =>
      if !change.apply || change.config.None? then None
      else if change.folder then
        Some(AddFolder(change.path, Collapsed(change.config.value), Some(change.source), place))
      else
        Some(AddTask(change.path, change.config.value, Some(change.source), place))
  }

  ghost function StepsOf(changes: seq<Change>, kind: Kind, live: Live): seq<Step> {
    if changes == [] then []
    else
      var (rest, last) := (StepsOf(changes[..|changes| - 1], kind, live), changes[|changes| - 1]);
      var act := ActOf(last, live, First);
      if last.kind == kind && act.Some? then rest + [Step(Some(last.source), act.value)] else rest
  }

  /** The path each entry's task or folder has when its turn comes. */
  type At = map<Source, Path>

  function AdoptedSource(adopt: seq<(nat, Source)>, id: nat): Option<Source> {
    if adopt == [] then None
    else if adopt[0].0 == id then Some(adopt[0].1)
    else AdoptedSource(adopt[1..], id)
  }

  function SourceOf(adopt: seq<(nat, Source)>, item: Item): Option<Source> {
    var adopted := AdoptedSource(adopt, item.id);
    if adopted.Some? then adopted else item.origin
  }

  function AtStart(items: seq<Item>, adopt: seq<(nat, Source)>): At {
    if items == [] then map[]
    else
      var (rest, last) := (AtStart(items[..|items| - 1], adopt), items[|items| - 1]);
      match SourceOf(adopt, last)
      case Some(source) => rest[source := last.path]
      case None => rest
  }

  function AtWithout(at: At, changes: seq<Change>): At {
    at - set c | c in changes && c.kind == Removed && c.task.Some? && c.apply :: c.source
  }

  function AtWritten(at: At, changes: seq<Change>): At {
    if changes == [] then at
    else
      var (rest, last) := (AtWritten(at, changes[..|changes| - 1]), changes[|changes| - 1]);
      if last.kind == Written && last.apply && last.task.Some? then rest[last.source := last.path] else rest
  }

  function AtBeforeAdds(changes: seq<Change>, adopt: seq<(nat, Source)>, live: Live): At {
    AtWritten(AtWithout(AtStart(live.tasks + live.folders, adopt), changes), changes)
  }

  /** The new tasks and folders taken that are not in already. */
  function Additions(changes: seq<Change>, at: At): seq<Change> {
    if changes == [] then []
    else
      var (rest, last) := (Additions(changes[..|changes| - 1], at), changes[|changes| - 1]);
      if last.apply && IsNew(last) && last.source !in at then rest + [last] else rest
  }

  /** The closest predecessor of a new entry, in the config's order, that has the same parent. */
  function AfterIn(sources: seq<Source>, n: nat, at: At, change: Change): (r: Option<Source>)
    requires n <= |sources|
    ensures r.Some? ==> r.value in at && Parent(at[r.value]) == Parent(change.path)
  {
    if n == 0 then None
    else if sources[n - 1] in at && Parent(at[sources[n - 1]]) == Parent(change.path) then Some(sources[n - 1])
    else AfterIn(sources, n - 1, at, change)
  }

  function SourceIndex(sources: seq<Source>, source: Source): (n: nat)
    ensures n <= |sources|
    ensures n < |sources| ==> sources[n] == source
    ensures n == |sources| ==> source !in sources
  {
    if sources == [] then 0 else if sources[0] == source then 0 else 1 + SourceIndex(sources[1..], source)
  }

  function PlaceIn(sources: seq<Source>, at: At, change: Change): Place {
    var n := SourceIndex(sources, change.source);
    if n == |sources| then First
    else match AfterIn(sources, n, at, change)
    case Some(source) => After(at[source])
    case None => First
  }

  ghost function AddSteps(adds: seq<Change>, sources: seq<Source>, at: At, live: Live): seq<Step> {
    if adds == [] then []
    else if adds[0].config.None? then AddSteps(adds[1..], sources, at, live)
    else
      var act := ActOf(adds[0], live, PlaceIn(sources, at, adds[0]));
      (if act.Some? then [Step(Some(adds[0].source), act.value)] else []) +
      AddSteps(adds[1..], sources, at[adds[0].source := adds[0].path], live)
  }

  function ConfigSources(config: Config): seq<Source> {
    seq(|config.entries|, i requires 0 <= i < |config.entries| => config.entries[i].source)
  }

  /**
   The steps that carry a plan's choices out, the config's order apart: the
   entries taken over, the removals, the ones written, the additions, and the
   changes to the others.
   */
  ghost function Steps(config: Config, changes: seq<Change>, adopt: seq<(nat, Source)>, live: Live): seq<Step> {
    var at := AtBeforeAdds(changes, adopt, live);
    AdoptSteps(adopt, live)
    + (StepsOf(changes, Removed, live)
       + StepsOf(changes, Written, live)
       + AddSteps(InAddOrder(Additions(changes, at)), ConfigSources(config), at, live)
       + StepsOf(changes, Altered, live))
  }

  // ----- The kernel -----

  /** The tasks and the folders, by id. */
  datatype Kernel = Kernel(tasks: map<nat, Item>, folders: map<nat, Item>)

  predicate TaskFits(k: Kernel, path: Path) {
    && (forall id | id in k.tasks :: !Overlaps(k.tasks[id].path, path))
    && (forall id | id in k.folders :: !AtOrUnder(k.folders[id].path, path))
  }

  predicate FolderFits(k: Kernel, path: Path) {
    && (forall id | id in k.tasks :: !AtOrUnder(path, k.tasks[id].path))
    && (forall id | id in k.folders :: k.folders[id].path != path)
  }

  /** When the kernel can do an act at all. It may refuse one that it can. */
  predicate Feasible(act: Act, k: Kernel) {
    match act
    case SetOrigin(id, _) => id in k.tasks
    case RemoveTask(id) => id in k.tasks
    case SetFolder(id, _, _) => id in k.folders
    case DropFolder(id) => id in k.folders
    case AddTask(path, _, _, _) => TaskFits(k, path)
    case AddFolder(path, _, _, _) => FolderFits(k, path)
    case Update(path, _, was) =>
      exists id | id in k.tasks ::
        k.tasks[id].path == path && k.tasks[id].spec.Some? && Changed(k.tasks[id].spec.value, was) == {}
    case Move(_, _) => true
  }

  function Exec(act: Act, k: Kernel, newId: nat): Kernel
    requires Feasible(act, k)
  {
    match act
    case SetOrigin(id, origin) => k.(tasks := k.tasks[id := k.tasks[id].(origin := origin)])
    case RemoveTask(id) => k.(tasks := k.tasks - {id})
    case SetFolder(id, collapsed, origin) =>
      k.(folders := k.folders[id := k.folders[id].(origin := origin, spec := Some(FolderSpec(collapsed)))])
    case DropFolder(id) => k.(folders := k.folders - {id})
    case AddTask(path, spec, origin, _) =>
      k.(tasks := k.tasks[newId := Item(newId, path, origin, Some(spec), false)])
    case AddFolder(path, collapsed, origin, _) =>
      k.(folders := k.folders[newId := Item(newId, path, origin, Some(FolderSpec(collapsed)), false)])
    case Update(path, spec, _) =>
      k.(tasks := map id | id in k.tasks ::
           if k.tasks[id].path == path then k.tasks[id].(spec := Some(spec)) else k.tasks[id])
    case Move(_, _) => k
  }

  /** Whether the kernel accepts a step, and the id it would give a new task or folder. */
  datatype Answer = Answer(accepts: bool, newId: nat)

  /** The kernel, and the entries whose steps were done and failed. */
  datatype Run = Run(kernel: Kernel, done: set<Source>, failed: set<Source>)

  function SetOfSource(source: Option<Source>): set<Source> {
    if source.Some? then {source.value} else {}
  }

  /** Takes one step. An entry that failed once is given no further step. */
  function Take(step: Step, run: Run, answer: Answer): Run {
    if step.source.Some? && step.source.value in run.failed then run
    else if answer.accepts && Feasible(step.act, run.kernel) then
      run.(kernel := Exec(step.act, run.kernel, answer.newId), done := run.done + SetOfSource(step.source))
    else run.(failed := run.failed + SetOfSource(step.source))
  }

  /** The first `n` steps, each answered as the kernel happens to. */
  function RunTo(steps: seq<Step>, n: nat, kernel: Kernel, answers: nat -> Answer): Run
    requires n <= |steps|
  {
    if n == 0 then Run(kernel, {}, {})
    else Take(steps[n - 1], RunTo(steps, n - 1, kernel, answers), answers(n - 1))
  }

  /** The changes, those that failed marked. */
  function MarkFailed(changes: seq<Change>, failed: set<Source>): seq<Change> {
    seq(|changes|, i requires 0 <= i < |changes| =>
      changes[i].(failed := changes[i].failed || changes[i].source in failed))
  }

  // ----- The base left -----

  function ChangeFor(changes: seq<Change>, source: Source): (r: Option<Change>)
    ensures r.Some? ==> r.value in changes && r.value.source == source
    ensures r.None? ==> forall c | c in changes :: c.source != source
  {
    if changes == [] then None
    else if changes[0].source == source then Some(changes[0])
    else ChangeFor(changes[1..], source)
  }

  /** What the base says of an entry of the config once a plan is carried out. */
  function CarriedEntry(entry: Entry, changes: seq<Change>): Option<Spec> {
    match ChangeFor(changes, entry.source)
    case None => Some(entry.spec)
    case Some(change) =>
      if change.failed then change.base
      else if (change.kind == Added || change.kind == Written) && !change.apply then None
      else Some(entry.spec)
  }

  function CarriedEntries(entries: seq<Entry>, changes: seq<Change>): Base {
    if entries == [] then map[]
    else
      var (rest, last) := (CarriedEntries(entries[..|entries| - 1], changes), entries[|entries| - 1]);
      match CarriedEntry(last, changes)
      case Some(spec) => rest[last.source := spec]
      case None => rest
  }

  /** Entries whose removal failed stay in the base, since their tasks still run. */
  function KeptGone(changes: seq<Change>): Base {
    if changes == [] then map[]
    else
      var (rest, last) := (KeptGone(changes[..|changes| - 1]), changes[|changes| - 1]);
      if last.kind == Removed && last.failed && last.base.Some? then rest[last.source := last.base.value] else rest
  }

  /** The next base: what the config says, but for the changes that failed or were put off. */
  function CarriedOut(config: Config, changes: seq<Change>): Base {
    CarriedEntries(config.entries, changes) + KeptGone(changes)
  }

  // ----- The loop that carries a plan out -----

  class Runner {
    var kernel: Kernel
    var changes: seq<Change>
    var base: Base

    constructor (kernel: Kernel, changes: seq<Change>, base: Base)
      ensures this.kernel == kernel && this.changes == changes && this.base == base
    {
      this.kernel, this.changes, this.base := kernel, changes, base;
    }

    /** Takes the steps in order, passing over what follows a failed one for its entry. */
    method Apply(config: Config, steps: seq<Step>, answers: nat -> Answer)
      modifies this
      ensures kernel == RunTo(steps, |steps|, old(kernel), answers).kernel
      ensures changes == MarkFailed(old(changes), RunTo(steps, |steps|, old(kernel), answers).failed)
      ensures base == CarriedOut(config, changes)
    {
      ghost var (k0, changes0) := (kernel, changes);
      var failed: set<Source> := {};
      assert MarkFailed(changes, {}) == changes;
      for i := 0 to |steps|
        invariant kernel == RunTo(steps, i, k0, answers).kernel
        invariant failed == RunTo(steps, i, k0, answers).failed
        invariant changes == MarkFailed(changes0, failed)
      {
        var step := steps[i];
        if !(step.source.Some? && step.source.value in failed) {
          if answers(i).accepts && Feasible(step.act, kernel) {
            kernel := Exec(step.act, kernel, answers(i).newId);
          } else if step.source.Some? {
            MarkSource(step.source.value);
            failed := failed + {step.source.value};
          }
        }
      }
      base := CarriedOut(config, changes);
    }

    method MarkSource(source: Source)
      modifies this`changes
      ensures changes == MarkFailed(old(changes), {source})
    {
      ghost var before := changes;
      for i := 0 to |changes|
        invariant |changes| == |before|
        invariant forall j | 0 <= j < i :: changes[j] == before[j].(failed := before[j].failed || before[j].source == source)
        invariant forall j | i <= j < |changes| :: changes[j] == before[j]
      {
        changes := changes[i := changes[i].(failed := changes[i].failed || changes[i].source == source)];
      }
    }
  }
}
