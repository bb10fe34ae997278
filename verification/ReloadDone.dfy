/**
 Every run of a reload's steps, whatever the kernel refuses: each entry's step
 is done or fails, and what is here is as the entries done leave it.
 */
module ReloadDone {
  import opened Paths
  import opened Specs
  import opened Reload
  import opened ReloadChoices
  import opened ReloadRun
  import opened ReloadKeeps

  // ----- What an act makes of an item -----

  /** An item once an act is carried out on it; none when that removes it. */
  function ActFate(act: Act, item: Item): Option<Item> {
    match act
    case SetOrigin(_, origin) => Some(item.(origin := origin))
    case SetFolder(_, collapsed, origin) => Some(item.(origin := origin, spec := Some(FolderSpec(collapsed))))
    case RemoveTask(_) => None
    case DropFolder(_) => None
    case Update(_, spec, _) => Some(item.(spec := Some(spec)))
    case _ => Some(item)
  }

  /** An item once its change is carried out. */
  ghost function Fate(change: Change, item: Item, live: Live): Option<Item> {
    var act := ActOf(change, live, First);
    if act.Some? then ActFate(act.value, item) else Some(item)
  }

  ghost function PlanOf(changes: seq<Change>, adopt: seq<(nat, Source)>, live: Live): Carrying {
    Carrying(changes, adopt, live, (c: Change, x: Item) => Fate(c, x, live))
  }

  lemma PlanKeepsPlace(changes: seq<Change>, adopt: seq<(nat, Source)>, live: Live)
    ensures FateKeepsPlace(PlanOf(changes, adopt, live))
  {
    var plan := PlanOf(changes, adopt, live);
    forall c, x | plan.fate(c, x).Some?
      ensures plan.fate(c, x).value.id == x.id && plan.fate(c, x).value.path == x.path
    {
    }
  }

  /** The side of what is here that an act is on. */
  predicate OnFolder(act: Act) {
    act.SetFolder? || act.DropFolder? || act.AddFolder?
  }

  /** An act on an item that is here. */
  predicate Targets(act: Act, id: nat, path: Path) {
    match act
    case SetOrigin(i, _) => i == id
    case RemoveTask(i) => i == id
    case SetFolder(i, _, _) => i == id
    case DropFolder(i) => i == id
    case Update(p, _, _) => p == path
    case _ => false
  }

  lemma ExecOnItem(act: Act, k: Kernel, newId: nat, id: nat)
    requires Feasible(act, k)
    requires DistinctSide(k.tasks)
    requires id in KernelSide(k, OnFolder(act)) && Targets(act, id, KernelSide(k, OnFolder(act))[id].path)
    ensures var before := KernelSide(k, OnFolder(act));
            Effects(before, KernelSide(Exec(act, k, newId), OnFolder(act)), id, ActFate(act, before[id]))
    ensures KernelSide(Exec(act, k, newId), !OnFolder(act)) == KernelSide(k, !OnFolder(act))
  {
    var before := KernelSide(k, OnFolder(act));
    var after := KernelSide(Exec(act, k, newId), OnFolder(act));
    forall other: nat | other != id ensures StateOf(after, other) == StateOf(before, other) {
      if act.Update? && other in before {
        assert before[other].path != before[id].path;
      }
    }
  }

  lemma ActOfItem(change: Change, live: Live, place: Place, x: Item)
    requires ValidLive(live) && ItemOf(change, live, x) && !IsNew(change)
    requires ActOf(change, live, place).Some?
    ensures var act := ActOf(change, live, place).value;
            Targets(act, x.id, x.path) && OnFolder(act) == change.folder && ActOf(change, live, First) == Some(act)
  {
    if change.kind == Altered && !change.folder {
      FindFinds(live.tasks, false, x);
    }
  }

  lemma ActOfNew(change: Change, live: Live, place: Place)
    requires IsNew(change) && ActOf(change, live, place).Some?
    ensures var act := ActOf(change, live, place).value;
            && change.config.Some?
            && (change.folder ==> act == AddFolder(change.path, Collapsed(change.config.value), Some(change.source), place))
            && (!change.folder ==> act == AddTask(change.path, change.config.value, Some(change.source), place))
  {
  }

  lemma SomeAct(change: Change, live: Live, place: Place)
    ensures ActOf(change, live, place).Some? == ActOf(change, live, First).Some?
  {
  }

  // ----- One entry's step -----

  /** Both sides of the kernel are as the entries done leave them. */
  ghost predicate BothKept(plan: Carrying, k: Kernel, done: set<Source>, tasks: Made, folders: Made) {
    Kept(plan, false, k.tasks, done, tasks) && Kept(plan, true, k.folders, done, folders)
  }

  /** Ids that no task or folder has or had. */
  predicate IsFresh(plan: Carrying, id: nat, tasks: Made, folders: Made) {
    !HasId(plan.live.tasks, id) && !HasId(plan.live.folders, id) && id !in tasks && id !in folders
  }

  lemma OtherSideItems(live: Live, change: Change, x: Item)
    requires ValidLive(live) && ItemOf(change, live, x)
    ensures forall y | y in Side(live, !change.folder) :: change.task != Some(y.id)
    ensures forall y | y in Side(live, change.folder) && y.id == x.id :: y == x
  {
    forall y | y in Side(live, change.folder) && y.id == x.id ensures y == x {
      SameId(Side(live, change.folder), change.folder, x, y);
    }
  }

  lemma DoneOnItem(plan: Carrying, change: Change, x: Item, k: Kernel, done: set<Source>, newId: nat, tasks: Made, folders: Made)
    requires ValidPlan(plan) && plan == PlanOf(plan.changes, plan.adopt, plan.live)
    requires change in plan.changes && change.source !in done && !IsNew(change) && ItemOf(change, plan.live, x)
    requires BothKept(plan, k, done, tasks, folders)
    requires ActOf(change, plan.live, First).Some? && Feasible(ActOf(change, plan.live, First).value, k)
    ensures BothKept(plan, Exec(ActOf(change, plan.live, First).value, k, newId), done + {change.source}, tasks, folders)
  {
    var (f, act) := (change.folder, ActOf(change, plan.live, First).value);
    var (before, made) := (KernelSide(k, f), if f then folders else tasks);
    ActOfItem(change, plan.live, First, x);
    OtherSideItems(plan.live, change, x);
    BeforeDone(plan, before, done, change, x);
    ExecOnItem(act, k, newId, x.id);
    assert before[x.id] == Taken(plan.adopt, x);
    assert plan.fate(change, before[x.id]) == ActFate(act, before[x.id]);
    OldKeeps(plan, change, x, before, KernelSide(Exec(act, k, newId), f), done, made);
    OtherKeeps(plan, change, !f, KernelSide(k, !f), done, if f then tasks else folders);
  }

  lemma DoneNew(plan: Carrying, change: Change, place: Place, k: Kernel, done: set<Source>, newId: nat, tasks: Made, folders: Made)
    requires ValidPlan(plan)
    requires change in plan.changes && change.source !in done && IsNew(change)
    requires BothKept(plan, k, done, tasks, folders) && IsFresh(plan, newId, tasks, folders)
    requires ActOf(change, plan.live, place).Some? && Feasible(ActOf(change, plan.live, place).value, k)
    ensures BothKept(plan, Exec(ActOf(change, plan.live, place).value, k, newId), done + {change.source},
                     if change.folder then tasks else tasks[newId := change],
                     if change.folder then folders[newId := change] else folders)
  {
    var (f, act) := (change.folder, ActOf(change, plan.live, place).value);
    var (before, made) := (KernelSide(k, f), if f then folders else tasks);
    ActOfNew(change, plan.live, place);
    var item := KernelSide(Exec(act, k, newId), f)[newId];
    NewKeeps(plan, change, newId, item, before, done, made);
    OtherKeeps(plan, change, !f, KernelSide(k, !f), done, if f then tasks else folders);
  }

  /** A step that is for a change of the plan, or moves something in the list. */
  ghost predicate StepFits(step: Step, plan: Carrying) {
    || (step.source.None? && step.act.Move?)
    || exists c, place | c in plan.changes && ActOf(c, plan.live, place) == Some(step.act) :: step.source == Some(c.source)
  }

  /** The ids given so far are those of answers so far. */
  ghost predicate GivenBy(made: Made, answers: nat -> Answer, n: nat) {
    forall id | id in made :: exists m | 0 <= m < n :: answers(m).newId == id
  }

  /** The kernel never gives an id twice, or one that was here. */
  ghost predicate FreshIds(answers: nat -> Answer, live: Live) {
    && (forall m: nat :: !HasId(live.tasks, answers(m).newId) && !HasId(live.folders, answers(m).newId))
    && (forall m: nat, n: nat | m != n :: answers(m).newId != answers(n).newId)
  }

  /** An entry done keeps both sides. */
  lemma DoneKeeps(plan: Carrying, c: Change, place: Place, k: Kernel, done: set<Source>, newId: nat, tasks: Made, folders: Made)
    returns (tasks': Made, folders': Made)
    requires ValidPlan(plan) && plan == PlanOf(plan.changes, plan.adopt, plan.live)
    requires c in plan.changes && c.source !in done
    requires ActOf(c, plan.live, place).Some? && Feasible(ActOf(c, plan.live, place).value, k)
    requires BothKept(plan, k, done, tasks, folders) && IsFresh(plan, newId, tasks, folders)
    ensures BothKept(plan, Exec(ActOf(c, plan.live, place).value, k, newId), done + {c.source}, tasks', folders')
    ensures tasks'.Keys + folders'.Keys <= tasks.Keys + folders.Keys + {newId}
  {
    tasks', folders' := tasks, folders;
    if IsNew(c) {
      DoneNew(plan, c, place, k, done, newId, tasks, folders);
      if c.folder {
        folders' := folders[newId := c];
      } else {
        tasks' := tasks[newId := c];
      }
    } else {
      var x :| ItemOf(c, plan.live, x);
      ActOfItem(c, plan.live, place, x);
      DoneOnItem(plan, c, x, k, done, newId, tasks, folders);
    }
  }

  /** One step keeps both sides. */
  lemma TakeKeeps(plan: Carrying, step: Step, run: Run, answer: Answer, tasks: Made, folders: Made)
    returns (tasks': Made, folders': Made)
    requires ValidPlan(plan) && plan == PlanOf(plan.changes, plan.adopt, plan.live)
    requires StepFits(step, plan) && (step.source.Some? ==> step.source.value !in run.done)
    requires BothKept(plan, run.kernel, run.done, tasks, folders) && IsFresh(plan, answer.newId, tasks, folders)
    ensures var after := Take(step, run, answer); BothKept(plan, after.kernel, after.done, tasks', folders')
    ensures tasks'.Keys + folders'.Keys <= tasks.Keys + folders.Keys + {answer.newId}
  {
    tasks', folders' := tasks, folders;
    if step.source.None? {
      MoveStays(step, run, answer);
    } else if answer.accepts && Feasible(step.act, run.kernel) && step.source.value !in run.failed {
      var c, place := ChangeOfStep(step, plan);
      tasks', folders' := DoneKeeps(plan, c, place, run.kernel, run.done, answer.newId, tasks, folders);
    }
  }

  lemma MoveStays(step: Step, run: Run, answer: Answer)
    requires step.source.None? && step.act.Move?
    ensures Take(step, run, answer).kernel == run.kernel && Take(step, run, answer).done == run.done
  {
  }

  lemma ChangeOfStep(step: Step, plan: Carrying) returns (c: Change, place: Place)
    requires StepFits(step, plan) && step.source.Some?
    ensures c in plan.changes && ActOf(c, plan.live, place) == Some(step.act) && step.source == Some(c.source)
  {
    c, place :| c in plan.changes && ActOf(c, plan.live, place) == Some(step.act) && step.source == Some(c.source);
  }

  // ----- The whole run -----

  /** Each entry's step is only once. */
  ghost predicate OncePerEntry(steps: seq<Step>, from: nat) {
    forall i, j | from <= i < j < |steps| && steps[i].source.Some? :: steps[i].source != steps[j].source
  }

  /** The entries that have a step among the first `n`. */
  function StepSources(steps: seq<Step>, n: nat): set<Source>
    requires n <= |steps|
  {
    set i | 0 <= i < n && steps[i].source.Some? :: steps[i].source.value
  }

  /** A list of steps that carries a plan out: the adoptions, then one step for each change that has an act. */
  ghost predicate Carries(steps: seq<Step>, plan: Carrying) {
    && |plan.adopt| <= |steps|
    && steps[..|plan.adopt|] == AdoptSteps(plan.adopt, plan.live)
    && (forall k | |plan.adopt| <= k < |steps| :: StepFits(steps[k], plan))
    && OncePerEntry(steps, |plan.adopt|)
    && (forall c | c in plan.changes && ActOf(c, plan.live, First).Some? :: c.source in StepSources(steps, |steps|))
  }

  lemma NotYetTaken(steps: seq<Step>, from: nat, n: nat)
    requires from <= n < |steps| && OncePerEntry(steps, from)
    requires forall k | 0 <= k < from :: steps[k].source.None?
    ensures steps[n].source.Some? ==> steps[n].source.value !in StepSources(steps, n)
  {
  }

  lemma StepSourcesMore(steps: seq<Step>, n: nat)
    requires n < |steps|
    ensures StepSources(steps, n + 1) == StepSources(steps, n) + SetOfSource(steps[n].source)
  {
  }

  lemma {:induction false} RunSplits(steps: seq<Step>, from: nat, n: nat, kernel: Kernel, answers: nat -> Answer)
    requires n <= |steps| && OncePerEntry(steps, from)
    requires forall k | 0 <= k < from && k < |steps| :: steps[k].source.None?
    ensures var run := RunTo(steps, n, kernel, answers);
            run.done + run.failed == StepSources(steps, n) && run.done !! run.failed
  {
    if n > 0 {
      RunSplits(steps, from, n - 1, kernel, answers);
      StepSourcesMore(steps, n - 1);
      if n - 1 >= from {
        NotYetTaken(steps, from, n - 1);
      }
    }
  }

  // ----- The adoptions -----

  lemma {:induction false} AdoptedSnoc(adopt: seq<(nat, Source)>, a: (nat, Source), id: nat)
    ensures AdoptedSource(adopt + [a], id) ==
            if AdoptedSource(adopt, id).Some? then AdoptedSource(adopt, id)
            else if a.0 == id then Some(a.1) else None
  {
    if adopt != [] {
      assert (adopt + [a])[1..] == adopt[1..] + [a];
      AdoptedSnoc(adopt[1..], a, id);
    }
  }

  lemma {:induction false} NotAdopted(adopt: seq<(nat, Source)>, id: nat)
    ensures AdoptedSource(adopt, id).Some? <==> exists a | a in adopt :: a.0 == id
    ensures AdoptedSource(adopt, id).Some? ==> (id, AdoptedSource(adopt, id).value) in adopt
  {
    if adopt != [] && adopt[0].0 != id {
      NotAdopted(adopt[1..], id);
    }
  }

  /** The plan with only its first `n` adoptions. */
  function AdoptedSoFar(plan: Carrying, n: nat): Carrying
    requires n <= |plan.adopt|
  {
    plan.(adopt := plan.adopt[..n])
  }

  lemma AdoptKeepsSide(plan: Carrying, n: nat, folder: bool, before: map<nat, Item>, after: map<nat, Item>, x: Item)
    requires n < |plan.adopt| && CoherentAdoptions(plan.adopt, plan.live)
    requires x in Side(plan.live, folder) && x.id == plan.adopt[n].0
    requires forall y | y in Side(plan.live, folder) && y.id == x.id :: y == x
    requires Kept(AdoptedSoFar(plan, n), folder, before, {}, map[])
    requires Effects(before, after, x.id, Some(x.(origin := Some(plan.adopt[n].1))))
    ensures Kept(AdoptedSoFar(plan, n + 1), folder, after, {}, map[])
  {
    var (sofar, more) := (AdoptedSoFar(plan, n), AdoptedSoFar(plan, n + 1));
    assert plan.adopt[..n + 1] == plan.adopt[..n] + [plan.adopt[n]];
    forall y | y in Side(plan.live, folder) ensures StateOf(after, y.id) == Expected(more, y, {}) {
      AdoptedSnoc(plan.adopt[..n], plan.adopt[n], y.id);
      if y == x {
        NotAdopted(plan.adopt[..n], x.id);
        assert forall a | a in plan.adopt[..n] :: a.0 != x.id;
      } else {
        assert StateOf(before, y.id) == Expected(sofar, y, {});
      }
    }
    assert StateOf(before, x.id) == Expected(sofar, x, {});
    EffectsKeepPaths(before, after, x.id, Some(x.(origin := Some(plan.adopt[n].1))));
    forall id ensures id in after <==> id in before {
      assert id != x.id ==> StateOf(after, id) == StateOf(before, id);
    }
    assert NewAreMade(more, folder, after, {}, map[]);
  }

  lemma AdoptLeavesSide(plan: Carrying, n: nat, folder: bool, side: map<nat, Item>)
    requires n < |plan.adopt|
    requires forall y | y in Side(plan.live, folder) :: y.id != plan.adopt[n].0
    requires Kept(AdoptedSoFar(plan, n), folder, side, {}, map[])
    ensures Kept(AdoptedSoFar(plan, n + 1), folder, side, {}, map[])
  {
    var (sofar, more) := (AdoptedSoFar(plan, n), AdoptedSoFar(plan, n + 1));
    assert plan.adopt[..n + 1] == plan.adopt[..n] + [plan.adopt[n]];
    forall y | y in Side(plan.live, folder) ensures StateOf(side, y.id) == Expected(more, y, {}) {
      AdoptedSnoc(plan.adopt[..n], plan.adopt[n], y.id);
      assert StateOf(side, y.id) == Expected(sofar, y, {});
    }
    assert NewAreMade(more, folder, side, {}, map[]);
  }

  lemma AdoptKeeps(plan: Carrying, n: nat, k: Kernel, newId: nat)
    requires ValidPlan(plan) && n < |plan.adopt|
    requires BothKept(AdoptedSoFar(plan, n), k, {}, map[], map[])
    ensures var act := AdoptStep(plan.adopt[n], plan.live).act;
            Feasible(act, k) && BothKept(AdoptedSoFar(plan, n + 1), Exec(act, k, newId), {}, map[], map[])
  {
    var (id, source) := plan.adopt[n];
    assert plan.adopt[n] in plan.adopt;
    var x :| x in plan.live.tasks + plan.live.folders && x.id == id;
    var f := x in plan.live.folders;
    var act := AdoptStep(plan.adopt[n], plan.live).act;
    if f {
      FindFinds(plan.live.folders, true, x);
    } else {
      FindMisses(plan.live.folders, id);
    }
    forall y | y in Side(plan.live, f) && y.id == id ensures y == x {
      SameId(Side(plan.live, f), f, x, y);
    }
    var before := KernelSide(k, f);
    NotAdopted(plan.adopt[..n], id);
    assert forall a | a in plan.adopt[..n] :: a.0 != id;
    assert StateOf(before, id) == Expected(AdoptedSoFar(plan, n), x, {});
    assert before[id] == x;
    ExecOnItem(act, k, newId, id);
    AdoptKeepsSide(plan, n, f, before, KernelSide(Exec(act, k, newId), f), x);
    AdoptLeavesSide(plan, n, !f, KernelSide(k, !f));
  }

  // ----- From the first step to the last -----

  /** The kernel holds what is here. */
  ghost predicate Holds(side: map<nat, Item>, items: seq<Item>) {
    && (forall x | x in items :: x.id in side && side[x.id] == x)
    && (forall id | id in side :: HasId(items, id))
  }

  lemma StartDistinct(items: seq<Item>, folder: bool, side: map<nat, Item>)
    requires ValidSide(items, folder) && Holds(side, items)
    ensures DistinctSide(side)
  {
    forall id | id in side ensures side[id].id == id && side[id] in items {
      var x :| x in items && x.id == id;
    }
    forall i, j | i in side && j in side && side[i].path == side[j].path ensures i == j {
      SameId(items, folder, side[i], side[j]);
    }
  }

  lemma StartKept(plan: Carrying, folder: bool, side: map<nat, Item>)
    requires ValidSide(Side(plan.live, folder), folder) && Holds(side, Side(plan.live, folder))
    ensures Kept(AdoptedSoFar(plan, 0), folder, side, {}, map[])
  {
    StartDistinct(Side(plan.live, folder), folder, side);
  }

  /** The adoptions, none refused, give every item the entry it takes over. */
  lemma {:induction false} AdoptionsKeep(plan: Carrying, steps: seq<Step>, n: nat, k: Kernel, answers: nat -> Answer)
    requires ValidPlan(plan) && n <= |plan.adopt| <= |steps|
    requires forall m | 0 <= m < |plan.adopt| :: steps[m] == AdoptStep(plan.adopt[m], plan.live)
    requires Holds(k.tasks, plan.live.tasks) && Holds(k.folders, plan.live.folders)
    requires forall m | 0 <= m < |plan.adopt| :: answers(m).accepts
    ensures var run := RunTo(steps, n, k, answers);
            run.done == {} && run.failed == {} && BothKept(AdoptedSoFar(plan, n), run.kernel, {}, map[], map[])
  {
    if n == 0 {
      BothStart(plan, k);
    } else {
      AdoptionsKeep(plan, steps, n - 1, k, answers);
      AdoptOne(plan, n - 1, RunTo(steps, n - 1, k, answers), answers(n - 1));
    }
  }

  lemma BothStart(plan: Carrying, k: Kernel)
    requires ValidLive(plan.live) && Holds(k.tasks, plan.live.tasks) && Holds(k.folders, plan.live.folders)
    ensures BothKept(AdoptedSoFar(plan, 0), k, {}, map[], map[])
  {
    StartKept(plan, false, k.tasks);
    StartKept(plan, true, k.folders);
  }

  lemma AdoptOne(plan: Carrying, n: nat, run: Run, answer: Answer)
    requires ValidPlan(plan) && n < |plan.adopt| && answer.accepts
    requires run.done == {} && run.failed == {} && BothKept(AdoptedSoFar(plan, n), run.kernel, {}, map[], map[])
    ensures var after := Take(AdoptStep(plan.adopt[n], plan.live), run, answer);
            after.done == {} && after.failed == {} && BothKept(AdoptedSoFar(plan, n + 1), after.kernel, {}, map[], map[])
  {
    AdoptKeeps(plan, n, run.kernel, answer.newId);
  }

  lemma AdoptStepsFirst(steps: seq<Step>, plan: Carrying)
    requires |plan.adopt| <= |steps| && steps[..|plan.adopt|] == AdoptSteps(plan.adopt, plan.live)
    ensures forall m | 0 <= m < |plan.adopt| :: steps[m] == AdoptStep(plan.adopt[m], plan.live)
  {
    forall m | 0 <= m < |plan.adopt| ensures steps[m] == AdoptStep(plan.adopt[m], plan.live) {
      assert steps[m] == steps[..|plan.adopt|][m];
    }
  }

  lemma FreshNow(plan: Carrying, answers: nat -> Answer, n: nat, tasks: Made, folders: Made)
    requires FreshIds(answers, plan.live) && GivenBy(tasks, answers, n) && GivenBy(folders, answers, n)
    ensures IsFresh(plan, answers(n).newId, tasks, folders)
  {
  }

  lemma GivenMore(answers: nat -> Answer, n: nat, before: set<nat>, after: Made)
    requires after.Keys <= before + {answers(n).newId}
    requires forall id | id in before :: exists m | 0 <= m < n :: answers(m).newId == id
    ensures GivenBy(after, answers, n + 1)
  {
    forall id | id in after ensures exists m | 0 <= m < n + 1 :: answers(m).newId == id {
      if id in before {
        var m :| 0 <= m < n && answers(m).newId == id;
        assert answers(m).newId == id;
      }
    }
  }

  /** What a run needs of its plan, its steps and its answers. */
  ghost predicate RunOf(plan: Carrying, steps: seq<Step>, k: Kernel, answers: nat -> Answer) {
    && ValidPlan(plan) && plan == PlanOf(plan.changes, plan.adopt, plan.live)
    && Carries(steps, plan)
    && Holds(k.tasks, plan.live.tasks) && Holds(k.folders, plan.live.folders)
    && FreshIds(answers, plan.live)
    && forall m | 0 <= m < |plan.adopt| :: answers(m).accepts
  }

  lemma RunStart(plan: Carrying, steps: seq<Step>, k: Kernel, answers: nat -> Answer)
    requires RunOf(plan, steps, k, answers)
    ensures var run := RunTo(steps, |plan.adopt|, k, answers); BothKept(plan, run.kernel, run.done, map[], map[])
  {
    AdoptStepsFirst(steps, plan);
    AdoptionsKeep(plan, steps, |plan.adopt|, k, answers);
    assert AdoptedSoFar(plan, |plan.adopt|) == plan;
  }

  lemma NotDoneYet(plan: Carrying, steps: seq<Step>, n: nat, k: Kernel, answers: nat -> Answer)
    requires Carries(steps, plan) && |plan.adopt| <= n < |steps|
    ensures steps[n].source.Some? ==> steps[n].source.value !in RunTo(steps, n, k, answers).done
  {
    AdoptStepsFirst(steps, plan);
    RunSplits(steps, |plan.adopt|, n, k, answers);
    NotYetTaken(steps, |plan.adopt|, n);
  }

  /** Every step keeps what is here as the entries done so far leave it. */
  lemma {:induction false} RunKeeps(plan: Carrying, steps: seq<Step>, n: nat, k: Kernel, answers: nat -> Answer)
    returns (tasks: Made, folders: Made)
    requires RunOf(plan, steps, k, answers) && |plan.adopt| <= n <= |steps|
    ensures var run := RunTo(steps, n, k, answers); BothKept(plan, run.kernel, run.done, tasks, folders)
    ensures GivenBy(tasks, answers, n) && GivenBy(folders, answers, n)
    decreases n
  {
    if n == |plan.adopt| {
      RunStart(plan, steps, k, answers);
      tasks, folders := map[], map[];
    } else {
      var before, beforeFolders := RunKeeps(plan, steps, n - 1, k, answers);
      NotDoneYet(plan, steps, n - 1, k, answers);
      FreshNow(plan, answers, n - 1, before, beforeFolders);
      tasks, folders := TakeKeeps(plan, steps[n - 1], RunTo(steps, n - 1, k, answers), answers(n - 1), before, beforeFolders);
      GivenMore(answers, n - 1, before.Keys + beforeFolders.Keys, tasks);
      GivenMore(answers, n - 1, before.Keys + beforeFolders.Keys, folders);
    }
  }
}
