/**
 When a reload goes through: with every choice made by what is in the way, and a
 config whose paths may be together, a kernel that refuses nothing it can do
 refuses nothing at all.
 */
module ReloadPasses {
  import opened Paths
  import opened Specs
  import opened Reload
  import opened ReloadChoices
  import opened ReloadRun
  import opened ReloadKeeps
  import opened ReloadDone
  import opened ReloadPlanned
  import opened ReloadSteps
  import opened ReloadCarries
  import opened ReloadAgain
  import opened ReloadConverges
  import opened ReloadEffects

  // ----- What the choices are checked against -----

  function PlacedOf(items: seq<Item>): seq<Placed> {
    seq(|items|, i requires 0 <= i < |items| => Placed(items[i].id, items[i].path))
  }

  function HereOf(live: Live): Here { Here(PlacedOf(live.tasks), PlacedOf(live.folders)) }

  /** No new task or folder is taken against something that stays. */
  predicate NoneBlocked(changes: seq<Change>, live: Live) {
    forall c | c in changes && IsNew(c) && c.apply :: BlockerOf(c, HereOf(live), Leaving(changes)) == None
  }

  /** A settled plan is so when none is forced. */
  lemma UnforcedIsUnblocked(changes: seq<Change>, live: Live)
    requires Settled(changes, HereOf(live)) && forall c | c in changes :: !Forced(c)
    ensures NoneBlocked(changes, live)
  {
  }

  /** As the loader accepts a config: no task over or under another, and no folder at or under a task. */
  predicate Together(changes: seq<Change>) {
    && (forall c, d | c in changes && d in changes && IsNew(c) && IsNew(d) && !c.folder && !d.folder && c != d ::
          !Overlaps(c.path, d.path))
    && (forall c, d | c in changes && d in changes && IsNew(c) && IsNew(d) && c.folder && !d.folder ::
          !AtOrUnder(c.path, d.path))
    && (forall c, d | c in changes && d in changes && IsNew(c) && IsNew(d) && c.folder && d.folder && c != d ::
          c.path != d.path)
  }

  // ----- Nothing that stays is in the way -----

  lemma {:induction false} UnblockedBy(c: Change, placed: seq<Placed>, leaving: set<nat>, folder: bool, p: Placed)
    requires FirstBlocker(c, placed, leaving, folder).None? && p in placed && p.id !in leaving
    ensures !Blocks(c, p.path, folder)
  {
  }

  lemma StaysClear(changes: seq<Change>, live: Live, c: Change, x: Item, folder: bool)
    requires NoneBlocked(changes, live) && c in changes && IsNew(c) && c.apply
    requires x in Side(live, folder) && x.id !in Leaving(changes)
    ensures !Blocks(c, x.path, folder)
  {
    var items := Side(live, folder);
    var i :| 0 <= i < |items| && items[i] == x;
    assert PlacedOf(items)[i] == Placed(x.id, x.path);
    UnblockedBy(c, PlacedOf(items), Leaving(changes), folder, Placed(x.id, x.path));
  }

  /** What is on one side of the kernel once every removal taken is done: items that stay, and additions. */
  lemma WhatIsHere(plan: Carrying, folder: bool, side: map<nat, Item>, done: set<Source>, made: Made, id: nat)
    requires Kept(plan, folder, side, done, made) && id in side && OwnItems(plan.changes)
    requires plan == PlanOf(plan.changes, plan.adopt, plan.live)
    requires forall d | d in plan.changes && d.kind == Removed && d.apply :: d.source in done
    ensures || (exists x | x in Side(plan.live, folder) && x.path == side[id].path :: x.id !in Leaving(plan.changes))
            || (exists d | IsNewDone(plan, folder, done, d) :: d.path == side[id].path)
  {
    if id in made {
      assert IsNewDone(plan, folder, done, made[id]) && IsMadeFrom(side[id], made[id]);
    } else {
      var x :| x in Side(plan.live, folder) && x.id == id;
      StaysIfHere(plan, x, done, side[id]);
    }
  }

  lemma StaysIfHere(plan: Carrying, x: Item, done: set<Source>, y: Item)
    requires plan == PlanOf(plan.changes, plan.adopt, plan.live) && OwnItems(plan.changes)
    requires forall d | d in plan.changes && d.kind == Removed && d.apply :: d.source in done
    requires Expected(plan, x, done) == Some(y)
    ensures y.path == x.path && x.id !in Leaving(plan.changes)
  {
    PlanKeepsPlace(plan.changes, plan.adopt, plan.live);
    if x.id in Leaving(plan.changes) {
      var d :| d in plan.changes && d.kind == Removed && d.apply && d.task == Some(x.id);
      ExpectedDone(plan, done, d, x);
      RemovalFate(d, Taken(plan.adopt, x), plan.live);
    }
  }

  /** The path of an addition whose turn it is does not meet that of anything on a side. */
  lemma ClearOf(plan: Carrying, folder: bool, side: map<nat, Item>, done: set<Source>, made: Made, c: Change, id: nat)
    requires Kept(plan, folder, side, done, made) && id in side && OwnItems(plan.changes)
    requires plan == PlanOf(plan.changes, plan.adopt, plan.live)
    requires forall d | d in plan.changes && d.kind == Removed && d.apply :: d.source in done
    requires NoneBlocked(plan.changes, plan.live) && Together(plan.changes)
    requires c in plan.changes && IsNew(c) && c.apply && c.source !in done
    ensures !Blocks(c, side[id].path, folder)
  {
    WhatIsHere(plan, folder, side, done, made, id);
    if x :| x in Side(plan.live, folder) && x.path == side[id].path && x.id !in Leaving(plan.changes) {
      StaysClear(plan.changes, plan.live, c, x, folder);
    } else {
      var d :| IsNewDone(plan, folder, done, d) && d.path == side[id].path;
      assert d != c;
    }
  }

  // ----- Each step can be taken when its turn comes -----

  /** An addition can. */
  lemma NewIsFeasible(plan: Carrying, c: Change, place: Place, k: Kernel, done: set<Source>, tasks: Made, folders: Made)
    requires BothKept(plan, k, done, tasks, folders) && OwnItems(plan.changes)
    requires plan == PlanOf(plan.changes, plan.adopt, plan.live)
    requires forall d | d in plan.changes && d.kind == Removed && d.apply :: d.source in done
    requires NoneBlocked(plan.changes, plan.live) && Together(plan.changes)
    requires c in plan.changes && IsNew(c) && c.source !in done && ActOf(c, plan.live, place).Some?
    ensures Feasible(ActOf(c, plan.live, place).value, k)
  {
    ActOfNew(c, plan.live, place);
    forall id | id in k.tasks ensures !TaskBlocks(c, k.tasks[id].path) {
      ClearOf(plan, false, k.tasks, done, tasks, c, id);
    }
    forall id | id in k.folders ensures !FolderBlocks(c, k.folders[id].path) {
      ClearOf(plan, true, k.folders, done, folders, c, id);
    }
  }

  /** So can a change to an item that is here. */
  lemma OldIsFeasible(plan: Carrying, c: Change, place: Place, k: Kernel, done: set<Source>, tasks: Made, folders: Made, x: Item)
    requires BothKept(plan, k, done, tasks, folders) && OwnItems(plan.changes) && ValidLive(plan.live)
    requires c in plan.changes && !IsNew(c) && c.source !in done && ActOf(c, plan.live, place).Some?
    requires ItemOf(c, plan.live, x)
    ensures Feasible(ActOf(c, plan.live, place).value, k)
  {
    HereStill(plan, c, KernelSide(k, c.folder), done, x);
    FeasibleOn(c, plan.live, place, k, x, Taken(plan.adopt, x));
  }

  lemma HereStill(plan: Carrying, c: Change, side: map<nat, Item>, done: set<Source>, x: Item)
    requires OldAsExpected(plan, c.folder, side, done) && OwnItems(plan.changes)
    requires c in plan.changes && c.source !in done && c.task == Some(x.id) && x in Side(plan.live, c.folder)
    ensures x.id in side && side[x.id] == Taken(plan.adopt, x)
  {
    TaskChangeIs(plan.changes, c);
    assert StateOf(side, x.id) == Expected(plan, x, done);
  }

  lemma FeasibleOn(c: Change, live: Live, place: Place, k: Kernel, x: Item, y: Item)
    requires ValidLive(live) && ItemOf(c, live, x) && !IsNew(c) && ActOf(c, live, place).Some?
    requires x.id in KernelSide(k, c.folder) && KernelSide(k, c.folder)[x.id] == y && y.path == x.path && y.spec == x.spec
    ensures Feasible(ActOf(c, live, place).value, k)
  {
    if c.kind == Altered && !c.folder {
      FindFinds(live.tasks, false, x);
      var spec := x.spec.value;
      assert Changed(spec, spec) == {};
    }
  }

  // ----- The removals come before the additions -----

  /** When an addition's turn comes, every removal taken has had its own. */
  lemma RemovalsFirst(r: Reloading, n: nat, c: Change, d: Change)
    requires r.Valid() && n < |r.AllSteps()| && r.AllSteps()[n].source == Some(c.source)
    requires c in r.chosen && IsNew(c) && d in r.chosen && d.kind == Removed && d.apply
    ensures d.source in StepSources(r.AllSteps(), n)
  {
    ChosenIsCoherent(r.config, r.base, r.live, r.chosen);
    InSteps(r.config, r.chosen, PlannedAdoptions(r.config, r.base, r.live), r.live, r.moves, n, c, d);
  }

  lemma InSteps(config: Config, changes: seq<Change>, adopt: seq<(nat, Source)>, live: Live, moves: seq<Step>, n: nat, c: Change, d: Change)
    requires DistinctChanges(changes) && OwnEntries(changes)
    requires var steps := Steps(config, changes, adopt, live) + moves; n < |steps| && steps[n].source == Some(c.source)
    requires c in changes && IsNew(c) && d in changes && d.kind == Removed && ActOf(d, live, First).Some?
    ensures d.source in StepSources(Steps(config, changes, adopt, live) + moves, n)
  {
    var rest := StepsAre(config, changes, adopt, live, moves);
    KindPart(changes, live, Removed);
    EarlierStep(AdoptSteps(adopt, live), StepsOf(changes, Removed, live), rest, changes, live, n, c, d);
  }

  lemma StepsAre(config: Config, changes: seq<Change>, adopt: seq<(nat, Source)>, live: Live, moves: seq<Step>) returns (rest: seq<Step>)
    ensures Steps(config, changes, adopt, live) + moves == AdoptSteps(adopt, live) + StepsOf(changes, Removed, live) + rest
  {
    var at := AtBeforeAdds(changes, adopt, live);
    rest := StepsOf(changes, Written, live)
            + AddSteps(AddOrder.InAddOrder(Additions(changes, at)), ConfigSources(config), at, live)
            + StepsOf(changes, Altered, live) + moves;
    assert Steps(config, changes, adopt, live) + moves == AdoptSteps(adopt, live) + StepsOf(changes, Removed, live) + rest;
  }

  lemma EarlierStep(adopts: seq<Step>, removals: seq<Step>, rest: seq<Step>, changes: seq<Change>, live: Live, n: nat, c: Change, d: Change)
    requires Part(removals, changes, live, OfKind(Removed))
    requires (forall s | s in adopts :: s.source.None?) && OwnEntries(changes)
    requires var steps := adopts + removals + rest; n < |steps| && steps[n].source == Some(c.source)
    requires c in changes && IsNew(c) && d in changes && d.kind == Removed && ActOf(d, live, First).Some?
    ensures d.source in StepSources(adopts + removals + rest, n)
  {
    var steps := adopts + removals + rest;
    forall i | 0 <= i < |adopts| ensures steps[i].source.None? {
      assert steps[i] == adopts[i] && adopts[i] in adopts;
    }
    forall i | 0 <= i < |adopts| + |removals| ensures steps[i].source != Some(c.source) {
      if i >= |adopts| {
        NotOfNew(removals, changes, live, Removed, removals[i - |adopts|], c);
      }
    }
    assert InClass(d, OfKind(Removed));
    var s :| s in removals && s.source == Some(d.source);
    var k :| 0 <= k < |removals| && removals[k] == s;
    assert steps[|adopts| + k] == s;
  }

  lemma NotOfNew(steps: seq<Step>, changes: seq<Change>, live: Live, kind: Kind, s: Step, c: Change)
    requires Part(steps, changes, live, OfKind(kind)) && OwnEntries(changes) && s in steps
    requires c in changes && IsNew(c)
    ensures s.source != Some(c.source)
  {
    assert StepOfClass(s, changes, live, OfKind(kind));
  }

  // ----- The whole run -----

  /** The kernel refuses nothing that it can do. */
  ghost predicate Willing(r: Reloading) {
    forall n :: r.answers(n).accepts
  }

  /** One step more without a failure. */
  lemma StepPasses(r: Reloading, n: nat)
    requires r.Valid() && Willing(r) && NoneBlocked(r.chosen, r.live) && Together(r.chosen)
    requires |r.Plan().adopt| <= n < |r.AllSteps()| && RunTo(r.AllSteps(), n, r.kernel, r.answers).failed == {}
    ensures RunTo(r.AllSteps(), n + 1, r.kernel, r.answers).failed == {}
  {
    var steps := r.AllSteps();
    if steps[n].source.Some? {
      StepsCarry(r.config, r.base, r.live, r.chosen, r.moves);
      var c, place := ChangeOfStep(steps[n], r.Plan());
      StepIsFeasible(r, n, c, place);
    }
  }

  /** Where the run is before a step: the kernel as the entries done leave it, and which those are. */
  lemma BeforeStep(r: Reloading, n: nat) returns (tasks: Made, folders: Made)
    requires r.Valid() && |r.Plan().adopt| <= n < |r.AllSteps()|
    ensures var run := RunTo(r.AllSteps(), n, r.kernel, r.answers);
            && BothKept(r.Plan(), run.kernel, run.done, tasks, folders)
            && (r.AllSteps()[n].source.Some? ==> r.AllSteps()[n].source.value !in run.done)
            && (run.failed == {} ==> run.done == StepSources(r.AllSteps(), n))
  {
    var (plan, steps) := (r.Plan(), r.AllSteps());
    StepsCarry(r.config, r.base, r.live, r.chosen, r.moves);
    assert RunOf(plan, steps, r.kernel, r.answers);
    tasks, folders := RunKeeps(plan, steps, n, r.kernel, r.answers);
    DoneBefore(plan, steps, n, r.kernel, r.answers);
  }

  lemma DoneBefore(plan: Carrying, steps: seq<Step>, n: nat, k: Kernel, answers: nat -> Answer)
    requires Carries(steps, plan) && |plan.adopt| <= n < |steps|
    ensures var run := RunTo(steps, n, k, answers);
            && (steps[n].source.Some? ==> steps[n].source.value !in run.done)
            && (run.failed == {} ==> run.done == StepSources(steps, n))
  {
    NotDoneYet(plan, steps, n, k, answers);
    AdoptStepsFirst(steps, plan);
    RunSplits(steps, |plan.adopt|, n, k, answers);
  }

  lemma StepIsFeasible(r: Reloading, n: nat, c: Change, place: Place)
    requires r.Valid() && NoneBlocked(r.chosen, r.live) && Together(r.chosen)
    requires |r.Plan().adopt| <= n < |r.AllSteps()| && RunTo(r.AllSteps(), n, r.kernel, r.answers).failed == {}
    requires c in r.chosen && ActOf(c, r.live, place).Some? && r.AllSteps()[n].source == Some(c.source)
    ensures Feasible(ActOf(c, r.live, place).value, RunTo(r.AllSteps(), n, r.kernel, r.answers).kernel)
  {
    var run := RunTo(r.AllSteps(), n, r.kernel, r.answers);
    var tasks, folders := BeforeStep(r, n);
    ChosenOwn(r);
    if IsNew(c) {
      forall d | d in r.chosen && d.kind == Removed && d.apply ensures d.source in run.done {
        RemovalsFirst(r, n, c, d);
      }
      ActOfNew(c, r.live, place);
      NewIsFeasible(r.Plan(), c, place, run.kernel, run.done, tasks, folders);
    } else {
      var x := ItsItemHere(r, c);
      OldIsFeasible(r.Plan(), c, place, run.kernel, run.done, tasks, folders, x);
    }
  }

  lemma AdoptionIsNoEntrys(r: Reloading, n: nat)
    requires r.Valid() && n < |r.Plan().adopt|
    ensures n < |r.AllSteps()| && r.AllSteps()[n].source.None?
  {
    StepsCarry(r.config, r.base, r.live, r.chosen, r.moves);
    AdoptStepsFirst(r.AllSteps(), r.Plan());
  }

  lemma AnyStepPasses(r: Reloading, n: nat)
    requires r.Valid() && Willing(r) && NoneBlocked(r.chosen, r.live) && Together(r.chosen)
    requires n < |r.AllSteps()| && RunTo(r.AllSteps(), n, r.kernel, r.answers).failed == {}
    ensures RunTo(r.AllSteps(), n + 1, r.kernel, r.answers).failed == {}
  {
    if n < |r.Plan().adopt| {
      AdoptionIsNoEntrys(r, n);
    } else {
      StepPasses(r, n);
    }
  }

  /** Up to the end nothing fails. */
  lemma {:induction false} RunPasses(steps: seq<Step>, n: nat, k: Kernel, answers: nat -> Answer)
    requires n <= |steps|
    requires forall m | 0 <= m < |steps| && RunTo(steps, m, k, answers).failed == {} :: RunTo(steps, m + 1, k, answers).failed == {}
    ensures RunTo(steps, n, k, answers).failed == {}
  {
    if n > 0 {
      RunPasses(steps, n - 1, k, answers);
      assert RunTo(steps, (n - 1) + 1, k, answers).failed == {};
    }
  }

  /**
   A reload goes through: with no new task or folder taken against something that
   stays, of a config whose paths may be together, no change fails unless the kernel
   refuses what it could do.
   */
  lemma NothingFails(r: Reloading)
    requires r.Valid() && Willing(r) && NoneBlocked(r.chosen, r.live) && Together(r.chosen)
    ensures r.End().failed == {}
  {
    forall m | 0 <= m < |r.AllSteps()| && RunTo(r.AllSteps(), m, r.kernel, r.answers).failed == {}
      ensures RunTo(r.AllSteps(), m + 1, r.kernel, r.answers).failed == {}
    {
      AnyStepPasses(r, m);
    }
    RunPasses(r.AllSteps(), |r.AllSteps()|, r.kernel, r.answers);
  }
}
