/** The steps of a reload's plan carry it out: every change that has an act has its step, and once. */
module ReloadCarries {
  import opened Paths
  import opened Specs
  import opened Reload
  import opened ReloadChoices
  import opened ReloadRun
  import opened ReloadKeeps
  import opened ReloadDone
  import opened ReloadPlanned
  import opened ReloadSteps

  // ----- One part of the steps for each kind of change -----

  datatype Class = OfKind(kind: Kind) | OfNew

  predicate InClass(change: Change, part: Class) {
    match part
    case OfKind(kind) => change.kind == kind && !IsNew(change)
    case OfNew => IsNew(change)
  }

  /** A step for a change of a class. */
  ghost predicate StepOfClass(step: Step, changes: seq<Change>, live: Live, part: Class) {
    exists c, place | c in changes && InClass(c, part) && ActOf(c, live, place) == Some(step.act) ::
      step.source == Some(c.source)
  }

  /** The sources of some steps. */
  function SourcesIn(steps: seq<Step>): set<Source> {
    set s | s in steps && s.source.Some? :: s.source.value
  }

  predicate DistinctSteps(steps: seq<Step>) {
    forall i, j | 0 <= i < j < |steps| :: steps[i].source != steps[j].source
  }

  /** The steps for the changes of a class: each for one, none twice, none left out. */
  ghost predicate Part(steps: seq<Step>, changes: seq<Change>, live: Live, part: Class) {
    && (forall s | s in steps :: StepOfClass(s, changes, live, part))
    && DistinctSteps(steps)
    && (forall c | c in changes && InClass(c, part) && ActOf(c, live, First).Some? :: c.source in SourcesIn(steps))
  }

  lemma KindPart(changes: seq<Change>, live: Live, kind: Kind)
    requires DistinctChanges(changes) && kind != Added && kind != RemovedHere
    ensures Part(StepsOf(changes, kind, live), changes, live, OfKind(kind))
  {
    var steps := StepsOf(changes, kind, live);
    StepsOfCover(changes, kind, live);
    forall s | s in steps ensures StepOfClass(s, changes, live, OfKind(kind)) {
      var c :| c in changes && c.kind == kind && ActOf(c, live, First) == Some(s.act) && s.source == Some(c.source);
    }
    forall c | c in changes && InClass(c, OfKind(kind)) && ActOf(c, live, First).Some?
      ensures c.source in SourcesIn(steps)
    {
      var s :| s in steps && s.source == Some(c.source);
    }
  }

  // ----- The additions -----

  lemma {:induction false} AtStartHas(items: seq<Item>, adopt: seq<(nat, Source)>, s: Source)
    requires s in AtStart(items, adopt)
    ensures exists x | x in items :: SourceOf(adopt, x) == Some(s)
  {
    if items != [] {
      var last := |items| - 1;
      if SourceOf(adopt, items[last]) != Some(s) {
        AtStartHas(items[..last], adopt, s);
      }
    }
  }

  lemma {:induction false} AtWrittenHas(at: At, changes: seq<Change>, s: Source)
    requires s in AtWritten(at, changes)
    ensures s in at || exists c | c in changes :: c.kind == Written && c.source == s
  {
    if changes != [] {
      var last := |changes| - 1;
      if s in AtWritten(at, changes[..last]) {
        AtWrittenHas(at, changes[..last], s);
      } else {
        assert changes[last].kind == Written && changes[last].source == s;
      }
    }
  }

  /** No item here is from the entry of a new change. */
  ghost predicate NewAreAbsent(changes: seq<Change>, adopt: seq<(nat, Source)>, live: Live) {
    forall c, x | c in changes && IsNew(c) && x in live.tasks + live.folders :: SourceOf(adopt, x) != Some(c.source)
  }

  lemma NoneIsIn(changes: seq<Change>, adopt: seq<(nat, Source)>, live: Live, c: Change)
    requires OwnEntries(changes) && NewAreAbsent(changes, adopt, live) && c in changes && IsNew(c)
    ensures c.source !in AtBeforeAdds(changes, adopt, live)
  {
    if c.source in AtBeforeAdds(changes, adopt, live) {
      var start := AtStart(live.tasks + live.folders, adopt);
      AtWrittenHas(AtWithout(start, changes), changes, c.source);
      if c.source in start {
        AtStartHas(live.tasks + live.folders, adopt, c.source);
      }
    }
  }

  /** The additions in the order they are made are the new changes taken. */
  lemma AdditionsAre(changes: seq<Change>, at: At, c: Change)
    ensures c in AddOrder.InAddOrder(Additions(changes, at)) <==> c in changes && c.apply && IsNew(c) && c.source !in at
  {
    var adds := Additions(changes, at);
    AdditionsHave(changes, at, c);
    AddOrder.EachOnce(adds);
    AddOrder.SameElements(AddOrder.InAddOrder(adds), adds, c);
  }

  lemma NewPart(changes: seq<Change>, adopt: seq<(nat, Source)>, live: Live, sources: seq<Source>)
    requires DistinctChanges(changes) && OwnEntries(changes) && NewAreAbsent(changes, adopt, live)
    requires forall c | c in changes && c.kind != Removed :: c.config.Some?
    ensures var at := AtBeforeAdds(changes, adopt, live);
            Part(AddSteps(AddOrder.InAddOrder(Additions(changes, at)), sources, at, live), changes, live, OfNew)
  {
    var at := AtBeforeAdds(changes, adopt, live);
    var adds := Additions(changes, at);
    var order := AddOrder.InAddOrder(adds);
    forall c ensures c in order <==> c in changes && c.apply && IsNew(c) && c.source !in at {
      AdditionsAre(changes, at, c);
    }
    if changes != [] {
      AdditionsHave(changes, at, changes[0]);
    }
    AddOrder.EachOnce(adds);
    MultisetDistinct(adds, order);
    AddStepsCover(order, sources, at, live);
    forall c | c in changes && IsNew(c) && ActOf(c, live, First).Some? ensures c in order {
      NewInOrder(changes, adopt, live, c);
    }
    OrderIsPart(changes, live, order, AddSteps(order, sources, at, live));
  }

  lemma NewInOrder(changes: seq<Change>, adopt: seq<(nat, Source)>, live: Live, c: Change)
    requires OwnEntries(changes) && NewAreAbsent(changes, adopt, live) && c in changes && IsNew(c)
    requires ActOf(c, live, First).Some?
    ensures c in AddOrder.InAddOrder(Additions(changes, AtBeforeAdds(changes, adopt, live)))
  {
    AdditionsAre(changes, AtBeforeAdds(changes, adopt, live), c);
    NoneIsIn(changes, adopt, live, c);
    ActIsApplied(c, live);
  }

  /** Steps that cover the new changes taken, one for each, are their part. */
  lemma OrderIsPart(changes: seq<Change>, live: Live, order: seq<Change>, steps: seq<Step>)
    requires DistinctSteps(steps) && forall c | c in order :: c in changes && IsNew(c)
    requires forall s | s in steps :: ForSome(s, order, live)
    requires forall c | c in order && ActOf(c, live, First).Some? :: HasStepFor(steps, c.source)
    requires forall c | c in changes && IsNew(c) && ActOf(c, live, First).Some? :: c in order
    ensures Part(steps, changes, live, OfNew)
  {
    forall s | s in steps ensures StepOfClass(s, changes, live, OfNew) {
      assert ForSome(s, order, live);
      var c, place :| c in order && IsFor(s, c, place, live);
    }
    forall c | c in changes && IsNew(c) && ActOf(c, live, First).Some? ensures c.source in SourcesIn(steps) {
      assert HasStepFor(steps, c.source);
      var s :| s in steps && s.source == Some(c.source);
    }
  }

  lemma ActIsApplied(c: Change, live: Live)
    requires IsNew(c) && ActOf(c, live, First).Some?
    ensures c.apply
  {
  }

  // ----- The parts together -----

  lemma ClassesApart(changes: seq<Change>, live: Live, a: seq<Step>, b: seq<Step>, ca: Class, cb: Class)
    requires OwnEntries(changes) && Part(a, changes, live, ca) && Part(b, changes, live, cb) && ca != cb
    ensures forall s, t | s in a && t in b :: s.source != t.source
  {
    forall s, t | s in a && t in b ensures s.source != t.source {
      var c, p :| c in changes && InClass(c, ca) && ActOf(c, live, p) == Some(s.act) && s.source == Some(c.source);
      var d, q :| d in changes && InClass(d, cb) && ActOf(d, live, q) == Some(t.act) && t.source == Some(d.source);
    }
  }

  lemma ConcatDistinct(a: seq<Step>, b: seq<Step>)
    requires DistinctSteps(a) && DistinctSteps(b) && forall s, t | s in a && t in b :: s.source != t.source
    ensures DistinctSteps(a + b)
  {
    var both := a + b;
    forall i, j | 0 <= i < j < |both| ensures both[i].source != both[j].source {
      if i < |a| <= j {
        assert both[i] in a && both[j] in b;
      }
    }
  }

  lemma PartFits(steps: seq<Step>, plan: Carrying, part: Class)
    requires Part(steps, plan.changes, plan.live, part)
    ensures forall s | s in steps :: StepFits(s, plan) && s.source.Some?
  {
    forall s | s in steps ensures StepFits(s, plan) && s.source.Some? {
      var c, p :| c in plan.changes && InClass(c, part) && ActOf(c, plan.live, p) == Some(s.act) && s.source == Some(c.source);
    }
  }

  /** All that carries the changes out. */
  ghost function Body(config: Config, changes: seq<Change>, adopt: seq<(nat, Source)>, live: Live): seq<Step> {
    var at := AtBeforeAdds(changes, adopt, live);
    StepsOf(changes, Removed, live)
    + StepsOf(changes, Written, live)
    + AddSteps(AddOrder.InAddOrder(Additions(changes, at)), ConfigSources(config), at, live)
    + StepsOf(changes, Altered, live)
  }

  ghost predicate BodyOk(steps: seq<Step>, plan: Carrying) {
    && DistinctSteps(steps)
    && (forall s | s in steps :: StepFits(s, plan) && s.source.Some?)
    && (forall c | c in plan.changes && ActOf(c, plan.live, First).Some? :: c.source in SourcesIn(steps))
  }

  lemma BodyIsOk(config: Config, plan: Carrying)
    requires DistinctChanges(plan.changes) && OwnEntries(plan.changes)
    requires NewAreAbsent(plan.changes, plan.adopt, plan.live)
    requires forall c | c in plan.changes && c.kind != Removed :: c.config.Some?
    ensures BodyOk(Body(config, plan.changes, plan.adopt, plan.live), plan)
  {
    var (changes, live) := (plan.changes, plan.live);
    var at := AtBeforeAdds(changes, plan.adopt, live);
    var r := StepsOf(changes, Removed, live);
    var w := StepsOf(changes, Written, live);
    var n := AddSteps(AddOrder.InAddOrder(Additions(changes, at)), ConfigSources(config), at, live);
    var c := StepsOf(changes, Altered, live);
    KindPart(changes, live, Removed);
    KindPart(changes, live, Written);
    KindPart(changes, live, Altered);
    NewPart(changes, plan.adopt, live, ConfigSources(config));
    PartsDistinct(changes, live, r, w, n, c);
    PartFits(r, plan, OfKind(Removed));
    PartFits(w, plan, OfKind(Written));
    PartFits(n, plan, OfNew);
    PartFits(c, plan, OfKind(Altered));
    PartsCover(changes, live, r, w, n, c);
  }

  lemma PartsDistinct(changes: seq<Change>, live: Live, r: seq<Step>, w: seq<Step>, n: seq<Step>, c: seq<Step>)
    requires OwnEntries(changes)
    requires Part(r, changes, live, OfKind(Removed)) && Part(w, changes, live, OfKind(Written))
    requires Part(n, changes, live, OfNew) && Part(c, changes, live, OfKind(Altered))
    ensures DistinctSteps(r + w + n + c)
  {
    ClassesApart(changes, live, r, w, OfKind(Removed), OfKind(Written));
    ClassesApart(changes, live, r, n, OfKind(Removed), OfNew);
    ClassesApart(changes, live, r, c, OfKind(Removed), OfKind(Altered));
    ClassesApart(changes, live, w, n, OfKind(Written), OfNew);
    ClassesApart(changes, live, w, c, OfKind(Written), OfKind(Altered));
    ClassesApart(changes, live, n, c, OfNew, OfKind(Altered));
    ConcatDistinct(r, w);
    ConcatDistinct(r + w, n);
    ConcatDistinct(r + w + n, c);
  }

  lemma PartsCover(changes: seq<Change>, live: Live, r: seq<Step>, w: seq<Step>, n: seq<Step>, c: seq<Step>)
    requires Part(r, changes, live, OfKind(Removed)) && Part(w, changes, live, OfKind(Written))
    requires Part(n, changes, live, OfNew) && Part(c, changes, live, OfKind(Altered))
    ensures forall d | d in changes && ActOf(d, live, First).Some? :: d.source in SourcesIn(r + w + n + c)
  {
    forall d | d in changes && ActOf(d, live, First).Some? ensures d.source in SourcesIn(r + w + n + c) {
      var kind := if IsNew(d) then OfNew else OfKind(d.kind);
      assert InClass(d, kind);
      var part := match d.kind case Removed => r case Written => w case Altered => c case _ => n;
      assert d.source in SourcesIn(part);
      var s :| s in part && s.source == Some(d.source);
      assert s in r + w + n + c;
    }
  }

  lemma BodyCarries(adopts: seq<Step>, body: seq<Step>, moves: seq<Step>, plan: Carrying)
    requires adopts == AdoptSteps(plan.adopt, plan.live) && BodyOk(body, plan)
    requires forall s | s in moves :: s.source.None? && s.act.Move?
    ensures Carries(adopts + body + moves, plan)
  {
    var steps := adopts + body + moves;
    assert steps[..|adopts|] == adopts;
    forall k | |plan.adopt| <= k < |steps| ensures StepFits(steps[k], plan) {
      assert steps[k] in body || steps[k] in moves;
    }
    forall i, j | |plan.adopt| <= i < j < |steps| && steps[i].source.Some? ensures steps[i].source != steps[j].source {
      if j < |adopts| + |body| {
        assert steps[i] == body[i - |adopts|] && steps[j] == body[j - |adopts|];
      } else {
        assert steps[j] in moves;
      }
    }
    forall c | c in plan.changes && ActOf(c, plan.live, First).Some? ensures c.source in StepSources(steps, |steps|) {
      var s :| s in body && s.source == Some(c.source);
      var k :| 0 <= k < |body| && body[k] == s;
      assert steps[|adopts| + k].source == Some(c.source);
    }
  }

  /** A plan made from a config and what is here, as the user chose it. */
  ghost function ChosenPlan(config: Config, base: Base, live: Live, chosen: seq<Change>): Carrying {
    PlanOf(chosen, PlannedAdoptions(config, base, live), live)
  }

  lemma NotFromNew(v: View, w: View, e: Entry, x: Item, taken: Option<Source>)
    requires ValidView(v) && ValidView(w) && (v.folder == w.folder ==> v == w)
    requires e in v.entries && v.Its(e).None? && x in w.items
    requires forall d | d in w.entries && w.Its(d) == Some(x) :: taken == Some(d.source)
    requires (forall d | d in w.entries :: w.Its(d) != Some(x)) ==> taken == x.origin
    ensures taken != Some(e.source)
  {
    if d :| d in w.entries && w.Its(d) == Some(x) {
      assert d.source.IsFolder() == w.folder && e.source.IsFolder() == v.folder;
    } else {
      ItsItem(v, e);
    }
  }

  lemma PlannedNewAbsent(config: Config, base: Base, live: Live, p: Change, x: Item)
    requires ValidConfig(config) && ValidLive(live)
    requires p in PlannedChanges(config, base, live) && IsNew(p) && x in live.tasks + live.folders
    ensures SourceOf(PlannedAdoptions(config, base, live), x) != Some(p.source)
  {
    var folder := x in live.folders;
    ViewIsValid(config, base, live, p.folder);
    ViewIsValid(config, base, live, folder);
    TakenOrigin(config, base, live, folder, x);
    PlannedOfSide(config, base, live, p);
    var e := NewEntry(ViewOf(config, base, live, p.folder), p);
    NotFromNew(ViewOf(config, base, live, p.folder), ViewOf(config, base, live, folder), e, x,
               SourceOf(PlannedAdoptions(config, base, live), x));
  }

  /** The steps of any plan, whatever the user chose, carry it out. */
  lemma StepsCarry(config: Config, base: Base, live: Live, chosen: seq<Change>, moves: seq<Step>)
    requires ValidConfig(config) && ValidLive(live)
    requires ChosenFrom(PlannedChanges(config, base, live), chosen)
    requires forall s | s in moves :: s.source.None? && s.act.Move?
    ensures var plan := ChosenPlan(config, base, live, chosen);
            ValidPlan(plan) && Carries(Steps(config, chosen, plan.adopt, live) + moves, plan)
  {
    var plan := ChosenPlan(config, base, live, chosen);
    var planned := PlannedChanges(config, base, live);
    ChosenIsCoherent(config, base, live, chosen);
    PlannedAdoptionsCohere(config, base, live);
    PlanKeepsPlace(chosen, plan.adopt, live);
    forall i, x | 0 <= i < |chosen| && IsNew(chosen[i]) && x in live.tasks + live.folders
      ensures SourceOf(plan.adopt, x) != Some(chosen[i].source)
    {
      ChoiceOfPlanned(planned, chosen, i);
      PlannedNewAbsent(config, base, live, planned[i], x);
    }
    BodyIsOk(config, plan);
    var (adopts, body) := (AdoptSteps(plan.adopt, live), Body(config, chosen, plan.adopt, live));
    BodyCarries(adopts, body, moves, plan);
    assert Steps(config, chosen, plan.adopt, live) + moves == adopts + body + moves;
  }
}
