/**
 A reload converges: carried out with any choices and any failures, and planned
 again, it offers what failed and what was left for later, and nothing else.
 */
module ReloadConverges {
  import opened Paths
  import opened Specs
  import opened Reload
  import opened ReloadRun
  import opened ReloadKeeps
  import opened ReloadDone
  import opened ReloadPlanned
  import opened ReloadSteps
  import opened ReloadCarries
  import opened ReloadAgain
  import opened ReloadOffers

  // ----- The run settles every change -----

  lemma SettledByRun(plan: Carrying, steps: seq<Step>, k: Kernel, answers: nat -> Answer)
    requires RunOf(plan, steps, k, answers)
    ensures var run := RunTo(steps, |steps|, k, answers); DoneOrFailed(plan, run.done, run.failed)
  {
    AdoptStepsFirst(steps, plan);
    RunSplits(steps, |plan.adopt|, |steps|, k, answers);
    forall c | c in plan.changes && c.source in StepSources(steps, |steps|) ensures ActOf(c, plan.live, First).Some? {
      var i :| 0 <= i < |steps| && steps[i].source == Some(c.source);
      var d, place := ChangeOfStep(steps[i], plan);
      SomeAct(d, plan.live, place);
    }
  }

  /** What is listed afterwards, from the kernel as the run leaves it. */
  lemma AftermathOf(v: View, plan: Carrying, done: set<Source>, side: map<nat, Item>, made: Made, after: seq<Item>)
    requires v.items == Side(plan.live, v.folder)
    requires Kept(plan, v.folder, side, done, made) && Holds(side, after)
    ensures Aftermath(v, plan, done, after)
  {
    forall id | id in side ensures side[id] in after {
      var y :| y in after && y.id == id;
    }
    forall x | x in v.items && Expected(plan, x, done).Some? ensures Expected(plan, x, done).value in after {
      assert StateOf(side, x.id) == Expected(plan, x, done);
    }
    forall y | y in after && !(exists c | IsNewDone(plan, v.folder, done, c) :: IsMadeFrom(y, c))
      ensures Explained(v, plan, done, y)
    {
      assert y.id in side && side[y.id] == y;
      assert y.id !in made;
      var x :| x in v.items && x.id == y.id;
      assert StateOf(side, x.id) == Expected(plan, x, done);
    }
    forall c | IsNewDone(plan, v.folder, done, c) ensures IsMade(after, c) {
      var id :| id in made && made[id] == c;
      assert side[id] in after && IsMadeFrom(side[id], c);
    }
  }

  // ----- The base left -----

  lemma {:induction false} CarriedEntriesAt(entries: seq<Entry>, changes: seq<Change>, e: Entry)
    requires DistinctSources(entries) && e in entries
    ensures BaseAt(CarriedEntries(entries, changes), e.source) == CarriedEntry(e, changes)
    ensures forall s | s in CarriedEntries(entries, changes) :: s in SourcesOf(entries)
  {
    var last := |entries| - 1;
    CarriedSources(entries, changes);
    if e == entries[last] {
      CarriedSources(entries[..last], changes);
    } else {
      assert e in entries[..last];
      CarriedEntriesAt(entries[..last], changes, e);
    }
  }

  lemma {:induction false} CarriedSources(entries: seq<Entry>, changes: seq<Change>)
    ensures forall s | s in CarriedEntries(entries, changes) :: s in SourcesOf(entries)
  {
    if entries != [] {
      CarriedSources(entries[..|entries| - 1], changes);
    }
  }

  lemma {:induction false} KeptGoneAt(changes: seq<Change>, s: Source)
    ensures s in KeptGone(changes) ==>
              exists c | c in changes && c.source == s :: c.kind == Removed && c.failed && c.base == Some(KeptGone(changes)[s])
    ensures (exists c | c in changes && c.source == s :: c.kind == Removed && c.failed && c.base.Some?) ==> s in KeptGone(changes)
  {
    if changes != [] {
      var last := |changes| - 1;
      KeptGoneAt(changes[..last], s);
      assert forall c :: c in changes <==> c in changes[..last] || c == changes[last];
    }
  }

  lemma MarkedIs(changes: seq<Change>, failed: set<Source>, c: Change)
    requires c in changes && !c.failed
    ensures c.(failed := c.source in failed) in MarkFailed(changes, failed)
  {
    var i :| 0 <= i < |changes| && changes[i] == c;
    assert MarkFailed(changes, failed)[i] == c.(failed := c.source in failed);
  }

  lemma MarkedFrom(changes: seq<Change>, failed: set<Source>, m: Change) returns (c: Change)
    requires m in MarkFailed(changes, failed) && forall c | c in changes :: !c.failed
    ensures c in changes && m == c.(failed := c.source in failed)
  {
    var i :| 0 <= i < |changes| && MarkFailed(changes, failed)[i] == m;
    c := changes[i];
  }

  lemma EntryCarried(changes: seq<Change>, failed: set<Source>, e: Entry)
    requires OwnEntries(changes) && forall c | c in changes :: !c.failed
    ensures (forall c | c in changes :: c.source != e.source) ==>
              CarriedEntry(e, MarkFailed(changes, failed)) == Some(e.spec)
    ensures forall c | c in changes && c.source == e.source ::
              CarriedEntry(e, MarkFailed(changes, failed)) ==
              if c.source in failed then c.base
              else if (c.kind == Added || c.kind == Written) && !c.apply then None
              else Some(e.spec)
  {
    var found := ChangeFor(MarkFailed(changes, failed), e.source);
    if found.Some? {
      var c := MarkedFrom(changes, failed, found.value);
    } else {
      forall c | c in changes ensures c.source != e.source {
        MarkedIs(changes, failed, c);
      }
    }
  }

  lemma BaseLeft(config: Config, v: View, changes: seq<Change>, failed: set<Source>)
    requires ValidConfig(config) && v.entries == EntriesOf(config.entries, v.folder)
    requires OwnEntries(changes) && forall c | c in changes :: !c.failed
    requires forall c, e | c in changes && c.kind == Removed && e in config.entries :: c.source != e.source
    ensures BaseFits(v, changes, failed, CarriedOut(config, MarkFailed(changes, failed)))
  {
    var marked := MarkFailed(changes, failed);
    var base := CarriedOut(config, marked);
    EntriesOfHas(config.entries, v.folder);
    forall e | e in v.entries ensures BaseAt(base, e.source) == CarriedEntry(e, marked) {
      CarriedEntriesAt(config.entries, marked, e);
      EntryNotGone(config, changes, failed, e);
    }
    forall e | e in v.entries && (forall c | c in changes :: c.source != e.source)
      ensures BaseAt(base, e.source) == Some(e.spec)
    {
      EntryCarried(changes, failed, e);
    }
    forall e, c | e in v.entries && c in changes && c.source == e.source
      ensures BaseAt(base, e.source) ==
              if c.source in failed then c.base
              else if (c.kind == Added || c.kind == Written) && !c.apply then None
              else Some(e.spec)
    {
      EntryCarried(changes, failed, e);
    }
    forall c | c in changes && c.folder == v.folder && c.kind == Removed
      ensures BaseAt(base, c.source) == if c.source in failed then c.base else None
    {
      CarriedSources(config.entries, marked);
      GoneCarried(changes, failed, c);
    }
  }

  lemma EntryNotGone(config: Config, changes: seq<Change>, failed: set<Source>, e: Entry)
    requires forall c | c in changes :: !c.failed
    requires forall c, d | c in changes && c.kind == Removed && d in config.entries :: c.source != d.source
    requires e in config.entries
    ensures e.source !in KeptGone(MarkFailed(changes, failed))
  {
    var marked := MarkFailed(changes, failed);
    KeptGoneAt(marked, e.source);
    forall m | m in marked && m.source == e.source ensures m.kind != Removed {
      var c := MarkedFrom(changes, failed, m);
    }
  }

  lemma GoneCarried(changes: seq<Change>, failed: set<Source>, c: Change)
    requires OwnEntries(changes) && c in changes && c.kind == Removed && forall d | d in changes :: !d.failed
    ensures BaseAt(KeptGone(MarkFailed(changes, failed)), c.source) == if c.source in failed then c.base else None
  {
    var marked := MarkFailed(changes, failed);
    KeptGoneAt(marked, c.source);
    MarkedIs(changes, failed, c);
    forall m | m in marked && m.source == c.source ensures m == c.(failed := c.source in failed) {
      var d := MarkedFrom(changes, failed, m);
    }
  }

  // ----- One side, afterwards -----

  lemma PickedPlanned(config: Config, base: Base, live: Live, folder: bool, chosen: seq<Change>, c: Change) returns (p: Change)
    requires ValidConfig(config) && ValidLive(live)
    requires ChosenFrom(PlannedChanges(config, base, live), chosen) && c in chosen && c.folder == folder
    ensures p in ViewOf(config, base, live, folder).Changes() && SamePlan(p, c)
  {
    var planned := PlannedChanges(config, base, live);
    var i :| 0 <= i < |chosen| && chosen[i] == c;
    p := planned[i];
    ChoiceOfPlanned(planned, chosen, i);
    PlannedOfSide(config, base, live, p);
  }

  lemma PlannedPicked(config: Config, base: Base, live: Live, folder: bool, chosen: seq<Change>, p: Change) returns (c: Change)
    requires ChosenFrom(PlannedChanges(config, base, live), chosen)
    requires p in ViewOf(config, base, live, folder).Changes()
    ensures c in chosen && SamePlan(p, c)
  {
    var planned := PlannedChanges(config, base, live);
    PlannedSides(config, base, live);
    assert p in planned;
    var i :| 0 <= i < |planned| && planned[i] == p;
    ChoiceOfPlanned(planned, chosen, i);
    c := chosen[i];
  }

  lemma SidePicked(config: Config, base: Base, live: Live, folder: bool, chosen: seq<Change>)
    requires ValidConfig(config) && ValidLive(live)
    requires ChosenFrom(PlannedChanges(config, base, live), chosen) && OwnEntries(chosen) && OwnItems(chosen)
    ensures Picked(ViewOf(config, base, live, folder), chosen)
  {
    var v := ViewOf(config, base, live, folder);
    forall c | c in chosen && c.folder == folder ensures IsPlanned(v, c) {
      var p := PickedPlanned(config, base, live, folder, chosen, c);
    }
    forall p | p in v.Changes() ensures IsPicked(chosen, p) {
      var c := PlannedPicked(config, base, live, folder, chosen, p);
    }
  }

  lemma SideOwn(config: Config, base: Base, live: Live, folder: bool, chosen: seq<Change>)
    requires ValidConfig(config) && ValidLive(live)
    requires ChosenFrom(PlannedChanges(config, base, live), chosen) && ItemsHere(chosen, live)
    ensures OwnSide(ViewOf(config, base, live, folder), chosen)
    ensures OwnSides(ViewOf(config, base, live, folder), chosen)
    ensures forall c | c in chosen :: c.source.IsFolder() == c.folder
  {
    var (v, planned) := (ViewOf(config, base, live, folder), PlannedChanges(config, base, live));
    forall c | c in chosen ensures c.source.IsFolder() == c.folder {
      var i :| 0 <= i < |chosen| && chosen[i] == c;
      ChoiceOfPlanned(planned, chosen, i);
      PlannedOfSide(config, base, live, planned[i]);
      ViewIsValid(config, base, live, c.folder);
      ChangeItem(ViewOf(config, base, live, c.folder), planned[i]);
    }
    EntriesOfHas(config.entries, folder);
    forall c, x | c in chosen && x in v.items && c.task == Some(x.id) ensures c.folder == folder {
      var y :| ItemOf(c, live, y);
    }
  }

  lemma RemovedNotInConfig(config: Config, base: Base, live: Live, chosen: seq<Change>, c: Change, e: Entry)
    requires ValidConfig(config) && ValidLive(live)
    requires ChosenFrom(PlannedChanges(config, base, live), chosen)
    requires c in chosen && c.kind == Removed && e in config.entries
    ensures c.source != e.source
  {
    var planned := PlannedChanges(config, base, live);
    var i :| 0 <= i < |chosen| && chosen[i] == c;
    ChoiceOfPlanned(planned, chosen, i);
    PlannedOfSide(config, base, live, planned[i]);
    var v := ViewOf(config, base, live, c.folder);
    ViewIsValid(config, base, live, c.folder);
    ChangeItem(v, planned[i]);
    EntriesOfHas(config.entries, c.folder);
    if c.source == e.source {
      PlannedForEntry(v, e, planned[i]);
      EntryChangeIs(v, e, planned[i]);
    }
  }

  lemma TakenFitsSide(config: Config, base: Base, live: Live, folder: bool)
    requires ValidConfig(config) && ValidLive(live)
    ensures TakenFits(ViewOf(config, base, live, folder), PlannedAdoptions(config, base, live))
  {
    forall x | x in Side(live, folder)
      ensures var v := ViewOf(config, base, live, folder);
              var taken := SourceOf(PlannedAdoptions(config, base, live), x);
              && (forall e | e in v.entries && v.Its(e) == Some(x) :: taken == Some(e.source))
              && ((forall e | e in v.entries :: v.Its(e) != Some(x)) ==> taken == x.origin)
    {
      TakenOrigin(config, base, live, folder, x);
    }
  }

  /** Where a thing is from afterwards is of its side. */
  lemma AfterKind(v: View, plan: Carrying, done: set<Source>, failed: set<Source>, after: seq<Item>, y: Item)
    requires Carried(v, plan, done, failed, after) && OwnSide(v, plan.changes)
    requires forall c | c in plan.changes :: c.source.IsFolder() == c.folder
    requires y in after && y.origin.Some?
    ensures y.origin.value.IsFolder() == v.folder
  {
    assert Explained(v, plan, done, y);
    if x :| x in v.items && Expected(plan, x, done) == Some(y) {
      var (own, taken) := (TaskChange(plan.changes, x.id), Taken(plan.adopt, x));
      TakenKind(v, plan.adopt, x);
      if own.Some? && own.value.source in done {
        WhoseChange(v, plan, x, own.value);
        FateOf(plan, own.value, taken);
        WhenDone(plan, done, failed, own.value);
      }
    } else {
      var c :| IsNewDone(plan, v.folder, done, c) && IsMadeFrom(y, c);
    }
  }

  lemma TakenKind(v: View, adopt: seq<(nat, Source)>, x: Item)
    requires ValidView(v) && TakenFits(v, adopt) && x in v.items
    ensures Taken(adopt, x).origin.Some? ==> Taken(adopt, x).origin.value.IsFolder() == v.folder
  {
    if e :| e in v.entries && v.Its(e) == Some(x) {
      assert SourceOf(adopt, x) == Some(e.source);
    }
  }

  /** All that is needed to plan one side again. */
  lemma SideAfterwards(config: Config, base: Base, live: Live, chosen: seq<Change>, folder: bool, run: Run, made: Made, after: seq<Item>)
    requires ValidConfig(config) && ValidLive(live)
    requires ChosenFrom(PlannedChanges(config, base, live), chosen)
    requires Coherent(chosen, live)
    requires DoneOrFailed(ChosenPlan(config, base, live, chosen), run.done, run.failed)
    requires Kept(ChosenPlan(config, base, live, chosen), folder, KernelSide(run.kernel, folder), run.done, made)
    requires Holds(KernelSide(run.kernel, folder), after)
    ensures Afterwards(ViewOf(config, base, live, folder), ChosenPlan(config, base, live, chosen), run.done, run.failed, after,
                       CarriedOut(config, MarkFailed(chosen, run.failed)))
  {
    var (v, plan) := (ViewOf(config, base, live, folder), ChosenPlan(config, base, live, chosen));
    ViewIsValid(config, base, live, folder);
    SidePicked(config, base, live, folder, chosen);
    SideOwn(config, base, live, folder, chosen);
    TakenFitsSide(config, base, live, folder);
    AftermathOf(v, plan, run.done, KernelSide(run.kernel, folder), made, after);
    forall c, e | c in chosen && c.kind == Removed && e in config.entries ensures c.source != e.source {
      RemovedNotInConfig(config, base, live, chosen, c, e);
    }
    NoneFailedYet(PlannedChanges(config, base, live), chosen);
    BaseLeft(config, v, chosen, run.failed);
    AfterIsUnique(v, plan, run.done, run.failed, after);
    forall y | y in after && y.origin.Some? ensures y.origin.value.IsFolder() == folder {
      AfterKind(v, plan, run.done, run.failed, after, y);
    }
  }

  // ----- The reload, and the next -----

  /** A reload carried out: any choices, any answers of the kernel, the adoptions apart, which succeed. */
  datatype Reloading = Reloading(
    config: Config,
    base: Base,
    live: Live,
    chosen: seq<Change>,
    moves: seq<Step>,
    kernel: Kernel,
    answers: nat -> Answer)
  {
    function Planned(): seq<Change> { PlannedChanges(config, base, live) }

    ghost function Plan(): Carrying { ChosenPlan(config, base, live, chosen) }

    ghost function AllSteps(): seq<Step> { Steps(config, chosen, PlannedAdoptions(config, base, live), live) + moves }

    ghost function End(): Run { RunTo(AllSteps(), |AllSteps()|, kernel, answers) }

    /** The base the reload leaves. */
    ghost function Left(): Base { CarriedOut(config, MarkFailed(chosen, End().failed)) }

    ghost predicate Valid() {
      && ValidConfig(config) && ValidLive(live)
      && ChosenFrom(Planned(), chosen)
      && (forall s | s in moves :: s.source.None? && s.act.Move?)
      && Holds(kernel.tasks, live.tasks) && Holds(kernel.folders, live.folders)
      && FreshIds(answers, live)
      && forall m | 0 <= m < |PlannedAdoptions(config, base, live)| :: answers(m).accepts
    }

    /** What the kernel lists once the reload is carried out. */
    ghost predicate Lists(again: Live) {
      Holds(End().kernel.tasks, again.tasks) && Holds(End().kernel.folders, again.folders)
    }
  }

  /** What planning one side again needs. */
  ghost predicate Ready(r: Reloading, folder: bool, after: seq<Item>) {
    Afterwards(ViewOf(r.config, r.base, r.live, folder), r.Plan(), r.End().done, r.End().failed, after, r.Left())
  }

  lemma BothReady(r: Reloading, again: Live)
    requires r.Valid() && r.Lists(again)
    ensures Ready(r, false, again.tasks) && Ready(r, true, again.folders)
  {
    var (plan, steps) := (r.Plan(), r.AllSteps());
    StepsCarry(r.config, r.base, r.live, r.chosen, r.moves);
    assert RunOf(plan, steps, r.kernel, r.answers);
    SettledByRun(plan, steps, r.kernel, r.answers);
    var tasks, folders := RunKeeps(plan, steps, |steps|, r.kernel, r.answers);
    SideAfterwards(r.config, r.base, r.live, r.chosen, false, r.End(), tasks, again.tasks);
    SideAfterwards(r.config, r.base, r.live, r.chosen, true, r.End(), folders, again.folders);
  }

  /** A change planned, and the same as chosen, that is to be offered again. */
  ghost predicate ToOffer(r: Reloading, p: Change, c: Change) {
    p in r.Planned() && c in r.chosen && SamePlan(p, c) && OfferedAgain(c, r.End().failed)
  }

  /** What one side offers again. */
  lemma SideOffers(r: Reloading, folder: bool, after: seq<Item>, q: Change)
    requires Ready(r, folder, after)
    ensures q in Again(ViewOf(r.config, r.base, r.live, folder), r.Left(), after).Changes() <==>
            exists p, c | p in ViewOf(r.config, r.base, r.live, folder).Changes() && ToOffer(r, p, c) :: q == Offer(p, r.End().failed)
  {
    var v := ViewOf(r.config, r.base, r.live, folder);
    PlannedSides(r.config, r.base, r.live);
    SideAgain(v, r.Plan(), r.End().done, r.End().failed, after, r.Left(), q);
    forall p, c | p in v.Changes() && c in r.chosen && SamePlan(p, c) && OfferedAgain(c, r.End().failed) ensures ToOffer(r, p, c) {
    }
  }

  lemma AgainSides(r: Reloading, again: Live)
    ensures PlannedChanges(r.config, r.Left(), again) ==
            Again(ViewOf(r.config, r.base, r.live, false), r.Left(), again.tasks).Changes()
            + Again(ViewOf(r.config, r.base, r.live, true), r.Left(), again.folders).Changes()
    ensures PlannedAdoptions(r.config, r.Left(), again) ==
            Again(ViewOf(r.config, r.base, r.live, false), r.Left(), again.tasks).Adoptions()
            + Again(ViewOf(r.config, r.base, r.live, true), r.Left(), again.folders).Adoptions()
  {
  }

  lemma OfferedIff(r: Reloading, again: Live, q: Change)
    requires Ready(r, false, again.tasks) && Ready(r, true, again.folders)
    ensures q in PlannedChanges(r.config, r.Left(), again) <==>
            exists p, c | ToOffer(r, p, c) :: q == Offer(p, r.End().failed)
  {
    SideOffers(r, false, again.tasks, q);
    SideOffers(r, true, again.folders, q);
    AgainSides(r, again);
    PlannedSides(r.config, r.base, r.live);
  }

  /**
   A reload converges. Whatever the user chose and whatever failed, planning the
   same config again against what is there then and the base left offers
   exactly the changes that failed and the new, removed-here and written ones
   that were left, each for its entry as it was planned. Nothing is taken over
   again.
   */
  lemma Converges(r: Reloading, again: Live, q: Change)
    requires r.Valid() && r.Lists(again)
    ensures q in PlannedChanges(r.config, r.Left(), again) <==>
            exists p, c | ToOffer(r, p, c) :: q == Offer(p, r.End().failed)
    ensures PlannedAdoptions(r.config, r.Left(), again) == []
  {
    BothReady(r, again);
    OfferedIff(r, again, q);
    AgainSides(r, again);
    NoAdoptionAgain(ViewOf(r.config, r.base, r.live, false), r.Plan(), r.End().done, r.End().failed, again.tasks, r.Left());
    NoAdoptionAgain(ViewOf(r.config, r.base, r.live, true), r.Plan(), r.End().done, r.End().failed, again.folders, r.Left());
  }

  lemma OfferIs(r: Reloading, p: Change, c: Change, q: Change)
    requires SamePlan(p, c) && q == Offer(p, r.End().failed)
    ensures q.source == c.source && q.kind == c.kind && q.path == c.path && q.task == c.task && q.fields.Keys == c.fields.Keys
  {
  }

  /** A change offered is one entry's, and for the change that was chosen for the entry. */
  lemma OfferedFor(r: Reloading, again: Live, q: Change, c: Change)
    requires r.Valid() && r.Lists(again) && c in r.chosen && OwnEntries(r.chosen)
    requires q in PlannedChanges(r.config, r.Left(), again) && q.source == c.source
    ensures OfferedAgain(c, r.End().failed)
    ensures q.kind == c.kind && q.path == c.path && q.task == c.task && q.fields.Keys == c.fields.Keys
  {
    Converges(r, again, q);
    var p, d :| ToOffer(r, p, d) && q == Offer(p, r.End().failed);
    OfferIs(r, p, d, q);
  }

  lemma OffersOne(r: Reloading, again: Live, c: Change) returns (q: Change)
    requires r.Valid() && r.Lists(again) && c in r.chosen && OfferedAgain(c, r.End().failed)
    ensures q in PlannedChanges(r.config, r.Left(), again) && q.source == c.source
  {
    var i :| 0 <= i < |r.chosen| && r.chosen[i] == c;
    var p := r.Planned()[i];
    ChoiceOfPlanned(r.Planned(), r.chosen, i);
    q := Offer(p, r.End().failed);
    assert ToOffer(r, p, c);
    Converges(r, again, q);
  }

  /**
   Change by change: a reload offers an entry's change again exactly when it
   failed, or was a new, removed-here or written one that was left. So no
   change to an item and no removal is offered again that did not fail, and no
   change taken that succeeded is.
   */
  lemma ConvergesForEach(r: Reloading, again: Live, c: Change)
    requires r.Valid() && r.Lists(again) && c in r.chosen
    ensures (exists q | q in PlannedChanges(r.config, r.Left(), again) :: q.source == c.source) <==>
            OfferedAgain(c, r.End().failed)
    ensures forall q | q in PlannedChanges(r.config, r.Left(), again) && q.source == c.source ::
              q.kind == c.kind && q.path == c.path && q.task == c.task && q.fields.Keys == c.fields.Keys
  {
    ChosenIsCoherent(r.config, r.base, r.live, r.chosen);
    forall q | q in PlannedChanges(r.config, r.Left(), again) && q.source == c.source
      ensures OfferedAgain(c, r.End().failed)
      ensures q.kind == c.kind && q.path == c.path && q.task == c.task && q.fields.Keys == c.fields.Keys
    {
      OfferedFor(r, again, q, c);
    }
    if OfferedAgain(c, r.End().failed) {
      var q := OffersOne(r, again, c);
    }
  }

  // ----- What a change taken makes of a task -----

  lemma AlteredFate(live: Live, c: Change, x: Item, taken: Item)
    requires ValidSide(live.tasks, false) && x in live.tasks && x.spec.Some?
    requires c.kind == Altered && !c.folder && c.task == Some(x.id) && ActOf(c, live, First).Some?
    ensures c.config.Some? && Fate(c, taken, live) == Some(taken.(spec := Some(TakenSpec(c, x.spec.value))))
  {
    FindFinds(live.tasks, false, x);
  }

  lemma NoEnvField(base: Spec, here: Spec, config: Spec)
    ensures ENV !in Merge(base, here, config)
  {
    ChangedAt(base, config, ENV);
    ChangedAt(base, here, ENV);
  }

  lemma NoEnvPlanned(v: View, p: Change)
    requires p in v.Changes() && p.kind == Altered
    ensures ENV !in p.fields
  {
    ChangesAre(v, p);
    forall x ensures !ForGone(v, x, p) {
      if ForGone(v, x, p) {
        GoneChangeIs(v, x, p);
      }
    }
    var e :| ForEntry(v, e, p);
    EntryChangeIs(v, e, p);
    var item := v.Its(e).value;
    NoEnvField(WasSpec(v.base, item.origin, e), SpecOf(item), e.spec);
    assert v.ChangesOf(e) == AlteredChange(v.Sight(), e, item);
    assert p in v.ChangesOf(e);
  }

  /**
   A task whose change is done has, at every key, the config's value where that
   was taken and its own everywhere else.
   */
  lemma DoneAsChosen(r: Reloading, again: Live, x: Item, c: Change, key: string) returns (y: Item)
    requires r.Valid() && r.Lists(again)
    requires x in r.live.tasks && x.spec.Some? && key != ENV
    requires c in r.chosen && c.kind == Altered && c.task == Some(x.id) && c.source in r.End().done
    ensures y in again.tasks && y.id == x.id && y.spec.Some? && c.config.Some?
    ensures ValueAt(y.spec.value, key) ==
            if key in TakenKeys(c) then ValueAt(c.config.value, key) else ValueAt(x.spec.value, key)
  {
    BothReady(r, again);
    AlteredIsDone(r, again, x, c);
    y := DoneItem(ViewOf(r.config, r.base, r.live, false), r.Plan(), r.End().done, again.tasks, x, c);
    var p := PickedPlanned(r.config, r.base, r.live, false, r.chosen, c);
    NoEnvPlanned(ViewOf(r.config, r.base, r.live, false), p);
    PatchAt(x.spec.value, c.config.value, InSomeOrder(TakenKeys(c)), key);
  }

  lemma AlteredIsDone(r: Reloading, again: Live, x: Item, c: Change)
    requires Ready(r, false, again.tasks) && x in r.live.tasks
    requires c in r.chosen && c.task == Some(x.id) && c.source in r.End().done
    ensures !c.folder && ActOf(c, r.live, First).Some? && TaskChange(r.chosen, x.id) == Some(c)
  {
    WhenDone(r.Plan(), r.End().done, r.End().failed, c);
    TaskChangeIs(r.chosen, c);
  }

  lemma DoneItem(v: View, plan: Carrying, done: set<Source>, after: seq<Item>, x: Item, c: Change) returns (y: Item)
    requires Aftermath(v, plan, done, after) && plan == PlanOf(plan.changes, plan.adopt, plan.live)
    requires v.items == plan.live.tasks && ValidSide(plan.live.tasks, false) && x in v.items && x.spec.Some?
    requires TaskChange(plan.changes, x.id) == Some(c) && c.source in done
    requires c.kind == Altered && !c.folder && c.task == Some(x.id) && ActOf(c, plan.live, First).Some?
    ensures y in after && y.id == x.id
    ensures c.config.Some? && y.spec == Some(TakenSpec(c, x.spec.value))
  {
    var taken := Taken(plan.adopt, x);
    AlteredFate(plan.live, c, x, taken);
    assert plan.fate(c, taken) == Fate(c, taken, plan.live);
    y := taken.(spec := Some(TakenSpec(c, x.spec.value)));
    assert Expected(plan, x, done) == Some(y);
  }
}
