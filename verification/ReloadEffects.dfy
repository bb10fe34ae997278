/**
 What each change of a reload comes to once it is done: what the kernel lists
 afterwards, item by item, said of the items before and the choices only.
 */
module ReloadEffects {
  import opened Paths
  import opened Specs
  import opened Reload
  import opened ReloadChoices
  import opened ReloadRun
  import opened ReloadKeeps
  import opened ReloadDone
  import opened ReloadPlanned
  import opened ReloadSteps
  import opened ReloadCarries
  import opened ReloadAgain
  import opened ReloadConverges

  // ----- An item afterwards -----

  /** The kernel at the end, both sides as the entries done leave them. */
  lemma EndKept(r: Reloading) returns (tasks: Made, folders: Made)
    requires r.Valid()
    ensures BothKept(r.Plan(), r.End().kernel, r.End().done, tasks, folders)
    ensures DoneOrFailed(r.Plan(), r.End().done, r.End().failed)
  {
    var (plan, steps) := (r.Plan(), r.AllSteps());
    StepsCarry(r.config, r.base, r.live, r.chosen, r.moves);
    assert RunOf(plan, steps, r.kernel, r.answers);
    SettledByRun(plan, steps, r.kernel, r.answers);
    tasks, folders := RunKeeps(plan, steps, |steps|, r.kernel, r.answers);
  }

  ghost predicate ComesTo(x: Item, fate: Option<Item>, after: seq<Item>) {
    && (forall y | y in after && y.id == x.id :: fate == Some(y))
    && (fate.Some? ==> fate.value in after)
  }

  lemma ListedFate(plan: Carrying, side: map<nat, Item>, done: set<Source>, folder: bool, after: seq<Item>, x: Item)
    requires OldAsExpected(plan, folder, side, done) && Holds(side, after) && x in Side(plan.live, folder)
    ensures ComesTo(x, Expected(plan, x, done), after)
  {
    assert StateOf(side, x.id) == Expected(plan, x, done);
    if x.id in side {
      var y :| y in after && y.id == x.id;
    }
  }

  lemma ItemAfter(r: Reloading, again: Live, folder: bool, x: Item)
    requires r.Valid() && r.Lists(again) && x in Side(r.live, folder)
    ensures ComesTo(x, Expected(r.Plan(), x, r.End().done), Side(again, folder))
  {
    var tasks, folders := EndKept(r);
    ListedFate(r.Plan(), KernelSide(r.End().kernel, folder), r.End().done, folder, Side(again, folder), x);
  }

  /** The item of a change, and what its change done makes of it. */
  lemma DoneItemAfter(r: Reloading, again: Live, c: Change, x: Item)
    requires r.Valid() && r.Lists(again) && c in r.chosen && c.source in r.End().done
    requires x in Side(r.live, c.folder) && c.task == Some(x.id)
    ensures ComesTo(x, Fate(c, Taken(r.Plan().adopt, x), r.live), Side(again, c.folder))
    ensures ActOf(c, r.live, First).Some?
  {
    var tasks, folders := EndKept(r);
    ChosenOwn(r);
    ItemAfter(r, again, c.folder, x);
    WhenDone(r.Plan(), r.End().done, r.End().failed, c);
    ExpectedDone(r.Plan(), r.End().done, c, x);
  }

  lemma ChosenOwn(r: Reloading)
    requires r.Valid()
    ensures OwnItems(r.chosen) && forall c | c in r.chosen && c.kind != Removed :: c.config.Some?
  {
    ChosenIsCoherent(r.config, r.base, r.live, r.chosen);
  }

  lemma ExpectedDone(plan: Carrying, done: set<Source>, c: Change, x: Item)
    requires plan == PlanOf(plan.changes, plan.adopt, plan.live) && OwnItems(plan.changes)
    requires c in plan.changes && c.source in done && c.task == Some(x.id)
    ensures Expected(plan, x, done) == Fate(c, Taken(plan.adopt, x), plan.live)
  {
    TaskChangeIs(plan.changes, c);
    assert plan.fate(c, Taken(plan.adopt, x)) == Fate(c, Taken(plan.adopt, x), plan.live);
  }

  lemma ItsItemHere(r: Reloading, c: Change) returns (x: Item)
    requires r.Valid() && c in r.chosen && !IsNew(c)
    ensures x in Side(r.live, c.folder) && c.task == Some(x.id) && x.path == c.path
  {
    ChosenIsCoherent(r.config, r.base, r.live, r.chosen);
    assert c.task.Some?;
    x :| ItemOf(c, r.live, x);
  }

  // ----- Removals -----

  lemma RemovalFate(c: Change, x: Item, live: Live)
    requires c.kind == Removed && c.task.Some?
    ensures c.apply ==> Fate(c, x, live) == None
    ensures !c.apply ==>
              Fate(c, x, live) ==
              Some(x.(origin := None, spec := if c.folder then Some(FolderSpec(FolderIsCollapsed(live, c.task.value))) else x.spec))
  {
  }

  /** A removal taken and done leaves nothing of its task or folder. */
  lemma RemovedIsGone(r: Reloading, again: Live, c: Change, y: Item)
    requires r.Valid() && r.Lists(again) && c in r.chosen && c.source in r.End().done
    requires c.kind == Removed && c.apply && y in Side(again, c.folder)
    ensures c.task.Some? && c.task != Some(y.id)
  {
    var x := ItsItemHere(r, c);
    DoneItemAfter(r, again, c, x);
    RemovalFate(c, Taken(r.Plan().adopt, x), r.live);
  }

  /** A folder is here as its collapsed flag says, and nothing else. */
  lemma FolderIs(live: Live, x: Item)
    requires ValidLive(live) && x in live.folders
    ensures x.spec == Some(FolderSpec(FolderIsCollapsed(live, x.id)))
    ensures FolderIsCollapsed(live, x.id) == Collapsed(SpecOf(x))
  {
    FindFinds(live.folders, true, x);
  }

  /** A removal left and done keeps the task or folder as it was, and no entry's. */
  lemma LeftIsDisowned(r: Reloading, again: Live, c: Change, x: Item)
    requires r.Valid() && r.Lists(again) && c in r.chosen && c.source in r.End().done
    requires c.kind == Removed && !c.apply && x in Side(r.live, c.folder) && c.task == Some(x.id)
    ensures x.(origin := None) in Side(again, c.folder)
  {
    DoneItemAfter(r, again, c, x);
    RemovalFate(c, Taken(r.Plan().adopt, x), r.live);
    if c.folder {
      FolderIs(r.live, x);
    }
  }

  // ----- Entries written -----

  /** The runner's own task or folder that is written becomes the entry's; a folder then says what the entry does. */
  lemma WrittenIsOwned(r: Reloading, again: Live, c: Change, x: Item)
    requires r.Valid() && r.Lists(again) && c in r.chosen && c.source in r.End().done
    requires c.kind == Written && x in Side(r.live, c.folder) && c.task == Some(x.id)
    ensures c.apply && c.config.Some?
    ensures x.(origin := Some(c.source),
               spec := if c.folder then Some(FolderSpec(Collapsed(c.config.value))) else x.spec) in Side(again, c.folder)
  {
    DoneItemAfter(r, again, c, x);
    ChosenOwn(r);
  }

  // ----- Folders changed -----

  lemma FolderFate(c: Change, x: Item, live: Live)
    requires c.kind == Altered && c.folder && c.task.Some? && c.config.Some?
    ensures Fate(c, x, live) ==
            Some(x.(origin := Some(c.source),
                    spec := Some(FolderSpec(if COLLAPSED in TakenKeys(c) then Collapsed(c.config.value)
                                            else FolderIsCollapsed(live, c.task.value)))))
  {
  }

  /** A folder whose change is done starts collapsed as the config says where that was taken, and as before where not. */
  lemma FolderAsChosen(r: Reloading, again: Live, c: Change, x: Item)
    requires r.Valid() && r.Lists(again) && c in r.chosen && c.source in r.End().done
    requires c.kind == Altered && c.folder && x in r.live.folders && c.task == Some(x.id)
    ensures c.config.Some?
    ensures var collapsed := if COLLAPSED in c.fields && c.fields[COLLAPSED].take
                             then Collapsed(c.config.value) else Collapsed(SpecOf(x));
            x.(origin := Some(c.source), spec := Some(FolderSpec(collapsed))) in again.folders
  {
    DoneItemAfter(r, again, c, x);
    FolderIs(r.live, x);
    ChosenOwn(r);
    FolderFate(c, Taken(r.Plan().adopt, x), r.live);
  }

  // ----- Additions -----

  /** A new task or folder done is listed at the entry's path, from it, as it says, and not running. */
  lemma NewIsListed(r: Reloading, again: Live, c: Change) returns (y: Item)
    requires r.Valid() && r.Lists(again) && c in r.chosen && c.source in r.End().done && IsNew(c)
    ensures c.apply && c.config.Some? && y in Side(again, c.folder)
    ensures y.path == c.path && y.origin == Some(c.source) && !y.active
    ensures y.spec == if c.folder then Some(FolderSpec(Collapsed(c.config.value))) else c.config
    ensures forall x | x in Side(r.live, c.folder) :: x.id != y.id
  {
    var tasks, folders := EndKept(r);
    var (made, side) := (if c.folder then folders else tasks, KernelSide(r.End().kernel, c.folder));
    WhenDone(r.Plan(), r.End().done, r.End().failed, c);
    ChosenOwn(r);
    assert Kept(r.Plan(), c.folder, side, r.End().done, made);
    y := MadeItem(r.Plan(), c.folder, side, r.End().done, made, Side(again, c.folder), c);
  }

  lemma MadeItem(plan: Carrying, folder: bool, side: map<nat, Item>, done: set<Source>, made: Made, after: seq<Item>, c: Change)
    returns (y: Item)
    requires NewAreMade(plan, folder, side, done, made) && Holds(side, after) && IsNewDone(plan, folder, done, c)
    ensures y in after && IsMadeFrom(y, c) && !HasId(Side(plan.live, folder), y.id)
  {
    var id :| id in made && made[id] == c;
    assert HasId(after, id);
    y :| y in after && y.id == id;
  }

  /** What is listed that was not here is an addition's that was done. */
  lemma NoOtherIsNew(r: Reloading, again: Live, folder: bool, y: Item) returns (c: Change)
    requires r.Valid() && r.Lists(again) && y in Side(again, folder)
    requires forall x | x in Side(r.live, folder) :: x.id != y.id
    ensures c in r.chosen && IsNew(c) && c.folder == folder && c.source in r.End().done
    ensures y.path == c.path && y.origin == Some(c.source)
  {
    var tasks, folders := EndKept(r);
    var (made, side) := (if folder then folders else tasks, KernelSide(r.End().kernel, folder));
    assert Kept(r.Plan(), folder, side, r.End().done, made);
    c := MadeBy(r.Plan(), folder, side, r.End().done, made, Side(again, folder), y);
  }

  lemma MadeBy(plan: Carrying, folder: bool, side: map<nat, Item>, done: set<Source>, made: Made, after: seq<Item>, y: Item)
    returns (c: Change)
    requires NewAreMade(plan, folder, side, done, made) && Holds(side, after) && y in after
    requires forall x | x in Side(plan.live, folder) :: x.id != y.id
    ensures IsNewDone(plan, folder, done, c) && IsMadeFrom(y, c)
  {
    assert y.id in made;
    c := made[y.id];
  }

  // ----- What nothing was done to -----

  /** An item with no change done is as it was, but that an entry may have taken it over. */
  lemma OthersStay(r: Reloading, again: Live, folder: bool, x: Item) returns (y: Item)
    requires r.Valid() && r.Lists(again) && x in Side(r.live, folder)
    requires forall c | c in r.chosen && c.task == Some(x.id) :: c.source !in r.End().done
    ensures y in Side(again, folder) && y == x.(origin := y.origin)
    ensures y.origin == x.origin ||
            (y.origin.Some? && (x.id, y.origin.value) in PlannedAdoptions(r.config, r.base, r.live))
  {
    ItemAfter(r, again, folder, x);
    y := Taken(r.Plan().adopt, x);
    NotAdopted(r.Plan().adopt, x.id);
  }

  // ----- Which changes are carried out -----

  /**
   The changes that there is something to do for: every removal, taken or left; a new
   or written entry that is taken; a changed folder, and a changed task of which some
   field is taken.
   */
  predicate HasToDo(c: Change) {
    match c.kind
    case Removed => true
    case Altered => c.folder || exists key | key in c.fields :: c.fields[key].take
    case _ => c.apply
  }

  /** Exactly these are done or fail; of a task with no definition, whose changes cannot be made, none is. */
  lemma CarriedOutIff(r: Reloading, c: Change)
    requires r.Valid() && c in r.chosen
    requires c.kind == Altered && !c.folder ==> forall x | x in r.live.tasks && c.task == Some(x.id) :: x.spec.Some?
    ensures c.source in r.End().done || c.source in r.End().failed <==> HasToDo(c)
    ensures !(c.source in r.End().done && c.source in r.End().failed)
  {
    var tasks, folders := EndKept(r);
    ChosenOwn(r);
    if c.kind == Altered && !c.folder {
      var x := ItsItemHere(r, c);
      FindFinds(r.live.tasks, false, x);
      TakenDiffers(r, c, x);
    }
    ActIff(c, r.live);
    SettledIff(r.Plan(), r.End().done, r.End().failed, c);
  }

  lemma SettledIff(plan: Carrying, done: set<Source>, failed: set<Source>, c: Change)
    requires DoneOrFailed(plan, done, failed) && c in plan.changes
    ensures c.source in done || c.source in failed <==> ActOf(c, plan.live, First).Some?
    ensures !(c.source in done && c.source in failed)
  {
  }

  lemma ActIff(c: Change, live: Live)
    requires (c.task.Some? <==> !IsNew(c)) && (c.kind != Removed ==> c.config.Some?)
    requires c.kind == Altered && !c.folder ==>
               var task := Find(live.tasks, c.task.value);
               task.Some? && task.value.spec.Some? &&
               (TakenSpec(c, task.value.spec.value) == task.value.spec.value <==> TakenKeys(c) == {})
    ensures ActOf(c, live, First).Some? <==> HasToDo(c)
  {
    assert (exists key | key in c.fields :: c.fields[key].take) <==> TakenKeys(c) != {} by {
      if key :| key in c.fields && c.fields[key].take {
        assert key in TakenKeys(c);
      }
    }
  }

  /** Each field planned differs here, so that taking any makes a difference. */
  lemma TakenDiffers(r: Reloading, c: Change, x: Item)
    requires r.Valid() && c in r.chosen && c.kind == Altered && !c.folder && c.config.Some?
    requires x in r.live.tasks && c.task == Some(x.id) && x.spec.Some?
    ensures TakenSpec(c, x.spec.value) == x.spec.value <==> TakenKeys(c) == {}
  {
    if key :| key in TakenKeys(c) {
      var p := PickedPlanned(r.config, r.base, r.live, false, r.chosen, c);
      ViewIsValid(r.config, r.base, r.live, false);
      NoEnvPlanned(ViewOf(r.config, r.base, r.live, false), p);
      FieldDiffers(ViewOf(r.config, r.base, r.live, false), p, x, key);
      PatchAt(x.spec.value, c.config.value, InSomeOrder(TakenKeys(c)), key);
    } else {
      assert InSomeOrder(TakenKeys(c)) == [];
    }
  }

  lemma FieldDiffers(v: View, p: Change, x: Item, key: string)
    requires p in v.Changes() && p.kind == Altered && p.task == Some(x.id) && key in p.fields && key != ENV
    requires x in v.items && x.spec.Some? && ValidView(v)
    ensures p.config.Some? && ValueAt(p.config.value, key) != ValueAt(x.spec.value, key)
  {
    ChangesAre(v, p);
    forall y ensures !ForGone(v, y, p) {
      if ForGone(v, y, p) {
        GoneChangeIs(v, y, p);
      }
    }
    var e :| ForEntry(v, e, p);
    EntryChangeIs(v, e, p);
    EntryChangeItem(v, e, p, x);
    assert v.ChangesOf(e) == AlteredChange(v.Sight(), e, x);
    assert p in v.ChangesOf(e);
    MergeLists(WasSpec(v.base, x.origin, e), SpecOf(x), e.spec, key);
  }

  // ----- What the steps say -----

  /** An update is of a task that is here, and says what it has now, so that one changed meanwhile is refused. */
  lemma UpdateIsOfWhatIsHere(r: Reloading, n: nat)
    requires r.Valid() && n < |r.AllSteps()| && r.AllSteps()[n].act.Update?
    ensures exists x | x in r.live.tasks :: x.path == r.AllSteps()[n].act.path && x.spec == Some(r.AllSteps()[n].act.was)
  {
    StepsCarry(r.config, r.base, r.live, r.chosen, r.moves);
    AdoptStepsFirst(r.AllSteps(), r.Plan());
    if n >= |r.Plan().adopt| {
      UpdateOf(r.AllSteps()[n], r.Plan());
    }
  }

  lemma UpdateOf(step: Step, plan: Carrying)
    requires StepFits(step, plan) && step.act.Update?
    ensures exists x | x in plan.live.tasks :: x.path == step.act.path && x.spec == Some(step.act.was)
  {
    var c, place :| c in plan.changes && ActOf(c, plan.live, place) == Some(step.act);
    var task := Find(plan.live.tasks, c.task.value);
    FoundIsThere(plan.live.tasks, c.task.value);
  }

  lemma {:induction false} FoundIsThere(items: seq<Item>, id: nat)
    ensures Find(items, id).Some? ==> Find(items, id).value in items
  {
    if items != [] {
      FoundIsThere(items[1..], id);
    }
  }

  // ----- Where the steps count each entry to be -----

  lemma {:induction false} StartAt(items: seq<Item>, adopt: seq<(nat, Source)>, s: Source)
    ensures s in AtStart(items, adopt) <==> exists x | x in items :: SourceOf(adopt, x) == Some(s)
    ensures s in AtStart(items, adopt) ==>
              exists x | x in items && SourceOf(adopt, x) == Some(s) :: x.path == AtStart(items, adopt)[s]
  {
    if items != [] {
      var (init, last) := (items[..|items| - 1], items[|items| - 1]);
      StartAt(init, adopt, s);
      assert forall x :: x in items <==> x in init || x == last;
    }
  }

  ghost predicate TakesAway(changes: seq<Change>, s: Source) {
    exists c | c in changes :: c.kind == Removed && c.task.Some? && c.apply && c.source == s
  }

  ghost predicate IsTakenIn(changes: seq<Change>, s: Source, c: Change) {
    c in changes && c.kind == Written && c.apply && c.task.Some? && c.source == s
  }

  lemma {:induction false} WrittenAt(at: At, changes: seq<Change>, s: Source)
    ensures s in AtWritten(at, changes) <==> s in at || exists c :: IsTakenIn(changes, s, c)
    ensures (exists c :: IsTakenIn(changes, s, c)) ==> exists c :: IsTakenIn(changes, s, c) && AtWritten(at, changes)[s] == c.path
    ensures s in at && !(exists c :: IsTakenIn(changes, s, c)) ==> AtWritten(at, changes)[s] == at[s]
  {
    if changes != [] {
      var (init, last) := (changes[..|changes| - 1], changes[|changes| - 1]);
      WrittenAt(at, init, s);
      var took := last.kind == Written && last.apply && last.task.Some? && last.source == s;
      assert changes == init + [last];
      forall c ensures IsTakenIn(changes, s, c) <==> IsTakenIn(init, s, c) || (c == last && took) {
      }
      if took {
        assert IsTakenIn(changes, s, last);
      } else if c :| IsTakenIn(init, s, c) && AtWritten(at, init)[s] == c.path {
        assert IsTakenIn(changes, s, c);
      }
    }
  }

  /**
   Before the additions, an entry counts as being where the item it comes to be from
   is, unless the item is taken away; and one written as where it was written.
   */
  lemma CountedAt(changes: seq<Change>, adopt: seq<(nat, Source)>, live: Live, s: Source)
    ensures var at := AtBeforeAdds(changes, adopt, live);
            && (s in at <==> (exists c :: IsTakenIn(changes, s, c)) ||
                             (!TakesAway(changes, s) && exists x | x in live.tasks + live.folders :: SourceOf(adopt, x) == Some(s)))
            && (s in at ==> (exists c :: IsTakenIn(changes, s, c) && at[s] == c.path) ||
                            (exists x | x in live.tasks + live.folders && SourceOf(adopt, x) == Some(s) :: x.path == at[s]))
  {
    var start := AtStart(live.tasks + live.folders, adopt);
    StartAt(live.tasks + live.folders, adopt, s);
    WrittenAt(AtWithout(start, changes), changes, s);
    assert s in AtWithout(start, changes) <==> s in start && !TakesAway(changes, s);
  }
}
