/**
 One side of what is here after a reload, and what a reload of the same config
 against it says, entry by entry and item by item.
 */
module ReloadAgain {
  import opened Paths
  import opened Specs
  import opened Reload
  import opened ReloadChoices
  import opened ReloadRun
  import opened ReloadKeeps
  import opened ReloadDone
  import opened ReloadPlanned
  import opened ReloadSteps

  // ----- What is known of a reload carried out, of one side -----

  /** A change chosen was planned, and one planned has its choice. */
  ghost predicate IsPlanned(v: View, c: Change) {
    exists p | p in v.Changes() :: SamePlan(p, c)
  }

  ghost predicate IsPicked(changes: seq<Change>, p: Change) {
    exists c | c in changes :: SamePlan(p, c)
  }

  /** The changes chosen, and those planned. */
  ghost predicate Picked(v: View, changes: seq<Change>) {
    && (forall c {:trigger IsPlanned(v, c)} | c in changes && c.folder == v.folder :: IsPlanned(v, c))
    && (forall p {:trigger IsPicked(changes, p)} | p in v.Changes() :: IsPicked(changes, p))
    && OwnEntries(changes) && OwnItems(changes)
  }

  /** What each item is from, once the entries taken over are. */
  ghost predicate TakenFits(v: View, adopt: seq<(nat, Source)>) {
    forall x | x in v.items ::
      && (forall e | e in v.entries && v.Its(e) == Some(x) :: SourceOf(adopt, x) == Some(e.source))
      && ((forall e | e in v.entries :: v.Its(e) != Some(x)) ==> SourceOf(adopt, x) == x.origin)
  }

  /** Each change that has an act is done, or failed; and no other is either. */
  ghost predicate DoneOrFailed(plan: Carrying, done: set<Source>, failed: set<Source>) {
    forall c | c in plan.changes ::
      if ActOf(c, plan.live, First).Some? then (c.source in done) != (c.source in failed)
      else c.source !in done && c.source !in failed
  }

  /** Where a thing that is here afterwards comes from: it was here, or it was made. */
  ghost predicate Explained(v: View, plan: Carrying, done: set<Source>, y: Item) {
    || (exists x | x in v.items :: Expected(plan, x, done) == Some(y))
    || (exists c | IsNewDone(plan, v.folder, done, c) :: IsMadeFrom(y, c))
  }

  ghost predicate IsMade(after: seq<Item>, c: Change) {
    exists y | y in after :: IsMadeFrom(y, c)
  }

  /** What is here afterwards: each item as its change done leaves it, and what was made. */
  ghost predicate Aftermath(v: View, plan: Carrying, done: set<Source>, after: seq<Item>) {
    && (forall x | x in v.items && Expected(plan, x, done).Some? :: Expected(plan, x, done).value in after)
    && (forall y {:trigger Explained(v, plan, done, y)} | y in after :: Explained(v, plan, done, y))
    && (forall c {:trigger IsMade(after, c)} | IsNewDone(plan, v.folder, done, c) :: IsMade(after, c))
    && (forall y, z | y in after && z in after && (y.path == z.path || y.id == z.id) :: y == z)
  }

  ghost predicate Carried(v: View, plan: Carrying, done: set<Source>, failed: set<Source>, after: seq<Item>) {
    && ValidView(v) && Picked(v, plan.changes) && TakenFits(v, plan.adopt)
    && plan == PlanOf(plan.changes, plan.adopt, plan.live)
    && DoneOrFailed(plan, done, failed)
    && Aftermath(v, plan, done, after)
  }

  // ----- What a change done makes of its item -----

  lemma FateOf(plan: Carrying, c: Change, x: Item)
    requires plan == PlanOf(plan.changes, plan.adopt, plan.live)
    requires c.task == Some(x.id)
    ensures c.kind == Removed && plan.fate(c, x).Some? ==> plan.fate(c, x).value.origin == None
    ensures c.kind == Written && c.apply ==> plan.fate(c, x).Some? && plan.fate(c, x).value.origin == Some(c.source)
    ensures c.kind == Altered ==>
              plan.fate(c, x).Some? && plan.fate(c, x).value.origin in {x.origin, Some(c.source)}
    ensures plan.fate(c, x).Some? ==> plan.fate(c, x).value.path == x.path && plan.fate(c, x).value.id == x.id
  {
    assert plan.fate(c, x) == Fate(c, x, plan.live);
  }

  lemma WhenDone(plan: Carrying, done: set<Source>, failed: set<Source>, c: Change)
    requires DoneOrFailed(plan, done, failed) && c in plan.changes
    ensures c.source in done || c.source in failed ==> ActOf(c, plan.live, First).Some?
    ensures IsNew(c) || c.kind == Written ==> (c.source in done || c.source in failed ==> c.apply)
    ensures (IsNew(c) && c.config.Some?) || (c.kind == Written && c.task.Some?) ==>
              (c.apply ==> (c.source in done) != (c.source in failed))
    ensures c.kind == Removed && c.task.Some? ==> (c.source in done) != (c.source in failed)
    ensures !(c.source in done && c.source in failed)
  {
  }

  // ----- The change for an item -----

  /** The change chosen for one planned. */
  lemma ChosenOf(v: View, plan: Carrying, p: Change) returns (c: Change)
    requires Picked(v, plan.changes) && p in v.Changes()
    ensures c in plan.changes && SamePlan(p, c)
  {
    assert IsPicked(plan.changes, p);
    c :| c in plan.changes && SamePlan(p, c);
  }

  lemma ChosenIsTaskChange(v: View, plan: Carrying, p: Change, id: nat) returns (c: Change)
    requires Picked(v, plan.changes) && p in v.Changes() && p.task == Some(id)
    ensures c in plan.changes && SamePlan(p, c) && TaskChange(plan.changes, id) == Some(c)
  {
    c := ChosenOf(v, plan, p);
    TaskChangeIs(plan.changes, c);
  }

  lemma TaskChangeIs(changes: seq<Change>, c: Change)
    requires OwnItems(changes) && c in changes && c.task.Some?
    ensures TaskChange(changes, c.task.value) == Some(c)
  {
  }

  /** The item of an entry has the entry's change, if there is one. */
  lemma ItsChange(v: View, plan: Carrying, e: Entry, p: Change) returns (c: Change)
    requires ValidView(v) && Picked(v, plan.changes) && ForEntry(v, e, p) && v.Its(e).Some?
    ensures c in plan.changes && SamePlan(p, c) && TaskChange(plan.changes, v.Its(e).value.id) == Some(c)
  {
    ChangesAre(v, p);
    EntryChangeIs(v, e, p);
    c := ChosenIsTaskChange(v, plan, p, v.Its(e).value.id);
  }

  /** The change for an item, by what the item is to the config. */
  lemma WhoseChange(v: View, plan: Carrying, x: Item, c: Change)
    requires ValidView(v) && Picked(v, plan.changes) && x in v.items
    requires TaskChange(plan.changes, x.id) == Some(c) && c.folder == v.folder
    ensures || (exists e, p :: ForEntry(v, e, p) && SamePlan(p, c) && v.Its(e) == Some(x) && c.kind == Altered)
            || (exists e, p :: ForEntry(v, e, p) && SamePlan(p, c) && v.Its(e).None? && c.kind == Written
                               && x.origin.None? && x.path == e.path)
            || (exists p :: ForGone(v, x, p) && SamePlan(p, c) && c.kind == Removed)
  {
    assert IsPlanned(v, c);
    var p :| p in v.Changes() && SamePlan(p, c);
    ChangesAre(v, p);
    if e :| ForEntry(v, e, p) {
      EntryChangeItem(v, e, p, x);
    } else {
      var y :| ForGone(v, y, p);
      GoneChangeIs(v, y, p);
      assert y == x;
    }
  }

  // ----- Where an item is from, afterwards -----

  /** Every change chosen for an item of a side is of that side. */
  ghost predicate OwnSide(v: View, changes: seq<Change>) {
    forall c, x | c in changes && x in v.items && c.task == Some(x.id) :: c.folder == v.folder
  }

  /** An item whose change is done and that is from an entry then: its own entry's, or the one it was written as. */
  lemma DoneFrom(v: View, plan: Carrying, x: Item, y: Item, c: Change, e: Entry)
    requires ValidView(v) && Picked(v, plan.changes) && plan == PlanOf(plan.changes, plan.adopt, plan.live)
    requires x in v.items && TaskChange(plan.changes, x.id) == Some(c) && c.folder == v.folder
    requires c.kind == Written ==> c.apply
    requires forall d | d in v.entries && v.Its(d) == Some(x) :: SourceOf(plan.adopt, x) == Some(d.source)
    requires plan.fate(c, Taken(plan.adopt, x)) == Some(y) && e in v.entries && y.origin == Some(e.source)
    ensures v.Its(e) == Some(x) || (v.Its(e).None? && y.path == e.path && c.source == e.source)
  {
    WhoseChange(v, plan, x, c);
    FateOf(plan, c, Taken(plan.adopt, x));
    if c.kind != Removed {
      var d, p :| ForEntry(v, d, p) && SamePlan(p, c) && (v.Its(d) == Some(x) || (v.Its(d).None? && x.path == d.path));
      EntryChangeIs(v, d, p);
    }
  }

  lemma UntouchedFrom(v: View, adopt: seq<(nat, Source)>, x: Item, e: Entry)
    requires ValidView(v) && x in v.items && e in v.entries
    requires forall d | d in v.entries && v.Its(d) == Some(x) :: SourceOf(adopt, x) == Some(d.source)
    requires (forall d | d in v.entries :: v.Its(d) != Some(x)) ==> SourceOf(adopt, x) == x.origin
    requires Taken(adopt, x).origin == Some(e.source)
    ensures v.Its(e) == Some(x)
  {
    ItsItem(v, e);
  }

  /** An item that was here and is from an entry now: its own, or the one it was written as. */
  lemma OldFrom(v: View, plan: Carrying, done: set<Source>, failed: set<Source>, after: seq<Item>, x: Item, y: Item, e: Entry)
    requires Carried(v, plan, done, failed, after) && OwnSide(v, plan.changes)
    requires x in v.items && Expected(plan, x, done) == Some(y) && e in v.entries && y.origin == Some(e.source)
    ensures v.Its(e) == Some(x)
            || (v.Its(e).None? && y.path == e.path && exists c | c in plan.changes && c.source == e.source :: c.source in done)
  {
    var own := TaskChange(plan.changes, x.id);
    if own.Some? && own.value.source in done {
      WhenDone(plan, done, failed, own.value);
      DoneFrom(v, plan, x, y, own.value, e);
    } else {
      UntouchedFrom(v, plan.adopt, x, e);
    }
  }

  /** What is from an entry afterwards. */
  lemma AfterFrom(v: View, plan: Carrying, done: set<Source>, failed: set<Source>, after: seq<Item>, y: Item, e: Entry)
    requires Carried(v, plan, done, failed, after) && OwnSide(v, plan.changes)
    requires y in after && e in v.entries && y.origin == Some(e.source)
    ensures || (v.Its(e).Some? && Expected(plan, v.Its(e).value, done) == Some(y))
            || (v.Its(e).None? && y.path == e.path && exists c | c in plan.changes && c.source == e.source :: c.source in done)
  {
    assert Explained(v, plan, done, y);
    if x :| x in v.items && Expected(plan, x, done) == Some(y) {
      OldFrom(v, plan, done, failed, after, x, y, e);
    } else {
      var c :| IsNewDone(plan, v.folder, done, c) && IsMadeFrom(y, c);
      assert c.source == e.source;
      assert IsPlanned(v, c);
      var p :| p in v.Changes() && SamePlan(p, c);
      NewIsOfNone(v, p, e);
    }
  }

  lemma NewIsOfNone(v: View, p: Change, e: Entry)
    requires ValidView(v) && p in v.Changes() && IsNew(p) && e in v.entries && p.source == e.source
    ensures v.Its(e).None? && p.path == e.path
  {
    var d := NewEntry(v, p);
    EntryChangeIs(v, d, p);
    assert d == e;
  }

  /** An item that is from an entry gone afterwards is as it was, its removal not done. */
  lemma AfterGone(v: View, plan: Carrying, done: set<Source>, failed: set<Source>, after: seq<Item>, y: Item)
    returns (c: Change)
    requires Carried(v, plan, done, failed, after) && OwnSide(v, plan.changes)
    requires y in after && Gone(y, v.InConfig())
    ensures ForGone(v, y, RemovedChange(v.Sight(), y))
    ensures c in plan.changes && SamePlan(RemovedChange(v.Sight(), y), c) && c.source in failed
  {
    assert Explained(v, plan, done, y);
    if d :| IsNewDone(plan, v.folder, done, d) && IsMadeFrom(y, d) {
      NewInConfig(v, plan, d);
    }
    var x :| x in v.items && Expected(plan, x, done) == Some(y);
    c := OldGone(v, plan, done, failed, after, x, y);
  }

  lemma NewInConfig(v: View, plan: Carrying, d: Change)
    requires ValidView(v) && Picked(v, plan.changes) && d in plan.changes && d.folder == v.folder && IsNew(d)
    ensures d.source in v.InConfig()
  {
    assert IsPlanned(v, d);
    var p :| p in v.Changes() && SamePlan(p, d);
    var e := NewEntry(v, p);
  }

  lemma OldGone(v: View, plan: Carrying, done: set<Source>, failed: set<Source>, after: seq<Item>, x: Item, y: Item)
    returns (c: Change)
    requires Carried(v, plan, done, failed, after) && OwnSide(v, plan.changes)
    requires x in v.items && Expected(plan, x, done) == Some(y) && Gone(y, v.InConfig())
    ensures x == y && ForGone(v, y, RemovedChange(v.Sight(), y))
    ensures c in plan.changes && SamePlan(RemovedChange(v.Sight(), y), c) && c.source in failed
  {
    forall e | e in v.entries ensures v.Its(e) != Some(x) {
      if v.Its(e) == Some(x) {
        ItsStays(v, plan, done, failed, after, e);
      }
    }
    var (own, taken) := (TaskChange(plan.changes, x.id), Taken(plan.adopt, x));
    assert taken == x;
    if own.Some? {
      WhoseChange(v, plan, x, own.value);
      FateOf(plan, own.value, taken);
      WhenDone(plan, done, failed, own.value);
      if e, p :| ForEntry(v, e, p) && SamePlan(p, own.value) && own.value.kind == Written && x.origin.None? {
        EntryChangeIs(v, e, p);
      }
    }
    AdoptsIts(v, x);
    var p := RemovedChange(v.Sight(), x);
    assert ForGone(v, x, p);
    ChangesAre(v, p);
    c := ChosenIsTaskChange(v, plan, p, x.id);
    FateOf(plan, c, taken);
    WhenDone(plan, done, failed, c);
  }

  /** The item of an entry stays, and is from the entry. */
  lemma ItsStays(v: View, plan: Carrying, done: set<Source>, failed: set<Source>, after: seq<Item>, e: Entry)
    requires Carried(v, plan, done, failed, after) && OwnSide(v, plan.changes)
    requires e in v.entries && v.Its(e).Some?
    ensures var (x, y) := (v.Its(e).value, Expected(plan, v.Its(e).value, done));
            && y.Some? && y.value in after && y.value.origin == Some(e.source)
            && y.value.path == x.path && y.value.id == x.id
            && (TaskChange(plan.changes, x.id).None? || TaskChange(plan.changes, x.id).value.source !in done ==>
                  y.value == x.(origin := Some(e.source)))
  {
    ItsItem(v, e);
    var x := v.Its(e).value;
    var (own, taken) := (TaskChange(plan.changes, x.id), Taken(plan.adopt, x));
    if own.Some? {
      WhoseChange(v, plan, x, own.value);
      FateOf(plan, own.value, taken);
      if d, p :| ForEntry(v, d, p) && SamePlan(p, own.value) && v.Its(d) == Some(x) {
        ItemOfOne(v, d, e);
        EntryChangeIs(v, d, p);
      } else if d, p :| ForEntry(v, d, p) && SamePlan(p, own.value) && v.Its(d).None? && x.origin.None? {
      } else {
        var p :| ForGone(v, x, p) && SamePlan(p, own.value);
        AdoptsIts(v, x);
      }
    }
  }

  /** What is here afterwards is as a comparison needs it: no two items share an id, a path or an entry. */
  lemma AfterIsUnique(v: View, plan: Carrying, done: set<Source>, failed: set<Source>, after: seq<Item>)
    requires Carried(v, plan, done, failed, after) && OwnSide(v, plan.changes)
    ensures Unique(after)
  {
    forall y, z | y in after && z in after && y.origin.Some? && y.origin == z.origin ensures y == z {
      if y.origin.value in v.InConfig() {
        var e :| e in v.entries && e.source == y.origin.value;
        AfterFrom(v, plan, done, failed, after, y, e);
        AfterFrom(v, plan, done, failed, after, z, e);
      } else {
        var c := AfterGone(v, plan, done, failed, after, y);
        var d := AfterGone(v, plan, done, failed, after, z);
      }
    }
  }

  // ----- Planning again -----

  /** The base left, as it is for one side. */
  ghost predicate BaseFits(v: View, changes: seq<Change>, failed: set<Source>, base: Base) {
    && (forall e | e in v.entries && (forall c | c in changes :: c.source != e.source) ::
          BaseAt(base, e.source) == Some(e.spec))
    && (forall e, c | e in v.entries && c in changes && c.source == e.source ::
          BaseAt(base, e.source) ==
          if c.source in failed then c.base
          else if (c.kind == Added || c.kind == Written) && !c.apply then None
          else Some(e.spec))
    && (forall c | c in changes && c.folder == v.folder && c.kind == Removed ::
          BaseAt(base, c.source) == if c.source in failed then c.base else None)
  }

  /** The comparison of the same config with what is here afterwards and the base left. */
  function Again(v: View, base: Base, after: seq<Item>): View {
    View(v.folder, v.entries, base, after)
  }

  ghost predicate Afterwards(v: View, plan: Carrying, done: set<Source>, failed: set<Source>, after: seq<Item>, base: Base) {
    && Carried(v, plan, done, failed, after) && OwnSide(v, plan.changes) && OwnSides(v, plan.changes)
    && BaseFits(v, plan.changes, failed, base)
    && ValidView(Again(v, base, after))
  }

  lemma AgainItsItem(v: View, plan: Carrying, done: set<Source>, failed: set<Source>, after: seq<Item>, base: Base, e: Entry)
    requires Afterwards(v, plan, done, failed, after, base)
    requires e in v.entries && v.Its(e).Some?
    ensures Again(v, base, after).Its(e) == Expected(plan, v.Its(e).value, done)
    ensures var y := Again(v, base, after).Its(e);
            y.Some? && y.value.origin == Some(e.source)
            && (TaskChange(plan.changes, v.Its(e).value.id).None?
                || TaskChange(plan.changes, v.Its(e).value.id).value.source !in done
                ==> y.value == v.Its(e).value.(origin := Some(e.source)))
  {
    ItsStays(v, plan, done, failed, after, e);
    ItsItem(Again(v, base, after), e);
  }

  /** What an entry's change becomes once carried out: the base says the entry, or what it said before. */
  lemma ChosenBase(v: View, plan: Carrying, failed: set<Source>, base: Base, e: Entry, c: Change)
    requires BaseFits(v, plan.changes, failed, base) && e in v.entries && c in plan.changes && c.source == e.source
    ensures BaseAt(base, e.source) ==
            if c.source in failed then c.base
            else if (c.kind == Added || c.kind == Written) && !c.apply then None
            else Some(e.spec)
  {
  }

  lemma SettledAgain(t: Sight, e: Entry, y: Item)
    requires y.origin == Some(e.source) && BaseAt(t.base, e.source) == Some(e.spec)
    ensures AlteredChange(t, e, y) == []
  {
    MergeWithItself(e.spec, SpecOf(y));
  }

  /** The item of an entry is its item again; with no change to it, there is none again. */
  lemma AgainSame(v: View, plan: Carrying, done: set<Source>, failed: set<Source>, after: seq<Item>, base: Base, e: Entry)
    requires Afterwards(v, plan, done, failed, after, base)
    requires e in v.entries && v.Its(e).Some? && v.ChangesOf(e) == []
    ensures Again(v, base, after).ChangesOf(e) == []
  {
    var w := Again(v, base, after);
    AgainItsItem(v, plan, done, failed, after, base, e);
    NoChangeFor(v, plan, e);
    SettledAgain(w.Sight(), e, w.Its(e).value);
  }

  /** A change to an item is offered again exactly when it failed, as it was. */
  lemma AgainAltered(v: View, plan: Carrying, done: set<Source>, failed: set<Source>, after: seq<Item>, base: Base, e: Entry, p: Change)
    requires Afterwards(v, plan, done, failed, after, base)
    requires ForEntry(v, e, p) && v.Its(e).Some?
    ensures Again(v, base, after).ChangesOf(e) == if e.source in failed then [p] else []
  {
    var w := Again(v, base, after);
    AgainItsItem(v, plan, done, failed, after, base, e);
    var c := ItsChange(v, plan, e, p);
    EntryChangeIs(v, e, p);
    WhenDone(plan, done, failed, c);
    ChosenBase(v, plan, failed, base, e, c);
    if e.source in failed {
      AlteredAgain(v.Sight(), w.Sight(), e, v.Its(e).value, w.Its(e).value, p);
    } else {
      SettledAgain(w.Sight(), e, w.Its(e).value);
    }
  }

  lemma NoChangeFor(v: View, plan: Carrying, e: Entry)
    requires ValidView(v) && Picked(v, plan.changes) && OwnSides(v, plan.changes) && e in v.entries && v.ChangesOf(e) == []
    ensures forall c | c in plan.changes :: c.source != e.source
  {
    forall c | c in plan.changes ensures c.source != e.source {
      if c.source == e.source {
        assert IsPlanned(v, c);
        var p :| p in v.Changes() && SamePlan(p, c);
        PlannedForEntry(v, e, p);
      }
    }
  }

  /** The change planned for an entry. */
  lemma PlannedForEntry(v: View, e: Entry, p: Change)
    requires ValidView(v) && e in v.entries && p in v.Changes() && p.source == e.source
    ensures ForEntry(v, e, p)
  {
    ChangesAre(v, p);
    forall x ensures !ForGone(v, x, p) {
      if ForGone(v, x, p) {
        GoneChangeIs(v, x, p);
      }
    }
    var d :| ForEntry(v, d, p);
    EntryChangeIs(v, d, p);
  }

  /** A change for an entry of a side is of that side. */
  ghost predicate OwnSides(v: View, changes: seq<Change>) {
    forall c, e | c in changes && e in v.entries && c.source == e.source :: c.folder == v.folder
  }

  lemma AlteredAgain(s: Sight, t: Sight, e: Entry, x: Item, y: Item, p: Change)
    requires AlteredChange(s, e, x) == [p] && s.folder == t.folder
    requires y == x.(origin := Some(e.source))
    requires BaseAt(t.base, e.source) == p.base
    ensures AlteredChange(t, e, y) == [p]
  {
  }
}
