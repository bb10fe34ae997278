/**
 The steps of a reload carry its plan out: one for each change that has an
 act, each once, whatever the user chose.
 */
module ReloadSteps {
  import opened Paths
  import opened Specs
  import opened Reload
  import opened ReloadChoices
  import opened ReloadRun
  import opened ReloadKeeps
  import opened ReloadDone
  import opened ReloadPlanned

  // ----- What the user chose of a plan -----

  /** A change as planned, but for what the user may choose and the marks that go with it. */
  predicate SamePlan(p: Change, c: Change) {
    && c.kind == p.kind && c.folder == p.folder && c.path == p.path
    && c.task == p.task && c.source == p.source && c.config == p.config && c.base == p.base
    && c.fields.Keys == p.fields.Keys
  }

  /** A plan's changes with any choices made of them. */
  predicate ChosenFrom(planned: seq<Change>, chosen: seq<Change>) {
    |planned| == |chosen| &&
    forall i {:trigger SamePlan(planned[i], chosen[i])} | 0 <= i < |chosen| :: SamePlan(planned[i], chosen[i]) && !chosen[i].failed
  }

  /** A change chosen, and the one planned that it is the choice of. */
  lemma ChoiceOfPlanned(planned: seq<Change>, chosen: seq<Change>, i: nat)
    requires ChosenFrom(planned, chosen) && i < |chosen|
    ensures |planned| == |chosen| && planned[i] in planned && SamePlan(planned[i], chosen[i]) && !chosen[i].failed
  {
    assert SamePlan(planned[i], chosen[i]);
  }

  lemma NoneFailedYet(planned: seq<Change>, chosen: seq<Change>)
    requires ChosenFrom(planned, chosen)
    ensures forall c | c in chosen :: !c.failed
  {
    forall i | 0 <= i < |chosen| ensures !chosen[i].failed {
      ChoiceOfPlanned(planned, chosen, i);
    }
  }

  function ViewOf(config: Config, base: Base, live: Live, folder: bool): View {
    View(folder, EntriesOf(config.entries, folder), base, Side(live, folder))
  }

  lemma {:induction false} EntriesOfHas(entries: seq<Entry>, folder: bool)
    ensures forall e :: e in EntriesOf(entries, folder) <==> e in entries && e.source.IsFolder() == folder
    ensures DistinctSources(entries) ==> DistinctSources(EntriesOf(entries, folder))
  {
    if entries != [] {
      var last := |entries| - 1;
      EntriesOfHas(entries[..last], folder);
      assert forall e :: e in entries <==> e in entries[..last] || e == entries[last];
      var rest := EntriesOf(entries[..last], folder);
      if DistinctSources(entries) {
        forall i | 0 <= i < |rest| ensures rest[i].source != entries[last].source {
          assert rest[i] in entries[..last];
        }
      }
    }
  }

  lemma DistinctIsOne(entries: seq<Entry>)
    requires DistinctSources(entries) && DistinctPaths(entries)
    ensures OneEach(entries)
  {
  }

  lemma ViewIsValid(config: Config, base: Base, live: Live, folder: bool)
    requires ValidConfig(config) && ValidLive(live)
    ensures var v := ViewOf(config, base, live, folder);
            ValidView(v) && DistinctSources(v.entries) && ValidSide(v.items, folder)
  {
    EntriesOfHas(config.entries, folder);
    DistinctIsOne(EntriesOf(config.entries, folder));
    ValidIsUnique(Side(live, folder), folder);
  }

  lemma PlannedSides(config: Config, base: Base, live: Live)
    ensures PlannedChanges(config, base, live) ==
            ViewOf(config, base, live, false).Changes() + ViewOf(config, base, live, true).Changes()
    ensures PlannedAdoptions(config, base, live) ==
            ViewOf(config, base, live, false).Adoptions() + ViewOf(config, base, live, true).Adoptions()
  {
  }

  lemma PlannedOfSide(config: Config, base: Base, live: Live, p: Change)
    requires ValidConfig(config) && ValidLive(live) && p in PlannedChanges(config, base, live)
    ensures p in ViewOf(config, base, live, p.folder).Changes()
  {
    var (v, w) := (ViewOf(config, base, live, false), ViewOf(config, base, live, true));
    PlannedSides(config, base, live);
    if p in v.Changes() {
      ViewIsValid(config, base, live, false);
      ChangeItem(v, p);
    } else {
      ViewIsValid(config, base, live, true);
      ChangeItem(w, p);
    }
  }

  lemma PlannedOnce(config: Config, base: Base, live: Live, p: Change, q: Change)
    requires ValidConfig(config) && ValidLive(live)
    requires p in PlannedChanges(config, base, live) && q in PlannedChanges(config, base, live)
    requires p.source == q.source || (p.task.Some? && p.task == q.task)
    ensures p == q
  {
    var (v, w) := (ViewOf(config, base, live, p.folder), ViewOf(config, base, live, q.folder));
    ViewIsValid(config, base, live, p.folder);
    ViewIsValid(config, base, live, q.folder);
    PlannedOfSide(config, base, live, p);
    PlannedOfSide(config, base, live, q);
    ChangeItem(v, p);
    ChangeItem(w, q);
    if p.folder == q.folder {
      OneChangeEach(v, p, q);
    }
  }

  lemma PlannedDistinct(config: Config, base: Base, live: Live)
    requires ValidConfig(config) && ValidLive(live)
    ensures DistinctChanges(PlannedChanges(config, base, live))
  {
    var (v, w) := (ViewOf(config, base, live, false), ViewOf(config, base, live, true));
    ViewIsValid(config, base, live, false);
    ViewIsValid(config, base, live, true);
    SideDistinct(v);
    SideDistinct(w);
    forall p | p in v.Changes() ensures !p.source.IsFolder() { ChangeItem(v, p); }
    forall p | p in w.Changes() ensures p.source.IsFolder() { ChangeItem(w, p); }
  }

  /** Whatever was chosen, each change is for an entry and an item of its own. */
  lemma ChosenIsCoherent(config: Config, base: Base, live: Live, chosen: seq<Change>)
    requires ValidConfig(config) && ValidLive(live)
    requires ChosenFrom(PlannedChanges(config, base, live), chosen)
    ensures Coherent(chosen, live)
  {
    var planned := PlannedChanges(config, base, live);
    PlannedDistinct(config, base, live);
    forall i, j | 0 <= i < |chosen| && 0 <= j < |chosen|
      ensures chosen[i].source == chosen[j].source || (chosen[i].task.Some? && chosen[i].task == chosen[j].task) ==> i == j
    {
      ChoiceOfPlanned(planned, chosen, i);
      ChoiceOfPlanned(planned, chosen, j);
      if chosen[i].source == chosen[j].source || (chosen[i].task.Some? && chosen[i].task == chosen[j].task) {
        PlannedOnce(config, base, live, planned[i], planned[j]);
      }
    }
    forall i | 0 <= i < |chosen|
      ensures chosen[i].task.Some? <==> !IsNew(chosen[i])
      ensures chosen[i].kind != Removed ==> chosen[i].config.Some?
      ensures chosen[i].task.Some? ==> exists x :: ItemOf(chosen[i], live, x)
    {
      ChoiceOfPlanned(planned, chosen, i);
      ChosenItem(config, base, live, planned[i], chosen[i]);
    }
  }

  lemma ChosenItem(config: Config, base: Base, live: Live, p: Change, c: Change)
    requires ValidConfig(config) && ValidLive(live) && p in PlannedChanges(config, base, live) && SamePlan(p, c)
    ensures (c.task.Some? <==> !IsNew(c)) && (c.kind != Removed ==> c.config.Some?)
    ensures c.task.Some? ==> exists x :: ItemOf(c, live, x)
  {
    PlannedOfSide(config, base, live, p);
    ViewIsValid(config, base, live, p.folder);
    ChangeItem(ViewOf(config, base, live, p.folder), p);
    if c.task.Some? {
      var x :| x in Side(live, p.folder) && p.task == Some(x.id) && p.path == x.path;
      assert ItemOf(c, live, x);
    }
  }

  // ----- The adoptions -----

  /** An entry takes an item over. */
  ghost predicate TakesOver(v: View, e: Entry, a: (nat, Source)) {
    v.Its(e).Some? && v.Its(e).value.origin != Some(e.source) && a == (v.Its(e).value.id, e.source)
  }

  lemma AdoptionOf(v: View, e: Entry, a: (nat, Source))
    ensures a in EntryAdoption(v.Sight(), v.Moved(), e) <==> TakesOver(v, e, a)
  {
  }

  lemma {:induction false} AdoptionsHave(v: View, n: nat, a: (nat, Source))
    requires n <= |v.entries|
    ensures a in Adoptions(v.Sight(), v.Moved(), v.entries[..n]) <==>
            exists i | 0 <= i < n :: TakesOver(v, v.entries[i], a)
  {
    if n > 0 {
      AdoptionsHave(v, n - 1, a);
      AdoptionsMore(v, n - 1, a);
    }
  }

  lemma AdoptionsMore(v: View, n: nat, a: (nat, Source))
    requires n < |v.entries|
    ensures a in Adoptions(v.Sight(), v.Moved(), v.entries[..n + 1]) <==>
            a in Adoptions(v.Sight(), v.Moved(), v.entries[..n]) || TakesOver(v, v.entries[n], a)
  {
    OneEntryMore(v.Sight(), v.Moved(), v.entries, n);
    AdoptionOf(v, v.entries[n], a);
  }

  lemma AdoptionIs(v: View, a: (nat, Source))
    ensures a in v.Adoptions() <==> exists e | e in v.entries :: TakesOver(v, e, a)
  {
    AdoptionsHave(v, |v.entries|, a);
    assert v.entries[..|v.entries|] == v.entries;
    if e :| e in v.entries && TakesOver(v, e, a) {
      var i :| 0 <= i < |v.entries| && v.entries[i] == e;
    }
  }

  predicate DistinctIds(adopt: seq<(nat, Source)>) {
    forall i, j | 0 <= i < j < |adopt| :: adopt[i].0 != adopt[j].0
  }

  lemma OneTakesOver(v: View, d: Entry, e: Entry, a: (nat, Source), b: (nat, Source))
    requires ValidView(v) && d in v.entries && e in v.entries
    requires TakesOver(v, d, a) && TakesOver(v, e, b) && a.0 == b.0
    ensures d == e
  {
    ItsItem(v, d);
    ItsItem(v, e);
    ItemOfOne(v, d, e);
  }

  /** An entry takes over no item that one before it does. */
  lemma AnotherItem(v: View, n: nat, a: (nat, Source), b: (nat, Source))
    requires ValidView(v) && n < |v.entries| && DistinctSources(v.entries)
    requires a in Adoptions(v.Sight(), v.Moved(), v.entries[..n]) && TakesOver(v, v.entries[n], b)
    ensures a.0 != b.0
  {
    AdoptionsHave(v, n, a);
    var i :| 0 <= i < n && TakesOver(v, v.entries[i], a);
    if a.0 == b.0 {
      OneTakesOver(v, v.entries[i], v.entries[n], a, b);
    }
  }

  lemma OtherItems(v: View, n: nat)
    requires ValidView(v) && n < |v.entries| && DistinctSources(v.entries)
    ensures forall a, b | a in Adoptions(v.Sight(), v.Moved(), v.entries[..n]) &&
                          b in EntryAdoption(v.Sight(), v.Moved(), v.entries[n]) :: a.0 != b.0
  {
    forall a, b | a in Adoptions(v.Sight(), v.Moved(), v.entries[..n]) &&
                  b in EntryAdoption(v.Sight(), v.Moved(), v.entries[n])
      ensures a.0 != b.0
    {
      AdoptionOf(v, v.entries[n], b);
      AnotherItem(v, n, a, b);
    }
  }

  lemma DistinctSum(rest: seq<(nat, Source)>, more: seq<(nat, Source)>)
    requires DistinctIds(rest) && |more| <= 1 && forall a, b | a in rest && b in more :: a.0 != b.0
    ensures DistinctIds(rest + more)
  {
  }

  lemma OneMoreDistinct(v: View, n: nat)
    requires ValidView(v) && n < |v.entries| && DistinctSources(v.entries)
    requires DistinctIds(Adoptions(v.Sight(), v.Moved(), v.entries[..n]))
    ensures DistinctIds(Adoptions(v.Sight(), v.Moved(), v.entries[..n + 1]))
  {
    OneEntryMore(v.Sight(), v.Moved(), v.entries, n);
    OtherItems(v, n);
    DistinctSum(Adoptions(v.Sight(), v.Moved(), v.entries[..n]), EntryAdoption(v.Sight(), v.Moved(), v.entries[n]));
  }

  lemma {:induction false} AdoptionsDistinct(v: View, n: nat)
    requires ValidView(v) && n <= |v.entries| && DistinctSources(v.entries)
    ensures DistinctIds(Adoptions(v.Sight(), v.Moved(), v.entries[..n]))
  {
    if n > 0 {
      AdoptionsDistinct(v, n - 1);
      OneMoreDistinct(v, n - 1);
    }
  }

  lemma AdoptionItem(v: View, a: (nat, Source)) returns (e: Entry)
    requires ValidView(v) && a in v.Adoptions()
    ensures e in v.entries && TakesOver(v, e, a) && v.Its(e).value in v.items
  {
    AdoptionIs(v, a);
    e :| e in v.entries && TakesOver(v, e, a);
    ItsItem(v, e);
  }

  lemma SideAdoptionsCohere(v: View)
    requires ValidView(v) && DistinctSources(v.entries)
    ensures DistinctIds(v.Adoptions())
    ensures forall a | a in v.Adoptions() :: exists x | x in v.items :: x.id == a.0
  {
    AdoptionsDistinct(v, |v.entries|);
    assert v.entries[..|v.entries|] == v.entries;
    forall a | a in v.Adoptions() ensures exists x | x in v.items :: x.id == a.0 {
      var e := AdoptionItem(v, a);
    }
  }

  /** An entry takes over one item at most, and that item is here. */
  lemma PlannedAdoptionsCohere(config: Config, base: Base, live: Live)
    requires ValidConfig(config) && ValidLive(live)
    ensures CoherentAdoptions(PlannedAdoptions(config, base, live), live)
  {
    var (v, w) := (ViewOf(config, base, live, false), ViewOf(config, base, live, true));
    ViewIsValid(config, base, live, false);
    ViewIsValid(config, base, live, true);
    SideAdoptionsCohere(v);
    SideAdoptionsCohere(w);
    forall a, b | a in v.Adoptions() && b in w.Adoptions() ensures a.0 != b.0 {
      var x :| x in v.items && x.id == a.0;
      var y :| y in w.items && y.id == b.0;
    }
  }

  /** What an item is from, once the entries taken over are: its entry, if it is an entry's. */
  lemma TakenOrigin(config: Config, base: Base, live: Live, folder: bool, x: Item)
    requires ValidConfig(config) && ValidLive(live) && x in Side(live, folder)
    ensures var v := ViewOf(config, base, live, folder);
            var taken := SourceOf(PlannedAdoptions(config, base, live), x);
            && (forall e | e in v.entries && v.Its(e) == Some(x) :: taken == Some(e.source))
            && ((forall e | e in v.entries :: v.Its(e) != Some(x)) ==> taken == x.origin)
  {
    var adopt := PlannedAdoptions(config, base, live);
    var (v, w) := (ViewOf(config, base, live, folder), ViewOf(config, base, live, !folder));
    ViewIsValid(config, base, live, folder);
    ViewIsValid(config, base, live, !folder);
    SideAdoptionsCohere(w);
    forall a | a in w.Adoptions() ensures a.0 != x.id {
      var y :| y in w.items && y.id == a.0;
    }
    NotAdopted(adopt, x.id);
    if AdoptedSource(adopt, x.id).Some? {
      TakenOver(v, x, AdoptedSource(adopt, x.id).value);
    } else {
      forall e | e in v.entries && v.Its(e) == Some(x) ensures x.origin == Some(e.source) {
        if x.origin != Some(e.source) {
          AdoptionIs(v, (x.id, e.source));
          assert TakesOver(v, e, (x.id, e.source));
        }
      }
    }
  }

  lemma TakenOver(v: View, x: Item, taken: Source)
    requires ValidView(v) && x in v.items && (x.id, taken) in v.Adoptions()
    ensures exists e | e in v.entries :: v.Its(e) == Some(x)
    ensures forall e | e in v.entries && v.Its(e) == Some(x) :: taken == e.source
  {
    var e := AdoptionItem(v, (x.id, taken));
    forall d | d in v.entries && v.Its(d) == Some(x) ensures d == e {
      ItemOfOne(v, d, e);
    }
  }

  // ----- The steps carry the plan out -----

  /** The steps of one kind: each for a change of that kind, each entry once, and none left out. */
  ghost predicate Covers(steps: seq<Step>, changes: seq<Change>, kind: Kind, live: Live) {
    && (forall s | s in steps :: exists c | c in changes && c.kind == kind && ActOf(c, live, First) == Some(s.act) :: s.source == Some(c.source))
    && (forall i, j | 0 <= i < j < |steps| :: steps[i].source != steps[j].source)
    && (forall c | c in changes && c.kind == kind && ActOf(c, live, First).Some? :: exists s | s in steps :: s.source == Some(c.source))
  }

  lemma {:induction false} StepsOfCover(changes: seq<Change>, kind: Kind, live: Live)
    requires DistinctChanges(changes)
    ensures Covers(StepsOf(changes, kind, live), changes, kind, live)
  {
    if changes != [] {
      var last := |changes| - 1;
      StepsOfCover(changes[..last], kind, live);
      assert changes == changes[..last] + [changes[last]];
      forall c | c in changes[..last] ensures c.source != changes[last].source {
      }
      ghost var act := c => ActOf(c, live, First);
      CoverMore(StepsOf(changes[..last], kind, live), changes[..last], changes[last], kind, act);
    }
  }

  /** The same with what carries a change out given. */
  ghost predicate CoversBy(steps: seq<Step>, changes: seq<Change>, kind: Kind, act: Change -> Option<Act>) {
    && (forall s | s in steps :: exists c | c in changes && c.kind == kind && act(c) == Some(s.act) :: s.source == Some(c.source))
    && (forall i, j | 0 <= i < j < |steps| :: steps[i].source != steps[j].source)
    && (forall c | c in changes && c.kind == kind && act(c).Some? :: exists s | s in steps :: s.source == Some(c.source))
  }

  /** One change more, and its step if it has one. */
  lemma CoverMore(rest: seq<Step>, most: seq<Change>, last: Change, kind: Kind, act: Change -> Option<Act>)
    requires CoversBy(rest, most, kind, act) && forall c | c in most :: c.source != last.source
    ensures CoversBy(if last.kind == kind && act(last).Some? then rest + [Step(Some(last.source), act(last).value)] else rest,
                     most + [last], kind, act)
  {
    var (all, added) := (most + [last], last.kind == kind && act(last).Some?);
    var steps := if added then rest + [Step(Some(last.source), act(last).value)] else rest;
    assert last in all;
    forall s | s in rest ensures s.source != Some(last.source) {
      var c :| c in most && c.kind == kind && act(c) == Some(s.act) && s.source == Some(c.source);
    }
    forall s | s in steps ensures exists c | c in all && c.kind == kind && act(c) == Some(s.act) :: s.source == Some(c.source) {
      if s in rest {
        var c :| c in most && c.kind == kind && act(c) == Some(s.act) && s.source == Some(c.source);
        assert c in all;
      }
    }
    forall c | c in all && c.kind == kind && act(c).Some? ensures exists s | s in steps :: s.source == Some(c.source) {
      if c in most {
        var s :| s in rest && s.source == Some(c.source);
        assert s in steps;
      } else {
        assert steps[|rest|] in steps;
      }
    }
  }

  lemma {:induction false} AdditionsHave(changes: seq<Change>, at: At, c: Change)
    ensures c in Additions(changes, at) <==> c in changes && c.apply && IsNew(c) && c.source !in at
    ensures DistinctChanges(changes) ==> DistinctChanges(Additions(changes, at))
  {
    if changes != [] {
      var last := |changes| - 1;
      AdditionsHave(changes[..last], at, c);
      assert c in changes <==> c in changes[..last] || c == changes[last];
      AdditionSources(changes[..last], at);
      if DistinctChanges(changes) {
        forall a | a in Additions(changes[..last], at) ensures a.source != changes[last].source {
          var i :| 0 <= i < last && changes[i] == a;
        }
      }
    }
  }

  lemma {:induction false} AdditionSources(changes: seq<Change>, at: At)
    ensures forall a | a in Additions(changes, at) :: a in changes
  {
    if changes != [] {
      AdditionSources(changes[..|changes| - 1], at);
    }
  }

  lemma MultisetDistinct(a: seq<Change>, b: seq<Change>)
    requires multiset(a) == multiset(b) && DistinctChanges(a)
    ensures DistinctChanges(b)
  {
    forall i, j | 0 <= i < j < |b| ensures b[i].source != b[j].source {
      if b[i].source == b[j].source {
        assert b[i] in multiset(b) && b[j] in multiset(b);
        assert b[i] in a && b[j] in a;
        assert b[i] == b[j];
        assert b == b[..i] + [b[i]] + b[i + 1..j] + [b[j]] + b[j + 1..];
        assert multiset(b)[b[i]] >= 2;
        CountOnce(a, b[i]);
      }
    }
  }

  lemma {:induction false} CountOnce(a: seq<Change>, x: Change)
    requires DistinctChanges(a)
    ensures multiset(a)[x] <= 1
  {
    if a != [] {
      var last := |a| - 1;
      CountOnce(a[..last], x);
      assert a == a[..last] + [a[last]];
      if x == a[last] {
        assert x !in a[..last];
      }
    }
  }

  ghost predicate HasStepFor(steps: seq<Step>, source: Source) {
    exists s | s in steps :: s.source == Some(source)
  }

  lemma HasMore(head: seq<Step>, tail: seq<Step>, source: Source)
    requires HasStepFor(tail, source)
    ensures HasStepFor(head + tail, source)
  {
    var s :| s in tail && s.source == Some(source);
    assert s in head + tail;
  }

  /** A step carries a change out, at a place. */
  ghost predicate IsFor(s: Step, c: Change, place: Place, live: Live) {
    ActOf(c, live, place) == Some(s.act) && s.source == Some(c.source)
  }

  /** A step carries one of some changes out. */
  ghost predicate ForSome(s: Step, changes: seq<Change>, live: Live) {
    exists c, place :: c in changes && IsFor(s, c, place, live)
  }

  /** Steps for some changes: each for one of them, each entry once, and none left out. */
  ghost predicate ForAll(steps: seq<Step>, changes: seq<Change>, live: Live) {
    && (forall s | s in steps :: ForSome(s, changes, live))
    && (forall i, j | 0 <= i < j < |steps| :: steps[i].source != steps[j].source)
    && (forall c | c in changes && ActOf(c, live, First).Some? && c.config.Some? :: HasStepFor(steps, c.source))
  }

  /** The steps of the additions: each for one, at some place. */
  lemma {:induction false} AddStepsCover(adds: seq<Change>, sources: seq<Source>, at: At, live: Live)
    requires DistinctChanges(adds)
    ensures ForAll(AddSteps(adds, sources, at, live), adds, live)
  {
    if adds != [] {
      var (first, rest) := (adds[0], adds[1..]);
      var at' := if first.config.None? then at else at[first.source := first.path];
      AddStepsCover(rest, sources, at', live);
      assert adds == [first] + rest;
      forall c | c in rest ensures c.source != first.source {
      }
      if first.config.Some? {
        SomeAct(first, live, PlaceIn(sources, at, first));
      }
      OneMoreFor(AddSteps(rest, sources, at', live), first, rest, live, PlaceIn(sources, at, first));
    }
  }

  /** A step for one more change, before the others. */
  lemma OneMoreFor(tail: seq<Step>, first: Change, rest: seq<Change>, live: Live, place: Place)
    requires ForAll(tail, rest, live) && forall c | c in rest :: c.source != first.source
    requires first.config.Some? && ActOf(first, live, First).Some? ==> ActOf(first, live, place).Some?
    ensures var act := ActOf(first, live, place);
            var head := if first.config.Some? && act.Some? then [Step(Some(first.source), act.value)] else [];
            ForAll(head + tail, [first] + rest, live)
  {
    var act := ActOf(first, live, place);
    var head := if first.config.Some? && act.Some? then [Step(Some(first.source), act.value)] else [];
    forall s | s in tail ensures ForSome(s, [first] + rest, live) && s.source != Some(first.source) {
      assert ForSome(s, rest, live);
      var c, p :| c in rest && IsFor(s, c, p, live);
      assert c in [first] + rest;
    }
    if head != [] {
      assert first in [first] + rest && IsFor(head[0], first, place, live);
      assert ForSome(head[0], [first] + rest, live);
    }
    forall c | c in [first] + rest && ActOf(c, live, First).Some? && c.config.Some? ensures HasStepFor(head + tail, c.source) {
      if c == first {
        assert head[0] in head + tail;
      } else {
        assert c in rest && HasStepFor(tail, c.source);
        HasMore(head, tail, c.source);
      }
    }
  }
}
