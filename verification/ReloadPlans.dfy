/**
 What a plan says of each entry and item, and which changes it takes unasked, told
 from the config's entries, the base and the items alone.
 */
module ReloadPlans {
  import opened Paths
  import opened Specs
  import opened Orders
  import opened Reload
  import opened ReloadPlanned
  import opened ReloadSteps

  // ----- Whose item an item is -----

  ghost predicate HasEntry(v: View, source: Source) {
    exists e | e in v.entries :: e.source == source
  }

  /** An entry's item is from it; or, when none is, at its path and from an entry that the config no longer has. */
  ghost predicate IsItemOf(v: View, e: Entry, x: Item) {
    && x in v.items
    && (x.origin == Some(e.source) ||
        (x.path == e.path && x.origin.Some? && !HasEntry(v, x.origin.value)
         && forall y | y in v.items :: y.origin != Some(e.source)))
  }

  ghost predicate HasNoItem(v: View, e: Entry) {
    forall x | x in v.items :: !IsItemOf(v, e, x)
  }

  /** One of the runner's own, at the entry's path, has the entry's definition; of a folder its path is enough. */
  ghost predicate SaysAlready(v: View, e: Entry, x: Item) {
    && x in v.items && x.origin.None? && x.path == e.path
    && (v.folder || (x.spec.Some? && Changed(x.spec.value, e.spec) == {}))
  }

  lemma InConfigHas(v: View, source: Source)
    ensures source in v.InConfig() <==> HasEntry(v, source)
  {
  }

  lemma ItsIs(v: View, e: Entry, x: Item)
    requires ValidView(v) && e in v.entries
    ensures v.Its(e) == Some(x) <==> IsItemOf(v, e, x)
  {
    ItsItem(v, e);
    BySourceHas(v.items, x);
    GoneHas(v.items, v.InConfig(), x);
    if x.origin.Some? {
      InConfigHas(v, x.origin.value);
    }
    if v.Its(e).Some? {
      BySourceHas(v.items, v.Its(e).value);
    }
  }

  lemma NoneIsIts(v: View, e: Entry)
    requires ValidView(v) && e in v.entries
    ensures v.Its(e).None? <==> HasNoItem(v, e)
  {
    forall x | x in v.items ensures v.Its(e) == Some(x) <==> IsItemOf(v, e, x) {
      ItsIs(v, e, x);
    }
    ItsItem(v, e);
  }

  lemma WrittenIs(v: View, e: Entry, x: Item)
    requires ValidView(v)
    ensures IsWritten(v.Sight(), e) && v.Sight().own[e.path] == x <==> SaysAlready(v, e, x)
  {
    WrittenItem(v, e);
    if e.path in v.Sight().own {
      OwnHas(v.items, v.folder, v.Sight().own[e.path]);
    }
  }

  // ----- What each change says -----

  /** A removal: a folder's is taken; a task's, when it is as it was last accepted, and not at work. */
  ghost predicate RemovalOf(v: View, x: Item, p: Change) {
    && x in v.items && x.origin.Some? && !HasEntry(v, x.origin.value)
    && (forall e | e in v.entries :: !IsItemOf(v, e, x))
    && var source := x.origin.value;
       var edited := source !in v.base || Changed(SpecOf(x), v.base[source]) != {};
       p == Change(Removed, v.folder, x.path, map[],
                   v.folder || (!edited && !x.active),
                   if v.folder || (!edited && !x.active) then None else if edited then Some(WasChangedHere) else Some(Running),
                   false, Some(x.id), source, None, BaseAt(v.base, source), None)
  }

  /** An addition: taken, unless the base has the entry, which was then removed here. */
  ghost predicate AdditionOf(v: View, e: Entry, p: Change) {
    && e in v.entries && HasNoItem(v, e) && (forall x | x in v.items :: !SaysAlready(v, e, x))
    && var known := e.source in v.base;
       p == Change(if known then RemovedHere else Added, v.folder, e.path, map[], !known,
                   if known then Some(WasRemovedHere) else None,
                   false, None, e.source, Some(e.spec), BaseAt(v.base, e.source), None)
  }

  /** One of the runner's own that the config says by now: taken. */
  ghost predicate WritingOf(v: View, e: Entry, x: Item, p: Change) {
    && e in v.entries && HasNoItem(v, e) && SaysAlready(v, e, x)
    && p == Change(Written, v.folder, e.path, map[], true, None, false, Some(x.id), e.source, Some(e.spec), None, None)
  }

  /** What the entry said when it was last accepted; an entry the base lacks, what it says now. */
  function Accepted(v: View, e: Entry, x: Item): Spec {
    if x.origin.Some? && x.origin.value in v.base then v.base[x.origin.value] else e.spec
  }

  ghost predicate Differs(a: Spec, b: Spec, key: string) {
    ValueAt(a, key) != ValueAt(b, key)
  }

  /** The config moved at a key, away from the base and from what is here. */
  ghost predicate MovedAt(v: View, e: Entry, x: Item, key: string) {
    key != ENV && Differs(e.spec, Accepted(v, e, x), key) && Differs(e.spec, SpecOf(x), key)
  }

  /** The field at a key: a conflict, and left, where here moved away from the base too. */
  function FieldAt(v: View, e: Entry, x: Item, key: string): Field {
    var (was, here, config) := (ValueAt(Accepted(v, e, x), key), ValueAt(SpecOf(x), key), ValueAt(e.spec, key));
    Field(was, here, config, here != was, here == was)
  }

  /** A field for each key the config moved at, and no other. */
  ghost predicate FieldsOf(v: View, e: Entry, x: Item, fields: map<string, Field>) {
    && (forall key :: key in fields <==> MovedAt(v, e, x, key))
    && (forall key | key in fields :: fields[key] == FieldAt(v, e, x, key))
  }

  /** A changed entry: taken when the config moved at some key and here did not, and a conflict when both did at some key. */
  ghost predicate AlterationOf(v: View, e: Entry, x: Item, p: Change) {
    && e in v.entries && IsItemOf(v, e, x)
    && (exists key :: MovedAt(v, e, x, key)) && FieldsOf(v, e, x, p.fields)
    && var was := Accepted(v, e, x);
       p == Change(Altered, v.folder, x.path, p.fields,
                   exists key :: MovedAt(v, e, x, key) && !Differs(SpecOf(x), was, key),
                   if exists key :: MovedAt(v, e, x, key) && Differs(SpecOf(x), was, key) then Some(Conflict) else None,
                   false, Some(x.id), e.source, Some(e.spec), Some(was), None)
  }

  // ----- These are the changes -----

  lemma RemovalIs(v: View, x: Item, p: Change)
    requires ValidView(v)
    ensures ForGone(v, x, p) <==> RemovalOf(v, x, p)
  {
    if x in v.items && x.origin.Some? {
      InConfigHas(v, x.origin.value);
      if Gone(x, v.InConfig()) {
        AdoptsIts(v, x);
        forall e | e in v.entries ensures v.Its(e) == Some(x) <==> IsItemOf(v, e, x) {
          ItsIs(v, e, x);
        }
      }
    }
  }

  lemma MergeIs(v: View, e: Entry, x: Item)
    ensures FieldsOf(v, e, x, Merge(Accepted(v, e, x), SpecOf(x), e.spec))
  {
    var fields := Merge(Accepted(v, e, x), SpecOf(x), e.spec);
    forall key
      ensures key in fields <==> MovedAt(v, e, x, key)
      ensures key in fields ==> fields[key] == FieldAt(v, e, x, key)
    {
      if key == ENV {
        ChangedAt(Accepted(v, e, x), e.spec, ENV);
        ChangedAt(Accepted(v, e, x), SpecOf(x), ENV);
      } else {
        MergeLists(Accepted(v, e, x), SpecOf(x), e.spec, key);
      }
    }
  }

  lemma OneWayToSay(v: View, e: Entry, x: Item, a: map<string, Field>, b: map<string, Field>)
    requires FieldsOf(v, e, x, a) && FieldsOf(v, e, x, b)
    ensures a == b
  {
  }

  lemma FieldsTaken(v: View, e: Entry, x: Item, fields: map<string, Field>)
    requires FieldsOf(v, e, x, fields)
    ensures (exists key | key in fields :: fields[key].take) <==>
            exists key :: MovedAt(v, e, x, key) && !Differs(SpecOf(x), Accepted(v, e, x), key)
    ensures (exists key | key in fields :: fields[key].conflict) <==>
            exists key :: MovedAt(v, e, x, key) && Differs(SpecOf(x), Accepted(v, e, x), key)
    ensures fields == map[] <==> forall key :: !MovedAt(v, e, x, key)
  {
    if key :| MovedAt(v, e, x, key) && !Differs(SpecOf(x), Accepted(v, e, x), key) {
      assert key in fields && fields[key].take;
    }
    if key :| MovedAt(v, e, x, key) && Differs(SpecOf(x), Accepted(v, e, x), key) {
      assert key in fields && fields[key].conflict;
    }
  }

  /** The change that some fields make. */
  ghost function AlterationWith(v: View, e: Entry, x: Item, fields: map<string, Field>): Change {
    Change(Altered, v.folder, x.path, fields,
           exists key | key in fields :: fields[key].take,
           if exists key | key in fields :: fields[key].conflict then Some(Conflict) else None,
           false, Some(x.id), e.source, Some(e.spec), Some(Accepted(v, e, x)), None)
  }

  lemma AlteredForm(v: View, e: Entry, x: Item)
    ensures var fields := Merge(Accepted(v, e, x), SpecOf(x), e.spec);
            AlteredChange(v.Sight(), e, x) == if fields == map[] then [] else [AlterationWith(v, e, x, fields)]
  {
  }

  lemma AlterationForm(v: View, e: Entry, x: Item, p: Change)
    requires FieldsOf(v, e, x, p.fields) && e in v.entries && IsItemOf(v, e, x)
    ensures AlterationOf(v, e, x, p) <==> p.fields != map[] && p == AlterationWith(v, e, x, p.fields)
  {
    FieldsTaken(v, e, x, p.fields);
  }

  lemma AlteredIs(v: View, e: Entry, x: Item, p: Change)
    requires e in v.entries && IsItemOf(v, e, x)
    ensures AlteredChange(v.Sight(), e, x) == [p] <==> AlterationOf(v, e, x, p)
  {
    var fields := Merge(Accepted(v, e, x), SpecOf(x), e.spec);
    MergeIs(v, e, x);
    AlteredForm(v, e, x);
    if AlterationOf(v, e, x, p) {
      OneWayToSay(v, e, x, fields, p.fields);
    }
    if p.fields == fields {
      AlterationForm(v, e, x, p);
    }
  }

  lemma NewIs(v: View, e: Entry, p: Change)
    requires ValidView(v) && e in v.entries && HasNoItem(v, e)
    ensures p == NewChange(v.Sight(), e) <==> AdditionOf(v, e, p) || exists x :: WritingOf(v, e, x, p)
  {
    forall x ensures IsWritten(v.Sight(), e) && v.Sight().own[e.path] == x <==> SaysAlready(v, e, x) {
      WrittenIs(v, e, x);
    }
    if IsWritten(v.Sight(), e) {
      assert SaysAlready(v, e, v.Sight().own[e.path]);
      assert p == NewChange(v.Sight(), e) ==> WritingOf(v, e, v.Sight().own[e.path], p);
    }
  }

  ghost predicate ChangeOf(v: View, e: Entry, p: Change) {
    AdditionOf(v, e, p) || (exists x :: WritingOf(v, e, x, p)) || (exists x :: AlterationOf(v, e, x, p))
  }

  lemma EntryChangeIff(v: View, e: Entry, p: Change)
    requires ValidView(v) && e in v.entries
    ensures ForEntry(v, e, p) <==> ChangeOf(v, e, p)
  {
    NoneIsIts(v, e);
    if HasNoItem(v, e) {
      NewIs(v, e, p);
    } else {
      var x := v.Its(e).value;
      ItsIs(v, e, x);
      AlteredIs(v, e, x, p);
      forall y | IsItemOf(v, e, y) ensures y == x {
        ItsIs(v, e, y);
      }
    }
  }

  /** A side's changes are exactly these. */
  lemma PlannedIff(v: View, p: Change)
    requires ValidView(v)
    ensures p in v.Changes() <==> (exists e :: ChangeOf(v, e, p)) || exists x :: RemovalOf(v, x, p)
  {
    ChangesAre(v, p);
    forall e ensures ForEntry(v, e, p) <==> ChangeOf(v, e, p) {
      if e in v.entries {
        EntryChangeIff(v, e, p);
      }
    }
    forall x ensures ForGone(v, x, p) <==> RemovalOf(v, x, p) {
      RemovalIs(v, x, p);
    }
  }

  /** The items taken over: those at the path of an entry that has none of its own, from an entry that is gone. */
  lemma TakenOverIff(v: View, a: (nat, Source))
    requires ValidView(v)
    ensures a in v.Adoptions() <==>
            exists e, x :: e in v.entries && IsItemOf(v, e, x) && x.origin != Some(e.source) && a == (x.id, e.source)
  {
    AdoptionIs(v, a);
    forall e, x | e in v.entries ensures v.Its(e) == Some(x) <==> IsItemOf(v, e, x) {
      ItsIs(v, e, x);
    }
    if e :| e in v.entries && TakesOver(v, e, a) {
      assert IsItemOf(v, e, v.Its(e).value);
    }
    if e, x :| e in v.entries && IsItemOf(v, e, x) && x.origin != Some(e.source) && a == (x.id, e.source) {
      assert TakesOver(v, e, a);
    }
  }

  // ----- The order they come in -----

  function SourceList(changes: seq<Change>): seq<Source> {
    seq(|changes|, i requires 0 <= i < |changes| => changes[i].source)
  }

  function EntryList(entries: seq<Entry>): seq<Source> {
    seq(|entries|, i requires 0 <= i < |entries| => entries[i].source)
  }

  /** The changes for entries come in the config's order. */
  lemma {:induction false} EntryChangesInOrder(sight: Sight, moved: map<Path, Item>, entries: seq<Entry>, n: nat)
    requires DistinctSources(entries) && n <= |entries|
    ensures var changes := EntryChanges(sight, moved, entries[..n]);
            && (forall p | p in changes :: exists k | 0 <= k < n :: entries[k].source == p.source)
            && Agrees(SourceList(changes), EntryList(entries))
  {
    if n > 0 {
      EntryChangesInOrder(sight, moved, entries, n - 1);
      OneEntryMore(sight, moved, entries, n - 1);
      OneOfEntry(sight, moved, entries[n - 1]);
      OneLater(EntryChanges(sight, moved, entries[..n - 1]), EntryChange(sight, moved, entries[n - 1]), entries, n - 1);
    }
  }

  lemma OneOfEntry(sight: Sight, moved: map<Path, Item>, e: Entry)
    ensures |EntryChange(sight, moved, e)| <= 1
    ensures forall p | p in EntryChange(sight, moved, e) :: p.source == e.source
  {
  }

  lemma OneLater(before: seq<Change>, more: seq<Change>, entries: seq<Entry>, n: nat)
    requires DistinctSources(entries) && n < |entries| && Agrees(SourceList(before), EntryList(entries))
    requires forall p | p in before :: exists k | 0 <= k < n :: entries[k].source == p.source
    requires |more| <= 1 && forall p | p in more :: p.source == entries[n].source
    ensures Agrees(SourceList(before + more), EntryList(entries))
  {
    var (all, order) := (SourceList(before + more), EntryList(entries));
    assert Distinct(order);
    IndexInDistinct(order, n);
    forall i, j | 0 <= i < j < |all| && all[i] in order && all[j] in order
      ensures IndexOf(order, all[i]) < IndexOf(order, all[j])
    {
      if j < |before| {
        assert SourceList(before)[i] == all[i] && SourceList(before)[j] == all[j];
      } else {
        assert before[i] in before;
        var k :| 0 <= k < n && entries[k].source == before[i].source;
        IndexInDistinct(order, k);
        assert (before + more)[j] in more;
      }
    }
  }

  /** A side's changes for entries come in the config's order, and its removals after them. */
  lemma PlannedInOrder(v: View)
    requires ValidView(v) && DistinctSources(v.entries)
    ensures Agrees(SourceList(v.Changes()), EntryList(v.entries))
    ensures forall i, j | 0 <= i < j < |v.Changes()| && v.Changes()[i].kind == Removed :: v.Changes()[j].kind == Removed
  {
    var entered := EntryChanges(v.Sight(), v.Moved(), v.entries);
    var removed := RemovedChanges(v.Sight(), v.Adopts(), v.items);
    EntryChangesInOrder(v.Sight(), v.Moved(), v.entries, |v.entries|);
    assert v.entries[..|v.entries|] == v.entries;
    KindsApart(v);
    OthersAfter(entered, removed, EntryList(v.entries));
    RemovedAfter(entered, removed);
    assert v.Changes() == entered + removed;
  }

  lemma KindsApart(v: View)
    ensures forall p | p in RemovedChanges(v.Sight(), v.Adopts(), v.items) :: p.kind == Removed && p.source !in EntryList(v.entries)
    ensures forall p | p in EntryChanges(v.Sight(), v.Moved(), v.entries) :: p.kind != Removed
  {
    forall p | p in RemovedChanges(v.Sight(), v.Adopts(), v.items) ensures p.kind == Removed && p.source !in v.InConfig() {
      RemovedChangesHave(v.Sight(), v.Adopts(), v.items, p);
    }
    forall s | s in EntryList(v.entries) ensures s in v.InConfig() {
    }
    forall p | p in EntryChanges(v.Sight(), v.Moved(), v.entries) ensures p.kind != Removed {
      EntryChangesHave(v.Sight(), v.Moved(), v.entries, p);
    }
  }

  lemma RemovedAfter(entered: seq<Change>, removed: seq<Change>)
    requires (forall p | p in entered :: p.kind != Removed) && (forall p | p in removed :: p.kind == Removed)
    ensures var all := entered + removed;
            forall i, j | 0 <= i < j < |all| && all[i].kind == Removed :: all[j].kind == Removed
  {
    var all := entered + removed;
    forall i | 0 <= i < |all| ensures all[i].kind == Removed <==> i >= |entered| {
      assert all[i] == if i < |entered| then entered[i] else removed[i - |entered|];
    }
  }

  lemma OthersAfter(entered: seq<Change>, removed: seq<Change>, order: seq<Source>)
    requires Agrees(SourceList(entered), order) && forall p | p in removed :: p.source !in order
    ensures Agrees(SourceList(entered + removed), order)
  {
    var all := SourceList(entered + removed);
    forall i | |entered| <= i < |all| ensures all[i] !in order {
      assert (entered + removed)[i] == removed[i - |entered|];
    }
    forall i, j | 0 <= i < j < |all| && all[i] in order && all[j] in order
      ensures IndexOf(order, all[i]) < IndexOf(order, all[j])
    {
      assert SourceList(entered)[i] == all[i] && SourceList(entered)[j] == all[j];
    }
  }
}
