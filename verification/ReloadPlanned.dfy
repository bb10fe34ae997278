/**
 What a plan says, entry by entry and item by item: whose each change is, and
 that no two share an entry or an item.
 */
module ReloadPlanned {
  import opened Paths
  import opened Specs
  import opened Reload
  import opened ReloadChoices
  import opened ReloadKeeps

  // ----- The items, as a set -----

  /** No two items have an id, a path or an entry in common. */
  ghost predicate Unique(items: seq<Item>) {
    && (forall x, y | x in items && y in items && x.id == y.id :: x == y)
    && (forall x, y | x in items && y in items && x.path == y.path :: x == y)
    && (forall x, y | x in items && y in items && x.origin.Some? && x.origin == y.origin :: x == y)
  }

  lemma ValidIsUnique(items: seq<Item>, folder: bool)
    requires ValidSide(items, folder)
    ensures Unique(items)
  {
    forall x, y | x in items && y in items
      ensures x.id == y.id || x.path == y.path || (x.origin.Some? && x.origin == y.origin) ==> x == y
    {
      SameId(items, folder, x, y);
    }
  }

  lemma {:induction false} BySourceHas(items: seq<Item>, x: Item)
    ensures forall s | s in BySource(items) :: BySource(items)[s] in items && BySource(items)[s].origin == Some(s)
    ensures x in items && x.origin.Some? ==> x.origin.value in BySource(items)
  {
    if items != [] {
      var last := |items| - 1;
      BySourceHas(items[..last], x);
      assert x in items ==> x in items[..last] || x == items[last];
    }
  }

  lemma {:induction false} GoneHas(items: seq<Item>, inConfig: set<Source>, x: Item)
    ensures forall p | p in GoneByPath(items, inConfig) ::
              var y := GoneByPath(items, inConfig)[p]; y in items && y.path == p && Gone(y, inConfig)
    ensures x in items && Gone(x, inConfig) ==> x.path in GoneByPath(items, inConfig)
  {
    if items != [] {
      var last := |items| - 1;
      GoneHas(items[..last], inConfig, x);
      assert x in items ==> x in items[..last] || x == items[last];
    }
  }

  lemma {:induction false} OwnHas(items: seq<Item>, folder: bool, x: Item)
    ensures forall p | p in OwnByPath(items, folder) ::
              var y := OwnByPath(items, folder)[p]; y in items && y.path == p && Own(y, folder)
    ensures x in items && Own(x, folder) ==> x.path in OwnByPath(items, folder)
  {
    if items != [] {
      var last := |items| - 1;
      OwnHas(items[..last], folder, x);
      assert x in items ==> x in items[..last] || x == items[last];
    }
  }

  // ----- One side -----

  /** One side of a comparison: the config's entries, the base, and what is here. */
  datatype View = View(folder: bool, entries: seq<Entry>, base: Base, items: seq<Item>) {
    function Sight(): Sight { See(folder, entries, base, items) }
    function InConfig(): set<Source> { SourcesOf(entries) }
    function Moved(): map<Path, Item> { GoneByPath(items, InConfig()) }
    function Its(entry: Entry): Option<Item> { ItemFor(Sight(), Moved(), entry) }
    function Adopts(): set<nat> { Adopted(Sight(), Moved(), entries) }
    function ChangesOf(entry: Entry): seq<Change> { EntryChange(Sight(), Moved(), entry) }
    function Changes(): seq<Change> { SideChanges(folder, entries, base, items) }
    function Adoptions(): seq<(nat, Source)> { SideAdoptions(folder, entries, base, items) }
  }

  /** Each entry is one, and so is its path. */
  ghost predicate OneEach(entries: seq<Entry>) {
    forall d, e | d in entries && e in entries && (d.source == e.source || d.path == e.path) :: d == e
  }

  ghost predicate ValidView(v: View) {
    && OneEach(v.entries) && Unique(v.items)
    && (forall e | e in v.entries :: e.source.IsFolder() == v.folder)
    && (forall x | x in v.items && x.origin.Some? :: x.origin.value.IsFolder() == v.folder)
  }

  /** An entry's item: the one from it, or else one at its path whose entry is gone. */
  lemma ItsItem(v: View, e: Entry)
    requires ValidView(v) && e in v.entries
    ensures v.Its(e).Some? ==>
              var x := v.Its(e).value;
              x in v.items && (x.origin == Some(e.source) || (Gone(x, v.InConfig()) && x.path == e.path))
    ensures forall x | x in v.items && x.origin == Some(e.source) :: v.Its(e) == Some(x)
    ensures v.Its(e).None? ==> forall x | x in v.items && x.path == e.path :: !Gone(x, v.InConfig())
  {
    forall x | x in v.items && x.origin == Some(e.source) ensures v.Its(e) == Some(x) {
      BySourceHas(v.items, x);
    }
    forall x | x in v.items && x.path == e.path && v.Its(e).None? ensures !Gone(x, v.InConfig()) {
      GoneHas(v.items, v.InConfig(), x);
    }
    if v.Its(e).Some? {
      BySourceHas(v.items, v.Its(e).value);
      GoneHas(v.items, v.InConfig(), v.Its(e).value);
    }
  }

  /** An item is the item of one entry at most. */
  lemma ItemOfOne(v: View, d: Entry, e: Entry)
    requires ValidView(v) && d in v.entries && e in v.entries
    requires v.Its(d).Some? && v.Its(d) == v.Its(e)
    ensures d == e
  {
    ItsItem(v, d);
    ItsItem(v, e);
  }

  lemma AdoptsIts(v: View, x: Item)
    requires ValidView(v) && x in v.items && Gone(x, v.InConfig())
    ensures x.id in v.Adopts() <==> exists e | e in v.entries :: v.Its(e) == Some(x)
  {
    if x.id in v.Adopts() {
      var e :| e in v.entries && e.source !in v.Sight().bySource && e.path in v.Moved() && v.Moved()[e.path].id == x.id;
      GoneHas(v.items, v.InConfig(), x);
      assert v.Its(e) == Some(x);
    }
    if e :| e in v.entries && v.Its(e) == Some(x) {
      ItsItem(v, e);
      BySourceHas(v.items, x);
      assert e.source in v.InConfig();
      assert e.source !in v.Sight().bySource;
    }
  }

  /** The runner's own item that an entry says. */
  lemma WrittenItem(v: View, e: Entry)
    requires ValidView(v)
    ensures IsWritten(v.Sight(), e) ==>
              var x := v.Sight().own[e.path]; x in v.items && x.path == e.path && x.origin.None?
    ensures forall x | x in v.items && Own(x, v.folder) && x.path == e.path ::
              e.path in v.Sight().own && v.Sight().own[e.path] == x
  {
    forall x | x in v.items && Own(x, v.folder) && x.path == e.path
      ensures e.path in v.Sight().own && v.Sight().own[e.path] == x
    {
      OwnHas(v.items, v.folder, x);
    }
    if e.path in v.Sight().own {
      OwnHas(v.items, v.folder, v.Sight().own[e.path]);
    }
  }

  // ----- Whose each change is -----

  /** A change for an entry. */
  ghost predicate ForEntry(v: View, e: Entry, p: Change) {
    e in v.entries && v.ChangesOf(e) == [p]
  }

  /** A change for an item whose entry is gone. */
  ghost predicate ForGone(v: View, x: Item, p: Change) {
    x in v.items && Gone(x, v.InConfig()) && x.id !in v.Adopts() && p == RemovedChange(v.Sight(), x)
  }

  lemma AtMostOne(v: View, e: Entry)
    ensures |v.ChangesOf(e)| <= 1
  {
  }

  lemma {:induction false} EntryChangesHave(sight: Sight, moved: map<Path, Item>, entries: seq<Entry>, p: Change)
    ensures p in EntryChanges(sight, moved, entries) <==>
            exists e | e in entries :: p in EntryChange(sight, moved, e)
  {
    if entries != [] {
      var last := |entries| - 1;
      EntryChangesHave(sight, moved, entries[..last], p);
      assert forall e :: e in entries <==> e in entries[..last] || e == entries[last];
    }
  }

  lemma {:induction false} RemovedChangesHave(sight: Sight, adopted: set<nat>, items: seq<Item>, p: Change)
    ensures p in RemovedChanges(sight, adopted, items) <==>
            exists x | x in items && Gone(x, sight.inConfig) && x.id !in adopted :: p == RemovedChange(sight, x)
  {
    if items != [] {
      var last := |items| - 1;
      RemovedChangesHave(sight, adopted, items[..last], p);
      assert forall x :: x in items <==> x in items[..last] || x == items[last];
    }
  }

  /** A plan's changes are those of its entries and those of the items whose entry is gone. */
  lemma ChangesAre(v: View, p: Change)
    ensures p in v.Changes() <==> (exists e :: ForEntry(v, e, p)) || (exists x :: ForGone(v, x, p))
  {
    EntryChangesHave(v.Sight(), v.Moved(), v.entries, p);
    RemovedChangesHave(v.Sight(), v.Adopts(), v.items, p);
    if e :| e in v.entries && p in v.ChangesOf(e) {
      AtMostOne(v, e);
      assert ForEntry(v, e, p);
    }
    if x :| x in v.items && Gone(x, v.InConfig()) && x.id !in v.Adopts() && p == RemovedChange(v.Sight(), x) {
      assert ForGone(v, x, p);
    }
  }

  /** What a change for an entry is, by what is here for the entry. */
  lemma EntryChangeIs(v: View, e: Entry, p: Change)
    requires ForEntry(v, e, p)
    ensures p.folder == v.folder && p.source == e.source && p.config == Some(e.spec)
    ensures v.Its(e).Some? ==> p.kind == Altered && p.task == Some(v.Its(e).value.id) && p.path == v.Its(e).value.path
    ensures v.Its(e).None? ==> p == NewChange(v.Sight(), e) && p.path == e.path
    ensures v.Its(e).None? && IsWritten(v.Sight(), e) ==> p.kind == Written && p.task == Some(v.Sight().own[e.path].id)
    ensures v.Its(e).None? && !IsWritten(v.Sight(), e) ==> IsNew(p) && p.task == None
  {
    assert p in v.ChangesOf(e);
  }

  lemma GoneChangeIs(v: View, x: Item, p: Change)
    requires ForGone(v, x, p)
    ensures p.folder == v.folder && p.source == x.origin.value && p.kind == Removed && p.task == Some(x.id)
    ensures p.path == x.path && p.source !in v.InConfig()
  {
  }

  /** The item an entry's change is for. */
  lemma EntryChangeItem(v: View, e: Entry, p: Change, x: Item)
    requires ValidView(v) && ForEntry(v, e, p) && x in v.items && p.task == Some(x.id)
    ensures (v.Its(e) == Some(x) && p.kind == Altered)
            || (v.Its(e).None? && p.kind == Written && x.origin.None? && x.path == e.path)
  {
    EntryChangeIs(v, e, p);
    ItsItem(v, e);
    WrittenItem(v, e);
  }

  /** Two changes for one item are one. */
  lemma OneChangeEach(v: View, p: Change, q: Change)
    requires ValidView(v) && p in v.Changes() && q in v.Changes()
    requires p.source == q.source || (p.task.Some? && p.task == q.task)
    ensures p == q
  {
    ChangesAre(v, p);
    ChangesAre(v, q);
    if d :| ForEntry(v, d, p) {
      EntryChangeIs(v, d, p);
      assert d.source in v.InConfig();
      if e :| ForEntry(v, e, q) {
        EntryChangeIs(v, e, q);
        if p.source != q.source {
          var x := TaskOfEntry(v, d, p);
          EntryChangeItem(v, d, p, x);
          EntryChangeItem(v, e, q, x);
          ItsItem(v, d);
          ItsItem(v, e);
        }
      } else {
        var y :| ForGone(v, y, q);
        GoneChangeIs(v, y, q);
        EntryChangeItem(v, d, p, y);
        AdoptsIts(v, y);
      }
    } else {
      var x :| ForGone(v, x, p);
      GoneChangeIs(v, x, p);
      if e :| ForEntry(v, e, q) {
        EntryChangeIs(v, e, q);
        assert e.source in v.InConfig();
        EntryChangeItem(v, e, q, x);
        AdoptsIts(v, x);
      } else {
        var y :| ForGone(v, y, q);
        GoneChangeIs(v, y, q);
      }
    }
  }

  lemma TaskOfEntry(v: View, e: Entry, p: Change) returns (x: Item)
    requires ValidView(v) && ForEntry(v, e, p) && p.task.Some?
    ensures x in v.items && p.task == Some(x.id) && p.path == x.path
  {
    EntryChangeIs(v, e, p);
    ItsItem(v, e);
    WrittenItem(v, e);
    x := if v.Its(e).Some? then v.Its(e).value else v.Sight().own[e.path];
  }

  /** The entry a new change is for, which no item is from. */
  lemma NewEntry(v: View, p: Change) returns (e: Entry)
    requires ValidView(v) && p in v.Changes() && IsNew(p)
    ensures ForEntry(v, e, p) && v.Its(e).None? && e.source == p.source && p.folder == v.folder
  {
    ChangesAre(v, p);
    forall x ensures !ForGone(v, x, p) {
      if ForGone(v, x, p) {
        GoneChangeIs(v, x, p);
      }
    }
    e :| ForEntry(v, e, p);
    EntryChangeIs(v, e, p);
  }

  /** Each change of a side is for an item of it, unless it is new. */
  lemma ChangeItem(v: View, p: Change)
    requires ValidView(v) && p in v.Changes()
    ensures p.folder == v.folder && (p.task.Some? <==> !IsNew(p)) && (p.kind != Removed ==> p.config.Some?)
    ensures p.task.Some? ==> exists x | x in v.items :: p.task == Some(x.id) && p.path == x.path
    ensures p.source.IsFolder() == v.folder
  {
    ChangesAre(v, p);
    if e :| ForEntry(v, e, p) {
      EntryChangeIs(v, e, p);
      if p.task.Some? {
        var x := TaskOfEntry(v, e, p);
      }
    } else {
      var x :| ForGone(v, x, p);
      GoneChangeIs(v, x, p);
    }
  }

  // ----- Each change once in the list -----

  predicate DistinctChanges(changes: seq<Change>) {
    forall i, j | 0 <= i < j < |changes| :: changes[i].source != changes[j].source
  }

  lemma {:induction false} EntryChangesDistinct(sight: Sight, moved: map<Path, Item>, entries: seq<Entry>)
    requires DistinctSources(entries)
    ensures DistinctChanges(EntryChanges(sight, moved, entries))
    ensures forall p | p in EntryChanges(sight, moved, entries) :: p.source in SourcesOf(entries)
  {
    if entries != [] {
      var last := |entries| - 1;
      EntryChangesDistinct(sight, moved, entries[..last]);
      var more := EntryChange(sight, moved, entries[last]);
      assert forall p | p in more :: p.source == entries[last].source;
      assert entries[last].source !in SourcesOf(entries[..last]);
      assert SourcesOf(entries) == SourcesOf(entries[..last]) + {entries[last].source};
    }
  }

  lemma {:induction false} RemovedChangesDistinct(sight: Sight, adopted: set<nat>, items: seq<Item>)
    requires forall i, j | 0 <= i < j < |items| && items[i].origin.Some? :: items[i].origin != items[j].origin
    ensures DistinctChanges(RemovedChanges(sight, adopted, items))
    ensures forall p | p in RemovedChanges(sight, adopted, items) ::
              exists x | x in items :: x.origin == Some(p.source) && p.source !in sight.inConfig
  {
    if items != [] {
      var last := |items| - 1;
      RemovedChangesDistinct(sight, adopted, items[..last]);
      forall p | p in RemovedChanges(sight, adopted, items[..last])
        ensures exists x | x in items[..last] :: x.origin == Some(p.source) && p.source !in sight.inConfig
        ensures items[last].origin != Some(p.source)
      {
        var x :| x in items[..last] && x.origin == Some(p.source) && p.source !in sight.inConfig;
        assert x in items;
      }
      assert items[last] in items;
      assert forall x | x in items[..last] :: x in items;
    }
  }

  lemma SideDistinct(v: View)
    requires DistinctSources(v.entries) && ValidSide(v.items, v.folder)
    ensures DistinctChanges(v.Changes())
  {
    EntryChangesDistinct(v.Sight(), v.Moved(), v.entries);
    assert forall i, j | 0 <= i < j < |v.items| :: Apart(v.items[i], v.items[j]);
    RemovedChangesDistinct(v.Sight(), v.Adopts(), v.items);
  }
}
