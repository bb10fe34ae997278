/**
 The comparison a reload starts with: a config, the base it was last merged into, and what
 the kernel runs, matched entry by entry.
 */
module Reload {
  import opened Paths
  import opened Specs

  /** One task or folder as the config defines it. */
  datatype Entry = Entry(source: Source, path: Path, spec: Spec)

  /** A config's entries, in its order. */
  datatype Config = Config(entries: seq<Entry>)

  /** A task or folder here. What a folder says is whether it starts collapsed. */
  datatype Item = Item(id: nat, path: Path, origin: Option<Source>, spec: Option<Spec>, active: bool)

  datatype Live = Live(tasks: seq<Item>, folders: seq<Item>)

  /** The definitions last accepted, by entry. */
  type Base = map<Source, Spec>

  datatype Kind = Added | Altered | Removed | RemovedHere | Written

  datatype Blocker = Blocker(path: Path, folder: bool)

  datatype Reason =
    | WasRemovedHere
    | Conflict
    | WasChangedHere
    | Running
    | InTheWay(blocker: Blocker)

  datatype Change = Change(
    kind: Kind,
    folder: bool,
    path: Path,
    fields: map<string, Field>,
    apply: bool,
    reason: Option<Reason>,
    failed: bool,
    task: Option<nat>,
    source: Source,
    config: Option<Spec>,
    base: Option<Spec>,
    inTheWay: Option<(Blocker, bool)>)

  function EntriesOf(entries: seq<Entry>, folder: bool): seq<Entry> {
    if entries == [] then []
    else
      var rest := EntriesOf(entries[..|entries| - 1], folder);
      var last := entries[|entries| - 1];
      if last.source.IsFolder() == folder then rest + [last] else rest
  }

  function Side(live: Live, folder: bool): seq<Item> {
    if folder then live.folders else live.tasks
  }

  function SourcesOf(entries: seq<Entry>): set<Source> {
    set e | e in entries :: e.source
  }

  function BaseAt(base: Base, source: Source): Option<Spec> {
    if source in base then Some(base[source]) else None
  }

  function SpecOf(item: Item): Spec {
    if item.spec.Some? then item.spec.value else map[]
  }

  // ----- Which item an entry is for -----

  /** The items by the entry they come from; the last of several. */
  function BySource(items: seq<Item>): map<Source, Item> {
    if items == [] then map[]
    else
      var (rest, last) := (BySource(items[..|items| - 1]), items[|items| - 1]);
      if last.origin.Some? then rest[last.origin.value := last] else rest
  }

  predicate Gone(item: Item, inConfig: set<Source>) {
    item.origin.Some? && item.origin.value !in inConfig
  }

  /** By path, the items whose entry is gone: one there may be under another key now. */
  function GoneByPath(items: seq<Item>, inConfig: set<Source>): map<Path, Item> {
    if items == [] then map[]
    else
      var (rest, last) := (GoneByPath(items[..|items| - 1], inConfig), items[|items| - 1]);
      if Gone(last, inConfig) then rest[last.path := last] else rest
  }

  predicate Own(item: Item, folder: bool) {
    item.origin.None? && (folder || item.spec.Some?)
  }

  /** By path, the runner's own items. */
  function OwnByPath(items: seq<Item>, folder: bool): map<Path, Item> {
    if items == [] then map[]
    else
      var (rest, last) := (OwnByPath(items[..|items| - 1], folder), items[|items| - 1]);
      if Own(last, folder) then rest[last.path := last] else rest
  }

  /** What a plan for one side, the tasks or the folders, is made from. */
  datatype Sight = Sight(folder: bool, inConfig: set<Source>, base: Base, bySource: map<Source, Item>, own: map<Path, Item>)

  function See(folder: bool, entries: seq<Entry>, base: Base, items: seq<Item>): Sight {
    Sight(folder, SourcesOf(entries), base, BySource(items), OwnByPath(items, folder))
  }

  /** The item an entry is for, with the items whose entry is gone in `moved`. */
  function ItemFor(sight: Sight, moved: map<Path, Item>, entry: Entry): Option<Item> {
    if entry.source in sight.bySource then Some(sight.bySource[entry.source])
    else if entry.path in moved then Some(moved[entry.path])
    else None
  }

  /** The runner's own item that an entry says, when no item is the entry's. */
  predicate IsWritten(sight: Sight, entry: Entry) {
    entry.path in sight.own &&
    (sight.folder || Changed(SpecOf(sight.own[entry.path]), entry.spec) == {})
  }

  function FreshChange(sight: Sight, kind: Kind, path: Path, source: Source): Change {
    Change(kind, sight.folder, path, map[], true, None, false, None, source, None, None, None)
  }

  /** The change for an entry that no item is for: the runner's own one written, or a new one. */
  function NewChange(sight: Sight, entry: Entry): Change {
    if IsWritten(sight, entry) then
      FreshChange(sight, Written, entry.path, entry.source)
        .(task := Some(sight.own[entry.path].id), config := Some(entry.spec))
    else
      var was := BaseAt(sight.base, entry.source);
      FreshChange(sight, if was.Some? then RemovedHere else Added, entry.path, entry.source)
        .(apply := was.None?,
          reason := if was.Some? then Some(WasRemovedHere) else None,
          config := Some(entry.spec),
          base := was)
  }

  /** The definition to merge from. With none in the base, nothing counts as a change of the config. */
  function WasSpec(base: Base, origin: Option<Source>, entry: Entry): Spec {
    if origin.Some? && origin.value in base then base[origin.value] else entry.spec
  }

  /** The change for an entry and the item it is for, if the config changed a field. */
  function AlteredChange(sight: Sight, entry: Entry, item: Item): seq<Change> {
    var was := WasSpec(sight.base, item.origin, entry);
    var fields := Merge(was, SpecOf(item), entry.spec);
    if fields == map[] then []
    else [
      FreshChange(sight, Altered, item.path, entry.source)
        .(task := Some(item.id),
          fields := fields,
          apply := exists key | key in fields :: fields[key].take,
          reason := if exists key | key in fields :: fields[key].conflict then Some(Conflict) else None,
          config := Some(entry.spec),
          base := Some(was))]
  }

  function EntryChange(sight: Sight, moved: map<Path, Item>, entry: Entry): seq<Change> {
    match ItemFor(sight, moved, entry)
    case Some(item) => AlteredChange(sight, entry, item)
    case None => [NewChange(sight, entry)]
  }

  function EntryChanges(sight: Sight, moved: map<Path, Item>, entries: seq<Entry>): seq<Change> {
    if entries == [] then []
    else EntryChanges(sight, moved, entries[..|entries| - 1]) + EntryChange(sight, moved, entries[|entries| - 1])
  }

  /** The entry an item takes as its own, when it had another. */
  function EntryAdoption(sight: Sight, moved: map<Path, Item>, entry: Entry): seq<(nat, Source)> {
    match ItemFor(sight, moved, entry)
    case Some(item) => if item.origin != Some(entry.source) then [(item.id, entry.source)] else []
    case None => []
  }

  function Adoptions(sight: Sight, moved: map<Path, Item>, entries: seq<Entry>): seq<(nat, Source)> {
    if entries == [] then []
    else Adoptions(sight, moved, entries[..|entries| - 1]) + EntryAdoption(sight, moved, entries[|entries| - 1])
  }

  /** The items that the entries at their paths take over from entries gone. */
  function Adopted(sight: Sight, moved: map<Path, Item>, entries: seq<Entry>): set<nat> {
    set e | e in entries && e.source !in sight.bySource && e.path in moved :: moved[e.path].id
  }

  /** The change for an item whose entry is gone. */
  function RemovedChange(sight: Sight, item: Item): Change
    requires item.origin.Some?
  {
    var origin := item.origin.value;
    var was := BaseAt(sight.base, origin);
    var edited := was.None? || Changed(SpecOf(item), was.value) != {};
    var reason :=
      if sight.folder then None
      else if edited then Some(WasChangedHere)
      else if item.active then Some(Running)
      else None;
    FreshChange(sight, Removed, item.path, origin)
      .(task := Some(item.id), apply := reason.None?, reason := reason, base := was)
  }

  function RemovedChanges(sight: Sight, adopted: set<nat>, items: seq<Item>): seq<Change> {
    if items == [] then []
    else
      var (rest, last) := (RemovedChanges(sight, adopted, items[..|items| - 1]), items[|items| - 1]);
      if Gone(last, sight.inConfig) && last.id !in adopted then rest + [RemovedChange(sight, last)] else rest
  }

  /** The changes to one side of what is here. */
  function SideChanges(folder: bool, entries: seq<Entry>, base: Base, items: seq<Item>): seq<Change> {
    var sight := See(folder, entries, base, items);
    var moved := GoneByPath(items, sight.inConfig);
    EntryChanges(sight, moved, entries) + RemovedChanges(sight, Adopted(sight, moved, entries), items)
  }

  function SideAdoptions(folder: bool, entries: seq<Entry>, base: Base, items: seq<Item>): seq<(nat, Source)> {
    var sight := See(folder, entries, base, items);
    Adoptions(sight, GoneByPath(items, sight.inConfig), entries)
  }

  function PlannedChanges(config: Config, base: Base, live: Live): seq<Change> {
    SideChanges(false, EntriesOf(config.entries, false), base, live.tasks) +
    SideChanges(true, EntriesOf(config.entries, true), base, live.folders)
  }

  function PlannedAdoptions(config: Config, base: Base, live: Live): seq<(nat, Source)> {
    SideAdoptions(false, EntriesOf(config.entries, false), base, live.tasks) +
    SideAdoptions(true, EntriesOf(config.entries, true), base, live.folders)
  }

  predicate DistinctSources(entries: seq<Entry>) {
    forall i, j | 0 <= i < j < |entries| :: entries[i].source != entries[j].source
  }

  predicate DistinctPaths(entries: seq<Entry>) {
    forall i, j | 0 <= i < j < |entries| :: entries[i].path != entries[j].path
  }

  /** As the loader accepts a config: each entry once, and no two tasks or two folders at a path. */
  predicate ValidConfig(config: Config) {
    && DistinctSources(config.entries)
    && DistinctPaths(EntriesOf(config.entries, false))
    && DistinctPaths(EntriesOf(config.entries, true))
  }

  /** One entry more, in each of what the pass over the entries gathers. */
  lemma OneEntryMore(sight: Sight, moved: map<Path, Item>, entries: seq<Entry>, i: nat)
    requires i < |entries|
    ensures EntryChanges(sight, moved, entries[..i + 1]) ==
            EntryChanges(sight, moved, entries[..i]) + EntryChange(sight, moved, entries[i])
    ensures Adoptions(sight, moved, entries[..i + 1]) ==
            Adoptions(sight, moved, entries[..i]) + EntryAdoption(sight, moved, entries[i])
    ensures Adopted(sight, moved, entries[..i + 1]) ==
            Adopted(sight, moved, entries[..i]) + Adopted(sight, moved, [entries[i]])
  {
    assert entries[..i + 1][..i] == entries[..i];
    assert entries[..i + 1] == entries[..i] + [entries[i]];
  }

  /** The items still to be adopted: those of `gone` at no path taken so far. */
  ghost predicate StillGone(moved: map<Path, Item>, gone: map<Path, Item>, entries: seq<Entry>, i: nat)
    requires i <= |entries|
  {
    && moved.Keys <= gone.Keys
    && (forall path | path in moved :: moved[path] == gone[path])
    && (forall j | i <= j < |entries| :: entries[j].path in gone ==> entries[j].path in moved)
  }

  /** The item an entry is for; one that had another entry is taken out of `moved`. */
  method TakeItem(sight: Sight, gone: map<Path, Item>, moved: map<Path, Item>, ghost entries: seq<Entry>, ghost i: nat, entry: Entry)
    returns (task: Option<Item>, left: map<Path, Item>, adopted: set<nat>)
    requires DistinctPaths(entries) && i < |entries| && entry == entries[i]
    requires StillGone(moved, gone, entries, i)
    ensures task == ItemFor(sight, gone, entry)
    ensures adopted == Adopted(sight, gone, [entry])
    ensures StillGone(left, gone, entries, i + 1)
  {
    left, adopted := moved, {};
    if entry.source in sight.bySource {
      task := Some(sight.bySource[entry.source]);
    } else if entry.path in moved {
      task := Some(moved[entry.path]);
      adopted := {moved[entry.path].id};
      left := moved - {entry.path};
    } else {
      task := None;
    }
  }

  /**
   Plans the entries in one pass, each item whose entry is gone taken out of
   `moved` as an entry at its path adopts it. Entries at different paths make
   that the same as looking each up in the whole map.
   */
  method PlanEntries(sight: Sight, gone: map<Path, Item>, entries: seq<Entry>)
    returns (changes: seq<Change>, adopt: seq<(nat, Source)>, adopted: set<nat>)
    requires DistinctPaths(entries)
    ensures changes == EntryChanges(sight, gone, entries)
    ensures adopt == Adoptions(sight, gone, entries)
    ensures adopted == Adopted(sight, gone, entries)
  {
    var moved := gone;
    changes, adopt, adopted := [], [], {};
    for i := 0 to |entries|
      invariant changes == EntryChanges(sight, gone, entries[..i])
      invariant adopt == Adoptions(sight, gone, entries[..i])
      invariant adopted == Adopted(sight, gone, entries[..i])
      invariant StillGone(moved, gone, entries, i)
    {
      OneEntryMore(sight, gone, entries, i);
      var task, left, taken := TakeItem(sight, gone, moved, entries, i, entries[i]);
      moved, adopted := left, adopted + taken;
      match task
      case None =>
        changes := changes + [NewChange(sight, entries[i])];
      case Some(item) =>
        if item.origin != Some(entries[i].source) {
          adopt := adopt + [(item.id, entries[i].source)];
        }
        changes := changes + AlteredChange(sight, entries[i], item);
    }
    assert entries[..|entries|] == entries;
  }

  /** Plans the tasks, or the folders. */
  method PlanSide(folder: bool, entries: seq<Entry>, base: Base, items: seq<Item>)
    returns (changes: seq<Change>, adopt: seq<(nat, Source)>)
    requires DistinctPaths(entries)
    ensures changes == SideChanges(folder, entries, base, items)
    ensures adopt == SideAdoptions(folder, entries, base, items)
  {
    var sight := See(folder, entries, base, items);
    var forEntries, adoptions, adopted := PlanEntries(sight, GoneByPath(items, sight.inConfig), entries);
    adopt := adoptions;
    var removed: seq<Change> := [];
    for i := 0 to |items|
      invariant removed == RemovedChanges(sight, adopted, items[..i])
    {
      assert items[..i + 1][..i] == items[..i];
      if Gone(items[i], sight.inConfig) && items[i].id !in adopted {
        removed := removed + [RemovedChange(sight, items[i])];
      }
    }
    assert items[..|items|] == items;
    changes := forEntries + removed;
  }
}
