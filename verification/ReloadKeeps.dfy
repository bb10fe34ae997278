/**
 What every run of a reload's steps keeps, whatever the kernel refuses: each
 item here is as its own change, done or not, leaves it.
 */
module ReloadKeeps {
  import opened Paths
  import opened Specs
  import opened Reload
  import opened ReloadChoices
  import opened ReloadRun

  // ----- What is here, and what is planned for it -----

  predicate Apart(x: Item, y: Item) {
    x.id != y.id && x.path != y.path && (x.origin.Some? ==> x.origin != y.origin)
  }

  /** No two of a side have an id, a path or an entry in common, and each entry is of its kind. */
  ghost predicate ValidSide(items: seq<Item>, folder: bool) {
    && (forall i, j {:trigger Apart(items[i], items[j])} | 0 <= i < j < |items| :: Apart(items[i], items[j]))
    && (forall x | x in items && x.origin.Some? :: x.origin.value.IsFolder() == folder)
    && (folder ==> forall x | x in items :: x.spec == Some(FolderSpec(Collapsed(SpecOf(x)))))
  }

  ghost predicate ValidLive(live: Live) {
    && ValidSide(live.tasks, false)
    && ValidSide(live.folders, true)
    && forall x, y | x in live.tasks && y in live.folders :: x.id != y.id
  }

  lemma SameId(items: seq<Item>, folder: bool, x: Item, y: Item)
    requires ValidSide(items, folder) && x in items && y in items
    ensures x.id == y.id || x.path == y.path || (x.origin.Some? && x.origin == y.origin) ==> x == y
  {
    var i :| 0 <= i < |items| && items[i] == x;
    var j :| 0 <= j < |items| && items[j] == y;
    assert i < j ==> Apart(items[i], items[j]);
    assert j < i ==> Apart(items[j], items[i]);
  }

  lemma {:induction false} FindFinds(items: seq<Item>, folder: bool, x: Item)
    requires ValidSide(items, folder) && x in items
    ensures Find(items, x.id) == Some(x)
  {
    if items[0].id == x.id {
      SameId(items, folder, items[0], x);
    } else {
      FindInRest(items, x);
      assert ValidSide(items[1..], folder);
      FindFinds(items[1..], folder, x);
    }
  }

  lemma FindInRest(items: seq<Item>, x: Item)
    requires x in items && items[0] != x
    ensures x in items[1..]
  {
  }

  lemma {:induction false} FindMisses(items: seq<Item>, id: nat)
    requires forall x | x in items :: x.id != id
    ensures Find(items, id) == None
  {
    if items != [] {
      FindMisses(items[1..], id);
    }
  }

  /** Each change is for an entry of its own. */
  ghost predicate OwnEntries(changes: seq<Change>) {
    forall c, d | c in changes && d in changes && c.source == d.source :: c == d
  }

  /** Each change is for an item of its own, unless it is new. */
  ghost predicate OwnItems(changes: seq<Change>) {
    && (forall c, d | c in changes && d in changes && c.task.Some? && c.task == d.task :: c == d)
    && (forall c | c in changes :: c.task.Some? <==> !IsNew(c))
  }

  /** The item a change is for, here. */
  ghost predicate ItemOf(change: Change, live: Live, x: Item) {
    x in Side(live, change.folder) && change.task == Some(x.id) && x.path == change.path
  }

  ghost predicate ItemsHere(changes: seq<Change>, live: Live) {
    forall c | c in changes && c.task.Some? :: exists x :: ItemOf(c, live, x)
  }

  ghost predicate Coherent(changes: seq<Change>, live: Live) {
    && OwnEntries(changes) && OwnItems(changes) && ItemsHere(changes, live)
    && (forall i, j | 0 <= i < j < |changes| :: changes[i].source != changes[j].source)
    && (forall c | c in changes && c.kind != Removed :: c.config.Some?)
  }

  /** Each adoption is of an item here, and of each at most one. */
  ghost predicate CoherentAdoptions(adopt: seq<(nat, Source)>, live: Live) {
    && (forall i, j | 0 <= i < j < |adopt| :: adopt[i].0 != adopt[j].0)
    && (forall a | a in adopt :: exists x | x in live.tasks + live.folders :: x.id == a.0)
  }

  /** The change for an item, if there is one. */
  function TaskChange(changes: seq<Change>, id: nat): (r: Option<Change>)
    ensures r.Some? ==> r.value in changes && r.value.task == Some(id)
    ensures r.None? ==> forall c | c in changes :: c.task != Some(id)
  {
    if changes == [] then None
    else if changes[0].task == Some(id) then Some(changes[0])
    else TaskChange(changes[1..], id)
  }

  // ----- The items as the entries done leave them -----

  /** A plan as it is being carried out, and what each change makes of the item it is for. */
  datatype Carrying = Carrying(
    changes: seq<Change>,
    adopt: seq<(nat, Source)>,
    live: Live,
    fate: (Change, Item) -> Option<Item>)

  ghost predicate ValidPlan(plan: Carrying) {
    && ValidLive(plan.live) && Coherent(plan.changes, plan.live) && CoherentAdoptions(plan.adopt, plan.live)
    && FateKeepsPlace(plan)
  }

  /** A change leaves the item it is for at its path. */
  ghost predicate FateKeepsPlace(plan: Carrying) {
    forall c, x | plan.fate(c, x).Some? :: plan.fate(c, x).value.id == x.id && plan.fate(c, x).value.path == x.path
  }

  /** An item as it is once the entries taken over are. */
  function Taken(adopt: seq<(nat, Source)>, item: Item): Item {
    item.(origin := SourceOf(adopt, item))
  }

  /** An item as the entries done leave it; none when they remove it. */
  function Expected(plan: Carrying, item: Item, done: set<Source>): Option<Item> {
    var (own, taken) := (TaskChange(plan.changes, item.id), Taken(plan.adopt, item));
    if own.Some? && own.value.source in done then plan.fate(own.value, taken) else Some(taken)
  }

  /** What a new task or folder is. */
  predicate IsMadeFrom(item: Item, change: Change) {
    && item.path == change.path
    && item.origin == Some(change.source)
    && !item.active
    && item.spec == (if change.config.None? then None
                     else if change.folder then Some(FolderSpec(Collapsed(change.config.value)))
                     else change.config)
  }

  predicate IsNewDone(plan: Carrying, folder: bool, done: set<Source>, change: Change) {
    change in plan.changes && change.folder == folder && IsNew(change) && change.source in done
  }

  function KernelSide(k: Kernel, folder: bool): map<nat, Item> {
    if folder then k.folders else k.tasks
  }

  function StateOf(side: map<nat, Item>, id: nat): Option<Item> {
    if id in side then Some(side[id]) else None
  }

  predicate HasId(items: seq<Item>, id: nat) {
    exists x | x in items :: x.id == id
  }

  ghost predicate OldAsExpected(plan: Carrying, folder: bool, side: map<nat, Item>, done: set<Source>) {
    forall x | x in Side(plan.live, folder) :: StateOf(side, x.id) == Expected(plan, x, done)
  }

  /** The new changes done, by the ids of what they made. */
  type Made = map<nat, Change>

  ghost predicate NewAreMade(plan: Carrying, folder: bool, side: map<nat, Item>, done: set<Source>, made: Made) {
    && (forall id :: id in made <==> id in side && !HasId(Side(plan.live, folder), id))
    && (forall id | id in made :: IsNewDone(plan, folder, done, made[id]) && IsMadeFrom(side[id], made[id]))
    && (forall c | IsNewDone(plan, folder, done, c) :: c in made.Values)
  }

  ghost predicate DistinctSide(side: map<nat, Item>) {
    && (forall id | id in side :: side[id].id == id)
    && (forall i, j | i in side && j in side && side[i].path == side[j].path :: i == j)
  }

  /** One side of the kernel is as the entries done leave it. */
  ghost predicate Kept(plan: Carrying, folder: bool, side: map<nat, Item>, done: set<Source>, made: Made) {
    && OldAsExpected(plan, folder, side, done)
    && NewAreMade(plan, folder, side, done, made)
    && DistinctSide(side)
  }

  // ----- An entry done keeps it -----

  /** One item changed, and no other. */
  ghost predicate Effects(before: map<nat, Item>, after: map<nat, Item>, id: nat, fate: Option<Item>) {
    StateOf(after, id) == fate && forall other | other != id :: StateOf(after, other) == StateOf(before, other)
  }

  /** Another entry done leaves the items of other changes as they are. */
  lemma OthersUnmoved(plan: Carrying, x: Item, done: set<Source>, change: Change)
    requires OwnEntries(plan.changes) && change in plan.changes
    requires change.task != Some(x.id)
    ensures Expected(plan, x, done + {change.source}) == Expected(plan, x, done)
  {
  }

  lemma NewDoneOnce(plan: Carrying, folder: bool, done: set<Source>, change: Change, c: Change)
    requires OwnEntries(plan.changes) && change in plan.changes
    ensures IsNewDone(plan, folder, done + {change.source}, c) <==>
            IsNewDone(plan, folder, done, c) || (c == change && IsNew(c) && c.folder == folder)
  {
  }

  /** What a change not yet done is for is as taken over. */
  lemma BeforeDone(plan: Carrying, side: map<nat, Item>, done: set<Source>, change: Change, x: Item)
    requires OwnItems(plan.changes) && change in plan.changes && change.source !in done
    requires ItemOf(change, plan.live, x)
    requires OldAsExpected(plan, change.folder, side, done)
    ensures TaskChange(plan.changes, x.id) == Some(change)
    ensures StateOf(side, x.id) == Some(Taken(plan.adopt, x))
  {
  }

  lemma OldKeepsOld(plan: Carrying, change: Change, x: Item, before: map<nat, Item>, after: map<nat, Item>, done: set<Source>)
    requires OwnEntries(plan.changes) && OwnItems(plan.changes) && change in plan.changes && change.source !in done
    requires ItemOf(change, plan.live, x)
    requires forall y | y in Side(plan.live, change.folder) && y.id == x.id :: y == x
    requires OldAsExpected(plan, change.folder, before, done)
    requires Effects(before, after, x.id, plan.fate(change, Taken(plan.adopt, x)))
    ensures OldAsExpected(plan, change.folder, after, done + {change.source})
  {
    BeforeDone(plan, before, done, change, x);
    forall y | y in Side(plan.live, change.folder)
      ensures StateOf(after, y.id) == Expected(plan, y, done + {change.source})
    {
      if y != x {
        OthersUnmoved(plan, y, done, change);
      }
    }
  }

  lemma OldKeepsNew(plan: Carrying, change: Change, x: Item, before: map<nat, Item>, after: map<nat, Item>, done: set<Source>, made: Made)
    requires OwnEntries(plan.changes) && change in plan.changes && !IsNew(change)
    requires x in Side(plan.live, change.folder)
    requires NewAreMade(plan, change.folder, before, done, made)
    requires forall id | id != x.id :: StateOf(after, id) == StateOf(before, id)
    ensures NewAreMade(plan, change.folder, after, done + {change.source}, made)
  {
    var (f, items) := (change.folder, Side(plan.live, change.folder));
    assert HasId(items, x.id);
    forall c ensures IsNewDone(plan, f, done + {change.source}, c) <==> IsNewDone(plan, f, done, c) {
      NewDoneOnce(plan, f, done, change, c);
    }
    forall id ensures id != x.id ==> (id in after <==> id in before) && (id in after ==> after[id] == before[id]) {
      assert id != x.id ==> StateOf(after, id) == StateOf(before, id);
    }
  }

  lemma EffectsKeepPaths(before: map<nat, Item>, after: map<nat, Item>, id: nat, fate: Option<Item>)
    requires DistinctSide(before) && Effects(before, after, id, fate)
    requires id in before
    requires fate.Some? ==> fate.value.id == id && fate.value.path == before[id].path
    ensures DistinctSide(after)
  {
    forall other | other in after
      ensures other in before && after[other].id == other && after[other].path == before[other].path
    {
      if other != id {
        assert StateOf(after, other) == StateOf(before, other);
      }
    }
  }

  /** An item's own change done keeps its side. */
  lemma OldKeeps(plan: Carrying, change: Change, x: Item, before: map<nat, Item>, after: map<nat, Item>, done: set<Source>, made: Made)
    requires OwnEntries(plan.changes) && OwnItems(plan.changes) && change in plan.changes && change.source !in done
    requires FateKeepsPlace(plan)
    requires ItemOf(change, plan.live, x)
    requires forall y | y in Side(plan.live, change.folder) && y.id == x.id :: y == x
    requires Kept(plan, change.folder, before, done, made)
    requires Effects(before, after, x.id, plan.fate(change, Taken(plan.adopt, x)))
    ensures Kept(plan, change.folder, after, done + {change.source}, made)
  {
    OldKeepsOld(plan, change, x, before, after, done);
    OldKeepsNew(plan, change, x, before, after, done, made);
    BeforeDone(plan, before, done, change, x);
    EffectsKeepPaths(before, after, x.id, plan.fate(change, Taken(plan.adopt, x)));
  }

  lemma NewKeepsNew(plan: Carrying, change: Change, id: nat, item: Item, before: map<nat, Item>, done: set<Source>, made: Made)
    requires OwnEntries(plan.changes) && change in plan.changes && IsNew(change)
    requires NewAreMade(plan, change.folder, before, done, made)
    requires id !in before && !HasId(Side(plan.live, change.folder), id) && IsMadeFrom(item, change)
    ensures NewAreMade(plan, change.folder, before[id := item], done + {change.source}, made[id := change])
  {
    var (f, after, more) := (change.folder, before[id := item], made[id := change]);
    forall c ensures IsNewDone(plan, f, done + {change.source}, c) ==> c in more.Values {
      NewDoneOnce(plan, f, done, change, c);
      if c == change {
        assert more[id] == c;
      } else if IsNewDone(plan, f, done, c) {
        var other :| other in made && made[other] == c;
        assert more[other] == c;
      }
    }
  }

  /** A new task or folder made keeps its side. */
  lemma NewKeeps(plan: Carrying, change: Change, id: nat, item: Item, before: map<nat, Item>, done: set<Source>, made: Made)
    requires OwnEntries(plan.changes) && OwnItems(plan.changes) && change in plan.changes && IsNew(change)
    requires Kept(plan, change.folder, before, done, made)
    requires id !in before && !HasId(Side(plan.live, change.folder), id)
    requires item.id == id && IsMadeFrom(item, change)
    requires forall other | other in before :: before[other].path != item.path
    ensures Kept(plan, change.folder, before[id := item], done + {change.source}, made[id := change])
  {
    var after := before[id := item];
    NewKeepsNew(plan, change, id, item, before, done, made);
    forall y | y in Side(plan.live, change.folder)
      ensures StateOf(after, y.id) == Expected(plan, y, done + {change.source})
    {
      assert HasId(Side(plan.live, change.folder), y.id);
      OthersUnmoved(plan, y, done, change);
    }
  }

  /** An entry of the other side done leaves this side as it is. */
  lemma OtherKeeps(plan: Carrying, change: Change, folder: bool, side: map<nat, Item>, done: set<Source>, made: Made)
    requires OwnEntries(plan.changes) && change in plan.changes && change.folder != folder
    requires forall y | y in Side(plan.live, folder) :: change.task != Some(y.id)
    requires Kept(plan, folder, side, done, made)
    ensures Kept(plan, folder, side, done + {change.source}, made)
  {
    forall y | y in Side(plan.live, folder) ensures StateOf(side, y.id) == Expected(plan, y, done + {change.source}) {
      OthersUnmoved(plan, y, done, change);
    }
    forall c ensures IsNewDone(plan, folder, done + {change.source}, c) <==> IsNewDone(plan, folder, done, c) {
      NewDoneOnce(plan, folder, done, change, c);
    }
  }
}
