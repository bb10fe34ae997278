/**
 The choices a user makes in a plan: which changes to take, and which new ones are blocked
 by what stays.
 */
module ReloadChoices {
  import opened Paths
  import opened Specs
  import opened Reload

  datatype OrderChange = OrderChange(apply: bool, conflict: bool)

  /** A task or folder here, by id. */
  datatype Placed = Placed(id: nat, path: Path)

  predicate IsNew(change: Change) {
    change.kind == Added || change.kind == RemovedHere
  }

  /** Switches a change on or off, with every one of its fields. */
  function SetApply(change: Change, apply: bool): Change {
    change.(apply := apply, fields := map key | key in change.fields :: change.fields[key].(take := apply))
  }

  /** A change whose fields are neither all on nor all off. */
  predicate Mixed(change: Change) {
    (exists key | key in change.fields :: change.fields[key].take) &&
    (exists key | key in change.fields :: !change.fields[key].take)
  }

  /** The tasks and folders that the changes taken remove. */
  function Leaving(changes: seq<Change>): set<nat> {
    set c | c in changes && c.kind == Removed && c.apply && c.task.Some? :: c.task.value
  }

  // ----- What is in the way -----

  /**
   What a new change and a task collide on: a folder needs its path and those above it
   free of tasks; a task, all that overlaps it.
   */
  predicate TaskBlocks(change: Change, path: Path) {
    if change.folder then AtOrUnder(change.path, path) else Overlaps(path, change.path)
  }

  /** A folder at it is in a folder's way, and one at it or under it in a task's. */
  predicate FolderBlocks(change: Change, path: Path) {
    if change.folder then path == change.path else AtOrUnder(path, change.path)
  }

  predicate Blocks(change: Change, path: Path, folder: bool) {
    if folder then FolderBlocks(change, path) else TaskBlocks(change, path)
  }

  /** The first of `placed` that stays and is in the way. */
  function FirstBlocker(change: Change, placed: seq<Placed>, leaving: set<nat>, folder: bool): (r: Option<Blocker>)
    ensures r.Some? <==> exists p | p in placed :: p.id !in leaving && Blocks(change, p.path, folder)
    ensures r.Some? ==> r.value.folder == folder && Blocks(change, r.value.path, folder)
  {
    if placed == [] then None
    else if placed[0].id !in leaving && Blocks(change, placed[0].path, folder) then Some(Blocker(placed[0].path, folder))
    else
      assert forall p | p in placed :: p == placed[0] || p in placed[1..];
      FirstBlocker(change, placed[1..], leaving, folder)
  }

  /** What is here: the tasks and the folders. */
  datatype Here = Here(tasks: seq<Placed>, folders: seq<Placed>)

  function BlockerOf(change: Change, here: Here, leaving: set<nat>): Option<Blocker> {
    var task := FirstBlocker(change, here.tasks, leaving, false);
    if task.Some? then task else FirstBlocker(change, here.folders, leaving, true)
  }

  function MarkedBlocker(change: Change): Option<Blocker> {
    if change.inTheWay.Some? then Some(change.inTheWay.value.0) else None
  }

  function NaturalReason(change: Change): Option<Reason> {
    if change.kind == RemovedHere then Some(WasRemovedHere) else None
  }

  /** A new task marked with what is in its way, and left while it is; else taken as it was before. */
  function Mark(change: Change, blocker: Option<Blocker>): Change {
    if !IsNew(change) || blocker == MarkedBlocker(change) then change
    else match blocker
    case Some(b) =>
      var taken := if change.inTheWay.Some? then change.inTheWay.value.1 else change.apply;
      change.(reason := Some(InTheWay(b)), inTheWay := Some((b, taken)), apply := false)
    case None =>
      change.(reason := NaturalReason(change), inTheWay := None,
              apply := change.inTheWay.Some? && change.inTheWay.value.1)
  }

  function Checked(changes: seq<Change>, here: Here): seq<Change> {
    var leaving := Leaving(changes);
    seq(|changes|, i requires 0 <= i < |changes| => Mark(changes[i], BlockerOf(changes[i], here, leaving)))
  }

  // ----- What every choice keeps -----

  /** A change as planned or as marked: only one changed has fields, and a new one's reason is why it is left. */
  predicate Sound(change: Change) {
    && (change.kind != Altered ==> change.fields == map[])
    && (!IsNew(change) ==> change.inTheWay.None?)
    && (IsNew(change) ==>
          change.reason ==
          if change.inTheWay.Some? then Some(InTheWay(change.inTheWay.value.0)) else NaturalReason(change))
  }

  /** No mark is stale: each new change names the blocker that the removals now chosen leave it. */
  predicate Settled(changes: seq<Change>, here: Here) {
    && (forall c | c in changes :: Sound(c))
    && (forall c | c in changes && IsNew(c) :: MarkedBlocker(c) == BlockerOf(c, here, Leaving(changes)))
  }

  lemma MarkKeepsWhatBlocks(change: Change, blocker: Option<Blocker>, here: Here, leaving: set<nat>)
    ensures BlockerOf(Mark(change, blocker), here, leaving) == BlockerOf(change, here, leaving)
  {
    BlockerByPath(Mark(change, blocker), change, here.tasks, leaving, false);
    BlockerByPath(Mark(change, blocker), change, here.folders, leaving, true);
  }

  lemma {:induction false} BlockerByPath(a: Change, b: Change, placed: seq<Placed>, leaving: set<nat>, folder: bool)
    requires a.path == b.path && a.folder == b.folder
    ensures FirstBlocker(a, placed, leaving, folder) == FirstBlocker(b, placed, leaving, folder)
  {
    if placed != [] {
      BlockerByPath(a, b, placed[1..], leaving, folder);
    }
  }

  lemma BlockerAlike(a: Change, b: Change, here: Here, leaving: set<nat>)
    requires a.path == b.path && a.folder == b.folder
    ensures BlockerOf(a, here, leaving) == BlockerOf(b, here, leaving)
  {
    BlockerByPath(a, b, here.tasks, leaving, false);
    BlockerByPath(a, b, here.folders, leaving, true);
  }

  /** Marking takes or leaves new changes only, so what is removed stays the same. */
  lemma CheckedLeaving(changes: seq<Change>, here: Here)
    ensures Leaving(Checked(changes, here)) == Leaving(changes)
  {
    var checked := Checked(changes, here);
    forall c | c in changes && c.kind == Removed ensures c in checked {
      var i :| 0 <= i < |changes| && changes[i] == c;
      assert checked[i] == c;
    }
    forall c | c in checked && c.kind == Removed ensures c in changes {
      var i :| 0 <= i < |checked| && checked[i] == c;
      assert changes[i] == c;
    }
  }

  /** After the way is checked, every new change is marked with what is in its way. */
  lemma CheckedIsSettled(changes: seq<Change>, here: Here)
    requires forall c | c in changes :: Sound(c)
    ensures Settled(Checked(changes, here), here)
  {
    var checked := Checked(changes, here);
    CheckedLeaving(changes, here);
    forall i | 0 <= i < |checked|
      ensures Sound(checked[i])
      ensures IsNew(checked[i]) ==> MarkedBlocker(checked[i]) == BlockerOf(checked[i], here, Leaving(checked))
    {
      assert changes[i] in changes;
      MarkKeepsWhatBlocks(changes[i], BlockerOf(changes[i], here, Leaving(changes)), here, Leaving(changes));
    }
  }

  /** A settled plan is as the check leaves it. */
  lemma SettledStays(changes: seq<Change>, here: Here)
    requires Settled(changes, here)
    ensures Checked(changes, here) == changes
  {
    var checked := Checked(changes, here);
    forall i | 0 <= i < |changes| ensures checked[i] == changes[i] {
      assert changes[i] in changes;
    }
  }

  /** No change taken removes it. */
  predicate Stays(changes: seq<Change>, p: Placed) {
    forall c | c in changes && c.kind == Removed && c.apply :: c.task != Some(p.id)
  }

  lemma StaysIff(changes: seq<Change>, p: Placed)
    ensures p.id !in Leaving(changes) <==> Stays(changes, p)
  {
    if p.id in Leaving(changes) {
      var c :| c in changes && c.kind == Removed && c.apply && c.task.Some? && c.task.value == p.id;
    }
  }

  /** A new task or folder is marked exactly when a task or folder not being removed blocks its path. */
  lemma MarkedExactly(changes: seq<Change>, here: Here, change: Change)
    requires Settled(changes, here) && change in changes && IsNew(change)
    ensures change.inTheWay.Some? <==>
            || (exists p | p in here.tasks ::
                  Stays(changes, p) && (p.path <= change.path || (!change.folder && change.path <= p.path)))
            || (exists p | p in here.folders ::
                  Stays(changes, p) && if change.folder then p.path == change.path else change.path <= p.path)
    ensures change.inTheWay.Some? ==>
            var b := change.inTheWay.value.0;
            change.reason == Some(InTheWay(b)) && Blocks(change, b.path, b.folder)
  {
    var leaving := Leaving(changes);
    assert change.inTheWay.Some? <==> BlockerOf(change, here, leaving).Some?;
    forall p: Placed ensures p.id !in leaving <==> Stays(changes, p) {
      StaysIff(changes, p);
    }
    assert (exists p | p in here.tasks :: p.id !in leaving && Blocks(change, p.path, false)) <==>
           (exists p | p in here.tasks :: p.id !in leaving && TaskBlocks(change, p.path));
    assert (exists p | p in here.folders :: p.id !in leaving && Blocks(change, p.path, true)) <==>
           (exists p | p in here.folders :: p.id !in leaving && FolderBlocks(change, p.path));
  }

  // ----- Leaving a removal, and taking it again -----

  function Chosen(changes: seq<Change>, here: Here, index: nat, apply: bool): seq<Change> {
    if index < |changes| then Checked(changes[index := SetApply(changes[index], apply)], here) else changes
  }

  /** Taken against what is in its way. */
  predicate Forced(change: Change) {
    IsNew(change) && change.inTheWay.Some? && change.apply
  }

  /** What is removed while the removal at `index` is left. */
  function LeavingWithout(changes: seq<Change>, index: nat): set<nat>
    requires index < |changes|
  {
    Leaving(changes[index := SetApply(changes[index], false)])
  }

  lemma MarkTwice(change: Change, out: Option<Blocker>, back: Option<Blocker>)
    requires Sound(change) && IsNew(change) && MarkedBlocker(change) == back
    ensures Mark(Mark(change, out), back) == change <==> (Forced(change) ==> out == back)
  {
  }

  lemma ChosenAt(changes: seq<Change>, here: Here, index: nat, apply: bool, i: nat)
    requires index < |changes| && i < |changes|
    ensures |Chosen(changes, here, index, apply)| == |changes|
    ensures Chosen(changes, here, index, apply)[i] ==
            var chosen := changes[index := SetApply(changes[index], apply)];
            Mark(chosen[i], BlockerOf(chosen[i], here, Leaving(chosen)))
  {
  }

  /**
   Leaving a removal and taking it again puts every change back as it was,
   exactly when no change is forced whose blocker the removal decides.
   */
  lemma LeaveAndTakeAgain(changes: seq<Change>, here: Here, index: nat)
    requires Settled(changes, here)
    requires index < |changes| && changes[index].kind == Removed && changes[index].apply
    ensures Chosen(Chosen(changes, here, index, false), here, index, true) == changes <==>
            forall c | c in changes && Forced(c) ::
              BlockerOf(c, here, LeavingWithout(changes, index)) == BlockerOf(c, here, Leaving(changes))
  {
    var out := changes[index := SetApply(changes[index], false)];
    var left := Chosen(changes, here, index, false);
    var again := left[index := SetApply(left[index], true)];
    var back := Chosen(left, here, index, true);
    assert changes[index] in changes;
    ChosenAt(changes, here, index, false, index);
    assert SetApply(SetApply(changes[index], false), true) == changes[index];
    assert again[index] == changes[index];
    assert Leaving(again) == Leaving(changes) by {
      SameRemovals(changes, here, index);
    }
    forall i | 0 <= i < |changes|
      ensures back[i] == changes[i] <==>
              (Forced(changes[i]) ==>
                 BlockerOf(changes[i], here, Leaving(out)) == BlockerOf(changes[i], here, Leaving(changes)))
    {
      assert changes[i] in changes;
      ChosenAt(changes, here, index, false, i);
      ChosenAt(left, here, index, true, i);
      if i != index && IsNew(changes[i]) {
        var blocked := BlockerOf(changes[i], here, Leaving(out));
        MarkKeepsWhatBlocks(changes[i], blocked, here, Leaving(changes));
        MarkTwice(changes[i], blocked, BlockerOf(changes[i], here, Leaving(changes)));
      }
    }
    assert |back| == |changes|;
  }

  /**
   The failing case: `a` is to be added over `a/c`, against what blocks it, while `a/b`
   is to be removed. With that removal left, `a/b` blocks it first; with it taken
   again, `a` is blocked by `a/c` as before, and is left.
   */
  lemma ForcedChoiceIsLost(gone: Change, forced: Change)
    requires gone.kind == Removed && gone.task == Some(1) && gone.apply && Sound(gone)
    requires forced.kind == Added && !forced.folder && forced.path == ["a"] && forced.apply && Sound(forced)
    requires forced.inTheWay == Some((Blocker(["a", "c"], false), true))
    ensures var (changes, here) := ([gone, forced], Here([Placed(1, ["a", "b"]), Placed(2, ["a", "c"])], []));
            var again := Chosen(Chosen(changes, here, 0, false), here, 0, true);
            Settled(changes, here) && |again| == 2 && again[0] == gone && !again[1].apply
  {
    var (b, c) := (Placed(1, ["a", "b"]), Placed(2, ["a", "c"]));
    var (changes, here) := ([gone, forced], Here([b, c], []));
    FirstOfTwo(forced, b, c);
    OnlyRemoval(gone, forced);
    assert changes[0] == gone && changes[1] == forced;
    var out := SetApply(gone, false);
    var left := Chosen(changes, here, 0, false);
    assert changes[0 := out] == [out, forced];
    OnlyRemoval(out, forced);
    ChosenAt(changes, here, 0, false, 0);
    ChosenAt(changes, here, 0, false, 1);
    var blocked := left[1];
    assert left == [out, blocked];
    assert SetApply(out, true) == gone && left[0 := gone] == [gone, blocked];
    OnlyRemoval(gone, blocked);
    FirstOfTwo(blocked, b, c);
    ChosenAt(left, here, 0, true, 0);
    ChosenAt(left, here, 0, true, 1);
  }

  /** Which of two tasks under a new task blocks it, with the first to be removed, or not. */
  lemma FirstOfTwo(change: Change, b: Placed, c: Placed)
    requires !change.folder && change.path < b.path && change.path < c.path && b.id != c.id
    ensures BlockerOf(change, Here([b, c], []), {b.id}) == Some(Blocker(c.path, false))
    ensures BlockerOf(change, Here([b, c], []), {}) == Some(Blocker(b.path, false))
  {
    assert [b, c][1..] == [c];
    assert FirstBlocker(change, [c], {b.id}, false) == Some(Blocker(c.path, false));
  }

  lemma OnlyRemoval(gone: Change, added: Change)
    requires gone.kind == Removed && gone.task == Some(1) && added.kind == Added
    ensures Leaving([gone, added]) == if gone.apply then {1} else {}
  {
    if gone.apply {
      assert gone in [gone, added];
    }
  }

  lemma SameRemovals(changes: seq<Change>, here: Here, index: nat)
    requires index < |changes| && changes[index].kind == Removed && changes[index].apply
    requires changes[index].fields == map[]
    ensures var left := Chosen(changes, here, index, false);
            |left| == |changes| &&
            Leaving(left[index := SetApply(left[index], true)]) == Leaving(changes)
  {
    var left := Chosen(changes, here, index, false);
    var again := left[index := SetApply(left[index], true)];
    forall i | 0 <= i < |changes|
      ensures changes[i].kind == Removed || again[i].kind == Removed ==> again[i] == changes[i]
    {
      ChosenAt(changes, here, index, false, i);
      assert SetApply(SetApply(changes[index], false), true) == changes[index];
    }
    forall c | c in changes && c.kind == Removed ensures c in again {
      var i :| 0 <= i < |changes| && changes[i] == c;
      assert again[i] == c;
    }
    forall c | c in again && c.kind == Removed ensures c in changes {
      var i :| 0 <= i < |again| && again[i] == c;
      assert changes[i] == c;
    }
  }

  // ----- Taking or leaving them all -----

  predicate TakesAll(changes: seq<Change>, order: Option<OrderChange>) {
    && (forall c | c in changes :: (c.apply && !Mixed(c)) || c.inTheWay.Some?)
    && (order.Some? ==> order.value.apply)
  }

  predicate WhollySet(change: Change, apply: bool) {
    change.apply == apply && forall key | key in change.fields :: change.fields[key].take == apply
  }

  predicate AllLeft(changes: seq<Change>, order: Option<OrderChange>) {
    (forall c | c in changes :: WhollySet(c, false)) && (order.Some? ==> !order.value.apply)
  }

  /** Everything is taken but what something is in the way of. */
  predicate AllTaken(changes: seq<Change>, order: Option<OrderChange>) {
    (forall c | c in changes :: WhollySet(c, c.inTheWay.None?)) && (order.Some? ==> order.value.apply)
  }

  function SetAll(changes: seq<Change>, apply: bool): seq<Change> {
    seq(|changes|, i requires 0 <= i < |changes| => SetApply(changes[i], apply))
  }

  function SetUnblocked(changes: seq<Change>, apply: bool): seq<Change> {
    seq(|changes|, i requires 0 <= i < |changes| => SetApply(changes[i], apply && changes[i].inTheWay.None?))
  }

  function Toggled(changes: seq<Change>, order: Option<OrderChange>, here: Here): seq<Change> {
    var apply := !TakesAll(changes, order);
    SetUnblocked(Checked(SetAll(changes, apply), here), apply)
  }

  function ToggledOrder(changes: seq<Change>, order: Option<OrderChange>): Option<OrderChange> {
    if order.Some? then Some(order.value.(apply := !TakesAll(changes, order))) else None
  }

  lemma SetAllSound(changes: seq<Change>, apply: bool)
    requires forall c | c in changes :: Sound(c)
    ensures forall c | c in SetAll(changes, apply) :: Sound(c)
  {
    forall i | 0 <= i < |changes| ensures Sound(SetAll(changes, apply)[i]) {
      assert changes[i] in changes;
    }
  }

  /** Taking or leaving all of a settled plan whole, removals included, leaves it settled. */
  lemma SetUnblockedSettled(changes: seq<Change>, here: Here, apply: bool)
    requires Settled(changes, here)
    requires forall c | c in changes && c.kind == Removed :: c.apply == apply
    ensures Settled(SetUnblocked(changes, apply), here)
  {
    var after := SetUnblocked(changes, apply);
    forall i | 0 <= i < |changes|
      ensures Sound(after[i])
      ensures MarkedBlocker(after[i]) == MarkedBlocker(changes[i])
      ensures forall leaving :: BlockerOf(after[i], here, leaving) == BlockerOf(changes[i], here, leaving)
      ensures changes[i].kind == Removed ==> after[i] == changes[i]
    {
      assert changes[i] in changes;
      forall leaving ensures BlockerOf(after[i], here, leaving) == BlockerOf(changes[i], here, leaving) {
        BlockerAlike(after[i], changes[i], here, leaving);
      }
      if changes[i].kind == Removed {
        assert changes[i].inTheWay.None?;
        assert after[i].fields == changes[i].fields;
      }
    }
    assert Leaving(after) == Leaving(changes) by {
      forall c | c in changes && c.kind == Removed ensures c in after {
        var i :| 0 <= i < |changes| && changes[i] == c;
        assert after[i] == c;
      }
      forall c | c in after && c.kind == Removed ensures c in changes {
        var i :| 0 <= i < |after| && after[i] == c;
        assert changes[i] == c;
      }
    }
    forall i | 0 <= i < |after| && IsNew(after[i])
      ensures MarkedBlocker(after[i]) == BlockerOf(after[i], here, Leaving(after))
    {
      assert changes[i] in changes;
    }
  }

  /** Every field is taken, or every field is left. */
  predicate AllAlike(change: Change) {
    (forall key | key in change.fields :: change.fields[key].take) || forall key | key in change.fields :: !change.fields[key].take
  }

  lemma MixedIff(change: Change)
    ensures Mixed(change) <==> !AllAlike(change)
  {
  }

  /**
   `Toggled` alternates: whatever the choices were, it takes everything not
   blocked or leaves everything; from everything not blocked taken it leaves
   everything, and from everything left it takes everything not blocked. The
   marks stay right throughout.
   */
  lemma ToggleAlternates(changes: seq<Change>, order: Option<OrderChange>, here: Here)
    requires Settled(changes, here)
    ensures Settled(Toggled(changes, order, here), here)
    ensures if (forall c | c in changes :: c.inTheWay.Some? || (c.apply && AllAlike(c))) && (order.Some? ==> order.value.apply)
            then AllLeft(Toggled(changes, order, here), ToggledOrder(changes, order))
            else AllTaken(Toggled(changes, order, here), ToggledOrder(changes, order))
    ensures AllTaken(changes, order) ==>
            AllLeft(Toggled(changes, order, here), ToggledOrder(changes, order))
    ensures AllLeft(changes, order) ==>
            AllTaken(Toggled(changes, order, here), ToggledOrder(changes, order))
  {
    var apply := !TakesAll(changes, order);
    var all := SetAll(changes, apply);
    var checked := Checked(all, here);
    forall c | c in changes ensures Mixed(c) <==> !AllAlike(c) {
      MixedIff(c);
    }
    SetAllSound(changes, apply);
    CheckedIsSettled(all, here);
    forall c | c in checked && c.kind == Removed ensures c.apply == apply {
      var i :| 0 <= i < |checked| && checked[i] == c;
      assert changes[i] in changes;
    }
    SetUnblockedSettled(checked, here, apply);
    var after := Toggled(changes, order, here);
    forall c | c in after ensures WhollySet(c, apply && c.inTheWay.None?) {
      var i :| 0 <= i < |after| && after[i] == c;
      assert checked[i] in checked;
    }
    if AllTaken(changes, order) {
      assert TakesAll(changes, order);
    }
    if AllLeft(changes, order) && TakesAll(changes, order) {
      AllBlockedStays(changes, order, here);
    }
  }

  /** With everything left and nothing that could be taken, a toggle changes nothing. */
  lemma AllBlockedStays(changes: seq<Change>, order: Option<OrderChange>, here: Here)
    requires Settled(changes, here) && AllLeft(changes, order) && TakesAll(changes, order)
    ensures Toggled(changes, order, here) == changes
    ensures AllTaken(changes, order)
  {
    forall i | 0 <= i < |changes| ensures SetApply(changes[i], false) == changes[i] {
      assert changes[i] in changes;
      assert SetApply(changes[i], false).fields == changes[i].fields;
    }
    assert SetAll(changes, false) == changes;
    SettledStays(changes, here);
    assert SetUnblocked(changes, false) == changes;
  }

  // ----- The plan as the console holds it -----

  class Plan {
    var changes: seq<Change>
    var order: Option<OrderChange>
    const here: Here

    ghost predicate Valid()
      reads this
    {
      Settled(changes, here)
    }

    /** A plan of these changes, with the default choices. */
    constructor (changes: seq<Change>, order: Option<OrderChange>, here: Here)
      requires forall c | c in changes :: Sound(c)
      ensures Valid() && this.here == here && this.order == order
      ensures this.changes == Checked(changes, here)
    {
      this.changes, this.order, this.here := changes, order, here;
      new;
      CheckTheWay();
    }

    /** Gives every new change its blocker of now, or clears the one it had. */
    method CheckTheWay()
      requires forall c | c in changes :: Sound(c)
      modifies this`changes
      ensures changes == Checked(old(changes), here)
      ensures Valid()
    {
      ghost var before := changes;
      var leaving := Leaving(changes);
      CheckedIsSettled(changes, here);
      for i := 0 to |changes|
        invariant |changes| == |before|
        invariant forall j | 0 <= j < i :: changes[j] == Mark(before[j], BlockerOf(before[j], here, leaving))
        invariant forall j | i <= j < |changes| :: changes[j] == before[j]
      {
        var change := changes[i];
        if IsNew(change) {
          var blocker := BlockerOf(change, here, leaving);
          if blocker != MarkedBlocker(change) {
            var was := change.inTheWay;
            match blocker {
              case Some(b) =>
                change := change.(reason := Some(InTheWay(b)),
                                  inTheWay := Some((b, if was.Some? then was.value.1 else change.apply)),
                                  apply := false);
              case None =>
                change := change.(reason := NaturalReason(change), inTheWay := None, apply := was.Some? && was.value.1);
            }
            changes := changes[i := change];
          }
        }
      }
    }

    /** Switches the change at an index, then marks the new ones again. */
    method Choose(index: nat, apply: bool)
      requires Valid()
      modifies this`changes
      ensures Valid()
      ensures changes == Chosen(old(changes), here, index, apply)
    {
      if index < |changes| {
        assert changes[index] in changes;
        changes := changes[index := SetApply(changes[index], apply)];
        CheckTheWay();
      }
    }

    /** Switches on all that is not blocked; if that is how it stands, switches all off. */
    method ToggleAll()
      requires Valid()
      modifies this`changes, this`order
      ensures Valid()
      ensures changes == Toggled(old(changes), old(order), here)
      ensures order == ToggledOrder(old(changes), old(order))
      ensures old(AllTaken(changes, order)) ==> AllLeft(changes, order)
      ensures old(AllLeft(changes, order)) ==> AllTaken(changes, order)
    {
      ToggleAlternates(changes, order, here);
      var all := TakesAll(changes, order);
      SetAllSound(changes, !all);
      ApplyAll(!all);
      if order.Some? {
        order := Some(order.value.(apply := !all));
      }
      CheckTheWay();
      ApplyUnblocked(!all);
    }

    method ApplyAll(apply: bool)
      modifies this`changes
      ensures changes == SetAll(old(changes), apply)
    {
      ghost var before := changes;
      for i := 0 to |changes|
        invariant |changes| == |before|
        invariant forall j | 0 <= j < i :: changes[j] == SetApply(before[j], apply)
        invariant forall j | i <= j < |changes| :: changes[j] == before[j]
      {
        changes := changes[i := SetApply(changes[i], apply)];
      }
    }

    method ApplyUnblocked(apply: bool)
      modifies this`changes
      ensures changes == SetUnblocked(old(changes), apply)
    {
      ghost var before := changes;
      for i := 0 to |changes|
        invariant |changes| == |before|
        invariant forall j | 0 <= j < i :: changes[j] == SetApply(before[j], apply && before[j].inTheWay.None?)
        invariant forall j | i <= j < |changes| :: changes[j] == before[j]
      {
        changes := changes[i := SetApply(changes[i], apply && changes[i].inTheWay.None?)];
      }
    }
  }

  // ----- A plan starts out sound -----

  lemma EntryChangeSound(sight: Sight, moved: map<Path, Item>, entry: Entry)
    ensures forall c | c in EntryChange(sight, moved, entry) :: Sound(c)
  {
    match ItemFor(sight, moved, entry)
    case Some(item) =>
    case None => assert Sound(NewChange(sight, entry));
  }

  lemma {:induction false} EntryChangesSound(sight: Sight, moved: map<Path, Item>, entries: seq<Entry>)
    ensures forall c | c in EntryChanges(sight, moved, entries) :: Sound(c)
  {
    if entries != [] {
      EntryChangesSound(sight, moved, entries[..|entries| - 1]);
      EntryChangeSound(sight, moved, entries[|entries| - 1]);
    }
  }

  lemma {:induction false} RemovedChangesSound(sight: Sight, adopted: set<nat>, items: seq<Item>)
    ensures forall c | c in RemovedChanges(sight, adopted, items) :: Sound(c)
  {
    if items != [] {
      RemovedChangesSound(sight, adopted, items[..|items| - 1]);
    }
  }

  /** The changes a reload plans are ones the choices above are made on. */
  lemma PlannedIsSound(config: Config, base: Base, live: Live)
    ensures forall c | c in PlannedChanges(config, base, live) :: Sound(c)
  {
    forall folder: bool
      ensures forall c | c in SideChanges(folder, EntriesOf(config.entries, folder), base, Side(live, folder)) :: Sound(c)
    {
      var (entries, items) := (EntriesOf(config.entries, folder), Side(live, folder));
      var sight := See(folder, entries, base, items);
      var moved := GoneByPath(items, sight.inConfig);
      EntryChangesSound(sight, moved, entries);
      RemovedChangesSound(sight, Adopted(sight, moved, entries), items);
    }
  }
}
