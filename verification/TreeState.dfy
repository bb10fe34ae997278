/**
 The state of the console's tree beside its nodes: paths by id, and saved flags that no
 group has taken up yet.
 */
module TreeState {
  import opened Paths
  import opened Specs
  import opened Orders
  import opened Tree
  import opened TreeAdd
  import opened TreeFlat
  import opened TreeInsert
  import opened TreeRemove
  import opened TreeRows
  import opened TreeSaved
  import opened TreeWhere

  type Places = map<nat, Path>

  function EntryId(node: Node): nat
    requires IsEntry(node)
  {
    if node.Task? then node.view.id else node.folder.value
  }

  ghost predicate IdPlaced(nodes: Nodes, paths: Places, id: nat) {
    id in paths ==> paths[id] in nodes && IsEntry(nodes[paths[id]]) && EntryId(nodes[paths[id]]) == id
  }

  ghost predicate EntryPlaced(nodes: Nodes, paths: Places, p: Path) {
    p in nodes && IsEntry(nodes[p]) ==> EntryId(nodes[p]) in paths && paths[EntryId(nodes[p])] == p
  }

  /** Each id leads to its task or folder, and each task and folder is led to by its id. */
  ghost predicate PathsAgree(nodes: Nodes, paths: Places) {
    && (forall id {:trigger IdPlaced(nodes, paths, id)} :: IdPlaced(nodes, paths, id))
    && (forall p {:trigger EntryPlaced(nodes, paths, p)} :: EntryPlaced(nodes, paths, p))
  }

  /** A group that is listed has taken its flag. */
  ghost predicate SeedsTaken(nodes: Nodes, seeds: Seeds) {
    ROOT !in seeds && forall g | g in nodes && nodes[g].Group? :: g !in seeds
  }

  ghost predicate TreeOk(nodes: Nodes, paths: Places, seeds: Seeds) {
    WellFormed(nodes) && Counted(nodes) && PathsAgree(nodes, paths) && SeedsTaken(nodes, seeds)
  }

  // ----- Adding -----

  lemma AddPlaces(nodes: Nodes, paths: Places, seeds: Seeds, entry: Entry, after: Option<Path>)
    requires AllGroupsOk(nodes) && PathsAgree(nodes, paths) && CanAdd(nodes, entry, after) && entry.Id() !in paths
    ensures PathsAgree(Added(nodes, seeds, entry, after), paths[entry.Id() := entry.Path()])
  {
    var (tree, all) := (Added(nodes, seeds, entry, after), paths[entry.Id() := entry.Path()]);
    forall id ensures IdPlaced(tree, all, id) {
      assert IdPlaced(nodes, paths, id);
      if id in all {
        AddedAt(nodes, seeds, entry, after, all[id]);
        if all[id] < entry.Path() {
          GroupAbove(nodes, seeds, entry, after, all[id]);
        }
      }
    }
    forall p ensures EntryPlaced(tree, all, p) {
      assert EntryPlaced(nodes, paths, p);
      AddedAt(nodes, seeds, entry, after, p);
      if p < entry.Path() {
        GroupAbove(nodes, seeds, entry, after, p);
      }
    }
  }

  lemma AddTakesSeeds(nodes: Nodes, seeds: Seeds, entry: Entry, after: Option<Path>)
    requires SeedsTaken(nodes, seeds) && CanAdd(nodes, entry, after)
    ensures SeedsTaken(Added(nodes, seeds, entry, after), SeedsLeft(nodes, seeds, entry))
  {
    var tree := Added(nodes, seeds, entry, after);
    forall g | g in tree && tree[g].Group? ensures g !in SeedsLeft(nodes, seeds, entry) {
      AddedAt(nodes, seeds, entry, after, g);
    }
  }

  /** Adding keeps everything the tree keeps. */
  lemma AddKeeps(nodes: Nodes, paths: Places, seeds: Seeds, entry: Entry, after: Option<Path>)
    requires TreeOk(nodes, paths, seeds) && CanAdd(nodes, entry, after) && entry.Id() !in paths
    ensures TreeOk(Added(nodes, seeds, entry, after), paths[entry.Id() := entry.Path()], SeedsLeft(nodes, seeds, entry))
  {
    AddKeepsTree(nodes, seeds, entry, after);
    AddKeepsCounts(nodes, seeds, entry, after);
    AddPlaces(nodes, paths, seeds, entry, after);
    AddTakesSeeds(nodes, seeds, entry, after);
  }

  // ----- Taking away -----

  /** Pruning takes plain groups away, and leaves the other nodes but for their children. */
  lemma {:induction false} PrunedAt(nodes: Nodes, child: Path, q: Path)
    ensures q in Pruned(nodes, child) ==> q in nodes && KeptNode(nodes[q], Pruned(nodes, child)[q])
    ensures q in nodes && q !in Pruned(nodes, child) ==> nodes[q].Group? && nodes[q].folder.None?
    decreases |child|
  {
    if child == ROOT || child in nodes || Parent(child) !in nodes || nodes[Parent(child)].Task? {
    } else {
      UnlistedAt(nodes, child, q);
      PrunedAt(Unlisted(nodes, child), Parent(child), q);
    }
  }

  /** The same task, or a group shown the same that is the same folder, or none. */
  predicate KeptNode(a: Node, b: Node) {
    if a.Task? then a == b
    else b.Group? && b.folder == a.folder && b.collapsed == a.collapsed
  }

  /** What a removal leaves of the other entries. */
  lemma RemovedAt(nodes: Nodes, p: Path, q: Path)
    requires WellFormed(nodes) && CanTake(nodes, p)
    ensures q in Removed(nodes, p) ==>
              q in nodes && if q == p then nodes[q].Group? && Removed(nodes, p)[q].Group? && Removed(nodes, p)[q].folder.None? && Removed(nodes, p)[q].collapsed == nodes[q].collapsed
                            else KeptNode(nodes[q], Removed(nodes, p)[q])
    ensures q in nodes && q !in Removed(nodes, p) && q != p ==> nodes[q].Group? && nodes[q].folder.None?
  {
    TakenAt(nodes, p, q);
    PrunedAt(Taken(nodes, p), p, q);
  }

  lemma RemovePlaces(nodes: Nodes, paths: Places, id: nat)
    requires WellFormed(nodes) && PathsAgree(nodes, paths) && id in paths
    ensures CanTake(nodes, paths[id]) && PathsAgree(Removed(nodes, paths[id]), paths - {id})
  {
    assert IdPlaced(nodes, paths, id);
    var (tree, rest) := (Removed(nodes, paths[id]), paths - {id});
    forall i ensures IdPlaced(tree, rest, i) {
      if i in rest {
        assert IdPlaced(nodes, paths, i);
        RemovedAt(nodes, paths[id], paths[i]);
      }
    }
    forall q ensures EntryPlaced(tree, rest, q) {
      assert EntryPlaced(nodes, paths, q);
      RemovedAt(nodes, paths[id], q);
    }
  }

  lemma RemoveTakesSeeds(nodes: Nodes, seeds: Seeds, p: Path)
    requires WellFormed(nodes) && CanTake(nodes, p) && SeedsTaken(nodes, seeds)
    ensures SeedsTaken(Removed(nodes, p), seeds)
  {
    forall g | g in Removed(nodes, p) && Removed(nodes, p)[g].Group? ensures g !in seeds {
      RemovedAt(nodes, p, g);
    }
  }

  /** Taking an entry away keeps everything the tree keeps. */
  lemma RemoveKeeps(nodes: Nodes, paths: Places, seeds: Seeds, id: nat)
    requires TreeOk(nodes, paths, seeds) && id in paths
    ensures CanTake(nodes, paths[id]) && TreeOk(Removed(nodes, paths[id]), paths - {id}, seeds)
  {
    RemovePlaces(nodes, paths, id);
    RemoveKeepsTree(nodes, paths[id]);
    RemoveKeepsCounts(nodes, paths[id]);
    RemoveTakesSeeds(nodes, seeds, paths[id]);
  }

  // ----- Folding -----

  lemma FoldKeeps(nodes: Nodes, paths: Places, seeds: Seeds, groups: set<Path>, collapsed: bool)
    requires TreeOk(nodes, paths, seeds)
    ensures TreeOk(Folded(nodes, groups, collapsed), paths, seeds)
  {
    var tree := Folded(nodes, groups, collapsed);
    FoldKeepsTree(nodes, groups, collapsed);
    FoldKeepsCounts(nodes, groups, collapsed);
    forall id ensures IdPlaced(tree, paths, id) {
      assert IdPlaced(nodes, paths, id);
    }
    forall p ensures EntryPlaced(tree, paths, p) {
      assert EntryPlaced(nodes, paths, p);
    }
  }

  // ----- A new status -----

  /** The tree once a task has another status, each group above counting it as it is now. */
  function StatusSet(nodes: Nodes, p: Path, status: State): Nodes
    requires p in nodes && nodes[p].Task?
  {
    var was := nodes[p].view;
    var now := was.(status := status);
    map q | q in nodes ::
      if q == p then Task(now)
      else if q < p && nodes[q].Group? then
        nodes[q].(up := nodes[q].up + Count(IsUp(now)) - Count(IsUp(was)),
                  failed := nodes[q].failed + Count(HasFailed(now)) - Count(HasFailed(was)))
      else nodes[q]
  }

  lemma StatusUnder(nodes: Nodes, p: Path, status: State, g: Path)
    requires p in nodes && nodes[p].Task?
    ensures var (tree, was) := (StatusSet(nodes, p, status), nodes[p].view);
            var now := was.(status := status);
            && TasksUnder(tree, g) == TasksUnder(nodes, g)
            && UpUnder(tree, g) == Less(UpUnder(nodes, g), p, g < p && IsUp(was)) + More(g < p && IsUp(now), p)
            && FailedUnder(tree, g) == Less(FailedUnder(nodes, g), p, g < p && HasFailed(was)) + More(g < p && HasFailed(now), p)
            && (p in UpUnder(nodes, g) <==> g < p && IsUp(was))
            && (p in FailedUnder(nodes, g) <==> g < p && HasFailed(was))
  {
  }

  lemma SwapSize(s: set<Path>, p: Path, was: bool, now: bool)
    requires p in s <==> was
    ensures |Less(s, p, was) + More(now, p)| == |s| + Count(now) - Count(was)
  {
    LessSize(s, p, was);
    MoreSize(Less(s, p, was), now, p);
  }

  lemma RecountSwapped(nodes: Nodes, tree: Nodes, g: Path, p: Path, before: Node, node: Node,
                       wasUp: bool, up: bool, hadFailed: bool, failed: bool)
    requires TasksUnder(tree, g) == TasksUnder(nodes, g)
    requires UpUnder(tree, g) == Less(UpUnder(nodes, g), p, wasUp) + More(up, p) && (p in UpUnder(nodes, g) <==> wasUp)
    requires FailedUnder(tree, g) == Less(FailedUnder(nodes, g), p, hadFailed) + More(failed, p)
    requires p in FailedUnder(nodes, g) <==> hadFailed
    requires before.Group? && Recount(nodes, g, before) && node.Group? && node.tasks == before.tasks
    requires node.up == before.up + Count(up) - Count(wasUp)
    requires node.failed == before.failed + Count(failed) - Count(hadFailed)
    ensures Recount(tree, g, node)
  {
    SwapSize(UpUnder(nodes, g), p, wasUp, up);
    SwapSize(FailedUnder(nodes, g), p, hadFailed, failed);
  }

  lemma StatusRecount(nodes: Nodes, p: Path, status: State, g: Path)
    requires p in nodes && nodes[p].Task? && g in nodes && Recount(nodes, g, nodes[g])
    ensures var tree := StatusSet(nodes, p, status); Recount(tree, g, tree[g])
  {
    var (was, tree) := (nodes[p].view, StatusSet(nodes, p, status));
    var now := was.(status := status);
    StatusUnder(nodes, p, status, g);
    if nodes[g].Group? {
      RecountSwapped(nodes, tree, g, p, nodes[g], tree[g],
                     g < p && IsUp(was), g < p && IsUp(now), g < p && HasFailed(was), g < p && HasFailed(now));
    }
  }

  lemma StatusKeepsCounts(nodes: Nodes, p: Path, status: State)
    requires Counted(nodes) && p in nodes && nodes[p].Task?
    ensures Counted(StatusSet(nodes, p, status))
  {
    var tree := StatusSet(nodes, p, status);
    forall g | g in tree ensures Recount(tree, g, tree[g]) {
      assert Recount(nodes, g, nodes[g]);
      StatusRecount(nodes, p, status, g);
    }
  }

  lemma StatusKeepsTree(nodes: Nodes, p: Path, status: State)
    requires WellFormed(nodes) && p in nodes && nodes[p].Task?
    ensures WellFormed(StatusSet(nodes, p, status))
  {
    var tree := StatusSet(nodes, p, status);
    forall q | q in tree ensures Linked(tree, q) && GroupOk(tree, q, tree[q]) && TaskOk(q, tree[q]) {
      assert Linked(nodes, q) && GroupOk(nodes, q, nodes[q]) && TaskOk(q, nodes[q]);
    }
  }

  lemma StatusKeepsPaths(nodes: Nodes, paths: Places, p: Path, status: State)
    requires PathsAgree(nodes, paths) && p in nodes && nodes[p].Task?
    ensures PathsAgree(StatusSet(nodes, p, status), paths)
  {
    var tree := StatusSet(nodes, p, status);
    forall id ensures IdPlaced(tree, paths, id) {
      assert IdPlaced(nodes, paths, id);
    }
    forall q ensures EntryPlaced(tree, paths, q) {
      assert EntryPlaced(nodes, paths, q);
    }
  }

  /** A new status keeps everything the tree keeps. */
  lemma StatusKeeps(nodes: Nodes, paths: Places, seeds: Seeds, p: Path, status: State)
    requires TreeOk(nodes, paths, seeds) && p in nodes && nodes[p].Task?
    ensures TreeOk(StatusSet(nodes, p, status), paths, seeds)
  {
    StatusKeepsTree(nodes, p, status);
    StatusKeepsCounts(nodes, p, status);
    StatusKeepsPaths(nodes, paths, p, status);
  }

  /** A status no group counts changes no group. */
  lemma SameCountsSameGroups(nodes: Nodes, p: Path, status: State)
    requires p in nodes && nodes[p].Task?
    requires var now := nodes[p].view.(status := status);
             IsUp(now) == IsUp(nodes[p].view) && HasFailed(now) == HasFailed(nodes[p].view)
    ensures StatusSet(nodes, p, status) == nodes[p := Task(nodes[p].view.(status := status))]
  {
  }

  // ----- Moving -----

  /** The closed groups above a path. */
  function ClosedAbove(nodes: Nodes, p: Path): set<Path> {
    set g | g in Above(p) && Closed(nodes, g)
  }

  /** The tree once a task is elsewhere, the groups that were above it shown as they were. */
  function Moved(nodes: Nodes, seeds: Seeds, p: Path, to: Path, after: Option<Path>): Nodes
    requires p in nodes && nodes[p].Task?
  {
    Folded(Added(Removed(nodes, p), seeds, TaskEntry(nodes[p].view.(path := to)), after), ClosedAbove(nodes, p), true)
  }

  /** The tree once a folder is elsewhere, its group and those that were above it shown as they were. */
  function FolderMoved(nodes: Nodes, seeds: Seeds, p: Path, to: Path, after: Option<Path>): Nodes
    requires p in nodes && nodes[p].Group? && nodes[p].folder.Some?
  {
    var entry := FolderEntry(nodes[p].folder.value, to, nodes[p].collapsed);
    Folded(Folded(Added(Removed(nodes, p), seeds, entry, after), ClosedAbove(nodes, p), true), {to}, nodes[p].collapsed)
  }

  /** A group there before a move and after it is shown as it was. */
  lemma MoveKeepsFolds(nodes: Nodes, seeds: Seeds, p: Path, to: Path, after: Option<Path>, g: Path)
    requires WellFormed(nodes) && SeedsTaken(nodes, seeds) && CanTake(nodes, p) && nodes[p].Task?
    requires CanAdd(Removed(nodes, p), TaskEntry(nodes[p].view.(path := to)), after)
    requires g in nodes && nodes[g].Group? && g in Moved(nodes, seeds, p, to, after) && Moved(nodes, seeds, p, to, after)[g].Group?
    ensures Moved(nodes, seeds, p, to, after)[g].collapsed == nodes[g].collapsed
  {
    var entry := TaskEntry(nodes[p].view.(path := to));
    AboveAre(p, g);
    RemovedAt(nodes, p, g);
    RemoveKeepsTree(nodes, p);
    AddedAt(Removed(nodes, p), seeds, entry, after, g);
    if g < to {
      GroupAbove(Removed(nodes, p), seeds, entry, after, g);
    }
    PrunedOnTheWay(Taken(nodes, p), p, g);
    TakenAt(nodes, p, g);
  }

  /** A group that pruning takes away is above the path. */
  lemma {:induction false} PrunedOnTheWay(nodes: Nodes, child: Path, g: Path)
    ensures g in nodes && g !in Pruned(nodes, child) ==> g < child
    decreases |child|
  {
    if child == ROOT || child in nodes || Parent(child) !in nodes || nodes[Parent(child)].Task? {
    } else {
      UnlistedAt(nodes, child, g);
      PrunedOnTheWay(Unlisted(nodes, child), Parent(child), g);
    }
  }

  lemma FolderMoveKeepsFolds(nodes: Nodes, seeds: Seeds, p: Path, to: Path, after: Option<Path>, g: Path)
    requires WellFormed(nodes) && SeedsTaken(nodes, seeds) && CanTake(nodes, p) && nodes[p].Group? && nodes[p].folder.Some?
    requires CanAdd(Removed(nodes, p), FolderEntry(nodes[p].folder.value, to, nodes[p].collapsed), after)
    requires g in FolderMoved(nodes, seeds, p, to, after) && FolderMoved(nodes, seeds, p, to, after)[g].Group?
    ensures g == to ==> FolderMoved(nodes, seeds, p, to, after)[g].collapsed == nodes[p].collapsed
    ensures g != to && g in nodes && nodes[g].Group? && !(g == p && g !in Removed(nodes, p)) ==>
              FolderMoved(nodes, seeds, p, to, after)[g].collapsed == nodes[g].collapsed
  {
    var entry := FolderEntry(nodes[p].folder.value, to, nodes[p].collapsed);
    AboveAre(p, g);
    RemovedAt(nodes, p, g);
    RemoveKeepsTree(nodes, p);
    AddedAt(Removed(nodes, p), seeds, entry, after, g);
    if g < to {
      GroupAbove(Removed(nodes, p), seeds, entry, after, g);
    }
    PrunedOnTheWay(Taken(nodes, p), p, g);
    TakenAt(nodes, p, g);
  }

  /** A move takes an entry from its place in the list and puts it right after the other, whenever the kernel could keep that. */
  lemma MoveRelists(nodes: Nodes, seeds: Seeds, p: Path, to: Path, after: Option<Path>)
    requires WellFormed(nodes) && CanTake(nodes, p) && nodes[p].Task?
    requires CanAdd(Removed(nodes, p), TaskEntry(nodes[p].view.(path := to)), after)
    ensures p in Flat(nodes)
    ensures var moved := PutInList(RemoveAt(Flat(nodes), IndexOf(Flat(nodes), p)), to, after);
            Flat(Moved(nodes, seeds, p, to, after)) == moved <==> Listable(moved)
  {
    var entry := TaskEntry(nodes[p].view.(path := to));
    RemoveDrops(nodes, p);
    RemoveKeepsTree(nodes, p);
    AddInserts(Removed(nodes, p), seeds, entry, after);
    FoldKeepsFlat(Added(Removed(nodes, p), seeds, entry, after), ClosedAbove(nodes, p), true);
  }

  /** So does a folder's move; the group that it was stays in its place while something is under it. */
  lemma FolderMoveRelists(nodes: Nodes, seeds: Seeds, p: Path, to: Path, after: Option<Path>)
    requires WellFormed(nodes) && CanTake(nodes, p) && nodes[p].Group? && nodes[p].folder.Some?
    requires CanAdd(Removed(nodes, p), FolderEntry(nodes[p].folder.value, to, nodes[p].collapsed), after)
    ensures p in Flat(nodes)
    ensures var moved := PutInList(RemoveAt(Flat(nodes), IndexOf(Flat(nodes), p)), to, after);
            Flat(FolderMoved(nodes, seeds, p, to, after)) == moved <==> Listable(moved)
  {
    var entry := FolderEntry(nodes[p].folder.value, to, nodes[p].collapsed);
    var added := Added(Removed(nodes, p), seeds, entry, after);
    RemoveDrops(nodes, p);
    RemoveKeepsTree(nodes, p);
    AddInserts(Removed(nodes, p), seeds, entry, after);
    FoldKeepsFlat(added, ClosedAbove(nodes, p), true);
    FoldKeepsFlat(Folded(added, ClosedAbove(nodes, p), true), {to}, nodes[p].collapsed);
  }
}
