/** The console's tree of tasks, kept up to date change by change. */
module TaskTree {
  import opened Paths
  import opened Specs
  import opened Orders
  import opened Tree
  import opened TreeAdd
  import opened TreeFlat
  import opened TreeRemove
  import opened TreeRows
  import opened TreeSaved
  import opened TreeState
  import opened Globs

  datatype FoldOp = OpenAll | CloseAll | Toggle

  /** The groups above a path with the path listed in each, and counted if it is a task's. */
  function Listed(nodes: Nodes, seeds: Seeds, p: Path, after: Option<Path>, task: Option<TaskView>, n: nat): Nodes {
    map q | q in nodes.Keys + Above(p) && (q in nodes || |q| < n) ::
      if q < p && |q| < n then ListedIn(nodes, seeds, p, after, task, q) else nodes[q]
  }

  /** The flags left once the first `n` groups above a path that were not there are made. */
  function SeedsFor(nodes: Nodes, seeds: Seeds, p: Path, n: nat): Seeds {
    map g | g in seeds && !(g < p && |g| < n && g !in nodes) :: seeds[g]
  }

  /** Nothing in the way of an entry: none at its path, but a group where a folder goes, and no task above it. */
  ghost predicate HasRoom(nodes: Nodes, p: Path, folder: bool) {
    && p != ROOT
    && (folder && p in nodes && nodes[p].Group? ==> nodes[p].folder.None?)
    && forall k | 0 <= k < |p| && p[..k] in nodes :: nodes[p[..k]].Group?
  }

  /** Where the cursor is put in new rows: on the path it was on, or else where it was, or on the last row. */
  function Cursor(rows: seq<Path>, was: Option<Path>, at: nat): nat {
    var index := if was.Some? && was.value in rows then IndexOf(rows, was.value) else at;
    if |rows| == 0 then 0 else if index < |rows| then index else |rows| - 1
  }

  /** A path that still has a row keeps the cursor; without it the cursor stays where it was, or goes to the last row. */
  lemma CursorIs(rows: seq<Path>, was: Option<Path>, at: nat)
    ensures var to := Cursor(rows, was, at);
            && (rows != [] ==> to < |rows|)
            && (was.Some? && was.value in rows ==> rows[to] == was.value)
            && (!(was.Some? && was.value in rows) ==> if at < |rows| then to == at else rows != [] ==> to == |rows| - 1)
  {
  }

  function Placed(paths: Places, id: Option<nat>): Option<Path> {
    if id.Some? && id.value in paths then Some(paths[id.value]) else None
  }

  function PathOf(rows: seq<Path>, len: nat, selected: nat): Option<Path> {
    if len > 0 && selected < |rows| then Some(rows[selected]) else None
  }

  /** A move is onto something else: anything for a task, and a task for a folder. */
  predicate Occupied(nodes: Nodes, p: Path, to: Path)
    requires p in nodes && IsEntry(nodes[p])
  {
    var rest := Removed(nodes, p);
    to in rest && (nodes[p].Task? || rest[to].Task?)
  }

  /** The tree after a move; one onto something else only takes the entry away. */
  function EntryMoved(nodes: Nodes, seeds: Seeds, p: Path, to: Path, after: Option<Path>): Nodes
    requires p in nodes && IsEntry(nodes[p])
  {
    if Occupied(nodes, p, to) then
      var left := Folded(Removed(nodes, p), ClosedAbove(nodes, p), true);
      if nodes[p].Task? then left else Folded(left, {to}, nodes[p].collapsed)
    else if nodes[p].Task? then Moved(nodes, seeds, p, to, after)
    else FolderMoved(nodes, seeds, p, to, after)
  }

  class TaskTree {
    var nodes: Nodes
    var paths: Places
    var rows: seq<Path>
    var len: nat
    var selected: nat
    var seeds: Seeds

    ghost predicate Valid() reads this {
      TreeOk(nodes, paths, seeds) && Shown()
    }

    /** The rows are those of the tree, and the cursor is on one of them. */
    ghost predicate Shown() reads this {
      rows == Rows(nodes) && len == |rows| && (if len == 0 then selected == 0 else selected < len)
    }

    /** The path the cursor is on. */
    function SelectedPath(): Option<Path> reads this {
      PathOf(rows, len, selected)
    }

    constructor WithGroups(groups: Seeds)
      requires ROOT !in groups
      ensures Valid() && nodes == map[] && paths == map[] && seeds == groups
    {
      nodes, paths, rows, len, selected, seeds := map[], map[], [], 0, 0, groups;
    }

    // ----- The rows -----

    /** Lists a group's subtree in preorder, skipping what collapsed groups hold. */
    static method Walk(nodes: Nodes, g: Path) returns (rows: seq<Path>)
      requires AllGroupsOk(nodes)
      ensures rows == if g in nodes && nodes[g].Group? then RowsList(nodes, g, nodes[g].children) else []
      decreases Below(nodes, g)
    {
      rows := [];
      if g !in nodes || nodes[g].Task? {
        return;
      }
      var children := nodes[g].children;
      assert GroupOk(nodes, g, nodes[g]);
      for i := 0 to |children|
        invariant rows == RowsList(nodes, g, children[..i])
      {
        var child := children[i];
        assert child in children && g < child;
        RowsStep(nodes, g, children, i);
        BelowShrinks(nodes, g, child);
        rows := rows + [child];
        if nodes[child].Group? && !nodes[child].collapsed {
          var under := Walk(nodes, child);
          rows := rows + under;
        }
      }
      assert children[..|children|] == children;
    }

    method Rebuild()
      requires AllGroupsOk(nodes)
      modifies this`rows, this`len, this`selected
      ensures Shown()
      ensures selected == Cursor(rows, old(SelectedPath()), if old(len) > 0 then old(selected) else 0)
    {
      var was := SelectedPath();
      var at := if len > 0 then selected else 0;
      rows := Walk(nodes, ROOT);
      if was.Some? && was.value in rows {
        at := IndexOf(rows, was.value);
      }
      len := |rows|;
      selected := if len == 0 then 0 else if at < len then at else len - 1;
    }

    method Select(path: Path)
      requires Shown()
      modifies this`selected
      ensures Shown()
      ensures path in rows ==> SelectedPath() == Some(path)
      ensures path !in rows ==> selected == old(selected)
    {
      if path in rows {
        selected := IndexOf(rows, path);
      }
    }

    // ----- Adding -----

    /** Lists a path in one group above it, made if nothing is there. */
    method ListIn(g: Path, p: Path, after: Option<Path>, task: Option<TaskView>)
      requires g < p
      modifies this`nodes, this`seeds
      ensures nodes == old(nodes)[g := ListedIn(old(nodes), old(seeds), p, after, task, g)]
      ensures seeds == if g in old(nodes) then old(seeds) else old(seeds) - {g}
    {
      ghost var was := nodes;
      if g !in nodes {
        nodes := nodes[g := NewGroup(Seeded(seeds, g, false))];
        seeds := seeds - {g};
      }
      var node := nodes[g];
      assert node == GroupAt(was, old(seeds), g);
      if node.Group? {
        if task.Some? {
          node := CountIn(node, task);
        }
        var beside := BesideIn(g, after);
        node := node.(children := PlaceChild(node.children, p[..|g| + 1], beside));
        nodes := nodes[g := node];
      }
      assert nodes == was[g := nodes[g]];
    }

    /** Makes every missing group on the way to a path, and lists each child in its parent. */
    method List(p: Path, after: Option<Path>, task: Option<TaskView>)
      modifies this`nodes, this`seeds
      ensures nodes == Listed(old(nodes), old(seeds), p, after, task, |p|)
      ensures seeds == SeedsFor(old(nodes), old(seeds), p, |p|)
    {
      ListedNone(nodes, seeds, p, after, task);
      for k := 0 to |p|
        invariant nodes == Listed(old(nodes), old(seeds), p, after, task, k)
        invariant seeds == SeedsFor(old(nodes), old(seeds), p, k)
      {
        ghost var (was, flags) := (nodes, seeds);
        ListIn(p[..k], p, after, task);
        ListedMore(old(nodes), old(seeds), p, after, task, k, was, flags, nodes, seeds);
      }
    }

    /** A task listed right after another; nothing when something is at its path. */
    method Add(task: TaskView, after: Option<nat>)
      requires Valid() && task.id !in paths && HasRoom(nodes, task.path, false)
      modifies this
      ensures Valid()
      ensures if task.path in old(nodes) then
                nodes == old(nodes) && paths == old(paths) && seeds == old(seeds) && SelectedPath() == old(SelectedPath())
              else
                && nodes == Added(old(nodes), old(seeds), TaskEntry(task), Placed(old(paths), after))
                && paths == old(paths)[task.id := task.path]
                && seeds == SeedsLeft(old(nodes), old(seeds), TaskEntry(task))
                && selected == Cursor(rows, old(SelectedPath()), if old(len) > 0 then old(selected) else 0)
    {
      if task.path in nodes {
        return;
      }
      var place := Placed(paths, after);
      ghost var entry := TaskEntry(task);
      Adding(nodes, paths, seeds, entry, after);
      List(task.path, place, Some(task));
      paths := paths[task.id := task.path];
      nodes := nodes[task.path := Task(task)];
      Rebuild();
    }

    /** Adds a folder beside an entry. It starts as given, unless its group or a saved flag says otherwise. */
    method AddFolder(id: nat, path: Path, after: Option<nat>, collapsed: bool)
      requires Valid() && id !in paths && HasRoom(nodes, path, true)
      modifies this
      ensures Valid()
      ensures if path in old(nodes) && old(nodes)[path].Task? then
                nodes == old(nodes) && paths == old(paths) && seeds == old(seeds) && SelectedPath() == old(SelectedPath())
              else
                && nodes == Added(old(nodes), old(seeds), FolderEntry(id, path, collapsed), Placed(old(paths), after))
                && paths == old(paths)[id := path]
                && seeds == SeedsLeft(old(nodes), old(seeds), FolderEntry(id, path, collapsed))
                && selected == Cursor(rows, old(SelectedPath()), if old(len) > 0 then old(selected) else 0)
    {
      if path in nodes && nodes[path].Task? {
        return;
      }
      var place := Placed(paths, after);
      ghost var entry := FolderEntry(id, path, collapsed);
      Adding(nodes, paths, seeds, entry, after);
      PutFolder(id, path, place, collapsed);
      paths := paths[id := path];
      Rebuild();
    }

    /** Lists a folder's path, and makes the folder there. */
    method PutFolder(id: nat, path: Path, place: Option<Path>, collapsed: bool)
      requires path in nodes ==> nodes[path].Group?
      modifies this`nodes, this`seeds
      ensures var (listed, left) := (Listed(old(nodes), old(seeds), path, place, None, |path|), SeedsFor(old(nodes), old(seeds), path, |path|));
              && nodes == listed[path := EntryNode(listed, left, FolderEntry(id, path, collapsed))]
              && seeds == if path in listed then left else left - {path}
    {
      List(path, place, None);
      ListedAt(old(nodes), old(seeds), path, place, None, |path|, path);
      MakeFolder(id, path, collapsed);
    }

    /** The group at a path becomes a folder, made if nothing is there. */
    method MakeFolder(id: nat, path: Path, collapsed: bool)
      requires path in nodes ==> nodes[path].Group?
      modifies this`nodes, this`seeds
      ensures nodes == old(nodes)[path := EntryNode(old(nodes), old(seeds), FolderEntry(id, path, collapsed))]
      ensures seeds == if path in old(nodes) then old(seeds) else old(seeds) - {path}
    {
      if path !in nodes {
        nodes := nodes[path := NewGroup(Seeded(seeds, path, collapsed))];
        seeds := seeds - {path};
      }
      nodes := nodes[path := nodes[path].(folder := Some(id))];
    }

    // ----- Taking away -----

    predicate IsFolder(id: nat) reads this {
      id in paths && paths[id] in nodes && nodes[paths[id]].Group? && nodes[paths[id]].folder == Some(id)
    }

    /** Goes up from a path that holds nothing now, unlisting it and every plain group that has no child left. */
    method Prune(path: Path)
      modifies this`nodes
      ensures nodes == Pruned(old(nodes), path)
    {
      var child := path;
      while child != ROOT
        invariant Pruned(nodes, child) == Pruned(old(nodes), path)
        decreases |child|
      {
        var parent := Parent(child);
        if child in nodes || parent !in nodes || nodes[parent].Task? {
          return;
        }
        ghost var was := nodes;
        var children := Without(nodes[parent].children, child);
        nodes := nodes[parent := nodes[parent].(children := children)];
        if parent != ROOT && children == [] && nodes[parent].folder.None? {
          nodes := nodes - {parent};
          assert nodes == was - {parent};
        }
        assert nodes == Unlisted(was, child);
        child := parent;
      }
    }

    /** Drops a folder's entry. A plain group remains for as long as it has children. */
    method TakeFolder(id: nat)
      requires Valid() && IsFolder(id)
      modifies this
      ensures Valid()
      ensures old(paths)[id] in old(nodes) && nodes == Removed(old(nodes), old(paths)[id])
      ensures paths == old(paths) - {id} && seeds == old(seeds)
      ensures selected == Cursor(rows, old(SelectedPath()), if old(len) > 0 then old(selected) else 0)
    {
      RemoveKeeps(nodes, paths, seeds, id);
      var path := paths[id];
      paths := paths - {id};
      ghost var was := nodes;
      nodes := nodes[path := nodes[path].(folder := None)];
      if nodes[path].children == [] {
        nodes := nodes - {path};
        assert nodes == was - {path};
      }
      Prune(path);
      Rebuild();
    }

    /** Takes a task away, and off the counts of the groups above it. */
    method Take(id: nat) returns (task: TaskView)
      requires Valid() && id in paths && !IsFolder(id)
      modifies this
      ensures Valid()
      ensures old(paths)[id] in old(nodes) && old(nodes)[old(paths)[id]] == Task(task) && task.id == id && task.path == old(paths)[id]
      ensures nodes == Removed(old(nodes), old(paths)[id]) && paths == old(paths) - {id} && seeds == old(seeds)
      ensures selected == Cursor(rows, old(SelectedPath()), if old(len) > 0 then old(selected) else 0)
    {
      RemoveKeeps(nodes, paths, seeds, id);
      TaskAt(nodes, paths, id);
      var path := paths[id];
      paths := paths - {id};
      task := nodes[path].view;
      nodes := nodes - {path};
      Uncount(path, task);
      UncountedWithout(old(nodes), path, task);
      Prune(path);
      Rebuild();
    }

    /** Takes a task off the counts of the groups above a path. */
    method Uncount(path: Path, task: TaskView)
      modifies this`nodes
      ensures nodes == UncountedTo(old(nodes), path, task, |path|)
    {
      for k := 0 to |path|
        invariant nodes == UncountedTo(old(nodes), path, task, k)
      {
        var above := path[..k];
        ghost var was := nodes;
        if above in nodes && nodes[above].Group? {
          nodes := nodes[above := CountOut(nodes[above], task)];
        }
        UncountedMore(old(nodes), path, task, k, was, nodes);
      }
    }

    /** Drops the entry with an id, whichever kind it is. */
    method Remove(id: nat)
      requires Valid()
      modifies this
      ensures Valid() && seeds == old(seeds) && paths == old(paths) - {id}
      ensures id in old(paths) ==> old(paths)[id] in old(nodes) && nodes == Removed(old(nodes), old(paths)[id])
      ensures id !in old(paths) ==> nodes == old(nodes) && SelectedPath() == old(SelectedPath())
    {
      assert IdPlaced(nodes, paths, id);
      assert id !in paths ==> paths - {id} == paths;
      if IsFolder(id) {
        TakeFolder(id);
      } else if id in paths {
        var task := Take(id);
      }
    }

    // ----- Moving -----

    /** Closes groups again, or opens them. */
    method Refold(groups: set<Path>, collapsed: bool)
      modifies this`nodes
      ensures nodes == Folded(old(nodes), groups, collapsed)
    {
      var left := groups;
      while left != {}
        invariant left <= groups && nodes == Folded(old(nodes), groups - left, collapsed)
        decreases |left|
      {
        var g :| g in left;
        if g in nodes && nodes[g].Group? {
          nodes := nodes[g := nodes[g].(collapsed := collapsed)];
        }
        left := left - {g};
      }
    }

    /** The id of the task the cursor is on. */
    function Current(): Option<nat> reads this {
      if SelectedPath().Some? && SelectedPath().value in nodes && nodes[SelectedPath().value].Task?
      then Some(nodes[SelectedPath().value].view.id) else None
    }

    /** Puts the cursor on a path that has a row. */
    method SelectAny(path: Option<Path>)
      requires Shown()
      modifies this`selected
      ensures Shown()
      ensures path.Some? && path.value in rows ==> SelectedPath() == path
    {
      if path.Some? {
        Select(path.value);
      }
    }

    /** The last part of a move: restores the flags noted before it, and the cursor. */
    method Reshow(above: set<Path>, path: Path, own: Option<bool>, want: Option<Path>)
      requires Valid()
      modifies this`nodes, this`rows, this`len, this`selected
      ensures Valid()
      ensures nodes == if own.Some? then Folded(Folded(old(nodes), above, true), {path}, own.value) else Folded(old(nodes), above, true)
      ensures want.Some? && want.value in rows ==> SelectedPath() == want
    {
      FoldKeeps(nodes, paths, seeds, above, true);
      Refold(above, true);
      if own.Some? {
        FoldKeeps(nodes, paths, seeds, {path}, own.value);
        Refold({path}, own.value);
      }
      Rebuild();
      SelectAny(want);
    }

    /**
     Relists a task or folder at a new path or a new place. The cursor follows it when
     it was there. An unknown id changes nothing.
     */
    method MoveTask(id: nat, path: Path, after: Option<nat>)
      requires Valid() && (id in paths && paths[id] in nodes ==> HasRoom(Removed(nodes, paths[id]), path, IsFolder(id)))
      modifies this
      ensures Valid()
      ensures id !in old(paths) ==>
                nodes == old(nodes) && paths == old(paths) && seeds == old(seeds) && SelectedPath() == old(SelectedPath())
      ensures id in old(paths) ==>
                && old(paths)[id] in old(nodes) && IsEntry(old(nodes)[old(paths)[id]])
                && nodes == EntryMoved(old(nodes), old(seeds), old(paths)[id], path, Placed(old(paths) - {id}, after))
                && paths == if Occupied(old(nodes), old(paths)[id], path) then old(paths) - {id} else old(paths)[id := path]
      ensures id in old(paths) ==>
                var was := old(SelectedPath());
                var want := if was == Some(old(paths)[id]) then Some(path) else was;
                want.Some? && want.value in rows ==> SelectedPath() == want
    {
      if IsFolder(id) {
        MoveFolder(id, path, after);
        return;
      }
      if id !in paths {
        return;
      }
      TaskAt(nodes, paths, id);
      CurrentIs(nodes, paths, id, SelectedPath());
      var selected := Current() == Some(id);
      var was := SelectedPath();
      var collapsed := ClosedAbove(nodes, paths[id]);
      RelistTask(id, path, after);
      Reshow(collapsed, path, None, if selected then Some(path) else was);
    }

    /** Takes a task away and lists it elsewhere, unless something is there. */
    method RelistTask(id: nat, path: Path, after: Option<nat>)
      requires Valid() && id in paths && IsTask(nodes, paths[id]) && HasRoom(Removed(nodes, paths[id]), path, false)
      modifies this
      ensures Valid()
      ensures var rest := Removed(old(nodes), old(paths)[id]);
              if path in rest then nodes == rest && paths == old(paths) - {id}
              else
                && nodes == Added(rest, old(seeds), TaskEntry(old(nodes)[old(paths)[id]].view.(path := path)), Placed(old(paths) - {id}, after))
                && paths == old(paths)[id := path]
    {
      TaskAt(nodes, paths, id);
      var task := Take(id);
      Add(task.(path := path), after);
      PathsAgain(old(paths), id, path);
    }

    /** Takes a folder away and lists it elsewhere, unless a task is there. */
    method RelistFolder(id: nat, path: Path, after: Option<nat>, collapsed: bool)
      requires Valid() && IsFolder(id) && HasRoom(Removed(nodes, paths[id]), path, true)
      modifies this
      ensures Valid() && old(paths)[id] in old(nodes)
      ensures var rest := Removed(old(nodes), old(paths)[id]);
              if path in rest && rest[path].Task? then nodes == rest && paths == old(paths) - {id}
              else
                && nodes == Added(rest, old(seeds), FolderEntry(id, path, collapsed), Placed(old(paths) - {id}, after))
                && paths == old(paths)[id := path]
    {
      TakeFolder(id);
      AddFolder(id, path, after, collapsed);
      PathsAgain(old(paths), id, path);
    }

    /** A folder listed elsewhere, shown as it was; the cursor stays on it, or on its row. */
    method MoveFolder(id: nat, path: Path, after: Option<nat>)
      requires Valid() && IsFolder(id) && HasRoom(Removed(nodes, paths[id]), path, true)
      modifies this
      ensures Valid() && old(paths)[id] in old(nodes) && IsEntry(old(nodes)[old(paths)[id]])
      ensures nodes == EntryMoved(old(nodes), old(seeds), old(paths)[id], path, Placed(old(paths) - {id}, after))
      ensures paths == if Occupied(old(nodes), old(paths)[id], path) then old(paths) - {id} else old(paths)[id := path]
      ensures var was := old(SelectedPath());
              var want := if was == Some(old(paths)[id]) then Some(path) else was;
              want.Some? && want.value in rows ==> SelectedPath() == want
    {
      var was := SelectedPath();
      var selected := was == Some(paths[id]);
      var own := nodes[paths[id]].collapsed;
      var above := ClosedAbove(nodes, paths[id]);
      RelistFolder(id, path, after, own);
      Reshow(above, path, Some(own), if selected then Some(path) else was);
    }

    // ----- Folding -----

    /** Changes the flags of some groups. A cursor left without a row goes to the nearest one shown above it. */
    method Fold(op: FoldOp, target: Option<seq<string>>)
      requires Valid()
      modifies this
      ensures Valid() && paths == old(paths) && seeds == old(seeds)
      ensures var groups := FoldTargets(old(nodes), target, old(SelectedPath()));
              nodes == Folded(old(nodes), groups, FoldsTo(old(nodes), op, groups))
      ensures FoldedAs(old(nodes), nodes, op, target, old(SelectedPath()))
      ensures old(SelectedPath()).Some? ==>
                && SelectedPath() == NearestShown(rows, old(SelectedPath()).value)
                && SelectedPath().Some?
    {
      var groups := FoldTargets(nodes, target, SelectedPath());
      var collapsed := FoldsTo(nodes, op, groups);
      var was := SelectedPath();
      FoldIs(nodes, op, target, was);
      FoldKeeps(nodes, paths, seeds, groups, collapsed);
      FoldShows(nodes, groups, collapsed, was);
      Refold(groups, collapsed);
      Rebuild();
      if was.Some? && was.value !in rows {
        var shown := NearestShown(rows, Parent(was.value));
        if shown.Some? {
          NearestIsLongest(rows, Parent(was.value));
          Select(shown.value);
        }
      }
    }

    // ----- A new status -----

    method SetStatus(id: nat, status: State)
      requires Valid()
      modifies this`nodes
      ensures Valid() && rows == old(rows)
      ensures id in paths && IsTask(old(nodes), paths[id]) ==>
                nodes == StatusSet(old(nodes), paths[id], status) && StatusOnly(old(nodes), nodes, paths[id], status)
      ensures !(id in paths && IsTask(old(nodes), paths[id])) ==> nodes == old(nodes)
    {
      if id !in paths || !IsTask(nodes, paths[id]) {
        return;
      }
      var path := paths[id];
      var was := nodes[path].view;
      var now := was.(status := status);
      StatusKeeps(nodes, paths, seeds, path, status);
      StatusKeepsRows(nodes, path, status);
      StatusIs(nodes, path, status);
      nodes := nodes[path := Task(now)];
      if IsUp(was) == IsUp(now) && HasFailed(was) == HasFailed(now) {
        SameCountsSameGroups(old(nodes), path, status);
      } else {
        CountAgain(path, was, now);
        StatusSetAbove(old(nodes), path, status);
      }
    }

    /** Counts a task as it is now in the groups above a path. */
    method CountAgain(path: Path, was: TaskView, now: TaskView)
      modifies this`nodes
      ensures nodes == CountedAgain(old(nodes), path, was, now, |path|)
    {
      for k := 0 to |path|
        invariant nodes == CountedAgain(old(nodes), path, was, now, k)
      {
        var above := path[..k];
        ghost var before := nodes;
        if above in nodes && nodes[above].Group? {
          nodes := nodes[above := CountSwap(nodes[above], was, now)];
        }
        CountedMore(old(nodes), path, was, now, k, before, nodes);
      }
    }
  }

  /** A task has a new status, and nothing else is new but counts. */
  ghost predicate StatusOnly(was: Nodes, now: Nodes, p: Path, status: State)
    requires IsTask(was, p)
  {
    && now.Keys == was.Keys && now[p] == Task(was[p].view.(status := status))
    && forall q | q in was && q != p ::
         if was[q].Task? then now[q] == was[q] else now[q].Group? && now[q] == was[q].(up := now[q].up, failed := now[q].failed)
  }

  lemma StatusIs(nodes: Nodes, p: Path, status: State)
    requires IsTask(nodes, p)
    ensures StatusOnly(nodes, StatusSet(nodes, p, status), p, status)
  {
  }

  /** Which groups a fold applies to: by pattern, or by where the cursor is. */
  function FoldTargets(nodes: Nodes, target: Option<seq<string>>, selected: Option<Path>): set<Path> {
    match target
    case Some(pattern) => set g | g in nodes && g != ROOT && nodes[g].Group? && Matches(pattern, g)
    case None =>
      if selected.None? || selected.value !in nodes then {}
      else if nodes[selected.value].Group? then {selected.value}
      else if Parent(selected.value) != ROOT then {Parent(selected.value)}
      else {}
  }

  /** Toggling closes the groups unless all are closed. */
  function FoldsTo(nodes: Nodes, op: FoldOp, groups: set<Path>): bool {
    match op
    case OpenAll => false
    case CloseAll => true
    case Toggle => !forall g | g in groups && g in nodes && nodes[g].Group? :: nodes[g].collapsed
  }

  /** A group that a fold is of: one that the pattern matches, or the one the cursor is on, or that its task is in. */
  predicate Targeted(nodes: Nodes, target: Option<seq<string>>, at: Option<Path>, g: Path) {
    && g in nodes && nodes[g].Group?
    && match target
       case Some(pattern) => g != ROOT && Matches(pattern, g)
       case None => at.Some? && at.value in nodes && if nodes[at.value].Group? then g == at.value else g == Parent(at.value) && g != ROOT
  }

  /** Those groups are all open, or all closed; a toggle closes them when some was open, and else opens them. The rest is as it was. */
  ghost predicate FoldedAs(was: Nodes, now: Nodes, op: FoldOp, target: Option<seq<string>>, at: Option<Path>) {
    && now.Keys == was.Keys
    && (forall g | g in was && !Targeted(was, target, at, g) :: now[g] == was[g])
    && (forall g | g in was && Targeted(was, target, at, g) ::
          && now[g].Group? && now[g] == was[g].(collapsed := now[g].collapsed)
          && (op == OpenAll ==> !now[g].collapsed)
          && (op == CloseAll ==> now[g].collapsed)
          && (op == Toggle ==> (now[g].collapsed <==> exists h | Targeted(was, target, at, h) :: !was[h].collapsed)))
  }

  lemma FoldIs(nodes: Nodes, op: FoldOp, target: Option<seq<string>>, at: Option<Path>)
    ensures var groups := FoldTargets(nodes, target, at);
            FoldedAs(nodes, Folded(nodes, groups, FoldsTo(nodes, op, groups)), op, target, at)
  {
    var groups := FoldTargets(nodes, target, at);
    forall g | g in nodes && nodes[g].Group? ensures g in groups <==> Targeted(nodes, target, at, g) {
    }
    forall g | Targeted(nodes, target, at, g) ensures g in groups {
    }
  }

  /** A path that had a row is shown after a fold, or something above it is. */
  lemma FoldShows(nodes: Nodes, groups: set<Path>, collapsed: bool, was: Option<Path>)
    requires WellFormed(nodes) && (was.Some? ==> was.value in Rows(nodes))
    ensures was.Some? ==> was.value != ROOT && NearestShown(Rows(Folded(nodes, groups, collapsed)), was.value).Some?
  {
    if was.Some? {
      RowsHave(nodes, was.value);
      FoldKeepsTree(nodes, groups, collapsed);
      ShownIsOutermost(Folded(nodes, groups, collapsed), was.value);
    }
  }

  /** The cursor is on the task of an id exactly when it is where the task is. */
  lemma CurrentIs(nodes: Nodes, paths: Places, id: nat, at: Option<Path>)
    requires PathsAgree(nodes, paths) && id in paths && (paths[id] in nodes ==> nodes[paths[id]].Task?)
    ensures at == Some(paths[id]) <==> at.Some? && at.value in nodes && nodes[at.value].Task? && nodes[at.value].view.id == id
  {
    assert IdPlaced(nodes, paths, id);
    if at.Some? {
      assert EntryPlaced(nodes, paths, at.value);
    }
  }

  // ----- What a step of a loop adds -----

  /** The rows of the first children, with one more. */
  lemma RowsStep(nodes: Nodes, g: Path, children: seq<Path>, i: nat)
    requires i < |children| && g < children[i] && children[i] in nodes
    ensures var (child, rows) := (children[i], RowsList(nodes, g, children[..i]));
            RowsList(nodes, g, children[..i + 1]) ==
            rows + [child] + if nodes[child].Group? && !nodes[child].collapsed then RowsList(nodes, child, nodes[child].children) else []
  {
    assert children[..i + 1][..i] == children[..i];
    assert RowsList(nodes, g, children[..i + 1]) == RowsList(nodes, g, children[..i]) + RowsAt(nodes, children[i]);
  }

  lemma OneLonger(p: Path, k: nat, q: Path)
    requires k < |p|
    ensures q < p && |q| < k + 1 <==> q == p[..k] || (q < p && |q| < k)
  {
    if q < p && |q| == k {
      assert q == p[..|q|];
    }
  }

  lemma ListedAt(nodes: Nodes, seeds: Seeds, p: Path, after: Option<Path>, task: Option<TaskView>, n: nat, q: Path)
    ensures var all := Listed(nodes, seeds, p, after, task, n);
            && (q in all <==> q in nodes || (q < p && |q| < n))
            && (q in all ==> all[q] == if q < p && |q| < n then ListedIn(nodes, seeds, p, after, task, q) else nodes[q])
  {
    AboveAre(p, q);
  }

  lemma ListedNone(nodes: Nodes, seeds: Seeds, p: Path, after: Option<Path>, task: Option<TaskView>)
    ensures Listed(nodes, seeds, p, after, task, 0) == nodes && SeedsFor(nodes, seeds, p, 0) == seeds
  {
    var all := Listed(nodes, seeds, p, after, task, 0);
    forall q ensures (q in all <==> q in nodes) && (q in all ==> all[q] == nodes[q]) {
      ListedAt(nodes, seeds, p, after, task, 0, q);
    }
  }

  /** A group is listed in the same way whatever groups above it are listed already. */
  lemma ListedAlike(nodes: Nodes, seeds: Seeds, was: Nodes, flags: Seeds, p: Path, after: Option<Path>, task: Option<TaskView>, g: Path)
    requires g < p && GroupAt(was, flags, g) == GroupAt(nodes, seeds, g)
    ensures ListedIn(was, flags, p, after, task, g) == ListedIn(nodes, seeds, p, after, task, g)
  {
  }

  lemma ListedMoreAt(nodes: Nodes, seeds: Seeds, p: Path, after: Option<Path>, task: Option<TaskView>, k: nat,
                     was: Nodes, node: Node, q: Path)
    requires k < |p| && was == Listed(nodes, seeds, p, after, task, k)
    requires node == ListedIn(nodes, seeds, p, after, task, p[..k])
    ensures var (now, all) := (was[p[..k] := node], Listed(nodes, seeds, p, after, task, k + 1));
            (q in now <==> q in all) && (q in now ==> now[q] == all[q])
  {
    ListedAt(nodes, seeds, p, after, task, k, q);
    ListedAt(nodes, seeds, p, after, task, k + 1, q);
    OneLonger(p, k, q);
  }

  lemma ListedMore(nodes: Nodes, seeds: Seeds, p: Path, after: Option<Path>, task: Option<TaskView>, k: nat,
                   was: Nodes, flags: Seeds, now: Nodes, left: Seeds)
    requires k < |p| && was == Listed(nodes, seeds, p, after, task, k) && flags == SeedsFor(nodes, seeds, p, k)
    requires now == was[p[..k] := ListedIn(was, flags, p, after, task, p[..k])]
    requires left == if p[..k] in was then flags else flags - {p[..k]}
    ensures now == Listed(nodes, seeds, p, after, task, k + 1) && left == SeedsFor(nodes, seeds, p, k + 1)
  {
    var (g, all) := (p[..k], Listed(nodes, seeds, p, after, task, k + 1));
    ListedAt(nodes, seeds, p, after, task, k, g);
    ListedAlike(nodes, seeds, was, flags, p, after, task, g);
    forall q ensures (q in now <==> q in all) && (q in now ==> now[q] == all[q]) {
      ListedMoreAt(nodes, seeds, p, after, task, k, was, now[g], q);
    }
    SeedsMore(nodes, seeds, p, k);
  }

  lemma SeedsMore(nodes: Nodes, seeds: Seeds, p: Path, k: nat)
    requires k < |p|
    ensures SeedsFor(nodes, seeds, p, k + 1) ==
            if p[..k] in nodes then SeedsFor(nodes, seeds, p, k) else SeedsFor(nodes, seeds, p, k) - {p[..k]}
  {
    forall q ensures q < p && |q| < k + 1 <==> q == p[..k] || (q < p && |q| < k) {
      OneLonger(p, k, q);
    }
  }

  /** What listing a path and putting its node there makes of the tree. */
  lemma ListedIsAdded(nodes: Nodes, seeds: Seeds, entry: Entry, after: Option<Path>)
    ensures Added(nodes, seeds, entry, after) ==
            Listed(nodes, seeds, entry.Path(), after, entry.TaskView(), |entry.Path()|)[entry.Path() := EntryNode(nodes, seeds, entry)]
  {
    var (p, all) := (entry.Path(), Added(nodes, seeds, entry, after));
    var put := Listed(nodes, seeds, p, after, entry.TaskView(), |p|)[p := EntryNode(nodes, seeds, entry)];
    forall q ensures (q in all <==> q in put) && (q in all ==> all[q] == put[q]) {
      ListedAt(nodes, seeds, p, after, entry.TaskView(), |p|, q);
      AddedAt(nodes, seeds, entry, after, q);
    }
  }

  lemma SeedsForAdded(nodes: Nodes, seeds: Seeds, entry: Entry)
    ensures SeedsLeft(nodes, seeds, entry) ==
            if entry.FolderEntry? && entry.Path() !in nodes then SeedsFor(nodes, seeds, entry.Path(), |entry.Path()|) - {entry.Path()}
            else SeedsFor(nodes, seeds, entry.Path(), |entry.Path()|)
  {
  }

  lemma AddRoom(nodes: Nodes, paths: Places, entry: Entry, after: Option<nat>)
    requires PathsAgree(nodes, paths) && HasRoom(nodes, entry.Path(), entry.FolderEntry?)
    requires entry.Path() in nodes ==> entry.FolderEntry? && nodes[entry.Path()].Group?
    ensures CanAdd(nodes, entry, Placed(paths, after))
  {
    if after.Some? {
      assert IdPlaced(nodes, paths, after.value);
    }
  }

  predicate IsTask(nodes: Nodes, p: Path) {
    p in nodes && nodes[p].Task?
  }

  /** What the add of an entry makes, once it is listed, and that the tree stays one. */
  lemma Adding(nodes: Nodes, paths: Places, seeds: Seeds, entry: Entry, after: Option<nat>)
    requires TreeOk(nodes, paths, seeds) && HasRoom(nodes, entry.Path(), entry.FolderEntry?) && entry.Id() !in paths
    requires entry.Path() in nodes ==> entry.FolderEntry? && nodes[entry.Path()].Group?
    ensures var (p, place) := (entry.Path(), Placed(paths, after));
            var (listed, left) := (Listed(nodes, seeds, p, place, entry.TaskView(), |p|), SeedsFor(nodes, seeds, p, |p|));
            && TreeOk(Added(nodes, seeds, entry, place), paths[entry.Id() := p], SeedsLeft(nodes, seeds, entry))
            && Added(nodes, seeds, entry, place) == listed[p := EntryNode(listed, left, entry)]
            && SeedsLeft(nodes, seeds, entry) == (if entry.FolderEntry? && p !in listed then left - {p} else left)
            && (p in listed ==> listed[p].Group?)
  {
    var (p, place) := (entry.Path(), Placed(paths, after));
    AddRoom(nodes, paths, entry, after);
    AddKeeps(nodes, paths, seeds, entry, place);
    ListedIsAdded(nodes, seeds, entry, place);
    SeedsForAdded(nodes, seeds, entry);
    ListedAt(nodes, seeds, p, place, entry.TaskView(), |p|, p);
  }

  function UncountedTo(nodes: Nodes, p: Path, task: TaskView, n: nat): Nodes {
    map q | q in nodes :: if q < p && |q| < n && nodes[q].Group? then CountOut(nodes[q], task) else nodes[q]
  }

  lemma UncountedWithout(nodes: Nodes, p: Path, task: TaskView)
    ensures UncountedTo(nodes - {p}, p, task, |p|) == Uncounted(nodes, p, task)
  {
  }

  lemma UncountedMore(nodes: Nodes, p: Path, task: TaskView, k: nat, was: Nodes, now: Nodes)
    requires k < |p| && was == UncountedTo(nodes, p, task, k)
    requires now == if p[..k] in was && was[p[..k]].Group? then was[p[..k] := CountOut(was[p[..k]], task)] else was
    ensures now == UncountedTo(nodes, p, task, k + 1)
  {
    forall q ensures q < p && |q| < k + 1 <==> q == p[..k] || (q < p && |q| < k) {
      OneLonger(p, k, q);
    }
  }

  /** A group that counts a task as it is now, and not as it was. */
  function CountSwap(node: Node, was: TaskView, now: TaskView): Node
    requires node.Group?
  {
    node.(up := node.up + Count(IsUp(now)) - Count(IsUp(was)),
          failed := node.failed + Count(HasFailed(now)) - Count(HasFailed(was)))
  }

  function CountedAgain(nodes: Nodes, p: Path, was: TaskView, now: TaskView, n: nat): Nodes {
    map q | q in nodes :: if q < p && |q| < n && nodes[q].Group? then CountSwap(nodes[q], was, now) else nodes[q]
  }

  lemma CountedMore(nodes: Nodes, p: Path, was: TaskView, now: TaskView, k: nat, before: Nodes, after: Nodes)
    requires k < |p| && before == CountedAgain(nodes, p, was, now, k)
    requires after == if p[..k] in before && before[p[..k]].Group? then before[p[..k] := CountSwap(before[p[..k]], was, now)]
                      else before
    ensures after == CountedAgain(nodes, p, was, now, k + 1)
  {
    forall q ensures q < p && |q| < k + 1 <==> q == p[..k] || (q < p && |q| < k) {
      OneLonger(p, k, q);
    }
  }

  lemma StatusSetAbove(nodes: Nodes, p: Path, status: State)
    requires p in nodes && nodes[p].Task?
    ensures var (was, now) := (nodes[p].view, nodes[p].view.(status := status));
            StatusSet(nodes, p, status) == CountedAgain(nodes[p := Task(now)], p, was, now, |p|)
  {
  }

  lemma PathsAgain(paths: Places, id: nat, path: Path)
    ensures (paths - {id})[id := path] == paths[id := path]
  {
  }

  /** An id that is no folder's is a task's. */
  lemma TaskAt(nodes: Nodes, paths: Places, id: nat)
    requires PathsAgree(nodes, paths) && AllTasksOk(nodes) && id in paths
    requires !(paths[id] in nodes && nodes[paths[id]].Group? && nodes[paths[id]].folder == Some(id))
    ensures paths[id] in nodes && nodes[paths[id]].Task? && nodes[paths[id]].view.id == id && nodes[paths[id]].view.path == paths[id]
  {
    assert IdPlaced(nodes, paths, id) && TaskOk(paths[id], nodes[paths[id]]);
  }

  /** A status changes no row. */
  lemma StatusKeepsRows(nodes: Nodes, p: Path, status: State)
    requires p in nodes && nodes[p].Task?
    ensures Rows(StatusSet(nodes, p, status)) == Rows(nodes)
  {
    var tree := StatusSet(nodes, p, status);
    forall q ensures AlikeAtNode(nodes, tree, q) {
    }
    SameRows(nodes, tree);
  }
}
