/** Loading a config: its files, each with the files its `load` names, and the checks on the paths of all of them. */
module ConfigLoad {
  import opened Paths
  import opened Specs

  /** A canonical path in the file system: the names from its root. */
  type File = seq<string>

  const PROJECT_FILE := "dekit.yaml"

  /** An entry under `tasks:`, or one that is refused whatever else there is. */
  datatype Item = TaskItem(name: Path) | FolderItem(name: Path) | Refused

  /** A file that a `load` pattern matches, and where it is mounted from the file that loads it. */
  datatype Child = Child(file: File, mount: Path)

  /** What is in a file that can be read. */
  datatype Content = Content(items: seq<Item>, children: seq<Child>)

  type Files = map<File, Content>

  /** An entry as the loader met it. */
  datatype Met = MetTask(path: Path) | MetFolder(path: Path)

  datatype Folder = Folder(path: Path, at: nat)

  // ----- What a file holds, in order -----

  /** An item's path, unless the item is refused: no path is empty. */
  function MetOf(item: Item, mount: Path): Option<Met> {
    match item
    case TaskItem(name) => if mount + name == ROOT then None else Some(MetTask(mount + name))
    case FolderItem(name) => if name == ROOT then None else Some(MetFolder(mount + name))
    case Refused => None
  }

  function ItemsMet(items: seq<Item>, mount: Path): Option<seq<Met>> {
    if items == [] then Some([])
    else
      var (before, last) := (ItemsMet(items[..|items| - 1], mount), MetOf(items[|items| - 1], mount));
      if before.None? || last.None? then None else Some(before.value + [last.value])
  }

  /** A file that can be loaded: there, in the project, no other project's own, and not being loaded already. */
  predicate Loads(files: Files, root: File, stack: seq<File>, file: File, isRoot: bool) {
    && file in files && root <= file && file !in stack
    && (!isRoot ==> file != [] && file[|file| - 1] != PROJECT_FILE)
  }

  function FilesLeft(files: Files, stack: seq<File>): set<File> {
    set file | file in files && file !in stack
  }

  lemma OneFewer(files: Files, stack: seq<File>, file: File)
    requires file in files && file !in stack
    ensures FilesLeft(files, stack + [file]) < FilesLeft(files, stack)
  {
    assert file in FilesLeft(files, stack);
  }

  /** The entries of a file in order: its own, then those of each file it loads. */
  function FileMet(files: Files, root: File, stack: seq<File>, file: File, mount: Path, isRoot: bool): Option<seq<Met>>
    decreases FilesLeft(files, stack), 1, 0
  {
    if !Loads(files, root, stack, file, isRoot) then None
    else
      OneFewer(files, stack, file);
      var own := ItemsMet(files[file].items, mount);
      var below := ChildrenMet(files, root, stack + [file], file, mount, files[file].children);
      if own.None? || below.None? then None else Some(own.value + below.value)
  }

  /** What a file on the stack holds, and then what it loads. */
  function ContentMet(files: Files, root: File, stack: seq<File>, file: File, mount: Path): Option<seq<Met>>
    requires file in files
  {
    var own := ItemsMet(files[file].items, mount);
    var below := ChildrenMet(files, root, stack, file, mount, files[file].children);
    if own.None? || below.None? then None else Some(own.value + below.value)
  }

  lemma FileIs(files: Files, root: File, stack: seq<File>, file: File, mount: Path, isRoot: bool)
    requires Loads(files, root, stack, file, isRoot)
    ensures FileMet(files, root, stack, file, mount, isRoot) == ContentMet(files, root, stack + [file], file, mount)
  {
  }

  /** Those of the files one loads, in order; a pattern that matches the file itself loads it no more. */
  function ChildrenMet(files: Files, root: File, stack: seq<File>, file: File, mount: Path, children: seq<Child>): Option<seq<Met>>
    decreases FilesLeft(files, stack), 2, |children|
  {
    if children == [] then Some([])
    else
      var last := children[|children| - 1];
      var before := ChildrenMet(files, root, stack, file, mount, children[..|children| - 1]);
      if before.None? then None
      else if last.file == file then before
      else
        var met := FileMet(files, root, stack, last.file, mount + last.mount, false);
        if met.None? then None else Some(before.value + met.value)
  }

  // ----- The lists a config keeps -----

  function TasksOf(met: seq<Met>): seq<Path> {
    if met == [] then []
    else TasksOf(met[..|met| - 1]) + if met[|met| - 1].MetTask? then [met[|met| - 1].path] else []
  }

  /** Each folder with how many tasks were met before it. */
  function FoldersOf(met: seq<Met>): seq<Folder> {
    if met == [] then []
    else
      FoldersOf(met[..|met| - 1]) +
      if met[|met| - 1].MetFolder? then [Folder(met[|met| - 1].path, |TasksOf(met[..|met| - 1])|)] else []
  }

  predicate NoTaskTwice(met: seq<Met>) {
    forall i, j | 0 <= i < j < |met| && met[i].MetTask? && met[j].MetTask? :: met[i].path != met[j].path
  }

  lemma TasksHave(met: seq<Met>, path: Path)
    ensures path in TasksOf(met) <==> MetTask(path) in met
  {
    if met != [] {
      var (init, last) := (met[..|met| - 1], met[|met| - 1]);
      assert met == init + [last];
      TasksHave(init, path);
    }
  }

  lemma OneMore(met: seq<Met>, last: Met)
    ensures TasksOf(met + [last]) == TasksOf(met) + if last.MetTask? then [last.path] else []
    ensures FoldersOf(met + [last]) == FoldersOf(met) + if last.MetFolder? then [Folder(last.path, |TasksOf(met)|)] else []
    ensures NoTaskTwice(met + [last]) <==> NoTaskTwice(met) && (last.MetTask? ==> last !in met)
  {
    var all := met + [last];
    assert all[..|met|] == met;
    if NoTaskTwice(all) {
      forall i, j | 0 <= i < j < |met| && met[i].MetTask? && met[j].MetTask? ensures met[i].path != met[j].path {
        assert all[i] == met[i] && all[j] == met[j];
      }
      if last.MetTask? {
        forall i | 0 <= i < |met| ensures met[i] != last {
          assert all[i] == met[i] && all[|met|] == last;
        }
      }
    }
  }

  lemma TwiceStays(met: seq<Met>, more: seq<Met>)
    requires !NoTaskTwice(met)
    ensures !NoTaskTwice(met + more)
  {
    var i, j :| 0 <= i < j < |met| && met[i].MetTask? && met[j].MetTask? && met[i].path == met[j].path;
    assert (met + more)[i] == met[i] && (met + more)[j] == met[j];
  }

  /** Of the tasks and folders kept apart, the order they were met in. */
  lemma {:induction false} FoldersUpTo(met: seq<Met>)
    ensures forall i | 0 <= i < |FoldersOf(met)| :: FoldersOf(met)[i].at <= |TasksOf(met)|
    ensures |met| == |TasksOf(met)| + |FoldersOf(met)|
  {
    if met != [] {
      FoldersUpTo(met[..|met| - 1]);
    }
  }

  // ----- What a config may hold -----

  predicate IsUnder(path: Path, above: Path) {
    above < path && above != ROOT
  }

  /** A task's path is no other task's, nor under one. */
  predicate TasksApart(tasks: seq<Path>) {
    forall a, b | a in tasks && b in tasks :: !IsUnder(a, b)
  }

  /** A folder's path is no other folder's, nor a task's, nor under one. */
  predicate FoldersApart(tasks: seq<Path>, folders: seq<Folder>) {
    && (forall i, j | 0 <= i < j < |folders| :: folders[i].path != folders[j].path)
    && (forall i, a | 0 <= i < |folders| && a in tasks :: folders[i].path != a && !IsUnder(folders[i].path, a))
  }

  predicate Acceptable(met: seq<Met>) {
    NoTaskTwice(met) && TasksApart(TasksOf(met)) && FoldersApart(TasksOf(met), FoldersOf(met))
  }

  /** Something of the set is above a path, short of the root. */
  predicate AnyAbove(paths: set<Path>, path: Path) {
    exists k | 0 < k < |path| :: path[..k] in paths
  }

  lemma AboveIsPart(paths: set<Path>, path: Path)
    ensures AnyAbove(paths, path) <==> exists a | a in paths :: IsUnder(path, a)
  {
    if AnyAbove(paths, path) {
      var k :| 0 < k < |path| && path[..k] in paths;
      assert IsUnder(path, path[..k]);
    }
    if a :| a in paths && IsUnder(path, a) {
      assert path[..|a|] == a;
    }
  }

  /** No path so far is under one of the set. */
  predicate NoneUnder(tasks: seq<Path>, paths: set<Path>, n: nat)
    requires n <= |tasks|
  {
    forall i | 0 <= i < n :: !AnyAbove(paths, tasks[i])
  }

  lemma NoneUnderIsApart(tasks: seq<Path>, paths: set<Path>)
    requires forall p :: p in paths <==> p in tasks
    ensures NoneUnder(tasks, paths, |tasks|) <==> TasksApart(tasks)
  {
    if NoneUnder(tasks, paths, |tasks|) {
      forall a, b | a in tasks && b in tasks ensures !IsUnder(a, b) {
        var i :| 0 <= i < |tasks| && tasks[i] == a;
        AboveIsPart(paths, tasks[i]);
      }
    }
    if TasksApart(tasks) {
      forall i | 0 <= i < |tasks| ensures !AnyAbove(paths, tasks[i]) {
        AboveIsPart(paths, tasks[i]);
      }
    }
  }

  /** The first `n` folders are apart from each other and from the tasks. */
  predicate FoldersClear(folders: seq<Folder>, paths: set<Path>, n: nat)
    requires n <= |folders|
  {
    && (forall i, j | 0 <= i < j < n :: folders[i].path != folders[j].path)
    && (forall i | 0 <= i < n :: folders[i].path !in paths && !AnyAbove(paths, folders[i].path))
  }

  lemma ClearIsApart(tasks: seq<Path>, folders: seq<Folder>, paths: set<Path>)
    requires forall p :: p in paths <==> p in tasks
    ensures FoldersClear(folders, paths, |folders|) <==> FoldersApart(tasks, folders)
  {
    if FoldersClear(folders, paths, |folders|) {
      forall i, a | 0 <= i < |folders| && a in tasks ensures folders[i].path != a && !IsUnder(folders[i].path, a) {
        AboveIsPart(paths, folders[i].path);
      }
    }
    if FoldersApart(tasks, folders) {
      forall i | 0 <= i < |folders| ensures folders[i].path !in paths && !AnyAbove(paths, folders[i].path) {
        AboveIsPart(paths, folders[i].path);
      }
    }
  }

  // ----- The loader -----

  class Config {
    var tasks: seq<Path>
    var folders: seq<Folder>
    var taskPaths: set<Path>
    var stack: seq<File>
    ghost var met: seq<Met>

    /** The lists are those of what was met, and no task was met twice. */
    ghost predicate Valid() reads this {
      && tasks == TasksOf(met) && folders == FoldersOf(met) && NoTaskTwice(met)
      && forall p :: p in taskPaths <==> MetTask(p) in met
    }

    constructor ()
      ensures Valid() && met == [] && stack == []
    {
      tasks, folders, taskPaths, stack, met := [], [], {}, [], [];
    }

    /** A task or folder met. */
    method Meet(entry: Met)
      requires Valid() && (entry.MetTask? ==> entry.path !in taskPaths)
      modifies this`tasks, this`folders, this`taskPaths, this`met
      ensures Valid() && met == old(met) + [entry]
    {
      OneMore(met, entry);
      match entry {
        case MetTask(path) =>
          taskPaths := taskPaths + {path};
          tasks := tasks + [path];
        case MetFolder(path) =>
          folders := folders + [Folder(path, |tasks|)];
      }
      met := met + [entry];
    }

    /** A file's own entries; refused when one is, or when a task's path was met before. */
    method LoadTasks(items: seq<Item>, mount: Path) returns (ok: bool)
      requires Valid()
      modifies this`tasks, this`folders, this`taskPaths, this`met
      ensures ok <==> ItemsMet(items, mount).Some? && NoTaskTwice(old(met) + ItemsMet(items, mount).value)
      ensures ok ==> Valid() && met == old(met) + ItemsMet(items, mount).value
    {
      ghost var start := met;
      assert met + [] == met;
      for i := 0 to |items|
        invariant Valid() && ItemsMet(items[..i], mount).Some? && met == start + ItemsMet(items[..i], mount).value
      {
        var entry := MetOf(items[i], mount);
        assert items[..i + 1][..i] == items[..i];
        assert ItemsMet(items[..i + 1], mount) ==
               if entry.None? then None else Some(ItemsMet(items[..i], mount).value + [entry.value]);
        if entry.None? || (entry.value.MetTask? && entry.value.path in taskPaths) {
          if entry.Some? {
            OneMore(met, entry.value);
          }
          ItemsRefused(items, mount, i, start);
          return false;
        }
        assert start + (ItemsMet(items[..i], mount).value + [entry.value]) == met + [entry.value];
        Meet(entry.value);
      }
      assert items[..|items|] == items;
      ok := true;
    }

    /** A file and those it loads, while the files being loaded are on the stack. */
    method LoadFile(files: Files, root: File, file: File, mount: Path, isRoot: bool) returns (ok: bool)
      requires Valid()
      modifies this
      ensures var entries := FileMet(files, root, old(stack), file, mount, isRoot);
              && (ok <==> entries.Some? && NoTaskTwice(old(met) + entries.value))
              && (ok ==> Valid() && met == old(met) + entries.value && stack == old(stack))
      decreases FilesLeft(files, stack), 1, 0
    {
      if !(isRoot || (file != [] && file[|file| - 1] != PROJECT_FILE)) || file !in files || !(root <= file) || file in stack {
        return false;
      }
      FileIs(files, root, stack, file, mount, isRoot);
      OneFewer(files, stack, file);
      ghost var (was, start) := (stack, met);
      stack := stack + [file];
      ok := LoadContent(files, root, file, mount);
      if ok {
        stack := stack[..|stack| - 1];
        assert stack == was;
      }
    }

    /** What is in a file, and then the files it loads. */
    method LoadContent(files: Files, root: File, file: File, mount: Path) returns (ok: bool)
      requires Valid() && file in files
      modifies this
      ensures var entries := ContentMet(files, root, old(stack), file, mount);
              && (ok <==> entries.Some? && NoTaskTwice(old(met) + entries.value))
              && (ok ==> Valid() && met == old(met) + entries.value && stack == old(stack))
      decreases FilesLeft(files, stack), 3, 0
    {
      ghost var start := met;
      ghost var own := ItemsMet(files[file].items, mount);
      ghost var below := ChildrenMet(files, root, stack, file, mount, files[file].children);
      ok := LoadTasks(files[file].items, mount);
      if !ok {
        OwnRefused(start, own, below);
        return;
      }
      ok := LoadChildren(files, root, file, mount, files[file].children);
      assert below.Some? ==> start + (own.value + below.value) == (start + own.value) + below.value;
    }

    /** The files one loads, each in turn. */
    method LoadChildren(files: Files, root: File, file: File, mount: Path, children: seq<Child>) returns (ok: bool)
      requires Valid()
      modifies this
      ensures var entries := ChildrenMet(files, root, old(stack), file, mount, children);
              && (ok <==> entries.Some? && NoTaskTwice(old(met) + entries.value))
              && (ok ==> Valid() && met == old(met) + entries.value && stack == old(stack))
      decreases FilesLeft(files, stack), 2, |children|
    {
      ghost var (start, was) := (met, stack);
      assert met + [] == met;
      for i := 0 to |children|
        invariant Valid() && stack == was
        invariant ChildrenMet(files, root, was, file, mount, children[..i]).Some?
        invariant met == start + ChildrenMet(files, root, was, file, mount, children[..i]).value
      {
        var child := children[i];
        assert children[..i + 1][..i] == children[..i];
        ghost var before := ChildrenMet(files, root, was, file, mount, children[..i]).value;
        if child.file != file {
          ghost var entries := FileMet(files, root, was, child.file, mount + child.mount, false);
          assert entries.Some? ==> start + (before + entries.value) == (start + before) + entries.value;
          ok := LoadFile(files, root, child.file, mount + child.mount, false);
          if !ok {
            ChildrenRefused(files, root, was, file, mount, children, i + 1, start);
            return;
          }
        }
      }
      assert children[..|children|] == children;
      ok := true;
    }
  }

  /** Whether no task is under another. */
  method CheckTasks(tasks: seq<Path>, paths: set<Path>) returns (ok: bool)
    ensures ok <==> NoneUnder(tasks, paths, |tasks|)
  {
    for i := 0 to |tasks|
      invariant NoneUnder(tasks, paths, i)
    {
      if AnyAbove(paths, tasks[i]) {
        return false;
      }
    }
    ok := true;
  }

  /** Whether the folders are apart from each other and from the tasks. */
  method CheckFolders(folders: seq<Folder>, paths: set<Path>) returns (ok: bool)
    ensures ok <==> FoldersClear(folders, paths, |folders|)
  {
    var seen: set<Path> := {};
    for i := 0 to |folders|
      invariant FoldersClear(folders, paths, i)
      invariant forall p :: p in seen <==> exists k | 0 <= k < i :: folders[k].path == p
    {
      var path := folders[i].path;
      if path in seen || path in paths || AnyAbove(paths, path) {
        return false;
      }
      seen := seen + {path};
    }
    ok := true;
  }

  /**
   A config that loads holds what its files do in the order they load each other,
   and loads exactly when no file is refused and its paths may be together.
   */
  method ReadDir(files: Files, root: File) returns (ok: bool, config: Config)
    ensures root + [PROJECT_FILE] !in files ==> ok && config.met == []
    ensures root + [PROJECT_FILE] in files ==>
              var met := FileMet(files, root, [], root + [PROJECT_FILE], ROOT, true);
              && (ok <==> met.Some? && Acceptable(met.value))
              && (ok ==> config.met == met.value)
    ensures ok ==> config.Valid()
  {
    config := new Config();
    var file := root + [PROJECT_FILE];
    if file !in files {
      return true, config;
    }
    ok := config.LoadFile(files, root, file, ROOT, true);
    ghost var met := FileMet(files, root, [], file, ROOT, true);
    assert met.Some? ==> [] + met.value == met.value;
    if !ok {
      return;
    }
    forall p ensures p in config.taskPaths <==> p in config.tasks {
      TasksHave(config.met, p);
    }
    NoneUnderIsApart(config.tasks, config.taskPaths);
    ClearIsApart(config.tasks, config.folders, config.taskPaths);
    ok := CheckTasks(config.tasks, config.taskPaths);
    if ok {
      ok := CheckFolders(config.folders, config.taskPaths);
    }
  }

  // ----- The order the entries were met in -----

  /** The first `n` met are so many tasks and so many folders. */
  ghost predicate Taken(met: seq<Met>, n: nat, tasks: nat, folders: nat) {
    n <= |met| && |TasksOf(met[..n])| == tasks && |FoldersOf(met[..n])| == folders
  }

  /** The tasks and folders of a config, one list again: each folder before the task it was met before. */
  method Entries(tasks: seq<Path>, folders: seq<Folder>, ghost met: seq<Met>) returns (entries: seq<Met>)
    requires tasks == TasksOf(met) && folders == FoldersOf(met)
    ensures entries == met
  {
    entries := [];
    var next := 0;
    for i := 0 to |tasks|
      invariant next <= |folders| && Taken(met, |entries|, i, next) && entries == met[..|entries|]
    {
      while next < |folders| && folders[next].at <= i
        invariant next <= |folders| && Taken(met, |entries|, i, next) && entries == met[..|entries|]
      {
        FolderNext(met, |entries|, i, next);
        entries := entries + [MetFolder(folders[next].path)];
        next := next + 1;
      }
      TaskNext(met, |entries|, i, next);
      entries := entries + [MetTask(tasks[i])];
    }
    FoldersUpTo(met);
    while next < |folders|
      invariant next <= |folders| && Taken(met, |entries|, |tasks|, next) && entries == met[..|entries|]
    {
      FolderNext(met, |entries|, |tasks|, next);
      entries := entries + [MetFolder(folders[next].path)];
      next := next + 1;
    }
    FoldersUpTo(entries);
  }

  /** What is met first is first of the tasks and of the folders. */
  lemma {:induction false} FirstMet(met: seq<Met>, n: nat)
    requires n <= |met|
    ensures TasksOf(met[..n]) <= TasksOf(met) && FoldersOf(met[..n]) <= FoldersOf(met)
    decreases |met|
  {
    if n < |met| {
      assert met[..|met| - 1][..n] == met[..n];
      FirstMet(met[..|met| - 1], n);
    } else {
      assert met[..n] == met;
    }
  }

  /** What the one met after the first `n` adds to the tasks or to the folders. */
  lemma TakeOne(met: seq<Met>, n: nat, tasks: nat, folders: nat)
    requires n < |met| && Taken(met, n, tasks, folders)
    ensures met[..n + 1] == met[..n] + [met[n]]
    ensures met[n].MetTask? ==>
              Taken(met, n + 1, tasks + 1, folders) && tasks < |TasksOf(met)| && TasksOf(met)[tasks] == met[n].path
    ensures met[n].MetFolder? ==>
              && Taken(met, n + 1, tasks, folders + 1) && folders < |FoldersOf(met)|
              && FoldersOf(met)[folders] == Folder(met[n].path, tasks)
  {
    assert met[..n + 1] == met[..n] + [met[n]];
    OneMore(met[..n], met[n]);
    FirstMet(met, n + 1);
  }

  /** A folder with no more tasks before it than were taken comes next. */
  lemma FolderNext(met: seq<Met>, n: nat, tasks: nat, folders: nat)
    requires Taken(met, n, tasks, folders)
    requires folders < |FoldersOf(met)| && FoldersOf(met)[folders].at <= tasks
    ensures n < |met| && met[n] == MetFolder(FoldersOf(met)[folders].path)
    ensures met[..n + 1] == met[..n] + [met[n]] && Taken(met, n + 1, tasks, folders + 1)
  {
    assert met[..|met|] == met;
    TakeOne(met, n, tasks, folders);
    if met[n].MetTask? {
      LaterFolder(met, n + 1, folders);
    }
  }

  /** A folder met later has the tasks taken before it. */
  lemma {:induction false} LaterFolder(met: seq<Met>, n: nat, k: nat)
    requires n <= |met| && |FoldersOf(met[..n])| <= k < |FoldersOf(met)|
    ensures FoldersOf(met)[k].at >= |TasksOf(met[..n])|
    decreases |met|
  {
    assert met[..|met|] == met;
    if n < |met| {
      var init := met[..|met| - 1];
      assert init[..n] == met[..n];
      FirstMet(init, n);
      if k < |FoldersOf(init)| {
        LaterFolder(init, n, k);
      }
    }
  }

  /** When the next folder is not due, a task comes next. */
  lemma TaskNext(met: seq<Met>, n: nat, tasks: nat, folders: nat)
    requires Taken(met, n, tasks, folders)
    requires tasks < |TasksOf(met)| && (folders < |FoldersOf(met)| ==> FoldersOf(met)[folders].at > tasks)
    ensures n < |met| && met[n] == MetTask(TasksOf(met)[tasks])
    ensures met[..n + 1] == met[..n] + [met[n]] && Taken(met, n + 1, tasks + 1, folders)
  {
    assert met[..|met|] == met;
    TakeOne(met, n, tasks, folders);
  }

  // ----- What is refused stays refused -----

  lemma {:induction false} ItemsGrow(items: seq<Item>, mount: Path, n: nat)
    requires n <= |items| && ItemsMet(items, mount).Some?
    ensures ItemsMet(items[..n], mount).Some? && ItemsMet(items[..n], mount).value <= ItemsMet(items, mount).value
    decreases |items|
  {
    if n < |items| {
      assert items[..|items| - 1][..n] == items[..n];
      ItemsGrow(items[..|items| - 1], mount, n);
    } else {
      assert items[..n] == items;
    }
  }

  lemma ItemsRefused(items: seq<Item>, mount: Path, i: nat, start: seq<Met>)
    requires i < |items| && ItemsMet(items[..i], mount).Some?
    requires MetOf(items[i], mount).None? || !NoTaskTwice(start + ItemsMet(items[..i], mount).value + [MetOf(items[i], mount).value])
    ensures ItemsMet(items, mount).Some? ==> !NoTaskTwice(start + ItemsMet(items, mount).value)
  {
    if ItemsMet(items, mount).Some? {
      ItemsGrow(items, mount, i + 1);
      assert items[..i + 1][..i] == items[..i];
      var (some, all) := (ItemsMet(items[..i + 1], mount).value, ItemsMet(items, mount).value);
      assert start + some == start + ItemsMet(items[..i], mount).value + [MetOf(items[i], mount).value];
      TwiceStays(start + some, all[|some|..]);
      assert start + all == (start + some) + all[|some|..];
    }
  }

  lemma OwnRefused(start: seq<Met>, own: Option<seq<Met>>, below: Option<seq<Met>>)
    requires own.Some? ==> !NoTaskTwice(start + own.value)
    ensures own.Some? && below.Some? ==> !NoTaskTwice(start + (own.value + below.value))
  {
    if own.Some? && below.Some? {
      TwiceStays(start + own.value, below.value);
      assert start + (own.value + below.value) == (start + own.value) + below.value;
    }
  }

  lemma {:induction false} ChildrenGrow(files: Files, root: File, stack: seq<File>, file: File, mount: Path, children: seq<Child>, n: nat)
    requires n <= |children| && ChildrenMet(files, root, stack, file, mount, children).Some?
    ensures ChildrenMet(files, root, stack, file, mount, children[..n]).Some?
    ensures ChildrenMet(files, root, stack, file, mount, children[..n]).value <= ChildrenMet(files, root, stack, file, mount, children).value
    decreases |children|
  {
    if n < |children| {
      assert children[..|children| - 1][..n] == children[..n];
      ChildrenGrow(files, root, stack, file, mount, children[..|children| - 1], n);
    } else {
      assert children[..n] == children;
    }
  }

  lemma ChildrenRefused(files: Files, root: File, stack: seq<File>, file: File, mount: Path, children: seq<Child>, n: nat, start: seq<Met>)
    requires n <= |children|
    requires var some := ChildrenMet(files, root, stack, file, mount, children[..n]);
             some.Some? ==> !NoTaskTwice(start + some.value)
    ensures var all := ChildrenMet(files, root, stack, file, mount, children);
            all.Some? ==> !NoTaskTwice(start + all.value)
  {
    var all := ChildrenMet(files, root, stack, file, mount, children);
    if all.Some? {
      ChildrenGrow(files, root, stack, file, mount, children, n);
      var some := ChildrenMet(files, root, stack, file, mount, children[..n]).value;
      TwiceStays(start + some, all.value[|some|..]);
      assert start + all.value == (start + some) + all.value[|some|..];
    }
  }
}
