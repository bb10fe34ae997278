/**
 The console's tree of tasks: nodes by path, each group with its children in
 list order and counts of the tasks under it.
 */
module Tree {
  import opened Paths
  import opened Specs
  import opened Orders

  datatype ExitInfo = ExitInfo(code: Option<int>, readyTimeout: bool)

  datatype State =
    | Idle
    | Starting
    | Running
    | Ready
    | Stopping
    | Backoff(info: ExitInfo)
    | Done(info: ExitInfo)
    | Exited(info: ExitInfo)

  datatype TaskKind = Service | Job

  datatype TaskView = TaskView(id: nat, path: Path, kind: TaskKind, status: State)

  predicate IsUp(task: TaskView) {
    match task.kind
    case Service => task.status == Ready
    case Job => task.status == Running
  }

  /** Failures are exit codes other than zero and timeouts of the readiness check. */
  predicate HasFailed(task: TaskView) {
    match task.status
    case Backoff(info) => info.readyTimeout || (info.code.Some? && info.code.value != 0)
    case Done(info) => info.readyTimeout || (info.code.Some? && info.code.value != 0)
    case Exited(info) => info.readyTimeout || (info.code.Some? && info.code.value != 0)
    case _ => false
  }

  /** What a path holds: one task, or a group, which may be a folder. */
  datatype Node =
    | Task(view: TaskView)
    | Group(children: seq<Path>, tasks: int, up: int, failed: int, collapsed: bool, folder: Option<nat>)

  type Nodes = map<Path, Node>

  function NewGroup(collapsed: bool): Node {
    Group([], 0, 0, 0, collapsed, None)
  }

  /** A task or a folder: what the kernel lists. */
  predicate IsEntry(node: Node) {
    node.Task? || node.folder.Some?
  }

  // ----- What a tree is -----

  /** A node other than the root is listed by the group above it. */
  ghost predicate Linked(nodes: Nodes, p: Path) {
    p != ROOT ==> Parent(p) in nodes && nodes[Parent(p)].Group? && p in nodes[Parent(p)].children
  }

  /** A group lists nodes right under it, each once; it is not empty, unless a folder or the root. */
  ghost predicate GroupOk(nodes: Nodes, p: Path, node: Node) {
    node.Group? ==>
      && Distinct(node.children)
      && (forall c | c in node.children :: |c| == |p| + 1 && Parent(c) == p && c in nodes)
      && (if p == ROOT then node.folder.None? else node.children != [] || node.folder.Some?)
  }

  predicate TaskOk(p: Path, node: Node) {
    node.Task? ==> node.view.path == p && p != ROOT
  }

  ghost predicate AllLinked(nodes: Nodes) {
    forall p {:trigger Linked(nodes, p)} | p in nodes :: Linked(nodes, p)
  }

  ghost predicate AllGroupsOk(nodes: Nodes) {
    forall p {:trigger GroupOk(nodes, p, nodes[p])} | p in nodes :: GroupOk(nodes, p, nodes[p])
  }

  ghost predicate AllTasksOk(nodes: Nodes) {
    forall p {:trigger TaskOk(p, nodes[p])} | p in nodes :: TaskOk(p, nodes[p])
  }

  ghost predicate WellFormed(nodes: Nodes) {
    (nodes != map[] ==> ROOT in nodes) && AllLinked(nodes) && AllGroupsOk(nodes) && AllTasksOk(nodes)
  }

  /** Everything above a node is a group, and lists what is next on the way to it. */
  lemma {:induction false} AboveAreGroups(nodes: Nodes, p: Path, k: nat)
    requires AllLinked(nodes) && p in nodes && k < |p|
    ensures p[..k] in nodes && nodes[p[..k]].Group? && p[..k + 1] in nodes && p[..k + 1] in nodes[p[..k]].children
    decreases |p|
  {
    var parent := Parent(p);
    assert Linked(nodes, p);
    if k < |p| - 1 {
      AboveAreGroups(nodes, parent, k);
      assert parent[..k] == p[..k] && parent[..k + 1] == p[..k + 1];
    } else {
      assert p[..k + 1] == p;
    }
  }

  // ----- The counts -----

  function TasksUnder(nodes: Nodes, g: Path): set<Path> {
    set q | q in nodes && g < q && nodes[q].Task?
  }

  function UpUnder(nodes: Nodes, g: Path): set<Path> {
    set q | q in nodes && g < q && nodes[q].Task? && IsUp(nodes[q].view)
  }

  function FailedUnder(nodes: Nodes, g: Path): set<Path> {
    set q | q in nodes && g < q && nodes[q].Task? && HasFailed(nodes[q].view)
  }

  /** A group's counts are a recount of the tasks strictly under it. */
  ghost predicate Recount(nodes: Nodes, g: Path, node: Node) {
    node.Group? ==>
      && node.tasks == |TasksUnder(nodes, g)|
      && node.up == |UpUnder(nodes, g)|
      && node.failed == |FailedUnder(nodes, g)|
  }

  ghost predicate Counted(nodes: Nodes) {
    forall g {:trigger Recount(nodes, g, nodes[g])} | g in nodes :: Recount(nodes, g, nodes[g])
  }

  // ----- Listing a path in the groups above it -----

  /** The element at `from` put where `to` is once it is taken out. */
  function MoveIndex(list: seq<Path>, from: nat, to: nat): seq<Path>
    requires from < |list| && to < |list|
  {
    InsertAt(RemoveAt(list, from), to, list[from])
  }

  /** Lists a child right after another, or first, moving it there when it is listed already. */
  function PlaceChild(children: seq<Path>, child: Path, beside: Option<Path>): seq<Path> {
    if beside == Some(child) then children
    else
      var all := if child in children then children else children + [child];
      var index := IndexOf(all, child);
      var place :=
        if beside.Some? && beside.value in children then
          var at := IndexOf(children, beside.value);
          if at < index then at + 1 else at
        else 0;
      MoveIndex(all, index, place)
  }

  /** Right under `group` on the way to `path`, when it is under it. */
  function Under(group: Path, path: Path): Option<Path> {
    if group < path then Some(path[..|group| + 1]) else None
  }

  function BesideIn(group: Path, after: Option<Path>): Option<Path> {
    if after.Some? then Under(group, after.value) else None
  }

  function Count(b: bool): nat { if b then 1 else 0 }

  /** A group that counts one task more, if it is a task. */
  function CountIn(node: Node, task: Option<TaskView>): Node
    requires node.Group?
  {
    if task.None? then node
    else node.(tasks := node.tasks + 1,
               up := node.up + Count(IsUp(task.value)),
               failed := node.failed + Count(HasFailed(task.value)))
  }

  function CountOut(node: Node, task: TaskView): Node
    requires node.Group?
  {
    node.(tasks := node.tasks - 1,
          up := node.up - Count(IsUp(task)),
          failed := node.failed - Count(HasFailed(task)))
  }

  type Seeds = map<Path, bool>

  function Seeded(seeds: Seeds, p: Path, otherwise: bool): bool {
    if p in seeds then seeds[p] else otherwise
  }

  /** What is at a group's path, made if nothing is. */
  function GroupAt(nodes: Nodes, seeds: Seeds, g: Path): Node {
    if g in nodes then nodes[g] else NewGroup(Seeded(seeds, g, false))
  }

  /** A group above `p` once `p` is listed in it. */
  function ListedIn(nodes: Nodes, seeds: Seeds, p: Path, after: Option<Path>, task: Option<TaskView>, g: Path): Node
    requires g < p
  {
    var node := GroupAt(nodes, seeds, g);
    if node.Task? then node
    else
      var counted := CountIn(node, task);
      counted.(children := PlaceChild(counted.children, p[..|g| + 1], BesideIn(g, after)))
  }

  /** What is added: a task, or a folder that starts collapsed or not. */
  datatype Entry = TaskEntry(view: TaskView) | FolderEntry(id: nat, path: Path, collapsed: bool) {
    function Path(): Path { if TaskEntry? then view.path else path }
    function Id(): nat { if TaskEntry? then view.id else id }
    function TaskView(): Option<TaskView> { if TaskEntry? then Some(view) else None }
  }

  /** The node of an entry added; a group at a folder's path becomes the folder. */
  function EntryNode(nodes: Nodes, seeds: Seeds, entry: Entry): Node {
    match entry
    case TaskEntry(view) => Task(view)
    case FolderEntry(id, path, collapsed) =>
      if path in nodes && nodes[path].Group? then nodes[path].(folder := Some(id))
      else NewGroup(Seeded(seeds, path, collapsed)).(folder := Some(id))
  }

  function Above(p: Path): set<Path> {
    set k | 0 <= k < |p| :: p[..k]
  }

  lemma AboveAre(p: Path, g: Path)
    ensures g in Above(p) <==> g < p
  {
    if g < p {
      assert p[..|g|] == g;
    }
  }

  /** The nodes once an entry is added after `after`. */
  function Added(nodes: Nodes, seeds: Seeds, entry: Entry, after: Option<Path>): Nodes {
    var p := entry.Path();
    map q | q in nodes.Keys + Above(p) + {p} ::
      if q == p then EntryNode(nodes, seeds, entry)
      else if q < p then ListedIn(nodes, seeds, p, after, entry.TaskView(), q)
      else nodes[q]
  }

  /** An entry can be added: nothing is at a task's path, no task or folder at a folder's, and no task above it. */
  ghost predicate CanAdd(nodes: Nodes, entry: Entry, after: Option<Path>) {
    var p := entry.Path();
    && p != ROOT
    && (p in nodes ==> entry.FolderEntry? && nodes[p].Group? && nodes[p].folder.None?)
    && (forall k | 0 <= k < |p| && p[..k] in nodes :: nodes[p[..k]].Group?)
    && (after.Some? ==> after.value in nodes && IsEntry(nodes[after.value]))
  }

  // ----- Where a child is placed -----

  /** The children but one. */
  function Without(children: seq<Path>, child: Path): seq<Path> {
    if child in children then RemoveAt(children, IndexOf(children, child)) else children
  }

  /** Right after another, or first. */
  function PutAfter(list: seq<Path>, child: Path, beside: Option<Path>): seq<Path> {
    InsertAt(list, if beside.Some? && beside.value in list then IndexOf(list, beside.value) + 1 else 0, child)
  }

  lemma WithoutHas(children: seq<Path>, child: Path)
    requires Distinct(children)
    ensures Distinct(Without(children, child))
    ensures forall x :: x in Without(children, child) <==> x in children && x != child
  {
    if child in children {
      RemoveIsDistinct(children, IndexOf(children, child));
    }
  }

  lemma IndexWithout(children: seq<Path>, child: Path, x: Path)
    requires Distinct(children) && child in children && x in children && x != child
    ensures IndexOf(Without(children, child), x) ==
            if IndexOf(children, x) < IndexOf(children, child) then IndexOf(children, x) else IndexOf(children, x) - 1
  {
    var (i, at) := (IndexOf(children, x), IndexOf(children, child));
    var to := if i < at then i else i - 1;
    assert Without(children, child)[to] == x;
    WithoutHas(children, child);
    IndexInDistinct(Without(children, child), to);
  }

  /** Moving by index puts the child right after the one beside it, or first. */
  lemma PlaceChildIs(children: seq<Path>, child: Path, beside: Option<Path>)
    requires Distinct(children) && beside != Some(child)
    ensures PlaceChild(children, child, beside) == PutAfter(Without(children, child), child, beside)
  {
    if child in children {
      WithoutHas(children, child);
      if beside.Some? && beside.value in children {
        IndexWithout(children, child, beside.value);
      }
    } else {
      assert IndexOf(children + [child], child) == |children|;
      assert RemoveAt(children + [child], |children|) == children;
    }
  }

  /** Placing a child adds it and no other, and lists none twice. */
  lemma PlacedHas(children: seq<Path>, child: Path, beside: Option<Path>)
    requires Distinct(children) && (beside == Some(child) ==> child in children)
    ensures Distinct(PlaceChild(children, child, beside))
    ensures forall x :: x in PlaceChild(children, child, beside) <==> x == child || x in children
  {
    if beside != Some(child) {
      var rest := Without(children, child);
      PlaceChildIs(children, child, beside);
      WithoutHas(children, child);
      InsertIsDistinct(rest, if beside.Some? && beside.value in rest then IndexOf(rest, beside.value) + 1 else 0, child);
    }
  }
}
