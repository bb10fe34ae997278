/** Adding a task or a folder keeps the tree a tree, and every group's counts a recount. */
module TreeAdd {
  import opened Paths
  import opened Specs
  import opened Orders
  import opened Tree

  /** What an add has to say of a node of the tree it makes. */
  lemma AddedAt(nodes: Nodes, seeds: Seeds, entry: Entry, after: Option<Path>, q: Path)
    ensures q in Added(nodes, seeds, entry, after) <==> q in nodes || q <= entry.Path()
    ensures q in Added(nodes, seeds, entry, after) ==>
              Added(nodes, seeds, entry, after)[q] ==
              if q == entry.Path() then EntryNode(nodes, seeds, entry)
              else if q < entry.Path() then ListedIn(nodes, seeds, entry.Path(), after, entry.TaskView(), q)
              else nodes[q]
  {
    AboveAre(entry.Path(), q);
  }

  /** Where the entry before an added one is listed in a group above both. */
  lemma BesideIsListed(nodes: Nodes, g: Path, after: Option<Path>)
    requires AllLinked(nodes) && (after.Some? ==> after.value in nodes)
    ensures BesideIn(g, after).Some? ==>
              g in nodes && nodes[g].Group? && BesideIn(g, after).value in nodes[g].children
  {
    if BesideIn(g, after).Some? {
      var a := after.value;
      AboveAreGroups(nodes, a, |g|);
      assert a[..|g|] == g;
    }
  }

  /** What is above the new path is a group, or nothing yet. */
  lemma GroupAbove(nodes: Nodes, seeds: Seeds, entry: Entry, after: Option<Path>, g: Path)
    requires AllGroupsOk(nodes) && CanAdd(nodes, entry, after) && g < entry.Path()
    ensures GroupAt(nodes, seeds, g).Group? && Distinct(GroupAt(nodes, seeds, g).children)
  {
    assert entry.Path()[..|g|] == g;
    if g in nodes {
      assert GroupOk(nodes, g, nodes[g]);
    }
  }

  /** A group above the new path lists what it did, and what leads to the new path. */
  lemma ListedChildren(nodes: Nodes, seeds: Seeds, entry: Entry, after: Option<Path>, g: Path)
    requires AllLinked(nodes) && AllGroupsOk(nodes) && CanAdd(nodes, entry, after) && g < entry.Path()
    ensures var node := ListedIn(nodes, seeds, entry.Path(), after, entry.TaskView(), g);
            var before := GroupAt(nodes, seeds, g);
            && before.Group? && node.Group? && Distinct(node.children)
            && node.folder == before.folder && node.collapsed == before.collapsed
            && (forall c :: c in node.children <==> c in before.children || c == entry.Path()[..|g| + 1])
  {
    GroupAbove(nodes, seeds, entry, after, g);
    BesideIsListed(nodes, g, after);
    PlacedHas(GroupAt(nodes, seeds, g).children, entry.Path()[..|g| + 1], BesideIn(g, after));
  }

  lemma NextIsUnder(g: Path, p: Path)
    requires g < p
    ensures |p[..|g| + 1]| == |g| + 1 && Parent(p[..|g| + 1]) == g && p[..|g| + 1] <= p && g < p[..|g| + 1]
  {
    assert Parent(p[..|g| + 1]) == p[..|g|] == g;
  }

  lemma AddedGroupOk(nodes: Nodes, seeds: Seeds, entry: Entry, after: Option<Path>, q: Path)
    requires WellFormed(nodes) && CanAdd(nodes, entry, after)
    requires q in Added(nodes, seeds, entry, after)
    ensures var tree := Added(nodes, seeds, entry, after); GroupOk(tree, q, tree[q]) && TaskOk(q, tree[q])
  {
    var (p, tree) := (entry.Path(), Added(nodes, seeds, entry, after));
    AddedAt(nodes, seeds, entry, after, q);
    assert q in nodes ==> GroupOk(nodes, q, nodes[q]) && TaskOk(q, nodes[q]);
    if q < p {
      ListedChildren(nodes, seeds, entry, after, q);
      NextIsUnder(q, p);
      forall c | c in tree[q].children ensures |c| == |q| + 1 && Parent(c) == q && c in tree {
        AddedAt(nodes, seeds, entry, after, c);
      }
      assert p[..|q| + 1] in tree[q].children;
    } else if tree[q].Group? {
      forall c | c in tree[q].children ensures |c| == |q| + 1 && Parent(c) == q && c in tree {
        AddedAt(nodes, seeds, entry, after, c);
      }
    }
  }

  /** The group above a path on the way to the new one, which is the new one or above it. */
  lemma ParentAbove(q: Path, p: Path)
    requires q != ROOT && q <= p
    ensures Parent(q) < p && q == p[..|Parent(q)| + 1]
  {
  }

  lemma LinkedAbove(nodes: Nodes, seeds: Seeds, entry: Entry, after: Option<Path>, q: Path)
    requires AllLinked(nodes) && AllGroupsOk(nodes) && CanAdd(nodes, entry, after) && q != ROOT && q <= entry.Path()
    ensures Linked(Added(nodes, seeds, entry, after), q)
  {
    ParentAbove(q, entry.Path());
    AddedAt(nodes, seeds, entry, after, Parent(q));
    ListedChildren(nodes, seeds, entry, after, Parent(q));
  }

  lemma LinkedElsewhere(nodes: Nodes, seeds: Seeds, entry: Entry, after: Option<Path>, q: Path)
    requires AllLinked(nodes) && AllGroupsOk(nodes) && CanAdd(nodes, entry, after) && q in nodes && q != ROOT
    ensures Linked(Added(nodes, seeds, entry, after), q)
  {
    var g := Parent(q);
    assert Linked(nodes, q);
    AddedAt(nodes, seeds, entry, after, g);
    if g < entry.Path() {
      ListedChildren(nodes, seeds, entry, after, g);
    }
  }

  lemma AddedLinked(nodes: Nodes, seeds: Seeds, entry: Entry, after: Option<Path>, q: Path)
    requires AllLinked(nodes) && AllGroupsOk(nodes) && CanAdd(nodes, entry, after)
    requires q in Added(nodes, seeds, entry, after)
    ensures Linked(Added(nodes, seeds, entry, after), q)
  {
    AddedAt(nodes, seeds, entry, after, q);
    if q == ROOT {
    } else if q <= entry.Path() {
      LinkedAbove(nodes, seeds, entry, after, q);
    } else {
      LinkedElsewhere(nodes, seeds, entry, after, q);
    }
  }

  /** Adding keeps the tree a tree. */
  lemma AddKeepsTree(nodes: Nodes, seeds: Seeds, entry: Entry, after: Option<Path>)
    requires WellFormed(nodes) && CanAdd(nodes, entry, after)
    ensures WellFormed(Added(nodes, seeds, entry, after))
  {
    var tree := Added(nodes, seeds, entry, after);
    forall q | q in tree ensures Linked(tree, q) && GroupOk(tree, q, tree[q]) && TaskOk(q, tree[q]) {
      AddedLinked(nodes, seeds, entry, after, q);
      AddedGroupOk(nodes, seeds, entry, after, q);
    }
    AddedAt(nodes, seeds, entry, after, ROOT);
  }

  // ----- The counts -----

  /** Nothing is under a path that nothing is at. */
  lemma NothingUnder(nodes: Nodes, g: Path)
    requires AllLinked(nodes) && g !in nodes
    ensures TasksUnder(nodes, g) == {} && UpUnder(nodes, g) == {} && FailedUnder(nodes, g) == {}
  {
    forall q | q in nodes ensures !(g < q) {
      if g < q {
        assert q[..|g|] == g;
        AboveAreGroups(nodes, q, |g|);
      }
    }
  }

  /** Where a task is, but for the one added. */
  lemma SameTasks(nodes: Nodes, seeds: Seeds, entry: Entry, after: Option<Path>, q: Path)
    requires CanAdd(nodes, entry, after)
    ensures var (p, tree) := (entry.Path(), Added(nodes, seeds, entry, after));
            if q == p then q in tree && (if entry.TaskEntry? then tree[q] == Task(entry.view) else tree[q].Group?)
            else ((q in tree && tree[q].Task?) <==> (q in nodes && nodes[q].Task?)) && (q in tree && tree[q].Task? ==> tree[q] == nodes[q])
  {
    AddedAt(nodes, seeds, entry, after, q);
    if q < entry.Path() {
      assert entry.Path()[..|q|] == q;
    }
  }

  /** What an add of a path `p` adds under a group. */
  function More(add: bool, p: Path): set<Path> {
    if add then {p} else {}
  }

  /** The tasks under a group, with the one added. */
  lemma AddedUnder(nodes: Nodes, seeds: Seeds, entry: Entry, after: Option<Path>, g: Path)
    requires CanAdd(nodes, entry, after)
    ensures var (p, tree) := (entry.Path(), Added(nodes, seeds, entry, after));
            var task := entry.TaskEntry? && g < p;
            && TasksUnder(tree, g) == TasksUnder(nodes, g) + More(task, p)
            && UpUnder(tree, g) == UpUnder(nodes, g) + More(task && IsUp(entry.view), p)
            && FailedUnder(tree, g) == FailedUnder(nodes, g) + More(task && HasFailed(entry.view), p)
  {
    var (p, tree) := (entry.Path(), Added(nodes, seeds, entry, after));
    forall q
      ensures q in TasksUnder(tree, g) <==> q in TasksUnder(nodes, g) || (q == p && entry.TaskEntry? && g < p)
      ensures q in UpUnder(tree, g) <==> q in UpUnder(nodes, g) || (q == p && entry.TaskEntry? && g < p && IsUp(entry.view))
      ensures q in FailedUnder(tree, g) <==> q in FailedUnder(nodes, g) || (q == p && entry.TaskEntry? && g < p && HasFailed(entry.view))
    {
      SameTasks(nodes, seeds, entry, after, q);
    }
  }

  lemma NotUnderYet(nodes: Nodes, entry: Entry, after: Option<Path>, g: Path)
    requires CanAdd(nodes, entry, after)
    ensures entry.Path() !in TasksUnder(nodes, g)
    ensures entry.Path() !in UpUnder(nodes, g)
    ensures entry.Path() !in FailedUnder(nodes, g)
  {
  }

  lemma RecountBefore(nodes: Nodes, seeds: Seeds, g: Path)
    requires AllLinked(nodes) && Counted(nodes)
    ensures Recount(nodes, g, GroupAt(nodes, seeds, g))
  {
    if g !in nodes {
      NothingUnder(nodes, g);
    }
  }

  /** A group counts one task more, and everything else is as it was. */
  lemma CountsAdded(nodes: Nodes, seeds: Seeds, entry: Entry, after: Option<Path>, g: Path)
    requires CanAdd(nodes, entry, after) && AllGroupsOk(nodes) && g in Added(nodes, seeds, entry, after)
    ensures var (before, node) := (GroupAt(nodes, seeds, g), Added(nodes, seeds, entry, after)[g]);
            node.Group? ==>
              var task := entry.TaskEntry? && g < entry.Path();
              && before.Group?
              && node.tasks == before.tasks + Count(task)
              && node.up == before.up + Count(task && IsUp(entry.view))
              && node.failed == before.failed + Count(task && HasFailed(entry.view))
  {
    AddedAt(nodes, seeds, entry, after, g);
    if g < entry.Path() {
      GroupAbove(nodes, seeds, entry, after, g);
    }
  }

  lemma MoreSize(s: set<Path>, add: bool, p: Path)
    requires p !in s
    ensures |s + More(add, p)| == |s| + Count(add)
  {
  }

  lemma RecountMore(nodes: Nodes, tree: Nodes, g: Path, p: Path, before: Node, node: Node, task: bool, up: bool, failed: bool)
    requires p !in TasksUnder(nodes, g) && p !in UpUnder(nodes, g) && p !in FailedUnder(nodes, g)
    requires TasksUnder(tree, g) == TasksUnder(nodes, g) + More(task, p)
    requires UpUnder(tree, g) == UpUnder(nodes, g) + More(up, p)
    requires FailedUnder(tree, g) == FailedUnder(nodes, g) + More(failed, p)
    requires before.Group? && Recount(nodes, g, before) && node.Group?
    requires node.tasks == before.tasks + Count(task) && node.up == before.up + Count(up)
    requires node.failed == before.failed + Count(failed)
    ensures Recount(tree, g, node)
  {
    MoreSize(TasksUnder(nodes, g), task, p);
    MoreSize(UpUnder(nodes, g), up, p);
    MoreSize(FailedUnder(nodes, g), failed, p);
  }

  lemma AddedRecount(nodes: Nodes, seeds: Seeds, entry: Entry, after: Option<Path>, g: Path)
    requires AllLinked(nodes) && AllGroupsOk(nodes) && Counted(nodes) && CanAdd(nodes, entry, after)
    requires g in Added(nodes, seeds, entry, after)
    ensures Recount(Added(nodes, seeds, entry, after), g, Added(nodes, seeds, entry, after)[g])
  {
    var (p, tree) := (entry.Path(), Added(nodes, seeds, entry, after));
    if tree[g].Group? {
      var task := entry.TaskEntry? && g < p;
      AddedUnder(nodes, seeds, entry, after, g);
      CountsAdded(nodes, seeds, entry, after, g);
      NotUnderYet(nodes, entry, after, g);
      RecountBefore(nodes, seeds, g);
      RecountMore(nodes, tree, g, p, GroupAt(nodes, seeds, g), tree[g],
                  task, task && IsUp(entry.view), task && HasFailed(entry.view));
    }
  }

  /** Adding keeps every group's counts a recount. */
  lemma AddKeepsCounts(nodes: Nodes, seeds: Seeds, entry: Entry, after: Option<Path>)
    requires WellFormed(nodes) && Counted(nodes) && CanAdd(nodes, entry, after)
    ensures Counted(Added(nodes, seeds, entry, after))
  {
    forall g | g in Added(nodes, seeds, entry, after)
      ensures Recount(Added(nodes, seeds, entry, after), g, Added(nodes, seeds, entry, after)[g])
    {
      AddedRecount(nodes, seeds, entry, after, g);
    }
  }
}
