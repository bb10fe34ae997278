# dekit, modelled in Dafny

dekit is a process manager. It keeps three views of a project in agreement: the config on disk, the
config as it last took it in (the base), and the tasks it runs. This project models the parts of it that
decide what agrees with what, and proves that they do.

* **Reload** (`Specs`, `SpecTexts`, `Reload`, `ReloadChoices`, `ReloadRun` and the `Reload...` modules after
  it). A config, a base and the tasks here give a plan; the user chooses; steps carry the choices out, and the
  kernel does each step whole or refuses it. The main result is `ReloadConverges.Converges`: whatever was
  chosen and whatever failed, the next plan offers exactly what failed and what new was left. `ReloadPlans` says
  what a plan is, `ReloadEffects` what each change done comes to, and `ReloadPasses` when nothing fails, each in
  terms of the config, the base and what is here.
* **Order** (`Orders`, `Bases`, `Worklist`, `AddOrder`, `SiblingOrder`, `ConfigOrder`, `OrderedGroups`). What is added comes
  after what it needs, folders first, and every list stays in the config's order.
* **The console's tree** (`Tree...`, `TaskTree`, `Globs`). Nodes by path, ordered children, counts, rows and a
  cursor, all kept up to date change by change. `TreeWhere.AddInserts` ties the tree to the kernel's flat list
  in both directions; `TreeSaved.FoldsSurviveSave` shows that the list alone fixes the tree.
* **Command lines** (`ShellLex`, `ShellSplit`, `ShellJoin`). A grammar of pieces, after sections 2.2, 2.3, 2.4
  and 2.6.7 of POSIX XCU chapter 2; splitting is exactly that grammar, and joining is undone by splitting.
* **Typing errors** (`EditDistance`). The distance between two keys, and the key suggested.
* **Writing config files** (`Docs`, `Yaml`, `Writer`, `Quoting`, `Scanning`, `WriteBack`). Lines replaced
  without touching others, the same edits on values, quoting and where quotes end, and written forms the
  loader reads back.
* **Connections** (`Connections`). A client's connection and the accept loop as systems of steps, with laws
  over all their runs.
* **Loading** (`ConfigLoad`, `ConfigChains`). Files that load files, the checks on the paths of all of them, and the order of
  their entries.

A task path is the sequence of its components, the root the empty one. `AtOrUnder` is "the second is a prefix
of the first". In the reload the kernel is an environment: each step has exactly its effect or fails with none,
adoptions succeed, and deps are a plain field. Loops of the source are methods proved against functions; what
the source promises is proved of the functions.

Where the code does less than its documentation says, the code is modelled, and a lemma says exactly when the
promise holds:

* patching every changed key leaves none changed unless a top-level key is named like a variable
  (`Specs.PatchedIsUnchanged`). Only an arbitrary mapping has such a key: the definitions a reload compares are
  made with the keys of a task, and of these a patch leaves none changed (`SpecTexts.PatchedTaskIsUnchanged`);
* a removal left and taken again restores the plan unless a change was forced whose blocker it decides
  (`ReloadChoices.LeaveAndTakeAgain`; `ReloadChoices.ForcedChoiceIsLost` is such a plan);
* an entry added where its path is listed already stays where it is listed. A group may stand there from the
  start (`SiblingOrder.StandingGroupStays`), or be made by an earlier addition under it, as when `a/b/` comes
  before `a/` in the config (`SiblingOrder.MadeGroupStays`). And an entry placed after a refused one goes last
  (`SiblingOrder.RefusedPutsLast`). `SiblingOrder.GroupInOrderIff` says for every run which groups are in order;
* a frozen connection that is closing leaves the loop, forgets that it is frozen, and writes what the snapshot
  carries as well (`Connections.WritesIfClosing`; `Connections.FrozenWhileClosing` is a run that comes to it).

## Model

| member | source | states |
|---|---|---|
| `Specs.ThreeWayMerge` | src/reload.rs:643-683 | taking the fields taken by default gives, at every key and every `env.NAME`, the config's value where here is as in the base, and here's value elsewhere, in whatever order the fields are set |
| `Specs.MergeLists` | src/reload.rs:643-683 | a key is a field exactly when the config differs there from both the base and here; it is a conflict exactly when here differs from the base too, and is taken exactly when it is not |
| `Specs.ChangedHereFinds` | src/reload.rs:643-683 | `edited_here` is set exactly when some key differs here from the base and not in the config |
| `Specs.ChangedAt` | src/spec.rs:294-335 | which keys are listed as changed, with `env` variable by variable |
| `Specs.SetAtSetsOne` | src/spec.rs:337-365 | setting a key changes what is read at that key alone, an `env` left empty and one that is no mapping included |
| `Specs.PatchAt` | src/spec.rs:337-365 | after several keys are set, each is the config's and every other is as it was |
| `Specs.PatchedIsUnchanged` | src/spec.rs:294-365 | patching every changed key leaves none changed, exactly when no top-level key named like `env.NAME` differs |
| `Specs.DottedKeyStays` | src/spec.rs:294-365 | the failing case, of an arbitrary mapping: a top-level `env.A` is listed as changed and never set |
| `SpecTexts.PatchedTaskIsUnchanged` | src/spec.rs:39-152 | between definitions with the keys of a task only, as a reload compares them, a patch with every changed key leaves none changed |
| `SpecTexts.TaskSpec.Set` | src/spec.rs:172-198 | a key is set or removed and nothing else changes; keys in rank order stay so |
| `SpecTexts.TaskSpec.SetAt` | src/spec.rs:345-365 | the ordered definition changes as the map does, variables of `env` included, and stays in rank order |
| `SpecTexts.SortKeeps` | src/spec.rs:192-196 | sorting by rank loses and repeats no key and puts every key in its order |
| `SpecTexts.ChangedKeys` | src/spec.rs:294-335 | the loops list exactly the changed keys, ranked as a task's keys are |
| `Reload.PlanEntries` | src/reload.rs:335-455 | the loop over the entries makes the changes and adoptions of the specification, taking each moved item once |
| `Reload.PlanSide` | src/reload.rs:314-484 | a side's changes are those of its entries, then the removals of items whose entry is gone |
| `ReloadPlans.PlannedIff` | src/reload.rs:335-484 | a side's changes are exactly those the entries, the base and the items call for, with every field of each: which removals, additions and changes are taken unasked, and why one is left |
| `ReloadPlans.TakenOverIff` | src/reload.rs:345-420 | an item is taken over exactly when it is at the path of an entry with none of its own, and its own entry is gone |
| `ReloadPlans.PlannedInOrder` | src/reload.rs:363-484 | the changes for entries come in the config's order, and the removals after them |
| `ReloadChoices.MarkedExactly` | src/reload.rs:254-304 | a new task or folder is marked in the way exactly when a task or folder not being removed blocks its path, and the reason names one such |
| `ReloadChoices.CheckedIsSettled` | src/reload.rs:254-304 | checking again changes nothing |
| `ReloadChoices.LeaveAndTakeAgain` | src/reload.rs:225-304 | leaving a removal and taking it again restores every change, exactly when no change that the removal unblocks was forced against its blocker |
| `ReloadChoices.ForcedChoiceIsLost` | src/reload.rs:225-304 | the failing case: `a` forced over `a/c`, and the removal of `a/b` left and taken again: `a` is left |
| `ReloadChoices.ToggleAlternates` | src/reload.rs:234-252 | toggling alternates between all left and everything not blocked taken |
| `ReloadChoices.AllBlockedStays` | src/reload.rs:234-252 | with every change blocked, toggling leaves them all |
| `ReloadChoices.PlannedIsSound` | src/reload.rs:314-484 | every plan made starts with nothing marked, so that the laws above hold of it |
| `ReloadChoices.Plan.CheckTheWay` | src/reload.rs:254-304 | the loop marks every change as the specification says |
| `ReloadChoices.Plan.Choose` | src/reload.rs:225-230 | taking or leaving one change, and what is then in the way |
| `ReloadChoices.Plan.ToggleAll` | src/reload.rs:234-252 | the two passes around the check come to the specified toggle |
| `Worklist.EachOnce` | src/reload.rs:917-961 | the rounds end, and make each element once, whatever the needs, cycles included |
| `Worklist.NothingReadyIsCycle` | src/reload.rs:917-929 | a round with nothing ready has a cycle among what is pending |
| `Worklist.AfterNeedsIffAcyclic` | src/reload.rs:917-961 | each comes after all it needs exactly when the needs have no cycle |
| `Worklist.Order` | src/reload.rs:917-961 | the partition-and-swap loop makes that order |
| `Worklist.OneRound` | src/reload.rs:917-931 | with all ready at once, or none, the order is the list's |
| `Worklist.SelectedAt` | src/reload.rs:919-927 | the elements of a round, and those that wait, stay in the list's order |
| `AddOrder.OrderAdds` | src/reload.rs:903-961 | the loop over the additions, folders first, makes them in the order the laws below are about |
| `AddOrder.OfKindAt` | src/reload.rs:912-912 | folders stay in their order among each other, and so do tasks |
| `AddOrder.NeedsIsListed` | src/reload.rs:920-927 | an addition needs another exactly when the list at its `deps` has the other's label |
| `AddOrder.LabelIsOne` | src/reload.rs:918-927 | two additions with one label are at one path, and both folders or both tasks |
| `AddOrder.DepsComeFirst` | src/reload.rs:917-961 | with no cycle among the deps, an addition comes after each that its `deps` list |
| `AddOrder.EachOnce` | src/reload.rs:903-961 | each taken addition is made exactly once, for every dep graph |
| `AddOrder.FoldersComeFirst` | src/reload.rs:914-916 | every folder is made before every task |
| `AddOrder.AfterNeedsIffAcyclic` | src/reload.rs:917-961 | every task comes after all the additions it needs, exactly when their deps have no cycle |
| `ReloadRun.Runner.Apply` | src/reload.rs:1075-1119 | the loop runs the steps against the kernel's answers, skips those of a failed entry and marks its change failed |
| `ReloadDone.RunKeeps` | src/reload.rs:1075-1119 | after every step of every run, whatever was refused, each item is as its change done leaves it, and each made one as its entry says |
| `ReloadCarries.StepsCarry` | src/reload.rs:780-990 | the steps have one act for each change that takes one, each entry's once, and none for another |
| `ReloadEffects.CarriedOutIff` | src/reload.rs:832-1013 | the changes done or failed are exactly those there is something to do for: every removal, taken or left; a new or written entry taken; a changed folder, and a changed task with a field taken |
| `ReloadEffects.RemovedIsGone` | src/reload.rs:832-845 | a removal taken and done leaves nothing of its task or folder |
| `ReloadEffects.LeftIsDisowned` | src/reload.rs:846-858 | a removal left and done keeps the task or folder as it was, from no entry |
| `ReloadEffects.WrittenIsOwned` | src/reload.rs:860-880 | what was the runner's own is the entry's once written, and a folder starts as the entry says |
| `ReloadEffects.FolderAsChosen` | src/reload.rs:963-978 | a folder changed starts collapsed as the config says where that was taken, and as before where not |
| `ReloadEffects.NewIsListed` | src/reload.rs:931-961 | an addition done is listed at its entry's path, from it and as it says, not running |
| `ReloadEffects.NoOtherIsNew` | src/reload.rs:931-961 | whatever is listed that was not here is an addition's that was done |
| `ReloadEffects.OthersStay` | src/reload.rs:1075-1119 | an item with no change done is as it was, but for an entry that takes it over |
| `ReloadEffects.UpdateIsOfWhatIsHere` | src/reload.rs:1003-1011 | an update says what its task has now, so that the kernel can refuse one changed meanwhile |
| `ReloadEffects.CountedAt` | src/reload.rs:809-880 | where the steps count each entry to be before the additions: where its item is, unless that is taken away, or where it was written |
| `ReloadPasses.RemovalsFirst` | src/reload.rs:832-961 | when an addition's turn comes, every removal taken has had its own |
| `ReloadPasses.UnforcedIsUnblocked` | src/reload.rs:254-304 | a plan whose way is checked, with nothing forced, has nothing taken against what is in its way |
| `ReloadPasses.NothingFails` | src/reload.rs:780-1119 | with nothing taken against what is in its way, of a config whose paths may be together, no change fails unless the kernel refuses what it could do |
| `ReloadConverges.Converges` | src/reload.rs:1075-1153 | planning the same config again, after any choices and any refusals, offers exactly the changes that failed and the new ones left, each as planned, and takes nothing over |
| `ReloadConverges.ConvergesForEach` | src/reload.rs:1127-1153 | entry by entry: a change is offered again exactly when it failed or was a new one left, for the same entry, with the same kind, path and fields |
| `ReloadConverges.DoneAsChosen` | src/reload.rs:966-1013 | a task whose change is done has the config's value at each key taken, and its own at every other |
| `ReloadOffers.SideAgain` | src/reload.rs:314-505 | one side planned again, against what is there then and the base left |
| `Orders.InsertKeepsOrder` | src/spec.rs:392-408 | putting a new element right after the nearest one before it in an order keeps a list in that order |
| `Bases.Base.Set` | src/spec.rs:392-408 | the base gets the entry's definition; a new entry goes right after the nearest before it in the config, and the base stays in the config's order |
| `Bases.Base.Remove` | src/spec.rs:410-413 | the entry goes, and the rest keep their order |
| `SiblingOrder.PlaceIsInOrder` | src/reload.rs:1054-1071 | the place a new entry is given beside those there is the one the config's order gives it |
| `SiblingOrder.OwnGroup` | src/reload.rs:1054-1071 | its group lists the config's entries in the config's order exactly when it did before and none of them is on the wrong side of where the path is listed, or is put |
| `SiblingOrder.StepsListAs` | src/reload.rs:931-961 | the steps for the additions, those accepted, make the lists that the laws here are about |
| `SiblingOrder.OneInOrderIff` | src/reload.rs:931-961 | an addition leaves a group in order exactly when it was and the entry comes to be listed in place: no later one puts a group right again |
| `SiblingOrder.GroupInOrderIff` | src/reload.rs:931-961 | in whatever order the entries are added and whichever are refused, a group ends in order exactly when it started so and each entry accepted under it came to be listed in place |
| `SiblingOrder.EachInOrderIff` | src/reload.rs:931-961 | the same of every group at once |
| `SiblingOrder.UnlistedInPlace` | src/reload.rs:1054-1071 | an entry not listed yet is put in place, in a group in order with nothing refused under it |
| `SiblingOrder.GroupStaysInOrder` | src/reload.rs:931-961 | a group stays in order, whatever is refused elsewhere, when the entries added under it are accepted, are not listed at the start, and come before what is added under them |
| `SiblingOrder.AddsKeepOrder` | src/reload.rs:931-961 | every group stays in order when none is refused, none is listed at the start, and none comes after one under it |
| `SiblingOrder.StandingGroupStays` | src/reload.rs:931-961 | a failing case: a folder added where a group already stands stays out of order |
| `SiblingOrder.MadeGroupStays` | src/reload.rs:914-961 | a failing case with nothing standing at any path: `a/b/` before `a/` in the config makes the group `a` last, and the folder stays there |
| `SiblingOrder.RefusedPutsLast` | src/reload.rs:931-961 | a failing case: an entry placed after one that was refused goes last |
| `ConfigOrder.OrderMoves` | src/reload.rs:1014-1051 | the loops over the entries and the groups above each make the specified moves |
| `ConfigOrder.GroupsInConfigOrder` | src/reload.rs:1014-1051 | the moves leave each group with its config children in the order they first appear, and then the rest in their old order |
| `OrderedGroups.ChildrenByFirstEntry` | src/reload.rs:1014-1051 | told from the entries and their paths: of two children the one with the earlier first entry at or under it comes first, one with none after all that have one, and those with none as they were; none is lost |
| `Tree.PlaceChildIs` | src/console/task_tree.rs:205-217 | moving by index puts a child right after the one beside it, or first, also when it is listed already |
| `TreeAdd.AddKeepsTree` | src/console/task_tree.rs:132-219 | adding keeps every node listed by the groups above it, once, and no group empty that is not a folder or the root |
| `TreeAdd.AddKeepsCounts` | src/console/task_tree.rs:54-58 | adding keeps every group's counts a recount of the tasks strictly under it |
| `TreeInsert.TreeIsListable` | src/console/task_tree.rs:73-77 | the list of any tree has every group together and every folder ahead of what is in it |
| `TreeInsert.FitsInserts` | src/console/task_tree.rs:173-219 | where the groups on the way take an entry after another, the list gets it right after the other, at any depth |
| `TreeWhere.AddInserts` | src/console/task_tree.rs:132-219 | adding an entry after another changes the list exactly by putting it right after the other, or first, exactly when the kernel could keep that list |
| `TreeRemove.PruneKeepsTree` | src/console/task_tree.rs:253-273 | pruning closes the gap that a removal leaves, as far up as groups are left empty |
| `TreeRemove.RemoveKeepsTree` | src/console/task_tree.rs:221-273 | taking a task or folder away keeps the tree a tree |
| `TreeRemove.RemoveKeepsCounts` | src/console/task_tree.rs:354-367 | every count stays a recount, so that none goes below zero |
| `TreeRemove.RemoveDrops` | src/console/task_tree.rs:221-273 | the list loses exactly the entry taken away |
| `TreeRows.RowsAreVisible` | src/console/task_tree.rs:660-702 | the rows are all nodes in order, cut at collapsed groups |
| `TreeRows.RowsHave` | src/console/task_tree.rs:660-702 | a node has a row exactly when no group above it but the root is collapsed |
| `TreeRows.FlatInOrder` | src/console/task_tree.rs:679-702 | the rows, were every group open, list the tasks and folders as the kernel does |
| `TreeRows.ShownIsOutermost` | src/console/task_tree.rs:545-555 | a cursor that a fold hides goes to the nearest row above, which is the outermost closed group over it |
| `TreeRows.FoldKeepsFlat` | src/console/task_tree.rs:504-544 | folding leaves the list as it is |
| `TreeSaved.ListTellsChildren` | src/console/task_tree.rs:679-702 | what a group lists tells its children and what each of them lists |
| `TreeSaved.SameListSameTree` | src/console/task_tree.rs:679-702 | trees that list the same entries have the same groups in the same order |
| `TreeSaved.FoldsSurviveSave` | src/console/task_tree.rs:103-219 | a tree that starts with the flags saved of another, and comes to list the same entries in whatever order they are added, has the same flags and rows |
| `TreeSaved.AddedIsShown` | src/console/task_tree.rs:145-219 | what an addition puts at its path, and which flag each group has: its own, else the saved one, else open, or as told for the folder added |
| `TreeState.AddKeeps` | src/console/task_tree.rs:132-219 | adding keeps the tree, the counts, `paths` in agreement with `nodes`, and each flag taken once |
| `TreeState.RemoveKeeps` | src/console/task_tree.rs:221-273 | taking an entry away keeps the same |
| `TreeState.FoldKeeps` | src/console/task_tree.rs:504-544 | so does folding |
| `TreeState.StatusKeeps` | src/console/task_tree.rs:369-387 | so does a new status: each group counts the task as it is now |
| `TreeState.MoveKeepsFolds` | src/console/task_tree.rs:275-317 | a group there before a task's move and after it is shown as it was |
| `TreeState.FolderMoveKeepsFolds` | src/console/task_tree.rs:319-352 | so with a folder's move, the folder itself included |
| `TreeState.MoveRelists` | src/console/task_tree.rs:275-317 | a task's move takes it from its place in the list and puts it right after the other, exactly when the kernel could keep that list |
| `TreeState.FolderMoveRelists` | src/console/task_tree.rs:319-352 | so does a folder's |
| `TaskTree.CursorIs` | src/console/task_tree.rs:658-677 | a path that still has a row keeps the cursor; else it stays on its row, or goes to the last |
| `TaskTree.TaskTree.Walk` | src/console/task_tree.rs:679-702 | the recursive walk gives the rows of the specification |
| `TaskTree.TaskTree.Rebuild` | src/console/task_tree.rs:658-677 | the rows are those of the tree, and the cursor stays on its path, or on the row in its place |
| `TaskTree.TaskTree.List` | src/console/task_tree.rs:173-219 | the loop over the groups above a path lists it in each, and uses up each flag it takes |
| `TaskTree.TaskTree.Add` | src/console/task_tree.rs:130-143 | a task is added as specified, and nothing changes when something is at its path |
| `TaskTree.TaskTree.AddFolder` | src/console/task_tree.rs:145-171 | a folder is added as specified, and nothing changes when a task is at its path |
| `TaskTree.TaskTree.Prune` | src/console/task_tree.rs:253-273 | the loop up the groups prunes as specified |
| `TaskTree.TaskTree.Take` | src/console/task_tree.rs:354-367 | a task is taken away, off every count above it |
| `TaskTree.TaskTree.TakeFolder` | src/console/task_tree.rs:238-251 | a folder is taken away, and its group stays while something is under it |
| `TaskTree.TaskTree.Remove` | src/console/task_tree.rs:221-227 | a task or folder is removed; an unknown id changes nothing |
| `TaskTree.TaskTree.MoveTask` | src/console/task_tree.rs:275-317 | the tree after a move of a task or a folder, and where the cursor is; an unknown id changes nothing, and a move onto something else only takes the entry away |
| `TaskTree.TaskTree.MoveFolder` | src/console/task_tree.rs:319-352 | the tree after a folder's move, and where the cursor is |
| `TaskTree.TaskTree.SetStatus` | src/console/task_tree.rs:369-387 | the task has the status, nothing else is new but counts, and the early return and the loop come to the same recount |
| `TaskTree.TaskTree.Fold` | src/console/task_tree.rs:500-556 | opening and closing open and close the groups of a pattern, or the one the cursor is on or its task is in; a toggle closes them if some was open and else opens them; no other group changes, and the cursor ends on the nearest row at or above where it was |
| `Globs.MatchesIfCut` | src/console/task_tree.rs:705-724 | a glob matches exactly the paths that can be cut into a piece for each part |
| `ShellLex.ReadLineLine` | src/parse_shell.rs:24-107 | a line is made of pieces in one way at most: reading undoes writing |
| `ShellLex.LineIsItems` | src/parse_shell.rs:24-107 | the pieces read make up the line |
| `ShellSplit.SplitIsGrammar` | src/parse_shell.rs:14-126 | a line splits into words exactly when it is made of pieces with nothing a shell treats specially, and the words are theirs without quotes |
| `ShellSplit.OneReading` | src/parse_shell.rs:24-107 | two ways to make a line of pieces are one, so that a line has the words of one command at most |
| `ShellSplit.SplitArgv` | src/parse_shell.rs:14-98 | the character loop gives the words of the grammar, or refuses the line |
| `ShellSplit.EndWord` | src/parse_shell.rs:100-109 | a word is ended exactly when the first of the words read so far is no keyword, and the arguments are then the texts of those words |
| `ShellJoin.JoinSplits` | src/spec.rs:516-548 | any argv but the empty one, of any strings, joined into a line splits back into itself |
| `ShellJoin.EmptyDoesNot` | src/spec.rs:516-548 | an observation: the empty argv is joined into an empty line, which is refused |
| `EditDistance.ApartIsCheapest` | src/cfg.rs:371-385 | the distance is the cost of a cheapest script of insertions, deletions and substitutions |
| `EditDistance.Symmetric` | src/cfg.rs:371-385 | the distance is the same both ways |
| `EditDistance.Triangle` | src/cfg.rs:371-385 | by way of another word it is no shorter |
| `EditDistance.ZeroIsSame` | src/cfg.rs:371-385 | only equal words are no distance apart |
| `EditDistance.Measure` | src/cfg.rs:371-385 | the two swapped rows compute it |
| `EditDistance.SuggestKey` | src/cfg.rs:343-369 | the first key the same once normalized if there is one, else the first of the closest within the bound, else none |
| `EditDistance.SeparatorsIgnored` | src/cfg.rs:345-350 | wherever a `_` or a `-` is, it makes no difference to a key, and any other character counts in lower case |
| `Docs.WrittenIsRead` | src/config/writer.rs:117-152 | writing back what was read gives the text, for every accepted text: byte order mark, CRLF, no final newline, nothing at all |
| `Docs.AcceptedIff` | src/config/writer.rs:117-125 | a text is accepted exactly when it has no `\r\n`, or no newline outside one |
| `Docs.LinesAreLines` | src/config/writer.rs:126-139 | no line of an accepted text has one of its line endings in it |
| `Docs.ApplySplices` | src/config/writer.rs:168-189 | splices applied from the bottom up come to all of them at once |
| `Docs.LineStays` | src/config/writer.rs:154-189 | a line outside every splice is in the result as it was |
| `Yaml.SameIsEqual` | src/config/writer.rs:1538-1559 | the comparison holds exactly of equal values, the order of keys included |
| `Yaml.SetChangesOne` | src/config/writer.rs:1490-1496 | setting a task's field changes that task alone |
| `Yaml.FieldSet` | src/config/writer.rs:1498-1505 | a field set reads back, and the others stay |
| `Yaml.VariableSet` | src/config/writer.rs:1511-1518 | a variable set reads back, and the other variables and fields stay |
| `Yaml.FieldTaken` | src/config/writer.rs:1498-1510 | a field taken away is gone, and the others stay |
| `Yaml.VariableTaken` | src/config/writer.rs:1519-1536 | a variable taken away is gone, the others stay, and `env` goes with the last |
| `Yaml.AppliesIff` | src/config/writer.rs:1452-1536 | which edits can be made: of a mapping, with a mapping of tasks, or none yet for an addition, and the task there or not as the edit needs |
| `Yaml.AddThenRemove` | src/config/writer.rs:1462-1472 | a task added is there and the others are as they were; removed again, it leaves the tasks as they were |
| `Yaml.RemoveLeavesOthers` | src/config/writer.rs:1468-1472 | a task removed leaves the others as they were |
| `Yaml.RenameThenBack` | src/config/writer.rs:1473-1489 | a renamed task keeps its entry, the others are as they were, and renaming it back restores the tasks in their order |
| `Writer.Apply` | src/config/writer.rs:82-107 | any text returned parses to the fold of the edits over the parsed file, and is the file with exactly the edits' splices made in its lines; one is returned exactly when each edit in turn can be made and what it leaves parses to what it should |
| `Quoting.DoubleReadsBack` | src/config/writer.rs:1365-1384 | any text written in double quotes reads back by the escapes of sections 5.7 and 7.3.1 of YAML 1.2.2 |
| `Quoting.SingleFound` | src/config/writer.rs:442-469 | a single-quoted scalar with no quote after it is found whole, with its text and exact length |
| `Quoting.DoubleFound` | src/config/writer.rs:442-469 | a double-quoted scalar is found whole, whatever follows, with its text and exact length |
| `Quoting.Quoted` | src/config/writer.rs:442-469 | the loop finds the closing quote the specification finds |
| `Scanning.Scan` | src/config/writer.rs:331-440 | the loop over a line goes as the step-by-step scan |
| `Scanning.PassQuote` | src/config/writer.rs:342-358 | from inside a quote the scan goes on right after the quote that closes it, or the line ends open |
| `Scanning.DoublePassed` | src/config/writer.rs:342-385 | a double-quoted scalar where a token can start is closed by its last quote |
| `Scanning.SinglePassed` | src/config/writer.rs:342-385 | so is a single-quoted one with no quote right after it |
| `Scanning.CommentFound` | src/config/writer.rs:364-367 | in a text without quotes the comment found is the first `#` that starts it or follows a blank, and with none there is none |
| `Scanning.FlowDepth` | src/config/writer.rs:369-436 | inside a flow collection, how deep the line ends is how deep it started and what it opens, less what it closes |
| `Scanning.BlockIsKeys` | src/config/writer.rs:396-424 | the header of a block scalar after a key belongs to the column of the key |
| `Scanning.BlockIsDashs` | src/config/writer.rs:396-406 | and one after a `-` to that of the dash |
| `Scanning.SpecialNoted` | src/config/writer.rs:381-395 | an anchor, alias or tag where a token can start is noted, the first for good, and its name passed over |
| `Scanning.PlainHasNothing` | src/config/writer.rs:331-440 | a text with none of these characters has none of these things |
| `WriteBack.PathReadsBack` | src/write_back.rs:354-376 | resolving the written form of a path from the file's directory gives the path, in the project or not |
| `WriteBack.WrittenFromFile` | src/write_back.rs:354-376 | a path in the project is written from the file, and the same wherever the project is |
| `WriteBack.GoesUpToCommon` | src/write_back.rs:363-369 | it goes up to where the two paths part and no further, and so never out of the project |
| `WriteBack.WrittenOutside` | src/write_back.rs:357-362 | with the path or the file outside the project, it is written whole unless it is in the file's directory |
| `WriteBack.ResolvePath` | src/cfg.rs:67-89 | the loop over the steps of a path resolves them |
| `WriteBack.DepReadsBack` | src/write_back.rs:472-486 | an observation, for any strings: a dep reads back exactly when what it is from the mount is a path of its own |
| `WriteBack.TaskDepReadsBack` | src/config/config.rs:576-582 | every task path reads back as a dep, from a file mounted anywhere |
| `WriteBack.StopReadsBack` | src/write_back.rs:388-416 | a `stop` with inherited parts left out, over the defaults, is the original exactly when it has every part the defaults have |
| `WriteBack.LeftOutIff` | src/write_back.rs:383-416 | a key is left out exactly when the defaults say all of its part alike and the entry says none of it; the rest is written as it is |
| `WriteBack.InheritedOut` | src/write_back.rs:388-416 | the loop over the parts leaves out those inherited and not said |
| `Connections.OneResponseEach` | src/dekit/server.rs:599-817 | in every run each request but an attach, a wait or an upgrade has exactly one response queued by the end or the hand-over; an upgrade at most one, the others none |
| `Connections.ReadsOnly` | src/dekit/server.rs:638-660 | a message is read exactly in the loop, neither frozen nor closing, with nothing owed, and a request counts only after the hello |
| `Connections.HelloFirst` | src/dekit/server.rs:660-700 | in every run no request is taken before the hello |
| `Connections.CanServe` | src/dekit/server.rs:599-860 | whatever requests a client makes, there is a run that reads each, answers each once, writes every answer and ends |
| `Connections.RunCarried` | src/dekit/server.rs:599-860 | what is written and what is pending is what was queued, in order, each byte once |
| `Connections.RunStill` | src/dekit/server.rs:790-805 | in every run, while frozen, no handler is at work and the snapshot's output is exactly what is pending |
| `Connections.FrozenIsSilent` | src/dekit/server.rs:638-640 | no step of a frozen connection but its leaving the loop reads, queues or writes anything or ends the freeze, short of a thaw |
| `Connections.StaysFrozen` | src/dekit/server.rs:638-805 | frozen and not closing, a connection is silent over every run without a thaw or a close |
| `Connections.WritesIfClosing` | src/dekit/server.rs:824-860 | a frozen connection can write before it is thawed or closed exactly when it is closing with output owed: the loop is left and the freeze forgotten |
| `Connections.NoneRegisters` | src/dekit/server.rs:507-541 | from an acknowledged pause until a thaw is sent, no connection registers, in every run |
| `Connections.RunPausedAsTold` | src/dekit/server.rs:153-207 | the accept loop is paused as the last message it took says |
| `Connections.RegistersAsTold` | src/dekit/server.rs:153-207 | a client can register exactly while the last message the loop took is no pause |
| `ConfigLoad.Config.LoadFile` | src/config/config.rs:392-439 | loading ends for every set of files, cycles included, and gives the entries of a file and of those it loads in order, or is refused exactly when the specification says |
| `ConfigLoad.Config.LoadTasks` | src/config/config.rs:539-586 | a file's entries are met in order; refused exactly when one is, or a task's path came before |
| `ConfigLoad.ReadDir` | src/config/config.rs:241-305 | a config loads exactly when no file is refused, no task path is twice or under another, and no folder is twice, at or under a task |
| `ConfigChains.MetByChains` | src/config/config.rs:392-439 | told by chains of loads: each entry is an item, its path the mounts of the chain to its file and then its name; they come in the order of the chains, a file's own first; and every item is there, once |
| `ConfigChains.AcceptedIff` | src/config/config.rs:392-439 | a config is accepted exactly when every file a chain comes to is there, in the project, no project's own but the first and not being loaded already, and each of its items can be taken where it is mounted |
| `ConfigChains.FileMounted` | src/config/config.rs:497-539 | mounted further in, a file's entries are those it has, with the mount in front of each path |
| `ConfigChains.OnlyEmptyPathsDiffer` | src/config/config.rs:497-566 | and it is refused alike, but for a task whose path would be empty |
| `ConfigLoad.Entries` | src/config/config.rs:163-177 | merging the two lists gives back the order the entries were met in |

## Left out

- ReloadConverges.Converges: the rewriting of deps by removals and moves, entries without a source and tasks without a path; the steps that put the config's order in place are any `Move` steps, which touch no task's definition.
- ConfigOrder.GroupsInConfigOrder: the runs in which a move is refused, which the reload leaves as it is.
- SpecTexts.ChangedKeys: the order of the variables of one `env` among themselves, since a mapping inside a value is unordered here.
- TreeState.AddKeeps: an id added twice, or a folder added where one is; the kernel gives each id and path once.
- TaskTree.TaskTree.MoveTask: a move under a task, or of a folder onto a folder; the kernel refuses those.
- TaskTree.TaskTree.MoveFolder: the same; the move of a task or of an unknown id goes no further than `MoveTask`.
- TreeAdd.AddKeepsCounts: a task whose kind changes through `task_mut`, which leaves the counts as they were.
- Quoting.SingleFound: lengths are in characters, not in bytes.
- Quoting.DoubleReadsBack: double-quoted text over several lines, which the writer never writes.
- Scanning.Scan: block scalars and flow collections carried from line to line; `analyze`, which classifies the lines, is not part of this model.
- Writer.Apply: finding the splices of an edit (`View`) and the YAML parser are parameters; that the splices of one edit never overlap, as the source says, is a precondition.
- Docs.ApplySplices: two splices that start at one line.
- WriteBack.StopReadsBack: the `log` case of the same rule, where any mapping turns logging on.
- WriteBack.PathReadsBack: drive prefixes and separators of Windows; a path's text is its components.
- Connections.OneResponseEach: failures to queue, to write or of a handler, and a connection that resumes after an upgrade.
- ConfigLoad.ReadDir: settings other than task and folder entries, `!js` values, and the check of `autorestart`.
- EditDistance.SuggestKey: lower-casing is a parameter, any function from a character to text.
- `order_change` of the reload, which decides whether a new order is offered.
- The kernel's scheduling and the processes, the protocol's frames, and the console's drawing, keys and mouse.
- `expand`, `collapse`, `click`, `select_task` and scrolling of the console's list: only easy members.
- `duration.rs` with `format_duration`: only easy members.
- The installer, lock files, sockets, file watching, command-line arguments, and the text of error messages.
