/**
 How the additions of a reload are ordered: folders before tasks, and no task before one
 that it depends on.
 */
module AddOrder {
  import opened Specs
  import opened Reload
  import Worklist

  function PathText(path: seq<string>): string {
    if path == [] then ""
    else if |path| == 1 then path[0]
    else PathText(path[..|path| - 1]) + "/" + path[|path| - 1]
  }

  /** A change's path as a list shows it: a folder's ends in `/`. */
  function Label(change: Change): string {
    PathText(change.path) + if change.folder then "/" else ""
  }

  /** The texts of a definition's `deps`. */
  function DepsOf(spec: Spec): set<string> {
    match Lookup(spec, "deps")
    case Some(Items(items)) => set item | item in items && item.Text? :: item.text
    case _ => {}
  }

  function Deps(change: Change): set<string> {
    if change.config.Some? then DepsOf(change.config.value) else {}
  }

  /** `change` names `dep` among its deps. */
  predicate Needs(change: Change, dep: Change) {
    Label(dep) in Deps(change)
  }

  /** A definition's `deps` list one of the additions, as it is shown: a list, with the addition's label in it. */
  predicate ListsDep(change: Change, dep: Change) {
    && change.config.Some? && Text("deps") in change.config.value
    && var deps := change.config.value[Text("deps")];
       deps.Items? && Text(Label(dep)) in deps.items
  }

  lemma NeedsIsListed(change: Change, dep: Change)
    ensures Needs(change, dep) <==> ListsDep(change, dep)
  {
    if ListsDep(change, dep) {
      var text := Text(Label(dep));
      assert text in change.config.value[Text("deps")].items && text.Text?;
    }
  }

  /** The folders, or the tasks, of the additions. */
  function OfKind(adds: seq<Change>, folder: bool): seq<Change> {
    if adds == [] then []
    else
      var (rest, last) := (OfKind(adds[..|adds| - 1], folder), adds[|adds| - 1]);
      if last.folder == folder then rest + [last] else rest
  }

  function FoldersFirst(adds: seq<Change>): seq<Change> {
    OfKind(adds, true) + OfKind(adds, false)
  }

  /** The order the additions are made in. */
  function InAddOrder(adds: seq<Change>): seq<Change> {
    Worklist.Rounds(Needs, FoldersFirst(adds))
  }

  method OrderAdds(adds: seq<Change>) returns (order: seq<Change>)
    ensures order == InAddOrder(adds)
  {
    order := Worklist.Order(Needs, FoldersFirst(adds));
  }

  lemma {:induction false} OfKindKeeps(adds: seq<Change>)
    ensures multiset(FoldersFirst(adds)) == multiset(adds)
    ensures forall c | c in OfKind(adds, true) :: c.folder
    ensures forall c | c in OfKind(adds, false) :: !c.folder
  {
    if adds != [] {
      var last := |adds| - 1;
      OfKindKeeps(adds[..last]);
      assert adds == adds[..last] + [adds[last]];
    }
  }

  /** The folders come in the order they were in, and so do the tasks. */
  lemma {:induction false} OfKindAt(adds: seq<Change>, folder: bool) returns (at: seq<nat>)
    ensures var kind := OfKind(adds, folder);
            && |at| == |kind| && (forall i | 0 <= i < |at| :: at[i] < |adds| && adds[at[i]] == kind[i])
            && forall i, j | 0 <= i < j < |at| :: at[i] < at[j]
  {
    at := [];
    if adds != [] {
      at := OfKindAt(adds[..|adds| - 1], folder);
      if adds[|adds| - 1].folder == folder {
        at := at + [|adds| - 1];
      }
    }
  }

  /** Every addition comes exactly once, whatever the deps, cycles included. */
  lemma EachOnce(adds: seq<Change>)
    ensures multiset(InAddOrder(adds)) == multiset(adds)
  {
    OfKindKeeps(adds);
    Worklist.EachOnce(Needs, FoldersFirst(adds));
  }

  lemma SameElements(a: seq<Change>, b: seq<Change>, c: Change)
    requires multiset(a) == multiset(b)
    ensures c in a <==> c in b
  {
    assert c in a <==> c in multiset(a);
  }

  /** A folder's entry says only whether it starts collapsed. So every folder comes before every task. */
  lemma FoldersComeFirst(adds: seq<Change>, i: nat, j: nat)
    requires forall c | c in adds && c.folder :: Deps(c) == {}
    requires i < j < |InAddOrder(adds)| && InAddOrder(adds)[j].folder
    ensures InAddOrder(adds)[i].folder
  {
    var (folders, tasks) := (OfKind(adds, true), OfKind(adds, false));
    var order := InAddOrder(adds);
    OfKindKeeps(adds);
    forall c | c in folders ensures Worklist.IsReady(Needs, c, FoldersFirst(adds)) {
      SameElements(FoldersFirst(adds), adds, c);
    }
    var rest := Worklist.FreeFirst(Needs, folders, tasks);
    forall k | |folders| <= k < |order| ensures !order[k].folder {
      assert order[k] == rest[k - |folders|];
    }
  }

  /** Each addition comes after all the additions it needs, exactly when their deps have no cycle. */
  lemma AfterNeedsIffAcyclic(adds: seq<Change>)
    ensures Worklist.AfterNeeds(Needs, InAddOrder(adds)) <==> Worklist.Acyclic(Needs, adds)
  {
    var all := FoldersFirst(adds);
    OfKindKeeps(adds);
    forall c ensures c in all <==> c in adds {
      SameElements(all, adds, c);
    }
    Worklist.AfterNeedsIffAcyclic(Needs, all);
    if Worklist.Acyclic(Needs, adds) {
      Worklist.FewerAcyclic(Needs, adds, all);
    }
    if Worklist.Acyclic(Needs, all) {
      Worklist.FewerAcyclic(Needs, all, adds);
    }
  }

  /** With no cycle among the deps, an addition that another lists among its own comes before it. */
  lemma DepsComeFirst(adds: seq<Change>, i: nat, j: nat)
    requires Worklist.Acyclic(Needs, adds) && i < |InAddOrder(adds)| && j < |InAddOrder(adds)|
    requires ListsDep(InAddOrder(adds)[i], InAddOrder(adds)[j])
    ensures j < i
  {
    AfterNeedsIffAcyclic(adds);
    NeedsIsListed(InAddOrder(adds)[i], InAddOrder(adds)[j]);
  }

  // ----- A label is of one path -----

  /** Names as a path has them: not empty, and without a `/`. */
  predicate AreNames(path: seq<string>) {
    path != [] && forall name | name in path :: name != "" && '/' !in name
  }

  lemma LastName(path: seq<string>)
    requires AreNames(path)
    ensures |path| == 1 ==> PathText(path) == path[|path| - 1]
    ensures |path| > 1 ==> AreNames(path[..|path| - 1]) && PathText(path) == PathText(path[..|path| - 1]) + "/" + path[|path| - 1]
    ensures '/' !in path[|path| - 1] && path[|path| - 1] != "" && ('/' in PathText(path) <==> |path| > 1)
  {
    assert path[|path| - 1] in path;
    if |path| > 1 {
      forall name | name in path[..|path| - 1] ensures name in path {
      }
      assert PathText(path)[|PathText(path[..|path| - 1])|] == '/';
    }
  }

  lemma SameEnd(a: string, b: string, p: string, q: string)
    requires a + "/" + p == b + "/" + q && '/' !in p && '/' !in q
    ensures a == b && p == q
  {
    var text := a + "/" + p;
    forall k | |a| < k < |text| ensures text[k] != '/' {
      assert text[k] == p[k - |a| - 1];
    }
    forall k | |b| < k < |text| ensures text[k] != '/' {
      assert text[k] == q[k - |b| - 1];
    }
    assert text[|a|] == '/' && text[|b|] == '/';
    assert text[..|a|] == a && text[|a| + 1..] == p && text[..|b|] == b && text[|b| + 1..] == q;
  }

  lemma {:induction false} PathTextOne(a: seq<string>, b: seq<string>)
    requires AreNames(a) && AreNames(b) && PathText(a) == PathText(b)
    ensures a == b
    decreases |a|
  {
    LastName(a);
    LastName(b);
    if |a| > 1 {
      SameEnd(PathText(a[..|a| - 1]), PathText(b[..|b| - 1]), a[|a| - 1], b[|b| - 1]);
      PathTextOne(a[..|a| - 1], b[..|b| - 1]);
      assert a == a[..|a| - 1] + [a[|a| - 1]] && b == b[..|b| - 1] + [b[|b| - 1]];
    }
  }

  lemma LabelEnds(change: Change)
    requires AreNames(change.path)
    ensures var shown := Label(change);
            && shown != "" && (shown[|shown| - 1] == '/' <==> change.folder)
            && PathText(change.path) == if change.folder then shown[..|shown| - 1] else shown
  {
    var text := PathText(change.path);
    LastName(change.path);
    assert text != "" && text[|text| - 1] == change.path[|change.path| - 1][|change.path[|change.path| - 1]| - 1];
    assert (text + "/")[..|text|] == text;
  }

  /** Two additions shown alike are at one path, and both folders or both tasks: a dep names one at most. */
  lemma LabelIsOne(a: Change, b: Change)
    requires AreNames(a.path) && AreNames(b.path) && Label(a) == Label(b)
    ensures a.path == b.path && a.folder == b.folder
  {
    LabelEnds(a);
    LabelEnds(b);
    PathTextOne(a.path, b.path);
  }
}
