/**
 What a config holds, told by chains of loads: from a file to one it loads, and on.
 Each item is met once, at the mounts of its chain, in the order of the chains.
 */
module ConfigChains {
  import opened Paths
  import opened Specs
  import opened ConfigLoad

  // ----- Chains of loads -----

  /** Which of its children each file goes on to. */
  type Chain = seq<nat>

  /** The file a chain leads to; a file does not go on to itself. */
  function FileOn(files: Files, file: File, chain: Chain): Option<File>
    decreases |chain|
  {
    if chain == [] then Some(file)
    else if file in files && chain[0] < |files[file].children| && files[file].children[chain[0]].file != file then
      FileOn(files, files[file].children[chain[0]].file, chain[1..])
    else None
  }

  /** Where that file is mounted: the mounts of the chain, one after the other. */
  function MountOn(files: Files, file: File, mount: Path, chain: Chain): Path
    decreases |chain|
  {
    if chain == [] || file !in files || chain[0] >= |files[file].children| then mount
    else MountOn(files, files[file].children[chain[0]].file, mount + files[file].children[chain[0]].mount, chain[1..])
  }

  /** The files being loaded when it is. */
  function StackOn(files: Files, stack: seq<File>, file: File, chain: Chain): seq<File>
    decreases |chain|
  {
    if chain == [] || file !in files || chain[0] >= |files[file].children| then stack
    else StackOn(files, stack + [file], files[file].children[chain[0]].file, chain[1..])
  }

  /** An item, by the chain to its file and its place there. */
  datatype Origin = Origin(chain: Chain, item: nat)

  predicate IsOrigin(files: Files, file: File, a: Origin) {
    var f := FileOn(files, file, a.chain);
    f.Some? && f.value in files && a.item < |files[f.value].items|
  }

  /** What the item is met as: at the mounts of its chain, and its name. */
  function EntryOf(files: Files, file: File, mount: Path, a: Origin): Option<Met>
    requires IsOrigin(files, file, a)
  {
    match files[FileOn(files, file, a.chain).value].items[a.item]
    case TaskItem(name) =>
      var path := MountOn(files, file, mount, a.chain) + name;
      if path == [] then None else Some(MetTask(path))
    case FolderItem(name) => if name == [] then None else Some(MetFolder(MountOn(files, file, mount, a.chain) + name))
    case Refused => None
  }

  /** A file's own come before those of the files it loads, and these in the order it loads them. */
  predicate ChainBefore(a: Chain, b: Chain) {
    if b == [] then false
    else if a == [] then true
    else if a[0] == b[0] then ChainBefore(a[1..], b[1..])
    else a[0] < b[0]
  }

  predicate Precedes(a: Origin, b: Origin) {
    if a.chain == b.chain then a.item < b.item else ChainBefore(a.chain, b.chain)
  }

  // ----- What is met -----

  /** Each entry met is an item's, and they come in the order of the chains. */
  ghost predicate Matches(files: Files, file: File, mount: Path, met: seq<Met>, origins: seq<Origin>) {
    && |origins| == |met|
    && (forall i | 0 <= i < |met| :: IsOrigin(files, file, origins[i]) && EntryOf(files, file, mount, origins[i]) == Some(met[i]))
    && (forall i, j | 0 <= i < j < |origins| :: Precedes(origins[i], origins[j]))
  }

  /** Every item is met, of the file itself, or through one of its first `n` children. */
  ghost predicate HasAll(files: Files, file: File, origins: seq<Origin>) {
    forall a | IsOrigin(files, file, a) :: a in origins
  }

  ghost predicate HasBelow(files: Files, file: File, n: nat, origins: seq<Origin>) {
    && (forall a | IsOrigin(files, file, a) && a.chain != [] && a.chain[0] < n :: a in origins)
    && (forall i | 0 <= i < |origins| :: origins[i].chain != [] && origins[i].chain[0] < n)
  }

  function OwnOrigins(n: nat): seq<Origin> {
    seq(n, k requires 0 <= k < n => Origin([], k))
  }

  function Through(c: nat, origins: seq<Origin>): seq<Origin> {
    seq(|origins|, i requires 0 <= i < |origins| => Origin([c] + origins[i].chain, origins[i].item))
  }

  lemma {:induction false} OwnMet(items: seq<Item>, mount: Path)
    ensures ItemsMet(items, mount).Some? <==> forall k | 0 <= k < |items| :: MetOf(items[k], mount).Some?
    ensures ItemsMet(items, mount).Some? ==>
              && |ItemsMet(items, mount).value| == |items|
              && forall k | 0 <= k < |items| :: MetOf(items[k], mount) == Some(ItemsMet(items, mount).value[k])
  {
    if items != [] {
      OwnMet(items[..|items| - 1], mount);
    }
  }

  lemma OwnMatches(files: Files, file: File, mount: Path)
    requires file in files && ItemsMet(files[file].items, mount).Some?
    ensures Matches(files, file, mount, ItemsMet(files[file].items, mount).value, OwnOrigins(|files[file].items|))
  {
    OwnMet(files[file].items, mount);
  }

  /** Going through a child: the same items, one link further. */
  lemma ThroughChild(files: Files, file: File, mount: Path, c: nat, a: Origin)
    requires file in files && c < |files[file].children| && files[file].children[c].file != file
    ensures var child := files[file].children[c];
            var b := Origin([c] + a.chain, a.item);
            && (IsOrigin(files, file, b) <==> IsOrigin(files, child.file, a))
            && (IsOrigin(files, file, b) ==> EntryOf(files, file, mount, b) == EntryOf(files, child.file, mount + child.mount, a))
  {
    assert ([c] + a.chain)[1..] == a.chain;
  }

  lemma ThroughPrecedes(c: nat, a: Origin, b: Origin)
    ensures Precedes(Origin([c] + a.chain, a.item), Origin([c] + b.chain, b.item)) <==> Precedes(a, b)
  {
    assert ([c] + a.chain)[1..] == a.chain && ([c] + b.chain)[1..] == b.chain;
  }

  lemma ThroughMatches(files: Files, file: File, mount: Path, c: nat, met: seq<Met>, origins: seq<Origin>)
    requires file in files && c < |files[file].children| && files[file].children[c].file != file
    requires var child := files[file].children[c]; Matches(files, child.file, mount + child.mount, met, origins)
    ensures Matches(files, file, mount, met, Through(c, origins))
  {
    var through := Through(c, origins);
    forall i | 0 <= i < |met|
      ensures IsOrigin(files, file, through[i]) && EntryOf(files, file, mount, through[i]) == Some(met[i])
    {
      ThroughChild(files, file, mount, c, origins[i]);
    }
    forall i, j | 0 <= i < j < |through| ensures Precedes(through[i], through[j]) {
      ThroughPrecedes(c, origins[i], origins[j]);
    }
  }

  /** Of two lists one after the other, each of the first before each of the second. */
  lemma MatchesSum(files: Files, file: File, mount: Path, met: seq<Met>, more: seq<Met>, a: seq<Origin>, b: seq<Origin>)
    requires Matches(files, file, mount, met, a) && Matches(files, file, mount, more, b)
    requires forall x, y | x in a && y in b :: Precedes(x, y)
    ensures Matches(files, file, mount, met + more, a + b)
  {
    forall i, j | 0 <= i < j < |a + b| ensures Precedes((a + b)[i], (a + b)[j]) {
      if i < |a| <= j {
        assert a[i] in a && b[j - |a|] in b;
      }
    }
  }

  /** What is met of a file and of those it loads, item by item. */
  lemma {:induction false} FileOrigins(files: Files, root: File, stack: seq<File>, file: File, mount: Path, isRoot: bool)
    returns (origins: seq<Origin>)
    requires FileMet(files, root, stack, file, mount, isRoot).Some?
    ensures Matches(files, file, mount, FileMet(files, root, stack, file, mount, isRoot).value, origins)
    ensures HasAll(files, file, origins)
    decreases FilesLeft(files, stack), 1, 0
  {
    OneFewer(files, stack, file);
    var (items, children) := (files[file].items, files[file].children);
    assert children[..|children|] == children;
    var below := ChildrenOrigins(files, root, stack + [file], file, mount, |children|);
    OwnMatches(files, file, mount);
    var own := OwnOrigins(|items|);
    origins := own + below;
    forall x, y | x in own && y in below ensures Precedes(x, y) {
    }
    MatchesSum(files, file, mount, ItemsMet(items, mount).value,
               ChildrenMet(files, root, stack + [file], file, mount, children).value, own, below);
    forall a | IsOrigin(files, file, a) ensures a in origins {
      if a.chain == [] {
        assert own[a.item] == a;
      } else {
        assert a in below;
      }
    }
  }

  lemma {:induction false} ChildrenOrigins(files: Files, root: File, stack: seq<File>, file: File, mount: Path, n: nat)
    returns (origins: seq<Origin>)
    requires file in files && n <= |files[file].children|
    requires ChildrenMet(files, root, stack, file, mount, files[file].children[..n]).Some?
    ensures Matches(files, file, mount, ChildrenMet(files, root, stack, file, mount, files[file].children[..n]).value, origins)
    ensures HasBelow(files, file, n, origins)
    decreases FilesLeft(files, stack), 2, n
  {
    origins := [];
    if n > 0 {
      var (children, child) := (files[file].children, files[file].children[n - 1]);
      assert children[..n][..n - 1] == children[..n - 1];
      var before := ChildrenOrigins(files, root, stack, file, mount, n - 1);
      origins := before;
      if child.file != file {
        var its := FileOrigins(files, root, stack, child.file, mount + child.mount, false);
        var through := Through(n - 1, its);
        origins := before + through;
        ThroughMatches(files, file, mount, n - 1, FileMet(files, root, stack, child.file, mount + child.mount, false).value, its);
        LaterChild(before, through, n - 1);
        MatchesSum(files, file, mount, ChildrenMet(files, root, stack, file, mount, children[..n - 1]).value,
                   FileMet(files, root, stack, child.file, mount + child.mount, false).value, before, through);
        BelowMore(files, file, n - 1, before, its);
      }
    }
  }

  lemma LaterChild(before: seq<Origin>, through: seq<Origin>, n: nat)
    requires forall i | 0 <= i < |before| :: before[i].chain != [] && before[i].chain[0] < n
    requires forall i | 0 <= i < |through| :: through[i].chain != [] && through[i].chain[0] == n
    ensures forall x, y | x in before && y in through :: Precedes(x, y)
  {
  }

  lemma BelowMore(files: Files, file: File, n: nat, before: seq<Origin>, its: seq<Origin>)
    requires file in files && n < |files[file].children| && files[file].children[n].file != file
    requires HasBelow(files, file, n, before) && HasAll(files, files[file].children[n].file, its)
    ensures HasBelow(files, file, n + 1, before + Through(n, its))
  {
    var through := Through(n, its);
    forall a | IsOrigin(files, file, a) && a.chain != [] && a.chain[0] < n + 1 ensures a in before + through {
      if a.chain[0] < n {
        assert a in before;
      } else {
        var b := Origin(a.chain[1..], a.item);
        assert a.chain == [n] + b.chain;
        ThroughChild(files, file, [], n, b);
        var i :| 0 <= i < |its| && its[i] == b;
        assert through[i] == a;
      }
    }
  }

  /**
   What a config holds, when it is accepted: an item for each entry, at the mounts on
   the way to its file, in the order of the chains; and every item there is, once.
   */
  lemma MetByChains(files: Files, root: File, stack: seq<File>, file: File, mount: Path, isRoot: bool)
    requires FileMet(files, root, stack, file, mount, isRoot).Some?
    ensures exists origins ::
              Matches(files, file, mount, FileMet(files, root, stack, file, mount, isRoot).value, origins) && HasAll(files, file, origins)
  {
    var origins := FileOrigins(files, root, stack, file, mount, isRoot);
  }

  // ----- What is refused -----

  /** A file can be loaded on a chain, and each of its items taken. */
  ghost predicate FineOn(files: Files, root: File, stack: seq<File>, file: File, mount: Path, isRoot: bool, chain: Chain) {
    var f := FileOn(files, file, chain);
    f.Some? ==>
      && f.value in files && root <= f.value && f.value !in StackOn(files, stack, file, chain)
      && ((chain == [] && isRoot) || (f.value != [] && f.value[|f.value| - 1] != PROJECT_FILE))
      && forall k | 0 <= k < |files[f.value].items| :: EntryOf(files, file, mount, Origin(chain, k)).Some?
  }

  ghost predicate AllFine(files: Files, root: File, stack: seq<File>, file: File, mount: Path, isRoot: bool) {
    forall chain :: FineOn(files, root, stack, file, mount, isRoot, chain)
  }

  lemma FineThrough(files: Files, root: File, stack: seq<File>, file: File, mount: Path, isRoot: bool, c: nat, chain: Chain)
    requires file in files && c < |files[file].children| && files[file].children[c].file != file
    ensures var child := files[file].children[c];
            FineOn(files, root, stack, file, mount, isRoot, [c] + chain) <==>
            FineOn(files, root, stack + [file], child.file, mount + child.mount, false, chain)
  {
    assert ([c] + chain)[1..] == chain;
    var f := FileOn(files, file, [c] + chain);
    if f.Some? && f.value in files {
      forall k | 0 <= k < |files[f.value].items|
        ensures EntryOf(files, file, mount, Origin([c] + chain, k)) ==
                EntryOf(files, files[file].children[c].file, mount + files[file].children[c].mount, Origin(chain, k))
      {
        ThroughChild(files, file, mount, c, Origin(chain, k));
      }
    }
  }

  lemma {:induction false} ChildrenFine(files: Files, root: File, stack: seq<File>, file: File, mount: Path, children: seq<Child>)
    ensures ChildrenMet(files, root, stack, file, mount, children).Some? <==>
            forall c | 0 <= c < |children| && children[c].file != file ::
              FileMet(files, root, stack, children[c].file, mount + children[c].mount, false).Some?
  {
    if children != [] {
      ChildrenFine(files, root, stack, file, mount, children[..|children| - 1]);
    }
  }

  lemma FineAtTop(files: Files, root: File, stack: seq<File>, file: File, mount: Path, isRoot: bool)
    ensures FineOn(files, root, stack, file, mount, isRoot, []) <==>
            Loads(files, root, stack, file, isRoot) && ItemsMet(files[file].items, mount).Some?
  {
    if file in files {
      OwnMet(files[file].items, mount);
      forall k | 0 <= k < |files[file].items| ensures EntryOf(files, file, mount, Origin([], k)) == MetOf(files[file].items[k], mount) {
      }
    }
  }

  /**
   A config is accepted exactly when every file that a chain of loads comes to is
   there, in the project, no project's own but the first, and not being loaded
   already, and each of its items can be taken where the chain mounts it.
   */
  lemma {:induction false} AcceptedIff(files: Files, root: File, stack: seq<File>, file: File, mount: Path, isRoot: bool)
    ensures FileMet(files, root, stack, file, mount, isRoot).Some? <==> AllFine(files, root, stack, file, mount, isRoot)
    decreases FilesLeft(files, stack)
  {
    FineAtTop(files, root, stack, file, mount, isRoot);
    if FineOn(files, root, stack, file, mount, isRoot, []) {
      OneFewer(files, stack, file);
      var children := files[file].children;
      ChildrenFine(files, root, stack + [file], file, mount, children);
      forall c | 0 <= c < |children| && children[c].file != file
        ensures FileMet(files, root, stack + [file], children[c].file, mount + children[c].mount, false).Some? <==>
                AllFine(files, root, stack + [file], children[c].file, mount + children[c].mount, false)
      {
        AcceptedIff(files, root, stack + [file], children[c].file, mount + children[c].mount, false);
      }
      FineBelow(files, root, stack, file, mount, isRoot);
    }
  }

  lemma FineBelow(files: Files, root: File, stack: seq<File>, file: File, mount: Path, isRoot: bool)
    requires file in files && FineOn(files, root, stack, file, mount, isRoot, [])
    ensures AllFine(files, root, stack, file, mount, isRoot) <==>
            forall c | 0 <= c < |files[file].children| && files[file].children[c].file != file ::
              AllFine(files, root, stack + [file], files[file].children[c].file, mount + files[file].children[c].mount, false)
  {
    var children := files[file].children;
    if AllFine(files, root, stack, file, mount, isRoot) {
      forall c, chain | 0 <= c < |children| && children[c].file != file
        ensures FineOn(files, root, stack + [file], children[c].file, mount + children[c].mount, false, chain)
      {
        FineThrough(files, root, stack, file, mount, isRoot, c, chain);
      }
    }
    if forall c | 0 <= c < |children| && children[c].file != file ::
         AllFine(files, root, stack + [file], children[c].file, mount + children[c].mount, false)
    {
      forall chain: Chain ensures FineOn(files, root, stack, file, mount, isRoot, chain) {
        if chain != [] && chain[0] < |children| && children[chain[0]].file != file {
          var (c, rest) := (chain[0], chain[1..]);
          assert chain == [c] + rest;
          FineThrough(files, root, stack, file, mount, isRoot, c, rest);
        }
      }
    }
  }

  // ----- Where a file is mounted -----

  function Mounted(mount: Path, met: seq<Met>): seq<Met> {
    seq(|met|, i requires 0 <= i < |met| =>
      match met[i] case MetTask(p) => MetTask(mount + p) case MetFolder(p) => MetFolder(mount + p))
  }

  lemma {:induction false} MountOnSum(files: Files, file: File, m: Path, k: Path, chain: Chain)
    ensures MountOn(files, file, m + k, chain) == m + MountOn(files, file, k, chain)
    decreases |chain|
  {
    if chain != [] && file in files && chain[0] < |files[file].children| {
      var child := files[file].children[chain[0]];
      assert (m + k) + child.mount == m + (k + child.mount);
      MountOnSum(files, child.file, m, k + child.mount, chain[1..]);
    }
  }

  lemma {:induction false} ItemsMounted(items: seq<Item>, m: Path, k: Path)
    requires ItemsMet(items, k).Some?
    ensures ItemsMet(items, m + k) == Some(Mounted(m, ItemsMet(items, k).value))
  {
    if items != [] {
      var last := items[|items| - 1];
      ItemsMounted(items[..|items| - 1], m, k);
      assert last.TaskItem? ==> (m + k) + last.name == m + (k + last.name);
      assert last.FolderItem? ==> (m + k) + last.name == m + (k + last.name);
      MountedSum(m, ItemsMet(items[..|items| - 1], k).value, [MetOf(last, k).value]);
      assert Mounted(m, [MetOf(last, k).value]) == [MetOf(last, m + k).value];
    } else {
      assert Mounted(m, []) == [];
    }
  }

  lemma MountedSum(m: Path, a: seq<Met>, b: seq<Met>)
    ensures Mounted(m, a + b) == Mounted(m, a) + Mounted(m, b)
  {
  }

  /** Mounted further in, a file's entries are those it has, with the mount in front of each. */
  lemma {:induction false} FileMounted(files: Files, root: File, stack: seq<File>, file: File, m: Path, k: Path, isRoot: bool)
    requires FileMet(files, root, stack, file, k, isRoot).Some?
    ensures FileMet(files, root, stack, file, m + k, isRoot) == Some(Mounted(m, FileMet(files, root, stack, file, k, isRoot).value))
    decreases FilesLeft(files, stack), 1, 0
  {
    OneFewer(files, stack, file);
    ItemsMounted(files[file].items, m, k);
    ChildrenMounted(files, root, stack + [file], file, m, k, files[file].children);
    MountedSum(m, ItemsMet(files[file].items, k).value, ChildrenMet(files, root, stack + [file], file, k, files[file].children).value);
  }

  lemma {:induction false} ChildrenMounted(files: Files, root: File, stack: seq<File>, file: File, m: Path, k: Path, children: seq<Child>)
    requires ChildrenMet(files, root, stack, file, k, children).Some?
    ensures ChildrenMet(files, root, stack, file, m + k, children) ==
            Some(Mounted(m, ChildrenMet(files, root, stack, file, k, children).value))
    decreases FilesLeft(files, stack), 2, |children|
  {
    if children != [] {
      var (init, last) := (children[..|children| - 1], children[|children| - 1]);
      ChildrenMounted(files, root, stack, file, m, k, init);
      if last.file != file {
        assert (m + k) + last.mount == m + (k + last.mount);
        FileMounted(files, root, stack, last.file, m, k + last.mount, false);
        MountedSum(m, ChildrenMet(files, root, stack, file, k, init).value,
                   FileMet(files, root, stack, last.file, k + last.mount, false).value);
      }
    } else {
      assert Mounted(m, []) == [];
    }
  }

  /** An item named with nothing, with no mount in front of it. */
  ghost predicate IsUnnamed(files: Files, file: File, k: Path, a: Origin) {
    && IsOrigin(files, file, a)
    && var item := files[FileOn(files, file, a.chain).value].items[a.item];
       item.TaskItem? && MountOn(files, file, k, a.chain) + item.name == []
  }

  /** What is accepted further in and not where it is has a task with an empty path. */
  lemma OnlyEmptyPathsDiffer(files: Files, root: File, stack: seq<File>, file: File, m: Path, k: Path, isRoot: bool)
    requires FileMet(files, root, stack, file, m + k, isRoot).Some? && FileMet(files, root, stack, file, k, isRoot).None?
    ensures exists a :: IsUnnamed(files, file, k, a)
  {
    AcceptedIff(files, root, stack, file, m + k, isRoot);
    AcceptedIff(files, root, stack, file, k, isRoot);
    var chain :| !FineOn(files, root, stack, file, k, isRoot, chain);
    assert FineOn(files, root, stack, file, m + k, isRoot, chain);
    var f := FileOn(files, file, chain).value;
    var i :| 0 <= i < |files[f].items| && EntryOf(files, file, k, Origin(chain, i)).None?;
    assert EntryOf(files, file, m + k, Origin(chain, i)).Some?;
    assert IsUnnamed(files, file, k, Origin(chain, i));
  }
}
