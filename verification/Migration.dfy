/** Executing a migration plan on a tree of files: copies are verified before the
    source of a move is removed. Every call to the file system may fail, and what
    a copy leaves under its target is arbitrary until it has been verified. */
module Migration {
  import opened Prelude

  type Path = seq<string>
  type Bytes = seq<int>

  datatype Node = File(content: Bytes) | Directory | Symlink | Special
  type Tree = map<Path, Node>

  datatype Kind =
    | CopyFile | RenameFile | CopyDirectory | MoveDirectory
    | ImportRegistry | ExportRegistry | WriteRegistryValue | DeleteRegistryKey

  datatype Action = Action(kind: Kind, source: Path, target: Path, dangerous: bool, requiresElevation: bool)

  datatype Options = Options(
    dryRun: bool, allowDangerous: bool, allowElevation: bool, createParents: bool, overwrite: bool)

  datatype State = Blocked | Skipped | Unsupported | Executed | PartiallyExecuted | RollbackMissing | RollbackFailed

  datatype ActionResult = ActionResult(action: Action, state: State)

  datatype Report = Report(ok: bool, results: seq<ActionResult>)

  predicate IsFileAction(k: Kind) {
    k.CopyFile? || k.RenameFile? || IsDirectoryAction(k)
  }

  predicate IsDirectoryAction(k: Kind) {
    k.CopyDirectory? || k.MoveDirectory?
  }

  predicate IsMoveAction(k: Kind) {
    k.RenameFile? || k.MoveDirectory?
  }

  predicate RequiresDangerous(k: Kind) {
    IsMoveAction(k) || k.DeleteRegistryKey?
  }

  predicate IsGood(s: State) {
    s.Executed? || s.Skipped?
  }

  // ----- trees

  predicate Under(p: Path, root: Path) {
    root <= p
  }

  predicate Disjoint(a: Path, b: Path) {
    !(a <= b) && !(b <= a)
  }

  function Rebase(p: Path, source: Path, target: Path): Path
    requires Under(p, source)
  {
    target + p[|source|..]
  }

  predicate SameNode(a: Node, b: Node) {
    match a
    case Directory => b.Directory?
    case File(_) => a == b
    case _ => false
  }

  predicate EntryMatches(tree: Tree, source: Path, target: Path, p: Path) {
    Under(p, source) && p in tree && Rebase(p, source, target) in tree && SameNode(tree[p], tree[Rebase(p, source, target)])
  }

  predicate IsDirectory(tree: Tree, p: Path) {
    p in tree && tree[p].Directory?
  }

  predicate IsEntry(tree: Tree, root: Path, p: Path) {
    p in tree && Under(p, root) && p != root
  }

  /** The entries below a root, each once, none before a directory that holds it. */
  ghost predicate IsListing(tree: Tree, root: Path, order: seq<Path>) {
    && (forall i | 0 <= i < |order| :: IsEntry(tree, root, order[i]))
    && (forall i, j | 0 <= i < j < |order| :: !Under(order[i], order[j]))
    && (forall p | IsEntry(tree, root, p) :: p in order)
  }

  /** How a scan goes: the entries in the order the iterator has them, and how many
      it yields before it ends. An error in going on ends it early, but the first
      entry comes before the first step. */
  datatype Scan = Scan(order: seq<Path>, yielded: nat)

  ghost predicate IsScan(tree: Tree, root: Path, scan: Scan) {
    && IsListing(tree, root, scan.order)
    && scan.yielded <= |scan.order| && (scan.order != [] ==> scan.yielded >= 1)
  }

  /** What verification compares: the two roots and the entries the scan yields. */
  predicate Verified(tree: Tree, source: Path, target: Path, scan: Scan) {
    && IsDirectory(tree, source) && IsDirectory(tree, target)
    && forall i | 0 <= i < scan.yielded && i < |scan.order| :: EntryMatches(tree, source, target, scan.order[i])
  }

  predicate RestMatches(tree: Tree, source: Path, target: Path, scan: Scan) {
    forall i | scan.yielded <= i < |scan.order| :: EntryMatches(tree, source, target, scan.order[i])
  }

  /** Every entry below the source in `was` is below the target in `now`, with the
      same kind and the same bytes. */
  predicate Mirrors(was: Tree, source: Path, now: Tree, target: Path) {
    forall p | p in was && Under(p, source) ::
      Rebase(p, source, target) in now && SameNode(was[p], now[Rebase(p, source, target)])
  }

  ghost predicate SameUnder(was: Tree, now: Tree, root: Path) {
    forall p | Under(p, root) && (p in was || p in now) :: p in was && p in now && was[p] == now[p]
  }

  /** A verification that succeeded, and the tree as it was then. */
  datatype Check = Check(tree: Tree, source: Path, target: Path, scan: Scan)

  /** What the scan yielded was verified; so removing the source loses nothing exactly
      if the entries the scan did not yield match too. */
  ghost predicate Justified(r: Check) {
    && IsScan(r.tree, r.source, r.scan) && Verified(r.tree, r.source, r.target, r.scan)
    && (Mirrors(r.tree, r.source, r.tree, r.target) <==> RestMatches(r.tree, r.source, r.target, r.scan))
  }

  /** After a verified scan the target mirrors the source exactly if the entries
      that were not yielded match too. */
  lemma VerifiedMirrors(tree: Tree, source: Path, target: Path, scan: Scan)
    requires IsScan(tree, source, scan) && Verified(tree, source, target, scan)
    ensures Mirrors(tree, source, tree, target) <==> RestMatches(tree, source, target, scan)
  {
    if RestMatches(tree, source, target, scan) {
      forall p | p in tree && Under(p, source)
        ensures Rebase(p, source, target) in tree && SameNode(tree[p], tree[Rebase(p, source, target)])
      {
        if p == source {
          assert Rebase(p, source, target) == target;
        } else {
          assert IsEntry(tree, source, p);
          var i :| 0 <= i < |scan.order| && scan.order[i] == p;
          assert EntryMatches(tree, source, target, scan.order[i]);
        }
      }
    }
    if Mirrors(tree, source, tree, target) {
      forall i | scan.yielded <= i < |scan.order| ensures EntryMatches(tree, source, target, scan.order[i]) {
        var p := scan.order[i];
        assert p in tree && Under(p, source);
      }
    }
  }

  // ----- when verification can mislead

  /** An entry that no other entry holds, so that a scan can begin with it. */
  ghost predicate IsTop(tree: Tree, root: Path, p: Path) {
    IsEntry(tree, root, p) && forall q | IsEntry(tree, root, q) && q != p :: !Under(p, q)
  }

  ghost predicate CanMislead(tree: Tree, source: Path, target: Path) {
    exists scan :: IsScan(tree, source, scan) && Verified(tree, source, target, scan) && !Mirrors(tree, source, tree, target)
  }

  /** Some path of a set has no other path of the set above it. */
  lemma {:induction false} SomeTop(paths: set<Path>) returns (p: Path)
    requires paths != {}
    ensures p in paths && forall q | q in paths && q != p :: !Under(p, q)
  {
    var one :| one in paths;
    var others := paths - {one};
    p := one;
    assert forall q | q in paths && q != one :: q in others;
    if others != {} {
      var top := SomeTop(others);
      if Under(top, one) {
        forall q | q in others ensures !Under(one, q) {
          if Under(one, q) { PrefixOfPrefix(q, one, top); }
        }
      } else {
        p := top;
      }
    }
  }

  lemma PrefixOfPrefix(a: Path, p: Path, b: Path)
    requires a <= p <= b
    ensures a <= b && (a == b ==> p == b)
  {
    assert b[..|a|] == p[..|a|] == a;
  }

  /** The entries of a set, none before one that is above it. */
  lemma {:induction false} InSomeOrder(paths: set<Path>) returns (order: seq<Path>)
    ensures forall p :: p in order <==> p in paths
    ensures forall i, j | 0 <= i < j < |order| :: !Under(order[i], order[j])
  {
    if paths == {} {
      order := [];
    } else {
      var p := SomeTop(paths);
      var others := InSomeOrder(paths - {p});
      order := [p] + others;
      forall i, j | 0 <= i < j < |order| ensures !Under(order[i], order[j]) {
        assert order[j] == others[j - 1] && others[j - 1] in others;
      }
    }
  }

  /** A scan that begins with a top entry and breaks off right after it. */
  lemma ShortestScan(tree: Tree, root: Path, p: Path) returns (scan: Scan)
    requires IsTop(tree, root, p)
    ensures IsScan(tree, root, scan) && scan.yielded == 1 && scan.order[0] == p
  {
    hide Under;
    var rest := set q | q in tree && IsEntry(tree, root, q) && q != p;
    var others := InSomeOrder(rest);
    var order := [p] + others;
    scan := Scan(order, 1);
    forall i | 0 <= i < |order| ensures IsEntry(tree, root, order[i]) {
      if i > 0 { assert others[i - 1] in others; }
    }
    forall i, j | 0 <= i < j < |order| ensures !Under(order[i], order[j]) {
      assert order[j] == others[j - 1] && others[j - 1] in others;
      if i > 0 { assert order[i] == others[i - 1]; }
    }
    forall q | IsEntry(tree, root, q) ensures q in order {
      assert q == p || q in others;
    }
  }

  /** Exactly when some scan verifies a copy that is not one: both roots are
      directories, an entry with which a scan can begin has its copy, and some entry
      has not. */
  lemma MisleadsExactly(tree: Tree, source: Path, target: Path)
    ensures CanMislead(tree, source, target) <==>
            && IsDirectory(tree, source) && IsDirectory(tree, target)
            && (exists p :: IsTop(tree, source, p) && EntryMatches(tree, source, target, p))
            && (exists q :: IsEntry(tree, source, q) && !EntryMatches(tree, source, target, q))
  {
    hide Under, EntryMatches, Mirrors;
    if CanMislead(tree, source, target) {
      var scan :| IsScan(tree, source, scan) && Verified(tree, source, target, scan) && !Mirrors(tree, source, tree, target);
      VerifiedMirrors(tree, source, target, scan);
      var i :| scan.yielded <= i < |scan.order| && !EntryMatches(tree, source, target, scan.order[i]);
      assert IsEntry(tree, source, scan.order[i]);
      FirstIsTop(tree, source, scan.order);
      assert EntryMatches(tree, source, target, scan.order[0]);
    }
    if && IsDirectory(tree, source) && IsDirectory(tree, target)
       && (exists p :: IsTop(tree, source, p) && EntryMatches(tree, source, target, p))
       && (exists q :: IsEntry(tree, source, q) && !EntryMatches(tree, source, target, q))
    {
      var p :| IsTop(tree, source, p) && EntryMatches(tree, source, target, p);
      var q :| IsEntry(tree, source, q) && !EntryMatches(tree, source, target, q);
      var scan := ShortestScan(tree, source, p);
      VerifiedMirrors(tree, source, target, scan);
      var i :| 0 <= i < |scan.order| && scan.order[i] == q;
      assert i >= scan.yielded && !EntryMatches(tree, source, target, scan.order[i]);
    }
  }

  lemma FirstIsTop(tree: Tree, root: Path, order: seq<Path>)
    requires IsListing(tree, root, order) && order != []
    ensures IsTop(tree, root, order[0])
  {
    hide Under;
    forall q | IsEntry(tree, root, q) && q != order[0] ensures !Under(order[0], q) {
      var j :| 0 <= j < |order| && order[j] == q;
      assert j > 0;
    }
  }

  // ----- what removing loses

  function WithoutTree(tree: Tree, root: Path): Tree {
    map p | p in tree && !Under(p, root) :: tree[p]
  }

  /** Such a scan exists: of two files the first has its copy and the second has not,
      and the scan breaks off between them. It verifies, and removing the source then
      loses the second file. */
  lemma BrokenScanLosesFile(first: Bytes, second: Bytes)
    ensures var tree: Tree := map[["a"] := Directory, ["a", "f"] := File(first), ["a", "g"] := File(second),
                                  ["b"] := Directory, ["b", "f"] := File(first)];
            var scan := Scan([["a", "f"], ["a", "g"]], 1);
            && IsScan(tree, ["a"], scan) && Verified(tree, ["a"], ["b"], scan)
            && !Mirrors(tree, ["a"], tree, ["b"])
            && forall p | p in WithoutTree(tree, ["a"]) :: WithoutTree(tree, ["a"])[p].File? ==> p == ["b", "f"]
  {
    var tree: Tree := map[["a"] := Directory, ["a", "f"] := File(first), ["a", "g"] := File(second),
                          ["b"] := Directory, ["b", "f"] := File(first)];
    var f, g := ["a", "f"], ["a", "g"];
    var scan := Scan([f, g], 1);
    assert f[1] == "f" && g[1] == "g" && "f"[0] == 'f' && "g"[0] == 'g';
    assert ["a"][0] == "a" && ["b"][0] == "b" && "a"[0] == 'a' && "b"[0] == 'b';
    assert scan.order[0] == f && scan.order[1] == g;
    assert Rebase(f, ["a"], ["b"]) == ["b", "f"] && Rebase(g, ["a"], ["b"]) == ["b", "g"];
    assert EntryMatches(tree, ["a"], ["b"], f);
    assert ["b", "g"][1] == "g" && ["b", "f"][1] == "f" && ["b", "g"] !in tree;
    assert g in tree && Under(g, ["a"]);
    forall p | IsEntry(tree, ["a"], p) ensures p in scan.order {}
  }

  /** What a removal of a root leaves that may have stopped half way. */
  predicate IsLeft(was: Tree, now: Tree, root: Path) {
    && now.Keys <= was.Keys && (forall p | p in now :: now[p] == was[p])
    && (forall p | p in was && !Under(p, root) :: p in now)
  }

  /** After a move whose removal failed, the copy is rolled back although the source
      may already be partly removed: here the file, but not its directory. */
  lemma RollbackLosesFile(content: Bytes)
    ensures var tree: Tree := map[["a"] := Directory, ["a", "f"] := File(content), ["b"] := Directory, ["b", "f"] := File(content)];
            var left: Tree := map[["a"] := Directory, ["b"] := Directory, ["b", "f"] := File(content)];
            && Mirrors(tree, ["a"], tree, ["b"]) && IsLeft(tree, left, ["a"])
            && forall p | p in WithoutTree(left, ["b"]) :: !WithoutTree(left, ["b"])[p].File?
  {
    var tree: Tree := map[["a"] := Directory, ["a", "f"] := File(content), ["b"] := Directory, ["b", "f"] := File(content)];
    assert ["a"][0] == "a" && ["b"][0] == "b" && "a"[0] == 'a' && "b"[0] == 'b';
    assert Rebase(["a"], ["a"], ["b"]) == ["b"] && Rebase(["a", "f"], ["a"], ["b"]) == ["b", "f"];
    assert ["a", "f"][..1] == ["a"] && ["b", "f"][..1] == ["b"];
  }

  // ----- comparing two files

  const ChunkSize := 8192

  function ChunkEnd(s: Bytes, offset: nat): nat
    requires offset <= |s|
  {
    if offset + ChunkSize <= |s| then offset + ChunkSize else |s|
  }

  /** Reads both files in chunks. Some call fails unless they are readable, at the
      latest the last read. */
  method RegularFilesHaveSameContent(a: Bytes, b: Bytes, readable: bool) returns (same: bool)
    ensures same <==> readable && a == b
  {
    var sized: bool := *;
    if !readable && !sized {
      return false;
    }
    if |a| != |b| {
      return false;
    }
    var isOpen: bool := *;
    if !readable && !isOpen {
      return false;
    }
    var offset: nat := 0;
    var ended := false;
    while !ended
      invariant offset <= |a| && a[..offset] == b[..offset]
      invariant ended ==> offset == |a| && readable
      decreases |a| - offset, !ended
    {
      var next := ChunkEnd(a, offset);
      ended := next - offset < ChunkSize;
      var broken: bool := *;
      if !readable && (broken || ended) {
        return false;
      }
      if a[offset..next] != b[offset..next] {
        assert a != b;
        return false;
      }
      assert a[..next] == a[..offset] + a[offset..next] && b[..next] == b[..offset] + b[offset..next];
      offset := next;
    }
    assert a == a[..offset] && b == b[..offset];
    return true;
  }

  // ----- what the calls to the file system answer

  /** The answers to the calls of one action: whether the look for unsupported entries
      goes to its end, the directories above the target are made, the copy is right, the
      entries can be looked at, the comparing scan goes to its end, the source and the
      copy are removed, and the file is renamed. A copy that is not right leaves
      anything under its target, and says what it likes. */
  datatype Calls = Calls(
    scanned: bool, parentsMade: bool, copied: bool, copyReported: bool, looked: bool, listed: bool,
    removed: bool, rolledBack: bool, renamed: bool)

  predicate AllGood(c: Calls) {
    c.scanned && c.parentsMade && c.copied && c.looked && c.listed && c.removed && c.renamed
  }

  /** The tree after a right copy: every entry below the source is below the target. */
  function CopyOf(tree: Tree, source: Path, target: Path): Tree {
    tree + map p | p in Rebased(tree, source, target) :: tree[source + p[|target|..]]
  }

  function Rebased(tree: Tree, source: Path, target: Path): (ps: set<Path>)
    ensures forall p | p in ps :: |target| <= |p| && source + p[|target|..] in tree && Under(p, target)
    ensures forall p | p in tree && Under(p, source) :: Rebase(p, source, target) in ps
  {
    var ps := set p | p in tree && Under(p, source) :: Rebase(p, source, target);
    assert forall p | p in tree && Under(p, source) :: Rebase(p, source, target)[|target|..] == p[|source|..] && source + p[|source|..] == p;
    ps
  }

  // ----- what stops an action

  predicate GateError(a: Action, o: Options) {
    (a.dangerous && !o.allowDangerous) || (a.requiresElevation && !o.allowElevation)
  }

  predicate Supported(n: Node) {
    n.File? || n.Directory?
  }

  predicate HasUnsupported(tree: Tree, source: Path) {
    exists p :: p in tree && Under(p, source) && !Supported(tree[p])
  }

  /** What the source and the target show without a scan. */
  predicate PathError(a: Action, o: Options, tree: Tree) {
    IsFileAction(a.kind) &&
    (a.source == [] || a.target == [] || a.source !in tree
     || !Supported(tree[a.source]) || IsDirectoryAction(a.kind) != tree[a.source].Directory?
     || (a.target in tree && !o.overwrite))
  }

  predicate FileError(a: Action, o: Options, tree: Tree) {
    PathError(a, o, tree) || (IsDirectoryAction(a.kind) && HasUnsupported(tree, a.source))
  }

  // ----- what an action may change and what it achieves, between two trees

  predicate SameAt(was: Tree, now: Tree, p: Path) {
    (p in now <==> p in was) && (p in now ==> now[p] == was[p])
  }

  /** What an action may write: a file at the target, or anything under it. */
  predicate Writes(a: Action, p: Path) {
    if IsDirectoryAction(a.kind) then Under(p, a.target) else p == a.target
  }

  /** What an action removes if it removes its source. */
  predicate Removes(a: Action, p: Path) {
    if IsDirectoryAction(a.kind) then Under(p, a.source) else p == a.source
  }

  /** Every entry that is not written is unchanged, and still there but for a removed
      source; and but for directories above the target nothing else is new. */
  ghost predicate Kept(a: Action, was: Tree, now: Tree, removed: bool) {
    && (forall p | p in was && !Writes(a, p) && !(removed && Removes(a, p)) :: p in now)
    && (forall p | p in was && p in now && !Writes(a, p) :: now[p] == was[p])
    && (forall p | p in now && p !in was && !Writes(a, p) :: p <= a.target && now[p].Directory?)
  }

  /** A successful verification for this action: outside the target its tree is what
      the action found, but for new directories above the target. */
  ghost predicate IsAbout(a: Action, was: Tree, check: Check) {
    && check.source == a.source && check.target == a.target && Justified(check)
    && Kept(a, was, check.tree, false)
    && (Disjoint(a.source, a.target) ==> SameUnder(was, check.tree, a.source))
  }

  /** The copy that was verified is there, so what the source held is under the target
      exactly if the entries that the scan did not yield match too. */
  ghost predicate CheckedOut(a: Action, was: Tree, now: Tree, check: Check) {
    && IsAbout(a, was, check)
    && (Disjoint(a.source, a.target) ==>
          && SameUnder(check.tree, now, a.target)
          && (Mirrors(was, a.source, now, a.target) <==> RestMatches(check.tree, a.source, a.target, check.scan)))
  }

  /** What an executed action has achieved. */
  ghost predicate Achieved(a: Action, was: Tree, now: Tree, check: Check) {
    if IsDirectoryAction(a.kind) then
      && CheckedOut(a, was, now, check)
      && (a.kind.MoveDirectory? ==> forall p | p in now :: !Under(p, a.source))
    else
      && a.source in was && a.target in now && now[a.target] == was[a.source]
      && (a.kind.RenameFile? && a.source != a.target ==> a.source !in now)
  }

  // ----- runs of a plan

  /** What one action did: the tree it left, whether it renamed its source or began to
      remove it, the verification it made, the answers of the file system, and the tree
      after the copy and whether that was verified. */
  datatype Step = Step(now: Tree, removed: bool, check: Check, calls: Calls, copied: Tree, verified: bool)

  predicate IsDenied(a: Action, o: Options, was: Tree, s: Step) {
    GateError(a, o) || PathError(a, o, was) || (s.calls.scanned && FileError(a, o, was)) || (IsMoveAction(a.kind) && !o.allowDangerous && !o.dryRun)
  }

  /** Nothing keeps the action from being tried. */
  ghost predicate Proceeds(a: Action, o: Options, was: Tree) {
    !o.dryRun && IsFileAction(a.kind) && !GateError(a, o) && !FileError(a, o, was) && (o.allowDangerous || !RequiresDangerous(a.kind))
  }

  /** The state of a directory action, from the answers it got and from whether its copy
      was verified: in place of a source that could not be removed a new copy is. */
  predicate Reports(a: Action, was: Tree, c: Calls, verified: bool, state: State) {
    if !c.copied && !c.copyReported then state.Blocked?
    else if !verified then state == if a.kind.MoveDirectory? then PartiallyExecuted else Blocked
    else if a.kind.CopyDirectory? || c.removed then state.Executed?
    else if a.target in was then state.RollbackMissing?
    else Disjoint(a.source, a.target) ==> state == if c.rolledBack then PartiallyExecuted else RollbackFailed
  }

  /** When the copy is verified: if its entries can be looked at and all of them that
      are yielded match; a right copy of a supported source does. */
  ghost predicate Verifies(a: Action, was: Tree, s: Step) {
    var c := s.calls;
    && (s.verified ==> c.looked)
    && (c.listed && (c.copied || c.copyReported) ==>
          (s.verified <==> c.looked && IsDirectory(s.copied, a.source) && IsDirectory(s.copied, a.target)
                           && Mirrors(s.copied, a.source, s.copied, a.target)))
    && (c.listed && s.verified ==> s.check.scan.yielded == |s.check.scan.order|)
    && (c.copied && Disjoint(a.source, a.target) && IsDirectory(was, a.source) && !HasUnsupported(was, a.source) ==>
          IsDirectory(s.copied, a.source) && IsDirectory(s.copied, a.target) && Mirrors(s.copied, a.source, s.copied, a.target))
  }

  /** The state an action that is tried must report, once there is a place for its target. */
  ghost predicate Outcome(a: Action, was: Tree, s: Step, state: State) {
    match a.kind
    case CopyFile => state == if s.calls.copied then Executed else Blocked
    case RenameFile => state == if s.calls.renamed then Executed else RollbackMissing
    case _ => Reports(a, was, s.calls, s.verified, state) && Verifies(a, was, s)
  }

  /** One action, from the tree it found, with the state it reports. */
  ghost predicate IsStep(a: Action, o: Options, was: Tree, s: Step, state: State) {
    && (o.dryRun ==> state.Blocked? || state.Skipped?)
    && (state.Skipped? ==> o.dryRun)
    && (o.dryRun && !GateError(a, o) && !FileError(a, o, was) ==> state.Skipped?)
    && (state.Unsupported? ==> !IsFileAction(a.kind))
    && (!o.dryRun && !GateError(a, o) && !IsFileAction(a.kind) ==> state.Unsupported?)
    && (IsDenied(a, o, was, s) ==> state.Blocked? && s.now == was)
    && (o.dryRun || state.Skipped? || state.Unsupported? ==> s.now == was)
    && Transferred(a, was, s, state)
    && (Proceeds(a, o, was) ==> if o.createParents && !s.calls.parentsMade then state.Blocked? else Outcome(a, was, s, state))
  }

  /** What each state says of the trees. */
  ghost predicate Transferred(a: Action, was: Tree, s: Step, state: State) {
    && (state.Executed? ==> IsFileAction(a.kind) && Achieved(a, was, s.now, s.check))
    && Kept(a, was, s.now, s.removed)
    && (s.removed ==> if a.kind.RenameFile? then state.Executed? else a.kind.MoveDirectory? && !state.Blocked? && IsAbout(a, was, s.check))
    && (state.RollbackMissing? ==>
          if a.kind.RenameFile? then forall p | p in was :: p in s.now && s.now[p] == was[p]
          else a.kind.MoveDirectory? && s.removed && CheckedOut(a, was, s.now, s.check))
    && (state.PartiallyExecuted? ==> a.kind.MoveDirectory?)
    && (state.RollbackFailed? ==> a.kind.MoveDirectory? && s.removed)
    && (state.PartiallyExecuted? && s.removed ==> forall p | p in s.now :: !Under(p, a.target))
  }

  /** An action that nothing forbids, on a source apart from its target, is executed if
      every call does what it is asked, and then nothing of a directory is missed. */
  lemma GoodActionSucceeds(a: Action, o: Options, was: Tree, s: Step, state: State)
    requires IsStep(a, o, was, s, state) && Proceeds(a, o, was) && AllGood(s.calls)
    requires IsDirectoryAction(a.kind) ==> Disjoint(a.source, a.target)
    ensures state.Executed?
    ensures IsDirectoryAction(a.kind) ==> Mirrors(was, a.source, s.now, a.target)
  {
    hide Kept, Mirrors, HasUnsupported, Under;
  }

  /** What is tried, in full: a permitted file action on a source of its kind that can be
      migrated, towards a target that is free or may be overwritten. */
  lemma TriedExactly(a: Action, o: Options, was: Tree)
    ensures Proceeds(a, o, was) <==>
              && !o.dryRun && (a.dangerous ==> o.allowDangerous) && (a.requiresElevation ==> o.allowElevation)
              && (a.kind == RenameFile || a.kind == MoveDirectory ==> o.allowDangerous)
              && a.source != [] && a.target != [] && a.source in was && (a.target in was ==> o.overwrite)
              && (if a.kind == CopyFile || a.kind == RenameFile then was[a.source].File?
                  else && (a.kind == CopyDirectory || a.kind == MoveDirectory) && was[a.source].Directory?
                       && forall p | p in was && a.source <= p :: was[p].File? || was[p].Directory?)
  {
  }

  /** What is not tried changes nothing. */
  lemma UntriedKeeps(a: Action, o: Options, was: Tree, s: Step, state: State)
    requires IsStep(a, o, was, s, state) && !Proceeds(a, o, was) && s.calls.scanned
    ensures s.now == was && (state.Blocked? || state.Skipped? || state.Unsupported?)
  {
    hide HasUnsupported, Transferred;
  }

  /** What a match is: the same place below both roots, two directories or two files
      with the same bytes. */
  lemma MatchIs(tree: Tree, source: Path, target: Path, below: Path)
    ensures EntryMatches(tree, source, target, source + below) <==>
              && source + below in tree && target + below in tree
              && match (tree[source + below], tree[target + below])
                 case (File(a), File(b)) => a == b
                 case (Directory, Directory) => true
                 case _ => false
  {
    assert Rebase(source + below, source, target) == target + below;
  }

  function TreeAt(found: Tree, steps: seq<Step>, n: nat): Tree
    requires n <= |steps|
  {
    if n == 0 then found else steps[n - 1].now
  }

  ghost predicate IsRun(actions: seq<Action>, o: Options, found: Tree, steps: seq<Step>, states: seq<State>) {
    && |steps| == |states| <= |actions|
    && forall n | 0 <= n < |steps| :: IsStep(actions[n], o, TreeAt(found, steps, n), steps[n], states[n])
  }

  lemma OneMoreStep(actions: seq<Action>, o: Options, found: Tree, steps: seq<Step>, states: seq<State>, s: Step, state: State)
    requires IsRun(actions, o, found, steps, states) && |steps| < |actions|
    requires IsStep(actions[|steps|], o, TreeAt(found, steps, |steps|), s, state)
    ensures IsRun(actions, o, found, steps + [s], states + [state])
    ensures TreeAt(found, steps + [s], |steps| + 1) == s.now
  {
    hide IsStep;
    forall n | 0 <= n <= |steps|
      ensures IsStep(actions[n], o, TreeAt(found, steps + [s], n), (steps + [s])[n], (states + [state])[n])
    {
      assert TreeAt(found, steps + [s], n) == TreeAt(found, steps, n);
    }
  }

  /** Action n may overwrite, rename or remove the path. */
  predicate MayTouch(actions: seq<Action>, steps: seq<Step>, n: nat, p: Path)
    requires n < |actions| && n < |steps|
  {
    Writes(actions[n], p) || (steps[n].removed && Removes(actions[n], p))
  }

  lemma StepKeeps(a: Action, o: Options, was: Tree, s: Step, state: State, p: Path)
    requires IsStep(a, o, was, s, state) && p in was && !Writes(a, p) && !(s.removed && Removes(a, p))
    ensures p in s.now && s.now[p] == was[p]
  {
    hide Writes, Removes, Achieved, IsAbout, CheckedOut, GateError, FileError;
  }

  /** An entry that no action from i on may touch is there at the end as it was at i. */
  lemma {:induction false} RunKeeps(actions: seq<Action>, o: Options, found: Tree, steps: seq<Step>, states: seq<State>, i: nat, p: Path)
    requires IsRun(actions, o, found, steps, states) && i <= |steps| && p in TreeAt(found, steps, i)
    requires forall n | i <= n < |steps| :: !MayTouch(actions, steps, n, p)
    ensures var end := TreeAt(found, steps, |steps|); p in end && end[p] == TreeAt(found, steps, i)[p]
    decreases |steps| - i
  {
    hide IsStep, Writes, Removes;
    if i < |steps| {
      assert !MayTouch(actions, steps, i, p);
      StepKeeps(actions[i], o, TreeAt(found, steps, i), steps[i], states[i], p);
      RunKeeps(actions, o, found, steps, states, i + 1, p);
    }
  }

  /** A dry run changes nothing. */
  lemma {:induction false} DryRunKeeps(actions: seq<Action>, o: Options, found: Tree, steps: seq<Step>, states: seq<State>, n: nat)
    requires IsRun(actions, o, found, steps, states) && o.dryRun && n <= |steps|
    ensures TreeAt(found, steps, n) == found
  {
    hide Transferred, Outcome, GateError, FileError, PathError, Proceeds;
    if n > 0 {
      DryRunKeeps(actions, o, found, steps, states, n - 1);
      assert IsStep(actions[n - 1], o, TreeAt(found, steps, n - 1), steps[n - 1], states[n - 1]);
    }
  }

  /** A file that was copied or renamed is at its target at the end of the plan, if no
      later action touches it there. */
  lemma FileSurvives(actions: seq<Action>, o: Options, found: Tree, steps: seq<Step>, states: seq<State>, n: nat)
    requires IsRun(actions, o, found, steps, states) && n < |steps| && states[n].Executed? && !IsDirectoryAction(actions[n].kind)
    requires forall m | n < m < |steps| :: !MayTouch(actions, steps, m, actions[n].target)
    ensures var was, end := TreeAt(found, steps, n), TreeAt(found, steps, |steps|);
            actions[n].source in was && actions[n].target in end && end[actions[n].target] == was[actions[n].source]
  {
    hide Under, Kept, IsAbout, GateError, FileError, MayTouch;
    assert IsStep(actions[n], o, TreeAt(found, steps, n), steps[n], states[n]);
    RunKeeps(actions, o, found, steps, states, n + 1, actions[n].target);
  }

  /** What a directory action copied or moved is at the end of the plan, at its new
      place with the same kind and bytes, if the verifying scan missed no difference
      and no later action touches the target. */
  lemma ContentSurvives(actions: seq<Action>, o: Options, found: Tree, steps: seq<Step>, states: seq<State>, n: nat, p: Path)
    requires IsRun(actions, o, found, steps, states) && n < |steps| && states[n].Executed?
    requires var a := actions[n];
             && IsDirectoryAction(a.kind) && Disjoint(a.source, a.target)
             && RestMatches(steps[n].check.tree, a.source, a.target, steps[n].check.scan)
             && p in TreeAt(found, steps, n) && Under(p, a.source)
    requires forall m | n < m < |steps| :: !MayTouch(actions, steps, m, Rebase(p, actions[n].source, actions[n].target))
    ensures var end, q := TreeAt(found, steps, |steps|), Rebase(p, actions[n].source, actions[n].target);
            q in end && SameNode(TreeAt(found, steps, n)[p], end[q])
  {
    hide Under, Kept, IsAbout, GateError, FileError, MayTouch, RestMatches;
    assert IsStep(actions[n], o, TreeAt(found, steps, n), steps[n], states[n]);
    RunKeeps(actions, o, found, steps, states, n + 1, Rebase(p, actions[n].source, actions[n].target));
  }

  class Executor {
    var tree: Tree

    constructor (found: Tree)
      ensures tree == found
    {
      tree := found;
    }

    /** Looks for entries that cannot be migrated; the scan may break off, and then
        nothing more is reported. */
    method ScanForUnsupported(source: Path, scanned: bool) returns (found: bool)
      ensures found ==> HasUnsupported(tree, source)
      ensures scanned ==> (found <==> HasUnsupported(tree, source))
    {
      var rest := set p | p in tree && Under(p, source);
      while rest != {}
        invariant forall p :: p in rest ==> p in tree && Under(p, source)
        invariant forall p | p in tree && Under(p, source) :: p in rest || Supported(tree[p])
        decreases rest
      {
        var p :| p in rest;
        if !Supported(tree[p]) {
          return true;
        }
        rest := rest - {p};
        var broken: bool := *;
        if !scanned && broken {
          return false;
        }
      }
      return false;
    }

    method HasErrors(a: Action, o: Options, scanned: bool) returns (error: bool)
      ensures error ==> GateError(a, o) || FileError(a, o, tree)
      ensures scanned ==> (error <==> GateError(a, o) || FileError(a, o, tree))
      ensures GateError(a, o) || PathError(a, o, tree) ==> error
    {
      hide HasUnsupported;
      error := (a.dangerous && !o.allowDangerous) || (a.requiresElevation && !o.allowElevation);
      if !IsFileAction(a.kind) {
        return error;
      }
      if a.source == [] || a.target == [] || a.source !in tree || !Supported(tree[a.source]) {
        return true;
      }
      if IsDirectoryAction(a.kind) != tree[a.source].Directory? {
        error := true;
      } else if IsDirectoryAction(a.kind) {
        var found := ScanForUnsupported(a.source, scanned);
        error := error || found;
      }
      if a.target in tree && !o.overwrite {
        error := true;
      }
    }

    // ----- the file system

    /** Adds missing directories on the way to a path, as far as it gets. */
    method CreateDirectories(path: Path, made: bool) returns (ok: bool)
      modifies `tree
      ensures ok <==> made
      ensures forall p | p in old(tree) :: p in tree && tree[p] == old(tree)[p]
      ensures forall p | p in tree && p !in old(tree) :: p <= path && tree[p].Directory?
      ensures ok ==> forall n | 0 <= n <= |path| :: path[..n] in tree
    {
      for n := 0 to |path| + 1
        invariant forall p | p in old(tree) :: p in tree && tree[p] == old(tree)[p]
        invariant forall p | p in tree && p !in old(tree) :: p <= path && tree[p].Directory?
        invariant forall k | 0 <= k < n :: path[..k] in tree
      {
        if path[..n] !in tree {
          var failed: bool := *;
          if !made && failed {
            return false;
          }
          tree := tree[path[..n] := Directory];
        }
      }
      return made;
    }

    /** A recursive copy: only the target changes; a copy that is not right leaves
        anything there and reports what it likes. */
    method CopyTree(source: Path, target: Path, copied: bool, reported: bool) returns (ok: bool)
      modifies `tree
      ensures forall p | !Under(p, target) :: (p in tree <==> p in old(tree)) && (p in tree ==> tree[p] == old(tree)[p])
      ensures ok <==> copied || reported
      ensures copied ==> tree == CopyOf(old(tree), source, target)
    {
      if copied {
        tree := CopyOf(tree, source, target);
        return true;
      }
      var left: Tree := *;
      tree := (map p | p in tree && !Under(p, target) :: tree[p]) + (map p | p in left && Under(p, target) :: left[p]);
      return reported;
    }

    method CopyOneFile(source: Path, target: Path, copied: bool) returns (ok: bool)
      modifies `tree
      ensures forall p | p != target :: (p in tree <==> p in old(tree)) && (p in tree ==> tree[p] == old(tree)[p])
      ensures ok <==> copied && source in old(tree)
      ensures ok ==> target in tree && tree[target] == old(tree)[source]
    {
      if copied && source in tree {
        tree := tree[target := tree[source]];
        return true;
      }
      var partial: Option<Node> := *;
      if partial.Some? {
        tree := tree[target := partial.value];
      }
      return false;
    }

    /** All or nothing. */
    method Rename(source: Path, target: Path, renamed: bool) returns (ok: bool)
      modifies `tree
      ensures ok <==> renamed && source in old(tree)
      ensures !ok ==> tree == old(tree)
      ensures ok ==> tree == (old(tree) - {source})[target := old(tree)[source]]
    {
      ok := renamed && source in tree;
      if ok {
        tree := (tree - {source})[target := tree[source]];
      }
    }

    /** May stop half way. */
    method RemoveAll(path: Path, removed: bool) returns (ok: bool)
      modifies `tree
      ensures ok <==> removed
      ensures IsLeft(old(tree), tree, path)
      ensures ok ==> forall p | p in tree :: !Under(p, path)
    {
      var rest := set p | p in tree && Under(p, path);
      while rest != {}
        invariant tree.Keys <= old(tree).Keys && forall p | p in tree :: tree[p] == old(tree)[p]
        invariant forall p | p in old(tree) && !Under(p, path) :: p in tree
        invariant forall p | p in tree && Under(p, path) :: p in rest
        invariant forall p | p in rest :: Under(p, path)
        decreases rest
      {
        var p :| p in rest;
        var failed: bool := *;
        if !removed && failed {
          return false;
        }
        tree := tree - {p};
        rest := rest - {p};
      }
      return removed;
    }

    // ----- verification

    /** Compares every entry the scan yields with its copy. An error in going on to the
        next entry ends the scan as if there were no more; some look fails unless all can
        be made, at the latest the last. */
    method VerifySupportedDirectoryCopy(source: Path, target: Path, looked: bool, listed: bool) returns (ok: bool, ghost scan: Scan)
      ensures ok ==> looked && IsDirectory(tree, source) && IsDirectory(tree, target)
      ensures ok ==> IsScan(tree, source, scan) && Verified(tree, source, target, scan)
      ensures ok && listed ==> scan.yielded == |scan.order|
      ensures looked && IsDirectory(tree, source) && IsDirectory(tree, target) && !ok ==>
                exists p :: IsEntry(tree, source, p) && !EntryMatches(tree, source, target, p)
    {
      hide Under, SameNode, Listed, EntryMatches, IsListing;
      scan := Scan([], 0);
      var readable: bool := *;
      if (!looked && !readable) || !IsDirectory(tree, source) || !IsDirectory(tree, target) {
        return false, scan;
      }
      ghost var order: seq<Path> := [];
      var rest := set p | p in tree && Under(p, source) && p != source;
      NothingListed(tree, source, rest);
      while rest != {}
        invariant Listed(tree, source, order, rest)
        invariant forall i | 0 <= i < |order| :: EntryMatches(tree, source, target, order[i])
        decreases rest
      {
        ghost var top := SomeTop(rest);
        var p :| p in rest && forall q | q in rest && q != p :: !Under(p, q);
        ListOne(tree, source, order, rest, p);
        var seen: bool := *;
        var matches := CompareEntry(source, target, p, looked || seen);
        if !matches {
          return false, scan;
        }
        order := order + [p];
        rest := rest - {p};
        var broken: bool := *;
        if !listed && broken {
          ghost var others := InSomeOrder(rest);
          scan := Scan(order + others, |order|);
          ListedTogether(tree, source, order, rest, others);
          return looked, scan;
        }
      }
      scan := Scan(order, |order|);
      ListedTogether(tree, source, order, rest, []);
      assert order + [] == order;
      return looked, scan;
    }

    /** The entries below the source are those listed so far and the rest. */
    ghost predicate Listed(files: Tree, source: Path, order: seq<Path>, rest: set<Path>) {
      && (forall p | p in rest :: IsEntry(files, source, p))
      && (forall p | IsEntry(files, source, p) :: p in rest || p in order)
      && (forall i | 0 <= i < |order| :: IsEntry(files, source, order[i]))
      && (forall i, p | 0 <= i < |order| && p in rest :: !Under(order[i], p))
      && (forall i, j | 0 <= i < j < |order| :: !Under(order[i], order[j]))
    }

    lemma NothingListed(files: Tree, source: Path, rest: set<Path>)
      requires rest == set p | p in files && Under(p, source) && p != source
      ensures Listed(files, source, [], rest)
    {
    }

    lemma ListOne(files: Tree, source: Path, order: seq<Path>, rest: set<Path>, p: Path)
      requires Listed(files, source, order, rest) && p in rest && forall q | q in rest && q != p :: !Under(p, q)
      ensures Listed(files, source, order + [p], rest - {p})
      ensures p in files && Under(p, source) && IsEntry(files, source, p)
    {
      hide Under;
    }

    lemma ListedTogether(files: Tree, source: Path, order: seq<Path>, rest: set<Path>, others: seq<Path>)
      requires Listed(files, source, order, rest)
      requires forall p :: p in others <==> p in rest
      requires forall i, j | 0 <= i < j < |others| :: !Under(others[i], others[j])
      ensures IsListing(files, source, order + others)
    {
      hide Under, IsEntry;
      var all := order + others;
      forall i | 0 <= i < |all| ensures IsEntry(files, source, all[i]) {
        if i >= |order| { assert others[i - |order|] in others; }
      }
      forall i, j | 0 <= i < j < |all| ensures !Under(all[i], all[j]) {
        if i < |order| <= j { assert others[j - |order|] in others; }
      }
      forall p | IsEntry(files, source, p) ensures p in all {
        assert p in order || p in others;
      }
    }

    method CompareEntry(source: Path, target: Path, p: Path, readable: bool) returns (matches: bool)
      requires p in tree && Under(p, source)
      ensures matches <==> readable && EntryMatches(tree, source, target, p)
    {
      var copy := Rebase(p, source, target);
      var seen: bool := *;
      if (!readable && !seen) || copy !in tree {
        return false;
      }
      if tree[p].Directory? {
        return readable && tree[copy].Directory?;
      }
      if !tree[p].File? || !tree[copy].File? {
        return false;
      }
      matches := RegularFilesHaveSameContent(tree[p].content, tree[copy].content, readable);
    }

    // ----- one action

    /** Copies or moves after the checks. The source of a move is removed only after a
        verification. */
    method TransferDirectory(a: Action, c: Calls) returns (state: State, ghost removed: bool, ghost check: Check, ghost copied: Tree, ghost verified: bool)
      requires IsDirectoryAction(a.kind)
      modifies this
      ensures Reports(a, old(tree), c, verified, state)
      ensures Verifies(a, old(tree), Step(tree, removed, check, c, copied, verified))
      ensures state.Executed? ==> Achieved(a, old(tree), tree, check) && (removed <==> a.kind.MoveDirectory?)
      ensures state.RollbackMissing? ==> removed && CheckedOut(a, old(tree), tree, check)
      ensures state.RollbackFailed? ==> removed
      ensures state.Executed? || state.Blocked? || state.PartiallyExecuted? || state.RollbackMissing? || state.RollbackFailed?
      ensures state.PartiallyExecuted? || state.RollbackMissing? || state.RollbackFailed? ==> a.kind.MoveDirectory?
      ensures removed ==> a.kind.MoveDirectory? && !state.Blocked? && IsAbout(a, old(tree), check)
      ensures removed && state.PartiallyExecuted? ==> a.target !in old(tree) && forall p | p in tree :: !Under(p, a.target)
      ensures !removed && Disjoint(a.source, a.target) ==> SameUnder(old(tree), tree, a.source)
      ensures Kept(a, old(tree), tree, removed)
    {
      hide RestMatches, Verified, IsScan, Mirrors, IsListing, CopyOf, EntryMatches, HasUnsupported, IsEntry;
      var existedBefore := a.target in tree;
      removed, verified := false, false;
      check := Check(tree, a.source, a.target, Scan([], 0));
      var done := CopyTree(a.source, a.target, c.copied, c.copyReported);
      copied := tree;
      if Disjoint(a.source, a.target) { SourceIsSame(old(tree), tree, a.source, a.target); }
      RightCopyMirrors(a, old(tree), tree, c);
      if !done {
        return Blocked, removed, check, copied, verified;
      }
      var ok; ghost var scan;
      ok, scan := VerifySupportedDirectoryCopy(a.source, a.target, c.looked, c.listed);
      verified := ok;
      MirrorsIsAll(tree, a.source, a.target);
      if !ok {
        return (if IsMoveAction(a.kind) then PartiallyExecuted else Blocked), removed, check, copied, verified;
      }
      VerifiedMirrors(tree, a.source, a.target, scan);
      check := Check(tree, a.source, a.target, scan);
      if c.listed { NothingLeftOver(tree, a.source, a.target, scan); }
      assert IsAbout(a, old(tree), check);
      if !IsMoveAction(a.kind) {
        return Executed, removed, check, copied, verified;
      }
      removed := true;
      state := FinishMove(a, c, existedBefore, old(tree), check);
    }

    /** The end of a move: the source is removed, or the copy is rolled back if that
        fails and the target was not there before. */
    method FinishMove(a: Action, c: Calls, existedBefore: bool, ghost was: Tree, ghost check: Check) returns (state: State)
      requires a.kind.MoveDirectory? && (existedBefore <==> a.target in was)
      requires IsAbout(a, was, check) && check.tree == tree && a.target in tree
      requires Disjoint(a.source, a.target) ==> (Mirrors(was, a.source, tree, a.target) <==> RestMatches(tree, a.source, a.target, check.scan))
      modifies this
      ensures state.Executed? || state.PartiallyExecuted? || state.RollbackMissing? || state.RollbackFailed?
      ensures c.removed <==> state.Executed?
      ensures !c.removed && existedBefore ==> state.RollbackMissing?
      ensures !c.removed && !existedBefore && Disjoint(a.source, a.target) ==> state == if c.rolledBack then PartiallyExecuted else RollbackFailed
      ensures state.Executed? ==> Achieved(a, was, tree, check)
      ensures state.RollbackMissing? ==> CheckedOut(a, was, tree, check)
      ensures state.PartiallyExecuted? ==> !existedBefore && forall p | p in tree :: !Under(p, a.target)
      ensures Kept(a, was, tree, true)
    {
      hide RestMatches, Mirrors, Justified;
      var gone := RemoveAll(a.source, c.removed);
      if Disjoint(a.source, a.target) { TargetIsSame(was, check.tree, tree, a.source, a.target); }
      if gone {
        return Executed;
      }
      if a.target !in tree || existedBefore {
        return RollbackMissing;
      }
      var rolledBack := RemoveAll(a.target, c.rolledBack);
      return if rolledBack then PartiallyExecuted else RollbackFailed;
    }

    lemma RightCopyMirrors(a: Action, was: Tree, now: Tree, c: Calls)
      requires c.copied ==> now == CopyOf(was, a.source, a.target)
      ensures c.copied && Disjoint(a.source, a.target) && IsDirectory(was, a.source) && !HasUnsupported(was, a.source) ==>
                IsDirectory(now, a.source) && IsDirectory(now, a.target) && Mirrors(now, a.source, now, a.target)
    {
      if c.copied && Disjoint(a.source, a.target) && IsDirectory(was, a.source) && !HasUnsupported(was, a.source) {
        CopyMirrors(was, a.source, a.target);
      }
    }

    lemma CopyMirrors(was: Tree, source: Path, target: Path)
      requires Disjoint(source, target) && IsDirectory(was, source) && !HasUnsupported(was, source)
      ensures var now := CopyOf(was, source, target); IsDirectory(now, source) && IsDirectory(now, target) && Mirrors(now, source, now, target)
    {
      var now := CopyOf(was, source, target);
      assert Rebase(source, source, target) == target;
      forall p | p in now && Under(p, source)
        ensures Rebase(p, source, target) in now && SameNode(now[p], now[Rebase(p, source, target)])
      {
        Apart(p, source, target);
        var q := Rebase(p, source, target);
        assert p in was && now[p] == was[p] && Supported(was[p]);
        assert q[|target|..] == p[|source|..] && source + p[|source|..] == p;
      }
      assert target[|target|..] == [] && source + [] == source;
      Apart(source, source, target);
    }

    /** Between two directories: mirrored exactly if all entries match. */
    lemma MirrorsIsAll(files: Tree, source: Path, target: Path)
      ensures IsDirectory(files, source) && IsDirectory(files, target) ==>
                (Mirrors(files, source, files, target) <==> forall p | IsEntry(files, source, p) :: EntryMatches(files, source, target, p))
    {
      if IsDirectory(files, source) && IsDirectory(files, target) && forall p | IsEntry(files, source, p) :: EntryMatches(files, source, target, p) {
        forall p | p in files && Under(p, source)
          ensures Rebase(p, source, target) in files && SameNode(files[p], files[Rebase(p, source, target)])
        {
          if p == source {
            assert Rebase(p, source, target) == target;
          } else {
            assert IsEntry(files, source, p);
          }
        }
      }
      if Mirrors(files, source, files, target) {
        forall p | IsEntry(files, source, p) ensures EntryMatches(files, source, target, p) {
          assert p in files && Under(p, source);
        }
      }
    }

    /** A scan that goes to its end leaves nothing unchecked. */
    lemma NothingLeftOver(files: Tree, source: Path, target: Path, scan: Scan)
      requires scan.yielded == |scan.order|
      ensures RestMatches(files, source, target, scan)
    {
    }

    /** A copy that changes only a disjoint target leaves what is to be mirrored. */
    lemma SourceIsSame(was: Tree, now: Tree, source: Path, target: Path)
      requires Disjoint(source, target)
      requires forall p | !Under(p, target) :: SameAt(was, now, p)
      ensures SameUnder(was, now, source)
      ensures Mirrors(was, source, now, target) <==> Mirrors(now, source, now, target)
    {
      forall p | Under(p, source) ensures !Under(p, target) { Apart(p, source, target); }
    }

    lemma Comparable(a: Path, b: Path, p: Path)
      requires a <= p && b <= p
      ensures a <= b || b <= a
    {
      if |a| <= |b| {
        assert b[..|a|] == p[..|a|] == a;
      } else {
        assert a[..|b|] == p[..|b|] == b;
      }
    }

    lemma Apart(p: Path, source: Path, target: Path)
      requires Disjoint(source, target) && Under(p, source)
      ensures !Under(p, target)
    {
      if target <= p { Comparable(source, target, p); }
    }

    lemma MirrorsSame(was: Tree, now: Tree, source: Path, final: Tree, target: Path)
      requires SameUnder(was, now, source)
      ensures Mirrors(was, source, final, target) <==> Mirrors(now, source, final, target)
    {
    }

    /** Removing from a disjoint source leaves the target as it is. */
    lemma TargetIsSame(was: Tree, before: Tree, now: Tree, source: Path, target: Path)
      requires Disjoint(source, target) && IsLeft(before, now, source)
      ensures SameUnder(before, now, target)
      ensures Mirrors(was, source, before, target) <==> Mirrors(was, source, now, target)
    {
      forall p | Under(p, target) && p in before ensures p in now { Apart(p, target, source); }
      forall p | p in was && Under(p, source) ensures SameAt(before, now, Rebase(p, source, target)) {
        assert Under(Rebase(p, source, target), target);
      }
    }

    method TransferFile(a: Action, c: Calls) returns (state: State)
      requires (a.kind.CopyFile? || a.kind.RenameFile?) && a.source in tree
      modifies `tree
      ensures state == if a.kind.CopyFile? then (if c.copied then Executed else Blocked) else if c.renamed then Executed else RollbackMissing
      ensures state.RollbackMissing? ==> tree == old(tree)
      ensures state.Executed? ==> a.target in tree && tree[a.target] == old(tree)[a.source]
      ensures state.Executed? && a.kind.RenameFile? && a.source != a.target ==> a.source !in tree
      ensures a.source != a.target && !(a.kind.RenameFile? && state.Executed?) ==> SameAt(old(tree), tree, a.source)
      ensures Kept(a, old(tree), tree, a.kind.RenameFile? && state.Executed?)
    {
      if a.kind.CopyFile? {
        var copied := CopyOneFile(a.source, a.target, c.copied);
        return if copied then Executed else Blocked;
      }
      var renamed := Rename(a.source, a.target, c.renamed);
      return if renamed then Executed else RollbackMissing;
    }

    /** New directories on the way to a disjoint target are not in the source. */
    lemma PreparedIsSame(was: Tree, now: Tree, a: Action)
      requires Disjoint(a.source, a.target) && IsPrepared(a, was, now)
      ensures SameUnder(was, now, a.source)
    {
      forall p | p in now && p !in was ensures !Under(p, a.source) {
        if Under(p, a.source) { PrefixOfPrefix(a.source, p, a.target); }
      }
    }

    /** Only directories on the way to the target are new. */
    ghost predicate IsPrepared(a: Action, was: Tree, now: Tree) {
      && (forall p | p in was :: p in now && now[p] == was[p])
      && (forall p | p in now && p !in was :: p <= a.target && p != a.target && now[p].Directory?)
    }

    /** What holds of the transfer holds of the whole action. */
    lemma PreparedTransfers(a: Action, was: Tree, prepared: Tree, now: Tree, removed: bool, check: Check)
      requires IsPrepared(a, was, prepared)
      ensures Kept(a, prepared, now, removed) ==> Kept(a, was, now, removed)
      ensures IsAbout(a, prepared, check) ==> IsAbout(a, was, check)
      ensures CheckedOut(a, prepared, now, check) ==> CheckedOut(a, was, now, check)
      ensures IsDirectoryAction(a.kind) && Achieved(a, prepared, now, check) ==> Achieved(a, was, now, check)
    {
      hide Justified, Mirrors, RestMatches;
      if Disjoint(a.source, a.target) {
        PreparedIsSame(was, prepared, a);
        MirrorsSame(was, prepared, a.source, now, a.target);
      }
    }

    /** The state of the prepared tree is the one that was reported for the tree found. */
    lemma PreparedReports(a: Action, was: Tree, prepared: Tree, s: Step, state: State)
      requires IsPrepared(a, was, prepared) && IsDirectoryAction(a.kind) && a.source in was && was[a.source].Directory?
      requires Reports(a, prepared, s.calls, s.verified, state) && Verifies(a, prepared, s)
      ensures Reports(a, was, s.calls, s.verified, state)
      ensures Verifies(a, was, s)
    {
      hide Mirrors;
      if Disjoint(a.source, a.target) && !HasUnsupported(was, a.source) {
        PreparedIsSame(was, prepared, a);
        assert !HasUnsupported(prepared, a.source);
      }
    }

    method ExecuteAction(a: Action, o: Options, c: Calls) returns (result: ActionResult, ghost s: Step)
      modifies this
      ensures result.action == a && s.now == tree && s.calls == c
      ensures IsStep(a, o, old(tree), s, result.state)
    {
      hide IsAbout, CheckedOut, Mirrors, RestMatches, Justified, Outcome, HasUnsupported, Writes, Removes, Under, Disjoint;
      var error := HasErrors(a, o, c.scanned);
      s := Step(tree, false, Check(tree, a.source, a.target, Scan([], 0)), c, tree, false);
      if error {
        return ActionResult(a, Blocked), s;
      }
      if o.dryRun {
        return ActionResult(a, Skipped), s;
      }
      if !IsFileAction(a.kind) {
        return ActionResult(a, Unsupported), s;
      }
      if !o.allowDangerous && RequiresDangerous(a.kind) {
        return ActionResult(a, Blocked), s;
      }
      if o.createParents {
        var made := CreateDirectories(a.target[..|a.target| - 1], c.parentsMade);
        if !made {
          s := s.(now := tree);
          return ActionResult(a, Blocked), s;
        }
      }
      ghost var prepared := tree;
      assert IsPrepared(a, old(tree), prepared);
      var state;
      state, s := Transfer(a, c, old(tree));
      return ActionResult(a, state), s;
    }

    /** The copy, the rename or the move itself. */
    method Transfer(a: Action, c: Calls, ghost was: Tree) returns (state: State, ghost s: Step)
      requires IsFileAction(a.kind) && IsPrepared(a, was, tree) && a.source in was && (IsDirectoryAction(a.kind) ==> was[a.source].Directory?)
      modifies this
      ensures s.now == tree && s.calls == c && Transferred(a, was, s, state) && Outcome(a, was, s, state)
      ensures !state.Skipped? && !state.Unsupported?
    {
      hide IsAbout, CheckedOut, Mirrors, RestMatches, Justified, Reports, Verifies, HasUnsupported, Writes, Removes, Under, Disjoint;
      ghost var prepared := tree;
      ghost var removed, check, copied, verified := false, Check(tree, a.source, a.target, Scan([], 0)), tree, false;
      if IsDirectoryAction(a.kind) {
        state, removed, check, copied, verified := TransferDirectory(a, c);
        PreparedReports(a, was, prepared, Step(tree, removed, check, c, copied, verified), state);
      } else {
        state := TransferFile(a, c);
        removed := a.kind.RenameFile? && state.Executed?;
      }
      PreparedTransfers(a, was, prepared, tree, removed, check);
      s := Step(tree, removed, check, c, copied, verified);
    }

    /** The whole plan: one result per action, in order; the report is ok exactly
        when the plan was valid and every action was executed or skipped; an invalid
        plan does nothing, and a valid one is a run of its actions, each from the tree
        that the one before it left. */
    method ExecutePlan(actions: seq<Action>, planHasErrors: bool, o: Options, calls: seq<Calls>) returns (report: Report, ghost steps: seq<Step>)
      requires |calls| == |actions|
      modifies this
      ensures |report.results| == |actions| && forall i | 0 <= i < |actions| :: report.results[i].action == actions[i]
      ensures report.ok <==> !planHasErrors && forall i | 0 <= i < |actions| :: report.results[i].state == Executed || report.results[i].state == Skipped
      ensures planHasErrors ==> tree == old(tree) && steps == [] && forall i | 0 <= i < |actions| :: report.results[i].state.Blocked?
      ensures forall n | 0 <= n < |steps| :: n < |calls| && steps[n].calls == calls[n]
      ensures !planHasErrors ==> |steps| == |actions| && IsRun(actions, o, old(tree), steps, StatesOf(report.results))
      ensures tree == TreeAt(old(tree), steps, |steps|)
      ensures o.dryRun ==> tree == old(tree)
      ensures forall p | p in old(tree) && (forall n | 0 <= n < |steps| :: !MayTouch(actions, steps, n, p)) ::
                p in tree && tree[p] == old(tree)[p]
    {
      hide IsStep, IsRun, MayTouch;
      steps := [];
      var results: seq<ActionResult> := [];
      if planHasErrors {
        for n := 0 to |actions|
          invariant |results| == n && forall i | 0 <= i < n :: results[i] == ActionResult(actions[i], Blocked)
          invariant tree == old(tree)
        {
          results := results + [ActionResult(actions[n], Blocked)];
        }
        return Report(false, results), steps;
      }
      var ok := true;
      NothingRun(actions, o, tree);
      for n := 0 to |actions|
        invariant |results| == |steps| == n && forall i | 0 <= i < n :: results[i].action == actions[i]
        invariant ok <==> forall i | 0 <= i < n :: IsGood(results[i].state)
        invariant forall i | 0 <= i < n :: steps[i].calls == calls[i]
        invariant IsRun(actions, o, old(tree), steps, StatesOf(results)) && tree == TreeAt(old(tree), steps, n)
      {
        var result; ghost var s;
        result, s := ExecuteAction(actions[n], o, calls[n]);
        OneMoreStep(actions, o, old(tree), steps, StatesOf(results), s, result.state);
        if !IsGood(result.state) {
          ok := false;
        }
        assert StatesOf(results + [result]) == StatesOf(results) + [result.state];
        results := results + [result];
        steps := steps + [s];
      }
      if o.dryRun { DryRunKeeps(actions, o, old(tree), steps, StatesOf(results), |steps|); }
      forall p | p in old(tree) && (forall n | 0 <= n < |steps| :: !MayTouch(actions, steps, n, p))
        ensures p in tree && tree[p] == old(tree)[p]
      {
        RunKeeps(actions, o, old(tree), steps, StatesOf(results), 0, p);
      }
      return Report(ok, results), steps;
    }
  }

  function StatesOf(results: seq<ActionResult>): seq<State> {
    seq(|results|, i requires 0 <= i < |results| => results[i].state)
  }

  lemma NothingRun(actions: seq<Action>, o: Options, found: Tree)
    ensures IsRun(actions, o, found, [], StatesOf([])) && TreeAt(found, [], 0) == found
  {
  }
}
