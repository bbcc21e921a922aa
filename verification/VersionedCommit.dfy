/** Versioned settings commits: any number of writers, in any number of processes,
    replace one file only if it still has the content they read. Each writer takes
    its process's mutex for the target, then the lock on the target's lock file,
    compares the content with its token, and writes. Every step may fail, and a
    process may die at any point. */
module VersionedCommit {
  import opened Prelude
  import opened DurableWrite
  import opened DurableWriteSafety

  /** What the caller asks for. `validToken` and `sameDomain` are the outcomes of
      the two checks on the token that do not look at the file. */
  datatype Request = Request(process: nat, options: Options, existed: bool, expected: Content, validToken: bool, sameDomain: bool)

  function Token(r: Request): Option<Content> {
    if r.existed then Some(r.expected) else None
  }

  /** The target still is what the token says; `read` tells whether it could be read. */
  predicate TokenMatches(r: Request, now: Option<Content>, read: bool) {
    read && match now
            case None => !r.existed
            case Some(content) => r.existed && content == r.expected
  }

  /** `found` and `answers` record the files at the start and what the operating
      system answered since: together they are the state of the durable write. */
  datatype Stage =
    | Begin
    | Prepared
    | Referencing(mutex: nat)
    | Locked(mutex: nat)
    | Guarded(mutex: nat, found: Files)
    | Writing(mutex: nat, found: Files, answers: seq<Answer>)
    | Releasing(mutex: nat, ok: bool)
    | Finished(ok: bool)
    | Crashed

  datatype Commit = Commit(request: Request, stage: Stage)

  /** One period of holding the lock: the target when it began and when it ended. */
  datatype Session = Session(request: Request, acquired: Option<Content>, released: Option<Content>, ok: bool, restoring: bool)

  datatype World = World(
    files: Files, commits: seq<Commit>, registry: map<nat, nat>, nextMutex: nat,
    locked: set<nat>, holder: Option<nat>, log: seq<Session>)

  function Reference(stage: Stage): Option<nat> {
    match stage
    case Referencing(m) => Some(m)
    case Locked(m) => Some(m)
    case Guarded(m, _) => Some(m)
    case Writing(m, _, _) => Some(m)
    case Releasing(m, _) => Some(m)
    case _ => None
  }

  function LockedMutex(stage: Stage): Option<nat> {
    if stage.Referencing? then None else Reference(stage)
  }

  predicate InGuard(stage: Stage) {
    stage.Guarded? || stage.Writing?
  }

  predicate Over(stage: Stage) {
    stage.Finished? || stage.Crashed?
  }

  predicate IsLive(commits: seq<Commit>, m: nat) {
    exists i :: 0 <= i < |commits| && Reference(commits[i].stage) == Some(m)
  }

  /** mutex_for_target: the registry holds weak pointers, so an entry counts only
      while some writer still refers to its mutex. */
  function MutexFor(registry: map<nat, nat>, next: nat, process: nat, live: bool): (map<nat, nat>, nat, nat) {
    if process in registry && live then (registry, next, registry[process])
    else (registry[process := next], next + 1, next)
  }

  function Put(w: World, i: nat, stage: Stage): World
    requires i < |w.commits|
  {
    w.(commits := w.commits[i := w.commits[i].(stage := stage)])
  }

  function WriterOf(o: Options, stage: Stage): Writer
    requires stage.Writing?
  {
    RunWrite(o, stage.found, stage.answers).0
  }

  predicate IsRestoring(w: Writer) {
    IsReadbackFailure(w) && (w.stage.RestoreReadback? || w.report.diagnostics[|w.report.diagnostics| - 1] == BackupRestoreFailed)
  }

  /** What is logged when the lock is given up. */
  function Closing(c: Commit, files: Files): Session
    requires InGuard(c.stage)
  {
    var t := c.request.options.target;
    Session(c.request, Lookup(c.stage.found, t), Lookup(files, t),
            c.stage.Writing? && WriterOf(c.request.options, c.stage).stage.Done? && WriterOf(c.request.options, c.stage).report.ok,
            c.stage.Writing? && IsRestoring(WriterOf(c.request.options, c.stage)))
  }

  datatype Action =
    | Check(i: nat, good: bool)
    | Refer(i: nat)
    | LockMutex(i: nat)
    | LockFile(i: nat, good: bool)
    | CheckToken(i: nat, read: bool)
    | Write(i: nat, answer: Answer)
    | Release(i: nat)
    | Unlock(i: nat)
    | Kill(process: nat)

  function ActOne(w: World, i: nat, a: Action): World
    requires i < |w.commits|
  {
    var c := w.commits[i];
    var r := c.request;
    match a
    case Check(_, good) =>
      if !c.stage.Begin? then w
      else Put(w, i, if r.validToken && r.sameDomain && good then Prepared else Finished(false))
    case Refer(_) =>
      if !c.stage.Prepared? then w
      else
        var live := r.process in w.registry && IsLive(w.commits, w.registry[r.process]);
        var (registry, next, m) := MutexFor(w.registry, w.nextMutex, r.process, live);
        Put(w.(registry := registry, nextMutex := next), i, Referencing(m))
    case LockMutex(_) =>
      if c.stage.Referencing? && c.stage.mutex !in w.locked then
        Put(w.(locked := w.locked + {c.stage.mutex}), i, Locked(c.stage.mutex))
      else w
    case LockFile(_, good) =>
      if !c.stage.Locked? then w
      else if !good then Put(w.(locked := w.locked - {c.stage.mutex}), i, Finished(false))
      else if w.holder.None? then Put(w.(holder := Some(i)), i, Guarded(c.stage.mutex, w.files))
      else w
    case CheckToken(_, read) =>
      if !c.stage.Guarded? then w
      else if TokenMatches(r, Lookup(w.files, r.options.target), read) then Put(w, i, Writing(c.stage.mutex, c.stage.found, []))
      else Put(w.(holder := None, log := w.log + [Closing(c, w.files)]), i, Releasing(c.stage.mutex, false))
    case Write(_, answer) =>
      if !c.stage.Writing? || WriterOf(r.options, c.stage).stage.Done? then w
      else
        var next := c.stage.(answers := c.stage.answers + [answer]);
        Put(w.(files := RunWrite(r.options, next.found, next.answers).1), i, next)
    case Release(_) =>
      if !c.stage.Writing? || !WriterOf(r.options, c.stage).stage.Done? then w
      else
        Put(w.(holder := None, log := w.log + [Closing(c, w.files)]), i,
            Releasing(c.stage.mutex, WriterOf(r.options, c.stage).report.ok))
    case Unlock(_) =>
      if !c.stage.Releasing? then w
      else Put(w.(locked := w.locked - {c.stage.mutex}), i, Finished(c.stage.ok))
    case Kill(_) => w
  }

  function Killed(c: Commit, process: nat): Commit {
    if c.request.process == process && !Over(c.stage) then c.(stage := Crashed) else c
  }

  predicate LockedBy(commits: seq<Commit>, process: nat, m: nat) {
    exists i :: 0 <= i < |commits| && commits[i].request.process == process && LockedMutex(commits[i].stage) == Some(m)
  }

  /** The process dies: its mutexes are gone and the system drops its file lock. */
  function AfterKill(w: World, process: nat): World {
    var owns := w.holder.Some? && w.holder.value < |w.commits| && w.commits[w.holder.value].request.process == process
                && InGuard(w.commits[w.holder.value].stage);
    w.(commits := seq(|w.commits|, i requires 0 <= i < |w.commits| => Killed(w.commits[i], process)),
       registry := w.registry - {process},
       locked := (set m | m in w.locked && !LockedBy(w.commits, process, m)),
       holder := if owns then None else w.holder,
       log := if owns then w.log + [Closing(w.commits[w.holder.value], w.files)] else w.log)
  }

  function Act(w: World, a: Action): World {
    if a.Kill? then AfterKill(w, a.process)
    else if a.i < |w.commits| then ActOne(w, a.i, a) else w
  }

  function Initial(files: Files, requests: seq<Request>): World {
    World(files, seq(|requests|, i requires 0 <= i < |requests| => Commit(requests[i], Begin)), map[], 0, {}, None, [])
  }

  function Run(files: Files, requests: seq<Request>, actions: seq<Action>): World {
    if actions == [] then Initial(files, requests)
    else Act(Run(files, requests, actions[..|actions| - 1]), actions[|actions| - 1])
  }

  // ----- invariants

  predicate OneTarget(w: World, target: Path) {
    forall i | 0 <= i < |w.commits| :: w.commits[i].request.options.target == target
  }

  predicate HolderIsExact(w: World) {
    && (forall i | 0 <= i < |w.commits| :: InGuard(w.commits[i].stage) <==> w.holder == Some(i))
    && (w.holder.Some? ==> w.holder.value < |w.commits|)
  }

  /** Each process has at most one live mutex: the one in its registry. */
  predicate RegistryIsExact(w: World) {
    && (forall i | 0 <= i < |w.commits| && Reference(w.commits[i].stage).Some? ::
          var p := w.commits[i].request.process; p in w.registry && Reference(w.commits[i].stage) == Some(w.registry[p]))
    && (forall p | p in w.registry :: w.registry[p] < w.nextMutex)
    && (forall p, q | p in w.registry && q in w.registry && p != q :: w.registry[p] != w.registry[q])
  }

  /** A locked mutex is locked by exactly one writer. */
  predicate LocksAreExact(commits: seq<Commit>, locked: set<nat>) {
    && (forall i | 0 <= i < |commits| && LockedMutex(commits[i].stage).Some? :: LockedMutex(commits[i].stage).value in locked)
    && (forall i, j | 0 <= i < j < |commits| && LockedMutex(commits[i].stage).Some? :: LockedMutex(commits[i].stage) != LockedMutex(commits[j].stage))
    && (forall m | m in locked :: exists i :: 0 <= i < |commits| && LockedMutex(commits[i].stage) == Some(m))
  }

  /** The files are what the lock holder's write made of what it found, and it
      writes only after its token matched. */
  predicate HolderOwnsFiles(w: World) {
    forall i | 0 <= i < |w.commits| && InGuard(w.commits[i].stage) ::
      var c := w.commits[i];
      if c.stage.Guarded? then w.files == c.stage.found
      else RunWrite(c.request.options, c.stage.found, c.stage.answers).1 == w.files
           && Lookup(c.stage.found, c.request.options.target) == Token(c.request)
  }

  function LastReleased(log: seq<Session>, initial: Option<Content>): Option<Content> {
    if log == [] then initial else log[|log| - 1].released
  }

  /** Every session starts from what the session before it left. */
  predicate Chained(log: seq<Session>, initial: Option<Content>) {
    forall k | 0 <= k < |log| :: log[k].acquired == LastReleased(log[..k], initial)
  }

  predicate Continues(w: World, target: Path, initial: Option<Content>) {
    match w.holder
    case None => Lookup(w.files, target) == LastReleased(w.log, initial)
    case Some(i) =>
      i < |w.commits| && InGuard(w.commits[i].stage)
      && Lookup(w.commits[i].stage.found, target) == LastReleased(w.log, initial)
  }

  /** What a session may have done to the target. */
  predicate Sound(s: Session) {
    && (s.released != s.acquired ==> s.acquired == Token(s.request))
    && (s.ok ==> s.acquired == Token(s.request) && s.released == Some(s.request.options.content))
    && (s.request.options.atomicReplace ==>
          || s.released == s.acquired || s.released == Some(s.request.options.content)
          || (s.restoring && !NeverTears(s.request.options, Token(s.request)) && Begins(s.released, s.acquired)))
  }

  predicate AllSound(log: seq<Session>) {
    forall k | 0 <= k < |log| :: Sound(log[k])
  }

  predicate LocksFit(w: World) {
    HolderIsExact(w) && RegistryIsExact(w) && LocksAreExact(w.commits, w.locked)
  }

  predicate FilesFit(w: World, target: Path, initial: Option<Content>) {
    OneTarget(w, target) && HolderOwnsFiles(w) && Chained(w.log, initial) && Continues(w, target, initial) && AllSound(w.log)
  }

  predicate Invariant(w: World, target: Path, initial: Option<Content>) {
    LocksFit(w) && FilesFit(w, target, initial)
  }

  // ----- the locks

  lemma HolderKept(w: World, i: nat, a: Action)
    requires i < |w.commits| && HolderIsExact(w)
    ensures HolderIsExact(ActOne(w, i, a))
  {
    hide RunWrite, IsLive, Closing, TokenMatches;
  }

  lemma RegistryKept(w: World, i: nat, a: Action)
    requires i < |w.commits| && RegistryIsExact(w)
    ensures RegistryIsExact(ActOne(w, i, a))
  {
    hide RunWrite, Closing, TokenMatches;
    if a.Refer? && w.commits[i].stage.Prepared? { ReferKeeps(w, i, a); }
  }

  lemma ReferKeeps(w: World, i: nat, a: Action)
    requires i < |w.commits| && RegistryIsExact(w) && a.Refer? && w.commits[i].stage.Prepared?
    ensures RegistryIsExact(ActOne(w, i, a))
  {
    var v := ActOne(w, i, a);
    var p := w.commits[i].request.process;
    forall j | 0 <= j < |w.commits| && j != i && Reference(w.commits[j].stage).Some? && w.commits[j].request.process == p
      ensures v.registry == w.registry
    {
      assert IsLive(w.commits, w.registry[p]);
    }
  }

  /** One writer keeps, takes or gives up a mutex. */
  lemma OneLockChanges(commits: seq<Commit>, locked: set<nat>, i: nat, stage: Stage)
    requires i < |commits| && LocksAreExact(commits, locked)
    ensures var was, now := LockedMutex(commits[i].stage), LockedMutex(stage);
            var next := commits[i := commits[i].(stage := stage)];
            && (was == now ==> LocksAreExact(next, locked))
            && (was.None? && now.Some? && now.value !in locked ==> LocksAreExact(next, locked + {now.value}))
            && (was.Some? && now.None? ==> LocksAreExact(next, locked - {was.value}))
  {
    hide LockedMutex;
    var was, now := LockedMutex(commits[i].stage), LockedMutex(stage);
    var next := commits[i := commits[i].(stage := stage)];
    var after := if was == now then locked else if was.None? then locked + {now.value} else locked - {was.value};
    if was == now || was.None? || now.None? {
      forall m | m in after ensures exists j :: 0 <= j < |next| && LockedMutex(next[j].stage) == Some(m) {
        if now == Some(m) {
          assert LockedMutex(next[i].stage) == Some(m);
        } else {
          var j :| 0 <= j < |commits| && LockedMutex(commits[j].stage) == Some(m);
          assert LockedMutex(next[j].stage) == Some(m);
        }
      }
    }
  }

  lemma LocksKept(w: World, i: nat, a: Action)
    requires i < |w.commits| && LocksAreExact(w.commits, w.locked)
    ensures LocksAreExact(ActOne(w, i, a).commits, ActOne(w, i, a).locked)
  {
    hide RunWrite, IsLive, Closing, TokenMatches, LocksAreExact;
    var v := ActOne(w, i, a);
    assert v == w || v.commits == w.commits[i := w.commits[i].(stage := v.commits[i].stage)];
    if v != w {
      OneLockChanges(w.commits, w.locked, i, v.commits[i].stage);
    }
  }

  lemma KillKeepsHolder(w: World, process: nat)
    requires HolderIsExact(w)
    ensures HolderIsExact(AfterKill(w, process))
  {
    hide RunWrite, Closing, LockedBy;
    var v := AfterKill(w, process);
    forall i | 0 <= i < |v.commits| ensures InGuard(v.commits[i].stage) <==> v.holder == Some(i) {
      assert InGuard(w.commits[i].stage) <==> w.holder == Some(i);
    }
  }

  lemma KillKeepsRegistry(w: World, process: nat)
    requires RegistryIsExact(w)
    ensures RegistryIsExact(AfterKill(w, process))
  {
    hide RunWrite, Closing, LockedBy, InGuard;
    var v := AfterKill(w, process);
    forall i | 0 <= i < |v.commits| && Reference(v.commits[i].stage).Some?
      ensures var p := v.commits[i].request.process; p in v.registry && Reference(v.commits[i].stage) == Some(v.registry[p])
    {
      assert v.commits[i] == w.commits[i];
    }
  }

  lemma KillKeepsLocks(w: World, process: nat)
    requires LocksAreExact(w.commits, w.locked)
    ensures LocksAreExact(AfterKill(w, process).commits, AfterKill(w, process).locked)
  {
    hide RunWrite, Closing, InGuard, Reference;
    var v := AfterKill(w, process);
    forall m | m in v.locked ensures exists j :: 0 <= j < |v.commits| && LockedMutex(v.commits[j].stage) == Some(m) {
      var j :| 0 <= j < |w.commits| && LockedMutex(w.commits[j].stage) == Some(m);
      assert w.commits[j].request.process != process;
      assert LockedMutex(v.commits[j].stage) == Some(m);
    }
    forall i | 0 <= i < |v.commits| && LockedMutex(v.commits[i].stage).Some?
      ensures LockedMutex(v.commits[i].stage).value in v.locked && v.commits[i] == w.commits[i]
    {
      CrashedHasNoMutex(w.commits[i], process);
      KilledHasNoMutex(w, process, i);
    }
  }

  lemma CrashedHasNoMutex(c: Commit, process: nat)
    ensures LockedMutex(Killed(c, process).stage).Some? ==> Killed(c, process) == c && c.request.process != process
  {
  }

  /** A mutex locked in another process is not locked in the one that dies. */
  lemma KilledHasNoMutex(w: World, process: nat, i: nat)
    requires LocksAreExact(w.commits, w.locked) && i < |w.commits| && w.commits[i].request.process != process
    requires LockedMutex(w.commits[i].stage).Some?
    ensures !LockedBy(w.commits, process, LockedMutex(w.commits[i].stage).value)
  {
    hide LockedMutex;
  }

  lemma LocksStep(w: World, a: Action)
    requires LocksFit(w)
    ensures LocksFit(Act(w, a))
  {
    hide HolderIsExact, RegistryIsExact, LocksAreExact, ActOne, AfterKill;
    if a.Kill? {
      KillKeepsHolder(w, a.process);
      KillKeepsRegistry(w, a.process);
      KillKeepsLocks(w, a.process);
    } else if a.i < |w.commits| {
      HolderKept(w, a.i, a);
      RegistryKept(w, a.i, a);
      LocksKept(w, a.i, a);
    }
  }

  // ----- the files

  lemma AppendSession(log: seq<Session>, s: Session, initial: Option<Content>)
    requires Chained(log, initial) && s.acquired == LastReleased(log, initial)
    ensures Chained(log + [s], initial)
  {
    forall k | 0 <= k < |log + [s]| ensures (log + [s])[k].acquired == LastReleased((log + [s])[..k], initial) {
      if k < |log| {
        assert (log + [s])[..k] == log[..k];
      } else {
        assert (log + [s])[..k] == log;
      }
    }
  }

  /** Giving up the lock, at whatever stage, closes a sound session. */
  lemma ClosingIsSound(w: World, target: Path, initial: Option<Content>, i: nat)
    requires HolderOwnsFiles(w) && OneTarget(w, target) && i < |w.commits| && InGuard(w.commits[i].stage)
    ensures Sound(Closing(w.commits[i], w.files))
  {
    hide RunWrite;
    var c := w.commits[i];
    var o := c.request.options;
    if c.stage.Writing? {
      if o.atomicReplace {
        OldOrNew(o, c.stage.found, c.stage.answers);
        if NeverTears(o, Token(c.request)) { NothingToRestore(o, c.stage.found, c.stage.answers); }
      }
      if WriterOf(o, c.stage).stage.Done? { ReportIsTrue(o, c.stage.found, c.stage.answers); }
    }
  }

  lemma ReleaseKeepsFiles(w: World, target: Path, initial: Option<Content>, i: nat)
    requires Invariant(w, target, initial) && i < |w.commits| && InGuard(w.commits[i].stage)
    ensures var log := w.log + [Closing(w.commits[i], w.files)];
            Chained(log, initial) && AllSound(log) && LastReleased(log, initial) == Lookup(w.files, target)
  {
    hide RunWrite, Sound, WriterOf, RegistryIsExact, LocksAreExact;
    var s := Closing(w.commits[i], w.files);
    AppendSession(w.log, s, initial);
    ClosingIsSound(w, target, initial, i);
  }

  lemma KillKeepsFiles(w: World, target: Path, initial: Option<Content>, process: nat)
    requires Invariant(w, target, initial)
    ensures FilesFit(AfterKill(w, process), target, initial)
  {
    hide RunWrite, Sound, Closing, RegistryIsExact, LocksAreExact, LockedBy, Chained, AllSound;
    var v := AfterKill(w, process);
    assert HolderIsExact(w);
    if w.holder.Some? && w.commits[w.holder.value].request.process == process {
      ReleaseKeepsFiles(w, target, initial, w.holder.value);
      forall j | 0 <= j < |v.commits| ensures !InGuard(v.commits[j].stage) { assert InGuard(w.commits[j].stage) <==> w.holder == Some(j); }
    } else if w.holder.Some? {
      assert v.commits[w.holder.value] == w.commits[w.holder.value];
    }
  }

  lemma OneKeepsFiles(w: World, target: Path, initial: Option<Content>, i: nat, a: Action)
    requires Invariant(w, target, initial) && i < |w.commits| && !a.Kill?
    ensures FilesFit(ActOne(w, i, a), target, initial)
  {
    hide RunWrite, Sound, Closing, RegistryIsExact, LocksAreExact, Chained, AllSound, IsLive, LastReleased, MutexFor;
    var c, v := w.commits[i], ActOne(w, i, a);
    if InGuard(c.stage) {
      ReleaseKeepsFiles(w, target, initial, i);
      RunNothing(c.request.options, c.stage.found);
    }
  }

  /** Every step of every writer keeps the invariant. */
  lemma ActKeepsInvariant(w: World, target: Path, initial: Option<Content>, a: Action)
    requires Invariant(w, target, initial)
    ensures Invariant(Act(w, a), target, initial)
  {
    hide LocksFit, FilesFit, ActOne, AfterKill;
    LocksStep(w, a);
    if a.Kill? {
      KillKeepsFiles(w, target, initial, a.process);
    } else if a.i < |w.commits| {
      OneKeepsFiles(w, target, initial, a.i, a);
    }
  }

  predicate SameTarget(requests: seq<Request>, target: Path) {
    forall i | 0 <= i < |requests| :: requests[i].options.target == target
  }

  lemma {:induction false} EveryRunIsSafe(files: Files, requests: seq<Request>, target: Path, actions: seq<Action>)
    requires SameTarget(requests, target)
    ensures Invariant(Run(files, requests, actions), target, Lookup(files, target))
  {
    hide Invariant, Act;
    if actions == [] {
      InitialIsSafe(files, requests, target);
    } else {
      EveryRunIsSafe(files, requests, target, actions[..|actions| - 1]);
      ActKeepsInvariant(Run(files, requests, actions[..|actions| - 1]), target, Lookup(files, target), actions[|actions| - 1]);
    }
  }

  lemma InitialIsSafe(files: Files, requests: seq<Request>, target: Path)
    requires SameTarget(requests, target)
    ensures Invariant(Initial(files, requests), target, Lookup(files, target))
  {
  }

  // ----- the guarantees

  /** At most one writer of all processes is in the guard, at most one writer holds
      a given mutex, and no process ever has two live mutexes for the target. */
  lemma MutualExclusion(files: Files, requests: seq<Request>, target: Path, actions: seq<Action>, i: nat, j: nat)
    requires SameTarget(requests, target)
    requires i < j < |Run(files, requests, actions).commits|
    ensures var c, d := Run(files, requests, actions).commits[i], Run(files, requests, actions).commits[j];
            && !(InGuard(c.stage) && InGuard(d.stage))
            && (LockedMutex(c.stage).Some? ==> LockedMutex(c.stage) != LockedMutex(d.stage))
            && (Reference(c.stage).Some? && Reference(d.stage).Some? ==>
                  (Reference(c.stage) == Reference(d.stage) <==> c.request.process == d.request.process))
  {
    hide Run, FilesFit;
    EveryRunIsSafe(files, requests, target, actions);
  }

  /** No lost update: each session starts from what the one before it left, and
      changes it only if its token is exactly that; a successful commit replaced
      its expected content by its own; an atomic commit leaves what it found or its
      own content, even if it dies, unless a restore was under way or failed, and then a
      beginning of what it found; which cannot be if it keeps no backup, expects no file
      or one too short, or writes a rejected content. */
  lemma NoLostUpdate(files: Files, requests: seq<Request>, target: Path, actions: seq<Action>, k: nat)
    requires SameTarget(requests, target) && k < |Run(files, requests, actions).log|
    ensures var log := Run(files, requests, actions).log;
            var before := LastReleased(log[..k], Lookup(files, target));
            var s := log[k];
            && s.acquired == before
            && (s.released != before ==> Token(s.request) == before)
            && (s.ok ==> Token(s.request) == before && s.released == Some(s.request.options.content))
            && (s.request.options.atomicReplace ==>
                  || s.released == before || s.released == Some(s.request.options.content)
                  || (s.restoring && !NeverTears(s.request.options, Token(s.request)) && Begins(s.released, before)))
  {
    hide Run, LocksFit, HolderOwnsFiles, Continues;
    EveryRunIsSafe(files, requests, target, actions);
    assert Sound(Run(files, requests, actions).log[k]);
  }

  /** The file outside the guard is what the last session left. */
  lemma FileIsLastReleased(files: Files, requests: seq<Request>, target: Path, actions: seq<Action>)
    requires SameTarget(requests, target) && Run(files, requests, actions).holder.None?
    ensures var w := Run(files, requests, actions); Lookup(w.files, target) == LastReleased(w.log, Lookup(files, target))
  {
    hide Run, LocksFit, HolderOwnsFiles, Chained, AllSound;
    EveryRunIsSafe(files, requests, target, actions);
  }

  /** Of two commits with the same token the second succeeds only if some session
      in between put the expected content back. */
  lemma NoTwoWinners(files: Files, requests: seq<Request>, target: Path, actions: seq<Action>, i: nat, j: nat)
    requires SameTarget(requests, target) && i < j < |Run(files, requests, actions).log|
    requires var log := Run(files, requests, actions).log;
             log[i].ok && log[j].ok && Token(log[i].request) == Token(log[j].request)
    ensures var log := Run(files, requests, actions).log;
            exists k :: i <= k < j && log[k].released == Token(log[i].request)
  {
    hide Run;
    NoLostUpdate(files, requests, target, actions, j);
    assert Run(files, requests, actions).log[..j][j - 1] == Run(files, requests, actions).log[j - 1];
  }

  /** No deadlock: while some writer is not over, some step changes the state. */
  lemma NoDeadlock(files: Files, requests: seq<Request>, target: Path, actions: seq<Action>, i: nat) returns (a: Action)
    requires SameTarget(requests, target) && i < |Run(files, requests, actions).commits|
    requires !Over(Run(files, requests, actions).commits[i].stage)
    ensures !a.Kill? && Act(Run(files, requests, actions), a) != Run(files, requests, actions)
  {
    hide Run, FilesFit, RegistryIsExact;
    EveryRunIsSafe(files, requests, target, actions);
    var w := Run(files, requests, actions);
    var stage := w.commits[i].stage;
    if stage.Begin? {
      a := Check(i, true);
    } else if stage.Prepared? {
      a := Refer(i);
    } else if stage.Releasing? {
      a := Unlock(i);
    } else if stage.Referencing? && stage.mutex !in w.locked {
      a := LockMutex(i);
    } else if stage.Referencing? {
      var j :| 0 <= j < |w.commits| && LockedMutex(w.commits[j].stage) == Some(stage.mutex);
      a := LockedCanStep(w, j);
    } else {
      a := LockedCanStep(w, i);
    }
    StageChanges(w, a);
  }

  predicate Enabled(w: World, a: Action) {
    && !a.Kill? && a.i < |w.commits|
    && var stage := w.commits[a.i].stage;
       match a
       case Check(_, good) => stage.Begin?
       case Refer(_) => stage.Prepared?
       case LockMutex(_) => stage.Referencing? && stage.mutex !in w.locked
       case LockFile(_, good) => stage.Locked? && (!good || w.holder.None?)
       case CheckToken(_, _) => stage.Guarded?
       case Write(_, _) => stage.Writing? && !WriterOf(w.commits[a.i].request.options, stage).stage.Done?
       case Release(_) => stage.Writing? && WriterOf(w.commits[a.i].request.options, stage).stage.Done?
       case Unlock(_) => stage.Releasing?
  }

  lemma StageChanges(w: World, a: Action)
    requires Enabled(w, a)
    ensures Act(w, a) != w
  {
    hide RunWrite, WriterOf, Closing, IsLive, TokenMatches;
    var stage := w.commits[a.i].stage;
    if a.Write? { assert |stage.answers + [a.answer]| != |stage.answers|; }
    assert Act(w, a).commits[a.i].stage != stage;
  }

  /** Whoever has a mutex locked can step, or waits for one who can. */
  lemma LockedCanStep(w: World, j: nat) returns (a: Action)
    requires HolderIsExact(w) && j < |w.commits| && LockedMutex(w.commits[j].stage).Some?
    ensures Enabled(w, a)
  {
    hide RunWrite, WriterOf;
    var stage := w.commits[j].stage;
    if stage.Releasing? {
      a := Unlock(j);
    } else if stage.Locked? && w.holder.None? {
      a := LockFile(j, true);
    } else {
      var h := if stage.Locked? then w.holder.value else j;
      assert InGuard(w.commits[h].stage);
      a := if w.commits[h].stage.Guarded? then CheckToken(h, true)
           else if WriterOf(w.commits[h].request.options, w.commits[h].stage).stage.Done? then Release(h)
           else Write(h, Good);
    }
  }

  // ----- the checks on the token

  predicate IsChecked(c: Commit) {
    c.stage == Begin || c.stage == Finished(false) || c.stage == Crashed || (c.request.validToken && c.request.sameDomain)
  }

  predicate AllChecked(w: World) {
    && (forall i | 0 <= i < |w.commits| :: IsChecked(w.commits[i]))
    && (forall k | 0 <= k < |w.log| :: w.log[k].request.validToken && w.log[k].request.sameDomain)
  }

  lemma ActOneChecks(w: World, i: nat, a: Action)
    requires AllChecked(w) && i < |w.commits|
    ensures AllChecked(ActOne(w, i, a))
  {
    hide RunWrite, Lookup, TokenMatches, IsLive, MutexFor, IsRestoring;
    assert IsChecked(w.commits[i]);
  }

  lemma KillChecks(w: World, process: nat)
    requires AllChecked(w)
    ensures AllChecked(AfterKill(w, process))
  {
    hide RunWrite, Lookup, IsRestoring, LockedBy;
    var h := w.holder;
    if h.Some? && h.value < |w.commits| { assert IsChecked(w.commits[h.value]); }
  }

  /** In every run the lock is given, a session logged and success reported only to
      writers whose token is valid and was captured for this target. */
  lemma {:induction false} OnlyCheckedTokens(files: Files, requests: seq<Request>, actions: seq<Action>)
    ensures var w := Run(files, requests, actions);
            && (forall k | 0 <= k < |w.log| :: w.log[k].request.validToken && w.log[k].request.sameDomain)
            && forall i | 0 <= i < |w.commits| ::
                 w.commits[i].stage in {Begin, Finished(false), Crashed} || (w.commits[i].request.validToken && w.commits[i].request.sameDomain)
    ensures AllChecked(Run(files, requests, actions))
  {
    hide ActOne, AfterKill;
    if actions != [] {
      var before, a := Run(files, requests, actions[..|actions| - 1]), actions[|actions| - 1];
      OnlyCheckedTokens(files, requests, actions[..|actions| - 1]);
      if a.Kill? { KillChecks(before, a.process); } else if a.i < |before.commits| { ActOneChecks(before, a.i, a); }
    }
  }
}
