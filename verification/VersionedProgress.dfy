/** Progress of versioned commits: whenever the lock is free, a writer that has not
    begun and whose token is what the file holds can go on to succeed. */
module VersionedProgress {
  import opened Prelude
  import opened DurableWrite
  import opened DurableWriteSafety
  import opened VersionedCommit

  function Acts(w: World, actions: seq<Action>): World {
    if actions == [] then w else Act(Acts(w, actions[..|actions| - 1]), actions[|actions| - 1])
  }

  lemma {:induction false} ActsTogether(w: World, a: seq<Action>, b: seq<Action>)
    ensures Acts(w, a + b) == Acts(Acts(w, a), b)
    decreases |b|
  {
    hide Act;
    if b == [] {
      assert a + b == a;
    } else {
      var n := |b| - 1;
      assert (a + b)[..|a + b| - 1] == a + b[..n];
      ActsTogether(w, a, b[..n]);
    }
  }

  lemma {:induction false} RunThenActs(files: Files, requests: seq<Request>, actions: seq<Action>, more: seq<Action>)
    ensures Run(files, requests, actions + more) == Acts(Run(files, requests, actions), more)
    decreases |more|
  {
    hide Act;
    if more == [] {
      assert actions + more == actions;
    } else {
      var n := |more| - 1;
      assert (actions + more)[..|actions + more| - 1] == actions + more[..n];
      RunThenActs(files, requests, actions, more[..n]);
    }
  }

  lemma OneAct(w: World, a: Action)
    ensures Acts(w, [a]) == Act(w, a)
  {
    assert [a][..0] == [];
  }

  predicate NoKill(actions: seq<Action>) {
    forall k | 0 <= k < |actions| :: !actions[k].Kill?
  }

  /** Writer i has the lock and its write has had these answers. */
  predicate Writes(w: World, i: nat, m: nat, found: Files, answers: seq<Answer>) {
    && i < |w.commits| && w.commits[i].stage.Writing? && w.commits[i].stage.mutex == m && w.commits[i].stage.found == found
    && var o := w.commits[i].request.options;
       && RunWrite(o, found, w.commits[i].stage.answers) == RunWrite(o, found, answers)
       && w.files == RunWrite(o, found, answers).1
  }

  lemma WriteOne(w: World, i: nat, m: nat, found: Files, answers: seq<Answer>, a: Answer)
    requires Writes(w, i, m, found, answers)
    ensures var v := Act(w, Write(i, a));
            Writes(v, i, m, found, answers + [a]) && v.log == w.log && v.commits[i].request == w.commits[i].request
  {
    hide RunWrite, WriteStep;
    var c := w.commits[i];
    RunOneMore(c.request.options, found, answers, a);
    RunOneMore(c.request.options, found, c.stage.answers, a);
    if WriterOf(c.request.options, c.stage).stage.Done? { DoneStays(c.request.options, RunWrite(c.request.options, found, answers).0, w.files, a); }
  }

  lemma DoneStays(o: Options, w: Writer, fs: Files, a: Answer)
    requires w.stage.Done?
    ensures WriteStep(o, w, fs, a) == (w, fs)
  {
  }

  /** The writer makes the calls of a write. */
  lemma {:induction false} WriteAll(w: World, i: nat, m: nat, found: Files, answers: seq<Answer>) returns (actions: seq<Action>)
    requires Writes(w, i, m, found, [])
    ensures var v := Acts(w, actions);
            Writes(v, i, m, found, answers) && NoKill(actions) && v.log == w.log && v.commits[i].request == w.commits[i].request
    decreases |answers|
  {
    hide Act, Writes;
    if answers == [] {
      actions := [];
    } else {
      var n := |answers| - 1;
      var before := WriteAll(w, i, m, found, answers[..n]);
      WriteOne(Acts(w, before), i, m, found, answers[..n], answers[n]);
      OneAct(Acts(w, before), Write(i, answers[n]));
      ActsTogether(w, before, [Write(i, answers[n])]);
      assert answers[..n] + [answers[n]] == answers;
      actions := before + [Write(i, answers[n])];
    }
  }

  /** While nobody is in the guard, a mutex that is wanted can be freed: its owner fails
      to lock the file, or unlocks. */
  lemma FreeMutex(w: World, i: nat) returns (actions: seq<Action>)
    requires LocksFit(w) && w.holder.None? && i < |w.commits| && w.commits[i].stage.Referencing?
    ensures var v := Acts(w, actions);
            && NoKill(actions) && i < |v.commits| && v.commits[i] == w.commits[i] && v.commits[i].stage.mutex !in v.locked
            && v.holder.None? && v.files == w.files && v.log == w.log
  {
    hide RegistryIsExact, RunWrite;
    var m := w.commits[i].stage.mutex;
    if m in w.locked {
      var j :| 0 <= j < |w.commits| && LockedMutex(w.commits[j].stage) == Some(m);
      assert !InGuard(w.commits[j].stage) && j != i;
      var a := if w.commits[j].stage.Locked? then LockFile(j, false) else Unlock(j);
      actions := [a];
      OneAct(w, a);
    } else {
      actions := [];
    }
  }

  /** From the mutex to the lock and the check of the token. */
  lemma TakeGuard(w: World, i: nat) returns (actions: seq<Action>)
    requires i < |w.commits| && w.commits[i].stage.Referencing? && w.commits[i].stage.mutex !in w.locked && w.holder.None?
    requires var r := w.commits[i].request; Token(r) == Lookup(w.files, r.options.target)
    ensures var v := Acts(w, actions);
            NoKill(actions) && Writes(v, i, w.commits[i].stage.mutex, w.files, []) && v.log == w.log
            && v.commits[i].request == w.commits[i].request
  {
    hide RunWrite, Lookup;
    var w1 := Act(w, LockMutex(i));
    var w2 := Act(w1, LockFile(i, true));
    var w3 := Act(w2, CheckToken(i, true));
    RunNothing(w.commits[i].request.options, w.files);
    assert w1.commits[i].stage == Locked(w.commits[i].stage.mutex);
    assert w2.commits[i].stage == Guarded(w.commits[i].stage.mutex, w.files);
    assert TokenMatches(w.commits[i].request, Lookup(w2.files, w.commits[i].request.options.target), true) by { Matches(w.commits[i].request, w.files); }
    actions := [LockMutex(i), LockFile(i, true), CheckToken(i, true)];
    ThreeActs(w, LockMutex(i), LockFile(i, true), CheckToken(i, true));
  }

  lemma Matches(r: Request, files: Files)
    requires Token(r) == Lookup(files, r.options.target)
    ensures TokenMatches(r, Lookup(files, r.options.target), true)
  {
  }

  lemma TwoActs(w: World, a: Action, b: Action)
    ensures Acts(w, [a, b]) == Act(Act(w, a), b)
  {
    hide Act;
    assert [a] + [b] == [a, b];
    ActsTogether(w, [a], [b]);
    OneAct(w, a);
    OneAct(Act(w, a), b);
  }

  lemma ThreeActs(w: World, a: Action, b: Action, c: Action)
    ensures Acts(w, [a, b, c]) == Act(Act(Act(w, a), b), c)
  {
    hide Act;
    assert [a, b] + [c] == [a, b, c];
    ActsTogether(w, [a, b], [c]);
    TwoActs(w, a, b);
    OneAct(Act(Act(w, a), b), c);
  }

  /** The end of a write that succeeded. */
  lemma GiveUpGuard(w: World, i: nat, m: nat, found: Files, answers: seq<Answer>)
    requires Writes(w, i, m, found, answers)
    requires var (x, fs) := RunWrite(w.commits[i].request.options, found, answers); x.stage.Done? && x.report.ok
    ensures var v := Acts(w, [Release(i), Unlock(i)]);
            && i < |v.commits| && v.commits[i].stage == Finished(true) && v.files == w.files
            && |v.log| == |w.log| + 1 && v.log[|w.log|].ok && v.log[|w.log|].request == w.commits[i].request
  {
    hide RunWrite, Lookup;
    TwoActs(w, Release(i), Unlock(i));
    var v := Act(w, Release(i));
    assert v.commits[i].stage == Releasing(m, true);
  }

  /** Progress: in every reachable world with a free lock, a writer that has not begun,
      whose token is valid, of this target and what the file holds, and whose content is
      not rejected can succeed: some steps, without any death, end with its content in
      the file, in either mode. In atomic mode a name for the temporary file must be free. */
  lemma CommitCanSucceed(files: Files, requests: seq<Request>, target: Path, actions: seq<Action>, i: nat) returns (more: seq<Action>)
    requires SameTarget(requests, target) && i < |Run(files, requests, actions).commits|
    requires var w := Run(files, requests, actions);
             var r := w.commits[i].request;
             && w.holder.None? && w.commits[i].stage.Begin? && r.validToken && r.sameDomain && r.options.target == target
             && Token(r) == Lookup(w.files, target)
             && !IsRejected(r.options) && (r.options.atomicReplace ==> HasTempName(r.options, w.files))
    ensures var w, v := Run(files, requests, actions), Run(files, requests, actions + more);
            && NoKill(more) && i < |v.commits| && v.commits[i].stage == Finished(true)
            && Lookup(v.files, target) == Some(w.commits[i].request.options.content)
            && |v.log| == |w.log| + 1 && v.log[|w.log|].ok && v.log[|w.log|].request == w.commits[i].request
  {
    hide Run, RunWrite, Invariant, Writes, HasTempName, IsRejected, Acts, Act, Lookup;
    var w := Run(files, requests, actions);
    var r := w.commits[i].request;
    var first := [Check(i, true), Refer(i)];
    var w1 := Acts(w, first);
    ReachMutex(w, i);
    RunThenActs(files, requests, actions, first);
    EveryRunIsSafe(files, requests, target, actions + first);
    assert LocksFit(w1) by { LocksOf(w1, target, Lookup(files, target)); }
    var second := FreeMutex(w1, i);
    var w2 := Acts(w1, second);
    var third := TakeGuard(w2, i);
    var w3 := Acts(w2, third);
    var m := w2.commits[i].stage.mutex;
    var answers := SomeRunSucceeds(r.options, w.files);
    var fourth := WriteAll(w3, i, m, w.files, answers);
    var w4 := Acts(w3, fourth);
    SuccessIsDone(r.options, w.files, answers);
    WritesFiles(w4, i, m, w.files, answers);
    var fifth := [Release(i), Unlock(i)];
    GiveUpGuard(w4, i, m, w.files, answers);
    more := first + second + third + fourth + fifth;
    ActsTogether(w, first, second);
    ActsTogether(w, first + second, third);
    ActsTogether(w, first + second + third, fourth);
    ActsTogether(w, first + second + third + fourth, fifth);
    RunThenActs(files, requests, actions, more);
  }

  lemma ReachMutex(w: World, i: nat)
    requires i < |w.commits| && w.commits[i].stage.Begin? && w.commits[i].request.validToken && w.commits[i].request.sameDomain
    ensures var v := Acts(w, [Check(i, true), Refer(i)]);
            && |v.commits| == |w.commits| && v.commits[i].stage.Referencing? && v.commits[i].request == w.commits[i].request
            && v.holder == w.holder && v.files == w.files && v.log == w.log
  {
    hide IsLive, MutexFor;
    TwoActs(w, Check(i, true), Refer(i));
    var v := Act(w, Check(i, true));
    assert v.commits[i].stage == Prepared;
  }

  lemma LocksOf(w: World, target: Path, initial: Option<Content>)
    requires Invariant(w, target, initial)
    ensures LocksFit(w)
  {
  }

  lemma SuccessIsDone(o: Options, fs0: Files, answers: seq<Answer>)
    requires RunWrite(o, fs0, answers).0.report.ok
    ensures var (w, fs) := RunWrite(o, fs0, answers); w.stage.Done? && Lookup(fs, o.target) == Some(o.content)
  {
    hide RunWrite, TempFits, FrameFits, BackupFits, ValidFits;
    RunKeeps(o, fs0, answers);
  }

  lemma WritesFiles(w: World, i: nat, m: nat, found: Files, answers: seq<Answer>)
    requires Writes(w, i, m, found, answers)
    ensures w.files == RunWrite(w.commits[i].request.options, found, answers).1
  {
    hide RunWrite;
  }
}
