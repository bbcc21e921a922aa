/** What a write that is over has done on its way: it flushed what it wrote if it is to be
    durable, removed its temporary file, and tried to restore a backup. */
module DurableWriteOrder {
  import opened Prelude
  import opened DurableWrite
  import opened DurableWriteSafety

  /** The writer and the files before answer k. */
  function Before(o: Options, fs0: Files, answers: seq<Answer>, k: nat): (Writer, Files)
    requires k <= |answers|
  {
    RunWrite(o, fs0, answers[..k])
  }

  lemma BeforeStays(o: Options, fs0: Files, answers: seq<Answer>, k: nat)
    requires k < |answers|
    ensures Before(o, fs0, answers, k) == Before(o, fs0, answers[..|answers| - 1], k)
  {
    assert answers[..|answers| - 1][..k] == answers[..k];
  }

  lemma LastStep(o: Options, fs0: Files, answers: seq<Answer>)
    requires answers != []
    ensures var n := |answers| - 1;
            var (w, fs) := Before(o, fs0, answers, n);
            RunWrite(o, fs0, answers) == WriteStep(o, w, fs, answers[n]) && (w, fs) == RunWrite(o, fs0, answers[..n])
  {
  }

  // ----- flushes

  /** Call k is a flush that succeeds, of a file that holds the whole content. */
  predicate FlushesFile(o: Options, fs0: Files, answers: seq<Answer>, k: nat)
    requires k < |answers|
  {
    var (w, fs) := Before(o, fs0, answers, k);
    && answers[k].Good?
    && (if o.atomicReplace then w.stage.FlushTemp? && w.report.tempPath.Some? && Lookup(fs, w.report.tempPath.value) == Some(o.content)
        else w.stage.FlushDirect? && Now(o, fs) == Some(o.content))
  }

  /** Call k is a flush of the directory that succeeds, with the content in the target. */
  predicate FlushesParent(o: Options, fs0: Files, answers: seq<Answer>, k: nat)
    requires k < |answers|
  {
    var (w, fs) := Before(o, fs0, answers, k);
    answers[k].Good? && (if o.atomicReplace then w.stage.FlushParent? else w.stage.FlushNewParent?) && Now(o, fs) == Some(o.content)
  }

  ghost predicate FileFlushed(o: Options, fs0: Files, answers: seq<Answer>) {
    exists k | 0 <= k < |answers| :: FlushesFile(o, fs0, answers, k)
  }

  ghost predicate ParentFlushed(o: Options, fs0: Files, answers: seq<Answer>) {
    exists k | 0 <= k < |answers| :: FlushesParent(o, fs0, answers, k)
  }

  /** The stages behind the flush of the file. */
  predicate PastFlush(o: Options, w: Writer) {
    if o.atomicReplace then
      !(w.stage.Prepare? || w.stage.OpenTemp? || w.stage.WriteTemp? || w.stage.FlushTemp? || w.stage.AbortTemp? || w.stage.DropTemp? || w.stage.Done?)
      || (w.stage.Done? && w.report.ok)
    else w.stage.CloseDirect? || PastParent(o, w) || w.stage.FlushNewParent?
  }

  /** The stages behind the flush of the directory. */
  predicate PastParent(o: Options, w: Writer) {
    || w.stage.ReadBack? || w.stage.RestoreReadback? || (w.stage.Done? && w.report.ok)
    || (!o.atomicReplace && (w.stage.Validate? || w.stage.RestoreInvalid?))
  }

  /** A file is taken to exist only if it did at the start. */
  predicate KnowsExisting(o: Options, fs0: Files, w: Writer) {
    (w.report.ok ==> w.stage.Done?) &&
    match w.stage
    case OpenDirect(existed) => existed ==> Old(o, fs0).Some?
    case WriteDirect(existed, _) => existed ==> Old(o, fs0).Some?
    case FlushDirect(existed) => existed ==> Old(o, fs0).Some?
    case CloseDirect(existed) => existed ==> Old(o, fs0).Some?
    case _ => true
  }

  /** Only a flush that succeeds leads behind the flushes. */
  predicate FlushFits(o: Options, fs0: Files, w: Writer, v: Writer, a: Answer) {
    && KnowsExisting(o, fs0, v)
    && (PastFlush(o, v) && !PastFlush(o, w) ==> a.Good? && if o.atomicReplace then w.stage.FlushTemp? else w.stage.FlushDirect?)
    && (PastParent(o, v) && !PastParent(o, w) && (o.atomicReplace || Old(o, fs0).None?) ==>
          a.Good? && if o.atomicReplace then w.stage.FlushParent? else w.stage.FlushNewParent?)
  }

  lemma FlushStep(o: Options, fs0: Files, w: Writer, fs: Files, a: Answer)
    requires Inv(o, fs0, w, fs) && o.durable && KnowsExisting(o, fs0, w)
    ensures FlushFits(o, fs0, w, WriteStep(o, w, fs, a).0, a)
  {
    hide TempFits, ValidFits, FrameFits, BackupFits, FlushFits, KnowsExisting;
    hide PrepareStep, TempStep, DirectStep, CheckStep, InstallStep;
    match PhaseOf(w.stage) {
      case Preparing => PrepareFlush(o, fs0, w, fs, a);
      case InTemp => TempFlush(o, fs0, w, fs, a);
      case InTarget => DirectFlush(o, fs0, w, fs, a);
      case Checking => CheckFlush(o, fs0, w, fs, a);
      case Installing => InstallFlush(o, fs0, w, fs, a);
      case Over => OverFlush(o, fs0, w, a);
    }
  }

  lemma OverFlush(o: Options, fs0: Files, w: Writer, a: Answer)
    requires KnowsExisting(o, fs0, w) && w.stage.Done?
    ensures FlushFits(o, fs0, w, w, a)
  {
  }

  lemma PrepareFlush(o: Options, fs0: Files, w: Writer, fs: Files, a: Answer)
    requires KnowsExisting(o, fs0, w) && o.durable && PhaseOf(w.stage) == Preparing && StageFits(o, w)
    ensures FlushFits(o, fs0, w, PrepareStep(o, w, fs, a).0, a)
  {
    hide BackupOf, Copied;
  }

  lemma TempFlush(o: Options, fs0: Files, w: Writer, fs: Files, a: Answer)
    requires KnowsExisting(o, fs0, w) && o.durable && PhaseOf(w.stage) == InTemp && o.atomicReplace
    ensures FlushFits(o, fs0, w, TempStep(o, w, fs, a).0, a)
  {
    hide TempName;
  }

  lemma DirectFlush(o: Options, fs0: Files, w: Writer, fs: Files, a: Answer)
    requires KnowsExisting(o, fs0, w) && o.durable && PhaseOf(w.stage) == InTarget && StageFits(o, w) && TargetFits(o, fs0, w, fs)
    requires w.stage.AbortDirect? ==> !o.atomicReplace
    ensures FlushFits(o, fs0, w, DirectStep(o, w, fs, a).0, a)
  {
    hide FailureMeans;
  }

  lemma CheckFlush(o: Options, fs0: Files, w: Writer, fs: Files, a: Answer)
    requires KnowsExisting(o, fs0, w) && o.durable && PhaseOf(w.stage) == Checking
    ensures FlushFits(o, fs0, w, CheckStep(o, w, fs, a).0, a)
  {
    hide BackupOf, Copied;
  }

  lemma InstallFlush(o: Options, fs0: Files, w: Writer, fs: Files, a: Answer)
    requires KnowsExisting(o, fs0, w) && o.durable && PhaseOf(w.stage) == Installing && StageFits(o, w)
    ensures FlushFits(o, fs0, w, InstallStep(o, w, fs, a).0, a)
  {
    hide BackupOf, Copied;
  }

  lemma FlushedContent(o: Options, fs0: Files, w: Writer, fs: Files)
    requires Inv(o, fs0, w, fs)
    ensures w.stage.FlushTemp? ==> w.report.tempPath.Some? && Lookup(fs, w.report.tempPath.value) == Some(o.content)
    ensures w.stage.FlushDirect? || w.stage.FlushParent? || w.stage.FlushNewParent? ==> Now(o, fs) == Some(o.content)
  {
    hide ValidFits, FrameFits, BackupFits;
  }

  lemma {:induction false} FlushedBefore(o: Options, fs0: Files, answers: seq<Answer>)
    requires o.durable
    ensures var w := RunWrite(o, fs0, answers).0;
            && KnowsExisting(o, fs0, w)
            && (PastFlush(o, w) ==> FileFlushed(o, fs0, answers))
            && (PastParent(o, w) && (o.atomicReplace || Old(o, fs0).None?) ==> ParentFlushed(o, fs0, answers))
  {
    hide Inv, WriteStep, PastFlush, PastParent, KnowsExisting, FlushesFile, FlushesParent;
    if answers == [] {
      NothingIsPast(o, fs0);
    } else {
      var n := |answers| - 1;
      var before := answers[..n];
      var (w, fs) := RunWrite(o, fs0, before);
      LastStep(o, fs0, answers);
      FlushedBefore(o, fs0, before);
      RunKeeps(o, fs0, before);
      FlushStep(o, fs0, w, fs, answers[n]);
      FlushedContent(o, fs0, w, fs);
      FlushIsLast(o, fs0, answers);
      forall k | 0 <= k < n ensures (FlushesFile(o, fs0, before, k) ==> FlushesFile(o, fs0, answers, k))
                                    && (FlushesParent(o, fs0, before, k) ==> FlushesParent(o, fs0, answers, k))
      {
        FlushStays(o, fs0, answers, k);
      }
    }
  }

  lemma NothingIsPast(o: Options, fs0: Files)
    ensures var w := RunWrite(o, fs0, []).0; KnowsExisting(o, fs0, w) && !PastFlush(o, w) && !PastParent(o, w)
  {
  }

  lemma FlushStays(o: Options, fs0: Files, answers: seq<Answer>, k: nat)
    requires k < |answers| - 1
    ensures FlushesFile(o, fs0, answers[..|answers| - 1], k) <==> FlushesFile(o, fs0, answers, k)
    ensures FlushesParent(o, fs0, answers[..|answers| - 1], k) <==> FlushesParent(o, fs0, answers, k)
  {
    hide RunWrite;
    BeforeStays(o, fs0, answers, k);
  }

  lemma FlushIsLast(o: Options, fs0: Files, answers: seq<Answer>)
    requires answers != []
    ensures var n := |answers| - 1;
            var (w, fs) := RunWrite(o, fs0, answers[..n]);
            && (FlushesFile(o, fs0, answers, n) <==>
                  && answers[n].Good?
                  && if o.atomicReplace then w.stage.FlushTemp? && w.report.tempPath.Some? && Lookup(fs, w.report.tempPath.value) == Some(o.content)
                     else w.stage.FlushDirect? && Now(o, fs) == Some(o.content))
            && (FlushesParent(o, fs0, answers, n) <==>
                  answers[n].Good? && (if o.atomicReplace then w.stage.FlushParent? else w.stage.FlushNewParent?) && Now(o, fs) == Some(o.content))
  {
    hide RunWrite;
  }

  /** A durable write that succeeds has flushed a file that held the whole content, and
      the directory once the content was in the target: always in atomic mode, in direct
      mode for a new file. */
  lemma DurableIsFlushed(o: Options, fs0: Files, answers: seq<Answer>)
    requires o.durable && RunWrite(o, fs0, answers).0.report.ok
    ensures FileFlushed(o, fs0, answers)
    ensures o.atomicReplace || o.target !in fs0 ==> ParentFlushed(o, fs0, answers)
  {
    hide RunWrite, FileFlushed, ParentFlushed;
    FlushedBefore(o, fs0, answers);
  }

  // ----- the temporary file

  /** Call k fails to remove the temporary file. */
  predicate FailsToRemove(o: Options, fs0: Files, answers: seq<Answer>, k: nat)
    requires k < |answers|
  {
    var stage := Before(o, fs0, answers, k).0.stage;
    (stage.DropTemp? || stage.RemoveInvalid?) && !answers[k].Good?
  }

  predicate HasTemp(w: Writer, fs: Files) {
    w.report.tempPath.Some? && w.report.tempPath.value in fs
  }

  /** A step that ends the write with the temporary file there has failed to remove it. */
  predicate TempOut(w: Writer, v: Writer, gs: Files, a: Answer) {
    v.stage.Done? && HasTemp(v, gs) ==> (w.stage.DropTemp? || w.stage.RemoveInvalid?) && !a.Good?
  }

  lemma TempStaysOut(o: Options, fs0: Files, w: Writer, fs: Files, a: Answer)
    requires Inv(o, fs0, w, fs) && !w.stage.Done?
    ensures var (v, gs) := WriteStep(o, w, fs, a); TempOut(w, v, gs, a)
  {
    hide ValidFits, FrameFits, BackupFits, TargetFits, TempOut;
    hide PrepareStep, TempStep, DirectStep, CheckStep, InstallStep;
    if w.report.tempPath.Some? { TempIsNoOther(o, w, fs0, fs); }
    match PhaseOf(w.stage) {
      case Preparing => PrepareTempOut(o, fs0, w, fs, a);
      case InTemp => TempTempOut(o, fs0, w, fs, a);
      case InTarget => DirectTempOut(o, fs0, w, fs, a);
      case Checking => CheckTempOut(o, fs0, w, fs, a);
      case Installing => InstallTempOut(o, fs0, w, fs, a);
    }
  }

  lemma PrepareTempOut(o: Options, fs0: Files, w: Writer, fs: Files, a: Answer)
    requires TempFits(o, fs0, w, fs) && PhaseOf(w.stage) == Preparing
    ensures var (v, gs) := PrepareStep(o, w, fs, a); TempOut(w, v, gs, a)
  {
    hide BackupOf, Copied, IsTempName;
  }

  lemma TempTempOut(o: Options, fs0: Files, w: Writer, fs: Files, a: Answer)
    requires TempFits(o, fs0, w, fs) && PhaseOf(w.stage) == InTemp
    ensures var (v, gs) := TempStep(o, w, fs, a); TempOut(w, v, gs, a)
  {
    hide TempName, IsTempName;
  }

  lemma DirectTempOut(o: Options, fs0: Files, w: Writer, fs: Files, a: Answer)
    requires TempFits(o, fs0, w, fs) && PhaseOf(w.stage) == InTarget
    ensures var (v, gs) := DirectStep(o, w, fs, a); TempOut(w, v, gs, a)
  {
    hide IsTempName;
  }

  lemma CheckTempOut(o: Options, fs0: Files, w: Writer, fs: Files, a: Answer)
    requires TempFits(o, fs0, w, fs) && StageFits(o, w) && DiagnosticsFit(o, w) && PhaseOf(w.stage) == Checking
    ensures var (v, gs) := CheckStep(o, w, fs, a); TempOut(w, v, gs, a)
  {
    hide BackupOf, Copied, IsTempName;
  }

  lemma InstallTempOut(o: Options, fs0: Files, w: Writer, fs: Files, a: Answer)
    requires TempFits(o, fs0, w, fs) && PhaseOf(w.stage) == Installing
    requires w.report.tempPath.Some? ==> w.report.tempPath.value != o.target && w.report.tempPath.value != BackupOf(o)
    ensures var (v, gs) := InstallStep(o, w, fs, a); TempOut(w, v, gs, a)
  {
    hide BackupOf, IsTempName, TempName;
  }

  lemma TempIsNoOther(o: Options, w: Writer, fs0: Files, fs: Files)
    requires Inv(o, fs0, w, fs) && w.report.tempPath.Some?
    ensures w.report.tempPath.value != o.target && w.report.tempPath.value != BackupOf(o)
  {
    hide ValidFits, FrameFits, BackupFits, StageFits, DiagnosticsFit, TargetFits;
    var suffix :| |suffix| == 6 && w.report.tempPath.value == TempName(o, suffix);
    assert |TempName(o, suffix)| == |o.target| + 11 && |BackupOf(o)| == |o.target| + 4;
  }

  /** A write that is over has left its temporary file only if removing it failed. */
  lemma {:induction false} TempIsLeftOnlyIfStuck(o: Options, fs0: Files, answers: seq<Answer>)
    ensures var (w, fs) := RunWrite(o, fs0, answers);
            w.stage.Done? && HasTemp(w, fs) ==> exists k | 0 <= k < |answers| :: FailsToRemove(o, fs0, answers, k)
  {
    hide Inv, WriteStep, FailsToRemove, HasTemp;
    if answers != [] {
      var n := |answers| - 1;
      var before := answers[..n];
      var (w, fs) := RunWrite(o, fs0, before);
      LastStep(o, fs0, answers);
      TempIsLeftOnlyIfStuck(o, fs0, before);
      RunKeeps(o, fs0, before);
      if !w.stage.Done? { TempStaysOut(o, fs0, w, fs, answers[n]); } else { OverStays(o, w, fs, answers[n]); }
      RemovalStays(o, fs0, answers);
    }
  }

  lemma OverStays(o: Options, w: Writer, fs: Files, a: Answer)
    requires w.stage.Done?
    ensures WriteStep(o, w, fs, a) == (w, fs)
  {
  }

  lemma RemovalStays(o: Options, fs0: Files, answers: seq<Answer>)
    requires answers != []
    ensures var n := |answers| - 1;
            var stage := RunWrite(o, fs0, answers[..n]).0.stage;
            && (FailsToRemove(o, fs0, answers, n) <==> (stage.DropTemp? || stage.RemoveInvalid?) && !answers[n].Good?)
            && forall k | 0 <= k < n :: FailsToRemove(o, fs0, answers[..n], k) <==> FailsToRemove(o, fs0, answers, k)
  {
    hide RunWrite;
    forall k | 0 <= k < |answers| - 1 ensures FailsToRemove(o, fs0, answers[..|answers| - 1], k) <==> FailsToRemove(o, fs0, answers, k) {
      BeforeStays(o, fs0, answers, k);
    }
  }

  // ----- the backup

  predicate IsCheckFailure(code: Code) {
    code == ValidationFailed || code == ReadbackFailed || code == ReadbackMismatch
  }

  /** The last diagnostic. */
  function Latest(w: Writer): Option<Code> {
    var ds := w.report.diagnostics;
    if ds == [] then None else Some(ds[|ds| - 1])
  }

  lemma LatestOfNoting(w: Writer, code: Code, stage: Stage)
    ensures Latest(Noting(w, code, stage)) == Some(code)
  {
  }

  /** A write that ends with a failed check and nothing after it had no backup. */
  predicate HasTriedRestore(o: Options, w: Writer) {
    var last := Latest(w);
    && (w.stage.Done? && last.Some? && IsCheckFailure(last.value) ==>
          w.report.backupPath.None? && (last.value == ValidationFailed ==> !o.atomicReplace))
    && (w.stage.AbortTemp? || w.stage.DropTemp? || w.stage.AbortDirect? ==> last.Some? && !IsCheckFailure(last.value))
  }

  lemma RestoreStep(o: Options, w: Writer, fs: Files, a: Answer)
    requires DiagnosticsFit(o, w) && HasTriedRestore(o, w)
    ensures HasTriedRestore(o, WriteStep(o, w, fs, a).0)
  {
    hide DiagnosticsFit, HasTriedRestore, PrepareStep, TempStep, DirectStep, CheckStep, InstallStep;
    match PhaseOf(w.stage) {
      case Preparing => PrepareTried(o, w, fs, a);
      case InTemp => TempTried(o, w, fs, a);
      case InTarget => DirectTried(o, w, fs, a);
      case Checking => CheckTried(o, w, fs, a);
      case Installing => InstallTried(o, w, fs, a);
      case Over =>
    }
  }

  /** What is not noted leaves the last diagnostic. */
  lemma SameLatest(w: Writer)
    ensures forall v: Writer | v.report.diagnostics == w.report.diagnostics :: Latest(v) == Latest(w)
    ensures forall v: Writer, u: Writer | v.report.diagnostics == u.report.diagnostics :: Latest(v) == Latest(u)
  {
  }

  lemma PrepareTried(o: Options, w: Writer, fs: Files, a: Answer)
    requires DiagnosticsFit(o, w) && HasTriedRestore(o, w) && PhaseOf(w.stage) == Preparing
    ensures HasTriedRestore(o, PrepareStep(o, w, fs, a).0)
  {
    hide BackupOf, Copied, Latest;
    forall code: Code, stage: Stage ensures Latest(Noting(w, code, stage)) == Some(code) { LatestOfNoting(w, code, stage); }
    SameLatest(w);
  }

  lemma TempTried(o: Options, w: Writer, fs: Files, a: Answer)
    requires DiagnosticsFit(o, w) && HasTriedRestore(o, w) && PhaseOf(w.stage) == InTemp
    ensures HasTriedRestore(o, TempStep(o, w, fs, a).0)
  {
    hide TempName, Latest;
    forall code: Code, stage: Stage ensures Latest(Noting(w, code, stage)) == Some(code) { LatestOfNoting(w, code, stage); }
    SameLatest(w);
  }

  lemma DirectTried(o: Options, w: Writer, fs: Files, a: Answer)
    requires DiagnosticsFit(o, w) && HasTriedRestore(o, w) && PhaseOf(w.stage) == InTarget
    ensures HasTriedRestore(o, DirectStep(o, w, fs, a).0)
  {
    hide Latest;
    forall code: Code, stage: Stage ensures Latest(Noting(w, code, stage)) == Some(code) { LatestOfNoting(w, code, stage); }
    SameLatest(w);
  }

  lemma CheckTried(o: Options, w: Writer, fs: Files, a: Answer)
    requires DiagnosticsFit(o, w) && HasTriedRestore(o, w) && PhaseOf(w.stage) == Checking
    ensures HasTriedRestore(o, CheckStep(o, w, fs, a).0)
  {
    hide BackupOf, Copied, Latest;
    forall code: Code, stage: Stage ensures Latest(Noting(w, code, stage)) == Some(code) { LatestOfNoting(w, code, stage); }
    SameLatest(w);
  }

  lemma InstallTried(o: Options, w: Writer, fs: Files, a: Answer)
    requires DiagnosticsFit(o, w) && HasTriedRestore(o, w) && PhaseOf(w.stage) == Installing
    ensures HasTriedRestore(o, InstallStep(o, w, fs, a).0)
  {
    hide BackupOf, Copied, Latest;
    forall code: Code, stage: Stage ensures Latest(Noting(w, code, stage)) == Some(code) { LatestOfNoting(w, code, stage); }
    SameLatest(w);
  }

  lemma {:induction false} RestoreIsTried(o: Options, fs0: Files, answers: seq<Answer>)
    ensures HasTriedRestore(o, RunWrite(o, fs0, answers).0)
  {
    hide Inv, WriteStep, HasTriedRestore;
    if answers == [] {
      NothingTried(o, fs0);
    } else {
      var before := answers[..|answers| - 1];
      RestoreIsTried(o, fs0, before);
      RunKeeps(o, fs0, before);
      FitsOf(o, fs0, RunWrite(o, fs0, before).0, RunWrite(o, fs0, before).1);
      RestoreStep(o, RunWrite(o, fs0, before).0, RunWrite(o, fs0, before).1, answers[|answers| - 1]);
    }
  }

  lemma FitsOf(o: Options, fs0: Files, w: Writer, fs: Files)
    requires Inv(o, fs0, w, fs)
    ensures DiagnosticsFit(o, w)
  {
  }

  lemma NothingTried(o: Options, fs0: Files)
    ensures HasTriedRestore(o, RunWrite(o, fs0, []).0)
  {
  }

  /** The names of the files a write makes: six characters behind the target's name and
      ".tmp.", free before, and the target's name with ".bak". */
  lemma NamesAre(o: Options, fs0: Files, answers: seq<Answer>)
    ensures var r := RunWrite(o, fs0, answers).0.report;
            && (r.backupPath.Some? ==> r.backupPath.value == o.target + ".bak" && o.keepBackup)
            && (r.tempPath.Some? ==>
                  && o.atomicReplace && |r.tempPath.value| == |o.target| + 11 && o.target + ".tmp." <= r.tempPath.value
                  && r.tempPath.value !in fs0)
  {
    hide RunWrite, ValidFits, FrameFits, StageFits, DiagnosticsFit, TargetFits;
    RunKeeps(o, fs0, answers);
  }
}
