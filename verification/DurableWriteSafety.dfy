/** What the write protocol guarantees at every step of every run. */
module DurableWriteSafety {
  import opened Prelude
  import opened DurableWrite

  function Old(o: Options, fs0: Files): Option<Content> {
    Lookup(fs0, o.target)
  }

  function Now(o: Options, fs: Files): Option<Content> {
    Lookup(fs, o.target)
  }

  /** What a failure tells about the target, by the first and the last diagnostic. */
  ghost predicate Tells(o: Options, was: Option<Content>, first: Code, last: Code, now: Option<Content>) {
    match first
    case WriteOk => false
    case WriteFailed => !o.atomicReplace
    case DurableFlushFailed => now == if o.atomicReplace then was else Some(o.content)
    case CloseFailed => !o.atomicReplace && now == Some(o.content)
    case ParentFlushFailed => now == Some(o.content)
    case ValidationFailed => o.atomicReplace || last == BackupRestored ==> now == was
    case ReadbackFailed | ReadbackMismatch =>
      if last == BackupRestoredAfterReadback then now == was
      else last == BackupRestoreFailed || !(o.atomicReplace || o.durable) || now == Some(o.content)
    case _ => now == was
  }

  ghost predicate FailureMeans(o: Options, was: Option<Content>, ds: seq<Code>, now: Option<Content>) {
    ds != [] && Tells(o, was, ds[0], ds[|ds| - 1], now)
  }

  ghost predicate One(ds: seq<Code>, code: Code) {
    |ds| == 1 && ds[0] == code
  }

  ghost predicate DiagnosticsFit(o: Options, w: Writer) {
    var ds := w.report.diagnostics;
    match w.stage
    case AbortTemp => o.atomicReplace && (One(ds, TempWriteFailed) || One(ds, DurableFlushFailed))
    case DropTemp =>
      o.atomicReplace && ds != []
      && (ds[0] == TempWriteFailed || ds[0] == DurableFlushFailed || ds[0] == TempCloseFailed || ds[0] == BackupCopyFailed || ds[0] == AtomicReplaceFailed)
    case AbortDirect => !o.atomicReplace && (One(ds, WriteFailed) || One(ds, DurableFlushFailed))
    case RemoveInvalid => o.atomicReplace && One(ds, ValidationFailed)
    case RestoreInvalid => !o.atomicReplace && One(ds, ValidationFailed)
    case RestoreReadback => One(ds, ReadbackFailed) || One(ds, ReadbackMismatch)
    case Done => w.report.ok ==> One(ds, WriteOk)
    case _ => |ds| == 0
  }

  ghost predicate StageFits(o: Options, w: Writer) {
    match w.stage
    case ProbeEarly | CopyEarly => !o.atomicReplace && o.keepBackup
    case OpenTemp | WriteTemp(_) | FlushTemp | CloseTemp | Replace | FlushParent => o.atomicReplace
    case ProbeLate | CopyLate => o.atomicReplace && o.keepBackup
    case WritePlain => !o.atomicReplace && !o.durable
    case ProbeExisting | OpenDirect(_) | WriteDirect(_, _) | FlushDirect(_) | CloseDirect(_) | FlushNewParent => !o.atomicReplace && o.durable
    case _ => true
  }

  ghost predicate TargetFits(o: Options, fs0: Files, w: Writer, fs: Files) {
    var was, now := Old(o, fs0), Now(o, fs);
    match w.stage
    case WriteDirect(_, offset) => offset <= |o.content| && now == Some(o.content[..offset])
    case FlushDirect(_) | CloseDirect(_) | FlushNewParent | FlushParent => now == Some(o.content)
    case AbortDirect => w.report.diagnostics != [] && w.report.diagnostics[0] == DurableFlushFailed ==> now == Some(o.content)
    case WritePlain | RestoreInvalid | RestoreReadback => true
    case Validate => if o.atomicReplace then now == was else o.durable ==> now == Some(o.content)
    case ReadBack => o.atomicReplace || o.durable ==> now == Some(o.content)
    case Done =>
      if w.report.ok then now == Some(o.content)
      else FailureMeans(o, was, w.report.diagnostics, now)
    case _ => now == was
  }

  ghost predicate IsTempName(o: Options, p: Path) {
    exists suffix :: |suffix| == 6 && p == TempName(o, suffix)
  }

  ghost predicate TempFits(o: Options, fs0: Files, w: Writer, fs: Files) {
    var p := w.report.tempPath;
    && (p.Some? ==> o.atomicReplace && IsTempName(o, p.value) && p.value !in fs0)
    && match w.stage
       case WriteTemp(offset) => offset <= |o.content| && p.Some? && Lookup(fs, p.value) == Some(o.content[..offset])
       case FlushTemp | CloseTemp | ProbeLate | CopyLate | Replace => p.Some? && Lookup(fs, p.value) == Some(o.content)
       case Validate => o.atomicReplace ==> p.Some? && Lookup(fs, p.value) == Some(o.content)
       case AbortTemp | DropTemp | RemoveInvalid => p.Some?
       case FlushParent | ReadBack | RestoreReadback => p.Some? ==> p.value !in fs
       case Done => w.report.ok && p.Some? ==> p.value !in fs
       case OpenTemp => p.None?
       case Prepare => p.None?
       case _ => !o.atomicReplace
  }

  /** The stages at which a backup must have been made, if there was a target. */
  ghost predicate PastBackup(o: Options, stage: Stage) {
    if o.atomicReplace then stage.Replace? || stage.FlushParent? || stage.ReadBack? || stage.RestoreReadback?
    else !(stage.Prepare? || stage.ProbeEarly? || stage.CopyEarly? || stage.Done?)
  }

  ghost predicate BeforeBackup(o: Options, stage: Stage) {
    match stage
    case Prepare | ProbeEarly | CopyEarly | OpenTemp | WriteTemp(_) | FlushTemp | CloseTemp | ProbeLate | CopyLate => true
    case Validate => o.atomicReplace
    case _ => false
  }

  /** No copy to the backup has begun. */
  ghost predicate BackupWaits(o: Options, stage: Stage) {
    BeforeBackup(o, stage) && !stage.CopyEarly? && !stage.CopyLate?
  }

  ghost predicate BackupFits(o: Options, fs0: Files, w: Writer, fs: Files) {
    var was, b := Old(o, fs0), w.report.backupPath;
    && (b.Some? ==> b.value == BackupOf(o) && o.keepBackup && was.Some? && Lookup(fs, BackupOf(o)) == was)
    && (BeforeBackup(o, w.stage) ==> b.None? && !w.probeFailed)
    && (w.probeFailed ==> b.None?)
    && (o.keepBackup && was.Some? && !w.probeFailed ==>
          && (PastBackup(o, w.stage) ==> b.Some?)
          && (w.stage.Done? && (w.report.ok || Now(o, fs) != was) ==> b.Some?))
    && (w.stage.RestoreInvalid? || w.stage.RestoreReadback? ==> b.Some?)
    && (w.stage.Done? && o.atomicReplace && Now(o, fs) != was && Now(o, fs) != Some(o.content) ==> b.Some?)
  }

  predicate IsReadbackFailure(w: Writer) {
    w.report.diagnostics != [] && (w.report.diagnostics[0] == ReadbackFailed || w.report.diagnostics[0] == ReadbackMismatch)
  }

  /** What only a validated content reaches. */
  ghost predicate PastValidation(o: Options, w: Writer) {
    match w.stage
    case ProbeLate | CopyLate | Replace | FlushParent | ReadBack | RestoreReadback => true
    case Done =>
      w.report.diagnostics != []
      && var first := w.report.diagnostics[0];
         first == WriteOk || IsReadbackFailure(w) || (first == ParentFlushFailed && o.atomicReplace)
    case _ => false
  }

  /** In direct mode the validated file is the one that is read back. */
  ghost predicate ValidFits(o: Options, w: Writer, fs: Files) {
    o.valid.Some? ==>
      && ((o.atomicReplace || o.durable) && PastValidation(o, w) ==> o.valid.value(o.content))
      && (w.stage.ReadBack? ==> Now(o, fs).Some? && o.valid.value(Now(o, fs).value))
      && (w.report.ok ==> o.valid.value(o.content))
  }

  /** Only the target, its backup and the temporary file are ever touched. */
  ghost predicate Untouched(o: Options, fs0: Files, w: Writer, fs: Files, p: Path) {
    Lookup(fs, p) == Lookup(fs0, p)
  }

  ghost predicate FrameFits(o: Options, fs0: Files, w: Writer, fs: Files) {
    && (forall p | p != o.target && p != BackupOf(o) && w.report.tempPath != Some(p) :: Untouched(o, fs0, w, fs, p))
    && (!o.keepBackup || w.probeFailed || BackupWaits(o, w.stage) ==> Untouched(o, fs0, w, fs, BackupOf(o)))
  }

  ghost predicate Inv(o: Options, fs0: Files, w: Writer, fs: Files) {
    && (w.report.ok ==> w.stage.Done?)
    && StageFits(o, w) && DiagnosticsFit(o, w) && TargetFits(o, fs0, w, fs) && TempFits(o, fs0, w, fs)
    && BackupFits(o, fs0, w, fs) && ValidFits(o, w, fs) && FrameFits(o, fs0, w, fs)
  }

  lemma NamesDiffer(o: Options, suffix: string)
    requires |suffix| == 6
    ensures TempName(o, suffix) != o.target && TempName(o, suffix) != BackupOf(o) && BackupOf(o) != o.target
  {
    assert |TempName(o, suffix)| == |o.target| + 11 && |BackupOf(o)| == |o.target| + 4;
  }

  lemma AllNamesDiffer(o: Options, w: Writer, fs0: Files, fs: Files)
    requires TempFits(o, fs0, w, fs)
    ensures BackupOf(o) != o.target
    ensures TempOf(o, w) != o.target && TempOf(o, w) != BackupOf(o)
  {
    NamesDiffer(o, "......");
    if w.report.tempPath.Some? {
      var suffix :| |suffix| == 6 && w.report.tempPath.value == TempName(o, suffix);
      NamesDiffer(o, suffix);
    } else {
      assert |TempName(o, "")| == |o.target| + 5 && |BackupOf(o)| == |o.target| + 4;
    }
  }

  /** Preparing and working on the temporary file leave the target alone. */
  lemma LeavesTarget(o: Options, fs0: Files, w: Writer, fs: Files, a: Answer)
    requires TempFits(o, fs0, w, fs)
    ensures PhaseOf(w.stage) == Preparing ==> Now(o, PrepareStep(o, w, fs, a).1) == Now(o, fs)
    ensures PhaseOf(w.stage) == InTemp ==> Now(o, TempStep(o, w, fs, a).1) == Now(o, fs)
    ensures w.stage.Validate? || w.stage.RemoveInvalid? ==> Now(o, CheckStep(o, w, fs, a).1) == Now(o, fs)
    ensures w.stage.RestoreInvalid? && CopySucceeds(fs, BackupOf(o), a) ==> Now(o, CheckStep(o, w, fs, a).1) == Lookup(fs, BackupOf(o))
  {
    hide BackupOf, TempName, TempFits;
    AllNamesDiffer(o, w, fs0, fs);
    if a.Named? && |a.suffix| == 6 { NamesDiffer(o, a.suffix); }
  }

  lemma WholeContent(o: Options)
    ensures o.content[..0] == "" && o.content[..|o.content|] == o.content
    ensures |o.content| == 0 ==> o.content == ""
  {
  }

  lemma PrepareKeepsTarget(o: Options, fs0: Files, w: Writer, fs: Files, a: Answer)
    requires Inv(o, fs0, w, fs) && PhaseOf(w.stage) == Preparing
    ensures var (w', fs') := PrepareStep(o, w, fs, a);
            (w'.report.ok ==> w'.stage.Done?) && StageFits(o, w') && DiagnosticsFit(o, w') && TargetFits(o, fs0, w', fs')
  {
    hide BackupOf, TempName, TempOf, Copied, CopySucceeds, Lookup, Now, ValidFits, FrameFits, TempFits, BackupFits;
    LeavesTarget(o, fs0, w, fs, a);
  }

  lemma PrepareKeepsTemp(o: Options, fs0: Files, w: Writer, fs: Files, a: Answer)
    requires Inv(o, fs0, w, fs) && PhaseOf(w.stage) == Preparing
    ensures var (w', fs') := PrepareStep(o, w, fs, a);
            TempFits(o, fs0, w', fs') && ValidFits(o, w', fs')
  {
    hide BackupOf, IsTempName, TargetFits, BackupFits, FrameFits;
    AllNamesDiffer(o, w, fs0, fs);
  }

  lemma PrepareKeepsFrame(o: Options, fs0: Files, w: Writer, fs: Files, a: Answer)
    requires Inv(o, fs0, w, fs) && PhaseOf(w.stage) == Preparing
    ensures var (w', fs') := PrepareStep(o, w, fs, a);
            FrameFits(o, fs0, w', fs')
  {
    hide BackupOf, IsTempName, TargetFits, ValidFits, DiagnosticsFit;
    AllNamesDiffer(o, w, fs0, fs);
  }

  lemma PrepareKeepsBackup(o: Options, fs0: Files, w: Writer, fs: Files, a: Answer)
    requires Inv(o, fs0, w, fs) && PhaseOf(w.stage) == Preparing
    ensures var (w', fs') := PrepareStep(o, w, fs, a); BackupFits(o, fs0, w', fs')
  {
    hide BackupOf, IsTempName, FailureMeans, DiagnosticsFit, TempFits, FrameFits, ValidFits;
    AllNamesDiffer(o, w, fs0, fs);
  }

  lemma TempKeepsTarget(o: Options, fs0: Files, w: Writer, fs: Files, a: Answer)
    requires Inv(o, fs0, w, fs) && PhaseOf(w.stage) == InTemp
    ensures var (w', fs') := TempStep(o, w, fs, a);
            (w'.report.ok ==> w'.stage.Done?) && StageFits(o, w') && DiagnosticsFit(o, w') && TargetFits(o, fs0, w', fs')
  {
    hide BackupOf, TempName, TempOf, Copied, CopySucceeds, Lookup, Now, ValidFits, FrameFits, TempFits, BackupFits;
    LeavesTarget(o, fs0, w, fs, a);
  }

  lemma TempKeepsTemp(o: Options, fs0: Files, w: Writer, fs: Files, a: Answer)
    requires Inv(o, fs0, w, fs) && PhaseOf(w.stage) == InTemp && !w.stage.OpenTemp?
    ensures var (w', fs') := TempStep(o, w, fs, a);
            TempFits(o, fs0, w', fs') && ValidFits(o, w', fs')
  {
    hide BackupOf, TempName, BackupFits, IsTempName, FrameFits, TargetFits;
    AllNamesDiffer(o, w, fs0, fs);
    WholeContent(o);
  }

  lemma OpenKeepsTemp(o: Options, fs0: Files, w: Writer, fs: Files, a: Answer)
    requires Inv(o, fs0, w, fs)
    requires w.stage.OpenTemp?
    ensures var (w', fs') := TempStep(o, w, fs, a);
            TempFits(o, fs0, w', fs') && ValidFits(o, w', fs')
  {
    hide BackupOf, TempName, BackupFits, TargetFits;
    AllNamesDiffer(o, w, fs0, fs);
    if a.Named? && |a.suffix| == 6 {
      NamesDiffer(o, a.suffix);
      assert Untouched(o, fs0, w, fs, TempName(o, a.suffix));
    }
    WholeContent(o);
  }

  lemma TempKeepsBackup(o: Options, fs0: Files, w: Writer, fs: Files, a: Answer)
    requires Inv(o, fs0, w, fs) && PhaseOf(w.stage) == InTemp
    ensures var (w', fs') := TempStep(o, w, fs, a);
            BackupFits(o, fs0, w', fs')
  {
    hide BackupOf, TempName, ValidFits, FrameFits, IsTempName, FailureMeans, Tells;
    AllNamesDiffer(o, w, fs0, fs);
    if a.Named? && |a.suffix| == 6 {
      NamesDiffer(o, a.suffix);
    }
    WholeContent(o);
  }

  lemma TempKeepsFrame(o: Options, fs0: Files, w: Writer, fs: Files, a: Answer)
    requires Inv(o, fs0, w, fs) && PhaseOf(w.stage) == InTemp
    ensures var (w', fs') := TempStep(o, w, fs, a);
            FrameFits(o, fs0, w', fs')
  {
    hide BackupOf, TempName, ValidFits, BackupFits, DiagnosticsFit, TargetFits;
    AllNamesDiffer(o, w, fs0, fs);
    if a.Named? && |a.suffix| == 6 {
      NamesDiffer(o, a.suffix);
    }
  }

  lemma OpenKeepsTarget(o: Options, fs0: Files, w: Writer, fs: Files, a: Answer)
    requires Inv(o, fs0, w, fs) && (w.stage.WritePlain? || w.stage.ProbeExisting? || w.stage.OpenDirect?)
    ensures var (w', fs') := DirectStep(o, w, fs, a);
            (w'.report.ok ==> w'.stage.Done?) && StageFits(o, w') && DiagnosticsFit(o, w') && TargetFits(o, fs0, w', fs')
  {
    hide BackupOf, TempName, TempFits, BackupFits, ValidFits, FrameFits, IsTempName;
    AllNamesDiffer(o, w, fs0, fs);
    WholeContent(o);
  }

  lemma DirectKeepsTarget(o: Options, fs0: Files, w: Writer, fs: Files, a: Answer)
    requires Inv(o, fs0, w, fs) && PhaseOf(w.stage) == InTarget && !w.stage.WritePlain? && !w.stage.ProbeExisting? && !w.stage.OpenDirect?
    ensures var (w', fs') := DirectStep(o, w, fs, a);
            (w'.report.ok ==> w'.stage.Done?) && StageFits(o, w') && DiagnosticsFit(o, w') && TargetFits(o, fs0, w', fs')
  {
    hide BackupOf, TempName, TempFits, BackupFits, ValidFits, FrameFits, IsTempName;
    AllNamesDiffer(o, w, fs0, fs);
    WholeContent(o);
  }

  lemma DirectKeepsTemp(o: Options, fs0: Files, w: Writer, fs: Files, a: Answer)
    requires Inv(o, fs0, w, fs) && PhaseOf(w.stage) == InTarget
    ensures var (w', fs') := DirectStep(o, w, fs, a);
            TempFits(o, fs0, w', fs') && ValidFits(o, w', fs')
  {
    hide BackupOf, TempName, BackupFits, FailureMeans, Tells, IsTempName, FrameFits;
    AllNamesDiffer(o, w, fs0, fs);
    WholeContent(o);
  }

  lemma DirectKeepsBackup(o: Options, fs0: Files, w: Writer, fs: Files, a: Answer)
    requires Inv(o, fs0, w, fs) && PhaseOf(w.stage) == InTarget
    ensures var (w', fs') := DirectStep(o, w, fs, a);
            BackupFits(o, fs0, w', fs')
  {
    hide BackupOf, TempName, ValidFits, FrameFits, IsTempName, FailureMeans, Tells;
    AllNamesDiffer(o, w, fs0, fs);
    WholeContent(o);
  }

  lemma DirectKeepsFrame(o: Options, fs0: Files, w: Writer, fs: Files, a: Answer)
    requires Inv(o, fs0, w, fs) && PhaseOf(w.stage) == InTarget
    ensures var (w', fs') := DirectStep(o, w, fs, a);
            FrameFits(o, fs0, w', fs')
  {
    hide BackupOf, TempName, ValidFits, BackupFits, DiagnosticsFit, TargetFits, IsTempName;
    AllNamesDiffer(o, w, fs0, fs);
  }

  lemma CheckKeepsTarget(o: Options, fs0: Files, w: Writer, fs: Files, a: Answer)
    requires Inv(o, fs0, w, fs) && (w.stage.Validate? || w.stage.RemoveInvalid?)
    ensures var (w', fs') := CheckStep(o, w, fs, a);
            (w'.report.ok ==> w'.stage.Done?) && StageFits(o, w') && DiagnosticsFit(o, w') && TargetFits(o, fs0, w', fs')
  {
    hide BackupOf, TempName, TempOf, Copied, CopySucceeds, Lookup, Now, ValidFits, FrameFits, TempFits, BackupFits;
    LeavesTarget(o, fs0, w, fs, a);
  }

  lemma RestoreKeepsTarget(o: Options, fs0: Files, w: Writer, fs: Files, a: Answer)
    requires Inv(o, fs0, w, fs) && w.stage.RestoreInvalid?
    ensures var (w', fs') := CheckStep(o, w, fs, a);
            (w'.report.ok ==> w'.stage.Done?) && StageFits(o, w') && DiagnosticsFit(o, w') && TargetFits(o, fs0, w', fs')
  {
    hide BackupOf, TempName, TempOf, Copied, CopySucceeds, Lookup, Now, ValidFits, FrameFits, TempFits;
    LeavesTarget(o, fs0, w, fs, a);
  }

  lemma CheckKeepsTemp(o: Options, fs0: Files, w: Writer, fs: Files, a: Answer)
    requires Inv(o, fs0, w, fs) && PhaseOf(w.stage) == Checking
    ensures var (w', fs') := CheckStep(o, w, fs, a);
            TempFits(o, fs0, w', fs') && ValidFits(o, w', fs')
  {
    hide BackupOf, TempName, BackupFits, FailureMeans, Tells, IsTempName, FrameFits;
    AllNamesDiffer(o, w, fs0, fs);
  }

  lemma CheckKeepsBackup(o: Options, fs0: Files, w: Writer, fs: Files, a: Answer)
    requires Inv(o, fs0, w, fs) && PhaseOf(w.stage) == Checking
    ensures var (w', fs') := CheckStep(o, w, fs, a);
            BackupFits(o, fs0, w', fs')
  {
    hide BackupOf, TempName, ValidFits, FrameFits, IsTempName, FailureMeans, Tells;
    AllNamesDiffer(o, w, fs0, fs);
  }

  lemma CheckKeepsFrame(o: Options, fs0: Files, w: Writer, fs: Files, a: Answer)
    requires Inv(o, fs0, w, fs) && PhaseOf(w.stage) == Checking
    ensures var (w', fs') := CheckStep(o, w, fs, a);
            FrameFits(o, fs0, w', fs')
  {
    hide BackupOf, TempName, ValidFits, BackupFits, DiagnosticsFit, TargetFits, IsTempName;
    AllNamesDiffer(o, w, fs0, fs);
  }

  lemma InstallKeepsTarget(o: Options, fs0: Files, w: Writer, fs: Files, a: Answer)
    requires Inv(o, fs0, w, fs) && PhaseOf(w.stage) == Installing && !w.stage.Replace? && !w.stage.ReadBack? && !w.stage.RestoreReadback?
    ensures var (w', fs') := InstallStep(o, w, fs, a);
            (w'.report.ok ==> w'.stage.Done?) && StageFits(o, w') && DiagnosticsFit(o, w') && TargetFits(o, fs0, w', fs')
  {
    hide BackupOf, TempName, ValidFits, FrameFits, BackupFits, TempFits, IsTempName;
    AllNamesDiffer(o, w, fs0, fs);
  }

  lemma ReadKeepsTarget(o: Options, fs0: Files, w: Writer, fs: Files, a: Answer)
    requires Inv(o, fs0, w, fs) && (w.stage.ReadBack? || w.stage.RestoreReadback?)
    ensures var (w', fs') := InstallStep(o, w, fs, a);
            (w'.report.ok ==> w'.stage.Done?) && StageFits(o, w') && DiagnosticsFit(o, w') && TargetFits(o, fs0, w', fs')
  {
    hide BackupOf, TempName, ValidFits, FrameFits, TempFits, IsTempName;
    AllNamesDiffer(o, w, fs0, fs);
  }

  lemma ReplaceKeepsTarget(o: Options, fs0: Files, w: Writer, fs: Files, a: Answer)
    requires Inv(o, fs0, w, fs)
    requires w.stage.Replace?
    ensures var (w', fs') := InstallStep(o, w, fs, a);
            (w'.report.ok ==> w'.stage.Done?) && StageFits(o, w') && DiagnosticsFit(o, w') && TargetFits(o, fs0, w', fs')
  {
    hide BackupOf, TempName, ValidFits, FrameFits, BackupFits, IsTempName;
    AllNamesDiffer(o, w, fs0, fs);
  }

  lemma InstallKeepsTemp(o: Options, fs0: Files, w: Writer, fs: Files, a: Answer)
    requires Inv(o, fs0, w, fs) && PhaseOf(w.stage) == Installing
    ensures var (w', fs') := InstallStep(o, w, fs, a);
            TempFits(o, fs0, w', fs')
  {
    hide BackupOf, TempName, BackupFits, FailureMeans, Tells, IsTempName, FrameFits, ValidFits, TargetFits;
    AllNamesDiffer(o, w, fs0, fs);
  }

  lemma InstallKeepsValid(o: Options, fs0: Files, w: Writer, fs: Files, a: Answer)
    requires Inv(o, fs0, w, fs) && PhaseOf(w.stage) == Installing
    ensures var (w', fs') := InstallStep(o, w, fs, a);
            ValidFits(o, w', fs')
  {
    hide BackupOf, TempName, BackupFits, FailureMeans, Tells, IsTempName, FrameFits;
    AllNamesDiffer(o, w, fs0, fs);
  }

  lemma InstallKeepsBackup(o: Options, fs0: Files, w: Writer, fs: Files, a: Answer)
    requires Inv(o, fs0, w, fs) && PhaseOf(w.stage) == Installing
    ensures var (w', fs') := InstallStep(o, w, fs, a);
            BackupFits(o, fs0, w', fs')
  {
    hide BackupOf, TempName, ValidFits, FrameFits, IsTempName, FailureMeans, Tells;
    AllNamesDiffer(o, w, fs0, fs);
  }

  lemma InstallKeepsFrame(o: Options, fs0: Files, w: Writer, fs: Files, a: Answer)
    requires Inv(o, fs0, w, fs) && PhaseOf(w.stage) == Installing
    ensures var (w', fs') := InstallStep(o, w, fs, a);
            FrameFits(o, fs0, w', fs')
  {
    hide BackupOf, TempName, ValidFits, DiagnosticsFit, TargetFits, IsTempName;
    AllNamesDiffer(o, w, fs0, fs);
  }

  lemma StepKeeps(o: Options, fs0: Files, w: Writer, fs: Files, a: Answer)
    requires Inv(o, fs0, w, fs)
    ensures var (w', fs') := WriteStep(o, w, fs, a); Inv(o, fs0, w', fs')
  {
    hide StageFits, DiagnosticsFit, TargetFits, TempFits, BackupFits, ValidFits, FrameFits;
    hide PrepareStep, TempStep, DirectStep, CheckStep, InstallStep;
    match PhaseOf(w.stage) {
      case Preparing =>
        PrepareKeepsTarget(o, fs0, w, fs, a);
        PrepareKeepsTemp(o, fs0, w, fs, a);
        PrepareKeepsFrame(o, fs0, w, fs, a);
        PrepareKeepsBackup(o, fs0, w, fs, a);
      case InTemp =>
        TempKeepsTarget(o, fs0, w, fs, a);
        if w.stage.OpenTemp? { OpenKeepsTemp(o, fs0, w, fs, a); } else { TempKeepsTemp(o, fs0, w, fs, a); }
        TempKeepsBackup(o, fs0, w, fs, a);
        TempKeepsFrame(o, fs0, w, fs, a);
      case InTarget =>
        if w.stage.WritePlain? || w.stage.ProbeExisting? || w.stage.OpenDirect? { OpenKeepsTarget(o, fs0, w, fs, a); }
        else { DirectKeepsTarget(o, fs0, w, fs, a); }
        DirectKeepsTemp(o, fs0, w, fs, a);
        DirectKeepsBackup(o, fs0, w, fs, a);
        DirectKeepsFrame(o, fs0, w, fs, a);
      case Checking =>
        if w.stage.RestoreInvalid? { RestoreKeepsTarget(o, fs0, w, fs, a); } else { CheckKeepsTarget(o, fs0, w, fs, a); }
        CheckKeepsTemp(o, fs0, w, fs, a);
        CheckKeepsBackup(o, fs0, w, fs, a);
        CheckKeepsFrame(o, fs0, w, fs, a);
      case Installing =>
        if w.stage.Replace? { ReplaceKeepsTarget(o, fs0, w, fs, a); }
        else if w.stage.ReadBack? || w.stage.RestoreReadback? { ReadKeepsTarget(o, fs0, w, fs, a); }
        else { InstallKeepsTarget(o, fs0, w, fs, a); }
        InstallKeepsTemp(o, fs0, w, fs, a);
        InstallKeepsValid(o, fs0, w, fs, a);
        InstallKeepsBackup(o, fs0, w, fs, a);
        InstallKeepsFrame(o, fs0, w, fs, a);
      case Over =>
    }
  }

  lemma {:induction false} RunKeeps(o: Options, fs0: Files, answers: seq<Answer>)
    ensures var (w, fs) := RunWrite(o, fs0, answers); Inv(o, fs0, w, fs)
  {
    hide WriteStep, Inv;
    if answers == [] {
      StartKeeps(o, fs0);
    } else {
      var (w, fs) := RunWrite(o, fs0, answers[..|answers| - 1]);
      RunKeeps(o, fs0, answers[..|answers| - 1]);
      StepKeeps(o, fs0, w, fs, answers[|answers| - 1]);
    }
  }

  lemma StartKeeps(o: Options, fs0: Files)
    ensures Inv(o, fs0, Start, fs0)
  {
  }

  // ----- the guarantees

  /** In atomic mode the target is the old or the new content after every call,
      so after a crash too, until a restore after a failed readback begins; and
      nothing that validation rejects is ever installed. */
  lemma OldOrNew(o: Options, fs0: Files, answers: seq<Answer>)
    requires o.atomicReplace
    ensures var (w, fs) := RunWrite(o, fs0, answers);
            && (Now(o, fs) == Old(o, fs0) || Now(o, fs) == Some(o.content)
                || (IsReadbackFailure(w) && (w.stage.RestoreReadback? || w.report.diagnostics[|w.report.diagnostics| - 1] == BackupRestoreFailed)
                    && Begins(Now(o, fs), Old(o, fs0))))
            && (Now(o, fs) != Old(o, fs0) && o.valid.Some? ==> o.valid.value(o.content))
  {
    hide RunWrite, TempFits, FrameFits, BackupFits;
    RunKeeps(o, fs0, answers);
    TargetIsABeginning(o, fs0, answers);
  }

  /** The one is a beginning of the other. */
  predicate Begins(now: Option<Content>, whole: Option<Content>) {
    now.Some? && whole.Some? && now.value <= whole.value
  }

  predicate IsABeginning(o: Options, was: Option<Content>, now: Option<Content>) {
    now == was || Begins(now, was) || if o.atomicReplace then now == Some(o.content) else Begins(now, Some(o.content))
  }

  lemma StepsToBeginning(o: Options, fs0: Files, w: Writer, fs: Files, a: Answer)
    requires Inv(o, fs0, w, fs) && IsABeginning(o, Old(o, fs0), Now(o, fs))
    ensures IsABeginning(o, Old(o, fs0), Now(o, WriteStep(o, w, fs, a).1))
  {
    hide BackupOf, TempName, ValidFits, FrameFits, DiagnosticsFit, IsTempName;
    AllNamesDiffer(o, w, fs0, fs);
    match PhaseOf(w.stage) {
      case Preparing => LeavesTarget(o, fs0, w, fs, a);
      case InTemp => LeavesTarget(o, fs0, w, fs, a);
      case InTarget => DirectBegins(o, fs0, w, fs, a);
      case Checking => CheckBegins(o, fs0, w, fs, a);
      case Installing => InstallBegins(o, fs0, w, fs, a);
      case Over =>
    }
  }

  lemma DirectBegins(o: Options, fs0: Files, w: Writer, fs: Files, a: Answer)
    requires Inv(o, fs0, w, fs) && IsABeginning(o, Old(o, fs0), Now(o, fs)) && PhaseOf(w.stage) == InTarget
    ensures IsABeginning(o, Old(o, fs0), Now(o, DirectStep(o, w, fs, a).1))
  {
    hide BackupOf, TempName, ValidFits, FrameFits, DiagnosticsFit, IsTempName, TempFits, BackupFits, TargetFits;
    WholeContent(o);
  }

  lemma CheckBegins(o: Options, fs0: Files, w: Writer, fs: Files, a: Answer)
    requires Inv(o, fs0, w, fs) && IsABeginning(o, Old(o, fs0), Now(o, fs)) && PhaseOf(w.stage) == Checking
    ensures IsABeginning(o, Old(o, fs0), Now(o, CheckStep(o, w, fs, a).1))
  {
    hide BackupOf, TempName, ValidFits, FrameFits, DiagnosticsFit, IsTempName, TargetFits;
    AllNamesDiffer(o, w, fs0, fs);
  }

  lemma InstallBegins(o: Options, fs0: Files, w: Writer, fs: Files, a: Answer)
    requires Inv(o, fs0, w, fs) && IsABeginning(o, Old(o, fs0), Now(o, fs)) && PhaseOf(w.stage) == Installing
    ensures IsABeginning(o, Old(o, fs0), Now(o, InstallStep(o, w, fs, a).1))
  {
    hide BackupOf, TempName, ValidFits, FrameFits, DiagnosticsFit, IsTempName, TargetFits;
    AllNamesDiffer(o, w, fs0, fs);
  }

  /** In both modes, after every call of every run, the target is as it was, or holds a
      beginning of the old or of the new content; in atomic mode the whole new one. */
  lemma {:induction false} TargetIsABeginning(o: Options, fs0: Files, answers: seq<Answer>)
    ensures IsABeginning(o, Old(o, fs0), Now(o, RunWrite(o, fs0, answers).1))
  {
    hide WriteStep, Inv, IsABeginning;
    if answers == [] {
      BeginsAsItWas(o, fs0);
    } else {
      var (w, fs) := RunWrite(o, fs0, answers[..|answers| - 1]);
      RunKeeps(o, fs0, answers[..|answers| - 1]);
      TargetIsABeginning(o, fs0, answers[..|answers| - 1]);
      StepsToBeginning(o, fs0, w, fs, answers[|answers| - 1]);
    }
  }

  lemma BeginsAsItWas(o: Options, fs0: Files)
    ensures IsABeginning(o, Old(o, fs0), Now(o, fs0))
  {
  }

  /** With keep_backup, once the target differs from the old content, the backup
      holds the old content exactly if asking whether the target exists did not fail,
      or the backup held it anyway; in atomic mode it does in any case whenever the
      target is neither old nor new. */
  lemma BackupIsOld(o: Options, fs0: Files, answers: seq<Answer>)
    requires o.keepBackup && Old(o, fs0).Some?
    ensures var (w, fs) := RunWrite(o, fs0, answers);
            && (Now(o, fs) != Old(o, fs0) ==>
                  (Lookup(fs, BackupOf(o)) == Old(o, fs0) <==> !w.probeFailed || Lookup(fs0, BackupOf(o)) == Old(o, fs0)))
            && (w.probeFailed ==> Lookup(fs, BackupOf(o)) == Lookup(fs0, BackupOf(o)))
            && (Now(o, fs) != Old(o, fs0) && Now(o, fs) != Some(o.content) && o.atomicReplace ==> Lookup(fs, BackupOf(o)) == Old(o, fs0))
  {
    hide RunWrite, TempFits, ValidFits;
    RunKeeps(o, fs0, answers);
    var (w, fs) := RunWrite(o, fs0, answers);
    assert Now(o, fs) != Old(o, fs0) ==> w.stage.Done? || PastBackup(o, w.stage);
    assert w.probeFailed ==> Untouched(o, fs0, w, fs, BackupOf(o));
  }

  /** In direct mode that probe failure is possible for every write: the error is
      ignored, no backup is made, and the target is truncated. */
  lemma FailedProbeLosesOld(o: Options, fs0: Files) returns (answers: seq<Answer>)
    requires !o.atomicReplace && o.keepBackup
    ensures var (w, fs) := RunWrite(o, fs0, answers);
            w.probeFailed && Now(o, fs) == Some("") && Lookup(fs, BackupOf(o)) == Lookup(fs0, BackupOf(o))
  {
    hide RunWrite, BackupOf;
    var a, b := [Good], [Good, Bad];
    RunNothing(o, fs0);
    RunOneMore(o, fs0, [], Good);
    RunOneMore(o, fs0, a, Bad);
    assert a == [] + [Good] && b == a + [Bad];
    NamesDiffer(o, "......");
    assert RunWrite(o, fs0, b) == (Writer(FirstWrite(o), Start.report, true), fs0);
    if o.durable {
      answers := b + [Good] + [Good];
      RunOneMore(o, fs0, b, Good);
      RunOneMore(o, fs0, b + [Good], Good);
    } else {
      answers := b + [Part("")];
      RunOneMore(o, fs0, b, Part(""));
    }
  }

  /** What the final report says is true: success means that the content is in
      place and valid, the backup holds the old content and no temporary file is
      left; a failure tells what the target holds. */
  lemma ReportIsTrue(o: Options, fs0: Files, answers: seq<Answer>)
    requires RunWrite(o, fs0, answers).0.stage.Done?
    ensures var (w, fs) := RunWrite(o, fs0, answers);
            var r := w.report;
            && (r.ok <==> r.diagnostics == [WriteOk])
            && (r.ok ==> Now(o, fs) == Some(o.content))
            && (r.ok && o.valid.Some? ==> o.valid.value(o.content))
            && (r.ok && r.tempPath.Some? ==> r.tempPath.value !in fs)
            && (r.ok && o.keepBackup && !w.probeFailed && Old(o, fs0).Some? ==>
                  r.backupPath == Some(BackupOf(o)) && Lookup(fs, BackupOf(o)) == Old(o, fs0))
            && (!r.ok ==> FailureMeans(o, Old(o, fs0), r.diagnostics, Now(o, fs)))
  {
    hide RunWrite, FrameFits;
    RunKeeps(o, fs0, answers);
  }

  /** A failed atomic write leaves the old content, unless flushing the directory
      or reading the file back failed. */
  lemma FailureKeepsOld(o: Options, fs0: Files, answers: seq<Answer>)
    requires o.atomicReplace && RunWrite(o, fs0, answers).0.stage.Done? && !RunWrite(o, fs0, answers).0.report.ok
    ensures var (w, fs) := RunWrite(o, fs0, answers);
            && w.report.diagnostics != []
            && (w.report.diagnostics[0] == ParentFlushFailed ==> Now(o, fs) == Some(o.content))
            && (w.report.diagnostics[0] != ParentFlushFailed && !IsReadbackFailure(w) ==> Now(o, fs) == Old(o, fs0))
  {
    hide RunWrite;
    ReportIsTrue(o, fs0, answers);
  }

  /** No other file is touched; without keep_backup not even the backup. */
  lemma OtherFilesAreKept(o: Options, fs0: Files, answers: seq<Answer>, p: Path)
    requires var w := RunWrite(o, fs0, answers).0;
             p != o.target && (p != o.target + ".bak" || !o.keepBackup) && w.report.tempPath != Some(p)
    ensures Lookup(RunWrite(o, fs0, answers).1, p) == Lookup(fs0, p)
  {
    hide RunWrite, StageFits, DiagnosticsFit, TargetFits, TempFits, BackupFits, ValidFits;
    RunKeeps(o, fs0, answers);
    assert Untouched(o, fs0, RunWrite(o, fs0, answers).0, RunWrite(o, fs0, answers).1, p);
  }

  // ----- runs that exist

  /** When every call succeeds the temporary file is written and closed. */
  lemma TempIsWritten(o: Options, fs0: Files, suffix: string) returns (answers: seq<Answer>)
    requires o.atomicReplace && |suffix| == 6 && TempName(o, suffix) !in fs0
    ensures RunWrite(o, fs0, answers) ==
            (Writer(AfterWrite(o), Report(false, Some(TempName(o, suffix)), None, []), false), fs0[TempName(o, suffix) := o.content])
  {
    hide RunWrite, TempName, AfterWrite;
    RunNothing(o, fs0);
    answers := Extended(o, fs0, [], Good);
    answers := Extended(o, fs0, answers, Named(suffix));
    WholeContent(o);
    assert fs0[TempName(o, suffix) := ""][TempName(o, suffix) := o.content] == fs0[TempName(o, suffix) := o.content];
    if |o.content| > 0 { answers := Extended(o, fs0, answers, Wrote(|o.content|)); }
    if o.durable { answers := Extended(o, fs0, answers, Good); }
    answers := Extended(o, fs0, answers, Good);
  }

  lemma ReachesReplace(o: Options, fs0: Files, suffix: string) returns (answers: seq<Answer>)
    requires o.atomicReplace && |suffix| == 6 && TempName(o, suffix) !in fs0
    requires o.valid.Some? ==> o.valid.value(o.content)
    ensures var (w, fs) := RunWrite(o, fs0, answers);
            && w.stage == Replace && w.report.diagnostics == [] && Lookup(fs, TempOf(o, w)) == Some(o.content)
            && (o.keepBackup && Old(o, fs0).Some? ==> w.report.backupPath == Some(BackupOf(o)) && BackupOf(o) in fs)
            && TempOf(o, w) == TempName(o, suffix)
  {
    hide RunWrite, TempName, BackupOf, PrepareStep, TempStep, DirectStep;
    NamesDiffer(o, suffix);
    answers := TempIsWritten(o, fs0, suffix);
    if o.valid.Some? { answers := Extended(o, fs0, answers, Good); }
    if o.keepBackup {
      answers := Extended(o, fs0, answers, Good);
      if o.target in fs0 { answers := Extended(o, fs0, answers, Good); }
    }
  }

  /** And a valid content replaces the target, behind a backup. */
  lemma ReachesReadBack(o: Options, fs0: Files, suffix: string) returns (answers: seq<Answer>)
    requires o.atomicReplace && |suffix| == 6 && TempName(o, suffix) !in fs0
    requires o.valid.Some? ==> o.valid.value(o.content)
    ensures var (w, fs) := RunWrite(o, fs0, answers);
            && w.stage == ReadBack && w.report.diagnostics == [] && Now(o, fs) == Some(o.content)
            && (o.keepBackup && Old(o, fs0).Some? ==> w.report.backupPath == Some(BackupOf(o)) && BackupOf(o) in fs)
  {
    hide RunWrite, TempName, BackupOf, PrepareStep, TempStep, DirectStep, CheckStep;
    NamesDiffer(o, suffix);
    answers := ReachesReplace(o, fs0, suffix);
    answers := Extended(o, fs0, answers, Good);
    if o.durable { answers := Extended(o, fs0, answers, Good); }
  }

  /** And a direct write reaches the target. */
  lemma DirectIsWritten(o: Options, fs0: Files) returns (answers: seq<Answer>)
    requires !o.atomicReplace
    ensures var (w, fs) := RunWrite(o, fs0, answers); w.stage == AfterWrite(o) && Now(o, fs) == Some(o.content)
  {
    hide RunWrite, BackupOf, AfterWrite, PrepareStep, TempStep, CheckStep, InstallStep;
    answers := ReachesFirstWrite(o, fs0);
    if o.durable {
      answers := DirectIsFlushed(o, fs0, answers);
      answers := Extended(o, fs0, answers, Good);
      if RunWrite(o, fs0, answers).0.stage.FlushNewParent? { answers := Extended(o, fs0, answers, Good); }
    } else {
      answers := Extended(o, fs0, answers, Good);
    }
  }

  lemma DirectIsFlushed(o: Options, fs0: Files, found: seq<Answer>) returns (answers: seq<Answer>)
    requires !o.atomicReplace && o.durable && RunWrite(o, fs0, found).0.stage == FirstWrite(o)
    ensures var (w, fs) := RunWrite(o, fs0, answers); w.stage.CloseDirect? && Now(o, fs) == Some(o.content)
  {
    hide RunWrite, BackupOf, AfterWrite, PrepareStep, TempStep, CheckStep, InstallStep;
    WholeContent(o);
    answers := Extended(o, fs0, found, Good);
    answers := Extended(o, fs0, answers, Good);
    if |o.content| > 0 { answers := Extended(o, fs0, answers, Wrote(|o.content|)); }
    answers := Extended(o, fs0, answers, Good);
  }

  lemma ReachesFirstWrite(o: Options, fs0: Files) returns (answers: seq<Answer>)
    requires !o.atomicReplace
    ensures var (w, fs) := RunWrite(o, fs0, answers); w.stage == FirstWrite(o)
  {
    hide RunWrite, BackupOf, FirstWrite, TempStep, CheckStep, InstallStep, DirectStep;
    RunNothing(o, fs0);
    answers := Extended(o, fs0, [], Good);
    if o.keepBackup {
      answers := Extended(o, fs0, answers, Good);
      if o.target in fs0 { answers := Extended(o, fs0, answers, Good); }
    }
  }

  /** Some run succeeds, in each mode and for every content that is not rejected, if in
      atomic mode there is a free name for the temporary file; exactly then. */
  lemma SomeRunSucceeds(o: Options, fs0: Files) returns (answers: seq<Answer>)
    ensures !IsRejected(o) && (o.atomicReplace ==> HasTempName(o, fs0)) <==> RunWrite(o, fs0, answers).0.report.ok
    ensures (exists any: seq<Answer> :: RunWrite(o, fs0, any).0.report.ok) ==> RunWrite(o, fs0, answers).0.report.ok
  {
    hide RunWrite, TempName, BackupOf;
    answers := [];
    RunNothing(o, fs0);
    if IsRejected(o) || (o.atomicReplace && !HasTempName(o, fs0)) {
      forall any: seq<Answer> ensures !RunWrite(o, fs0, any).0.report.ok { NeverSucceeds(o, fs0, any); }
    } else if o.atomicReplace {
      var suffix :| |suffix| == 6 && TempName(o, suffix) !in fs0;
      answers := ReachesReadBack(o, fs0, suffix);
      answers := Extended(o, fs0, answers, Good);
    } else {
      answers := DirectIsWritten(o, fs0);
      if o.valid.Some? { answers := Extended(o, fs0, answers, Good); }
      answers := Extended(o, fs0, answers, Good);
    }
  }

  lemma NeverSucceeds(o: Options, fs0: Files, answers: seq<Answer>)
    requires IsRejected(o) || (o.atomicReplace && !HasTempName(o, fs0))
    ensures !RunWrite(o, fs0, answers).0.report.ok
  {
    hide RunWrite, TempFits, FrameFits, BackupFits, TargetFits;
    RunKeeps(o, fs0, answers);
    if !IsRejected(o) { NoNameNotOk(o, fs0, answers); }
  }

  lemma {:induction false} NoNameNotOk(o: Options, fs0: Files, answers: seq<Answer>)
    requires o.atomicReplace && !HasTempName(o, fs0)
    ensures !RunWrite(o, fs0, answers).0.report.ok
  {
    hide TempName, DirectStep, CheckStep, InstallStep;
    if answers != [] {
      NoNameNotOk(o, fs0, answers[..|answers| - 1]);
      NoNameNoChange(o, fs0, answers[..|answers| - 1]);
    }
  }

  // ----- failures need a failed call

  /** The call succeeds; a write may be interrupted or take less than it was given. */
  predicate Succeeds(o: Options, w: Writer, fs: Files, a: Answer) {
    match w.stage
    case OpenTemp => a.Named? && |a.suffix| == 6 && TempName(o, a.suffix) !in fs
    case WriteTemp(_) => a.Wrote? || a.Interrupted?
    case WriteDirect(_, _) => a.Wrote? || a.Interrupted?
    case CopyEarly | CopyLate => CopySucceeds(fs, o.target, a)
    case _ => a.Good?
  }

  predicate AllSucceed(o: Options, fs0: Files, answers: seq<Answer>)
    decreases |answers|
  {
    answers == [] ||
    var before := answers[..|answers| - 1];
    AllSucceed(o, fs0, before) && Succeeds(o, RunWrite(o, fs0, before).0, RunWrite(o, fs0, before).1, answers[|answers| - 1])
  }

  /** Nothing has gone wrong so far. */
  ghost predicate GoesWell(o: Options, w: Writer, fs: Files) {
    && (if w.stage.Done? then w.report.ok else w.report.diagnostics == [])
    && !(w.stage.AbortTemp? || w.stage.DropTemp? || w.stage.AbortDirect? || w.stage.RemoveInvalid? || w.stage.RestoreInvalid? || w.stage.RestoreReadback?)
    && (w.stage.ReadBack? || (w.stage.Validate? && !o.atomicReplace) ==> Now(o, fs) == Some(o.content))
  }

  lemma StepGoesWell(o: Options, fs0: Files, w: Writer, fs: Files, a: Answer)
    requires Inv(o, fs0, w, fs) && GoesWell(o, w, fs) && Succeeds(o, w, fs, a) && !IsRejected(o)
    ensures GoesWell(o, WriteStep(o, w, fs, a).0, WriteStep(o, w, fs, a).1)
  {
    hide BackupOf, TempName, ValidFits, FrameFits, IsTempName, BackupFits, FailureMeans, PrepareStep, TempStep, DirectStep, CheckStep, InstallStep;
    match PhaseOf(w.stage) {
      case Preparing => PrepareGoesWell(o, w, fs, a);
      case InTemp => TempGoesWell(o, fs0, w, fs, a);
      case InTarget => DirectGoesWell(o, fs0, w, fs, a);
      case Checking => CheckGoesWell(o, fs0, w, fs, a);
      case Installing => InstallGoesWell(o, fs0, w, fs, a);
      case Over =>
    }
  }

  lemma PrepareGoesWell(o: Options, w: Writer, fs: Files, a: Answer)
    requires GoesWell(o, w, fs) && Succeeds(o, w, fs, a) && PhaseOf(w.stage) == Preparing
    ensures GoesWell(o, PrepareStep(o, w, fs, a).0, PrepareStep(o, w, fs, a).1)
  {
    hide BackupOf, TempName;
  }

  lemma TempGoesWell(o: Options, fs0: Files, w: Writer, fs: Files, a: Answer)
    requires Inv(o, fs0, w, fs) && GoesWell(o, w, fs) && Succeeds(o, w, fs, a) && PhaseOf(w.stage) == InTemp
    ensures GoesWell(o, TempStep(o, w, fs, a).0, TempStep(o, w, fs, a).1)
  {
    hide BackupOf, TempName, ValidFits, FrameFits, IsTempName, BackupFits, FailureMeans;
  }

  lemma DirectGoesWell(o: Options, fs0: Files, w: Writer, fs: Files, a: Answer)
    requires Inv(o, fs0, w, fs) && GoesWell(o, w, fs) && Succeeds(o, w, fs, a) && PhaseOf(w.stage) == InTarget
    ensures GoesWell(o, DirectStep(o, w, fs, a).0, DirectStep(o, w, fs, a).1)
  {
    hide BackupOf, TempName, ValidFits, FrameFits, IsTempName, BackupFits, TempFits, FailureMeans;
  }

  lemma CheckGoesWell(o: Options, fs0: Files, w: Writer, fs: Files, a: Answer)
    requires Inv(o, fs0, w, fs) && GoesWell(o, w, fs) && Succeeds(o, w, fs, a) && PhaseOf(w.stage) == Checking && !IsRejected(o)
    ensures GoesWell(o, CheckStep(o, w, fs, a).0, CheckStep(o, w, fs, a).1)
  {
    hide BackupOf, TempName, ValidFits, FrameFits, IsTempName, BackupFits, FailureMeans;
  }

  lemma InstallGoesWell(o: Options, fs0: Files, w: Writer, fs: Files, a: Answer)
    requires Inv(o, fs0, w, fs) && GoesWell(o, w, fs) && Succeeds(o, w, fs, a) && PhaseOf(w.stage) == Installing
    ensures GoesWell(o, InstallStep(o, w, fs, a).0, InstallStep(o, w, fs, a).1)
  {
    hide BackupOf, TempName, ValidFits, FrameFits, IsTempName, BackupFits, FailureMeans;
    AllNamesDiffer(o, w, fs0, fs);
  }

  /** A write of a content that is not rejected fails only if some call fails: while all
      succeed nothing is reported, and when it is over it has succeeded. */
  lemma {:induction false} FailureNeedsAFailedCall(o: Options, fs0: Files, answers: seq<Answer>)
    requires AllSucceed(o, fs0, answers) && !IsRejected(o)
    ensures var w := RunWrite(o, fs0, answers).0; if w.stage.Done? then w.report.ok else w.report.diagnostics == []
    ensures GoesWell(o, RunWrite(o, fs0, answers).0, RunWrite(o, fs0, answers).1)
  {
    hide WriteStep, Inv;
    if answers != [] {
      var before := answers[..|answers| - 1];
      FailureNeedsAFailedCall(o, fs0, before);
      RunKeeps(o, fs0, before);
      StepGoesWell(o, fs0, RunWrite(o, fs0, before).0, RunWrite(o, fs0, before).1, answers[|answers| - 1]);
    }
  }

  /** The first failed call is the one that is named. */
  lemma FailedCallIsNamed(o: Options, w: Writer, fs: Files)
    requires w.report.diagnostics == []
    ensures var failed := WriteStep(o, w, fs, Bad).0.report.diagnostics;
            match w.stage
            case Prepare => failed == [DirectoryCreateFailed]
            case CopyEarly | CopyLate => failed == [BackupCopyFailed]
            case OpenTemp => failed == [TempOpenFailed]
            case WriteTemp(_) => failed == [TempWriteFailed]
            case CloseTemp => failed == [TempCloseFailed]
            case FlushTemp | FlushDirect(_) => failed == [DurableFlushFailed]
            case WritePlain | OpenDirect(_) | WriteDirect(_, _) => failed == [WriteFailed]
            case CloseDirect(_) => failed == [CloseFailed]
            case FlushNewParent | FlushParent => failed == [ParentFlushFailed]
            case Validate => failed == [ValidationFailed]
            case Replace => failed == [AtomicReplaceFailed]
            case ReadBack => failed == [ReadbackFailed] && WriteStep(o, w, fs, Misread).0.report.diagnostics == [ReadbackMismatch]
            case _ => true
  {
    hide BackupOf, TempName, FirstWrite, AfterWrite, AfterValidation, TempBytes, DirectBytes, Copied;
  }

  lemma BackupIsThere(o: Options, fs0: Files, answers: seq<Answer>)
    requires RunWrite(o, fs0, answers).0.stage.RestoreReadback?
    ensures Lookup(RunWrite(o, fs0, answers).1, BackupOf(o)) == Old(o, fs0)
  {
    hide RunWrite, TempFits, FrameFits, TargetFits, ValidFits, DiagnosticsFit;
    RunKeeps(o, fs0, answers);
  }

  /** The exception of OldOrNew is real: after a garbled readback the restore
      copies over the new content, and a crash in it leaves any beginning of the old. */
  lemma RestoreCanTear(o: Options, fs0: Files, suffix: string, torn: Content) returns (answers: seq<Answer>)
    requires o.atomicReplace && o.keepBackup && o.target in fs0 && |suffix| == 6 && TempName(o, suffix) !in fs0
    requires torn <= fs0[o.target]
    requires o.valid.Some? ==> o.valid.value(o.content)
    ensures Now(o, RunWrite(o, fs0, answers).1) == Some(torn)
  {
    hide RunWrite, TempName, BackupOf;
    answers := ReachesReadBack(o, fs0, suffix);
    answers := Extended(o, fs0, answers, Misread);
    BackupIsThere(o, fs0, answers);
    answers := Extended(o, fs0, answers, Part(torn));
  }

  // ----- exactly when atomic mode keeps the old or the new content

  predicate IsRejected(o: Options) {
    o.valid.Some? && !o.valid.value(o.content)
  }

  ghost predicate HasTempName(o: Options, fs0: Files) {
    exists suffix :: |suffix| == 6 && TempName(o, suffix) !in fs0
  }

  ghost predicate KeepsOldOrNew(o: Options, fs0: Files) {
    forall answers: seq<Answer> :: IsOldOrNew(o, fs0, answers)
  }

  predicate IsOldOrNew(o: Options, fs0: Files, answers: seq<Answer>) {
    var now := Now(o, RunWrite(o, fs0, answers).1);
    now == Old(o, fs0) || now == Some(o.content)
  }

  /** Without a free name for the temporary file nothing changes. */
  lemma {:induction false} NoNameNoChange(o: Options, fs0: Files, answers: seq<Answer>)
    requires o.atomicReplace && !HasTempName(o, fs0)
    ensures var (w, fs) := RunWrite(o, fs0, answers); fs == fs0 && (w.stage.Prepare? || w.stage.OpenTemp? || w.stage.Done?)
  {
    hide TempName;
    if answers != [] { NoNameNoChange(o, fs0, answers[..|answers| - 1]); }
  }

  /** Every beginning of the old content is the old or the new content. */
  predicate IsTooShortToTear(was: Content, content: Content) {
    was == "" || (|was| == 1 && content == "")
  }

  /** What a caller can know: the target has nothing to restore, or nothing to tear, or
      nothing is installed. */
  predicate NeverTears(o: Options, was: Option<Content>) {
    !o.keepBackup || was.None? || IsTooShortToTear(was.value, o.content) || IsRejected(o)
  }

  /** Then the target is old or new after every call. */
  lemma NothingToRestore(o: Options, fs0: Files, answers: seq<Answer>)
    requires o.atomicReplace && NeverTears(o, Old(o, fs0))
    ensures IsOldOrNew(o, fs0, answers)
    ensures IsRejected(o) ==> Now(o, RunWrite(o, fs0, answers).1) == Old(o, fs0)
  {
    hide RunWrite, TempFits, FrameFits;
    RunKeeps(o, fs0, answers);
    OldOrNew(o, fs0, answers);
    TargetIsABeginning(o, fs0, answers);
    var now := Now(o, RunWrite(o, fs0, answers).1);
    if Begins(now, Old(o, fs0)) && IsTooShortToTear(Old(o, fs0).value, o.content) {
      ShortBeginnings(Old(o, fs0).value, o.content, now.value);
    }
  }

  lemma ShortBeginnings(was: Content, content: Content, now: Content)
    requires IsTooShortToTear(was, content) && now <= was
    ensures now == was || now == content
  {
    assert now == was[..|now|];
    if |now| == |was| { assert was[..|now|] == was; }
  }

  /** Atomic mode keeps the old or the new content after every call of every run
      exactly if no backup is kept, there is no old content, the old content is empty
      or a single octet that nothing replaces, the content is rejected, or no temporary
      file can be made. */
  lemma ExactlyOldOrNew(o: Options, fs0: Files)
    requires o.atomicReplace
    ensures KeepsOldOrNew(o, fs0) <==> NeverTears(o, Old(o, fs0)) || !HasTempName(o, fs0)
  {
    hide RunWrite, TempName, IsOldOrNew;
    if !HasTempName(o, fs0) {
      forall answers: seq<Answer> ensures IsOldOrNew(o, fs0, answers) { NoNameIsOld(o, fs0, answers); }
    } else if NeverTears(o, Old(o, fs0)) {
      forall answers: seq<Answer> ensures IsOldOrNew(o, fs0, answers) { NothingToRestore(o, fs0, answers); }
    } else {
      var suffix :| |suffix| == 6 && TempName(o, suffix) !in fs0;
      var torn := if o.content != "" then "" else Old(o, fs0).value[..1];
      var answers := RestoreCanTear(o, fs0, suffix, torn);
      assert !IsOldOrNew(o, fs0, answers) by { NeitherOldNorNew(o, fs0, answers, torn); }
    }
  }

  lemma NoNameIsOld(o: Options, fs0: Files, answers: seq<Answer>)
    requires o.atomicReplace && !HasTempName(o, fs0)
    ensures IsOldOrNew(o, fs0, answers)
  {
    hide RunWrite;
    NoNameNoChange(o, fs0, answers);
  }

  lemma NeitherOldNorNew(o: Options, fs0: Files, answers: seq<Answer>, torn: Content)
    requires Old(o, fs0) != Some(torn) && o.content != torn
    requires Now(o, RunWrite(o, fs0, answers).1) == Some(torn)
    ensures !IsOldOrNew(o, fs0, answers)
  {
    hide RunWrite;
  }

  // ----- exactly when a kept backup never loses the old content

  /** The old content, if it is not empty, is in the target or in the backup. */
  predicate NothingIsLost(o: Options, fs0: Files, answers: seq<Answer>) {
    var fs := RunWrite(o, fs0, answers).1;
    Old(o, fs0) == Some("") || Now(o, fs) == Old(o, fs0) || Lookup(fs, BackupOf(o)) == Old(o, fs0)
  }

  ghost predicate NeverLoses(o: Options, fs0: Files) {
    forall answers: seq<Answer> :: NothingIsLost(o, fs0, answers)
  }

  /** What the caller can know: there is nothing to lose, or it cannot be replaced. */
  ghost predicate HasNothingToLose(o: Options, fs0: Files) {
    || Old(o, fs0) == Some("") || Lookup(fs0, BackupOf(o)) == Old(o, fs0)
    || (o.atomicReplace && (Old(o, fs0) == Some(o.content) || IsRejected(o) || !HasTempName(o, fs0)))
  }

  /** In atomic mode too the new content can be installed after a failed probe. */
  lemma FailedProbeInstalls(o: Options, fs0: Files, suffix: string) returns (answers: seq<Answer>)
    requires o.atomicReplace && o.keepBackup && Old(o, fs0).Some? && !IsRejected(o)
    requires |suffix| == 6 && TempName(o, suffix) !in fs0
    ensures var (w, fs) := RunWrite(o, fs0, answers);
            w.probeFailed && Now(o, fs) == Some(o.content) && Lookup(fs, BackupOf(o)) == Lookup(fs0, BackupOf(o))
  {
    hide RunWrite, TempName, BackupOf, PrepareStep, TempStep, DirectStep;
    NamesDiffer(o, suffix);
    answers := TempIsWritten(o, fs0, suffix);
    if o.valid.Some? { answers := Extended(o, fs0, answers, Good); }
    answers := Extended(o, fs0, answers, Bad);
    answers := Extended(o, fs0, answers, Good);
    BackupIsOld(o, fs0, answers);
  }

  lemma NothingToLose(o: Options, fs0: Files, answers: seq<Answer>)
    requires o.keepBackup && Old(o, fs0).Some? && HasNothingToLose(o, fs0)
    ensures NothingIsLost(o, fs0, answers)
  {
    hide RunWrite, TempName;
    BackupIsOld(o, fs0, answers);
    if o.atomicReplace {
      if IsRejected(o) { NothingToRestore(o, fs0, answers); }
      if !HasTempName(o, fs0) { NoNameNoChange(o, fs0, answers); }
    }
  }

  /** A write with keep_backup never loses the old content, in any run, exactly if
      there is nothing to lose: otherwise a failed probe and a crash lose it. */
  lemma NeverLosesExactly(o: Options, fs0: Files)
    requires o.keepBackup && Old(o, fs0).Some?
    ensures NeverLoses(o, fs0) <==> HasNothingToLose(o, fs0)
  {
    hide RunWrite, TempName, NothingIsLost;
    if HasNothingToLose(o, fs0) {
      forall answers: seq<Answer> ensures NothingIsLost(o, fs0, answers) { NothingToLose(o, fs0, answers); }
    } else {
      var answers;
      if o.atomicReplace {
        var suffix :| |suffix| == 6 && TempName(o, suffix) !in fs0;
        answers := FailedProbeInstalls(o, fs0, suffix);
      } else {
        answers := FailedProbeLosesOld(o, fs0);
      }
      assert !NothingIsLost(o, fs0, answers) by { OldIsGone(o, fs0, answers); }
    }
  }

  lemma OldIsGone(o: Options, fs0: Files, answers: seq<Answer>)
    requires var fs := RunWrite(o, fs0, answers).1;
             Old(o, fs0) != Some("") && Now(o, fs) != Old(o, fs0) && Lookup(fs, BackupOf(o)) != Old(o, fs0)
    ensures !NothingIsLost(o, fs0, answers)
  {
  }
}
