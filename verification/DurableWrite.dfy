/** Writing one file so that a failure or a crash does not lose the old content:
    the protocol as a machine that makes one call to the operating system at a
    time, and every call may fail. A run may stop anywhere; that is a crash. */
module DurableWrite {
  import opened Prelude

  type Path = string
  type Content = string
  type Files = map<Path, Content>

  function Lookup(fs: Files, p: Path): Option<Content> {
    if p in fs then Some(fs[p]) else None
  }

  /** `valid` is what the validation callback accepts, if there is a callback. */
  datatype Options = Options(
    target: Path, content: Content, keepBackup: bool, atomicReplace: bool, durable: bool, valid: Option<Content -> bool>)

  function BackupOf(o: Options): Path {
    o.target + ".bak"
  }

  function TempName(o: Options, suffix: string): Path {
    o.target + ".tmp." + suffix
  }

  datatype Code =
    | DirectoryCreateFailed | BackupCopyFailed | TempOpenFailed | TempWriteFailed | TempCloseFailed
    | DurableFlushFailed | WriteFailed | CloseFailed | ValidationFailed | TempCleaned | TempCleanupFailed
    | BackupRestored | BackupRestoreFailed | AtomicReplaceFailed | ParentFlushFailed
    | ReadbackFailed | ReadbackMismatch | BackupRestoredAfterReadback | WriteOk

  datatype Report = Report(ok: bool, tempPath: Option<Path>, backupPath: Option<Path>, diagnostics: seq<Code>)

  /** What the operating system answers. `Part` is a copy or a buffered write that
      has truncated its file, got so far and goes on; `Lost` is a buffered write that
      reports success although only so much reached the file; `Misread` is a read that
      returns something else than was written. */
  datatype Answer = Good | Bad | Part(content: Content) | Lost(content: Content) | Wrote(count: nat) | Interrupted | Named(suffix: string) | Misread

  datatype Stage =
    | Prepare | ProbeEarly | CopyEarly
    | OpenTemp | WriteTemp(offset: nat) | FlushTemp | CloseTemp | AbortTemp | DropTemp
    | WritePlain
    | ProbeExisting | OpenDirect(existed: bool) | WriteDirect(existed: bool, offset: nat) | FlushDirect(existed: bool)
    | CloseDirect(existed: bool) | AbortDirect | FlushNewParent
    | Validate | RemoveInvalid | RestoreInvalid
    | ProbeLate | CopyLate | Replace | FlushParent | ReadBack | RestoreReadback | Done

  /** `probeFailed` notes that asking whether the target exists failed before a
      backup was made; the source ignores that error. */
  datatype Writer = Writer(stage: Stage, report: Report, probeFailed: bool)

  const Start := Writer(Prepare, Report(false, None, None, []), false)

  function At(w: Writer, stage: Stage): Writer {
    w.(stage := stage)
  }

  function Noting(w: Writer, code: Code, stage: Stage): Writer {
    w.(stage := stage, report := w.report.(diagnostics := w.report.diagnostics + [code]))
  }

  function AfterPrepare(o: Options): Stage {
    if !o.atomicReplace && o.keepBackup then ProbeEarly else FirstWrite(o)
  }

  function FirstWrite(o: Options): Stage {
    if o.atomicReplace then OpenTemp else if !o.durable then WritePlain else ProbeExisting
  }

  function TempBytes(o: Options, offset: nat): Stage {
    if offset < |o.content| then WriteTemp(offset) else if o.durable then FlushTemp else CloseTemp
  }

  function DirectBytes(o: Options, existed: bool, offset: nat): Stage {
    if offset < |o.content| then WriteDirect(existed, offset) else FlushDirect(existed)
  }

  function AfterWrite(o: Options): Stage {
    if o.valid.Some? then Validate else AfterValidation(o)
  }

  function AfterValidation(o: Options): Stage {
    if !o.atomicReplace then ReadBack else if o.keepBackup then ProbeLate else Replace
  }

  function TempOf(o: Options, w: Writer): Path {
    match w.report.tempPath case Some(p) => p case None => TempName(o, "")
  }

  function Copied(fs: Files, from: Path, to: Path, a: Answer): Files {
    match a
    case Part(c) => if from in fs && c <= fs[from] then fs[to := c] else fs
    case Good => if from in fs then fs[to := fs[from]] else fs
    case _ => fs
  }

  predicate CopySucceeds(fs: Files, from: Path, a: Answer) {
    a.Good? && from in fs
  }

  function WithBackup(o: Options, w: Writer, stage: Stage): Writer {
    w.(stage := stage, report := w.report.(backupPath := Some(BackupOf(o))))
  }

  /** The offset after a write that reports n bytes. */
  function Advanced(o: Options, offset: nat, n: nat): nat {
    if offset + n < |o.content| then offset + n else |o.content|
  }

  function PrepareStep(o: Options, w: Writer, fs: Files, a: Answer): (Writer, Files) {
    match w.stage
    case ProbeEarly =>
      (if a.Good? then At(w, if o.target in fs then CopyEarly else FirstWrite(o))
       else At(w, FirstWrite(o)).(probeFailed := true), fs)
    case CopyEarly =>
      (if a.Part? then w
       else if CopySucceeds(fs, o.target, a) then WithBackup(o, w, FirstWrite(o))
       else Noting(w, BackupCopyFailed, Done), Copied(fs, o.target, BackupOf(o), a))
    case _ => (if a.Good? then At(w, AfterPrepare(o)) else Noting(w, DirectoryCreateFailed, Done), fs)
  }

  function TempStep(o: Options, w: Writer, fs: Files, a: Answer): (Writer, Files) {
    var temp := TempOf(o, w);
    match w.stage
    case OpenTemp =>
      if a.Named? && |a.suffix| == 6 && TempName(o, a.suffix) !in fs then
        (At(w, TempBytes(o, 0)).(report := w.report.(tempPath := Some(TempName(o, a.suffix)))), fs[TempName(o, a.suffix) := ""])
      else (Noting(w, TempOpenFailed, Done), fs)
    case WriteTemp(offset) =>
      if a.Interrupted? then (w, fs)
      else if a.Wrote? && offset <= |o.content| then
        (At(w, TempBytes(o, Advanced(o, offset, a.count))), fs[temp := o.content[..Advanced(o, offset, a.count)]])
      else (Noting(w, TempWriteFailed, AbortTemp), fs)
    case FlushTemp => (if a.Good? then At(w, CloseTemp) else Noting(w, DurableFlushFailed, AbortTemp), fs)
    case CloseTemp => (if a.Good? then At(w, AfterWrite(o)) else Noting(w, TempCloseFailed, DropTemp), fs)
    case AbortTemp => (if a.Good? then At(w, DropTemp) else Noting(w, TempCloseFailed, DropTemp), fs)
    case _ => (At(w, Done), if a.Good? then fs - {temp} else fs)
  }

  function DirectStep(o: Options, w: Writer, fs: Files, a: Answer): (Writer, Files) {
    match w.stage
    case WritePlain =>
      if a.Part? then (w, if a.content <= o.content then fs[o.target := a.content] else fs)
      else if a.Good? then (At(w, AfterWrite(o)), fs[o.target := o.content])
      else if a.Lost? && a.content <= o.content then (At(w, AfterWrite(o)), fs[o.target := a.content])
      else (Noting(w, WriteFailed, Done), fs)
    case ProbeExisting => (At(w, OpenDirect(a.Good? && o.target in fs)), fs)
    case OpenDirect(existed) =>
      if a.Good? then (At(w, DirectBytes(o, existed, 0)), fs[o.target := ""]) else (Noting(w, WriteFailed, Done), fs)
    case WriteDirect(existed, offset) =>
      if a.Interrupted? then (w, fs)
      else if a.Wrote? && offset <= |o.content| then
        (At(w, DirectBytes(o, existed, Advanced(o, offset, a.count))), fs[o.target := o.content[..Advanced(o, offset, a.count)]])
      else (Noting(w, WriteFailed, AbortDirect), fs)
    case FlushDirect(existed) => (if a.Good? then At(w, CloseDirect(existed)) else Noting(w, DurableFlushFailed, AbortDirect), fs)
    case CloseDirect(existed) =>
      (if a.Good? then At(w, if existed then AfterWrite(o) else FlushNewParent) else Noting(w, CloseFailed, Done), fs)
    case AbortDirect => (if a.Good? then At(w, Done) else Noting(w, CloseFailed, Done), fs)
    case _ => (if a.Good? then At(w, AfterWrite(o)) else Noting(w, ParentFlushFailed, Done), fs)
  }

  function CheckStep(o: Options, w: Writer, fs: Files, a: Answer): (Writer, Files) {
    var temp := TempOf(o, w);
    match w.stage
    case Validate =>
      var file := if o.atomicReplace then temp else o.target;
      (if a.Good? && file in fs && (o.valid.Some? ==> o.valid.value(fs[file])) then At(w, AfterValidation(o))
       else Noting(w, ValidationFailed, if o.atomicReplace then RemoveInvalid else if w.report.backupPath.Some? then RestoreInvalid else Done), fs)
    case RemoveInvalid =>
      if a.Good? then (Noting(w, TempCleaned, Done), fs - {temp}) else (Noting(w, TempCleanupFailed, Done), fs)
    case _ =>
      (if a.Part? then w
       else if CopySucceeds(fs, BackupOf(o), a) then Noting(w, BackupRestored, Done)
       else Noting(w, BackupRestoreFailed, Done), Copied(fs, BackupOf(o), o.target, a))
  }

  function InstallStep(o: Options, w: Writer, fs: Files, a: Answer): (Writer, Files) {
    var temp := TempOf(o, w);
    match w.stage
    case ProbeLate =>
      (if a.Good? then At(w, if o.target in fs then CopyLate else Replace) else At(w, Replace).(probeFailed := true), fs)
    case CopyLate =>
      (if a.Part? then w
       else if CopySucceeds(fs, o.target, a) then WithBackup(o, w, Replace)
       else Noting(w, BackupCopyFailed, DropTemp), Copied(fs, o.target, BackupOf(o), a))
    case Replace =>
      if a.Good? && temp in fs then (At(w, if o.durable then FlushParent else ReadBack), (fs - {temp})[o.target := fs[temp]])
      else (Noting(w, AtomicReplaceFailed, DropTemp), fs)
    case FlushParent => (if a.Good? then At(w, ReadBack) else Noting(w, ParentFlushFailed, Done), fs)
    case ReadBack =>
      if a.Good? && Lookup(fs, o.target) == Some(o.content) then
        (Noting(w, WriteOk, Done).(report := Noting(w, WriteOk, Done).report.(ok := true)), fs)
      else
        (Noting(w, if a.Misread? || (a.Good? && o.target in fs) then ReadbackMismatch else ReadbackFailed,
                if w.report.backupPath.Some? then RestoreReadback else Done), fs)
    case _ =>
      (if a.Part? then w
       else if CopySucceeds(fs, BackupOf(o), a) then Noting(w, BackupRestoredAfterReadback, Done)
       else Noting(w, BackupRestoreFailed, Done), Copied(fs, BackupOf(o), o.target, a))
  }

  datatype Phase = Preparing | InTemp | InTarget | Checking | Installing | Over

  function PhaseOf(stage: Stage): Phase {
    match stage
    case Prepare | ProbeEarly | CopyEarly => Preparing
    case OpenTemp | WriteTemp(_) | FlushTemp | CloseTemp | AbortTemp | DropTemp => InTemp
    case Validate | RemoveInvalid | RestoreInvalid => Checking
    case ProbeLate | CopyLate | Replace | FlushParent | ReadBack | RestoreReadback => Installing
    case Done => Over
    case _ => InTarget
  }

  /** One call to the operating system and what the writer does with its answer. */
  function WriteStep(o: Options, w: Writer, fs: Files, a: Answer): (Writer, Files) {
    match PhaseOf(w.stage)
    case Preparing => PrepareStep(o, w, fs, a)
    case InTemp => TempStep(o, w, fs, a)
    case InTarget => DirectStep(o, w, fs, a)
    case Checking => CheckStep(o, w, fs, a)
    case Installing => InstallStep(o, w, fs, a)
    case Over => (w, fs)
  }

  function RunWrite(o: Options, fs: Files, answers: seq<Answer>): (Writer, Files) {
    if answers == [] then (Start, fs)
    else
      var (w, now) := RunWrite(o, fs, answers[..|answers| - 1]);
      WriteStep(o, w, now, answers[|answers| - 1])
  }

  lemma RunNothing(o: Options, fs: Files)
    ensures RunWrite(o, fs, []) == (Start, fs)
  {
  }

  lemma RunOneMore(o: Options, fs: Files, answers: seq<Answer>, a: Answer)
    ensures RunWrite(o, fs, answers + [a]) ==
            var (w, now) := RunWrite(o, fs, answers); WriteStep(o, w, now, a)
  {
    assert (answers + [a])[..|answers|] == answers;
  }

  /** Gives one more answer to a run. */
  lemma Extended(o: Options, fs: Files, answers: seq<Answer>, a: Answer) returns (more: seq<Answer>)
    ensures RunWrite(o, fs, more) == var (w, now) := RunWrite(o, fs, answers); WriteStep(o, w, now, a)
  {
    RunOneMore(o, fs, answers, a);
    more := answers + [a];
  }
}
