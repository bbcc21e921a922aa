/** The write protocol as the program runs it, on a disk that it changes in place.
    What the operating system will answer is given beforehand, as a script, so the
    program is free in nothing: it is the run of the machine of DurableWrite on the
    script, and the theorems about the machine hold of what the methods leave. */
module FileWriter {
  import opened Prelude
  import opened DurableWrite
  import opened DurableWriteSafety

  /** Where the machine stands after a whole copy. */
  function AfterCopy(o: Options, w: Writer, ok: bool): Writer {
    match w.stage
    case CopyEarly => if ok then WithBackup(o, w, FirstWrite(o)) else Noting(w, BackupCopyFailed, Done)
    case CopyLate => if ok then WithBackup(o, w, Replace) else Noting(w, BackupCopyFailed, DropTemp)
    case RestoreInvalid => Noting(w, if ok then BackupRestored else BackupRestoreFailed, Done)
    case _ => Noting(w, if ok then BackupRestoredAfterReadback else BackupRestoreFailed, Done)
  }

  predicate IsCopy(o: Options, stage: Stage, from: Path, to: Path) {
    if stage.CopyEarly? || stage.CopyLate? then from == o.target && to == BackupOf(o)
    else (stage.RestoreInvalid? || stage.RestoreReadback?) && from == BackupOf(o) && to == o.target
  }

  /** What one answer does to a copy that is under way. */
  lemma CopyStep(o: Options, w: Writer, fs: Files, from: Path, to: Path, a: Answer)
    requires IsCopy(o, w.stage, from, to)
    ensures WriteStep(o, w, fs, a) == (if a.Part? then w else AfterCopy(o, w, CopySucceeds(fs, from, a)), Copied(fs, from, to, a))
    ensures from != to
  {
    hide FirstWrite;
  }

  /** After the end of the script every call fails. */
  function Scripted(script: seq<Answer>, k: nat): Answer {
    if k < |script| then script[k] else Bad
  }

  class Disk {
    var files: Files
    var script: seq<Answer>
    var next: nat
    ghost var before: Files
    ghost var run: seq<Answer>
    ghost var writer: Writer

    constructor (found: Files, answers: seq<Answer>)
      ensures files == before == found && run == [] && writer == Start && script == answers && next == 0
    {
      files, before, run, writer, script, next := found, found, [], Start, answers, 0;
    }

    /** What the next call will answer. */
    function Upcoming(): Answer
      reads `script, `next
    {
      Scripted(script, next)
    }

    /** The answers given so far are those of the script, and lead the machine to this
        writer and these files. */
    ghost predicate Follows(o: Options)
      reads this
    {
      && RunWrite(o, before, run) == (writer, files)
      && next == |run| && forall k | 0 <= k < |run| :: run[k] == Scripted(script, k)
    }

    /** Starts a new write, at the beginning of the script. */
    method Begin(o: Options)
      modifies `before, `run, `writer, `next
      ensures Stands(o, Start.report, Prepare) && run == [] && writer == Start && before == files
    {
      before, run, writer, next := files, [], Start, 0;
    }

    /** The call was made and acted upon. */
    method Took(o: Options, a: Answer, ghost was: Files)
      requires RunWrite(o, before, run) == (writer, was) && files == WriteStep(o, writer, was, a).1
      requires a == Upcoming() && next == |run| && forall k | 0 <= k < |run| :: run[k] == Scripted(script, k)
      modifies `run, `writer, `next
      ensures Follows(o) && writer == WriteStep(o, old(writer), was, a).0 && next == old(next) + 1
    {
      RunOneMore(o, before, run, a);
      writer, run := WriteStep(o, writer, was, a).0, run + [a];
      next := next + 1;
    }

    /** A copy goes on in pieces, and may fail after some of them; the destination then
        holds a beginning of the source. */
    method CopyFile(o: Options, from: Path, to: Path) returns (ok: bool)
      requires Follows(o) && IsCopy(o, writer.stage, from, to)
      modifies `files, `run, `writer, `next
      ensures Follows(o) && writer == AfterCopy(o, old(writer), ok)
      ensures forall p | p != to :: Lookup(files, p) == Lookup(old(files), p)
      ensures Lookup(files, to) == Lookup(old(files), to) || Begins(Lookup(files, to), Lookup(old(files), from))
      ensures ok ==> from in old(files) && Lookup(files, to) == Lookup(old(files), from)
    {
      hide RunWrite, WriteStep, AfterCopy, IsCopy;
      CopyStep(o, writer, files, from, to, Good);
      while Upcoming().Part?
        invariant Follows(o) && writer == old(writer)
        invariant forall p | p != to :: Lookup(files, p) == Lookup(old(files), p)
        invariant Lookup(files, to) == Lookup(old(files), to) || Begins(Lookup(files, to), Lookup(old(files), from))
        invariant Lookup(files, from) == Lookup(old(files), from)
        decreases |script| - next
      {
        var a := Upcoming();
        ghost var was := files;
        CopyStep(o, writer, was, from, to, a);
        if from in files && a.content <= files[from] { files := files[to := a.content]; }
        Took(o, a, was);
      }
      var a := Upcoming();
      ok := a.Good? && from in files;
      ghost var was := files;
      CopyStep(o, writer, was, from, to, a);
      if ok { files := files[to := files[from]]; }
      Took(o, a, was);
    }

    /** Writes the content through an open file, however little each call takes;
        interruptions are repeated. */
    method WriteAllBytes(o: Options, file: Path, ghost existed: bool) returns (ok: bool)
      requires Follows(o) && file in files && files[file] == ""
      requires if o.atomicReplace then writer.stage == TempBytes(o, 0) && file == TempOf(o, writer)
               else writer.stage == DirectBytes(o, existed, 0) && file == o.target
      modifies `files, `run, `writer, `next
      ensures Follows(o)
      ensures var stage := if o.atomicReplace then TempBytes(o, |o.content|) else DirectBytes(o, existed, |o.content|);
              writer == if ok then At(old(writer), stage)
                        else Noting(old(writer), if o.atomicReplace then TempWriteFailed else WriteFailed, if o.atomicReplace then AbortTemp else AbortDirect)
      ensures ok ==> file in files && files[file] == o.content
    {
      hide RunWrite;
      var offset: nat := 0;
      while offset < |o.content|
        invariant offset <= |o.content| && Follows(o)
        invariant writer == At(old(writer), if o.atomicReplace then TempBytes(o, offset) else DirectBytes(o, existed, offset))
        invariant file in files && files[file] == o.content[..offset]
        decreases |script| - next
      {
        var a := Upcoming();
        ghost var was := files;
        if a.Interrupted? {
          Took(o, a, was);
          continue;
        }
        if !a.Wrote? {
          Took(o, a, was);
          return false;
        }
        offset := Advanced(o, offset, a.count);
        files := files[file := o.content[..offset]];
        Took(o, a, was);
      }
      return true;
    }
  
    // ----- the parts of write_durable_file
    //
    // Each takes the report so far and returns it with whether to go on; when it
    // does not go on, the machine is done.

    ghost predicate Stands(o: Options, report: Report, stage: Stage)
      reads this
    {
      Follows(o) && writer.report == report && writer.stage == stage
    }

    method BackUpEarly(o: Options, found: Report) returns (report: Report, on: bool)
      requires Stands(o, found, ProbeEarly)
      modifies `files, `run, `writer, `next
      ensures Stands(o, report, if on then FirstWrite(o) else Done)
    {
      hide RunWrite, FirstWrite;
      report, on := found, true;
      var a := Upcoming();
      var present := a.Good? && o.target in files;
      Took(o, a, files);
      if present {
        on := CopyFile(o, o.target, BackupOf(o));
        if on {
          report := report.(backupPath := Some(BackupOf(o)));
        } else {
          report := report.(diagnostics := report.diagnostics + [BackupCopyFailed]);
        }
      }
    }

    method RemoveTemp(o: Options, temp: Path)
      requires Follows(o) && writer.stage.DropTemp? && temp == TempOf(o, writer)
      modifies `files, `run, `writer, `next
      ensures Follows(o) && writer == At(old(writer), Done)
    {
      hide RunWrite;
      var a := Upcoming();
      ghost var was := files;
      if a.Good? { files := files - {temp}; }
      Took(o, a, was);
    }

    method CloseAndDrop(o: Options, found: Report, temp: Path) returns (report: Report)
      requires Stands(o, found, AbortTemp) && temp == TempOf(o, writer)
      modifies `files, `run, `writer, `next
      ensures Stands(o, report, Done)
    {
      hide RunWrite;
      report := found;
      var a := Upcoming();
      if !a.Good? {
        report := report.(diagnostics := report.diagnostics + [TempCloseFailed]);
      }
      Took(o, a, files);
      RemoveTemp(o, temp);
    }

    method WriteTempFile(o: Options, found: Report) returns (report: Report, on: bool)
      requires o.atomicReplace && Stands(o, found, OpenTemp)
      modifies `files, `run, `writer, `next
      ensures Stands(o, report, if on then AfterWrite(o) else Done)
      ensures on ==> report.tempPath.Some?
    {
      hide RunWrite, TempName, AfterWrite;
      report, on := found, false;
      var a := Upcoming();
      if !a.Named? || |a.suffix| != 6 || TempName(o, a.suffix) in files {
        report := report.(diagnostics := report.diagnostics + [TempOpenFailed]);
        Took(o, a, files);
        return;
      }
      var temp := TempName(o, a.suffix);
      ghost var was := files;
      files := files[temp := ""];
      report := report.(tempPath := Some(temp));
      Took(o, a, was);
      var wrote := WriteAllBytes(o, temp, false);
      if !wrote {
        report := report.(diagnostics := report.diagnostics + [TempWriteFailed]);
        report := CloseAndDrop(o, report, temp);
        return;
      }
      if o.durable {
        a := Upcoming();
        Took(o, a, files);
        if !a.Good? {
          report := report.(diagnostics := report.diagnostics + [DurableFlushFailed]);
          report := CloseAndDrop(o, report, temp);
          return;
        }
      }
      a := Upcoming();
      on := a.Good?;
      Took(o, a, files);
      if !on {
        report := report.(diagnostics := report.diagnostics + [TempCloseFailed]);
        RemoveTemp(o, temp);
      }
    }

    method WritePlainFile(o: Options, found: Report) returns (report: Report, on: bool)
      requires Stands(o, found, WritePlain)
      modifies `files, `run, `writer, `next
      ensures Stands(o, report, if on then AfterWrite(o) else Done)
    {
      hide RunWrite, AfterWrite;
      report := found;
      while Upcoming().Part?
        invariant Stands(o, report, WritePlain)
        decreases |script| - next
      {
        var a := Upcoming();
        ghost var was := files;
        if a.content <= o.content { files := files[o.target := a.content]; }
        Took(o, a, was);
      }
      var a := Upcoming();
      on := a.Good? || (a.Lost? && a.content <= o.content);
      ghost var was := files;
      if on { files := files[o.target := if a.Good? then o.content else a.content]; }
      Took(o, a, was);
      if !on {
        report := report.(diagnostics := report.diagnostics + [WriteFailed]);
      }
    }

    method CloseDirectFile(o: Options, found: Report) returns (report: Report)
      requires Stands(o, found, AbortDirect)
      modifies `run, `writer, `next
      ensures Stands(o, report, Done)
    {
      hide RunWrite;
      report := found;
      var a := Upcoming();
      if !a.Good? {
        report := report.(diagnostics := report.diagnostics + [CloseFailed]);
      }
      Took(o, a, files);
    }

    method FlushAndClose(o: Options, found: Report, existed: bool) returns (report: Report, on: bool)
      requires Stands(o, found, FlushDirect(existed))
      modifies `files, `run, `writer, `next
      ensures Stands(o, report, if on then AfterWrite(o) else Done)
    {
      hide RunWrite, AfterWrite, PrepareStep, TempStep, CheckStep, InstallStep;
      report, on := found, false;
      var a := Upcoming();
      Took(o, a, files);
      if !a.Good? {
        report := CloseDirectFile(o, report.(diagnostics := report.diagnostics + [DurableFlushFailed]));
        return;
      }
      a := Upcoming();
      Took(o, a, files);
      if !a.Good? {
        report := report.(diagnostics := report.diagnostics + [CloseFailed]);
        return;
      }
      on := true;
      if !existed {
        a := Upcoming();
        on := a.Good?;
        Took(o, a, files);
        if !on {
          report := report.(diagnostics := report.diagnostics + [ParentFlushFailed]);
        }
      }
    }

    method WriteDirectFile(o: Options, found: Report) returns (report: Report, on: bool)
      requires !o.atomicReplace && Stands(o, found, ProbeExisting)
      modifies `files, `run, `writer, `next
      ensures Stands(o, report, if on then AfterWrite(o) else Done)
    {
      hide RunWrite, AfterWrite, PrepareStep, TempStep, CheckStep, InstallStep;
      report, on := found, false;
      var a := Upcoming();
      var existed := a.Good? && o.target in files;
      Took(o, a, files);
      a := Upcoming();
      ghost var was := files;
      if !a.Good? {
        report := report.(diagnostics := report.diagnostics + [WriteFailed]);
        Took(o, a, was);
        return;
      }
      files := files[o.target := ""];
      Took(o, a, was);
      var wrote := WriteAllBytes(o, o.target, existed);
      if !wrote {
        report := CloseDirectFile(o, report.(diagnostics := report.diagnostics + [WriteFailed]));
        return;
      }
      report, on := FlushAndClose(o, report, existed);
    }

    method RejectWritten(o: Options, found: Report, file: Path) returns (report: Report)
      requires Stands(o, found, if o.atomicReplace then RemoveInvalid else if found.backupPath.Some? then RestoreInvalid else Done)
      requires o.atomicReplace ==> file == TempOf(o, writer)
      modifies `files, `run, `writer, `next
      ensures Stands(o, report, Done)
    {
      hide RunWrite, BackupOf, PrepareStep, TempStep, DirectStep, InstallStep;
      report := found;
      if o.atomicReplace {
        var a := Upcoming();
        ghost var was := files;
        if a.Good? { files := files - {file}; }
        Took(o, a, was);
        report := report.(diagnostics := report.diagnostics + [if a.Good? then TempCleaned else TempCleanupFailed]);
      } else if report.backupPath.Some? {
        var restored := CopyFile(o, BackupOf(o), o.target);
        report := report.(diagnostics := report.diagnostics + [if restored then BackupRestored else BackupRestoreFailed]);
      }
    }

    method CheckWritten(o: Options, found: Report, file: Path) returns (report: Report, on: bool)
      requires Stands(o, found, AfterWrite(o)) && file == if o.atomicReplace then TempOf(o, writer) else o.target
      modifies `files, `run, `writer, `next
      ensures Stands(o, report, if on then AfterValidation(o) else Done)
      ensures on ==> report == found
    {
      hide RunWrite, AfterValidation, BackupOf, PrepareStep, TempStep, DirectStep, InstallStep;
      report, on := found, true;
      if o.valid.None? {
        return;
      }
      var a := Upcoming();
      on := a.Good? && file in files && o.valid.value(files[file]);
      Took(o, a, files);
      if on {
        return;
      }
      report := RejectWritten(o, report.(diagnostics := report.diagnostics + [ValidationFailed]), file);
    }

    method BackUpLate(o: Options, found: Report, temp: Path) returns (report: Report, on: bool)
      requires o.atomicReplace && Stands(o, found, ProbeLate) && temp == TempOf(o, writer)
      modifies `files, `run, `writer, `next
      ensures Stands(o, report, if on then Replace else Done)
      ensures on ==> temp == TempOf(o, writer)
    {
      hide RunWrite, BackupOf;
      report, on := found, true;
      var a := Upcoming();
      var present := a.Good? && o.target in files;
      Took(o, a, files);
      if present {
        on := CopyFile(o, o.target, BackupOf(o));
        if on {
          report := report.(backupPath := Some(BackupOf(o)));
        } else {
          report := report.(diagnostics := report.diagnostics + [BackupCopyFailed]);
          RemoveTemp(o, temp);
        }
      }
    }

    method Install(o: Options, found: Report, temp: Path) returns (report: Report, on: bool)
      requires o.atomicReplace && Stands(o, found, Replace) && temp == TempOf(o, writer)
      modifies `files, `run, `writer, `next
      ensures Stands(o, report, if on then ReadBack else Done)
    {
      hide RunWrite;
      report, on := found, true;
      var a := Upcoming();
      ghost var was := files;
      if !a.Good? || temp !in files {
        report, on := report.(diagnostics := report.diagnostics + [AtomicReplaceFailed]), false;
        Took(o, a, was);
        RemoveTemp(o, temp);
        return;
      }
      files := (files - {temp})[o.target := files[temp]];
      Took(o, a, was);
      if o.durable {
        a := Upcoming();
        on := a.Good?;
        Took(o, a, files);
        if !on {
          report := report.(diagnostics := report.diagnostics + [ParentFlushFailed]);
        }
      }
    }

    method RestorePersisted(o: Options, found: Report) returns (report: Report)
      requires Stands(o, found, RestoreReadback)
      modifies `files, `run, `writer, `next
      ensures Stands(o, report, Done)
    {
      hide RunWrite, BackupOf, WriteStep;
      var restored := CopyFile(o, BackupOf(o), o.target);
      report := found.(diagnostics := found.diagnostics + [if restored then BackupRestoredAfterReadback else BackupRestoreFailed]);
    }

    method CheckPersisted(o: Options, found: Report) returns (report: Report)
      requires Stands(o, found, ReadBack)
      modifies `files, `run, `writer, `next
      ensures Stands(o, report, Done)
    {
      hide RunWrite, BackupOf, PrepareStep, TempStep, DirectStep, CheckStep;
      report := found;
      var a := Upcoming();
      Took(o, a, files);
      if a.Good? && o.target in files && files[o.target] == o.content {
        return report.(ok := true, diagnostics := report.diagnostics + [WriteOk]);
      }
      var missing := !a.Misread? && !(a.Good? && o.target in files);
      report := report.(diagnostics := report.diagnostics + [if missing then ReadbackFailed else ReadbackMismatch]);
      if report.backupPath.Some? {
        report := RestorePersisted(o, report);
      }
    }

    /** The whole protocol. Its report is true of the files it leaves. */
    method WriteDurableFile(o: Options) returns (report: Report)
      requires Stands(o, Start.report, Prepare) && run == [] && writer == Start && before == files
      modifies `files, `run, `writer, `next
      ensures Stands(o, report, Done)
      ensures AllSucceed(o, before, run) && !IsRejected(o) ==> report.ok
      ensures report.ok ==> Lookup(files, o.target) == Some(o.content) && report.diagnostics == [WriteOk]
      ensures !report.ok ==> FailureMeans(o, Lookup(old(files), o.target), report.diagnostics, Lookup(files, o.target))
    {
      hide RunWrite, BackupOf, FailureMeans;
      report := Report(false, None, None, []);
      var a := Upcoming();
      Took(o, a, files);
      var on := a.Good?;
      if !on {
        report := report.(diagnostics := [DirectoryCreateFailed]);
      }
      if on && !o.atomicReplace && o.keepBackup {
        report, on := BackUpEarly(o, report);
      }
      var written := o.target;
      if on {
        if o.atomicReplace {
          report, on := WriteTempFile(o, report);
          written := match report.tempPath case Some(p) => p case None => o.target;
        } else if !o.durable {
          report, on := WritePlainFile(o, report);
        } else {
          report, on := WriteDirectFile(o, report);
        }
      }
      if on {
        report, on := CheckWritten(o, report, written);
      }
      if on && o.atomicReplace && o.keepBackup {
        report, on := BackUpLate(o, report, written);
      }
      if on && o.atomicReplace {
        report, on := Install(o, report, written);
      }
      if on {
        report := CheckPersisted(o, report);
      }
      ReportIsTrue(o, before, run);
      if AllSucceed(o, before, run) && !IsRejected(o) { FailureNeedsAFailedCall(o, before, run); }
    }
  }
}
