/** One versioned commit as the program runs it, and the registry of mutexes. What
    other writers do in between is the subject of VersionedCommit. */
module SettingsWriter {
  import opened Prelude
  import opened DurableWrite
  import opened DurableWriteSafety
  import opened FileWriter
  import opened VersionedCommit

  datatype Refusal = TokenInvalid | TargetMismatch | DirectoryFailed | GuardFailed | VersionReadFailed | VersionStale

  /** Either the commit was refused, or the durable write was run. */
  datatype CommitReport = Refused(reason: Refusal) | Ran(write: Report)

  predicate Succeeded(report: CommitReport) {
    report.Ran? && report.write.ok
  }

  /** The per-process registry: weak pointers, so `live` tells whether some writer
      still refers to the entry's mutex. */
  class MutexRegistry {
    var entries: map<nat, nat>
    var next: nat

    constructor ()
      ensures entries == map[] && next == 0
    {
      entries, next := map[], 0;
    }

    method MutexForTarget(process: nat, live: bool) returns (mutex: nat)
      modifies this
      ensures (entries, next, mutex) == MutexFor(old(entries), old(next), process, live)
    {
      if process in entries && live {
        return entries[process];
      }
      mutex := next;
      next := next + 1;
      entries := entries[process := mutex];
    }
  }

  /** What the calls before the write answer: creating the directory, taking the lock
      file, asking for the target, and reading it. */
  datatype Calls = Calls(prepared: bool, locked: bool, asked: bool, readable: bool)

  method TargetMatchesToken(disk: Disk, r: Request, calls: Calls) returns (refusal: Option<Refusal>)
    ensures refusal == Some(VersionReadFailed) <==> !IsRead(disk.files, r, calls)
    ensures refusal.None? <==> IsRead(disk.files, r, calls) && Lookup(disk.files, r.options.target) == Token(r)
    ensures refusal == Some(VersionStale) <==> IsRead(disk.files, r, calls) && Lookup(disk.files, r.options.target) != Token(r)
    ensures refusal.None? <==> TokenMatches(r, Lookup(disk.files, r.options.target), IsRead(disk.files, r, calls))
  {
    if !calls.asked {
      return Some(VersionReadFailed);
    }
    if r.options.target !in disk.files {
      return if r.existed then Some(VersionStale) else None;
    }
    if !calls.readable {
      return Some(VersionReadFailed);
    }
    if !r.existed || disk.files[r.options.target] != r.expected {
      return Some(VersionStale);
    }
    return None;
  }

  /** It is known what the target holds: a missing file need not be read. */
  predicate IsRead(files: Files, r: Request, calls: Calls) {
    calls.asked && (calls.readable || r.options.target !in files)
  }

  /** A commit is refused, for exactly the first thing that is wrong and without touching
      a file, or else the durable write is run; then it replaces exactly the content that
      the token says, and succeeds if no call of the write fails. The mutex is looked up
      only after the checks that need no lock; `live` is as in the registry, and taking
      the mutex may wait but not fail. */
  method WriteVersioned(disk: Disk, registry: MutexRegistry, live: bool, r: Request, calls: Calls) returns (report: CommitReport)
    modifies registry, disk`files, disk`before, disk`run, disk`writer, disk`next
    ensures report == Refused(TokenInvalid) <==> !r.validToken
    ensures report == Refused(TargetMismatch) <==> r.validToken && !r.sameDomain
    ensures report == Refused(DirectoryFailed) <==> r.validToken && r.sameDomain && !calls.prepared
    ensures report == Refused(GuardFailed) <==> r.validToken && r.sameDomain && calls.prepared && !calls.locked
    ensures report == Refused(VersionReadFailed) <==>
              r.validToken && r.sameDomain && calls.prepared && calls.locked && !IsRead(old(disk.files), r, calls)
    ensures report == Refused(VersionStale) <==>
              && r.validToken && r.sameDomain && calls.prepared && calls.locked && IsRead(old(disk.files), r, calls)
              && Lookup(old(disk.files), r.options.target) != Token(r)
    ensures report.Ran? <==>
              && r.validToken && r.sameDomain && calls.prepared && calls.locked && IsRead(old(disk.files), r, calls)
              && Lookup(old(disk.files), r.options.target) == Token(r)
    ensures report.Refused? ==> disk.files == old(disk.files)
    ensures report.Ran? ==> disk.Stands(r.options, report.write, Done) && disk.before == old(disk.files)
    ensures report.Ran? && AllSucceed(r.options, old(disk.files), disk.run) && !IsRejected(r.options) ==> Succeeded(report)
    ensures Succeeded(report) ==> Lookup(disk.files, r.options.target) == Some(r.options.content)
    ensures report.Ran? && !report.write.ok ==>
              FailureMeans(r.options, Token(r), report.write.diagnostics, Lookup(disk.files, r.options.target))
    ensures (registry.entries, registry.next) ==
            if report.Refused? && report.reason in {TokenInvalid, TargetMismatch, DirectoryFailed} then (old(registry.entries), old(registry.next))
            else var (entries, next, _) := MutexFor(old(registry.entries), old(registry.next), r.process, live); (entries, next)
  {
    hide RunWrite, FailureMeans, AllSucceed, IsRejected;
    if !r.validToken {
      return Refused(TokenInvalid);
    }
    if !r.sameDomain {
      return Refused(TargetMismatch);
    }
    if !calls.prepared {
      return Refused(DirectoryFailed);
    }
    var mutex := registry.MutexForTarget(r.process, live);
    if !calls.locked {
      return Refused(GuardFailed);
    }
    var refusal := TargetMatchesToken(disk, r, calls);
    if refusal.Some? {
      return Refused(refusal.value);
    }
    disk.Begin(r.options);
    var written := disk.WriteDurableFile(r.options);
    return Ran(written);
  }
}
