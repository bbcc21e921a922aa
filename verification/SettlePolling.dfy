/** Polling a file until it is stable: one poll, and whole series of polls. */
module SettlePolling {
  import opened Prelude
  import opened WatchEvents

  /** Times and durations are milliseconds on the steady clock. */
  datatype SettleOptions = SettleOptions(
    debounceFor: int, stableFor: int, pollInterval: int, timeoutAfter: Option<int>, maxPendingPaths: nat)

  datatype Task = Task(
    key: string, generation: nat, event: Event, nextCheckAt: int,
    timeoutAt: Option<int>, lastSize: Option<nat>, lastWrite: Option<int>, stableSince: Option<int>)

  /** What a poll sees: the time, and the file's size and write time or the error
      text of the call that failed. */
  datatype FileState = Unreadable(message: string) | Readable(size: nat, writeTime: int)
  datatype Sample = Sample(now: int, file: FileState)

  datatype Verdict = Deliver | Skip

  const TimedOut := Diagnostic(SettleTimeout, Text("File did not become stable before the settle timeout"))
  const Ready := Diagnostic(SettleReady, Text("File size and mtime are stable"))

  function Noted(task: Task, d: Diagnostic): Task {
    task.(event := task.event.(diagnostics := task.event.diagnostics + [d]))
  }

  function Interval(o: SettleOptions): (p: int)
    ensures p > 0
  {
    if o.pollInterval > 0 then o.pollInterval else 100
  }

  function Capped(at: int, timeoutAt: Option<int>): int {
    if timeoutAt.Some? && at > timeoutAt.value then timeoutAt.value else at
  }

  /** One poll of a settle task. */
  function Poll(task: Task, o: SettleOptions, sample: Sample): (Verdict, Task) {
    if o.stableFor <= 0 then (Deliver, task)
    else
      var timed := if task.timeoutAt.None? && o.timeoutAfter.Some? then task.(timeoutAt := Some(sample.now + o.timeoutAfter.value))
                   else task;
      if timed.timeoutAt.Some? && sample.now >= timed.timeoutAt.value then (Deliver, Noted(timed, TimedOut))
      else
        match sample.file
        case Unreadable(message) => (Deliver, Noted(timed, Diagnostic(SettleTimeout, Text(message))))
        case Readable(size, writeTime) =>
          var next := Capped(sample.now + Interval(o), timed.timeoutAt);
          if timed.lastSize != Some(size) || timed.lastWrite != Some(writeTime) then
            (Skip, timed.(lastSize := Some(size), lastWrite := Some(writeTime), stableSince := Some(sample.now), nextCheckAt := next))
          else if timed.stableSince.Some? && sample.now - timed.stableSince.value < o.stableFor then
            (Skip, timed.(nextCheckAt := next))
          else (Deliver, Noted(timed, Ready))
  }

  // ----- series of polls

  /** How a series ends: delivered by poll number `polls`, or still waiting. */
  datatype Outcome = Delivered(polls: nat, task: Task) | Waiting(task: Task)

  function PollFrom(task: Task, o: SettleOptions, samples: seq<Sample>, i: nat): Outcome
    requires i <= |samples|
    decreases |samples| - i
  {
    if i == |samples| then Waiting(task)
    else match Poll(task, o, samples[i])
         case (Deliver, done) => Delivered(i + 1, done)
         case (Skip, next) => PollFrom(next, o, samples, i + 1)
  }

  /** A task as enqueueing leaves it: nothing sampled yet. */
  predicate Fresh(task: Task) {
    task.timeoutAt == None && task.lastSize == None && task.lastWrite == None && task.stableSince == None
  }

  // The reference: what the samples alone say, without any task state.

  /** Where the run of equal samples that ends at k begins. */
  function RunStart(samples: seq<Sample>, k: nat): (j: nat)
    requires k < |samples|
    ensures j <= k
    ensures forall i | j <= i <= k :: samples[i].file == samples[k].file
    ensures j > 0 ==> samples[j - 1].file != samples[k].file
  {
    if k > 0 && samples[k - 1].file == samples[k].file then RunStart(samples, k - 1) else k
  }

  predicate HasTimedOut(o: SettleOptions, samples: seq<Sample>, k: nat)
    requires k < |samples|
  {
    o.timeoutAfter.Some? && samples[k].now - samples[0].now >= o.timeoutAfter.value
  }

  predicate IsStable(o: SettleOptions, samples: seq<Sample>, k: nat)
    requires k < |samples|
  {
    samples[k].now - samples[RunStart(samples, k)].now >= o.stableFor
  }

  /** The diagnostic with which poll k delivers, given that no earlier one did. */
  function Reason(o: SettleOptions, samples: seq<Sample>, k: nat): Option<Diagnostic>
    requires k < |samples|
  {
    if HasTimedOut(o, samples, k) then Some(TimedOut)
    else match samples[k].file
         case Unreadable(message) => Some(Diagnostic(SettleTimeout, Text(message)))
         case Readable(_, _) => if IsStable(o, samples, k) then Some(Ready) else None
  }

  function TimeoutAt(o: SettleOptions, samples: seq<Sample>): Option<int>
    requires samples != []
  {
    match o.timeoutAfter case Some(t) => Some(samples[0].now + t) case None => None
  }

  function NextCheck(o: SettleOptions, samples: seq<Sample>, k: nat): int
    requires k < |samples|
  {
    Capped(samples[k].now + Interval(o), TimeoutAt(o, samples))
  }

  /** A settle task after i undelivered polls, in terms of the samples. */
  predicate Tracks(task: Task, start: Task, o: SettleOptions, samples: seq<Sample>, i: nat)
    requires i <= |samples|
  {
    if i == 0 then task == start
    else
      && task.event == start.event && task.key == start.key && task.generation == start.generation
      && task.timeoutAt == TimeoutAt(o, samples)
      && samples[i - 1].file.Readable?
      && task.lastSize == Some(samples[i - 1].file.size)
      && task.lastWrite == Some(samples[i - 1].file.writeTime)
      && task.stableSince == Some(samples[RunStart(samples, i - 1)].now)
      && task.nextCheckAt == NextCheck(o, samples, i - 1)
  }

  lemma PollIsReason(task: Task, start: Task, o: SettleOptions, samples: seq<Sample>, i: nat)
    requires i < |samples| && Fresh(start) && o.stableFor > 0 && Tracks(task, start, o, samples, i)
    ensures match (Poll(task, o, samples[i]), Reason(o, samples, i))
            case ((Deliver, done), Some(d)) =>
              done.event == start.event.(diagnostics := start.event.diagnostics + [d])
              && done.key == start.key && done.generation == start.generation
            case ((Skip, next), None) => Tracks(next, start, o, samples, i + 1)
            case _ => false
  {
    assert i > 0 && samples[i].file == samples[i - 1].file ==> RunStart(samples, i) == RunStart(samples, i - 1);
  }

  lemma {:induction false} PollFromIsReason(task: Task, start: Task, o: SettleOptions, samples: seq<Sample>, i: nat)
    requires i <= |samples| && Fresh(start) && o.stableFor > 0 && Tracks(task, start, o, samples, i)
    ensures match PollFrom(task, o, samples, i)
            case Delivered(n, done) =>
              && i < n <= |samples|
              && (forall k | i <= k < n - 1 :: Reason(o, samples, k) == None)
              && Reason(o, samples, n - 1).Some?
              && done.event == start.event.(diagnostics := start.event.diagnostics + [Reason(o, samples, n - 1).value])
            case Waiting(next) =>
              (forall k | i <= k < |samples| :: Reason(o, samples, k) == None) && Tracks(next, start, o, samples, |samples|)
    decreases |samples| - i
  {
    hide Poll, Reason, Tracks, Fresh;
    if i < |samples| {
      PollIsReason(task, start, o, samples, i);
      var (verdict, next) := Poll(task, o, samples[i]);
      if verdict == Skip { PollFromIsReason(next, start, o, samples, i + 1); }
    }
  }

  /** A series of polls delivers at the first sample that gives a reason, with
      that reason attached, and waits for as long as none does. */
  lemma SeriesDeliversAtFirstReason(task: Task, o: SettleOptions, samples: seq<Sample>)
    requires Fresh(task) && o.stableFor > 0
    ensures match PollFrom(task, o, samples, 0)
            case Delivered(n, done) =>
              && 0 < n <= |samples|
              && (forall k | 0 <= k < n - 1 :: Reason(o, samples, k) == None)
              && Reason(o, samples, n - 1).Some?
              && done.event == task.event.(diagnostics := task.event.diagnostics + [Reason(o, samples, n - 1).value])
            case Waiting(_) => forall k | 0 <= k < |samples| :: Reason(o, samples, k) == None
  {
    hide PollFrom, Reason;
    PollFromIsReason(task, task, o, samples, 0);
  }

  /** "Settle ready" is attached only if all samples from some poll on are equal
      and readable, and span at least the stable time. */
  lemma ReadyMeansStable(task: Task, o: SettleOptions, samples: seq<Sample>)
    requires Fresh(task) && o.stableFor > 0
    requires var r := PollFrom(task, o, samples, 0);
             r.Delivered? && r.task.event.diagnostics == task.event.diagnostics + [Ready]
    ensures exists j: nat :: SpansStableTime(o, samples, j, PollFrom(task, o, samples, 0).polls)
  {
    SeriesDeliversAtFirstReason(task, o, samples);
    var n := PollFrom(task, o, samples, 0).polls;
    var d := Reason(o, samples, n - 1).value;
    assert (task.event.diagnostics + [d])[|task.event.diagnostics|] == d;
    assert (task.event.diagnostics + [Ready])[|task.event.diagnostics|] == Ready;
    assert SpansStableTime(o, samples, RunStart(samples, n - 1), n);
  }

  /** The samples from j up to n are equal and readable, over at least the stable time. */
  predicate SpansStableTime(o: SettleOptions, samples: seq<Sample>, j: nat, n: nat) {
    && j < n <= |samples|
    && (forall i | j <= i < n :: samples[i].file == samples[n - 1].file && samples[i].file.Readable?)
    && samples[n - 1].now - samples[j].now >= o.stableFor
  }

  // ----- the timeout bound

  /** The worker polls a task only once its check is due. */
  predicate Timely(o: SettleOptions, samples: seq<Sample>) {
    forall k | 0 < k < |samples| :: samples[k].now >= NextCheck(o, samples, k - 1)
  }

  function CeilDiv(t: int, p: int): (n: nat)
    requires p > 0
    ensures n * p >= t
    ensures t > 0 ==> (n - 1) * p < t
  {
    if t <= 0 then 0 else (t + p - 1) / p
  }

  lemma {:induction false} TimelyProgress(o: SettleOptions, samples: seq<Sample>, k: nat)
    requires Timely(o, samples) && k < |samples| && o.timeoutAfter.Some?
    ensures samples[k].now >= samples[0].now + k * Interval(o) || samples[k].now >= samples[0].now + o.timeoutAfter.value
  {
    if k > 0 {
      TimelyProgress(o, samples, k - 1);
      assert samples[k].now >= NextCheck(o, samples, k - 1);
      assert k * Interval(o) == (k - 1) * Interval(o) + Interval(o);
    }
  }

  /** With a timeout T and interval P, ceil(T / P) + 1 due polls always suffice,
      whatever the file does; and no check is ever due after the timeout. */
  lemma TimeoutBound(task: Task, o: SettleOptions, samples: seq<Sample>)
    requires Fresh(task) && o.stableFor > 0 && o.timeoutAfter.Some? && Timely(o, samples)
    ensures var r := PollFrom(task, o, samples, 0);
            var bound := CeilDiv(o.timeoutAfter.value, Interval(o)) + 1;
            && (|samples| >= bound ==> r.Delivered?)
            && (r.Delivered? ==> r.polls <= bound)
            && (r.Waiting? && samples != [] ==>
                  r.task.timeoutAt == Some(samples[0].now + o.timeoutAfter.value) && r.task.nextCheckAt <= r.task.timeoutAt.value)
  {
    hide CeilDiv, Interval, Poll, PollFrom, RunStart, Timely;
    var n := CeilDiv(o.timeoutAfter.value, Interval(o));
    PollFromIsReason(task, task, o, samples, 0);
    if n < |samples| {
      TimelyProgress(o, samples, n);
      assert HasTimedOut(o, samples, n);
      assert Reason(o, samples, n) == Some(TimedOut);
    }
  }

  /** With a stable time of zero the first poll delivers and notes nothing. */
  lemma NoStableTime(task: Task, o: SettleOptions, samples: seq<Sample>)
    requires o.stableFor <= 0 && samples != []
    ensures PollFrom(task, o, samples, 0) == Delivered(1, task)
  {
  }

  // ----- how soon a stable file is delivered

  /** A poll that does not deliver asks for the next one after the interval, which is
      100 if the option is not positive, or at the timeout if that comes first; and the
      timeout runs from the first poll. */
  lemma NextCheckIsExact(task: Task, o: SettleOptions, sample: Sample)
    requires Poll(task, o, sample).0 == Skip
    ensures var next := Poll(task, o, sample).1;
            var due := sample.now + if o.pollInterval > 0 then o.pollInterval else 100;
            && next.timeoutAt == (if task.timeoutAt.Some? then task.timeoutAt
                                  else if o.timeoutAfter.Some? then Some(sample.now + o.timeoutAfter.value) else None)
            && (next.timeoutAt.None? || due <= next.timeoutAt.value ==> next.nextCheckAt == due)
            && (next.timeoutAt.Some? && due > next.timeoutAt.value ==> next.nextCheckAt == next.timeoutAt.value)
            && sample.now < next.nextCheckAt
  {
  }

  /** The interval between polls; 100 is what stands for no positive option. */
  predicate IsPeriod(o: SettleOptions, p: int) {
    p > 0 && (o.pollInterval > 0 ==> p == o.pollInterval) && (o.pollInterval <= 0 ==> p == 100)
  }

  lemma OneMoreTime(n: int, p: int)
    ensures n * p == (n - 1) * p + p
    ensures n >= 0 && p >= 0 ==> n * p >= 0
  {
  }

  /** Due polls that are not yet timed out are an interval apart. */
  lemma {:induction false} PollsAreApart(o: SettleOptions, samples: seq<Sample>, a: nat, b: nat, p: int)
    requires Timely(o, samples) && IsPeriod(o, p) && a <= b < |samples| && forall k | a < k <= b :: !HasTimedOut(o, samples, k)
    ensures samples[b].now - samples[a].now >= (b - a) * p
    decreases b - a
  {
    hide HasTimedOut, Timely, IsPeriod;
    if a < b {
      PollsAreApart(o, samples, a, b - 1, p);
      OneMoreTime(b - a, p);
      NeighboursAreApart(o, samples, b, p);
    }
  }

  lemma NeighboursAreApart(o: SettleOptions, samples: seq<Sample>, b: nat, p: int)
    requires Timely(o, samples) && IsPeriod(o, p) && 0 < b < |samples| && !HasTimedOut(o, samples, b)
    ensures samples[b].now - samples[b - 1].now >= p
  {
    assert samples[b].now >= NextCheck(o, samples, b - 1);
  }

  lemma WaitingMeansNoReason(task: Task, o: SettleOptions, samples: seq<Sample>)
    requires Fresh(task) && o.stableFor > 0 && PollFrom(task, o, samples, 0).Waiting?
    ensures forall k | 0 <= k < |samples| :: !HasTimedOut(o, samples, k) && samples[k].file.Readable? && !IsStable(o, samples, k)
  {
    hide PollFrom, HasTimedOut, IsStable;
    SeriesDeliversAtFirstReason(task, o, samples);
    forall k | 0 <= k < |samples|
      ensures !HasTimedOut(o, samples, k) && samples[k].file.Readable? && !IsStable(o, samples, k)
    {
      assert Reason(o, samples, k) == None;
    }
  }

  /** While a task waits, its file has been the same for less than the stable time: with
      interval P it was polled at most ceil(stableFor / P) times since. */
  lemma WaitsOnlyWhileUnstable(task: Task, o: SettleOptions, samples: seq<Sample>, j: nat, p: int)
    requires Fresh(task) && o.stableFor > 0 && Timely(o, samples) && PollFrom(task, o, samples, 0).Waiting? && IsPeriod(o, p)
    requires j < |samples| && forall i | j <= i < |samples| :: samples[i].file == samples[j].file
    ensures samples[|samples| - 1].now - samples[j].now < o.stableFor
    ensures |samples| - j <= CeilDiv(o.stableFor, p)
  {
    hide PollFrom, Timely, Fresh, HasTimedOut;
    var n := |samples| - 1;
    WaitingMeansNoReason(task, o, samples);
    assert !IsStable(o, samples, n);
    RunBeginsBefore(samples, j, n);
    PollsAreApart(o, samples, RunStart(samples, n), j, p);
    PollsAreApart(o, samples, j, n, p);
    Product(j - RunStart(samples, n), p);
    FewerThan(n - j, p, o.stableFor);
  }

  lemma Product(n: int, p: int)
    requires n >= 0 && p >= 0
    ensures n * p >= 0
  {
  }

  lemma {:induction false} RunBeginsBefore(samples: seq<Sample>, j: nat, k: nat)
    requires j <= k < |samples| && forall i | j <= i <= k :: samples[i].file == samples[j].file
    ensures RunStart(samples, k) <= j
  {
    if j < k { RunBeginsBefore(samples, j, k - 1); }
  }

  lemma FewerThan(n: nat, p: int, t: int)
    requires p > 0 && n * p < t
    ensures n + 1 <= CeilDiv(t, p)
  {
    var c := CeilDiv(t, p);
    if n >= c { Product(n - c, p); }
  }

  /** The file is polled exactly when each check is due. */
  function PollWhenDue(task: Task, o: SettleOptions, files: seq<FileState>): Outcome
    decreases |files|
  {
    if files == [] then Waiting(task)
    else match Poll(task, o, Sample(task.nextCheckAt, files[0]))
         case (Deliver, done) => Delivered(1, done)
         case (Skip, next) =>
           match PollWhenDue(next, o, files[1..])
           case Delivered(n, done) => Delivered(n + 1, done)
           case Waiting(left) => Waiting(left)
  }

  predicate AllReadable(files: seq<FileState>) {
    forall k | 0 <= k < |files| :: files[k].Readable?
  }

  /** From entry q on the files are the same. */
  predicate SameFrom(files: seq<FileState>, q: nat) {
    forall k | q <= k < |files| :: files[k] == files[|files| - 1]
  }

  predicate IsReady(r: Outcome, e: Event, polls: nat) {
    r.Delivered? && r.polls <= polls && r.task.event == e.(diagnostics := e.diagnostics + [Ready])
  }

  /** The file has not changed since `since`, and r polls later it has been stable. */
  lemma {:induction false} StillStable(task: Task, o: SettleOptions, files: seq<FileState>, p: int, since: int, r: nat)
    requires o.stableFor > 0 && IsPeriod(o, p) && AllReadable(files) && SameFrom(files, 0) && |files| > r
    requires task.lastSize == Some(files[0].size) && task.lastWrite == Some(files[0].writeTime) && task.stableSince == Some(since)
    requires since + o.stableFor <= task.nextCheckAt + r * p
    requires o.timeoutAfter.Some? ==> task.timeoutAt.Some?
    requires task.timeoutAt.Some? ==> task.nextCheckAt + r * p < task.timeoutAt.value
    ensures IsReady(PollWhenDue(task, o, files), task.event, r + 1)
    decreases r
  {
    Product(r, p);
    var (verdict, next) := Poll(task, o, Sample(task.nextCheckAt, files[0]));
    if verdict == Skip {
      OneMoreTime(r, p);
      if r > 0 {
        Product(r - 1, p);
        NextCheckIsExact(task, o, Sample(task.nextCheckAt, files[0]));
        assert files[1..][0] == files[1] == files[0];
        StillStable(next, o, files[1..], p, since, r - 1);
      }
    }
  }

  lemma {:induction false} BecomesStable(task: Task, o: SettleOptions, files: seq<FileState>, p: int, q: nat, m: nat)
    requires o.stableFor > 0 && IsPeriod(o, p) && AllReadable(files) && SameFrom(files, q) && |files| > q + m && m * p >= o.stableFor && m > 0
    requires task.lastSize.Some? ==> task.stableSince.Some? && task.stableSince.value <= task.nextCheckAt
    requires task.timeoutAt.Some? ==> task.nextCheckAt + (q + m) * p < task.timeoutAt.value
    requires task.timeoutAt.None? && o.timeoutAfter.Some? ==> (q + m) * p < o.timeoutAfter.value
    ensures IsReady(PollWhenDue(task, o, files), task.event, q + m + 1)
    decreases q
  {
    var sample := Sample(task.nextCheckAt, files[0]);
    var (verdict, next) := Poll(task, o, sample);
    Product(q + m - 1, p);
    OneMoreTime(q + m, p);
    if verdict == Skip {
      NextCheckIsExact(task, o, sample);
      assert next.event == task.event;
      if q == 0 {
        assert files[1..][0] == files[1] == files[0];
        StillStable(next, o, files[1..], p, next.stableSince.value, m - 1);
      } else {
        BecomesStable(next, o, files[1..], p, q - 1, m);
      }
    }
  }

  /** A readable file that stops changing at poll j and is polled when due is delivered as
      ready, at most ceil(stableFor / P) polls later, if that is before the timeout. */
  lemma StableIsDelivered(task: Task, o: SettleOptions, files: seq<FileState>, j: nat, p: int)
    requires Fresh(task) && o.stableFor > 0 && IsPeriod(o, p) && AllReadable(files) && SameFrom(files, j)
    requires var m := CeilDiv(o.stableFor, p);
             |files| > j + m && (o.timeoutAfter.Some? ==> (j + m) * p < o.timeoutAfter.value)
    ensures IsReady(PollWhenDue(task, o, files), task.event, j + CeilDiv(o.stableFor, p) + 1)
  {
    hide Poll, PollWhenDue, CeilDiv, AllReadable, SameFrom;
    var m := CeilDiv(o.stableFor, p);
    assert m == 0 ==> m * p == 0;
    BecomesStable(task, o, files, p, j, m);
  }

  /** After the last of its polls a waiting task is due an interval later, or at its
      timeout if that comes first. */
  lemma WaitingIsDueAfter(start: Task, o: SettleOptions, samples: seq<Sample>, p: int)
    requires Fresh(start) && o.stableFor > 0 && IsPeriod(o, p) && samples != [] && PollFrom(start, o, samples, 0).Waiting?
    ensures var task, due := PollFrom(start, o, samples, 0).task, samples[|samples| - 1].now + p;
            && task.timeoutAt == (match o.timeoutAfter case Some(t) => Some(samples[0].now + t) case None => None)
            && task.nextCheckAt == if task.timeoutAt.Some? && task.timeoutAt.value < due then task.timeoutAt.value else due
  {
    hide PollFrom;
    PollFromIsReason(start, start, o, samples, 0);
  }

  /** What a poll that delivers notes, in the order in which it looks: the timeout, an
      error of the file, and otherwise that the file is stable. */
  lemma DeliveredWithNote(task: Task, o: SettleOptions, sample: Sample)
    requires Poll(task, o, sample).0 == Deliver && o.stableFor > 0
    ensures var noted, was := Poll(task, o, sample).1.event.diagnostics, task.event.diagnostics;
            var timedOut := if task.timeoutAt.Some? then sample.now >= task.timeoutAt.value
                            else o.timeoutAfter.Some? && o.timeoutAfter.value <= 0;
            && |noted| == |was| + 1 && noted[..|was|] == was
            && noted[|was|] == (if timedOut then Diagnostic(SettleTimeout, Text("File did not become stable before the settle timeout"))
                               else if sample.file.Unreadable? then Diagnostic(SettleTimeout, Text(sample.file.message))
                               else Diagnostic(SettleReady, Text("File size and mtime are stable")))
            && (!timedOut && sample.file.Readable? ==>
                  && task.lastSize == Some(sample.file.size) && task.lastWrite == Some(sample.file.writeTime)
                  && (task.stableSince.Some? ==> sample.now - task.stableSince.value >= o.stableFor))
  {
  }
}
