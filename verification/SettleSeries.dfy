/** Polling over whole runs of the settle stage: the polls recorded between the
    scheduling of an event and its completion are one series of due polls. */
module SettleSeries {
  import opened Prelude
  import opened Text
  import opened WatchEvents
  import opened SettleKeys
  import opened SettlePolling
  import opened SettleScheduler
  import opened SettleHistory

  // ----- time

  /** The reading of the steady clock that an action takes, if any. */
  function TimeOf(a: Action): Option<int> {
    match a
    case Admit(now) => Some(now)
    case TakeNext(_, now) => Some(now)
    case PollFile(sample) => Some(sample.now)
    case _ => None
  }

  /** The last reading, or `start` before the first. */
  function Clock(actions: seq<Action>, start: int): int {
    if actions == [] then start
    else match TimeOf(actions[|actions| - 1]) case Some(now) => now case None => Clock(actions[..|actions| - 1], start)
  }

  /** The clock is steady: readings never decrease. */
  predicate ClockRuns(actions: seq<Action>, start: int) {
    actions == [] ||
    (ClockRuns(actions[..|actions| - 1], start)
     && match TimeOf(actions[|actions| - 1]) case Some(now) => now >= Clock(actions[..|actions| - 1], start) case None => true)
  }

  // ----- series in the log

  /** The polls recorded for a key since it was scheduled last. */
  function PollsSince(log: seq<Entry>, k: string): seq<Sample> {
    if log == [] then []
    else
      var entry, before := log[|log| - 1], PollsSince(log[..|log| - 1], k);
      if entry.Scheduled? && entry.start.key == k then []
      else if entry.Sampled? && entry.key == k then before + [entry.sample]
      else before
  }

  /** The recorded polls are due polls of the scheduled task that left this task. */
  predicate Waits(log: seq<Entry>, task: Task, settle: Option<SettleOptions>) {
    var last, samples := Last(log, task.key), PollsSince(log, task.key);
    && settle.Some? && last.Some? && last.value.Scheduled?
    && Fresh(last.value.start) && PollFrom(last.value.start, settle.value, samples, 0) == Waiting(task)
    && Timely(settle.value, samples)
  }

  /** The recorded polls are due polls of the scheduled task, and the last of them
      delivered this task. */
  predicate Arrives(log: seq<Entry>, task: Task, settle: Option<SettleOptions>) {
    var last, samples := Last(log, task.key), PollsSince(log, task.key);
    && settle.Some? && last.Some? && last.value.Scheduled?
    && Fresh(last.value.start) && PollFrom(last.value.start, settle.value, samples, 0) == Delivered(|samples|, task)
    && Timely(settle.value, samples)
  }

  predicate WorkerFits(y: System, log: seq<Entry>, clock: int) {
    match y.worker
    case Holding(task) =>
      IsCurrent(y.slots, task.key, task.generation) ==>
        Waits(log, task, OptionsFor(y.slots, task.event.source)) && task.nextCheckAt <= clock
    case Polling(task) =>
      IsCurrent(y.slots, task.key, task.generation) ==>
        Waits(log, task, OptionsFor(y.slots, task.event.source)) && task.nextCheckAt <= clock
    case Polled(verdict, task) =>
      IsCurrent(y.slots, task.key, task.generation) ==>
        if verdict == Deliver then Arrives(log, task, OptionsFor(y.slots, task.event.source))
        else Waits(log, task, OptionsFor(y.slots, task.event.source))
    case _ => true
  }

  predicate PendingFits(y: System, log: seq<Entry>) {
    forall k | k in y.slots.pending :: Waits(log, y.slots.pending[k], OptionsFor(y.slots, y.slots.pending[k].event.source))
  }

  predicate SeriesFit(y: System, log: seq<Entry>, clock: int) {
    PendingFits(y, log) && WorkerFits(y, log, clock)
  }

  /** Every completion ends a series of due polls from its scheduled task. */
  predicate CompletionsArrive(log: seq<Entry>) {
    forall p | 0 <= p < |log| && log[p].Completed? :: Arrives(log[..p], log[p].done, log[p].settle)
  }

  // ----- series grow by one poll

  lemma {:induction false} PollFromAppend(task: Task, o: SettleOptions, samples: seq<Sample>, x: Sample, i: nat)
    requires i <= |samples| && PollFrom(task, o, samples, i).Waiting?
    ensures PollFrom(task, o, samples + [x], i) ==
            match Poll(PollFrom(task, o, samples, i).task, o, x)
            case (Deliver, done) => Delivered(|samples| + 1, done)
            case (Skip, next) => Waiting(next)
    decreases |samples| - i
  {
    hide Poll;
    if i < |samples| {
      assert (samples + [x])[i] == samples[i];
      PollFromAppend(Poll(task, o, samples[i]).1, o, samples, x, i + 1);
    }
  }

  lemma TimelyAppend(o: SettleOptions, samples: seq<Sample>, x: Sample)
    requires Timely(o, samples) && (samples != [] ==> x.now >= NextCheck(o, samples, |samples| - 1))
    ensures Timely(o, samples + [x])
  {
    forall k | 0 < k < |samples + [x]| ensures (samples + [x])[k].now >= NextCheck(o, samples + [x], k - 1) {
      assert (samples + [x])[k - 1] == samples[k - 1];
    }
  }

  /** A waiting task is due when its last poll said. */
  lemma WaitingIsDue(start: Task, o: SettleOptions, samples: seq<Sample>)
    requires Fresh(start) && PollFrom(start, o, samples, 0).Waiting? && samples != []
    ensures PollFrom(start, o, samples, 0).task.nextCheckAt == NextCheck(o, samples, |samples| - 1)
  {
    if o.stableFor <= 0 {
      NoStableTime(start, o, samples);
    } else {
      PollFromIsReason(start, start, o, samples, 0);
    }
  }

  /** One more due poll of a waiting task. */
  lemma SeriesGrows(log: seq<Entry>, task: Task, o: SettleOptions, sample: Sample)
    requires Waits(log, task, Some(o)) && sample.now >= task.nextCheckAt
    ensures var after := log + [Sampled(task.key, sample)];
            var (verdict, next) := Poll(task, o, sample);
            if verdict == Deliver then Arrives(after, next, Some(o)) else Waits(after, next, Some(o))
  {
    hide Poll, PollFrom, Timely, Last;
    var samples := PollsSince(log, task.key);
    var start := Last(log, task.key).value.start;
    LastOfAppend(log, Sampled(task.key, sample), task.key);
    PollsOfAppend(log, Sampled(task.key, sample), task.key);
    PollKeepsIdentity(task, o, sample);
    PollFromAppend(start, o, samples, sample, 0);
    if samples != [] { WaitingIsDue(start, o, samples); }
    TimelyAppend(o, samples, sample);
  }

  lemma PollsOfAppend(log: seq<Entry>, entry: Entry, k: string)
    ensures PollsSince(log + [entry], k) ==
            if entry.Scheduled? && entry.start.key == k then []
            else if entry.Sampled? && entry.key == k then PollsSince(log, k) + [entry.sample]
            else PollsSince(log, k)
  {
    assert (log + [entry])[..|log|] == log;
  }

  /** An entry about other keys leaves a series alone. */
  lemma OtherEntry(log: seq<Entry>, entry: Entry, task: Task, settle: Option<SettleOptions>)
    requires !Concerns(entry, task.key) && (entry.Sampled? ==> entry.key != task.key)
    ensures Waits(log + [entry], task, settle) <==> Waits(log, task, settle)
    ensures Arrives(log + [entry], task, settle) <==> Arrives(log, task, settle)
  {
    hide PollFrom, Timely, Last, PollsSince, Fresh;
    LastOfAppend(log, entry, task.key);
    PollsOfAppend(log, entry, task.key);
  }

  /** A series begins with no polls. */
  lemma SeriesBegins(log: seq<Entry>, start: Task, o: SettleOptions)
    requires Fresh(start)
    ensures Waits(log + [Scheduled(start)], start, Some(o))
  {
    LastOfAppend(log, Scheduled(start), start.key);
    PollsOfAppend(log, Scheduled(start), start.key);
  }

  // ----- the steps

  lemma AdmitSeries(y: System, log: seq<Entry>, clock: int, now: int)
    requires Invariant(y) && !y.slots.stopped && SeriesFit(y, log, clock) && now >= clock
    ensures SeriesFit(Act(y, Admit(now)).0, log + Logged(y, Admit(now)), now)
  {
    hide KeyOf, IsOverCapacity, Waits, Arrives, Last, PollsSince;
    var entries, next := Logged(y, Admit(now)), Act(y, Admit(now)).0;
    if entries == [] {
      assert log + entries == log;
    } else {
      var e := y.routing.event;
      var start := FreshTask(y.slots, e, now);
      assert entries == [Scheduled(start)];
      SeriesBegins(log, start, y.slots.watches[e.source].value);
      forall k | k in next.slots.pending
        ensures Waits(log + entries, next.slots.pending[k], OptionsFor(next.slots, next.slots.pending[k].event.source))
      {
        if k != start.key {
          assert y.slots.pending[k].key == k;
          OtherEntry(log, entries[0], y.slots.pending[k], OptionsFor(y.slots, y.slots.pending[k].event.source));
        }
      }
      if Held(y).Some? {
        var task := Held(y).value;
        if task.key == start.key {
          SupersedesHeld(y.slots, task, e, now);
        } else {
          OtherEntry(log, entries[0], task, OptionsFor(y.slots, task.event.source));
        }
      }
    }
  }

  lemma DropSeries(y: System, log: seq<Entry>, clock: int, id: nat)
    requires Invariant(y) && !y.slots.stopped && SeriesFit(y, log, clock)
    ensures SeriesFit(Act(y, DropWatch(id, true)).0, log + [Cancelled(id)], clock)
  {
    hide KeyOf, StartsWith, Prefix, Waits, Arrives, Last, PollsSince;
    var next := Act(y, DropWatch(id, true)).0;
    forall k | k in next.slots.pending
      ensures Waits(log + [Cancelled(id)], next.slots.pending[k], OptionsFor(next.slots, next.slots.pending[k].event.source))
    {
      var task := y.slots.pending[k];
      PendingKeyIs(y, k);
      PrefixOfTask(task, id);
      OtherEntry(log, Cancelled(id), task, OptionsFor(y.slots, task.event.source));
    }
    if Held(y).Some? && IsCurrent(next.slots, Held(y).value.key, Held(y).value.generation) {
      var task := Held(y).value;
      HeldKeyIs(y);
      PrefixOfTask(task, id);
      OtherEntry(log, Cancelled(id), task, OptionsFor(y.slots, task.event.source));
    }
  }

  lemma PendingKeyIs(y: System, k: string)
    requires Invariant(y) && !y.slots.stopped && k in y.slots.pending
    ensures y.slots.pending[k].key == k == KeyOf(y.slots.pending[k].event)
    ensures Settles(y.slots, y.slots.pending[k].event.source)
  {
  }

  lemma HeldKeyIs(y: System)
    requires Invariant(y) && !y.slots.stopped && Held(y).Some?
    ensures var task := Held(y).value;
            && task.key == KeyOf(task.event)
            && (IsCurrent(y.slots, task.key, task.generation) ==>
                  task.key !in y.slots.pending && Settles(y.slots, task.event.source))
  {
  }

  lemma TakeSeries(y: System, log: seq<Entry>, clock: int, first: Deadline, now: int)
    requires Invariant(y) && !y.slots.stopped && SeriesFit(y, log, clock) && now >= clock
    ensures SeriesFit(Act(y, TakeNext(first, now)).0, log, now)
  {
    hide KeyOf, IsFirstDeadline, Waits, Arrives;
    if y.worker.Idle? && y.slots.pending != map[] && IsFirstDeadline(y.slots.deadlines, first) {
      FirstIsMember(y.slots.deadlines, first);
      TakeDueAgrees(y.slots, first, now);
      NoStaleDeadline(y.slots, None, first);
      TakeDueFrame(y.slots, first, now);
    }
  }

  lemma PollSeries(y: System, log: seq<Entry>, clock: int, sample: Sample)
    requires Invariant(y) && !y.slots.stopped && SeriesFit(y, log, clock) && sample.now >= clock
    ensures SeriesFit(Act(y, PollFile(sample)).0, log + Logged(y, PollFile(sample)), sample.now)
  {
    hide KeyOf, Poll, Waits, Arrives, Last, PollsSince;
    var entries := Logged(y, PollFile(sample));
    if y.worker.Polling? {
      var task := y.worker.task;
      HeldKeyIs(y);
      if Settles(y.slots, task.event.source) {
        PollKeepsIdentity(task, y.slots.watches[task.event.source].value, sample);
      }
      if entries == [] {
        assert log + entries == log;
      } else {
        var o := y.slots.watches[task.event.source].value;
        assert entries == [Sampled(task.key, sample)];
        SeriesGrows(log, task, o, sample);
        forall k | k in y.slots.pending
          ensures Waits(log + entries, y.slots.pending[k], OptionsFor(y.slots, y.slots.pending[k].event.source))
        {
          PendingKeyIs(y, k);
          OtherEntry(log, entries[0], y.slots.pending[k], OptionsFor(y.slots, y.slots.pending[k].event.source));
        }
      }
    } else {
      assert log + entries == log;
    }
  }

  lemma FinishSeries(y: System, log: seq<Entry>, clock: int)
    requires Invariant(y) && !y.slots.stopped && SeriesFit(y, log, clock)
    ensures SeriesFit(Act(y, Finish).0, log + Logged(y, Finish), clock)
    ensures Logged(y, Finish) != [] ==> var c := Logged(y, Finish)[0]; c.Completed? && Arrives(log, c.done, c.settle)
  {
    hide KeyOf, Waits, Arrives, Last, PollsSince;
    var entries, next := Logged(y, Finish), Act(y, Finish).0;
    if entries == [] {
      assert log + entries == log;
    } else {
      HeldKeyIs(y);
      forall k | k in next.slots.pending
        ensures Waits(log + entries, next.slots.pending[k], OptionsFor(next.slots, next.slots.pending[k].event.source))
      {
        PendingKeyIs(y, k);
        OtherEntry(log, entries[0], y.slots.pending[k], OptionsFor(y.slots, y.slots.pending[k].event.source));
      }
    }
  }

  lemma WatchSeries(y: System, log: seq<Entry>, clock: int, settle: Option<SettleOptions>, accepted: bool)
    requires Invariant(y) && !y.slots.stopped && SeriesFit(y, log, clock)
    ensures SeriesFit(Act(y, AddWatch(settle, accepted)).0, log, clock)
  {
    hide KeyOf, Waits, Arrives;
    forall k | k in y.slots.pending ensures y.slots.pending[k].event.source in y.slots.watches { PendingKeyIs(y, k); }
    if Held(y).Some? { HeldKeyIs(y); }
  }

  lemma StepSeries(y: System, log: seq<Entry>, clock: int, a: Action)
    requires Invariant(y) && !y.slots.stopped && SeriesFit(y, log, clock)
    requires TimeOf(a).Some? ==> TimeOf(a).value >= clock
    ensures var next := Act(y, a).0;
            next.slots.stopped || SeriesFit(next, log + Logged(y, a), if TimeOf(a).Some? then TimeOf(a).value else clock)
  {
    hide KeyOf, Waits, Arrives, Poll, IsFirstDeadline, IsOverCapacity, StartsWith, Prefix, Agree;
    assert log + [] == log;
    match a {
      case AddWatch(settle, accepted) => WatchSeries(y, log, clock, settle, accepted);
      case DropWatch(id, known) => if known { DropSeries(y, log, clock, id); }
      case Admit(now) => AdmitSeries(y, log, clock, now);
      case TakeNext(first, now) => TakeSeries(y, log, clock, first, now);
      case PollFile(sample) => PollSeries(y, log, clock, sample);
      case Finish => FinishSeries(y, log, clock);
      case _ =>
    }
  }

  lemma AppendArrival(log: seq<Entry>, entry: Entry)
    requires CompletionsArrive(log) && (entry.Completed? ==> Arrives(log, entry.done, entry.settle))
    ensures CompletionsArrive(log + [entry])
  {
    hide Arrives;
    var after := log + [entry];
    forall p | 0 <= p < |after| && after[p].Completed? ensures Arrives(after[..p], after[p].done, after[p].settle) {
      assert after[..p] == log[..p];
      assert log[..|log|] == log;
    }
  }

  lemma StepArrivals(y: System, log: seq<Entry>, clock: int, a: Action)
    requires Invariant(y) && (y.slots.stopped || SeriesFit(y, log, clock)) && CompletionsArrive(log)
    ensures CompletionsArrive(log + Logged(y, a))
  {
    hide KeyOf, Arrives, SeriesFit, CompletionsArrive, Poll, IsOverCapacity, Agree;
    var entries := Logged(y, a);
    if entries == [] {
      assert log + entries == log;
    } else {
      assert entries == [entries[0]];
      if a.Finish? { FinishSeries(y, log, clock); }
      AppendArrival(log, entries[0]);
    }
  }

  /** In every run with a steady clock: every live task waits after a series of due
      polls from its scheduled task, and every completion ended such a series. */
  lemma {:induction false} SeriesRuns(actions: seq<Action>, start: int)
    requires ClockRuns(actions, start)
    ensures var (y, log) := RunActions(actions);
            && (y.slots.stopped || SeriesFit(y, log, Clock(actions, start)))
            && CompletionsArrive(log)
  {
    hide Invariant, SeriesFit, CompletionsArrive, Act, Logged, HistoryAgrees, CompletionsAreLatest;
    if actions == [] {
      NoSeries(start);
    } else {
      var before, a := actions[..|actions| - 1], actions[|actions| - 1];
      var (y, log) := RunActions(before);
      SeriesRuns(before, start);
      SettleRuns(before);
      StepArrivals(y, log, Clock(before, start), a);
      if y.slots.stopped { StaysStopped(y, a); } else { StepSeries(y, log, Clock(before, start), a); }
    }
  }

  lemma NoSeries(start: int)
    ensures SeriesFit(InitialSystem, [], start) && CompletionsArrive([])
  {
  }

  // ----- what it means

  /** Every completion, in every run: the polls since the event was scheduled are at
      most ceil(T / P) + 1 with a timeout T and an interval P; the event is delivered
      with exactly one diagnostic added, and with "settle ready" only after equal
      readable samples over the stable time. */
  lemma CompletionsSettle(actions: seq<Action>, start: int, p: nat)
    requires ClockRuns(actions, start)
    requires p < |RunActions(actions).1| && RunActions(actions).1[p].Completed?
    ensures var log := RunActions(actions).1;
            var done, last, samples := log[p].done, Last(log[..p], log[p].done.key), PollsSince(log[..p], log[p].done.key);
            && log[p].settle.Some? && last.Some? && last.value.Scheduled?
            && SettledWell(last.value.start.event, done.event, log[p].settle.value, samples)
  {
    hide RunActions, PollFrom, Timely, Fresh, SettledWell;
    SeriesRuns(actions, start);
    var log := RunActions(actions).1;
    assert Arrives(log[..p], log[p].done, log[p].settle);
    SeriesSettles(Last(log[..p], log[p].done.key).value.start, log[p].settle.value, PollsSince(log[..p], log[p].done.key));
  }

  predicate SettledWell(scheduled: Event, delivered: Event, o: SettleOptions, samples: seq<Sample>) {
    if o.stableFor <= 0 then |samples| == 1 && delivered == scheduled
    else
      && samples != [] && Reason(o, samples, |samples| - 1).Some?
      && (forall k | 0 <= k < |samples| - 1 :: Reason(o, samples, k) == None)
      && delivered == scheduled.(diagnostics := scheduled.diagnostics + [Reason(o, samples, |samples| - 1).value])
      && (o.timeoutAfter.Some? ==> |samples| <= CeilDiv(o.timeoutAfter.value, Interval(o)) + 1)
      && (delivered.diagnostics == scheduled.diagnostics + [Ready] ==> exists j | 0 <= j < |samples| :: SpansStableTime(o, samples, j, |samples|))
  }

  lemma SeriesSettles(start: Task, o: SettleOptions, samples: seq<Sample>)
    requires Fresh(start) && Timely(o, samples)
    requires PollFrom(start, o, samples, 0).Delivered? && PollFrom(start, o, samples, 0).polls == |samples|
    ensures SettledWell(start.event, PollFrom(start, o, samples, 0).task.event, o, samples)
  {
    hide PollFrom, Timely, Fresh, Reason;
    if o.stableFor <= 0 {
      if samples == [] { NothingPolled(start, o); } else { NoStableTime(start, o, samples); }
    } else {
      SeriesDeliversAtFirstReason(start, o, samples);
      if o.timeoutAfter.Some? { TimeoutBound(start, o, samples); }
      if PollFrom(start, o, samples, 0).task.event.diagnostics == start.event.diagnostics + [Ready] {
        ReadyMeansStable(start, o, samples);
      }
    }
  }

  lemma NothingPolled(start: Task, o: SettleOptions)
    ensures PollFrom(start, o, [], 0) == Waiting(start)
  {
  }

  /** In every reachable state before stop, a pending task has been polled at most
      ceil(T / P) times since it was scheduled, and once it has been polled its next
      check is not after its timeout. */
  lemma PendingIsWithinTimeout(actions: seq<Action>, start: int, k: string)
    requires ClockRuns(actions, start)
    requires var y := RunActions(actions).0; !y.slots.stopped && k in y.slots.pending
    ensures var (y, log) := RunActions(actions);
            var task := y.slots.pending[k];
            && Settles(y.slots, task.event.source)
            && var o := y.slots.watches[task.event.source].value;
               (o.timeoutAfter.Some? && o.stableFor > 0 ==>
                  && |PollsSince(log, k)| <= CeilDiv(o.timeoutAfter.value, Interval(o))
                  && (PollsSince(log, k) != [] ==>
                        task.timeoutAt == Some(PollsSince(log, k)[0].now + o.timeoutAfter.value)
                        && task.nextCheckAt <= task.timeoutAt.value))
  {
    hide RunActions, PollFrom, Timely, Fresh, KeyOf, HistoryAgrees, CompletionsAreLatest, CompletionsArrive;
    SeriesRuns(actions, start);
    SettleRuns(actions);
    var (y, log) := RunActions(actions);
    var task := y.slots.pending[k];
    PendingKeyIs(y, k);
    var o := y.slots.watches[task.event.source].value;
    assert Waits(log, task, Some(o));
    if o.timeoutAfter.Some? && o.stableFor > 0 { TimeoutBound(Last(log, k).value.start, o, PollsSince(log, k)); }
  }

  /** The worker is never early: a held current task is due. */
  lemma HeldIsDue(actions: seq<Action>, start: int)
    requires ClockRuns(actions, start)
    requires var y := RunActions(actions).0;
             !y.slots.stopped && (y.worker.Holding? || y.worker.Polling?) && IsCurrent(y.slots, y.worker.task.key, y.worker.task.generation)
    ensures RunActions(actions).0.worker.task.nextCheckAt <= Clock(actions, start)
  {
    hide RunActions, Waits, Arrives, CompletionsArrive;
    SeriesRuns(actions, start);
  }

  /** In every reachable state before stop: a pending task whose file has been the same
      since its poll j was polled at most ceil(stableFor / P) times since then, and is due
      an interval after its last poll, or at its timeout if that comes first. So if the
      polls come when due, a stable file is delivered that soon. */
  lemma StableIsNotHeldBack(actions: seq<Action>, start: int, k: string, j: nat, p: int)
    requires ClockRuns(actions, start)
    requires var y := RunActions(actions).0;
             && !y.slots.stopped && k in y.slots.pending && Settles(y.slots, y.slots.pending[k].event.source)
             && var o := y.slots.watches[y.slots.pending[k].event.source].value; o.stableFor > 0 && IsPeriod(o, p)
    requires var samples := PollsSince(RunActions(actions).1, k);
             j < |samples| && forall i | j <= i < |samples| :: samples[i].file == samples[j].file
    ensures var (y, log) := RunActions(actions);
            var task, samples := y.slots.pending[k], PollsSince(log, k);
            var o, due := y.slots.watches[task.event.source].value, samples[|samples| - 1].now + p;
            && |samples| - j <= CeilDiv(o.stableFor, p)
            && samples[|samples| - 1].now - samples[j].now < o.stableFor
            && task.timeoutAt == (match o.timeoutAfter case Some(t) => Some(samples[0].now + t) case None => None)
            && task.nextCheckAt == if task.timeoutAt.Some? && task.timeoutAt.value < due then task.timeoutAt.value else due
  {
    hide RunActions, PollFrom, Timely, Fresh, KeyOf, HistoryAgrees, CompletionsAreLatest, CompletionsArrive, CeilDiv, IsPeriod;
    SeriesRuns(actions, start);
    SettleRuns(actions);
    var (y, log) := RunActions(actions);
    PendingKeyIs(y, k);
    var o := y.slots.watches[y.slots.pending[k].event.source].value;
    assert Waits(log, y.slots.pending[k], Some(o));
    WaitsOnlyWhileUnstable(Last(log, k).value.start, o, PollsSince(log, k), j, p);
    WaitingIsDueAfter(Last(log, k).value.start, o, PollsSince(log, k), p);
  }

  /** A key that is scheduled is due exactly its debounce time later, or at once. */
  lemma ScheduledIsDueAfterDebounce(s: Slots, held: Option<Task>, e: Event, now: int)
    requires Agree(s, held) && !s.stopped && Settles(s, e.source) && !IsOverCapacity(s, e)
    ensures var o, next := s.watches[e.source].value, EnqueueForSettle(s, e, now);
            && KeyOf(e) in next.pending && next.pending[KeyOf(e)].event == e
            && next.pending[KeyOf(e)].nextCheckAt == (if o.debounceFor > 0 then now + o.debounceFor else now)
            && Deadline(next.pending[KeyOf(e)].nextCheckAt, KeyOf(e), next.generations[KeyOf(e)]) in next.deadlines
  {
    hide KeyOf, IsOverCapacity;
  }
}
