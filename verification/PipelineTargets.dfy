/** Which accepted events are answered for their own path. The settle stage replaces
    an event by a later one for the same watch and absolute path, and the backend may
    report another relative path for that one; the client files events by the
    relative path. So the path of the replaced event may never be decided. */
module PipelineTargets {
  import opened Prelude
  import opened WatchEvents
  import opened SettleKeys
  import opened SettlePolling
  import opened SettleScheduler
  import opened SettleHistory
  import Q = EventQueue
  import opened OverloadAdapter
  import opened Pipeline
  import opened PipelineProgress

  /** A flush after its arrival demanded a rescan, or decided the path under which
      the client would have filed this very event. */
  predicate AnsweredItself(flushes: seq<Flushing>, arrivals: seq<Arrival>, i: nat)
    requires i < |arrivals|
  {
    exists b | arrivals[i].flushesBefore <= b < |flushes| :: flushes[b].rescan || Names(arrivals[i].event, flushes[b].decided)
  }

  predicate Accepted(p: Pipe, events: seq<Event>) {
    |p.arrivals| == |events| && forall k | 0 <= k < |events| :: p.arrivals[k].event == events[k]
  }

  /** A drained run that accepted exactly these events, removed no watch, and left
      event i without an answer of its own. */
  predicate Misses(p: Pipe, events: seq<Event>, i: nat)
    requires i < |events|
  {
    Drained(p) && p.removals == [] && Accepted(p, events) && !AnsweredItself(p.flushes, p.arrivals, i)
  }

  ghost predicate CanMiss(events: seq<Event>, i: nat)
    requires i < |events|
  {
    exists moves: seq<Move>, limit: nat, end: int :: Steady(moves, 0, end) && Misses(RunMoves(moves, limit), events, i)
  }

  /** Whatever the client decides for the one event answers the other as well. */
  predicate Serves(later: Event, e: Event) {
    DemandsRescan(later) || (!DemandsRescan(e) && Target(later) == Target(e))
  }

  predicate IsSuperseded(events: seq<Event>, k: nat)
    requires k < |events|
  {
    exists j | k < j < |events| :: Supersedes(events[j], events[k])
  }

  /** Event i, and every later one that would answer it, is followed by another event
      that can take its place. */
  predicate IsExposed(events: seq<Event>, i: nat)
    requires i < |events|
  {
    forall k | i <= k < |events| && Serves(events[k], events[i]) :: IsSuperseded(events, k)
  }

  /** An event that does not settle, or whose watch has no settle options, is always
      answered itself, unless its watch is removed. */
  lemma UnsettledIsAnswered(moves: seq<Move>, limit: nat, i: nat)
    requires var p := RunMoves(moves, limit);
             Drained(p) && i < |p.arrivals| && (!p.arrivals[i].settles || !MaySettle(p.arrivals[i].event))
    ensures var p := RunMoves(moves, limit); AnsweredItself(p.flushes, p.arrivals, i) || IsRemoved(p, i)
  {
    hide RunMoves, RemovedSince, Names;
    DrainedMeansAnswered(moves, limit, i);
    var p := RunMoves(moves, limit);
    if !IsRemoved(p, i) {
      var b :| p.arrivals[i].flushesBefore <= b < |p.flushes| && Decides(p.flushes[b], b, p.arrivals, i);
      assert p.flushes[b].rescan || Names(p.arrivals[i].event, p.flushes[b].decided);
    }
  }

  // ----- a missed event is exposed

  lemma MissedIsExposed(moves: seq<Move>, limit: nat, events: seq<Event>, i: nat)
    requires i < |events| && Misses(RunMoves(moves, limit), events, i)
    ensures IsExposed(events, i)
  {
    hide RunMoves, Safe, Answered, AnsweredItself, Serves;
    EveryRunIsSafe(moves, limit);
    var p := RunMoves(moves, limit);
    SoundArrivals(p);
    forall k | i <= k < |events| && Serves(events[k], events[i]) ensures IsSuperseded(events, k) {
      DrainedMeansAnswered(moves, limit, k);
      AnswerServes(p, events, i, k);
    }
  }

  lemma AnswerServes(p: Pipe, events: seq<Event>, i: nat, k: nat)
    requires Accepted(p, events) && ArrivalsAreSound(p) && i <= k < |events| && Serves(events[k], events[i])
    requires Answered(p.flushes, p.arrivals, k) && !AnsweredItself(p.flushes, p.arrivals, i)
    ensures IsSuperseded(events, k)
  {
    hide DemandsRescan, Target;
    var b :| p.arrivals[k].flushesBefore <= b < |p.flushes| && Decides(p.flushes[b], b, p.arrivals, k);
    assert p.arrivals[i].flushesBefore <= b;
    var j :| k <= j < |p.arrivals| && StandsFor(p.arrivals, j, k) && Names(p.arrivals[j].event, p.flushes[b].decided);
    assert j > k && Supersedes(events[j], events[k]);
  }

  // ----- an exposed event can be missed: the run

  /** Settling that delivers at the first poll. */
  function Prompt(capacity: nat): SettleOptions {
    SettleOptions(0, 0, 0, None, capacity)
  }

  predicate Watches(s: Slots, events: seq<Event>, o: SettleOptions) {
    && (forall id | id in s.watches :: s.watches[id] == Some(o))
    && (forall k | 0 <= k < |events| :: events[k].source in s.watches)
  }

  /** Events in the order of their numbers, from watches that can exist. */
  predicate Numbers(events: seq<Event>) {
    forall k | 0 <= k < |events| :: events[k].serial == k && events[k].source > 0
  }

  lemma {:induction false} WatchAll(n: nat, o: SettleOptions, limit: nat) returns (moves: seq<Move>)
    ensures Steady(moves, 0, 0)
    ensures var p := RunMoves(moves, limit);
            && Drained(p) && p.arrivals == [] && p.removals == [] && p.system.nextId == n + 1 && !p.system.slots.stopped
            && (forall id | id in p.system.slots.watches :: p.system.slots.watches[id] == Some(o))
            && (forall id | 1 <= id <= n :: id in p.system.slots.watches)
  {
    hide RunMoves;
    if n == 0 {
      moves := [];
      NoMoves(limit);
    } else {
      var before := WatchAll(n - 1, o, limit);
      var m := Work(AddWatch(Some(o), true));
      OneMoreMove(before, m, limit);
      SteadyOne(m, 0, 0);
      SteadyOnwards(before, [m], 0, 0, 0);
      moves := before + [m];
    }
  }

  lemma NoMoves(limit: nat)
    ensures RunMoves([], limit) == Start(limit)
  {
  }

  function Highest(events: seq<Event>): (n: nat)
    ensures forall k | 0 <= k < |events| :: events[k].source <= n
  {
    if events == [] then 0
    else
      var n := Highest(events[..|events| - 1]);
      if events[|events| - 1].source > n then events[|events| - 1].source else n
  }

  /** The events before i are accepted one by one, and each is drained. */
  lemma {:induction false} AcceptAndDrain(events: seq<Event>, i: nat, o: SettleOptions, limit: nat) returns (moves: seq<Move>, end: int)
    requires Numbers(events) && i <= |events|
    ensures Steady(moves, 0, end)
    ensures var p := RunMoves(moves, limit);
            Drained(p) && p.removals == [] && Accepted(p, events[..i]) && Watches(p.system.slots, events, o)
  {
    hide RunMoves, Safe;
    if i == 0 {
      moves := WatchAll(Highest(events), o, limit);
      end := 0;
    } else {
      moves, end := AcceptAndDrain(events, i - 1, o, limit);
      EveryRunIsSafe(moves, limit);
      var m := Work(Receive(events[i - 1]));
      OneMoreMove(moves, m, limit);
      ReceiveIsAccepted(RunMoves(moves, limit), events, i - 1);
      SteadyOne(m, end, end);
      SteadyOnwards(moves, [m], 0, end, end);
      var more, later := ReadingCatchesUp(moves + [m], limit, end);
      SteadyOnwards(moves + [m], more, 0, end, later);
      moves, end := moves + [m] + more, later;
    }
  }

  lemma ReceiveIsAccepted(p: Pipe, events: seq<Event>, k: nat)
    requires Safe(p) && Numbers(events) && k < |events| && Accepted(p, events[..k])
    requires p.system.routing.NoEvent? && events[k].source in p.system.slots.watches
    ensures var r := Step(p, Work(Receive(events[k])));
            && r == p.(system := p.system.(routing := Active(events[k])), arrivals := p.arrivals + [ArrivalOf(p, events[k])])
            && Accepted(r, events[..k + 1])
  {
    hide Invariant, AllCovered, ArrivalsAreSound;
    var e := events[k];
    assert e.(serial := |p.arrivals|) == e;
  }

  /** The first k events are accepted, none since event i was flushed. Those that may
      settle and are not yet superseded are pending; what the adapter holds does not
      answer event i. */
  predicate Gathered(p: Pipe, events: seq<Event>, i: nat, k: nat, o: SettleOptions)
    requires i <= k <= |events| && i < |events|
  {
    && Safe(p) && Accepted(p, events[..k]) && p.removals == [] && Watches(p.system.slots, events, o)
    && p.system.routing.NoEvent? && p.system.worker.Idle? && p.queue.events == [] && !p.queue.overflowed && p.hand.None?
    && (i < k ==> p.arrivals[i].flushesBefore == |p.flushes|)
    && !p.adapter.fullRescan && p.adapter.limit > |events| && !Names(events[i], p.adapter.pending.Keys)
    && |p.adapter.pending| + |p.system.slots.pending| <= k
    && forall key | key in p.system.slots.pending :: IsLatest(p.system.slots.pending[key].event, events, i, k)
  }

  predicate IsLatest(e: Event, events: seq<Event>, i: nat, k: nat)
    requires i <= k <= |events|
  {
    i <= e.serial < k && forall j | e.serial < j < k :: !Supersedes(events[j], events[e.serial])
  }

  /** What reaches the adapter answers nothing for event i. */
  lemma IngestUnserving(a: Adapter, e: Event, own: Event)
    requires !a.fullRescan && |a.pending| < a.limit && !Serves(e, own) && !Names(own, a.pending.Keys)
    ensures var next := Ingest(a, e);
            && !next.fullRescan && next.limit == a.limit && |next.pending| <= |a.pending| + 1 && !Names(own, next.pending.Keys)
  {
    hide FileName;
    var next := Ingest(a, e);
    if Target(e) in a.pending { assert next.pending.Keys == a.pending.Keys; }
  }

  /** The client takes and ingests the only queued event. */
  lemma ReadOne(p: Pipe, e: Event)
    requires p.queue.events == [] && !p.queue.overflowed && p.hand.None?
    ensures var r := Step(Step(p.(queue := Q.Push(p.queue, e)), Take), IngestTaken);
            r == p.(queue := r.queue, adapter := Ingest(p.adapter, e)) && r.queue.events == [] && !r.queue.overflowed
  {
    hide Ingest;
  }

  lemma SettlingSteps(p: Pipe, events: seq<Event>, k: nat, now: int)
    requires Safe(p) && Numbers(events) && k < |events| && Accepted(p, events[..k]) && p.system.routing.NoEvent?
    requires Settles(p.system.slots, events[k].source) && !IsOverCapacity(p.system.slots, events[k]) && MaySettle(events[k])
    ensures var r := Step(Step(Step(p, Work(Receive(events[k]))), Work(Classify)), Work(Admit(now)));
            && r == p.(system := p.system.(slots := EnqueueForSettle(p.system.slots, events[k], now)),
                       arrivals := p.arrivals + [ArrivalOf(p, events[k])])
            && Accepted(r, events[..k + 1]) && Safe(r)
  {
    hide Safe, KeyOf, EnqueueForSettle, IsOverCapacity, Accepted;
    var r1 := Step(p, Work(Receive(events[k])));
    ReceiveIsAccepted(p, events, k);
    var r2 := Step(r1, Work(Classify));
    assert r2 == r1.(system := p.system.(routing := ToSettle(events[k])));
    StepIsSafe(p, Work(Receive(events[k])));
    StepIsSafe(r1, Work(Classify));
    StepIsSafe(r2, Work(Admit(now)));
    SameArrivals(r1, Step(r2, Work(Admit(now))), events[..k + 1]);
  }

  lemma SameArrivals(p: Pipe, r: Pipe, events: seq<Event>)
    requires Accepted(p, events) && r.arrivals == p.arrivals
    ensures Accepted(r, events)
  {
  }

  /** An event that may settle becomes pending; nothing is over capacity. */
  lemma GatherSettling(p: Pipe, events: seq<Event>, i: nat, k: nat, now: int)
    requires Numbers(events) && i <= k < |events| && Gathered(p, events, i, k, Prompt(|events|)) && MaySettle(events[k])
    ensures Gathered(Step(Step(Step(p, Work(Receive(events[k]))), Work(Classify)), Work(Admit(now))), events, i, k + 1, Prompt(|events|))
  {
    hide Safe, KeyOf, Step, Accepted, Names, MaySettle, Supersedes;
    var e := events[k];
    SlotsArePending(p);
    ArrivalCount(p, events, k);
    SettlingSteps(p, events, k, now);
    forall key | key in p.system.slots.pending && key != KeyOf(e) ensures IsLatest(p.system.slots.pending[key].event, events, i, k + 1) {
      OtherKey(p, events, key, e);
    }
  }

  lemma ArrivalCount(p: Pipe, events: seq<Event>, k: nat)
    requires k <= |events| && Accepted(p, events[..k])
    ensures |p.arrivals| == k
  {
  }

  lemma SlotsArePending(p: Pipe)
    requires Safe(p) && p.system.worker.Idle?
    ensures |p.system.slots.generations| <= |p.system.slots.pending| && !p.system.slots.stopped
  {
    hide KeyOf, AllCovered, ArrivalsAreSound, MarkerInFront;
    SubsetSize(p.system.slots.generations.Keys, p.system.slots.pending.Keys);
  }

  lemma OtherKey(p: Pipe, events: seq<Event>, key: string, e: Event)
    requires Safe(p) && key in p.system.slots.pending && KeyOf(e) != key
    requires |p.arrivals| <= |events| && Accepted(p, events[..|p.arrivals|])
    ensures p.system.slots.pending[key].event.serial < |p.arrivals|
    ensures !Supersedes(e, events[p.system.slots.pending[key].event.serial])
  {
    hide AllCovered, ArrivalsAreSound, MarkerInFront, SettleKey;
    var task := p.system.slots.pending[key];
    assert Owned(p.system.slots, task);
    assert events[..|p.arrivals|][task.event.serial] == events[task.event.serial];
  }

  lemma OtherSteps(p: Pipe, events: seq<Event>, k: nat)
    requires Safe(p) && Numbers(events) && k < |events| && Accepted(p, events[..k]) && p.system.routing.NoEvent?
    requires events[k].source in p.system.slots.watches && !MaySettle(events[k])
    requires p.queue.events == [] && !p.queue.overflowed && p.hand.None?
    ensures var r := Step(Step(Step(Step(Step(p, Work(Receive(events[k]))), Work(Classify)), Work(ForwardRouted)), Take), IngestTaken);
            && r == p.(queue := r.queue, adapter := Ingest(p.adapter, events[k]),
                       arrivals := p.arrivals + [ArrivalOf(p, events[k])])
            && r.queue.events == [] && !r.queue.overflowed && Accepted(r, events[..k + 1]) && Safe(r)
  {
    hide Safe, KeyOf, Ingest, Accepted;
    var e, r1 := events[k], Step(p, Work(Receive(events[k])));
    ReceiveIsAccepted(p, events, k);
    var r2 := Step(r1, Work(Classify));
    assert r2 == r1.(system := p.system.(routing := ToQueue(e)));
    var r3, quiet := Step(r2, Work(ForwardRouted)), p.(arrivals := r1.arrivals);
    assert r3 == quiet.(queue := Q.Push(quiet.queue, e));
    ReadOne(quiet, e);
    StepIsSafe(p, Work(Receive(e)));
    StepIsSafe(r1, Work(Classify));
    StepIsSafe(r2, Work(ForwardRouted));
    StepIsSafe(r3, Take);
    StepIsSafe(Step(r3, Take), IngestTaken);
    SameArrivals(r1, Step(Step(r3, Take), IngestTaken), events[..k + 1]);
  }

  /** Any other event goes straight to the client. */
  lemma GatherOther(p: Pipe, events: seq<Event>, i: nat, k: nat)
    requires Numbers(events) && i <= k < |events| && Gathered(p, events, i, k, Prompt(|events|))
    requires !MaySettle(events[k]) && IsExposed(events, i)
    ensures Gathered(Step(Step(Step(Step(Step(p, Work(Receive(events[k]))), Work(Classify)), Work(ForwardRouted)), Take), IngestTaken),
                     events, i, k + 1, Prompt(|events|))
  {
    hide Safe, KeyOf, Serves, Ingest, Names, Step, Accepted, IsExposed;
    ArrivalCount(p, events, k);
    OtherSteps(p, events, k);
    assert !IsSuperseded(events, k);
    NotServing(events, i, k);
    IngestUnserving(p.adapter, events[k], events[i]);
  }

  lemma NotServing(events: seq<Event>, i: nat, k: nat)
    requires i <= k < |events| && IsExposed(events, i) && !IsSuperseded(events, k)
    ensures !Serves(events[k], events[i])
  {
  }

  /** The five steps of the settle worker that deliver the first pending event. */
  lemma DeliverFirst(y: System, first: Deadline, now: int)
    requires Invariant(y) && !y.slots.stopped && y.worker.Idle?
    requires IsFirstDeadline(y.slots.deadlines, first) && first.at <= now
    requires forall id | id in y.slots.watches :: y.slots.watches[id].Some? && y.slots.watches[id].value.stableFor <= 0
    ensures first.key in y.slots.pending
    ensures
      var y1 := Act(y, TakeNext(first, now)).0;
      var y2 := Act(y1, CheckCurrent).0;
      var y3 := Act(y2, PollFile(Sample(now, Unreadable("")))).0;
      var y4 := Act(y3, Finish).0;
      var (y5, out) := Act(y4, ForwardSettled);
      && Act(y, TakeNext(first, now)).1.None? && Act(y1, CheckCurrent).1.None?
      && Act(y2, PollFile(Sample(now, Unreadable("")))).1.None? && Act(y3, Finish).1.None?
      && out == Some(y.slots.pending[first.key].event)
      && y5.worker.Idle? && y5.routing == y.routing && y5.slots.watches == y.slots.watches
      && y5.slots.pending == y.slots.pending - {first.key}
  {
    hide KeyOf, Agree, IsFirstDeadline;
    FirstIsMember(y.slots.deadlines, first);
    NoStaleDeadline(y.slots, None, first);
    TakeDueAgrees(y.slots, first, now);
    PendingIsOwned(y.slots, None, first.key);
    PendingKey(y.slots, None, first.key);
    assert y.slots.pending - {first.key} - {first.key} == y.slots.pending - {first.key};
  }

  // ----- several moves at once

  function Steps(p: Pipe, moves: seq<Move>): Pipe
    decreases |moves|
  {
    if moves == [] then p else Steps(Step(p, moves[0]), moves[1..])
  }

  lemma StepsCons(p: Pipe, m: Move, rest: seq<Move>)
    ensures Steps(p, [m] + rest) == Steps(Step(p, m), rest)
  {
    hide Step;
    assert ([m] + rest)[1..] == rest;
  }

  lemma {:induction false} RunThenSteps(moves: seq<Move>, more: seq<Move>, limit: nat)
    ensures RunMoves(moves + more, limit) == Steps(RunMoves(moves, limit), more)
    decreases |more|
  {
    hide RunMoves, Step;
    if more == [] {
      assert moves + more == moves;
    } else {
      OneMoreMove(moves, more[0], limit);
      RunThenSteps(moves + [more[0]], more[1..], limit);
      assert moves + [more[0]] + more[1..] == moves + more;
    }
  }

  lemma {:induction false} StepsAreSafe(p: Pipe, moves: seq<Move>)
    requires Safe(p)
    ensures Safe(Steps(p, moves))
    decreases |moves|
  {
    hide Safe, Step;
    if moves != [] {
      StepIsSafe(p, moves[0]);
      StepsAreSafe(Step(p, moves[0]), moves[1..]);
    }
  }

  /** The readings of all these moves are the same. */
  lemma {:induction false} SteadyAtOnce(moves: seq<Move>, now: int)
    requires forall k | 0 <= k < |moves| :: MoveTime(moves[k]).None? || MoveTime(moves[k]) == Some(now)
    ensures Steady(moves, now, now)
    decreases |moves|
  {
    hide MoveTime;
    if moves != [] { SteadyAtOnce(moves[1..], now); }
  }

  /** The moves that bring a new event to its place. */
  function Gathering(e: Event, now: int): seq<Move> {
    [Work(Receive(e))] + ([Work(Classify)] +
      (if MaySettle(e) then [Work(Admit(now))] + [] else [Work(ForwardRouted)] + ([Take] + ([IngestTaken] + []))))
  }

  lemma GatherOne(p: Pipe, events: seq<Event>, i: nat, k: nat, now: int)
    requires Numbers(events) && i <= k < |events| && Gathered(p, events, i, k, Prompt(|events|)) && IsExposed(events, i)
    ensures Gathered(Steps(p, Gathering(events[k], now)), events, i, k + 1, Prompt(|events|))
    ensures Steady(Gathering(events[k], now), now, now)
  {
    hide Gathered, IsExposed, Step, Steps, MaySettle;
    var e := events[k];
    SteadyAtOnce(Gathering(e, now), now);
    var r2 := Step(Step(p, Work(Receive(e))), Work(Classify));
    var rest := Gathering(e, now)[2..];
    assert Gathering(e, now) == [Work(Receive(e))] + ([Work(Classify)] + rest);
    StepsCons(p, Work(Receive(e)), [Work(Classify)] + rest);
    StepsCons(Step(p, Work(Receive(e))), Work(Classify), rest);
    if MaySettle(e) {
      assert rest == [Work(Admit(now))] + [];
      StepsCons(r2, Work(Admit(now)), []);
      NoSteps(Step(r2, Work(Admit(now))));
      GatherSettling(p, events, i, k, now);
    } else {
      assert rest == [Work(ForwardRouted)] + ([Take] + ([IngestTaken] + []));
      StepsCons(r2, Work(ForwardRouted), [Take] + ([IngestTaken] + []));
      StepsCons(Step(r2, Work(ForwardRouted)), Take, [IngestTaken] + []);
      StepsCons(Step(Step(r2, Work(ForwardRouted)), Take), IngestTaken, []);
      NoSteps(Step(Step(Step(r2, Work(ForwardRouted)), Take), IngestTaken));
      GatherOther(p, events, i, k);
    }
  }

  lemma NoSteps(p: Pipe)
    ensures Steps(p, []) == p
  {
  }

  /** The moves that deliver the first pending event to the adapter. */
  function Delivery(first: Deadline, now: int): seq<Move> {
    [Work(TakeNext(first, now))] + ([Work(CheckCurrent)] + ([Work(PollFile(Sample(now, Unreadable(""))))] +
      ([Work(Finish)] + ([Work(ForwardSettled)] + ([Take] + ([IngestTaken] + []))))))
  }

  lemma QuietWork(p: Pipe, a: Action)
    requires !a.Stop? && !a.Receive? && !a.DropWatch? && Act(p.system, a).1.None?
    ensures Step(p, Work(a)) == p.(system := Act(p.system, a).0)
  {
    hide Act;
  }

  lemma DeliverySteps(p: Pipe, first: Deadline, now: int)
    requires Invariant(p.system) && !p.system.slots.stopped && p.system.worker.Idle?
    requires IsFirstDeadline(p.system.slots.deadlines, first) && first.at <= now
    requires forall id | id in p.system.slots.watches :: p.system.slots.watches[id].Some? && p.system.slots.watches[id].value.stableFor <= 0
    requires p.queue.events == [] && !p.queue.overflowed && p.hand.None?
    ensures first.key in p.system.slots.pending
    ensures
      var r := Steps(p, Delivery(first, now));
      && r == p.(system := r.system, queue := r.queue, adapter := Ingest(p.adapter, p.system.slots.pending[first.key].event))
      && r.queue.events == [] && !r.queue.overflowed
      && r.system.worker.Idle? && r.system.routing == p.system.routing && r.system.slots.watches == p.system.slots.watches
      && r.system.slots.pending == p.system.slots.pending - {first.key}
  {
    hide Invariant, IsFirstDeadline, Act, Ingest, Step, Steps;
    var poll := PollFile(Sample(now, Unreadable("")));
    DeliverFirst(p.system, first, now);
    var p1 := p.(system := Act(p.system, TakeNext(first, now)).0);
    var p2 := p.(system := Act(p1.system, CheckCurrent).0);
    var p3 := p.(system := Act(p2.system, poll).0);
    var p4 := p.(system := Act(p3.system, Finish).0);
    var p5 := p.(system := Act(p4.system, ForwardSettled).0);
    QuietWork(p, TakeNext(first, now));
    QuietWork(p1, CheckCurrent);
    QuietWork(p2, poll);
    QuietWork(p3, Finish);
    var e := p.system.slots.pending[first.key].event;
    LoudWork(p4, ForwardSettled, e);
    ReadOne(p5, e);
    var last := [Work(ForwardSettled)] + ([Take] + ([IngestTaken] + []));
    StepsCons(p, Work(TakeNext(first, now)), [Work(CheckCurrent)] + ([Work(poll)] + ([Work(Finish)] + last)));
    StepsCons(p1, Work(CheckCurrent), [Work(poll)] + ([Work(Finish)] + last));
    StepsCons(p2, Work(poll), [Work(Finish)] + last);
    StepsCons(p3, Work(Finish), last);
    StepsCons(p4, Work(ForwardSettled), [Take] + ([IngestTaken] + []));
    var p6 := p5.(queue := Q.Push(p5.queue, e));
    StepsCons(p6, Take, [IngestTaken] + []);
    StepsCons(Step(p6, Take), IngestTaken, []);
    NoSteps(Step(Step(p6, Take), IngestTaken));
  }

  lemma LoudWork(p: Pipe, a: Action, e: Event)
    requires !a.Stop? && !a.Receive? && !a.DropWatch? && Act(p.system, a).1 == Some(e)
    ensures Step(p, Work(a)) == p.(system := Act(p.system, a).0, queue := Q.Push(p.queue, e))
  {
    hide Act, Q.Push;
  }

  /** Delivering the first pending event keeps what is gathered, since that event is
      not superseded and so answers nothing for event i. */
  lemma DeliverOne(p: Pipe, events: seq<Event>, i: nat, first: Deadline, now: int)
    requires i < |events| && Gathered(p, events, i, |events|, Prompt(|events|)) && IsExposed(events, i)
    requires IsFirstDeadline(p.system.slots.deadlines, first) && first.at <= now
    ensures Gathered(Steps(p, Delivery(first, now)), events, i, |events|, Prompt(|events|))
    ensures first.key in p.system.slots.pending
    ensures |Steps(p, Delivery(first, now)).system.slots.pending| == |p.system.slots.pending| - 1
    ensures Steady(Delivery(first, now), now, now)
  {
    hide Safe, Serves, Ingest, Names, Steps, IsFirstDeadline, IsExposed, Invariant, Supersedes, Accepted, Delivery, Watches;
    SteadyDelivery(first, now);
    SafeIsRunning(p);
    WatchesArePrompt(p.system.slots, events, Prompt(|events|));
    DeliverySteps(p, first, now);
    StepsAreSafe(p, Delivery(first, now));
    var e := p.system.slots.pending[first.key].event;
    OneLess(p.system.slots.pending, first.key);
    assert events[..|events|] == events;
    PendingIsArrival(p, events, first.key);
    SameArrivals(p, Steps(p, Delivery(first, now)), events);
    SameWatches(p.system.slots, Steps(p, Delivery(first, now)).system.slots, events, Prompt(|events|));
    NotServing(events, i, e.serial);
    SameService(e, events[e.serial], events[i]);
    IngestUnserving(p.adapter, e, events[i]);
  }

  lemma SteadyDelivery(first: Deadline, now: int)
    ensures Steady(Delivery(first, now), now, now)
  {
    SteadyAtOnce(Delivery(first, now), now);
  }

  lemma WatchesArePrompt(s: Slots, events: seq<Event>, o: SettleOptions)
    requires Watches(s, events, o)
    ensures forall id | id in s.watches :: s.watches[id] == Some(o)
  {
  }

  lemma SameWatches(s: Slots, t: Slots, events: seq<Event>, o: SettleOptions)
    requires Watches(s, events, o) && t.watches == s.watches
    ensures Watches(t, events, o)
  {
  }

  lemma SafeIsRunning(p: Pipe)
    requires Safe(p)
    ensures Invariant(p.system) && !p.system.slots.stopped
  {
    hide Invariant, AllCovered, ArrivalsAreSound;
  }

  lemma PendingIsArrival(p: Pipe, events: seq<Event>, key: string)
    requires Safe(p) && Accepted(p, events) && key in p.system.slots.pending
    ensures var e := p.system.slots.pending[key].event;
            e.serial < |events| && e == events[e.serial].(diagnostics := e.diagnostics)
  {
    hide Invariant, AllCovered, ArrivalsAreSound;
  }

  lemma SameService(e: Event, x: Event, own: Event)
    requires e == x.(diagnostics := e.diagnostics)
    ensures Serves(e, own) == Serves(x, own)
  {
    hide FileName;
  }

  /** From event i on, the events are accepted without a flush. */
  lemma {:induction false} GatherAll(events: seq<Event>, i: nat, k: nat) returns (moves: seq<Move>, end: int)
    requires Numbers(events) && i <= k <= |events| && i < |events| && IsExposed(events, i)
    ensures Steady(moves, 0, end) && Gathered(RunMoves(moves, |events| + 1), events, i, k, Prompt(|events|))
    decreases k
  {
    hide RunMoves, IsExposed, Numbers, Gathered, Steps;
    if k == i {
      moves, end := AcceptAndDrain(events, i, Prompt(|events|), |events| + 1);
      EveryRunIsSafe(moves, |events| + 1);
      LimitIsKept(moves, |events| + 1);
      NothingGathered(RunMoves(moves, |events| + 1), events, i);
    } else {
      moves, end := GatherAll(events, i, k - 1);
      var more := Gathering(events[k - 1], end);
      RunThenSteps(moves, more, |events| + 1);
      GatherOne(RunMoves(moves, |events| + 1), events, i, k - 1, end);
      SteadyOnwards(moves, more, 0, end, end);
      moves := moves + more;
    }
  }

  lemma NothingGathered(p: Pipe, events: seq<Event>, i: nat)
    requires i < |events| && Safe(p) && Drained(p) && p.removals == [] && Accepted(p, events[..i])
    requires Watches(p.system.slots, events, Prompt(|events|)) && p.adapter.limit == |events| + 1
    ensures Gathered(p, events, i, i, Prompt(|events|))
  {
    hide Invariant, AllCovered, ArrivalsAreSound, Tracked, DemandsRescan, Target;
  }

  lemma {:induction false} LimitIsKept(moves: seq<Move>, limit: nat)
    ensures RunMoves(moves, limit).adapter.limit == NewAdapter(limit).limit
  {
    hide Act, Target, DemandsRescan;
    if moves != [] { LimitIsKept(moves[..|moves| - 1], limit); }
  }

  /** Then everything pending is delivered. */
  lemma {:induction false} DeliverAll(moves: seq<Move>, now: int, events: seq<Event>, i: nat) returns (more: seq<Move>, end: int)
    requires i < |events| && IsExposed(events, i) && Gathered(RunMoves(moves, |events| + 1), events, i, |events|, Prompt(|events|))
    ensures Steady(more, now, end)
    ensures var r := RunMoves(moves + more, |events| + 1);
            Gathered(r, events, i, |events|, Prompt(|events|)) && r.system.slots.pending == map[]
    decreases |RunMoves(moves, |events| + 1).system.slots.pending|
  {
    hide RunMoves, IsExposed, Gathered, Steps, IsFirstDeadline;
    var p := RunMoves(moves, |events| + 1);
    if p.system.slots.pending == map[] {
      more, end := [], now;
      assert moves + more == moves;
    } else {
      var first := SomeDeadline(p, events, i);
      var later := if first.at > now then first.at else now;
      var these := Delivery(first, later);
      DeliverOne(p, events, i, first, later);
      RunThenSteps(moves, these, |events| + 1);
      var rest;
      rest, end := DeliverAll(moves + these, later, events, i);
      more := these + rest;
      assert moves + more == moves + these + rest;
      SteadyEarlier(these, later, later, now);
      SteadyOnwards(these, rest, now, later, end);
    }
  }

  lemma SomeDeadline(p: Pipe, events: seq<Event>, i: nat) returns (first: Deadline)
    requires i < |events| && Gathered(p, events, i, |events|, Prompt(|events|)) && p.system.slots.pending != map[]
    ensures IsFirstDeadline(p.system.slots.deadlines, first)
  {
    hide KeyOf, IsFirstDeadline, Safe, IsLatest;
    SafeIsRunning(p);
    var k :| k in p.system.slots.pending;
    assert DeadlineOf(p.system.slots.pending[k]) in p.system.slots.deadlines;
    first := FirstDeadlineExists(p.system.slots.deadlines);
  }

  /** And one flush later event i has no answer of its own. */
  lemma FlushMisses(p: Pipe, events: seq<Event>, i: nat)
    requires i < |events| && Gathered(p, events, i, |events|, Prompt(|events|)) && p.system.slots.pending == map[]
    ensures Misses(Step(p, Flush), events, i)
  {
    hide Safe, Names;
    assert events[..|events|] == events;
  }

  lemma ExposedIsMissed(events: seq<Event>, i: nat)
    requires Numbers(events) && i < |events| && IsExposed(events, i)
    ensures CanMiss(events, i)
  {
    hide RunMoves, IsExposed, Numbers, Gathered, Misses, Step;
    var limit := |events| + 1;
    var moves, now := GatherAll(events, i, |events|);
    var more, end := DeliverAll(moves, now, events, i);
    SteadyOnwards(moves, more, 0, now, end);
    var before := moves + more;
    FlushMisses(RunMoves(before, limit), events, i);
    OneMoreMove(before, Flush, limit);
    SteadyOne(Flush, end, end);
    SteadyOnwards(before, [Flush], 0, end, end);
    assert Misses(RunMoves(before + [Flush], limit), events, i);
  }

  /** Exactly when an accepted event can be left without an answer of its own: the
      event, and every later one that would answer it, is followed by an event that
      can take its place, for the same watch and absolute path but of another
      relative path, and demanding no rescan. */
  lemma MissedExactlyIfExposed(events: seq<Event>, i: nat)
    requires Numbers(events) && i < |events|
    ensures CanMiss(events, i) <==> IsExposed(events, i)
  {
    hide RunMoves, IsExposed, Numbers, Misses, Steady;
    if IsExposed(events, i) { ExposedIsMissed(events, i); }
    if CanMiss(events, i) {
      var moves: seq<Move>, limit: nat, end: int :| Steady(moves, 0, end) && Misses(RunMoves(moves, limit), events, i);
      MissedIsExposed(moves, limit, events, i);
    }
  }

  /** So if all later events that can take its place are filed under the same path or
      demand a rescan, then every drained run that kept its watch answers the event
      itself. */
  lemma SamePathIsAnswered(moves: seq<Move>, limit: nat, events: seq<Event>, i: nat)
    requires var p := RunMoves(moves, limit); Drained(p) && p.removals == [] && Accepted(p, events) && i < |events|
    requires forall j | i < j < |events| && Supersedes(events[j], events[i]) :: Serves(events[j], events[i])
    ensures AnsweredItself(RunMoves(moves, limit).flushes, RunMoves(moves, limit).arrivals, i)
  {
    hide RunMoves, AnsweredItself, Serves;
    if !AnsweredItself(RunMoves(moves, limit).flushes, RunMoves(moves, limit).arrivals, i) {
      MissedIsExposed(moves, limit, events, i);
      LastIsNotSuperseded(events, i, |events|);
    }
  }

  /** The last event that is i or can take its place serves i and is not superseded. */
  lemma {:induction false} LastIsNotSuperseded(events: seq<Event>, i: nat, n: nat)
    requires i < n <= |events|
    requires forall j | i < j < |events| && Supersedes(events[j], events[i]) :: Serves(events[j], events[i])
    requires forall j | n <= j < |events| :: !Supersedes(events[j], events[i])
    ensures !IsExposed(events, i)
  {
    var k := n - 1;
    if k == i || Supersedes(events[k], events[i]) {
      assert Serves(events[k], events[i]) && !IsSuperseded(events, k);
    } else {
      LastIsNotSuperseded(events, i, k);
    }
  }

  const OldFile := Event(0, Created, 1, "/w/a", Some("a"), File, false, Clean, [])
  const NewLink := Event(1, RenamedNew, 1, "/w/a", Some("b"), File, false, Clean, [])

  /** A file /w/a is created, and a link to /w/b is renamed over it before it has
      settled: the link resolves to "b", and the path "a" is never decided. */
  lemma LinkRenamedOver()
    ensures CanMiss([OldFile, NewLink], 0)
  {
    hide CanMiss;
    var events := [OldFile, NewLink];
    assert Supersedes(events[1], events[0]) && !Serves(events[1], events[0]);
    MissedExactlyIfExposed(events, 0);
  }
}
