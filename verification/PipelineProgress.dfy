/** Progress of the pipeline: from every reachable state it can be drained without
    turning back the clock. */
module PipelineProgress {
  import opened Prelude
  import opened WatchEvents
  import opened SettlePolling
  import opened SettleScheduler
  import opened SettleHistory
  import opened SettleSeries
  import Q = EventQueue
  import opened OverloadAdapter
  import opened Pipeline

  function MoveTime(m: Move): Option<int> {
    if m.Work? then TimeOf(m.action) else None
  }

  /** The clock readings of the moves never decrease, from `now` to `end`. */
  predicate Steady(moves: seq<Move>, now: int, end: int) {
    if moves == [] then now <= end
    else match MoveTime(moves[0])
         case Some(t) => t >= now && Steady(moves[1..], t, end)
         case None => Steady(moves[1..], now, end)
  }

  lemma {:induction false} SteadyOnwards(a: seq<Move>, b: seq<Move>, now: int, later: int, end: int)
    requires Steady(a, now, later) && Steady(b, later, end)
    ensures Steady(a + b, now, end)
    decreases |a|
  {
    if a == [] {
      assert a + b == b;
      SteadyEarlier(b, later, end, now);
    } else {
      assert (a + b)[1..] == a[1..] + b;
      SteadyOnwards(a[1..], b, match MoveTime(a[0]) case Some(t) => t case None => now, later, end);
    }
  }

  lemma {:induction false} SteadyEarlier(moves: seq<Move>, now: int, end: int, earlier: int)
    requires Steady(moves, now, end) && earlier <= now
    ensures Steady(moves, earlier, end)
    decreases |moves|
  {
    if moves != [] && MoveTime(moves[0]).None? { SteadyEarlier(moves[1..], now, end, earlier); }
  }

  lemma SteadyOne(m: Move, now: int, end: int)
    requires now <= end && (MoveTime(m).Some? ==> now <= MoveTime(m).value <= end)
    ensures Steady([m], now, end)
  {
    assert [m][1..] == [];
  }

  // ----- how far the pipeline is from being drained

  function RoutingRank(y: System): nat {
    if y.routing.NoEvent? then 0 else if y.routing.Active? then 2 else 1
  }

  function WorkerRank(y: System): nat {
    match y.worker
    case Idle => 0
    case Holding(_) => 8
    case Polling(_) => 7
    case Polled(Deliver, _) => 6
    case Polled(Skip, task) => if IsCurrent(y.slots, task.key, task.generation) then 11 else 3
    case Delivering(_) => 5
    case Ended => 0
  }

  function SettleRank(y: System): nat {
    10 * |y.slots.pending| + WorkerRank(y)
  }

  predicate Still(y: System) {
    y.routing.NoEvent? && y.worker.Idle? && y.slots.pending == map[]
  }

  /** Only what was accepted is worked on; watches stay. */
  predicate SameWork(p: Pipe, r: Pipe) {
    && r.arrivals == p.arrivals && r.removals == p.removals
    && r.system.slots.watches == p.system.slots.watches && r.system.nextId == p.system.nextId
  }

  predicate Less(y: System, x: System) {
    RoutingRank(y) < RoutingRank(x) || (RoutingRank(y) == RoutingRank(x) && SettleRank(y) < SettleRank(x))
  }

  /** One move of the backend worker that is enabled. */
  lemma RoutingMove(y: System, now: int) returns (a: Action)
    requires !y.routing.NoEvent?
    ensures !a.Stop? && !a.Receive? && !a.DropWatch? && (TimeOf(a).Some? ==> TimeOf(a).value == now)
    ensures var z := Act(y, a).0;
            RoutingRank(z) < RoutingRank(y) && z.slots.watches == y.slots.watches && z.nextId == y.nextId
  {
    hide KeyOf, IsOverCapacity;
    a := match y.routing case Active(_) => Classify case ToSettle(_) => Admit(now) case _ => ForwardRouted;
  }

  lemma OneLess(m: map<string, Task>, k: string)
    requires k in m
    ensures |m - {k}| == |m| - 1
  {
    assert m.Keys == (m - {k}).Keys + {k};
  }

  /** The due loop takes the first deadline once it is due. */
  lemma DueMove(y: System, now: int) returns (a: Action)
    requires Invariant(y) && !y.slots.stopped && y.worker.Idle? && y.slots.pending != map[]
    ensures a.TakeNext? && a.now >= now && SettleRank(Act(y, a).0) < SettleRank(y)
    ensures var z := Act(y, a).0;
            z.routing == y.routing && z.slots.watches == y.slots.watches && z.nextId == y.nextId
  {
    hide KeyOf, IsFirstDeadline;
    var s := y.slots;
    var k :| k in s.pending;
    assert DeadlineOf(s.pending[k]) in s.deadlines;
    var first := FirstDeadlineExists(s.deadlines);
    FirstIsMember(s.deadlines, first);
    NoStaleDeadline(s, None, first);
    a := TakeNext(first, if first.at > now then first.at else now);
    OneLess(s.pending, first.key);
  }

  lemma PollMove(y: System, now: int)
    requires Invariant(y) && !y.slots.stopped && y.worker.Polling?
    ensures SettleRank(Act(y, PollFile(Sample(now, Unreadable("")))).0) < SettleRank(y)
  {
    hide KeyOf, Agree;
    if !Settles(y.slots, y.worker.task.event.source) { NotCurrentWithoutWatch(y.slots, y.worker.task); }
  }

  lemma FinishMove(y: System)
    requires Invariant(y) && !y.slots.stopped && y.worker.Polled?
    ensures SettleRank(Act(y, Finish).0) < SettleRank(y)
    ensures Act(y, Finish).0.slots.watches == y.slots.watches
  {
    hide KeyOf, Agree;
    var task, pending := y.worker.task, y.slots.pending;
    if IsCurrent(y.slots, task.key, task.generation) {
      CurrentIsNotPending(y.slots, task);
      assert pending - {task.key} == pending;
      assert |pending[task.key := task]| == |pending| + 1;
    }
  }

  /** One move of the settle worker that is enabled. A file that is polled turns out
      to be unreadable, so the event is delivered. */
  lemma WorkerMove(y: System, now: int) returns (a: Action)
    requires Invariant(y) && !y.slots.stopped && !y.worker.Idle? && !y.worker.Ended?
    ensures !a.Stop? && !a.Receive? && !a.DropWatch? && (TimeOf(a).Some? ==> TimeOf(a).value == now)
    ensures var z := Act(y, a).0;
            SettleRank(z) < SettleRank(y) && z.routing == y.routing && z.slots.watches == y.slots.watches && z.nextId == y.nextId
  {
    hide KeyOf, Agree, Poll, Complete, Reschedule;
    match y.worker {
      case Holding(_) => a := CheckCurrent;
      case Polling(_) =>
        a := PollFile(Sample(now, Unreadable("")));
        PollMove(y, now);
      case Polled(_, _) =>
        a := Finish;
        FinishMove(y);
      case Delivering(_) => a := ForwardSettled;
    }
  }

  lemma NotCurrentWithoutWatch(s: Slots, task: Task)
    requires Agree(s, Some(task)) && !Settles(s, task.event.source)
    ensures !IsCurrent(s, task.key, task.generation)
  {
  }

  /** One move of the settle stage, unless it is still. */
  lemma SettleMove(p: Pipe, now: int) returns (m: Move, later: int)
    requires Safe(p) && !Still(p.system)
    ensures Steady([m], now, later)
    ensures Less(Step(p, m).system, p.system) && SameWork(p, Step(p, m))
    ensures Step(p, m).hand == p.hand
  {
    hide Invariant, Act, SettleRank, RoutingRank, MarkerInFront, AllCovered, ArrivalsAreSound, Q.Push;
    var y := p.system;
    var a: Action;
    later := now;
    if !y.routing.NoEvent? {
      a := RoutingMove(y, now);
    } else if y.worker.Idle? {
      a := DueMove(y, now);
      later := a.now;
    } else {
      a := WorkerMove(y, now);
    }
    SameRouting(y, Act(y, a).0);
    m := Work(a);
    SteadyOne(m, now, later);
  }

  lemma SameRouting(x: System, y: System)
    ensures x.routing == y.routing ==> RoutingRank(x) == RoutingRank(y)
  {
  }

  lemma OneMoreMove(moves: seq<Move>, m: Move, limit: nat)
    ensures RunMoves(moves + [m], limit) == Step(RunMoves(moves, limit), m)
  {
    assert (moves + [m])[..|moves|] == moves;
  }

  /** The client reads what is queued. */
  function ClientMove(p: Pipe): Move {
    if p.hand.Some? then IngestTaken else if p.queue.events != [] then Take else Flush
  }

  /** A client that keeps reading catches up: from every reachable state the workers
      and the client can go on, with a steady clock, until the pipeline is drained;
      and then every accepted event whose watch is still there has been answered. */
  lemma {:induction false} ReadingCatchesUp(moves: seq<Move>, limit: nat, now: int) returns (more: seq<Move>, end: int)
    ensures Steady(more, now, end)
    ensures var p, r := RunMoves(moves, limit), RunMoves(moves + more, limit);
            && Drained(r) && SameWork(p, r)
            && forall i | 0 <= i < |r.arrivals| :: Answered(r.flushes, r.arrivals, i) || IsRemoved(r, i)
    decreases RoutingRank(RunMoves(moves, limit).system), SettleRank(RunMoves(moves, limit).system),
              |RunMoves(moves, limit).queue.events|, RunMoves(moves, limit).hand.Some?
  {
    hide RunMoves, Answered, RemovedSince, Ingest, Safe, RoutingRank, SettleRank;
    var p := RunMoves(moves, limit);
    EveryRunIsSafe(moves, limit);
    var m, later := ClientMove(p), now;
    if Still(p.system) { SteadyOne(m, now, now); } else { m, later := SettleMove(p, now); }
    OneMoreMove(moves, m, limit);
    if Still(p.system) && m == Flush {
      more, end := [m], now;
      forall i | 0 <= i < |p.arrivals|
        ensures var r := RunMoves(moves + more, limit); Answered(r.flushes, r.arrivals, i) || IsRemoved(r, i)
      {
        DrainedMeansAnswered(moves + more, limit, i);
      }
    } else {
      var rest;
      rest, end := ReadingCatchesUp(moves + [m], limit, later);
      more := [m] + rest;
      assert moves + more == moves + [m] + rest;
      SteadyOnwards([m], rest, now, later, end);
    }
  }
}
