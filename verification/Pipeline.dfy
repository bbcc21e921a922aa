/** The whole pipeline in pull mode: backend worker, settle stage, event queue, and
    the client's adapter. Watches come and go, and the watcher is not stopped; then
    no accepted event is forgotten unless its watch is removed. */
module Pipeline {
  import opened Prelude
  import opened WatchEvents
  import opened SettleKeys
  import opened SettlePolling
  import opened SettleScheduler
  import Q = EventQueue
  import opened OverloadAdapter

  /** What a flush told the client: a full rescan, or a set of decided paths. */
  datatype Flushing = Flushing(rescan: bool, decided: set<string>)

  /** An event the watcher accepted, how many flushes came before it, and whether its
      watch has settle options. */
  datatype Arrival = Arrival(event: Event, flushesBefore: nat, settles: bool)

  /** A watch was removed when so many events had been accepted. */
  datatype Removal = Removal(id: nat, arrivalsBefore: nat)

  datatype Pipe = Pipe(
    system: System, queue: Q.Queue, hand: Option<Event>, adapter: Adapter,
    flushes: seq<Flushing>, arrivals: seq<Arrival>, removals: seq<Removal>)

  datatype Move = Work(action: Action) | Take | IngestTaken | Flush

  function Start(limit: nat): Pipe {
    Pipe(InitialSystem, Q.EmptyQueue, None, NewAdapter(limit), [], [], [])
  }

  /** Events are numbered as they are accepted; nothing else of them is changed. */
  function Numbered(a: Action, serial: nat): Action {
    if a.Receive? then Receive(a.event.(serial := serial)) else a
  }

  function WithRemoval(removals: seq<Removal>, a: Action, n: nat): seq<Removal> {
    if a.DropWatch? && a.known then removals + [Removal(a.id, n)] else removals
  }

  function ArrivalOf(p: Pipe, e: Event): Arrival {
    Arrival(e, |p.flushes|, Settles(p.system.slots, e.source))
  }

  function AfterWork(p: Pipe, a: Action): Pipe {
    var (y, out) := Act(p.system, a);
    p.(system := y,
       queue := match out case Some(e) => Q.Push(p.queue, e) case None => p.queue,
       arrivals := if a.Receive? && y != p.system then p.arrivals + [ArrivalOf(p, a.event)] else p.arrivals,
       removals := WithRemoval(p.removals, a, |p.arrivals|))
  }

  function Step(p: Pipe, m: Move): Pipe {
    match m
    case Work(a) => if a.Stop? then p else AfterWork(p, Numbered(a, |p.arrivals|))
    case Take =>
      if p.hand.None? && p.queue.events != [] then p.(queue := Q.AfterPop(p.queue), hand := Some(p.queue.events[0])) else p
    case IngestTaken =>
      if p.hand.Some? then p.(hand := None, adapter := Ingest(p.adapter, p.hand.value)) else p
    case Flush =>
      var decided := if p.adapter.fullRescan then {} else p.adapter.pending.Keys;
      p.(adapter := Flushed(p.adapter), flushes := p.flushes + [Flushing(p.adapter.fullRescan, decided)])
  }

  function RunMoves(moves: seq<Move>, limit: nat): Pipe {
    if moves == [] then Start(limit) else Step(RunMoves(moves[..|moves| - 1], limit), moves[|moves| - 1])
  }

  // ----- coverage

  /** In the settle stage the one event can take the place of the other. */
  predicate Supersedes(later: Event, e: Event) {
    MaySettle(later) && MaySettle(e) && later.source == e.source && later.path == e.path
  }

  /** Arrival j is arrival i, or a later one that can take its place, both being from a
      watch with settle options. */
  predicate StandsFor(arrivals: seq<Arrival>, j: nat, i: nat) {
    && i <= j < |arrivals|
    && (j == i || (arrivals[j].settles && arrivals[i].settles && Supersedes(arrivals[j].event, arrivals[i].event)))
  }

  /** The event is an arrival, up to the diagnostics that a poll adds. */
  predicate Genuine(e: Event, arrivals: seq<Arrival>) {
    e.serial < |arrivals| && e == arrivals[e.serial].event.(diagnostics := e.diagnostics)
  }

  predicate Carries(e: Event, arrivals: seq<Arrival>, i: nat) {
    Genuine(e, arrivals) && StandsFor(arrivals, e.serial, i)
  }

  predicate Bears(e: Event, arrivals: seq<Arrival>, i: nat) {
    DemandsRescan(e) || Carries(e, arrivals, i)
  }

  predicate InSettle(y: System, arrivals: seq<Arrival>, i: nat)
    requires i < |arrivals|
  {
    var k := KeyOf(arrivals[i].event);
    || (!y.routing.NoEvent? && Carries(y.routing.event, arrivals, i))
    || (k in y.slots.pending && Carries(y.slots.pending[k].event, arrivals, i))
    || (Held(y).Some? && Carries(Held(y).value.event, arrivals, i))
    || (y.worker.Delivering? && Carries(y.worker.event, arrivals, i))
  }

  predicate InQueue(q: Q.Queue, arrivals: seq<Arrival>, i: nat) {
    exists x | 0 <= x < |q.events| :: Bears(q.events[x], arrivals, i)
  }

  predicate Names(e: Event, paths: set<string>) {
    !DemandsRescan(e) && Target(e) in paths
  }

  predicate InAdapter(a: Adapter, arrivals: seq<Arrival>, i: nat) {
    a.fullRescan || exists j | i <= j < |arrivals| :: StandsFor(arrivals, j, i) && Names(arrivals[j].event, a.pending.Keys)
  }

  /** Flush number b demanded a rescan, or decided the path of an arrival that came
      before the flush and stands for arrival i. */
  predicate Decides(flush: Flushing, b: nat, arrivals: seq<Arrival>, i: nat) {
    flush.rescan
    || exists j | i <= j < |arrivals| ::
         StandsFor(arrivals, j, i) && arrivals[j].flushesBefore <= b && Names(arrivals[j].event, flush.decided)
  }

  /** Some flush after its arrival decided about arrival i. */
  predicate Answered(flushes: seq<Flushing>, arrivals: seq<Arrival>, i: nat)
    requires i < |arrivals|
  {
    exists b | arrivals[i].flushesBefore <= b < |flushes| :: Decides(flushes[b], b, arrivals, i)
  }

  predicate Covered(p: Pipe, i: nat)
    requires i < |p.arrivals|
  {
    || InSettle(p.system, p.arrivals, i)
    || InQueue(p.queue, p.arrivals, i)
    || (p.hand.Some? && Bears(p.hand.value, p.arrivals, i))
    || InAdapter(p.adapter, p.arrivals, i)
    || Answered(p.flushes, p.arrivals, i)
  }

  /** The watch was removed after event number n was accepted. */
  predicate RemovedSince(removals: seq<Removal>, id: nat, n: nat) {
    exists r | 0 <= r < |removals| :: removals[r].id == id && removals[r].arrivalsBefore > n
  }

  predicate IsRemoved(p: Pipe, i: nat)
    requires i < |p.arrivals|
  {
    RemovedSince(p.removals, p.arrivals[i].event.source, i)
  }

  // ----- what keeps coverage

  predicate Live(s: Slots, removals: seq<Removal>, e: Event) {
    e.source in s.watches || RemovedSince(removals, e.source, e.serial)
  }

  /** An arrival that was rightly sent to the settle stage. */
  predicate SettlesRightly(e: Event, arrivals: seq<Arrival>) {
    Genuine(e, arrivals) && MaySettle(e) && arrivals[e.serial].settles
  }

  predicate HeldIsTracked(s: Slots, task: Task, arrivals: seq<Arrival>, removals: seq<Removal>) {
    && SettlesRightly(task.event, arrivals) && Live(s, removals, task.event)
    && (task.key in s.pending ==> task.event.serial <= s.pending[task.key].event.serial)
  }

  predicate RoutingIsTracked(y: System, arrivals: seq<Arrival>, removals: seq<Removal>) {
    !y.routing.NoEvent? ==>
      && Genuine(y.routing.event, arrivals) && y.routing.event.serial == |arrivals| - 1
      && Live(y.slots, removals, y.routing.event)
      && (y.routing.ToSettle? ==> SettlesRightly(y.routing.event, arrivals))
      && (y.routing.Active? && Settles(y.slots, y.routing.event.source) ==> arrivals[y.routing.event.serial].settles)
  }

  /** All live events are arrivals, and those in the settle stage may settle; the one
      being routed is the newest; a held task is not newer than a pending one; and
      no watch has id zero. */
  predicate Tracked(y: System, arrivals: seq<Arrival>, removals: seq<Removal>) {
    && !y.slots.stopped && !y.worker.Ended? && 0 < y.nextId && 0 !in y.slots.watches
    && RoutingIsTracked(y, arrivals, removals)
    && (forall k | k in y.slots.pending :: SettlesRightly(y.slots.pending[k].event, arrivals))
    && (Held(y).Some? ==> HeldIsTracked(y.slots, Held(y).value, arrivals, removals))
  }

  /** While overflowed the front is the marker. */
  predicate MarkerInFront(q: Q.Queue) {
    q.overflowed ==>
      && q.events != [] && q.events[0].kind == Overflow && q.events[0].rescan
      && q.events[0].diagnostics == [Diagnostic(QueueOverflow, DroppedEvents(q.dropCount))]
  }

  predicate ArrivalsAreSound(p: Pipe) {
    && (forall i | 0 <= i < |p.arrivals| :: p.arrivals[i].event.serial == i && p.arrivals[i].flushesBefore <= |p.flushes|)
    && (forall i, j | 0 <= i < j < |p.arrivals| :: p.arrivals[i].flushesBefore <= p.arrivals[j].flushesBefore)
  }

  predicate AllCovered(p: Pipe) {
    forall i | 0 <= i < |p.arrivals| :: Covered(p, i) || IsRemoved(p, i)
  }

  predicate Safe(p: Pipe) {
    && Invariant(p.system) && Tracked(p.system, p.arrivals, p.removals)
    && MarkerInFront(p.queue) && ArrivalsAreSound(p) && AllCovered(p)
  }

  // ----- the queue

  lemma PushKeepsMarker(q: Q.Queue, e: Event)
    requires MarkerInFront(q)
    ensures MarkerInFront(Q.Push(q, e))
  {
  }

  lemma PushBears(q: Q.Queue, e: Event, arrivals: seq<Arrival>, i: nat)
    requires MarkerInFront(q) && (InQueue(q, arrivals, i) || Bears(e, arrivals, i))
    ensures InQueue(Q.Push(q, e), arrivals, i)
  {
    hide Carries;
    var r := Q.Push(q, e);
    if q.overflowed || |q.events| >= Q.MaxDepth {
      PushKeepsMarker(q, e);
      assert Bears(r.events[0], arrivals, i);
    } else if Bears(e, arrivals, i) {
      assert Bears(r.events[|q.events|], arrivals, i);
    } else {
      var x :| 0 <= x < |q.events| && Bears(q.events[x], arrivals, i);
      assert Bears(r.events[x], arrivals, i);
    }
  }

  lemma PopBears(q: Q.Queue, arrivals: seq<Arrival>, i: nat)
    requires MarkerInFront(q) && q.events != []
    ensures MarkerInFront(Q.AfterPop(q))
    ensures InQueue(q, arrivals, i) ==> Bears(q.events[0], arrivals, i) || InQueue(Q.AfterPop(q), arrivals, i)
  {
    hide Bears;
    if q.overflowed {
      assert q.events[0].diagnostics[0].code == QueueOverflow;
    }
    if InQueue(q, arrivals, i) && !Bears(q.events[0], arrivals, i) {
      var x :| 0 <= x < |q.events| && Bears(q.events[x], arrivals, i);
      assert Q.AfterPop(q).events[x - 1] == q.events[x];
    }
  }

  lemma IngestBears(a: Adapter, e: Event, arrivals: seq<Arrival>, i: nat)
    requires InAdapter(a, arrivals, i) || Bears(e, arrivals, i)
    ensures InAdapter(Ingest(a, e), arrivals, i)
  {
    hide StandsFor, FileName;
    var next := Ingest(a, e);
    if !next.fullRescan {
      if InAdapter(a, arrivals, i) {
        var j :| i <= j < |arrivals| && StandsFor(arrivals, j, i) && Names(arrivals[j].event, a.pending.Keys);
        assert Names(arrivals[j].event, next.pending.Keys);
      } else {
        CarriesIsNamed(e, arrivals, i, next.pending.Keys);
      }
    }
  }

  lemma CarriesIsNamed(e: Event, arrivals: seq<Arrival>, i: nat, paths: set<string>)
    requires Carries(e, arrivals, i) && Names(e, paths)
    ensures i <= e.serial < |arrivals| && StandsFor(arrivals, e.serial, i) && Names(arrivals[e.serial].event, paths)
  {
    hide FileName;
  }

  // ----- the settle stage

  lemma RemovedEarlier(removals: seq<Removal>, id: nat, n: nat, i: nat)
    requires RemovedSince(removals, id, n) && i <= n
    ensures RemovedSince(removals, id, i)
  {
  }

  /** A held task that is no longer current left its place to a pending one, or its
      watch was removed. */
  lemma SupersededByPending(s: Slots, task: Task, arrivals: seq<Arrival>, removals: seq<Removal>, i: nat)
    requires Agree(s, Some(task)) && HeldIsTracked(s, task, arrivals, removals) && !IsCurrent(s, task.key, task.generation)
    requires forall k | k in s.pending :: SettlesRightly(s.pending[k].event, arrivals)
    requires i < |arrivals| && Carries(task.event, arrivals, i)
    ensures
      var k := KeyOf(arrivals[i].event);
      (k in s.pending && Carries(s.pending[k].event, arrivals, i)) || RemovedSince(removals, arrivals[i].event.source, i)
  {
    hide SettleKey, RemovedSince;
    assert task.key == KeyOf(arrivals[i].event);
    if task.key in s.generations {
      var later := s.pending[task.key];
      assert Owned(s, later);
      KeyIsInjective(later.event.source, later.event.path, task.event.source, task.event.path);
    } else {
      RemovedEarlier(removals, task.event.source, task.event.serial, i);
    }
  }

  lemma AdmitCovers(y: System, arrivals: seq<Arrival>, removals: seq<Removal>, now: int, i: nat)
    requires Invariant(y) && Tracked(y, arrivals, removals) && y.routing.ToSettle?
    requires i < |arrivals| && InSettle(y, arrivals, i)
    ensures var (next, out) := Act(y, Admit(now));
            || InSettle(next, arrivals, i) || (out.Some? && Bears(out.value, arrivals, i))
            || RemovedSince(removals, arrivals[i].event.source, i)
  {
    hide SettleKey, Agree, IsOverCapacity, RemovedSince;
    var e := y.routing.event;
    if Carries(e, arrivals, i) && e.source !in y.slots.watches {
      RemovedEarlier(removals, e.source, e.serial, i);
    } else if KeyOf(arrivals[i].event) == KeyOf(e) {
      KeyIsInjective(arrivals[i].event.source, arrivals[i].event.path, e.source, e.path);
    }
  }

  lemma TakeCovers(y: System, arrivals: seq<Arrival>, first: Deadline, now: int, i: nat)
    requires Invariant(y) && !y.slots.stopped && i < |arrivals| && InSettle(y, arrivals, i)
    ensures InSettle(Act(y, TakeNext(first, now)).0, arrivals, i)
  {
    hide SettleKey, Agree, Carries, IsFirstDeadline;
    if y.worker.Idle? && y.slots.pending != map[] && IsFirstDeadline(y.slots.deadlines, first) {
      IsFirst(y.slots.deadlines, first);
      NoStaleDeadline(y.slots, None, first);
    }
  }

  lemma IsFirst(ds: set<Deadline>, d: Deadline)
    requires IsFirstDeadline(ds, d)
    ensures d in ds
  {
  }

  lemma PollCovers(y: System, arrivals: seq<Arrival>, sample: Sample, i: nat)
    requires i < |arrivals| && InSettle(y, arrivals, i)
    ensures InSettle(Act(y, PollFile(sample)).0, arrivals, i)
  {
    hide SettleKey, Poll;
    if y.worker.Polling? && Settles(y.slots, y.worker.task.event.source) {
      PollKeepsIdentity(y.worker.task, y.slots.watches[y.worker.task.event.source].value, sample);
    }
  }

  lemma FinishCovers(y: System, arrivals: seq<Arrival>, removals: seq<Removal>, i: nat)
    requires Invariant(y) && Tracked(y, arrivals, removals) && i < |arrivals| && InSettle(y, arrivals, i)
    ensures InSettle(Act(y, Finish).0, arrivals, i) || RemovedSince(removals, arrivals[i].event.source, i)
  {
    hide SettleKey, Agree, RemovedSince;
    if y.worker.Polled? {
      var task := y.worker.task;
      HeldKey(y.slots, task);
      if !IsCurrent(y.slots, task.key, task.generation) {
        if Carries(task.event, arrivals, i) { SupersededByPending(y.slots, task, arrivals, removals, i); }
      } else {
        CurrentIsNotPending(y.slots, task);
        if Carries(task.event, arrivals, i) { assert KeyOf(arrivals[i].event) == task.key; }
      }
    }
  }

  lemma HeldKey(s: Slots, task: Task)
    requires Agree(s, Some(task))
    ensures task.key == KeyOf(task.event)
  {
  }

  lemma CurrentIsNotPending(s: Slots, task: Task)
    requires Agree(s, Some(task)) && IsCurrent(s, task.key, task.generation)
    ensures task.key !in s.pending
  {
  }

  lemma CheckCovers(y: System, arrivals: seq<Arrival>, removals: seq<Removal>, i: nat)
    requires Invariant(y) && Tracked(y, arrivals, removals) && i < |arrivals| && InSettle(y, arrivals, i)
    ensures InSettle(Act(y, CheckCurrent).0, arrivals, i) || RemovedSince(removals, arrivals[i].event.source, i)
  {
    hide SettleKey, Agree, RemovedSince;
    if y.worker.Holding? && !IsCurrent(y.slots, y.worker.task.key, y.worker.task.generation) && Carries(y.worker.task.event, arrivals, i) {
      SupersededByPending(y.slots, y.worker.task, arrivals, removals, i);
    }
  }

  /** Removing a watch cancels only its own pending events. */
  lemma DropCovers(y: System, arrivals: seq<Arrival>, removals: seq<Removal>, id: nat, i: nat)
    requires Invariant(y) && !y.slots.stopped && i < |arrivals| && InSettle(y, arrivals, i)
    ensures InSettle(Act(y, DropWatch(id, true)).0, arrivals, i)
            || RemovedSince(WithRemoval(removals, DropWatch(id, true), |arrivals|), arrivals[i].event.source, i)
  {
    hide SettleKey, Agree, Prefix, Carries;
    var e, after := arrivals[i].event, WithRemoval(removals, DropWatch(id, true), |arrivals|);
    PrefixSelects(id, e.source, e.path);
    if e.source == id { assert after[|removals|].id == id; }
  }

  /** No step of the settle stage forgets an event: it stays there, or what is handed
      to the queue bears it, or its watch is removed. */
  lemma WorkCovers(y: System, arrivals: seq<Arrival>, removals: seq<Removal>, a: Action, i: nat)
    requires Invariant(y) && Tracked(y, arrivals, removals) && !a.Stop?
    requires i < |arrivals| && InSettle(y, arrivals, i)
    ensures var (next, out) := Act(y, a);
            || InSettle(next, arrivals, i) || (out.Some? && Bears(out.value, arrivals, i))
            || RemovedSince(WithRemoval(removals, a, |arrivals|), arrivals[i].event.source, i)
  {
    hide SettleKey, Agree, IsOverCapacity, Poll, IsFirstDeadline, DemandsRescan, RemovedSince, Carries;
    match a {
      case Admit(now) => if y.routing.ToSettle? { AdmitCovers(y, arrivals, removals, now, i); }
      case TakeNext(first, now) => TakeCovers(y, arrivals, first, now, i);
      case PollFile(sample) => PollCovers(y, arrivals, sample, i);
      case Finish => FinishCovers(y, arrivals, removals, i);
      case CheckCurrent => CheckCovers(y, arrivals, removals, i);
      case DropWatch(id, known) => if known { DropCovers(y, arrivals, removals, id, i); }
      case _ =>
    }
  }

  lemma AdmitTracks(y: System, arrivals: seq<Arrival>, removals: seq<Removal>, now: int)
    requires Tracked(y, arrivals, removals)
    ensures Tracked(Act(y, Admit(now)).0, arrivals, removals)
  {
    hide SettleKey, IsOverCapacity, RemovedSince;
  }

  lemma TakeTracks(y: System, arrivals: seq<Arrival>, removals: seq<Removal>, first: Deadline, now: int)
    requires Invariant(y) && Tracked(y, arrivals, removals)
    ensures Tracked(Act(y, TakeNext(first, now)).0, arrivals, removals)
  {
    hide SettleKey, Agree, IsFirstDeadline, Genuine, RemovedSince;
    if y.worker.Idle? && y.slots.pending != map[] && IsFirstDeadline(y.slots.deadlines, first) {
      IsFirst(y.slots.deadlines, first);
      NoStaleDeadline(y.slots, None, first);
      PendingIsOwned(y.slots, None, first.key);
      PendingKey(y.slots, None, first.key);
    }
  }

  lemma PendingKey(s: Slots, held: Option<Task>, k: string)
    requires Agree(s, held) && k in s.pending
    ensures s.pending[k].key == k
  {
  }

  lemma PollTracks(y: System, arrivals: seq<Arrival>, removals: seq<Removal>, sample: Sample)
    requires Tracked(y, arrivals, removals)
    ensures Tracked(Act(y, PollFile(sample)).0, arrivals, removals)
  {
    hide SettleKey, Poll, RemovedSince;
    if y.worker.Polling? && Settles(y.slots, y.worker.task.event.source) {
      PollKeepsIdentity(y.worker.task, y.slots.watches[y.worker.task.event.source].value, sample);
    }
  }

  lemma RemovalsGrow(removals: seq<Removal>, a: Action, n: nat, id: nat, i: nat)
    ensures RemovedSince(removals, id, i) ==> RemovedSince(WithRemoval(removals, a, n), id, i)
    ensures a.DropWatch? && a.known && a.id == id && i < n ==> RemovedSince(WithRemoval(removals, a, n), id, i)
  {
    var after := WithRemoval(removals, a, n);
    if RemovedSince(removals, id, i) {
      var r :| 0 <= r < |removals| && removals[r].id == id && removals[r].arrivalsBefore > i;
      assert after[r] == removals[r];
    }
    if a.DropWatch? && a.known && a.id == id && i < n { assert after[|removals|].id == id; }
  }

  lemma DropTracks(y: System, arrivals: seq<Arrival>, removals: seq<Removal>, id: nat)
    requires Tracked(y, arrivals, removals)
    ensures Tracked(Act(y, DropWatch(id, true)).0, arrivals, WithRemoval(removals, DropWatch(id, true), |arrivals|))
  {
    hide SettleKey, RemovedSince, Prefix, WithRemoval;
    var a := DropWatch(id, true);
    if !y.routing.NoEvent? { RemovalsGrow(removals, a, |arrivals|, y.routing.event.source, y.routing.event.serial); }
    if Held(y).Some? { RemovalsGrow(removals, a, |arrivals|, Held(y).value.event.source, Held(y).value.event.serial); }
  }

  lemma WorkTracks(y: System, arrivals: seq<Arrival>, removals: seq<Removal>, a: Action)
    requires Invariant(y) && Tracked(y, arrivals, removals) && !a.Stop? && !a.Receive?
    ensures Tracked(Act(y, a).0, arrivals, WithRemoval(removals, a, |arrivals|))
  {
    hide SettleKey, Agree, IsOverCapacity, Poll, IsFirstDeadline, RemovedSince;
    match a {
      case Admit(now) => AdmitTracks(y, arrivals, removals, now);
      case TakeNext(first, now) => TakeTracks(y, arrivals, removals, first, now);
      case PollFile(sample) => PollTracks(y, arrivals, removals, sample);
      case DropWatch(id, known) => if known { DropTracks(y, arrivals, removals, id); }
      case _ =>
    }
  }

  // ----- the moves

  lemma AnsweredGrows(flushes: seq<Flushing>, arrivals: seq<Arrival>, x: Arrival, i: nat)
    requires i < |arrivals| && Answered(flushes, arrivals, i)
    ensures Answered(flushes, arrivals + [x], i)
  {
    hide Names;
    var b :| arrivals[i].flushesBefore <= b < |flushes| && Decides(flushes[b], b, arrivals, i);
    if !flushes[b].rescan {
      var j :| i <= j < |arrivals| && StandsFor(arrivals, j, i) && arrivals[j].flushesBefore <= b && Names(arrivals[j].event, flushes[b].decided);
      assert StandsFor(arrivals + [x], j, i) && (arrivals + [x])[j] == arrivals[j];
    }
    assert Decides(flushes[b], b, arrivals + [x], i);
  }

  lemma AdapterGrows(a: Adapter, arrivals: seq<Arrival>, x: Arrival, i: nat)
    requires i < |arrivals| && InAdapter(a, arrivals, i)
    ensures InAdapter(a, arrivals + [x], i)
  {
    hide Names;
    if !a.fullRescan {
      var j :| i <= j < |arrivals| && StandsFor(arrivals, j, i) && Names(arrivals[j].event, a.pending.Keys);
      assert StandsFor(arrivals + [x], j, i) && (arrivals + [x])[j] == arrivals[j];
    }
  }

  lemma QueueGrows(q: Q.Queue, arrivals: seq<Arrival>, x: Arrival, i: nat)
    requires i < |arrivals| && InQueue(q, arrivals, i)
    ensures InQueue(q, arrivals + [x], i)
  {
    hide DemandsRescan;
    var k :| 0 <= k < |q.events| && Bears(q.events[k], arrivals, i);
    assert Bears(q.events[k], arrivals + [x], i);
  }

  lemma SettleGrows(y: System, arrivals: seq<Arrival>, x: Arrival, i: nat)
    requires i < |arrivals| && InSettle(y, arrivals, i)
    ensures InSettle(y, arrivals + [x], i)
  {
    hide KeyOf;
  }

  /** One more arrival uncovers nothing. */
  lemma CoverageGrows(p: Pipe, x: Arrival, i: nat)
    requires i < |p.arrivals| && Covered(p, i)
    ensures Covered(p.(arrivals := p.arrivals + [x]), i)
  {
    hide InSettle, InQueue, InAdapter, Answered, DemandsRescan;
    if InSettle(p.system, p.arrivals, i) { SettleGrows(p.system, p.arrivals, x, i); }
    if InQueue(p.queue, p.arrivals, i) { QueueGrows(p.queue, p.arrivals, x, i); }
    if InAdapter(p.adapter, p.arrivals, i) { AdapterGrows(p.adapter, p.arrivals, x, i); }
    if Answered(p.flushes, p.arrivals, i) { AnsweredGrows(p.flushes, p.arrivals, x, i); }
  }

  lemma ReceiveTracks(y: System, arrivals: seq<Arrival>, removals: seq<Removal>, x: Arrival)
    requires Tracked(y, arrivals, removals) && x.event.serial == |arrivals| && x.settles == Settles(y.slots, x.event.source) && Act(y, Receive(x.event)).0 != y
    ensures Tracked(Act(y, Receive(x.event)).0, arrivals + [x], removals)
  {
    hide RemovedSince, KeyOf;
  }

  lemma ReceiveIsSafe(p: Pipe, e: Event)
    requires Safe(p) && e.serial == |p.arrivals|
    ensures Safe(AfterWork(p, Receive(e)))
  {
    hide KeyOf, Agree, InQueue, InAdapter, Answered, Bears, Tracked, Covered;
    var next := AfterWork(p, Receive(e));
    ActKeepsInvariant(p.system, Receive(e));
    if next.system != p.system {
      var x := ArrivalOf(p, e);
      ReceiveTracks(p.system, p.arrivals, p.removals, x);
      forall i | 0 <= i < |next.arrivals| ensures Covered(next, i) || IsRemoved(next, i) {
        if i < |p.arrivals| {
          if Covered(p, i) {
            CoverageGrows(p, x, i);
            SameElsewhere(p.(arrivals := next.arrivals), next, i);
          }
        } else {
          NewestIsRouted(next);
        }
      }
    }
  }

  /** Receiving an event changes only the routing, which was empty. */
  lemma SameElsewhere(p: Pipe, next: Pipe, i: nat)
    requires i < |p.arrivals| && Covered(p, i) && p.system.routing.NoEvent?
    requires next == p.(system := p.system.(routing := next.system.routing))
    ensures Covered(next, i)
  {
    hide InQueue, InAdapter, Answered, Bears, Carries, KeyOf;
  }

  lemma NewestIsRouted(p: Pipe)
    requires p.arrivals != [] && p.system.routing.Active? && p.system.routing.event == p.arrivals[|p.arrivals| - 1].event
    requires p.system.routing.event.serial == |p.arrivals| - 1
    ensures Covered(p, |p.arrivals| - 1)
  {
    hide InQueue, InAdapter, Answered, Bears, KeyOf;
  }

  lemma WorkIsSafe(p: Pipe, a: Action)
    requires Safe(p) && !a.Stop? && !a.Receive?
    ensures Safe(AfterWork(p, a))
  {
    hide SettleKey, InQueue, InAdapter, Answered, Bears, InSettle, Tracked, Invariant, MarkerInFront, Act, Q.Push, RemovedSince, WithRemoval;
    var next, out := AfterWork(p, a), Act(p.system, a).1;
    ActKeepsInvariant(p.system, a);
    WorkTracks(p.system, p.arrivals, p.removals, a);
    if out.Some? { PushKeepsMarker(p.queue, out.value); }
    forall i | 0 <= i < |next.arrivals| ensures Covered(next, i) || IsRemoved(next, i) {
      assert Covered(p, i) || IsRemoved(p, i);
      RemovalsGrow(p.removals, a, |p.arrivals|, p.arrivals[i].event.source, i);
      if InSettle(p.system, p.arrivals, i) { WorkCovers(p.system, p.arrivals, p.removals, a, i); }
      if out.Some? && (InQueue(p.queue, p.arrivals, i) || Bears(out.value, p.arrivals, i)) { PushBears(p.queue, out.value, p.arrivals, i); }
    }
  }

  lemma TakeIsSafe(p: Pipe)
    requires Safe(p)
    ensures Safe(Step(p, Take))
  {
    hide InQueue, InAdapter, Answered, Bears, InSettle, Tracked, Invariant, MarkerInFront, Q.AfterPop, RemovedSince;
    var next := Step(p, Take);
    if p.hand.None? && p.queue.events != [] {
      forall i | 0 <= i < |next.arrivals| ensures Covered(next, i) || IsRemoved(next, i) {
        assert Covered(p, i) || IsRemoved(p, i);
        PopBears(p.queue, p.arrivals, i);
      }
      PopBears(p.queue, p.arrivals, 0);
    }
  }

  lemma IngestIsSafe(p: Pipe)
    requires Safe(p)
    ensures Safe(Step(p, IngestTaken))
  {
    hide InQueue, InAdapter, Answered, Bears, InSettle, Tracked, Invariant, MarkerInFront, Ingest, RemovedSince;
    var next := Step(p, IngestTaken);
    forall i | 0 <= i < |next.arrivals| ensures Covered(next, i) || IsRemoved(next, i) {
      assert Covered(p, i) || IsRemoved(p, i);
      if p.hand.Some? && (InAdapter(p.adapter, p.arrivals, i) || Bears(p.hand.value, p.arrivals, i)) {
        IngestBears(p.adapter, p.hand.value, p.arrivals, i);
      }
    }
  }

  lemma FlushAnswers(p: Pipe, i: nat)
    requires ArrivalsAreSound(p) && i < |p.arrivals|
    requires InAdapter(p.adapter, p.arrivals, i) || Answered(p.flushes, p.arrivals, i)
    ensures Answered(Step(p, Flush).flushes, p.arrivals, i)
  {
    hide Names, StandsFor;
    var now := Step(p, Flush).flushes;
    if InAdapter(p.adapter, p.arrivals, i) {
      assert Decides(now[|p.flushes|], |p.flushes|, p.arrivals, i);
    } else {
      var b :| p.arrivals[i].flushesBefore <= b < |p.flushes| && Decides(p.flushes[b], b, p.arrivals, i);
      assert now[b] == p.flushes[b];
    }
  }

  lemma FlushIsSafe(p: Pipe)
    requires Safe(p)
    ensures Safe(Step(p, Flush))
  {
    hide InQueue, InAdapter, Answered, Bears, InSettle, Tracked, Invariant, MarkerInFront, RemovedSince;
    var next := Step(p, Flush);
    forall i | 0 <= i < |next.arrivals| ensures Covered(next, i) || IsRemoved(next, i) {
      assert Covered(p, i) || IsRemoved(p, i);
      if InAdapter(p.adapter, p.arrivals, i) || Answered(p.flushes, p.arrivals, i) { FlushAnswers(p, i); }
    }
  }

  lemma StepIsSafe(p: Pipe, m: Move)
    requires Safe(p)
    ensures Safe(Step(p, m))
  {
    hide Safe, AfterWork;
    match m {
      case Work(a) =>
        if a.Receive? {
          SoundArrivals(p);
          ReceiveIsSafe(p, a.event.(serial := |p.arrivals|));
        } else if !a.Stop? {
          WorkIsSafe(p, a);
        }
      case Take => TakeIsSafe(p);
      case IngestTaken => IngestIsSafe(p);
      case Flush => FlushIsSafe(p);
    }
  }

  lemma SoundArrivals(p: Pipe)
    requires Safe(p)
    ensures ArrivalsAreSound(p)
  {
    hide AllCovered, Invariant, Tracked;
  }

  /** Pipeline safety: in every reachable state every accepted event is covered, or
      its watch was removed after it was accepted. */
  lemma {:induction false} EveryRunIsSafe(moves: seq<Move>, limit: nat)
    ensures Safe(RunMoves(moves, limit))
  {
    hide Safe, Step;
    if moves == [] {
      StartIsSafe(limit);
    } else {
      EveryRunIsSafe(moves[..|moves| - 1], limit);
      StepIsSafe(RunMoves(moves[..|moves| - 1], limit), moves[|moves| - 1]);
    }
  }

  lemma StartIsSafe(limit: nat)
    ensures Safe(Start(limit))
  {
  }

  predicate Drained(p: Pipe) {
    && p.system.routing.NoEvent? && p.system.worker.Idle? && p.system.slots.pending == map[]
    && p.queue.events == [] && p.hand.None? && p.adapter.pending == map[] && !p.adapter.fullRescan
  }

  /** Once the pipeline is drained, for each accepted event a flush after its arrival
      demanded a full rescan or decided the path of the event, or of a later one that
      took its place in the settle stage; or its watch was removed. */
  lemma DrainedMeansAnswered(moves: seq<Move>, limit: nat, i: nat)
    requires var p := RunMoves(moves, limit); Drained(p) && i < |p.arrivals|
    ensures var p := RunMoves(moves, limit); Answered(p.flushes, p.arrivals, i) || IsRemoved(p, i)
  {
    hide RunMoves, Invariant, Tracked, ArrivalsAreSound, Answered, RemovedSince, Covered;
    EveryRunIsSafe(moves, limit);
    var p := RunMoves(moves, limit);
    assert Covered(p, i) || IsRemoved(p, i);
    if Covered(p, i) { NothingIsPending(p, i); }
  }

  lemma NothingIsPending(p: Pipe, i: nat)
    requires Drained(p) && i < |p.arrivals| && Covered(p, i)
    ensures Answered(p.flushes, p.arrivals, i)
  {
    hide Answered, KeyOf;
  }

  /** No event with source zero is ever accepted, so the kernel's overflow event,
      which has no source, never reaches the client. */
  lemma SourceZeroIsDropped(moves: seq<Move>, limit: nat, e: Event)
    requires e.source == 0
    ensures Step(RunMoves(moves, limit), Work(Receive(e))) == RunMoves(moves, limit)
  {
    hide RunMoves, Invariant, AllCovered, ArrivalsAreSound, MarkerInFront;
    EveryRunIsSafe(moves, limit);
  }
}
