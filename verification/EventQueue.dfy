/** The bounded event queue: the pull queue and the callback queue have the same
    code, and this module models both. */
module EventQueue {
  import opened Prelude
  import opened WatchEvents

  const MaxDepth := 512

  datatype Queue = Queue(events: seq<Event>, overflowed: bool, dropCount: nat)

  const EmptyQueue := Queue([], false, 0)

  /** The marker that replaces the evicted front; it copies the event that did
      not fit, and replaces its kind, state, rescan hint and diagnostics. */
  function OverflowMarker(trigger: Event, dropped: nat): Event {
    trigger.(kind := Overflow, state := Degraded, rescan := true,
             diagnostics := [Diagnostic(QueueOverflow, DroppedEvents(dropped))])
  }

  predicate IsQueueOverflow(e: Event) {
    e.kind == Overflow && exists i | 0 <= i < |e.diagnostics| :: e.diagnostics[i].code == QueueOverflow
  }

  function WithDropCount(ds: seq<Diagnostic>, count: nat): seq<Diagnostic> {
    if ds == [] then []
    else if ds[0].code == QueueOverflow then [Diagnostic(QueueOverflow, DroppedEvents(count))] + ds[1..]
    else [ds[0]] + WithDropCount(ds[1..], count)
  }

  function Refreshed(events: seq<Event>, count: nat): seq<Event> {
    if events == [] || events[0].kind != Overflow then events
    else events[0 := events[0].(diagnostics := WithDropCount(events[0].diagnostics, count))]
  }

  function Push(q: Queue, e: Event): Queue {
    if q.overflowed then
      Queue(Refreshed(q.events, q.dropCount + 1), true, q.dropCount + 1)
    else if |q.events| >= MaxDepth then
      Queue([OverflowMarker(e, 1)] + q.events[1..], true, 1)
    else q.(events := q.events + [e])
  }

  /** The next push starts an overflow episode. */
  predicate Overflows(q: Queue) {
    !q.overflowed && |q.events| >= MaxDepth
  }

  lemma OverflowsExactly(q: Queue)
    ensures Overflows(q) <==> !q.overflowed && |q.events| >= 512
  {
  }

  function AfterPop(q: Queue): Queue
    requires q.events != []
  {
    if IsQueueOverflow(q.events[0]) then Queue(q.events[1..], false, 0) else q.(events := q.events[1..])
  }

  // ----- whole runs

  datatype Op = Enqueue(event: Event) | Dequeue

  /** What a position of the delivered stream stands for: an input that was kept,
      or a marker that stands for all inputs of one overflow episode. */
  datatype Item = Kept(index: nat) | Gap(lost: seq<nat>)

  /** A queue with its past: the inputs, what was popped, and the items that the
      popped events (`history`) and the queued events (`tags`) stand for. */
  datatype Run = Run(queue: Queue, inputs: seq<Event>, outputs: seq<Event>, history: seq<Item>, tags: seq<Item>)

  const Start := Run(EmptyQueue, [], [], [], [])

  function Tagged(r: Run): seq<Item> {
    var n := |r.inputs|;
    if r.tags == [] then [Kept(n)]
    else if r.queue.overflowed && r.tags[0].Gap? then [Gap(r.tags[0].lost + [n])] + r.tags[1..]
    else if !r.queue.overflowed && |r.queue.events| >= MaxDepth && r.tags[0].Kept? then
      [Gap([r.tags[0].index, n])] + r.tags[1..]
    else r.tags + [Kept(n)]
  }

  function Step(r: Run, op: Op): Run {
    match op
    case Enqueue(e) => Run(Push(r.queue, e), r.inputs + [e], r.outputs, r.history, Tagged(r))
    case Dequeue =>
      if r.queue.events == [] || r.tags == [] then r
      else Run(AfterPop(r.queue), r.inputs, r.outputs + [r.queue.events[0]], r.history + [r.tags[0]], r.tags[1..])
  }

  function Trace(r: Run): seq<Item> {
    r.history + r.tags
  }

  function InputsOf(item: Item): seq<nat> {
    match item case Kept(i) => [i] case Gap(lost) => lost
  }

  function Ids(items: seq<Item>): seq<nat> {
    if items == [] then [] else InputsOf(items[0]) + Ids(items[1..])
  }

  function Indices(n: nat): multiset<nat> {
    if n == 0 then multiset{} else Indices(n - 1)[n - 1 := Indices(n - 1)[n - 1] + 1]
  }

  /** The event at a position is the kept input, or a degraded overflow marker
      that reports one less than the number of inputs it stands for. */
  predicate Shows(e: Event, item: Item, inputs: seq<Event>) {
    match item
    case Kept(i) => i < |inputs| && e == inputs[i]
    case Gap(lost) =>
      && |lost| >= 2
      && e.kind == Overflow && e.state == Degraded && e.rescan
      && e.diagnostics == [Diagnostic(QueueOverflow, DroppedEvents(|lost| - 1))]
  }

  /** Kept inputs come out in input order, and an input is lost only to a marker
      that precedes every kept input that arrived after it. */
  predicate Ordered(trace: seq<Item>) {
    && (forall p, q | 0 <= p < q < |trace| && trace[p].Kept? && trace[q].Kept? :: trace[p].index < trace[q].index)
    && (forall p, q, k | 0 <= p < q < |trace| && trace[p].Kept? && trace[q].Gap? && 0 <= k < |trace[q].lost| ::
          trace[p].index < trace[q].lost[k])
  }

  /** The queue holds at most 512 events; every queued or popped event shows its
      item; while overflowed the front, and only it, is a marker, and it carries
      the current count. */
  predicate Consistent(r: Run) {
    && |r.queue.events| <= MaxDepth
    && |r.tags| == |r.queue.events| && |r.history| == |r.outputs|
    && (forall k | 0 <= k < |r.tags| :: Shows(r.queue.events[k], r.tags[k], r.inputs))
    && (forall k | 0 <= k < |r.history| :: Shows(r.outputs[k], r.history[k], r.inputs))
    && (r.queue.overflowed <==> r.tags != [] && r.tags[0].Gap?)
    && (forall k | 0 < k < |r.tags| :: r.tags[k].Kept?)
    && r.queue.dropCount == (if r.queue.overflowed then |r.tags[0].lost| - 1 else 0)
  }

  /** The queue is a lossy FIFO with explicit gaps. */
  predicate LossyFifo(r: Run) {
    && Consistent(r)
    && Ordered(Trace(r))
    && multiset(Ids(Trace(r))) == Indices(|r.inputs|)
  }

  lemma Associative(a: seq<nat>, b: seq<nat>, c: seq<nat>)
    ensures a + b + c == a + (b + c)
  {
  }

  lemma {:induction false} IdsAppend(a: seq<Item>, b: seq<Item>)
    ensures Ids(a + b) == Ids(a) + Ids(b)
  {
    hide InputsOf;
    if a == [] {
      assert a + b == b;
    } else {
      IdsAppend(a[1..], b);
      assert (a + b)[1..] == a[1..] + b && (a + b)[0] == a[0];
      Associative(InputsOf(a[0]), Ids(a[1..]), Ids(b));
    }
  }

  lemma {:induction false} IndicesBelow(n: nat, i: nat)
    ensures Indices(n)[i] == if i < n then 1 else 0
  {
    if n > 0 { IndicesBelow(n - 1, i); }
  }

  lemma {:induction false} ItemIds(items: seq<Item>, p: nat)
    requires p < |items|
    ensures match items[p]
            case Kept(i) => i in Ids(items)
            case Gap(lost) => forall k | 0 <= k < |lost| :: lost[k] in Ids(items)
  {
    if p > 0 { ItemIds(items[1..], p - 1); }
  }

  /** All indices in the trace are below the number of inputs. */
  lemma TraceBound(r: Run, p: nat)
    requires LossyFifo(r) && p < |Trace(r)|
    ensures match Trace(r)[p]
            case Kept(i) => i < |r.inputs|
            case Gap(lost) => forall k | 0 <= k < |lost| :: lost[k] < |r.inputs|
  {
    var trace, n := Trace(r), |r.inputs|;
    ItemIds(trace, p);
    forall i | i in Ids(trace) ensures i < n {
      IndicesBelow(n, i);
      assert multiset(Ids(trace))[i] > 0;
    }
  }

  lemma PushConsistent(r: Run, e: Event)
    requires Consistent(r)
    ensures Consistent(Step(r, Enqueue(e)))
  {
    var s := Step(r, Enqueue(e));
    if r.queue.overflowed {
      var lost := r.tags[0].lost;
      assert Shows(r.queue.events[0], r.tags[0], r.inputs);
      assert s.queue.events[0] == r.queue.events[0].(diagnostics := [Diagnostic(QueueOverflow, DroppedEvents(|lost|))]);
    }
    forall k | 0 <= k < |s.tags| ensures Shows(s.queue.events[k], s.tags[k], s.inputs) {
      if k < |r.tags| { assert Shows(r.queue.events[k], r.tags[k], r.inputs); }
    }
    forall k | 0 <= k < |s.history| ensures Shows(s.outputs[k], s.history[k], s.inputs) {
      assert Shows(r.outputs[k], r.history[k], r.inputs);
    }
  }

  lemma PushOrdered(r: Run, e: Event)
    requires LossyFifo(r)
    ensures Ordered(Trace(Step(r, Enqueue(e))))
  {
    hide LossyFifo, Consistent, Ordered;
    var n, s := |r.inputs|, Step(r, Enqueue(e));
    forall p | 0 <= p < |Trace(r)| && Trace(r)[p].Kept? ensures Trace(r)[p].index < n {
      TraceBound(r, p);
    }
    Parts(r);
    if r.queue.overflowed {
      SingleIds(r.tags[0]);
      GrownGapOrdered(r.history, r.tags, s.tags[0], n);
    } else if |r.queue.events| >= MaxDepth {
      SingleIds(r.tags[0]);
      GrownGapOrdered(r.history, r.tags, s.tags[0], n);
    } else {
      assert Trace(s) == Trace(r) + [Kept(n)];
      forall p | 0 <= p < |Trace(r)|
        ensures Trace(r)[p].Gap? ==> forall k | 0 <= k < |Trace(r)[p].lost| :: Trace(r)[p].lost[k] < n
      {
        TraceBound(r, p);
      }
      KeptAtEnd(Trace(r), n);
    }
  }

  lemma Parts(r: Run)
    requires LossyFifo(r)
    ensures Consistent(r) && Ordered(Trace(r)) && |r.tags| == |r.queue.events|
    ensures r.queue.overflowed ==> r.tags != [] && r.tags[0].Gap?
    ensures !r.queue.overflowed && r.tags != [] ==> r.tags[0].Kept?
    ensures |r.queue.events| <= 512
  {
  }

  lemma KeptAtEnd(trace: seq<Item>, n: nat)
    requires Ordered(trace) && forall p | 0 <= p < |trace| && trace[p].Kept? :: trace[p].index < n
    ensures Ordered(trace + [Kept(n)])
  {
  }

  lemma SingleIds(item: Item)
    ensures Ids([item]) == match item case Kept(i) => [i] case Gap(lost) => lost
  {
    assert [item][1..] == [];
  }

  lemma PushKeeps(r: Run, e: Event)
    requires LossyFifo(r)
    ensures LossyFifo(Step(r, Enqueue(e)))
  {
    hide Consistent, Ordered, Push, Tagged;
    PushConsistent(r, e);
    PushOrdered(r, e);
    PushedIds(r, e);
  }

  /** Replacing the front of the queue by a marker for its inputs and a new one. */
  lemma GrownGapOrdered(history: seq<Item>, tags: seq<Item>, marker: Item, n: nat)
    requires tags != [] && marker.Gap? && Ordered(history + tags)
    requires marker.lost == Ids([tags[0]]) + [n]
    requires forall p | 0 <= p < |history + tags| && (history + tags)[p].Kept? :: (history + tags)[p].index < n
    ensures Ordered(history + ([marker] + tags[1..]))
  {
    var was, now := history + tags, history + ([marker] + tags[1..]);
    var m := |history|;
    assert was[m] == tags[0] && now[m] == marker;
    SingleIds(tags[0]);
    assert forall p | 0 <= p < |now| && p != m :: now[p] == was[p];
    forall p, q, k | 0 <= p < q < |now| && now[p].Kept? && now[q].Gap? && 0 <= k < |now[q].lost|
      ensures now[p].index < now[q].lost[k]
    {
      assert now[p] == was[p] && was[p].index < n;
      if q == m {
        if k < |marker.lost| - 1 {
          match tags[0] {
            case Kept(i) => assert was[m].index == i;
            case Gap(lost) => assert was[m].lost[k] == marker.lost[k];
          }
        }
      }
    }
  }

  lemma GrownFrontIds(history: seq<Item>, front: Item, grown: Item, rest: seq<Item>, n: nat)
    requires Ids([grown]) == Ids([front]) + [n]
    ensures var before := multiset(Ids(history + ([front] + rest)));
            multiset(Ids(history + ([grown] + rest))) == before[n := before[n] + 1]
  {
    hide Ids;
    FrontIds(history, front, rest);
    FrontIds(history, grown, rest);
    AddOne(Ids([front]), n);
    AddInside(multiset(Ids(history)), multiset(Ids([front])), multiset(Ids(rest)), n);
  }

  lemma PushedIds(r: Run, e: Event)
    requires LossyFifo(r)
    ensures multiset(Ids(Trace(Step(r, Enqueue(e))))) == Indices(|r.inputs| + 1)
  {
    hide Ordered, Push, Ids, Shows, LossyFifo, Consistent;
    Parts(r);
    var n, s := |r.inputs|, Step(r, Enqueue(e));
    assert multiset(Ids(Trace(r))) == Indices(n) by { TraceIds(r); }
    if r.queue.overflowed || (|r.queue.events| >= MaxDepth && r.tags != []) {
      var rest := r.tags[1..];
      assert r.tags == [r.tags[0]] + rest && s.tags == [s.tags[0]] + rest;
      SingleIds(r.tags[0]);
      SingleIds(s.tags[0]);
      GrownFrontIds(r.history, r.tags[0], s.tags[0], rest, n);
    } else {
      assert Trace(s) == Trace(r) + [Kept(n)];
      IdsAppend(Trace(r), [Kept(n)]);
      SingleIds(Kept(n));
      AddOne(Ids(Trace(r)), n);
    }
  }

  lemma TraceIds(r: Run)
    requires LossyFifo(r)
    ensures multiset(Ids(Trace(r))) == Indices(|r.inputs|)
  {
  }

  lemma AddInside(h: multiset<nat>, f: multiset<nat>, rest: multiset<nat>, n: nat)
    ensures h + f[n := f[n] + 1] + rest == (h + f + rest)[n := (h + f + rest)[n] + 1]
  {
  }

  lemma AddOne(s: seq<nat>, n: nat)
    ensures multiset(s + [n]) == multiset(s)[n := multiset(s)[n] + 1]
  {
  }

  lemma FrontIds(history: seq<Item>, front: Item, rest: seq<Item>)
    ensures multiset(Ids(history + ([front] + rest))) == multiset(Ids(history)) + multiset(Ids([front])) + multiset(Ids(rest))
  {
    IdsAppend(history, [front] + rest);
    IdsAppend([front], rest);
  }

  lemma PopKeeps(r: Run)
    requires LossyFifo(r)
    ensures LossyFifo(Step(r, Dequeue))
  {
    if r.queue.events != [] {
      var s := Step(r, Dequeue);
      assert Trace(s) == Trace(r);
      assert Shows(r.queue.events[0], r.tags[0], r.inputs);
      if r.tags[0].Gap? {
        assert r.queue.events[0].diagnostics[0].code == QueueOverflow;
        assert IsQueueOverflow(r.queue.events[0]);
      }
    }
  }

  function RunOps(ops: seq<Op>): Run {
    if ops == [] then Start else Step(RunOps(ops[..|ops| - 1]), ops[|ops| - 1])
  }

  /** Over every run of pushes and pops the queue is a lossy FIFO with gaps. */
  lemma {:induction false} QueueIsLossyFifo(ops: seq<Op>)
    ensures LossyFifo(RunOps(ops))
  {
    if ops != [] {
      QueueIsLossyFifo(ops[..|ops| - 1]);
      match ops[|ops| - 1] {
        case Enqueue(e) => PushKeeps(RunOps(ops[..|ops| - 1]), e);
        case Dequeue => PopKeeps(RunOps(ops[..|ops| - 1]));
      }
    }
  }

  // ----- when an event is lost

  /** How many events wait in a queue that loses nothing. */
  function Waiting(ops: seq<Op>): nat {
    if ops == [] then 0
    else
      var before := Waiting(ops[..|ops| - 1]);
      if ops[|ops| - 1].Enqueue? then before + 1 else if before > 0 then before - 1 else 0
  }

  predicate NeverOverfull(ops: seq<Op>) {
    forall k | 0 <= k <= |ops| :: Waiting(ops[..k]) <= 512
  }

  predicate AllKept(items: seq<Item>) {
    forall k | 0 <= k < |items| :: items[k].Kept?
  }

  /** A gap opens exactly at a push that finds 512 events waiting and no overflow; it
      takes the place of the front and stands for the front and the new event. A push
      that finds fewer keeps all events, and a push during an overflow keeps none more. */
  lemma GapOpensExactly(r: Run, e: Event)
    requires LossyFifo(r)
    ensures var s := Step(r, Enqueue(e));
            && (!r.queue.overflowed && s.queue.overflowed <==> !r.queue.overflowed && |r.queue.events| == 512)
            && (!r.queue.overflowed && |r.queue.events| < 512 ==>
                  s.queue.events == r.queue.events + [e] && s.tags == r.tags + [Kept(|r.inputs|)])
            && (!r.queue.overflowed && |r.queue.events| == 512 ==>
                  s.queue.events[1..] == r.queue.events[1..] && s.tags == [Gap([r.tags[0].index, |r.inputs|])] + r.tags[1..])
            && (r.queue.overflowed ==>
                  s.queue.events[1..] == r.queue.events[1..] && s.tags == [Gap(r.tags[0].lost + [|r.inputs|])] + r.tags[1..])
  {
  }

  lemma FrontMoves<T>(a: seq<T>, b: seq<T>)
    requires b != []
    ensures a + [b[0]] + b[1..] == a + b
  {
  }

  lemma GapsStay(r: Run, op: Op)
    requires LossyFifo(r) && !AllKept(Trace(r))
    ensures !AllKept(Trace(Step(r, op)))
  {
    Parts(r);
    var p :| 0 <= p < |Trace(r)| && !Trace(r)[p].Kept?;
    match op {
      case Dequeue =>
        hide LossyFifo, Consistent, Ordered, IsQueueOverflow, AllKept;
        if r.queue.events != [] { FrontMoves(r.history, r.tags); }
      case Enqueue(e) =>
        GapOpensExactly(r, e);
        hide LossyFifo, Consistent, Ordered, Push, Tagged;
        assert !Trace(Step(r, op))[p].Kept?;
    }
  }

  lemma PrefixesOfMore(ops: seq<Op>)
    requires ops != []
    ensures NeverOverfull(ops) <==> NeverOverfull(ops[..|ops| - 1]) && Waiting(ops) <= 512
  {
    var before := ops[..|ops| - 1];
    assert ops[..|ops|] == ops;
    assert forall k | 0 <= k <= |before| :: before[..k] == ops[..k];
  }

  /** Nothing is lost exactly if never more than 512 events wait; and then the queue is
      a FIFO: what came out and what waits is what came in. */
  lemma {:induction false} NoLossExactly(ops: seq<Op>)
    ensures AllKept(Trace(RunOps(ops))) <==> NeverOverfull(ops)
    ensures NeverOverfull(ops) ==>
              var r := RunOps(ops); !r.queue.overflowed && |r.queue.events| == Waiting(ops) && r.outputs + r.queue.events == r.inputs
  {
    hide LossyFifo, NeverOverfull;
    if ops == [] {
      NothingWaits();
    } else {
      var before := ops[..|ops| - 1];
      var r, op := RunOps(before), ops[|ops| - 1];
      NoLossExactly(before);
      QueueIsLossyFifo(before);
      PrefixesOfMore(ops);
      if NeverOverfull(before) {
        if op.Enqueue? { PushLosesExactly(r, op.event); } else { PopLosesNothing(r); }
      } else {
        GapsStay(r, op);
      }
    }
  }

  lemma NothingWaits()
    ensures NeverOverfull([]) && AllKept(Trace(RunOps([])))
  {
    var none: seq<Op> := [];
    assert forall k | 0 <= k <= 0 :: none[..k] == [];
  }

  predicate IsFifo(r: Run, waiting: nat) {
    !r.queue.overflowed && |r.queue.events| == waiting && r.outputs + r.queue.events == r.inputs
  }

  lemma PushLosesExactly(r: Run, e: Event)
    requires LossyFifo(r) && AllKept(Trace(r)) && IsFifo(r, |r.queue.events|)
    ensures var s := Step(r, Enqueue(e));
            && (AllKept(Trace(s)) <==> |r.queue.events| + 1 <= 512)
            && (|r.queue.events| + 1 <= 512 ==> IsFifo(s, |r.queue.events| + 1))
  {
    var s := Step(r, Enqueue(e));
    GapOpensExactly(r, e);
    Parts(r);
    hide LossyFifo, Consistent, Push, Tagged;
    if |r.queue.events| < 512 {
      assert Trace(s) == Trace(r) + [Kept(|r.inputs|)];
      assert s.outputs + (r.queue.events + [e]) == r.outputs + r.queue.events + [e];
    } else {
      assert !Trace(s)[|r.history|].Kept?;
    }
  }

  lemma PopLosesNothing(r: Run)
    requires LossyFifo(r) && AllKept(Trace(r)) && IsFifo(r, |r.queue.events|)
    ensures var s := Step(r, Dequeue);
            AllKept(Trace(s)) && IsFifo(s, if r.queue.events == [] then 0 else |r.queue.events| - 1) && |r.queue.events| <= 512
  {
    Parts(r);
    hide LossyFifo, Consistent, Ordered, IsQueueOverflow, AllKept;
    if r.queue.events != [] {
      FrontMoves(r.history, r.tags);
      FrontMoves(r.outputs, r.queue.events);
    }
  }

  /** How many inputs an event of the stream stands for, read off the event. */
  function Weight(e: Event, item: Item): nat {
    if item.Gap? && |e.diagnostics| == 1 && e.diagnostics[0].message.DroppedEvents? then e.diagnostics[0].message.count + 1
    else 1
  }

  function TotalWeight(events: seq<Event>, items: seq<Item>): nat
    requires |events| == |items|
  {
    if events == [] then 0 else Weight(events[0], items[0]) + TotalWeight(events[1..], items[1..])
  }

  lemma {:induction false} WeightIsIds(events: seq<Event>, items: seq<Item>, inputs: seq<Event>)
    requires |events| == |items| && forall k | 0 <= k < |items| :: Shows(events[k], items[k], inputs)
    ensures TotalWeight(events, items) == |Ids(items)|
  {
    if events != [] {
      forall k | 0 <= k < |items| - 1 ensures Shows(events[1..][k], items[1..][k], inputs) {
        assert Shows(events[k + 1], items[k + 1], inputs);
      }
      WeightIsIds(events[1..], items[1..], inputs);
    }
  }

  lemma {:induction false} IndicesSize(n: nat)
    ensures |Indices(n)| == n
  {
    if n > 0 { IndicesSize(n - 1); }
  }

  /** Conservation: what was popped and what is queued, counting each marker as
      one more than the number it reports, adds up to everything ever pushed. */
  lemma NothingVanishesUncounted(ops: seq<Op>)
    ensures var r := RunOps(ops);
            && |r.outputs| == |r.history| && |r.queue.events| == |r.tags|
            && TotalWeight(r.outputs, r.history) + TotalWeight(r.queue.events, r.tags) == |r.inputs|
  {
    var r := RunOps(ops);
    QueueIsLossyFifo(ops);
    WeightIsIds(r.outputs, r.history, r.inputs);
    WeightIsIds(r.queue.events, r.tags, r.inputs);
    IdsAppend(r.history, r.tags);
    IndicesSize(|r.inputs|);
    assert |multiset(Ids(Trace(r)))| == |Ids(Trace(r))|;
  }

  /** Each input is in the stream once: as itself, or inside exactly one gap. */
  lemma InputAppearsOnce(ops: seq<Op>, i: nat)
    requires i < |RunOps(ops).inputs|
    ensures multiset(Ids(Trace(RunOps(ops))))[i] == 1
  {
    QueueIsLossyFifo(ops);
    IndicesBelow(|RunOps(ops).inputs|, i);
  }
}
