/** The watcher object: its fields, and the critical sections that update them.
    Each method is tied to the function that specifies it. */
module Watcher {
  import opened Prelude
  import opened Text
  import opened WatchEvents
  import Q = EventQueue
  import opened SettleKeys
  import opened SettlePolling
  import S = SettleScheduler
  import H = SettleHistory

  /** Both delivery queues after an event was handed over. */
  function HandedOver(pull: Q.Queue, callback: Q.Queue, hasCallback: bool, e: Event): (Q.Queue, Q.Queue) {
    if hasCallback then (pull, Q.Push(callback, e)) else (Q.Push(pull, e), callback)
  }

  /** What is delivered when the callback threw on an event. */
  function FailureEvent(event: Event, reason: string): Event {
    event.(kind := Error, state := Degraded, rescan := false, diagnostics := [Diagnostic(CallbackException, Text(reason))])
  }

  class Impl {
    var queue: seq<Event>
    var queueOverflowed: bool
    var queueDropCount: nat
    var callbackQueue: seq<Event>
    var callbackOverflowed: bool
    var callbackDropCount: nat
    var hasCallback: bool
    var watches: map<nat, Option<SettleOptions>>
    var pendingTasks: map<string, Task>
    var deadlines: set<S.Deadline>
    var generations: map<string, nat>
    var nextId: nat
    var state: StreamState
    var stopped: bool

    function PullQueue(): Q.Queue
      reads this
    {
      Q.Queue(queue, queueOverflowed, queueDropCount)
    }

    function CallbackQueue(): Q.Queue
      reads this
    {
      Q.Queue(callbackQueue, callbackOverflowed, callbackDropCount)
    }

    function Slots(): S.Slots
      reads this
    {
      S.Slots(watches, pendingTasks, deadlines, generations, stopped)
    }

    constructor ()
      ensures PullQueue() == CallbackQueue() == Q.EmptyQueue && Slots() == S.InitialSystem.slots
      ensures nextId == S.InitialSystem.nextId && state == Clean && !hasCallback && Bounded()
    {
      queue, queueOverflowed, queueDropCount := [], false, 0;
      callbackQueue, callbackOverflowed, callbackDropCount := [], false, 0;
      hasCallback := false;
      watches, pendingTasks, deadlines, generations := map[], map[], {}, map[];
      nextId, state, stopped := 1, Clean, false;
    }

    /** Neither queue holds more than 512 events. */
    predicate Bounded()
      reads this
    {
      |queue| <= 512 && |callbackQueue| <= 512
    }

    // ----- the pull queue

    method RefreshOverflowDiagnostic()
      modifies `queue
      ensures queue == Q.Refreshed(old(queue), queueDropCount)
    {
      if queue == [] {
        return;
      }
      var event := queue[0];
      if event.kind != Overflow {
        return;
      }
      var diagnostics := event.diagnostics;
      var i := 0;
      while i < |diagnostics| && diagnostics[i].code != QueueOverflow
        invariant 0 <= i <= |diagnostics|
        invariant Q.WithDropCount(diagnostics, queueDropCount) == diagnostics[..i] + Q.WithDropCount(diagnostics[i..], queueDropCount)
      {
        assert diagnostics[i..][1..] == diagnostics[i + 1..];
        i := i + 1;
      }
      if i < |diagnostics| {
        assert diagnostics[i..][1..] == diagnostics[i + 1..];
        diagnostics := diagnostics[i := Diagnostic(QueueOverflow, DroppedEvents(queueDropCount))];
      }
      assert diagnostics == Q.WithDropCount(event.diagnostics, queueDropCount);
      queue := queue[0 := event.(diagnostics := diagnostics)];
    }

    method EnqueueLocked(event: Event)
      modifies `queue, `queueOverflowed, `queueDropCount, `state
      ensures PullQueue() == Q.Push(old(PullQueue()), event)
      ensures state == if event.state == Degraded || Q.Overflows(old(PullQueue())) then Degraded else old(state)
      ensures Q.Overflows(old(PullQueue())) <==> !old(queueOverflowed) && |old(queue)| >= 512
      ensures !old(queueOverflowed) && |old(queue)| < 512 ==> queue == old(queue) + [event] && !queueOverflowed
      ensures old(Bounded()) ==> Bounded()
    {
      if event.state == Degraded {
        state := Degraded;
      }
      if queueOverflowed {
        queueDropCount := queueDropCount + 1;
        RefreshOverflowDiagnostic();
        return;
      }
      if |queue| >= Q.MaxDepth {
        queue := queue[1..];
        queueDropCount := 1;
        queue := [Q.OverflowMarker(event, queueDropCount)] + queue;
        state := Degraded;
        queueOverflowed := true;
        return;
      }
      queue := queue + [event];
    }

    method PopQueueFront() returns (event: Event)
      requires queue != []
      modifies `queue, `queueOverflowed, `queueDropCount
      ensures event == old(queue)[0] && PullQueue() == Q.AfterPop(old(PullQueue()))
      ensures old(Bounded()) ==> Bounded()
    {
      event := queue[0];
      queue := queue[1..];
      if Q.IsQueueOverflow(event) {
        queueOverflowed := false;
        queueDropCount := 0;
      }
    }

    method PollEvent() returns (event: Option<Event>)
      modifies `queue, `queueOverflowed, `queueDropCount
      ensures event == if old(queue) == [] then None else Some(old(queue)[0])
      ensures PullQueue() == if old(queue) == [] then old(PullQueue()) else Q.AfterPop(old(PullQueue()))
      ensures old(Bounded()) ==> Bounded()
    {
      if queue == [] {
        return None;
      }
      var front := PopQueueFront();
      return Some(front);
    }

    // ----- the callback queue

    method RefreshCallbackOverflowDiagnostic()
      modifies `callbackQueue
      ensures callbackQueue == Q.Refreshed(old(callbackQueue), callbackDropCount)
    {
      if callbackQueue == [] || callbackQueue[0].kind != Overflow {
        return;
      }
      var event := callbackQueue[0];
      callbackQueue := callbackQueue[0 := event.(diagnostics := Q.WithDropCount(event.diagnostics, callbackDropCount))];
    }

    method EnqueueCallbackLocked(event: Event)
      modifies `callbackQueue, `callbackOverflowed, `callbackDropCount, `state
      ensures CallbackQueue() == Q.Push(old(CallbackQueue()), event)
      ensures state == if Q.Overflows(old(CallbackQueue())) then Degraded else old(state)
      ensures Q.Overflows(old(CallbackQueue())) <==> !old(callbackOverflowed) && |old(callbackQueue)| >= 512
      ensures !old(callbackOverflowed) && |old(callbackQueue)| < 512 ==> callbackQueue == old(callbackQueue) + [event] && !callbackOverflowed
      ensures old(Bounded()) ==> Bounded()
    {
      if callbackOverflowed {
        callbackDropCount := callbackDropCount + 1;
        RefreshCallbackOverflowDiagnostic();
        return;
      }
      if |callbackQueue| >= Q.MaxDepth {
        callbackQueue := callbackQueue[1..];
        callbackDropCount := 1;
        callbackQueue := [Q.OverflowMarker(event, callbackDropCount)] + callbackQueue;
        state := Degraded;
        callbackOverflowed := true;
        return;
      }
      callbackQueue := callbackQueue + [event];
    }

    /** The delivery worker takes the front of the callback queue. */
    method PopCallbackFront() returns (event: Event)
      requires callbackQueue != []
      modifies `callbackQueue, `callbackOverflowed, `callbackDropCount
      ensures event == old(callbackQueue)[0] && CallbackQueue() == Q.AfterPop(old(CallbackQueue()))
      ensures old(Bounded()) ==> Bounded()
    {
      event := callbackQueue[0];
      callbackQueue := callbackQueue[1..];
      if Q.IsQueueOverflow(event) {
        callbackOverflowed := false;
        callbackDropCount := 0;
      }
    }

    /** A callback that throws is dropped, and delivery falls back to the queue. */
    method HandleCallbackException(event: Event, reason: string)
      modifies `queue, `queueOverflowed, `queueDropCount, `state, `hasCallback
      ensures !hasCallback && state == Degraded
      ensures PullQueue() == Q.Push(old(PullQueue()), event.(kind := Error, state := Degraded, rescan := false,
                                                             diagnostics := [Diagnostic(CallbackException, Text(reason))]))
      ensures PullQueue() == Q.Push(old(PullQueue()), FailureEvent(event, reason))
      ensures old(Bounded()) ==> Bounded()
    {
      hasCallback := false;
      state := Degraded;
      EnqueueLocked(FailureEvent(event, reason));
    }

    /** The delivery worker hands over what it popped; `thrown` is what the callback
        threw, if it was called. */
    method DeliverPopped(event: Event, thrown: Option<string>)
      modifies `queue, `queueOverflowed, `queueDropCount, `state, `hasCallback
      ensures PullQueue() ==
              if stopped then old(PullQueue())
              else if !old(hasCallback) then Q.Push(old(PullQueue()), event)
              else if thrown.Some? then Q.Push(old(PullQueue()), FailureEvent(event, thrown.value))
              else old(PullQueue())
      ensures hasCallback == (old(hasCallback) && (stopped || thrown.None?))
      ensures state ==
              if stopped then old(state)
              else if !old(hasCallback) then (if event.state == Degraded || Q.Overflows(old(PullQueue())) then Degraded else old(state))
              else if thrown.Some? then Degraded
              else old(state)
      ensures old(Bounded()) ==> Bounded()
    {
      if stopped {
        return;
      }
      if !hasCallback {
        EnqueueLocked(event);
        return;
      }
      if thrown.Some? {
        HandleCallbackException(event, thrown.value);
      }
    }

    method Deliver(event: Event)
      modifies `queue, `queueOverflowed, `queueDropCount, `callbackQueue, `callbackOverflowed, `callbackDropCount, `state
      ensures (PullQueue(), CallbackQueue()) == HandedOver(old(PullQueue()), old(CallbackQueue()), hasCallback, event)
      ensures hasCallback ==> PullQueue() == old(PullQueue()) && CallbackQueue() == Q.Push(old(CallbackQueue()), event)
      ensures !hasCallback ==> CallbackQueue() == old(CallbackQueue()) && PullQueue() == Q.Push(old(PullQueue()), event)
      ensures state == if event.state == Degraded || Q.Overflows(if hasCallback then old(CallbackQueue()) else old(PullQueue())) then Degraded
                       else old(state)
      ensures old(Bounded()) ==> Bounded()
    {
      if event.state == Degraded {
        state := Degraded;
      }
      if !hasCallback {
        EnqueueLocked(event);
        return;
      }
      EnqueueCallbackLocked(event);
    }

    // ----- the settle stage

    method EraseDeadline(task: Task)
      modifies `deadlines
      ensures deadlines == old(deadlines) - {S.DeadlineOf(task)}
    {
      deadlines := deadlines - {S.Deadline(task.nextCheckAt, task.key, task.generation)};
    }

    method InsertDeadline(task: Task)
      modifies `deadlines
      ensures deadlines == old(deadlines) + {S.DeadlineOf(task)}
    {
      deadlines := deadlines + {S.Deadline(task.nextCheckAt, task.key, task.generation)};
    }

    /** Requires what the scheduler guarantees for every routed event: a watch
        that still exists has settle options. */
    method EnqueueForSettle(event: Event, now: int)
      requires event.source in watches ==> S.Settles(Slots(), event.source)
      modifies `queue, `queueOverflowed, `queueDropCount, `callbackQueue, `callbackOverflowed, `callbackDropCount, `state
      modifies `pendingTasks, `deadlines, `generations
      ensures Slots() == S.EnqueueForSettle(old(Slots()), event, now)
      ensures var full := !old(stopped) && S.Settles(old(Slots()), event.source) && S.IsOverCapacity(old(Slots()), event);
              (PullQueue(), CallbackQueue()) ==
              if full then
                HandedOver(old(PullQueue()), old(CallbackQueue()), hasCallback,
                          S.SettleOverflow(event, watches[event.source].value.maxPendingPaths))
              else (old(PullQueue()), old(CallbackQueue()))
      ensures state == if !old(stopped) && S.Settles(old(Slots()), event.source) && S.IsOverCapacity(old(Slots()), event) then Degraded
                       else old(state)
      ensures old(Bounded()) ==> Bounded()
    {
      if stopped || event.source !in watches {
        return;
      }
      var key := SettleKey(event.source, event.path);
      var options := watches[event.source].value;
      var capacity := options.maxPendingPaths;
      if key !in generations && |generations| >= capacity {
        state := Degraded;
        Deliver(S.SettleOverflow(event, capacity));
        return;
      }
      var generation := if key in generations then generations[key] + 1 else 1;
      var debounce := if options.debounceFor > 0 then options.debounceFor else 0;
      PutTask(Task(key, generation, event, now + debounce, None, None, None, None));
    }

    /** The task replaces a pending one for its key, in all three indexes. */
    method PutTask(task: Task)
      modifies `pendingTasks, `deadlines, `generations
      ensures Slots() == S.WithTask(old(Slots()), task)
    {
      generations := generations[task.key := task.generation];
      if task.key in pendingTasks {
        EraseDeadline(pendingTasks[task.key]);
      }
      pendingTasks := pendingTasks[task.key := task];
      InsertDeadline(task);
    }

    method CancelDeadlines(prefix: string)
      modifies `deadlines
      ensures deadlines == (set d | d in old(deadlines) && !StartsWith(d.key, prefix))
    {
      hide StartsWith;
      var unseen := deadlines;
      while unseen != {}
        invariant unseen <= deadlines
        invariant deadlines == (set d | d in old(deadlines) && (d in unseen || !StartsWith(d.key, prefix)))
        decreases unseen
      {
        var d :| d in unseen;
        unseen := unseen - {d};
        if StartsWith(d.key, prefix) {
          deadlines := deadlines - {d};
        }
      }
    }

    method CancelGenerations(prefix: string)
      modifies `generations
      ensures generations == (map k | k in old(generations) && !StartsWith(k, prefix) :: old(generations)[k])
    {
      hide StartsWith;
      var keys := generations.Keys;
      while keys != {}
        invariant keys <= generations.Keys
        invariant generations == (map k | k in old(generations) && (k in keys || !StartsWith(k, prefix)) :: old(generations)[k])
        decreases keys
      {
        var k :| k in keys;
        keys := keys - {k};
        if StartsWith(k, prefix) {
          generations := generations - {k};
        }
      }
    }

    method CancelPending(prefix: string)
      modifies `pendingTasks
      ensures pendingTasks == (map k | k in old(pendingTasks) && !StartsWith(k, prefix) :: old(pendingTasks)[k])
    {
      hide StartsWith;
      var keys := pendingTasks.Keys;
      while keys != {}
        invariant keys <= pendingTasks.Keys
        invariant pendingTasks == (map k | k in old(pendingTasks) && (k in keys || !StartsWith(k, prefix)) :: old(pendingTasks)[k])
        decreases keys
      {
        var k :| k in keys;
        keys := keys - {k};
        if StartsWith(k, prefix) {
          pendingTasks := pendingTasks - {k};
        }
      }
    }

    method CancelSettleTasksFor(id: nat)
      modifies `pendingTasks, `deadlines, `generations
      ensures Slots() == S.Cancel(old(Slots()), id)
    {
      var prefix := Prefix(id);
      CancelDeadlines(prefix);
      CancelGenerations(prefix);
      CancelPending(prefix);
    }

    method AddWatch(settle: Option<SettleOptions>, accepted: bool) returns (id: Option<nat>)
      modifies `watches, `nextId
      ensures Slots() == (if accepted && !stopped then old(Slots()).(watches := old(watches)[old(nextId) := settle]) else old(Slots()))
      ensures nextId == if stopped then old(nextId) else old(nextId) + 1
      ensures id == if accepted && !stopped then Some(old(nextId)) else None
    {
      if stopped {
        return None;
      }
      id := Some(nextId);
      nextId := nextId + 1;
      if !accepted {
        return None;
      }
      watches := watches[id.value := settle];
    }

    /** `known` is the backend's answer. */
    method RemoveWatch(id: nat, known: bool) returns (removed: bool)
      modifies `watches, `pendingTasks, `deadlines, `generations
      ensures removed == known
      ensures Slots() == if known then S.RemoveWatch(old(Slots()), id) else old(Slots())
    {
      removed := known;
      if removed {
        watches := watches - {id};
        CancelSettleTasksFor(id);
      }
    }

    method Stop()
      modifies `stopped, `state
      ensures Slots() == old(Slots()).(stopped := true)
      ensures state == if old(stopped) then old(state) else Stopped
    {
      if !stopped {
        stopped := true;
        state := Stopped;
      }
    }

    /** One round of the due loop, when there is a deadline. */
    method TakeDueTask(now: int) returns (taken: Option<Task>, ghost first: S.Deadline)
      requires deadlines != {}
      modifies `pendingTasks, `deadlines
      ensures S.IsFirstDeadline(old(deadlines), first)
      ensures (Slots(), taken) == S.TakeDue(old(Slots()), first, now)
    {
      ghost var least := H.FirstDeadlineExists(deadlines);
      var deadline :| deadline in deadlines && forall d | d in deadlines :: S.DeadlineLe(deadline, d);
      first := deadline;
      if deadline.at > now {
        return None, first;
      }
      deadlines := deadlines - {deadline};
      if deadline.key !in pendingTasks || pendingTasks[deadline.key].generation != deadline.generation
         || pendingTasks[deadline.key].nextCheckAt != deadline.at {
        return None, first;
      }
      taken := Some(pendingTasks[deadline.key]);
      pendingTasks := pendingTasks - {deadline.key};
    }

    /** One poll of the settle task the worker holds, outside the lock. */
    method PollSettleTask(found: Task, now: int, file: FileState) returns (verdict: Verdict, task: Task)
      ensures (verdict, task) ==
              if S.Settles(Slots(), found.event.source) then Poll(found, watches[found.event.source].value, Sample(now, file))
              else (Skip, found)
    {
      task := found;
      if task.event.source !in watches || watches[task.event.source].None? {
        return Skip, task;
      }
      var settle := watches[task.event.source].value;
      if settle.stableFor <= 0 {
        return Verdict.Deliver, task;
      }
      if task.timeoutAt.None? && settle.timeoutAfter.Some? {
        task := task.(timeoutAt := Some(now + settle.timeoutAfter.value));
      }
      if task.timeoutAt.Some? && now >= task.timeoutAt.value {
        return Verdict.Deliver, Noted(task, TimedOut);
      }
      if file.Unreadable? {
        return Verdict.Deliver, Noted(task, Diagnostic(SettleTimeout, Text(file.message)));
      }
      if task.lastSize != Some(file.size) || task.lastWrite != Some(file.writeTime) {
        task := task.(lastSize := Some(file.size), lastWrite := Some(file.writeTime), stableSince := Some(now));
        task := task.(nextCheckAt := Capped(now + Interval(settle), task.timeoutAt));
        return Skip, task;
      }
      if task.stableSince.Some? && now - task.stableSince.value < settle.stableFor {
        task := task.(nextCheckAt := Capped(now + Interval(settle), task.timeoutAt));
        return Skip, task;
      }
      return Verdict.Deliver, Noted(task, Ready);
    }

    method CompleteIfCurrent(key: string, generation: nat) returns (completed: bool)
      modifies `pendingTasks, `generations
      ensures completed <==> !stopped && S.IsCurrent(old(Slots()), key, generation)
      ensures Slots() == if completed then S.Complete(old(Slots()), key) else old(Slots())
    {
      if stopped || key !in generations || generations[key] != generation {
        return false;
      }
      generations := generations - {key};
      pendingTasks := pendingTasks - {key};
      return true;
    }

    method RescheduleIfCurrent(task: Task)
      modifies `pendingTasks, `deadlines
      ensures Slots() == S.Reschedule(old(Slots()), task)
    {
      if !stopped && task.key in generations && generations[task.key] == task.generation {
        if task.key in pendingTasks {
          EraseDeadline(pendingTasks[task.key]);
        }
        pendingTasks := pendingTasks[task.key := task];
        InsertDeadline(task);
      }
    }
  }
}
