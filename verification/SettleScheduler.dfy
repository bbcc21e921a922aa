/** The settle stage of the watcher: pending tasks, their deadlines and their
    generations, and the one worker that polls them. Every function here is what
    the source does in one critical section of its mutex. */
module SettleScheduler {
  import opened Prelude
  import opened Text
  import opened Order
  import opened WatchEvents
  import opened SettleKeys
  import opened SettlePolling

  datatype Deadline = Deadline(at: int, key: string, generation: nat)

  /** The order of the deadline set: time, then key, then generation. */
  predicate DeadlineLe(a: Deadline, b: Deadline) {
    if a.at != b.at then a.at < b.at
    else if a.key != b.key then LexLe(a.key, b.key)
    else a.generation <= b.generation
  }

  datatype Slots = Slots(
    watches: map<nat, Option<SettleOptions>>,
    pending: map<string, Task>,
    deadlines: set<Deadline>,
    generations: map<string, nat>,
    stopped: bool)

  function DeadlineOf(task: Task): Deadline {
    Deadline(task.nextCheckAt, task.key, task.generation)
  }

  function KeyOf(e: Event): string {
    SettleKey(e.source, e.path)
  }

  predicate Settles(s: Slots, id: nat) {
    id in s.watches && s.watches[id].Some?
  }

  /** The events that settle if their watch has settle options. */
  predicate MaySettle(e: Event) {
    (e.kind == Created || e.kind == Modified || e.kind == RenamedNew) && e.pathType != Directory
  }

  predicate NeedsSettle(s: Slots, e: Event) {
    MaySettle(e) && Settles(s, e.source)
  }

  predicate IsCurrent(s: Slots, key: string, generation: nat) {
    key in s.generations && s.generations[key] == generation
  }

  // ----- the critical sections

  /** Whether the event opens a new slot although all of them are taken. */
  predicate IsOverCapacity(s: Slots, e: Event)
    requires Settles(s, e.source)
  {
    KeyOf(e) !in s.generations && |s.generations| >= s.watches[e.source].value.maxPendingPaths
  }

  function FreshTask(s: Slots, e: Event, now: int): Task
    requires Settles(s, e.source)
  {
    var key := KeyOf(e);
    var generation := (if key in s.generations then s.generations[key] else 0) + 1;
    var debounce := s.watches[e.source].value.debounceFor;
    Task(key, generation, e, now + (if debounce > 0 then debounce else 0), None, None, None, None)
  }

  function WithTask(s: Slots, task: Task): Slots {
    var replaced := if task.key in s.pending then {DeadlineOf(s.pending[task.key])} else {};
    s.(generations := s.generations[task.key := task.generation],
       pending := s.pending[task.key := task],
       deadlines := s.deadlines - replaced + {DeadlineOf(task)})
  }

  /** enqueue_for_settle, for an event that does not overflow. A watch without
      settle options would make std::optional::value throw; RoutedEventsSettle
      shows that this cannot happen. */
  function EnqueueForSettle(s: Slots, e: Event, now: int): Slots {
    if s.stopped || !Settles(s, e.source) || IsOverCapacity(s, e) then s
    else WithTask(s, FreshTask(s, e, now))
  }

  function Cancel(s: Slots, id: nat): Slots {
    var doomed := Prefix(id);
    s.(deadlines := (set d | d in s.deadlines && !StartsWith(d.key, doomed)),
       generations := (map k | k in s.generations && !StartsWith(k, doomed) :: s.generations[k]),
       pending := (map k | k in s.pending && !StartsWith(k, doomed) :: s.pending[k]))
  }

  function RemoveWatch(s: Slots, id: nat): Slots {
    Cancel(s.(watches := s.watches - {id}), id)
  }

  predicate IsFirstDeadline(ds: set<Deadline>, d: Deadline) {
    d in ds && forall x | x in ds :: DeadlineLe(d, x)
  }

  /** One round of the due loop of run_settle, for the first deadline d. */
  function TakeDue(s: Slots, d: Deadline, now: int): (Slots, Option<Task>) {
    if d.at > now then (s, None)
    else
      var erased := s.(deadlines := s.deadlines - {d});
      if d.key !in s.pending || DeadlineOf(s.pending[d.key]).at != d.at || s.pending[d.key].generation != d.generation then (erased, None)
      else (erased.(pending := s.pending - {d.key}), Some(s.pending[d.key]))
  }

  function Complete(s: Slots, key: string): Slots {
    s.(generations := s.generations - {key}, pending := s.pending - {key})
  }

  /** The worker puts an unfinished task back, unless it is superseded. */
  function Reschedule(s: Slots, task: Task): Slots {
    if s.stopped || !IsCurrent(s, task.key, task.generation) then s
    else
      var replaced := if task.key in s.pending then {DeadlineOf(s.pending[task.key])} else {};
      s.(pending := s.pending[task.key := task], deadlines := s.deadlines - replaced + {DeadlineOf(task)})
  }

  // ----- the system: slots, backend worker and settle worker

  /** Where the backend worker is with the event it read. */
  datatype Routing = NoEvent | Active(event: Event) | ToSettle(event: Event) | ToQueue(event: Event)

  /** Where the settle worker is; it holds its task outside the lock. */
  datatype Worker = Idle | Holding(task: Task) | Polling(task: Task) | Polled(verdict: Verdict, task: Task) | Delivering(event: Event) | Ended

  datatype System = System(slots: Slots, nextId: nat, routing: Routing, worker: Worker)

  const InitialSystem := System(Slots(map[], map[], {}, map[], false), 1, NoEvent, Idle)

  datatype Action =
    | AddWatch(settle: Option<SettleOptions>, accepted: bool)
    | DropWatch(id: nat, known: bool)
    | Stop
    | Receive(event: Event)
    | Classify
    | Admit(now: int)
    | ForwardRouted
    | TakeNext(first: Deadline, now: int)
    | CheckCurrent
    | PollFile(sample: Sample)
    | Finish
    | ForwardSettled

  /** The settle stage asks for a rescan when it cannot take one more path. */
  function SettleOverflow(trigger: Event, capacity: nat): Event {
    trigger.(kind := Overflow, state := Degraded, rescan := true,
             diagnostics := [Diagnostic(QueueOverflow, CapacityExceeded(capacity))])
  }

  /** The next state, and the event handed to the delivery queue, if any.
      Actions that are not enabled change nothing. */
  function Act(y: System, a: Action): (System, Option<Event>) {
    var s := y.slots;
    match a
    case AddWatch(settle, accepted) =>
      if s.stopped then (y, None)
      else
        (y.(slots := if accepted then s.(watches := s.watches[y.nextId := settle]) else s, nextId := y.nextId + 1), None)
    case DropWatch(id, known) => if known then (y.(slots := RemoveWatch(s, id)), None) else (y, None)
    case Stop => (y.(slots := s.(stopped := true)), None)
    case Receive(e) =>
      if y.routing.NoEvent? && !s.stopped && e.source in s.watches then (y.(routing := Active(e)), None) else (y, None)
    case Classify =>
      if !y.routing.Active? then (y, None)
      else (y.(routing := if NeedsSettle(s, y.routing.event) then ToSettle(y.routing.event) else ToQueue(y.routing.event)), None)
    case Admit(now) =>
      if !y.routing.ToSettle? then (y, None)
      else
        var e := y.routing.event;
        if !s.stopped && Settles(s, e.source) && IsOverCapacity(s, e) then
          (y.(routing := NoEvent), Some(SettleOverflow(e, s.watches[e.source].value.maxPendingPaths)))
        else (y.(routing := NoEvent, slots := EnqueueForSettle(s, e, now)), None)
    case ForwardRouted => if y.routing.ToQueue? then (y.(routing := NoEvent), Some(y.routing.event)) else (y, None)
    case TakeNext(first, now) =>
      if !y.worker.Idle? then (y, None)
      else if s.stopped then (y.(worker := Ended), None)
      else if s.pending == map[] || !IsFirstDeadline(s.deadlines, first) then (y, None)
      else
        var (next, taken) := TakeDue(s, first, now);
        (y.(slots := next, worker := match taken case Some(task) => Holding(task) case None => Idle), None)
    case CheckCurrent =>
      if !y.worker.Holding? then (y, None)
      else if s.stopped then (y.(worker := Ended), None)
      else if IsCurrent(s, y.worker.task.key, y.worker.task.generation) then (y.(worker := Polling(y.worker.task)), None)
      else (y.(worker := Idle), None)
    case PollFile(sample) =>
      if !y.worker.Polling? then (y, None)
      else
        var task := y.worker.task;
        if !Settles(s, task.event.source) then (y.(worker := Polled(Skip, task)), None)
        else
          var (verdict, next) := Poll(task, s.watches[task.event.source].value, sample);
          (y.(worker := Polled(verdict, next)), None)
    case Finish =>
      if !y.worker.Polled? then (y, None)
      else
        var task := y.worker.task;
        if y.worker.verdict == Deliver then
          if !s.stopped && IsCurrent(s, task.key, task.generation) then
            (y.(slots := Complete(s, task.key), worker := Delivering(task.event)), None)
          else (y.(worker := Idle), None)
        else (y.(slots := Reschedule(s, task), worker := Idle), None)
    case ForwardSettled =>
      if y.worker.Delivering? then (y.(worker := Idle), Some(y.worker.event)) else (y, None)
  }

  // ----- agreement of the indexes

  function Held(y: System): Option<Task> {
    match y.worker
    case Holding(task) => Some(task)
    case Polling(task) => Some(task)
    case Polled(_, task) => Some(task)
    case _ => None
  }

  predicate Owned(s: Slots, task: Task) {
    task.key == KeyOf(task.event) && Settles(s, task.event.source)
  }

  predicate IndexIsExact(s: Slots) {
    s.deadlines == (set k | k in s.pending :: DeadlineOf(s.pending[k]))
  }

  predicate PendingIsCurrent(s: Slots) {
    forall k | k in s.pending ::
      && s.pending[k].key == k && Owned(s, s.pending[k])
      && k in s.generations && s.generations[k] == s.pending[k].generation
  }

  /** Every slot belongs to a pending task or to the settle task the worker holds. */
  predicate SlotsAreOwned(s: Slots, held: Option<Task>) {
    forall k | k in s.generations ::
      k in s.pending || (held.Some? && held.value.key == k && held.value.generation == s.generations[k])
  }

  /** A held task is current and not pending, or a later event has a higher
      generation, or its watch is gone (and its id is never given out again). */
  predicate HeldIsPlaced(s: Slots, held: Option<Task>) {
    held.Some? ==>
      var task := held.value;
      && task.key == KeyOf(task.event)
      && if task.key !in s.generations then task.event.source !in s.watches
         else task.generation < s.generations[task.key]
              || (task.generation == s.generations[task.key] && task.key !in s.pending && Owned(s, task))
  }

  /** The deadline set indexes exactly the pending tasks, and the generation map
      has exactly the pending keys and the key of a held task that is current. */
  predicate Agree(s: Slots, held: Option<Task>) {
    IndexIsExact(s) && PendingIsCurrent(s) && SlotsAreOwned(s, held) && HeldIsPlaced(s, held)
  }

  /** Ids are fresh, and an event routed to the settle stage belongs to a watch
      with settle options for as long as that watch exists. */
  predicate Routed(y: System) {
    && (forall id | id in y.slots.watches :: id < y.nextId)
    && (y.routing.Active? || y.routing.ToSettle? ==> y.routing.event.source < y.nextId)
    && (y.routing.ToSettle? && y.routing.event.source in y.slots.watches ==> Settles(y.slots, y.routing.event.source))
    && (Held(y).Some? ==> Held(y).value.event.source < y.nextId)
  }

  /** Until stop is called; then the worker may leave its task behind. */
  predicate Invariant(y: System) {
    (y.slots.stopped || Agree(y.slots, Held(y))) && Routed(y)
  }

  lemma EnqueueAgrees(s: Slots, held: Option<Task>, e: Event, now: int)
    requires Agree(s, held)
    ensures Agree(EnqueueForSettle(s, e, now), held)
  {
    hide KeyOf, IsOverCapacity;
    if !s.stopped && Settles(s, e.source) && !IsOverCapacity(s, e) {
      var task := FreshTask(s, e, now);
      var next := WithTask(s, task);
      DeadlinesAfterPut(s, task);
      assert IndexIsExact(next);
      forall k | k in next.pending ensures Owned(next, next.pending[k]) && next.generations[k] == next.pending[k].generation {
        if k != task.key { assert Owned(s, s.pending[k]); }
      }
      assert SlotsAreOwned(next, held);
      if held.Some? && held.value.key == task.key {
        SameKeySameWatch(held.value, e);
      }
    }
  }

  /** The event is polled only after its debounce time: until then the due loop does
      not take its key, however often earlier events were due. */
  lemma DebouncePostpones(s: Slots, held: Option<Task>, e: Event, now: int, first: Deadline, later: int)
    requires Agree(s, held) && !s.stopped && Settles(s, e.source) && !IsOverCapacity(s, e)
    requires first in EnqueueForSettle(s, e, now).deadlines && first.key == KeyOf(e)
    requires TakeDue(EnqueueForSettle(s, e, now), first, later).1.Some?
    ensures var task := TakeDue(EnqueueForSettle(s, e, now), first, later).1.value;
            && task.event == e && Fresh(task)
            && later >= now && later >= now + s.watches[e.source].value.debounceFor
            && (KeyOf(e) in s.generations ==> task.generation > s.generations[KeyOf(e)])
  {
    hide KeyOf, IsOverCapacity;
    EnqueueAgrees(s, held, e, now);
    NoStaleDeadline(EnqueueForSettle(s, e, now), held, first);
  }

  lemma SameKeySameWatch(task: Task, e: Event)
    requires task.key == KeyOf(task.event) == KeyOf(e)
    ensures task.event.source == e.source
  {
    KeyIsInjective(task.event.source, task.event.path, e.source, e.path);
  }

  predicate KeysAgree(s: Slots) {
    forall k | k in s.pending :: s.pending[k].key == k
  }

  /** Replacing a pending task replaces exactly its deadline. */
  lemma DeadlinesAfterPut(s: Slots, task: Task)
    requires KeysAgree(s) && s.deadlines == set k | k in s.pending :: DeadlineOf(s.pending[k])
    ensures var replaced := if task.key in s.pending then {DeadlineOf(s.pending[task.key])} else {};
            var pending := s.pending[task.key := task];
            s.deadlines - replaced + {DeadlineOf(task)} == set k | k in pending :: DeadlineOf(pending[k])
  {
    var replaced := if task.key in s.pending then {DeadlineOf(s.pending[task.key])} else {};
    var pending := s.pending[task.key := task];
    var now := s.deadlines - replaced + {DeadlineOf(task)};
    forall d | d in now ensures exists k :: k in pending && DeadlineOf(pending[k]) == d {
      if d == DeadlineOf(task) {
        assert task.key in pending;
      } else {
        var k :| k in s.pending && DeadlineOf(s.pending[k]) == d;
        assert k != task.key && pending[k] == s.pending[k];
      }
    }
    forall k | k in pending ensures DeadlineOf(pending[k]) in now {
      if k != task.key {
        assert DeadlineOf(s.pending[k]).key == k;
        assert DeadlineOf(pending[k]) in s.deadlines;
      }
    }
  }

  lemma RescheduleAgrees(s: Slots, task: Task)
    requires Agree(s, Some(task))
    ensures IsCurrent(s, task.key, task.generation) && !s.stopped ==> Agree(Reschedule(s, task), None)
  {
    hide KeyOf;
    DeadlinesAfterPut(s, task);
  }

  lemma CompleteAgrees(s: Slots, task: Task)
    requires Agree(s, Some(task)) && IsCurrent(s, task.key, task.generation)
    ensures Agree(Complete(s, task.key), None)
    ensures task.key !in s.pending && Owned(s, task)
  {
    hide KeyOf;
    assert s.pending - {task.key} == s.pending;
  }

  lemma PrefixOfTask(task: Task, id: nat)
    requires task.key == KeyOf(task.event)
    ensures StartsWith(task.key, Prefix(id)) <==> task.event.source == id
  {
    PrefixSelects(id, task.event.source, task.event.path);
  }

  lemma CancelAgrees(s: Slots, held: Option<Task>, id: nat)
    requires Agree(s, held)
    ensures Agree(RemoveWatch(s, id), held)
  {
    hide StartsWith, Prefix, KeyOf;
    var next, doomed := RemoveWatch(s, id), Prefix(id);
    forall k | k in s.pending ensures StartsWith(k, doomed) <==> s.pending[k].event.source == id {
      PrefixOfTask(s.pending[k], id);
    }
    assert PendingIsCurrent(next);
    assert SlotsAreOwned(next, held);
    if held.Some? {
      PrefixOfTask(held.value, id);
    }
    CancelIndex(s, id);
  }

  lemma CancelIndex(s: Slots, id: nat)
    requires IndexIsExact(s) && KeysAgree(s)
    ensures IndexIsExact(RemoveWatch(s, id))
  {
    hide StartsWith, Prefix;
    var next := RemoveWatch(s, id);
    forall d | d in next.deadlines ensures exists k :: k in next.pending && DeadlineOf(next.pending[k]) == d {
      var k :| k in s.pending && DeadlineOf(s.pending[k]) == d;
      assert k in next.pending;
    }
    forall k | k in next.pending ensures DeadlineOf(next.pending[k]) in next.deadlines {
      assert DeadlineOf(s.pending[k]) in s.deadlines;
    }
  }

  /** The first deadline always belongs to a pending task, so the branch that
      skips a stale deadline is never taken. */
  lemma NoStaleDeadline(s: Slots, held: Option<Task>, d: Deadline)
    requires Agree(s, held) && d in s.deadlines
    ensures d.key in s.pending && DeadlineOf(s.pending[d.key]) == d
  {
  }

  lemma TakeDueAgrees(s: Slots, d: Deadline, now: int)
    requires Agree(s, None) && d in s.deadlines
    ensures var (next, taken) := TakeDue(s, d, now);
            && Agree(next, taken)
            && (taken.Some? <==> d.at <= now)
            && (taken.Some? ==> taken.value == s.pending[d.key] && IsCurrent(next, d.key, taken.value.generation) && taken.value.nextCheckAt <= now)
  {
    hide KeyOf;
    NoStaleDeadline(s, None, d);
    if d.at <= now { TakeIndex(s, d, now); }
  }

  lemma TakeIndex(s: Slots, d: Deadline, now: int)
    requires IndexIsExact(s) && KeysAgree(s) && d.key in s.pending && DeadlineOf(s.pending[d.key]) == d && d.at <= now
    ensures IndexIsExact(TakeDue(s, d, now).0)
  {
    var next := TakeDue(s, d, now).0;
    forall k | k in next.pending ensures DeadlineOf(next.pending[k]) in next.deadlines {
      assert DeadlineOf(s.pending[k]) in s.deadlines;
      assert DeadlineOf(s.pending[k]).key == k;
    }
    forall x | x in next.deadlines ensures exists k :: k in next.pending && DeadlineOf(next.pending[k]) == x {
      var k :| k in s.pending && DeadlineOf(s.pending[k]) == x;
      assert k in next.pending;
    }
  }

  /** A polled task keeps its key, generation, event source and path. */
  lemma PollKeepsIdentity(task: Task, o: SettleOptions, sample: Sample)
    ensures var next := Poll(task, o, sample).1;
            && next.key == task.key && next.generation == task.generation
            && next.event == task.event.(diagnostics := next.event.diagnostics)
            && KeyOf(next.event) == KeyOf(task.event)
  {
  }

  lemma AgreeForPolled(s: Slots, task: Task, next: Task)
    requires Agree(s, Some(task))
    requires next.key == task.key && next.generation == task.generation && KeyOf(next.event) == KeyOf(task.event)
    requires next.event.source == task.event.source
    ensures Agree(s, Some(next))
  {
    hide KeyOf;
  }

  /** Dropping a task that is not current leaves the indexes in agreement. */
  lemma DropSuperseded(s: Slots, task: Task)
    requires Agree(s, Some(task)) && !IsCurrent(s, task.key, task.generation)
    ensures Agree(s, None)
  {
  }

  lemma AgreeUnderNewWatch(s: Slots, held: Option<Task>, id: nat, settle: Option<SettleOptions>)
    requires Agree(s, held) && id !in s.watches && (held.Some? ==> held.value.event.source != id)
    ensures Agree(s.(watches := s.watches[id := settle]), held)
  {
    hide KeyOf;
  }

  lemma TakeNextKeeps(y: System, first: Deadline, now: int)
    requires Invariant(y)
    ensures Invariant(Act(y, TakeNext(first, now)).0)
  {
    hide Agree, KeyOf, TakeDue;
    var s := y.slots;
    if y.worker.Idle? && !s.stopped && s.pending != map[] && IsFirstDeadline(s.deadlines, first) {
      TakeDueAgrees(s, first, now);
      NoStaleDeadline(s, None, first);
      TakeDueFrame(s, first, now);
      if first.at <= now { PendingIsOwned(s, None, first.key); }
    }
  }

  lemma PendingIsOwned(s: Slots, held: Option<Task>, k: string)
    requires Agree(s, held) && k in s.pending
    ensures Owned(s, s.pending[k])
  {
  }

  lemma TakeDueFrame(s: Slots, d: Deadline, now: int)
    ensures TakeDue(s, d, now).0.watches == s.watches && TakeDue(s, d, now).0.stopped == s.stopped
  {
  }

  lemma FinishKeeps(y: System)
    requires Invariant(y)
    ensures Invariant(Act(y, Finish).0)
  {
    hide Agree, KeyOf;
    var s := y.slots;
    if y.worker.Polled? && !s.stopped {
      var task := y.worker.task;
      if IsCurrent(s, task.key, task.generation) {
        CompleteAgrees(s, task);
        RescheduleAgrees(s, task);
      } else {
        DropSuperseded(s, task);
      }
    }
  }

  lemma PollKeeps(y: System, sample: Sample)
    requires Invariant(y)
    ensures Invariant(Act(y, PollFile(sample)).0)
  {
    hide Agree, KeyOf, Poll;
    var s := y.slots;
    if y.worker.Polling? && Settles(s, y.worker.task.event.source) {
      var task, o := y.worker.task, s.watches[y.worker.task.event.source].value;
      PollKeepsIdentity(task, o, sample);
      if !s.stopped { AgreeForPolled(s, task, Poll(task, o, sample).1); }
    }
  }

  lemma AdmitKeeps(y: System, now: int)
    requires Invariant(y)
    ensures Invariant(Act(y, Admit(now)).0)
  {
    hide Agree, KeyOf, IsOverCapacity;
    if y.routing.ToSettle? && !y.slots.stopped { EnqueueAgrees(y.slots, Held(y), y.routing.event, now); }
  }

  lemma CheckKeeps(y: System)
    requires Invariant(y)
    ensures Invariant(Act(y, CheckCurrent).0)
  {
    hide Agree, KeyOf, IsCurrent;
    if y.worker.Holding? && !y.slots.stopped && !IsCurrent(y.slots, y.worker.task.key, y.worker.task.generation) {
      DropSuperseded(y.slots, y.worker.task);
    }
  }

  /** Every critical section, of every thread, keeps the invariant. */
  lemma ActKeepsInvariant(y: System, a: Action)
    requires Invariant(y)
    ensures Invariant(Act(y, a).0)
  {
    hide Agree, KeyOf, StartsWith, Poll, IsFirstDeadline, TakeDue, EnqueueForSettle, Reschedule, Complete;
    match a {
      case AddWatch(settle, accepted) =>
        if !y.slots.stopped && accepted { AgreeUnderNewWatch(y.slots, Held(y), y.nextId, settle); }
      case DropWatch(id, known) => if known && !y.slots.stopped { CancelAgrees(y.slots, Held(y), id); }
      case Admit(now) => AdmitKeeps(y, now);
      case TakeNext(first, now) => TakeNextKeeps(y, first, now);
      case CheckCurrent => CheckKeeps(y);
      case PollFile(sample) => PollKeeps(y, sample);
      case Finish => FinishKeeps(y);
      case _ =>
    }
  }

  // ----- what the stage does with an event, in full

  /** Which events settle: a new or changed entry that is not a directory, under a watch
      with settle options. */
  lemma ClassifiedExactly(y: System)
    requires y.routing.Active?
    ensures var e, next := y.routing.event, Act(y, Classify).0;
            && next.slots == y.slots && next.worker == y.worker && Act(y, Classify).1 == None
            && next.routing == if (e.kind == Created || e.kind == Modified || e.kind == RenamedNew) && e.pathType != Directory
                                  && e.source in y.slots.watches && y.slots.watches[e.source] != None
                               then ToSettle(e) else ToQueue(e)
  {
  }

  /** What the stage is asked to take: nothing once it is stopped or the watch is gone;
      an event that would open a slot although all are taken becomes a demand for a
      rescan; any other is scheduled after exactly its debounce time, anew. */
  lemma AdmittedExactly(y: System, now: int)
    requires y.routing.ToSettle?
    ensures var (next, out) := Act(y, Admit(now));
            var e, s := y.routing.event, y.slots;
            var key := Decimal(e.source) + "\n" + e.path;
            && next.routing == NoEvent && next.worker == y.worker && next.slots.watches == s.watches
            && if s.stopped || e.source !in s.watches || s.watches[e.source] == None then out == None && next.slots == s
               else
                 var o := s.watches[e.source].value;
                 if key !in s.generations && |s.generations| >= o.maxPendingPaths then
                   && next.slots == s
                   && out == Some(e.(kind := Overflow, state := Degraded, rescan := true,
                                     diagnostics := [Diagnostic(QueueOverflow, CapacityExceeded(o.maxPendingPaths))]))
                 else
                   && out == None && Scheduled(s, next.slots, key, e)
                   && next.slots.pending[key].nextCheckAt == now + if o.debounceFor > 0 then o.debounceFor else 0
  {
  }

  /** Only this key changes: its task is fresh and its generation is raised by one. */
  predicate Scheduled(was: Slots, now: Slots, key: string, e: Event) {
    && key in now.pending && key in now.generations
    && now.pending == was.pending[key := now.pending[key]] && now.generations == was.generations[key := now.generations[key]]
    && now.pending[key].event == e && now.pending[key].key == key && Fresh(now.pending[key])
    && now.generations[key] == now.pending[key].generation == (if key in was.generations then was.generations[key] else 0) + 1
  }

  /** The deadline that is taken first is the earliest, and is taken once it has come. */
  lemma EarliestIsTaken(s: Slots, held: Option<Task>, first: Deadline, now: int)
    requires Agree(s, held) && IsFirstDeadline(s.deadlines, first)
    ensures forall k | k in s.pending :: first.at <= s.pending[k].nextCheckAt
    ensures TakeDue(s, first, now).1.Some? <==> first.at <= now
    ensures first.at <= now ==> TakeDue(s, first, now).1.value == s.pending[first.key] && TakeDue(s, first, now).0.pending == s.pending - {first.key}
  {
    hide KeyOf;
    NoStaleDeadline(s, held, first);
    forall k | k in s.pending ensures first.at <= s.pending[k].nextCheckAt {
      assert DeadlineOf(s.pending[k]) in s.deadlines;
    }
  }

  /** What removing a watch takes from the stage: exactly the work of that watch. */
  lemma CancelledExactly(s: Slots, held: Option<Task>, id: nat)
    requires Agree(s, held)
    ensures var next := RemoveWatch(s, id);
            && next.watches == s.watches - {id} && next.stopped == s.stopped
            && forall k | k in s.pending ::
                 && (k in next.pending <==> s.pending[k].event.source != id)
                 && (k in next.pending ==> next.pending[k] == s.pending[k] && k in next.generations && next.generations[k] == s.generations[k])
  {
    hide StartsWith, Prefix, KeyOf;
    forall k | k in s.pending ensures StartsWith(k, Prefix(id)) <==> s.pending[k].event.source == id {
      PrefixOfTask(s.pending[k], id);
    }
  }

  predicate IsCurrentTask(s: Slots, task: Task) {
    !s.stopped && task.key in s.generations && s.generations[task.key] == task.generation
  }

  /** What the worker does with a polled task: a current one that is to be delivered gives
      up its slot and is handed over, a current one that is not is put back as it is, and
      one that is not current is dropped. */
  lemma FinishedExactly(y: System)
    requires y.worker.Polled?
    ensures var (next, out) := Act(y, Finish);
            var s, task := y.slots, y.worker.task;
            && out == None && next.routing == y.routing && next.nextId == y.nextId
            && if !IsCurrentTask(s, task) then next.slots == s && next.worker == Idle
               else if y.worker.verdict == Deliver then
                 && next.worker == Delivering(task.event)
                 && next.slots == s.(generations := s.generations - {task.key}, pending := s.pending - {task.key})
               else
                 && next.worker == Idle && next.slots.pending == s.pending[task.key := task]
                 && next.slots.generations == s.generations && next.slots.watches == s.watches && !next.slots.stopped
                 && Deadline(task.nextCheckAt, task.key, task.generation) in next.slots.deadlines
  {
  }

  /** Before that: a held task is polled only if it is current, under the options its watch
      has now, and skipped if the watch is gone. */
  lemma PolledExactly(y: System, sample: Sample)
    ensures y.worker.Holding? ==>
              Act(y, CheckCurrent) ==
              (y.(worker := if y.slots.stopped then Ended
                            else if IsCurrentTask(y.slots, y.worker.task) then Polling(y.worker.task) else Idle), None)
    ensures y.worker.Polling? ==>
              var task := y.worker.task;
              Act(y, PollFile(sample)) ==
              (y.(worker := if task.event.source in y.slots.watches && y.slots.watches[task.event.source] != None then
                              var (verdict, next) := Poll(task, y.slots.watches[task.event.source].value, sample); Polled(verdict, next)
                            else Polled(Skip, task)), None)
    ensures y.worker.Delivering? ==> Act(y, ForwardSettled) == (y.(worker := Idle), Some(y.worker.event))
  {
  }

  /** What is accepted: events of active watches until stop; ids count up from one. */
  lemma AcceptedExactly(y: System, e: Event, settle: Option<SettleOptions>, accepted: bool, id: nat, known: bool)
    ensures Act(y, Receive(e)) ==
            if y.routing == NoEvent && !y.slots.stopped && e.source in y.slots.watches then (y.(routing := Active(e)), None) else (y, None)
    ensures y.routing.ToQueue? ==> Act(y, ForwardRouted) == (y.(routing := NoEvent), Some(y.routing.event))
    ensures Act(y, AddWatch(settle, accepted)) ==
            if y.slots.stopped then (y, None)
            else (y.(nextId := y.nextId + 1, slots := if accepted then y.slots.(watches := y.slots.watches[y.nextId := settle]) else y.slots), None)
    ensures !known ==> Act(y, DropWatch(id, known)) == (y, None)
    ensures InitialSystem.nextId == 1 && InitialSystem.slots.watches == map[] && InitialSystem.slots.pending == map[]
  {
  }

  /** Stop is final: afterwards nothing is accepted, scheduled, polled or completed any
      more, and all that still comes out is what a worker had in its hands. */
  lemma NothingAfterStop(y: System, a: Action)
    ensures Act(y, Stop) == (y.(slots := y.slots.(stopped := true)), None)
    ensures y.slots.stopped ==>
              var (next, out) := Act(y, a);
              && next.slots.stopped && next.nextId == y.nextId
              && next.slots.pending.Keys <= y.slots.pending.Keys && next.slots.generations.Keys <= y.slots.generations.Keys
              && next.slots.watches.Keys <= y.slots.watches.Keys
              && (next.routing.Active? ==> y.routing.Active?)
              && (next.worker.Polling? ==> y.worker.Polling?) && (next.worker.Delivering? ==> y.worker.Delivering?)
              && (out.Some? ==> (y.routing.ToQueue? && out == Some(y.routing.event)) || (y.worker.Delivering? && out == Some(y.worker.event)))
  {
    hide Poll, KeyOf, StartsWith, Prefix, IsFirstDeadline;
  }
}
