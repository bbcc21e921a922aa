/** Whole runs of the settle stage: what its history shows in every reachable
    state, and how many slots it can use. */
module SettleHistory {
  import opened Prelude
  import opened Text
  import opened Order
  import opened WatchEvents
  import opened SettleKeys
  import opened SettlePolling
  import opened SettleScheduler

  /** The events of a run that matter to a key. A poll is recorded if the polled task
      is current; a completion records the settled task and the options of its watch. */
  datatype Entry =
    | Scheduled(start: Task)
    | Sampled(key: string, sample: Sample)
    | Cancelled(id: nat)
    | Completed(done: Task, settle: Option<SettleOptions>)

  predicate Concerns(entry: Entry, k: string) {
    match entry
    case Scheduled(start) => start.key == k
    case Sampled(_, _) => false
    case Cancelled(id) => StartsWith(k, Prefix(id))
    case Completed(done, _) => done.key == k
  }

  /** The last entry that decides about a key. */
  function Last(log: seq<Entry>, k: string): Option<Entry> {
    if log == [] then None
    else if Concerns(log[|log| - 1], k) then Some(log[|log| - 1])
    else Last(log[..|log| - 1], k)
  }

  function OptionsFor(s: Slots, id: nat): Option<SettleOptions> {
    if id in s.watches then s.watches[id] else None
  }

  function Logged(y: System, a: Action): seq<Entry> {
    match a
    case DropWatch(id, known) => if known then [Cancelled(id)] else []
    case Admit(now) =>
      if y.routing.ToSettle? && !y.slots.stopped && Settles(y.slots, y.routing.event.source)
         && !IsOverCapacity(y.slots, y.routing.event) then
        [Scheduled(FreshTask(y.slots, y.routing.event, now))]
      else []
    case PollFile(sample) =>
      if y.worker.Polling? && Settles(y.slots, y.worker.task.event.source)
         && IsCurrent(y.slots, y.worker.task.key, y.worker.task.generation) then
        [Sampled(y.worker.task.key, sample)]
      else []
    case Finish =>
      if y.worker.Polled? && y.worker.verdict == Deliver && !y.slots.stopped
         && IsCurrent(y.slots, y.worker.task.key, y.worker.task.generation) then
        [Completed(y.worker.task, OptionsFor(y.slots, y.worker.task.event.source))]
      else []
    case _ => []
  }

  function RunActions(actions: seq<Action>): (System, seq<Entry>) {
    if actions == [] then (InitialSystem, [])
    else
      var (y, log) := RunActions(actions[..|actions| - 1]);
      var a := actions[|actions| - 1];
      (Act(y, a).0, log + Logged(y, a))
  }

  /** The last entry for the key scheduled this very event, with this generation. */
  predicate Owns(log: seq<Entry>, task: Task) {
    var last := Last(log, task.key);
    last.Some? && last.value.Scheduled?
    && last.value.start.event.serial == task.event.serial && last.value.start.generation == task.generation
  }

  /** The owner of each slot is the event scheduled last for its key, and a key
      scheduled last still has its slot. */
  ghost predicate HistoryAgrees(y: System, log: seq<Entry>) {
    && (forall k | k in y.slots.pending :: Owns(log, y.slots.pending[k]))
    && (Held(y).Some? && IsCurrent(y.slots, Held(y).value.key, Held(y).value.generation) ==> Owns(log, Held(y).value))
    && (forall k :: Last(log, k).Some? && Last(log, k).value.Scheduled? ==> k in y.slots.generations)
  }

  /** Every completion is of the event scheduled last for its key, with neither a
      later event, nor a removal of its watch, nor another completion between. */
  predicate CompletionsAreLatest(log: seq<Entry>) {
    forall p | 0 <= p < |log| && log[p].Completed? :: Owns(log[..p], log[p].done)
  }

  lemma LastOfAppend(log: seq<Entry>, entry: Entry, k: string)
    ensures Last(log + [entry], k) == if Concerns(entry, k) then Some(entry) else Last(log, k)
  {
    assert (log + [entry])[..|log|] == log;
  }

  lemma AppendCompletion(log: seq<Entry>, entry: Entry)
    requires CompletionsAreLatest(log)
    requires entry.Completed? ==> Owns(log, entry.done)
    ensures CompletionsAreLatest(log + [entry])
  {
    forall p | 0 <= p < |log + [entry]| && (log + [entry])[p].Completed? ensures Owns((log + [entry])[..p], (log + [entry])[p].done) {
      assert (log + [entry])[..p] == log[..p];
      assert log[..|log|] == log;
    }
  }

  lemma AdmitHistory(y: System, log: seq<Entry>, now: int)
    requires Invariant(y) && !y.slots.stopped && HistoryAgrees(y, log)
    ensures HistoryAgrees(Act(y, Admit(now)).0, log + Logged(y, Admit(now)))
  {
    hide Last, KeyOf, IsOverCapacity;
    var entries := Logged(y, Admit(now));
    if entries == [] {
      assert log + entries == log;
    } else {
      var e := y.routing.event;
      forall k ensures Last(log + entries, k) == if k == KeyOf(e) then Some(entries[0]) else Last(log, k) {
        LastOfAppend(log, entries[0], k);
      }
      if Held(y).Some? && Held(y).value.key == KeyOf(e) {
        SupersedesHeld(y.slots, Held(y).value, e, now);
      }
    }
  }

  /** A later event for the key of the held task supersedes it. */
  lemma SupersedesHeld(s: Slots, task: Task, e: Event, now: int)
    requires Agree(s, Some(task)) && task.key == KeyOf(e)
    requires Settles(s, e.source) && !IsOverCapacity(s, e) && !s.stopped
    ensures !IsCurrent(EnqueueForSettle(s, e, now), task.key, task.generation)
  {
    SameKeySameWatch(task, e);
  }

  lemma DropHistory(y: System, log: seq<Entry>, id: nat)
    requires KeysAgree(y.slots) && HistoryAgrees(y, log)
    ensures HistoryAgrees(Act(y, DropWatch(id, true)).0, log + [Cancelled(id)])
  {
    hide Last, StartsWith, Prefix;
    forall k ensures Last(log + [Cancelled(id)], k) == if StartsWith(k, Prefix(id)) then Some(Cancelled(id)) else Last(log, k) {
      LastOfAppend(log, Cancelled(id), k);
    }
  }

  lemma FinishHistory(y: System, log: seq<Entry>)
    requires Invariant(y) && !y.slots.stopped && HistoryAgrees(y, log)
    ensures HistoryAgrees(Act(y, Finish).0, log + Logged(y, Finish))
  {
    hide Last, KeyOf, Poll;
    var entries := Logged(y, Finish);
    if entries == [] {
      assert log + entries == log;
    } else {
      var task := y.worker.task;
      CompleteAgrees(y.slots, task);
      forall k ensures Last(log + entries, k) == if k == task.key then Some(entries[0]) else Last(log, k) {
        LastOfAppend(log, entries[0], k);
      }
    }
  }

  lemma CompletesTheLatest(y: System, log: seq<Entry>)
    requires !y.slots.stopped && HistoryAgrees(y, log) && Logged(y, Finish) != []
    ensures var c := Logged(y, Finish)[0]; c.Completed? && Owns(log, c.done)
  {
    hide Last, KeyOf;
  }

  lemma TakeHistory(y: System, log: seq<Entry>, first: Deadline, now: int)
    requires Invariant(y) && !y.slots.stopped && HistoryAgrees(y, log)
    ensures HistoryAgrees(Act(y, TakeNext(first, now)).0, log)
  {
    hide Last, KeyOf, IsFirstDeadline;
    if y.worker.Idle? && y.slots.pending != map[] && IsFirstDeadline(y.slots.deadlines, first) {
      FirstIsMember(y.slots.deadlines, first);
      TakeDueAgrees(y.slots, first, now);
    }
  }

  lemma FirstIsMember(ds: set<Deadline>, d: Deadline)
    requires IsFirstDeadline(ds, d)
    ensures d in ds
  {
  }

  lemma PollHistory(y: System, log: seq<Entry>, sample: Sample)
    requires HistoryAgrees(y, log)
    ensures HistoryAgrees(Act(y, PollFile(sample)).0, log + Logged(y, PollFile(sample)))
  {
    hide Last, KeyOf, Poll;
    var entries := Logged(y, PollFile(sample));
    if entries == [] {
      assert log + entries == log;
    } else {
      forall k ensures Last(log + entries, k) == Last(log, k) { LastOfAppend(log, entries[0], k); }
    }
    if y.worker.Polling? && Settles(y.slots, y.worker.task.event.source) {
      PollKeepsIdentity(y.worker.task, y.slots.watches[y.worker.task.event.source].value, sample);
    }
  }

  lemma KeysOfAgreed(y: System)
    requires Invariant(y) && !y.slots.stopped
    ensures KeysAgree(y.slots)
  {
  }

  lemma StepHistory(y: System, log: seq<Entry>, a: Action)
    requires Invariant(y) && (y.slots.stopped || HistoryAgrees(y, log)) && CompletionsAreLatest(log)
    ensures var next := Act(y, a).0; next.slots.stopped || HistoryAgrees(next, log + Logged(y, a))
    ensures CompletionsAreLatest(log + Logged(y, a))
  {
    hide Last, KeyOf, CompletionsAreLatest, IsOverCapacity, EnqueueForSettle, Reschedule, Complete, TakeDue, Poll, IsFirstDeadline, Agree, Owns;
    assert log + [] == log;
    var entries := Logged(y, a);
    if entries != [] {
      if a.Finish? { CompletesTheLatest(y, log); }
      AppendCompletion(log, entries[0]);
      assert entries == [entries[0]];
    }
    if !y.slots.stopped {
      match a {
        case Admit(now) => AdmitHistory(y, log, now);
        case DropWatch(id, known) =>
          if known {
            KeysOfAgreed(y);
            DropHistory(y, log, id);
          }
        case Finish => FinishHistory(y, log);
        case TakeNext(first, now) => TakeHistory(y, log, first, now);
        case PollFile(sample) => PollHistory(y, log, sample);
        case _ =>
      }
    } else {
      StaysStopped(y, a);
    }
  }

  lemma StaysStopped(y: System, a: Action)
    requires y.slots.stopped
    ensures Act(y, a).0.slots.stopped
  {
  }

  /** In every reachable state of every interleaving: the indexes agree until the
      watcher is stopped, every slot belongs to the event scheduled last for its
      key, and no superseded or cancelled event was ever completed. */
  lemma {:induction false} SettleRuns(actions: seq<Action>)
    ensures var (y, log) := RunActions(actions);
            && Invariant(y)
            && (y.slots.stopped || HistoryAgrees(y, log))
            && CompletionsAreLatest(log)
  {
    hide Invariant, HistoryAgrees, CompletionsAreLatest, Act, Logged;
    if actions == [] {
      InitialHistory();
    } else {
      var (y, log) := RunActions(actions[..|actions| - 1]);
      SettleRuns(actions[..|actions| - 1]);
      ActKeepsInvariant(y, actions[|actions| - 1]);
      StepHistory(y, log, actions[|actions| - 1]);
    }
  }

  lemma InitialHistory()
    ensures Invariant(InitialSystem) && HistoryAgrees(InitialSystem, []) && CompletionsAreLatest([])
  {
  }

  /** No scheduled work is lost: before stop, a key whose last event was scheduled
      and neither completed nor cancelled is pending under its deadline, or is
      the settle task that the worker holds. */
  lemma ScheduledWorkIsKept(actions: seq<Action>, k: string)
    requires var (y, log) := RunActions(actions);
             !y.slots.stopped && Last(log, k).Some? && Last(log, k).value.Scheduled?
    ensures var (y, log) := RunActions(actions);
            || (k in y.slots.pending && DeadlineOf(y.slots.pending[k]) in y.slots.deadlines
                && y.slots.pending[k].event.serial == Last(log, k).value.start.event.serial)
            || (Held(y).Some? && Held(y).value.key == k && Held(y).value.event.serial == Last(log, k).value.start.event.serial)
  {
    hide RunActions, Last, KeyOf;
    SettleRuns(actions);
  }

  /** An event routed to the settle stage finds the options it was routed by. */
  lemma RoutedEventsSettle(actions: seq<Action>)
    ensures var y := RunActions(actions).0;
            y.routing.ToSettle? && y.routing.event.source in y.slots.watches ==> Settles(y.slots, y.routing.event.source)
  {
    hide RunActions, Agree, HistoryAgrees, CompletionsAreLatest;
    SettleRuns(actions);
  }

  // ----- progress of the due loop

  lemma DeadlineTotal(a: Deadline, b: Deadline)
    ensures DeadlineLe(a, b) || DeadlineLe(b, a)
  {
    LexTotal(a.key, b.key);
  }

  lemma DeadlineTransitive(a: Deadline, b: Deadline, c: Deadline)
    requires DeadlineLe(a, b) && DeadlineLe(b, c)
    ensures DeadlineLe(a, c)
  {
    if a.key != b.key && b.key != c.key && LexLe(a.key, b.key) && LexLe(b.key, c.key) {
      LexTransitive(a.key, b.key, c.key);
      if a.key == c.key { LexAntisymmetric(a.key, b.key); }
    }
  }

  lemma {:induction false} FirstDeadlineExists(ds: set<Deadline>) returns (d: Deadline)
    requires ds != {}
    ensures IsFirstDeadline(ds, d)
  {
    hide DeadlineLe;
    var one :| one in ds;
    var rest := ds - {one};
    d := one;
    DeadlineTotal(one, one);
    assert forall x | x in ds :: x == one || x in rest;
    if rest != {} {
      var n := FirstDeadlineExists(rest);
      DeadlineTotal(one, n);
      if DeadlineLe(one, n) {
        forall x | x in rest ensures DeadlineLe(one, x) { DeadlineTransitive(one, n, x); }
      } else {
        d := n;
      }
    }
  }

  /** The worker never spins: with work pending there is a first deadline, it is
      the deadline of a pending task, and once it is due that task is taken. */
  lemma WorkerMakesProgress(actions: seq<Action>, now: int) returns (first: Deadline)
    requires var y := RunActions(actions).0; y.worker.Idle? && !y.slots.stopped && y.slots.pending != map[]
    ensures var y := RunActions(actions).0;
            && IsFirstDeadline(y.slots.deadlines, first)
            && first.key in y.slots.pending && DeadlineOf(y.slots.pending[first.key]) == first
            && (first.at <= now ==> Act(y, TakeNext(first, now)).0.worker == Holding(y.slots.pending[first.key]))
  {
    hide RunActions, HistoryAgrees, CompletionsAreLatest, KeyOf, DeadlineLe;
    SettleRuns(actions);
    var y := RunActions(actions).0;
    var k :| k in y.slots.pending;
    assert DeadlineOf(y.slots.pending[k]) in y.slots.deadlines;
    first := FirstDeadlineExists(y.slots.deadlines);
    NoStaleDeadline(y.slots, None, first);
    TakeDueAgrees(y.slots, first, now);
  }

  // ----- capacity

  function CapacityOf(s: Slots, id: nat): nat {
    if Settles(s, id) then s.watches[id].value.maxPendingPaths else 0
  }

  predicate Selected(k: string, ids: set<nat>) {
    exists id :: id in ids && StartsWith(k, Prefix(id))
  }

  function KeysOf(s: Slots, ids: set<nat>): set<string> {
    set k | k in s.generations && Selected(k, ids)
  }

  predicate Within(s: Slots, ids: set<nat>, limit: nat) {
    ids != {} && ids <= s.watches.Keys && (forall id | id in ids :: CapacityOf(s, id) <= limit) ==> |KeysOf(s, ids)| <= limit
  }

  /** Any group of active watches uses at most as many slots as the largest
      limit in the group, although each limit is checked against all slots. */
  ghost predicate WithinCapacity(s: Slots) {
    forall ids: set<nat>, limit: nat :: Within(s, ids, limit)
  }

  lemma {:induction false} SubsetSize<T>(a: set<T>, b: set<T>)
    requires a <= b
    ensures |a| <= |b|
  {
    if a != {} {
      var x :| x in a;
      SubsetSize(a - {x}, b - {x});
    }
  }

  lemma FewerSlots(s: Slots, t: Slots)
    requires WithinCapacity(s) && t.generations.Keys <= s.generations.Keys && t.watches.Keys <= s.watches.Keys
    requires forall id | id in t.watches :: t.watches[id] == s.watches[id]
    ensures WithinCapacity(t)
  {
    hide Selected;
    forall ids: set<nat>, limit: nat ensures Within(t, ids, limit) {
      if ids != {} && ids <= t.watches.Keys && forall id | id in ids :: CapacityOf(t, id) <= limit {
        assert Within(s, ids, limit);
        assert forall id | id in ids :: CapacityOf(s, id) == CapacityOf(t, id);
        SubsetSize(KeysOf(t, ids), KeysOf(s, ids));
      }
    }
  }

  /** The keys a group selects do not change when a key of another watch is added. */
  lemma SelectedKey(e: Event, ids: set<nat>)
    ensures Selected(KeyOf(e), ids) <==> e.source in ids
  {
    hide StartsWith, Prefix;
    forall id ensures StartsWith(KeyOf(e), Prefix(id)) <==> id == e.source { PrefixSelects(id, e.source, e.path); }
  }

  lemma MoreKeys(s: Slots, e: Event, now: int)
    requires WithinCapacity(s)
    ensures WithinCapacity(EnqueueForSettle(s, e, now))
  {
    hide Selected, KeyOf;
    var t := EnqueueForSettle(s, e, now);
    if !s.stopped && Settles(s, e.source) && !IsOverCapacity(s, e) {
      forall ids: set<nat>, limit: nat ensures Within(t, ids, limit) {
        SelectedKey(e, ids);
        assert Within(s, ids, limit);
        assert t.generations.Keys == s.generations.Keys + {KeyOf(e)};
        if ids != {} && ids <= t.watches.Keys && (forall id | id in ids :: CapacityOf(t, id) <= limit) {
          assert forall id | id in ids :: CapacityOf(s, id) == CapacityOf(t, id);
          if KeyOf(e) in s.generations || e.source !in ids {
            assert KeysOf(t, ids) == KeysOf(s, ids);
          } else {
            assert CapacityOf(s, e.source) <= limit;
            SubsetSize(KeysOf(t, ids), t.generations.Keys);
            assert |t.generations.Keys| == |s.generations.Keys| + 1 == |s.generations| + 1;
          }
        }
      }
    }
  }

  lemma NewWatch(s: Slots, held: Option<Task>, id: nat, settle: Option<SettleOptions>)
    requires WithinCapacity(s) && Agree(s, held) && id !in s.watches
    ensures WithinCapacity(s.(watches := s.watches[id := settle]))
  {
    var t := s.(watches := s.watches[id := settle]);
    forall k | k in s.generations ensures !StartsWith(k, Prefix(id)) {
      var task := if k in s.pending then s.pending[k] else held.value;
      assert task.key == k && Owned(s, task);
      PrefixOfTask(task, id);
    }
    hide StartsWith, Prefix, Agree;
    forall ids: set<nat>, limit: nat ensures Within(t, ids, limit) {
      if ids != {} && ids <= t.watches.Keys && (forall i | i in ids :: CapacityOf(t, i) <= limit) {
        var others := ids - {id};
        assert KeysOf(t, ids) == KeysOf(s, others) by {
          assert forall k | k in s.generations :: Selected(k, ids) <==> Selected(k, others);
        }
        assert forall i | i in others :: CapacityOf(s, i) == CapacityOf(t, i);
        assert Within(s, others, limit);
        if others == {} { assert KeysOf(s, others) == {}; }
      }
    }
  }

  lemma SameSlots(s: Slots, t: Slots)
    requires WithinCapacity(s) && t.generations == s.generations && t.watches == s.watches
    ensures WithinCapacity(t)
  {
    FewerSlots(s, t);
  }

  lemma StepCapacity(y: System, a: Action)
    requires Invariant(y) && WithinCapacity(y.slots)
    ensures WithinCapacity(Act(y, a).0.slots)
  {
    hide WithinCapacity, KeyOf, IsOverCapacity, EnqueueForSettle, Poll, IsFirstDeadline, Agree, StartsWith;
    var s, t := y.slots, Act(y, a).0.slots;
    match a {
      case AddWatch(settle, accepted) => if !s.stopped && accepted { NewWatch(s, Held(y), y.nextId, settle); }
      case DropWatch(id, known) => if known { FewerSlots(s, t); }
      case Stop => SameSlots(s, t);
      case Admit(now) => if y.routing.ToSettle? { MoreKeys(s, y.routing.event, now); }
      case TakeNext(_, _) => SameSlots(s, t);
      case Finish => FewerSlots(s, t);
      case _ =>
    }
  }

  /** The capacity bound holds in every reachable state. */
  lemma {:induction false} CapacityInEveryRun(actions: seq<Action>)
    ensures WithinCapacity(RunActions(actions).0.slots)
  {
    hide Act, Logged, WithinCapacity;
    if actions == [] {
      NothingUsed();
    } else {
      SettleRuns(actions[..|actions| - 1]);
      CapacityInEveryRun(actions[..|actions| - 1]);
      StepCapacity(RunActions(actions[..|actions| - 1]).0, actions[|actions| - 1]);
    }
  }

  lemma NothingUsed()
    ensures WithinCapacity(InitialSystem.slots)
  {
    forall ids: set<nat>, limit: nat ensures Within(InitialSystem.slots, ids, limit) {
      assert KeysOf(InitialSystem.slots, ids) == {};
    }
  }
}
