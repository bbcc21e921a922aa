/** The sync client's adapter: it turns watcher events into a bounded set of
    candidate paths, or into the demand for a full rescan. */
module OverloadAdapter {
  import opened Prelude
  import opened WatchEvents

  datatype FileRecord = FileRecord(present: bool, size: nat, version: string)

  datatype Reason = Disappeared | NewFile | AbsentInBoth | VersionChanged | SizeChanged | MatchesKnown

  datatype Decision = Decision(path: string, needsSync: bool, reason: Reason)

  function ReasonForChange(known: Option<FileRecord>, current: Option<FileRecord>): Reason {
    match (known, current)
    case (Some(_), None) => Disappeared
    case (None, Some(_)) => NewFile
    case (None, None) => AbsentInBoth
    case (Some(k), Some(c)) =>
      if k.version != c.version then VersionChanged
      else if k.size != c.size then SizeChanged
      else MatchesKnown
  }

  predicate Differs(known: Option<FileRecord>, current: Option<FileRecord>) {
    match (known, current)
    case (None, None) => false
    case (Some(k), Some(c)) => k.present != c.present || k.size != c.size || k.version != c.version
    case _ => true
  }

  function Validated(path: string, known: map<string, FileRecord>, current: map<string, Option<FileRecord>>): Decision {
    var was := if path in known then Some(known[path]) else None;
    var now := if path in current then current[path] else was;
    Decision(path, Differs(was, now), ReasonForChange(was, now))
  }

  /** A path needs no sync exactly when its final state equals the known one; the
      reported reason misses exactly the case where only `present` differs. */
  lemma ValidationIsExact(path: string, known: map<string, FileRecord>, current: map<string, Option<FileRecord>>)
    ensures var was := if path in known then Some(known[path]) else None;
            var now := if path in current then current[path] else was;
            var d := Validated(path, known, current);
            && (!d.needsSync <==> was == now)
            && (d.needsSync && d.reason == MatchesKnown <==>
                  was.Some? && now.Some? && was.value.(present := true) == now.value.(present := true) && was != now)
  {
  }

  /** What each reason says of the known and the final state. */
  lemma ReasonIs(path: string, known: map<string, FileRecord>, current: map<string, Option<FileRecord>>)
    ensures var was := if path in known then Some(known[path]) else None;
            var now := if path in current then current[path] else was;
            var reason := Validated(path, known, current).reason;
            && (reason == Disappeared <==> was != None && now == None)
            && (reason == NewFile <==> was == None && now != None)
            && (reason == AbsentInBoth <==> was == None && now == None)
            && (reason == VersionChanged <==> was != None && now != None && was.value.version != now.value.version)
            && (reason == SizeChanged <==>
                  was != None && now != None && was.value.version == now.value.version && was.value.size != now.value.size)
            && (reason == MatchesKnown <==>
                  was != None && now != None && was.value.version == now.value.version && was.value.size == now.value.size)
  {
  }

  // ----- the adapter

  datatype Adapter = Adapter(limit: nat, raw: nat, overflows: nat, dropped: nat, fullRescan: bool, pending: map<string, Event>)

  function FileName(path: string): string {
    if path == "" || path[|path| - 1] == '/' then "" else FileName(path[..|path| - 1]) + [path[|path| - 1]]
  }

  /** The path a signal is filed under. */
  function Target(e: Event): string {
    match e.relative case Some(r) => r case None => FileName(e.path)
  }

  /** The events after which only a full rescan can be trusted. */
  predicate DemandsRescan(e: Event) {
    e.rescan || e.kind == Overflow || e.kind == Error || Target(e) == ""
  }

  function NewAdapter(limit: nat): Adapter {
    Adapter(if limit < 1 then 1 else limit, 0, 0, 0, false, map[])
  }

  function Ingest(a: Adapter, e: Event): Adapter {
    var seen := a.(raw := a.raw + 1);
    if DemandsRescan(e) then seen.(overflows := a.overflows + 1, fullRescan := true)
    else if a.fullRescan then seen.(dropped := a.dropped + 1)
    else if |a.pending| >= a.limit && Target(e) !in a.pending then seen.(dropped := a.dropped + 1, fullRescan := true)
    else seen.(pending := a.pending[Target(e) := e])
  }

  function Flushed(a: Adapter): Adapter {
    a.(raw := 0, overflows := 0, dropped := 0, fullRescan := false, pending := map[])
  }

  // ----- what the adapter holds after any events

  function IngestAll(limit: nat, events: seq<Event>): Adapter {
    if events == [] then NewAdapter(limit) else Ingest(IngestAll(limit, events[..|events| - 1]), events[|events| - 1])
  }

  function Targets(events: seq<Event>): set<string> {
    set i | 0 <= i < |events| :: Target(events[i])
  }

  predicate Overwhelms(limit: nat, events: seq<Event>) {
    (exists i :: 0 <= i < |events| && DemandsRescan(events[i])) || |Targets(events)| > NewAdapter(limit).limit
  }

  /** How many events come before the one that overwhelms the adapter. */
  function Calm(limit: nat, events: seq<Event>): nat {
    if events == [] then 0
    else if Overwhelms(limit, events) then Calm(limit, events[..|events| - 1])
    else |events|
  }

  function Demands(events: seq<Event>): nat {
    if events == [] then 0 else Demands(events[..|events| - 1]) + (if DemandsRescan(events[|events| - 1]) then 1 else 0)
  }

  predicate Accounts(a: Adapter, limit: nat, events: seq<Event>) {
    && a.limit == NewAdapter(limit).limit && |a.pending| <= a.limit
    && a.raw == |events| && a.overflows == Demands(events)
    && a.overflows + a.dropped + Calm(limit, events) == |events|
    && (a.fullRescan <==> Overwhelms(limit, events))
    && (!a.fullRescan ==> a.pending.Keys == Targets(events) && a.dropped == 0 && a.overflows == 0)
  }

  lemma TargetsOfMore(events: seq<Event>)
    requires events != []
    ensures Targets(events) == Targets(events[..|events| - 1]) + {Target(events[|events| - 1])}
  {
    hide Target;
    var before := events[..|events| - 1];
    forall t | t in Targets(events) ensures t in Targets(before) + {Target(events[|events| - 1])} {
      var i :| 0 <= i < |events| && Target(events[i]) == t;
      if i < |before| { assert before[i] == events[i]; }
    }
    forall t | t in Targets(before) ensures t in Targets(events) {
      var i :| 0 <= i < |before| && Target(before[i]) == t;
      assert events[i] == before[i];
    }
  }

  /** One more event overwhelms the adapter if the earlier ones did, if it demands a
      rescan, or if its path is one too many. */
  lemma OverwhelmsMore(limit: nat, events: seq<Event>)
    requires events != []
    ensures var before, e := events[..|events| - 1], events[|events| - 1];
            Overwhelms(limit, events) <==>
            Overwhelms(limit, before) || DemandsRescan(e) || |Targets(before) + {Target(e)}| > NewAdapter(limit).limit
  {
    hide DemandsRescan, Target, Targets;
    var before, e := events[..|events| - 1], events[|events| - 1];
    TargetsOfMore(events);
    if Targets(before) + {Target(e)} == Targets(before) {} else { assert |Targets(before) + {Target(e)}| == |Targets(before)| + 1; }
    if exists i :: 0 <= i < |before| && DemandsRescan(before[i]) {
      var i :| 0 <= i < |before| && DemandsRescan(before[i]);
      assert DemandsRescan(events[i]);
    }
    if exists i :: 0 <= i < |events| && DemandsRescan(events[i]) {
      var i :| 0 <= i < |events| && DemandsRescan(events[i]);
      if i < |before| { assert DemandsRescan(before[i]); }
    }
  }

  /** After any events: a full rescan is demanded exactly if one of them demands it or
      their paths are too many; otherwise the candidates are exactly their paths;
      never more than the limit; and every event is counted once. */
  lemma {:induction false} AdapterAccounts(limit: nat, events: seq<Event>)
    ensures Accounts(IngestAll(limit, events), limit, events)
  {
    hide DemandsRescan, Target, Overwhelms, Targets;
    if events == [] {
      NothingOverwhelms(limit);
    } else {
      AdapterAccounts(limit, events[..|events| - 1]);
      TargetsOfMore(events);
      OverwhelmsMore(limit, events);
    }
  }

  /** The path an event names: its relative path, or the name of its file. */
  predicate NamesPath(e: Event, t: string) {
    e.relative == Some(t) ||
    (e.relative == None && '/' !in t && |t| <= |e.path| && e.path[|e.path| - |t|..] == t &&
     (|t| < |e.path| ==> e.path[|e.path| - |t| - 1] == '/'))
  }

  lemma SlashFree(path: string, t: string)
    requires '/' !in t && |t| <= |path| && path[|path| - |t|..] == t
    ensures forall k | |path| - |t| <= k < |path| :: path[k] != '/'
  {
    forall k | |path| - |t| <= k < |path| ensures path[k] != '/' { assert path[k] == t[k - (|path| - |t|)]; }
  }

  lemma TargetIs(e: Event, t: string)
    ensures NamesPath(e, t) <==> t == Target(e)
  {
    if e.relative == None {
      FileNameIs(e.path);
      SlashFree(e.path, FileName(e.path));
      if NamesPath(e, t) { SlashFree(e.path, t); }
    }
  }

  predicate IsCalm(e: Event) {
    !e.rescan && e.kind != Overflow && e.kind != Error && !NamesPath(e, "")
  }

  /** When no rescan is demanded, of the events themselves: each is calm, and they name
      no more paths than the limit, which is at least one. Each candidate then holds
      the last event that names it. */
  lemma RescanExactly(limit: nat, events: seq<Event>)
    ensures var a := IngestAll(limit, events);
            && (!a.fullRescan <==>
                  (forall e | e in events :: IsCalm(e)) && |Targets(events)| <= if limit == 0 then 1 else limit)
            && |a.pending| <= if limit == 0 then 1 else limit
    ensures forall t: string :: t in Targets(events) <==> exists e :: e in events && NamesPath(e, t)
  {
    hide Target, NamesPath, IngestAll;
    AdapterAccounts(limit, events);
    forall e ensures DemandsRescan(e) <==> !IsCalm(e) { TargetIs(e, ""); }
    forall e, t ensures NamesPath(e, t) <==> t == Target(e) { TargetIs(e, t); }
    forall e | e in events ensures exists i :: 0 <= i < |events| && events[i] == e {}
    forall i | 0 <= i < |events| ensures events[i] in events {}
    forall t: string ensures t in Targets(events) <==> exists e :: e in events && NamesPath(e, t) {
      if e :| e in events && NamesPath(e, t) { var i :| 0 <= i < |events| && events[i] == e; }
      if t in Targets(events) { var i :| 0 <= i < |events| && Target(events[i]) == t; assert events[i] in events && NamesPath(events[i], t); }
    }
  }

  lemma {:induction false} LastIsHeld(limit: nat, events: seq<Event>, t: string) returns (i: nat)
    requires var a := IngestAll(limit, events); !a.fullRescan && t in a.pending
    ensures i < |events| && IngestAll(limit, events).pending[t] == events[i] && NamesPath(events[i], t)
    ensures forall j | i < j < |events| :: !NamesPath(events[j], t)
  {
    hide NamesPath, Target;
    var n := |events| - 1;
    var before, e := events[..n], events[n];
    TargetIs(e, t);
    if Target(e) == t {
      i := n;
    } else {
      i := LastIsHeld(limit, before, t);
      assert forall j | i <= j < n :: events[j] == before[j];
    }
  }

  lemma NothingOverwhelms(limit: nat)
    ensures !Overwhelms(limit, []) && Targets([]) == {}
  {
  }

  /** A file name is what follows the last slash. */
  lemma {:induction false} FileNameIs(path: string)
    ensures var name := FileName(path);
            && '/' !in name && |name| <= |path| && path[|path| - |name|..] == name
            && (|name| < |path| ==> path[|path| - |name| - 1] == '/')
  {
    if path != "" && path[|path| - 1] != '/' { FileNameIs(path[..|path| - 1]); }
  }

  datatype Batch = Batch(
    raw: nat, candidates: nat, validated: nat, syncItems: nat, spurious: nat, overflows: nat, dropped: nat,
    logLines: nat, fullRescan: bool, decisions: seq<Decision>)

  function CountSync(ds: seq<Decision>): nat {
    if ds == [] then 0 else CountSync(ds[..|ds| - 1]) + (if ds[|ds| - 1].needsSync then 1 else 0)
  }

  /** One decision for each of the paths, in some order, and each the validation
      of its path. */
  predicate DecidesExactly(ds: seq<Decision>, paths: set<string>, known: map<string, FileRecord>, current: map<string, Option<FileRecord>>) {
    && (forall i | 0 <= i < |ds| :: ds[i].path in paths && ds[i] == Validated(ds[i].path, known, current))
    && (forall i, j | 0 <= i < j < |ds| :: ds[i].path != ds[j].path)
    && (forall path | path in paths :: exists i :: 0 <= i < |ds| && ds[i].path == path)
  }

  lemma OneMoreDecision(ds: seq<Decision>, paths: set<string>, path: string,
                        known: map<string, FileRecord>, current: map<string, Option<FileRecord>>)
    requires DecidesExactly(ds, paths, known, current) && path !in paths
    ensures DecidesExactly(ds + [Validated(path, known, current)], paths + {path}, known, current)
  {
    var next := ds + [Validated(path, known, current)];
    forall p | p in paths + {path} ensures exists i :: 0 <= i < |next| && next[i].path == p {
      if p == path {
        assert next[|ds|].path == p;
      } else {
        var i :| 0 <= i < |ds| && ds[i].path == p;
        assert next[i].path == p;
      }
    }
  }

  class SyncTreeSnapshot {
    var known: map<string, FileRecord>
    var current: map<string, Option<FileRecord>>

    constructor ()
      ensures known == map[] && current == map[]
    {
      known, current := map[], map[];
    }

    method Remember(path: string, record: FileRecord)
      modifies `known
      ensures known == old(known)[path := record]
    {
      known := known[path := record];
    }

    method SetCurrent(path: string, record: Option<FileRecord>)
      modifies `current
      ensures current == old(current)[path := record]
    {
      current := current[path := record];
    }
  }

  class WatcherOverloadAdapter {
    var limit: nat
    var raw: nat
    var overflows: nat
    var dropped: nat
    var fullRescan: bool
    var pending: map<string, Event>

    function State(): Adapter
      reads this
    {
      Adapter(limit, raw, overflows, dropped, fullRescan, pending)
    }

    constructor (maxPending: nat)
      ensures State() == NewAdapter(maxPending)
    {
      limit := if maxPending < 1 then 1 else maxPending;
      raw, overflows, dropped, fullRescan, pending := 0, 0, 0, false, map[];
    }

    method IngestEvent(e: Event)
      modifies `raw, `overflows, `dropped, `fullRescan, `pending
      ensures State() == Ingest(old(State()), e)
    {
      raw := raw + 1;
      var target := Target(e);
      if e.rescan || e.kind == Overflow || e.kind == Error || target == "" {
        overflows := overflows + 1;
        fullRescan := true;
        return;
      }
      if fullRescan {
        dropped := dropped + 1;
        return;
      }
      if |pending| >= limit && target !in pending {
        dropped := dropped + 1;
        fullRescan := true;
        return;
      }
      pending := pending[target := e];
    }

    method Flush(snapshot: SyncTreeSnapshot) returns (batch: Batch)
      modifies `raw, `overflows, `dropped, `fullRescan, `pending
      ensures State() == Flushed(old(State()))
      ensures batch.fullRescan == old(fullRescan)
      ensures DecidesExactly(batch.decisions, if old(fullRescan) then {} else old(pending).Keys, snapshot.known, snapshot.current)
      ensures batch.raw == old(raw) && batch.overflows == old(overflows) && batch.dropped == old(dropped)
      ensures batch.candidates == |old(pending)| && batch.validated == |batch.decisions| == batch.syncItems + batch.spurious
      ensures batch.syncItems == CountSync(batch.decisions)
      ensures batch.logLines == if old(raw) > 0 || old(fullRescan) then 1 else 0
    {
      hide DecidesExactly;
      var decisions, syncItems, spurious := Decide(if fullRescan then {} else pending.Keys, snapshot);
      var logLines := if raw > 0 || fullRescan then 1 else 0;
      batch := Batch(raw, |pending|, |decisions|, syncItems, spurious, overflows, dropped, logLines, fullRescan, decisions);
      raw, overflows, dropped, fullRescan, pending := 0, 0, 0, false, map[];
    }
  }

  /** The loop of flush over the pending paths. */
  method Decide(paths: set<string>, snapshot: SyncTreeSnapshot) returns (decisions: seq<Decision>, syncItems: nat, spurious: nat)
    ensures DecidesExactly(decisions, paths, snapshot.known, snapshot.current)
    ensures syncItems == CountSync(decisions) && syncItems + spurious == |decisions|
  {
    hide Validated, DecidesExactly;
    decisions, syncItems, spurious := [], 0, 0;
    var unseen := paths;
    ghost var decided: set<string> := {};
    NothingDecided(snapshot.known, snapshot.current);
    while unseen != {}
      invariant unseen + decided == paths
      invariant unseen !! decided
      invariant DecidesExactly(decisions, decided, snapshot.known, snapshot.current)
      invariant syncItems == CountSync(decisions) && syncItems + spurious == |decisions|
      decreases unseen
    {
      var path :| path in unseen;
      var decision := Validated(path, snapshot.known, snapshot.current);
      OneMoreDecision(decisions, decided, path, snapshot.known, snapshot.current);
      if decision.needsSync {
        syncItems := syncItems + 1;
      } else {
        spurious := spurious + 1;
      }
      ghost var before := decisions;
      decisions := decisions + [decision];
      assert decisions[..|decisions| - 1] == before;
      unseen, decided := unseen - {path}, decided + {path};
    }
    assert decided == paths;
  }

  lemma NothingDecided(known: map<string, FileRecord>, current: map<string, Option<FileRecord>>)
    ensures DecidesExactly([], {}, known, current)
  {
  }
}
