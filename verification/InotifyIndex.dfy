/** The two indexes of the inotify backend, by watch descriptor and by watch id,
    and the descriptors the kernel has live for it. */
module InotifyIndex {
  import opened Prelude

  datatype Record = Record(wd: nat, id: nat, root: string, watched: string, filter: Option<string>)

  /** `live` is the kernel's side: the descriptors it has given out and not removed. */
  datatype Backend = Backend(byWd: map<nat, seq<Record>>, byId: map<nat, seq<Record>>, live: set<nat>, stopped: bool)

  const Empty := Backend(map[], map[], {}, false)

  function At(index: map<nat, seq<Record>>, key: nat): seq<Record> {
    if key in index then index[key] else []
  }

  predicate HasRoot(b: Backend, id: nat, root: string) {
    exists i :: 0 <= i < |At(b.byId, id)| && At(b.byId, id)[i].root == root
  }

  /** One directory to watch, and the kernel's answer: a descriptor, which is an old
      one if the same directory is watched already, or an error. */
  datatype Request = Request(root: string, watched: string, filter: Option<string>, answer: Option<nat>)

  function NewRecord(id: nat, r: Request): Record
    requires r.answer.Some?
  {
    Record(r.answer.value, id, r.root, r.watched, r.filter)
  }

  function AddOne(b: Backend, id: nat, r: Request): Backend {
    if HasRoot(b, id, r.root) || r.answer.None? then b
    else
      var wd := r.answer.value;
      var record := NewRecord(id, r);
      b.(byWd := b.byWd[wd := At(b.byWd, wd) + [record]], byId := b.byId[id := At(b.byId, id) + [record]], live := b.live + {wd})
  }

  function AddAll(b: Backend, id: nat, rs: seq<Request>): Backend
    decreases |rs|
  {
    if rs == [] then b else AddAll(AddOne(b, id, rs[0]), id, rs[1..])
  }

  function Without(records: seq<Record>, id: nat): seq<Record> {
    if records == [] then []
    else (if records[0].id == id then [] else [records[0]]) + Without(records[1..], id)
  }

  function WdsOf(records: seq<Record>): set<nat> {
    set i | 0 <= i < |records| :: records[i].wd
  }

  predicate Emptied(b: Backend, id: nat, wd: nat) {
    Without(At(b.byWd, wd), id) == []
  }

  /** The descriptors in `wds` lose the records of the id; those left without
      records are removed, from the index and from the kernel. */
  function Dropped(b: Backend, id: nat, wds: set<nat>): Backend {
    b.(byWd := (map wd | wd in b.byWd && !(wd in wds && Emptied(b, id, wd)) :: if wd in wds then Without(b.byWd[wd], id) else b.byWd[wd]),
       live := (set wd | wd in b.live && !(wd in wds && Emptied(b, id, wd))))
  }

  function Removed(b: Backend, id: nat): Backend {
    if id !in b.byId then b
    else Dropped(b, id, WdsOf(b.byId[id])).(byId := b.byId - {id})
  }

  datatype Action = Watch(id: nat, requests: seq<Request>) | Unwatch(id: nat) | Discover(id: nat, request: Request) | Stop

  function Act(b: Backend, a: Action): Backend {
    match a
    case Watch(id, requests) => if b.stopped then b else AddAll(b, id, requests)
    case Unwatch(id) => Removed(b, id)
    case Discover(id, request) => if b.stopped || id !in b.byId then b else AddOne(b, id, request)
    case Stop => if b.stopped then b else Backend(map[], map[], {}, true)
  }

  function Run(actions: seq<Action>): Backend {
    if actions == [] then Empty else Act(Run(actions[..|actions| - 1]), actions[|actions| - 1])
  }

  // ----- agreement

  function Count(index: map<nat, seq<Record>>, key: nat, r: Record): nat {
    multiset(At(index, key))[r]
  }

  ghost predicate SameRecords(b: Backend) {
    forall r: Record :: Count(b.byWd, r.wd, r) == Count(b.byId, r.id, r)
  }

  predicate Keyed(b: Backend) {
    && (forall wd, i | wd in b.byWd && 0 <= i < |b.byWd[wd]| :: b.byWd[wd][i].wd == wd)
    && (forall id, i | id in b.byId && 0 <= i < |b.byId[id]| :: b.byId[id][i].id == id)
  }

  predicate NoneEmpty(b: Backend) {
    && (forall wd | wd in b.byWd :: b.byWd[wd] != [])
    && (forall id | id in b.byId :: b.byId[id] != [])
  }

  predicate RootsDiffer(b: Backend) {
    forall id, i, j | id in b.byId && 0 <= i < j < |b.byId[id]| :: b.byId[id][i].root != b.byId[id][j].root
  }

  /** Both indexes hold the same records, each under its own keys, no key has an
      empty list, an id watches no directory twice, and the kernel's descriptors are
      exactly those of the index. */
  ghost predicate Agree(b: Backend) {
    Keyed(b) && NoneEmpty(b) && SameRecords(b) && RootsDiffer(b) && b.byWd.Keys == b.live
  }

  lemma CountOfAppend(s: seq<Record>, x: Record, r: Record)
    ensures multiset(s + [x])[r] == multiset(s)[r] + (if r == x then 1 else 0)
  {
  }

  lemma CountAfterAdd(index: map<nat, seq<Record>>, key: nat, record: Record, k: nat, x: Record)
    ensures Count(index[key := At(index, key) + [record]], k, x) == Count(index, k, x) + (if k == key && x == record then 1 else 0)
  {
    CountOfAppend(At(index, key), record, x);
  }

  lemma AddedSameRecords(b: Backend, id: nat, r: Request)
    requires SameRecords(b)
    ensures SameRecords(AddOne(b, id, r))
  {
    hide HasRoot, Count;
    var c := AddOne(b, id, r);
    if r.answer.Some? && !HasRoot(b, id, r.root) {
      var record := NewRecord(id, r);
      forall x: Record ensures Count(c.byWd, x.wd, x) == Count(c.byId, x.id, x) {
        assert Count(b.byWd, x.wd, x) == Count(b.byId, x.id, x);
        CountAfterAdd(b.byWd, record.wd, record, x.wd, x);
        CountAfterAdd(b.byId, id, record, x.id, x);
      }
    }
  }

  lemma AddedKeyed(b: Backend, id: nat, r: Request)
    requires Keyed(b) && NoneEmpty(b)
    ensures Keyed(AddOne(b, id, r)) && NoneEmpty(AddOne(b, id, r))
  {
    hide HasRoot;
  }

  lemma AddedRootsDiffer(b: Backend, id: nat, r: Request)
    requires RootsDiffer(b)
    ensures RootsDiffer(AddOne(b, id, r))
  {
    var c := AddOne(b, id, r);
    forall k, i, j | k in c.byId && 0 <= i < j < |c.byId[k]| ensures c.byId[k][i].root != c.byId[k][j].root {
      if k == id && j < |At(b.byId, id)| { assert b.byId[id][i].root != b.byId[id][j].root; }
    }
  }

  lemma AddOneAgrees(b: Backend, id: nat, r: Request)
    requires Agree(b)
    ensures Agree(AddOne(b, id, r))
  {
    hide Keyed, NoneEmpty, SameRecords, RootsDiffer, HasRoot;
    AddedSameRecords(b, id, r);
    AddedKeyed(b, id, r);
    AddedRootsDiffer(b, id, r);
  }

  lemma {:induction false} AddAllAgrees(b: Backend, id: nat, rs: seq<Request>)
    requires Agree(b)
    ensures Agree(AddAll(b, id, rs))
    decreases |rs|
  {
    hide Agree, AddOne;
    if rs != [] {
      AddOneAgrees(b, id, rs[0]);
      AddAllAgrees(AddOne(b, id, rs[0]), id, rs[1..]);
    }
  }

  lemma {:induction false} CountWithout(records: seq<Record>, id: nat, r: Record)
    ensures multiset(Without(records, id))[r] == if r.id == id then 0 else multiset(records)[r]
  {
    if records != [] {
      CountWithout(records[1..], id, r);
      assert records == [records[0]] + records[1..];
    }
  }

  lemma {:induction false} WithoutMembers(records: seq<Record>, id: nat)
    ensures forall i | 0 <= i < |Without(records, id)| :: Without(records, id)[i] in records && Without(records, id)[i].id != id
  {
    if records != [] { WithoutMembers(records[1..], id); }
  }

  lemma {:induction false} NothingWithout(records: seq<Record>, id: nat)
    requires forall i | 0 <= i < |records| :: records[i].id != id
    ensures Without(records, id) == records
  {
    if records != [] { NothingWithout(records[1..], id); }
  }

  /** The descriptors of an id are those under which it has records. */
  lemma WdOfRecord(b: Backend, id: nat, wd: nat, i: nat)
    requires Keyed(b) && SameRecords(b) && i < |At(b.byWd, wd)| && At(b.byWd, wd)[i].id == id
    ensures id in b.byId && wd in WdsOf(b.byId[id])
  {
    var r := At(b.byWd, wd)[i];
    assert multiset(At(b.byWd, wd))[r] > 0;
    assert Count(b.byWd, r.wd, r) == Count(b.byId, r.id, r);
    assert r in At(b.byId, id);
    var k :| 0 <= k < |At(b.byId, id)| && At(b.byId, id)[k] == r;
    assert b.byId[id][k].wd in WdsOf(b.byId[id]);
  }

  lemma RecordsOfId(b: Backend, id: nat, wd: nat)
    requires Keyed(b) && SameRecords(b) && (id in b.byId ==> wd !in WdsOf(b.byId[id]))
    ensures Without(At(b.byWd, wd), id) == At(b.byWd, wd)
    ensures forall i | 0 <= i < |At(b.byWd, wd)| :: At(b.byWd, wd)[i].id != id
  {
    hide Keyed, SameRecords, WdsOf;
    forall i | 0 <= i < |At(b.byWd, wd)| ensures At(b.byWd, wd)[i].id != id {
      if At(b.byWd, wd)[i].id == id { WdOfRecord(b, id, wd, i); }
    }
    NothingWithout(At(b.byWd, wd), id);
  }

  lemma RemovedLists(b: Backend, id: nat, wd: nat)
    requires Keyed(b) && NoneEmpty(b) && SameRecords(b) && id in b.byId
    ensures At(Removed(b, id).byWd, wd) == Without(At(b.byWd, wd), id)
    ensures wd in Removed(b, id).byWd <==> wd in b.byWd && Without(At(b.byWd, wd), id) != []
  {
    hide WdsOf, SameRecords, Keyed;
    if wd !in WdsOf(b.byId[id]) { RecordsOfId(b, id, wd); }
    assert Without([], id) == [] by { WithoutMembers([], id); }
  }

  lemma RemovedKernel(b: Backend, id: nat)
    requires Agree(b) && id in b.byId
    ensures Removed(b, id).byWd.Keys == Removed(b, id).live
  {
    hide WdsOf, Emptied, SameRecords, Keyed, RootsDiffer;
  }

  lemma RemovedSameRecords(b: Backend, id: nat)
    requires Agree(b) && id in b.byId
    ensures SameRecords(Removed(b, id))
  {
    hide Removed, Keyed, NoneEmpty, RootsDiffer, Without;
    var c := Removed(b, id);
    RemovedById(b, id);
    forall r: Record ensures Count(c.byWd, r.wd, r) == Count(c.byId, r.id, r) {
      RemovedLists(b, id, r.wd);
      CountWithout(At(b.byWd, r.wd), id, r);
      assert Count(b.byWd, r.wd, r) == Count(b.byId, r.id, r);
    }
  }

  lemma RemovedKeyed(b: Backend, id: nat)
    requires Agree(b) && id in b.byId
    ensures Keyed(Removed(b, id)) && NoneEmpty(Removed(b, id))
  {
    hide Removed, SameRecords, RootsDiffer, Without;
    var c := Removed(b, id);
    RemovedById(b, id);
    forall wd | wd in c.byWd ensures c.byWd[wd] != [] && forall i | 0 <= i < |c.byWd[wd]| :: c.byWd[wd][i].wd == wd {
      RemovedLists(b, id, wd);
      WithoutMembers(At(b.byWd, wd), id);
      assert c.byWd[wd] == At(c.byWd, wd);
    }
  }

  lemma RemovedAgrees(b: Backend, id: nat)
    requires Agree(b) && id in b.byId
    ensures Agree(Removed(b, id))
  {
    hide Removed, Keyed, NoneEmpty, SameRecords;
    RemovedKernel(b, id);
    RemovedById(b, id);
    RemovedSameRecords(b, id);
    RemovedKeyed(b, id);
  }

  lemma RemovedById(b: Backend, id: nat)
    requires id in b.byId
    ensures Removed(b, id).byId == b.byId - {id}
  {
  }

  /** Over every run of watching, unwatching, discovering and stopping the indexes
      and the kernel agree. */
  lemma {:induction false} EveryRunAgrees(actions: seq<Action>)
    ensures Agree(Run(actions))
  {
    hide Agree, AddOne, AddAll, Removed;
    if actions == [] {
      NothingAgrees();
    } else {
      var b := Run(actions[..|actions| - 1]);
      EveryRunAgrees(actions[..|actions| - 1]);
      match actions[|actions| - 1] {
        case Watch(id, requests) => AddAllAgrees(b, id, requests);
        case Unwatch(id) => if id in b.byId { RemovedAgrees(b, id); } else { NothingRemoved(b, id); }
        case Discover(id, request) => AddOneAgrees(b, id, request);
        case Stop => NothingAgrees();
      }
    }
  }

  lemma NothingAgrees()
    ensures Agree(Empty) && Agree(Backend(map[], map[], {}, true))
  {
  }

  lemma NothingRemoved(b: Backend, id: nat)
    requires id !in b.byId
    ensures Removed(b, id) == b
  {
  }

  predicate Uses(records: seq<Record>, id: nat) {
    exists i :: 0 <= i < |records| && records[i].id == id
  }

  lemma {:induction false} WithoutUses(records: seq<Record>, id: nat, other: nat)
    ensures Uses(Without(records, id), other) <==> id != other && Uses(records, other)
  {
    WithoutMembers(records, id);
    if id != other && Uses(records, other) {
      var i :| 0 <= i < |records| && records[i].id == other;
      CountWithout(records, id, records[i]);
      assert multiset(records)[records[i]] > 0;
      assert records[i] in Without(records, id);
    }
  }

  /** Unwatching one id leaves every other id its records, in their order, and the
      kernel exactly the descriptors that another id uses. */
  lemma UnwatchKeepsOthers(actions: seq<Action>, id: nat, other: nat, wd: nat)
    requires id != other
    ensures var b, c := Run(actions), Removed(Run(actions), id);
            && At(c.byId, other) == At(b.byId, other) && id !in c.byId
            && At(c.byWd, wd) == Without(At(b.byWd, wd), id)
            && (Uses(At(b.byWd, wd), other) ==> wd in c.live)
            && (wd in c.live ==> exists k: nat :: k != id && Uses(At(b.byWd, wd), k))
  {
    hide Run, Removed, Without, SameRecords, Keyed, RootsDiffer;
    EveryRunAgrees(actions);
    var b, c := Run(actions), Removed(Run(actions), id);
    if id in b.byId {
      RemovedAgrees(b, id);
      RemovedLists(b, id, wd);
      RemovedById(b, id);
    } else {
      NothingRemoved(b, id);
      RecordsOfId(b, id, wd);
    }
    WithoutUses(At(b.byWd, wd), id, other);
    if wd in c.live {
      var k := At(c.byWd, wd)[0].id;
      assert Uses(At(c.byWd, wd), k);
      WithoutUses(At(b.byWd, wd), id, k);
    }
  }

  /** A removed id stays removed until it is watched again: discovery, which works
      on copies of records, cannot revive it. */
  lemma {:induction false} RemovedStaysRemoved(actions: seq<Action>, later: seq<Action>, id: nat)
    requires id !in Run(actions).byId
    requires forall i | 0 <= i < |later| :: later[i].Watch? ==> later[i].id != id
    ensures id !in Run(actions + later).byId
    decreases |later|
  {
    if later == [] {
      assert actions + later == actions;
    } else {
      var before := later[..|later| - 1];
      RemovedStaysRemoved(actions, before, id);
      assert (actions + later)[..|actions + later| - 1] == actions + before;
      var a := later[|later| - 1];
      if a.Watch? { AddAllKeepsAbsent(Run(actions + before), a.id, a.requests, id); }
    }
  }

  lemma {:induction false} AddAllKeepsAbsent(b: Backend, id: nat, rs: seq<Request>, other: nat)
    requires other !in b.byId && other != id
    ensures other !in AddAll(b, id, rs).byId
    decreases |rs|
  {
    if rs != [] { AddAllKeepsAbsent(AddOne(b, id, rs[0]), id, rs[1..], other); }
  }

  // ----- what is watched, request by request

  predicate IsRecordOf(record: Record, id: nat, r: Request) {
    && r.answer == Some(record.wd) && record.id == id && record.root == r.root
    && record.watched == r.watched && record.filter == r.filter
  }

  predicate Watches(b: Backend, id: nat, root: string) {
    id in b.byId && exists record :: record in b.byId[id] && record.root == root
  }

  /** A request that the kernel answers and that names a root the id does not watch yet
      puts its record at the end of both lists; any other changes nothing. */
  lemma AddOneIs(b: Backend, id: nat, r: Request)
    ensures var c := AddOne(b, id, r);
            && (r.answer == None || Watches(b, id, r.root) ==> c == b)
            && (r.answer != None && !Watches(b, id, r.root) ==>
                  exists record :: IsRecordOf(record, id, r) && Recorded(b, c, id, record))
  {
    if i :| 0 <= i < |At(b.byId, id)| && At(b.byId, id)[i].root == r.root {
      assert b.byId[id][i] in b.byId[id];
    }
    if Watches(b, id, r.root) {
      var record :| record in b.byId[id] && record.root == r.root;
      var i :| 0 <= i < |b.byId[id]| && b.byId[id][i] == record;
      assert At(b.byId, id)[i].root == r.root;
    }
    if r.answer != None && !HasRoot(b, id, r.root) {
      var record := NewRecord(id, r);
      assert IsRecordOf(record, id, r) && Recorded(b, AddOne(b, id, r), id, record);
    }
  }

  ghost predicate Recorded(b: Backend, c: Backend, id: nat, record: Record) {
    && c.byId == b.byId[id := At(b.byId, id) + [record]] && c.byWd == b.byWd[record.wd := At(b.byWd, record.wd) + [record]]
    && c.live == b.live + {record.wd} && c.stopped == b.stopped
  }

  /** All requests of a new watch are recorded, in order, if the kernel answers each. */
  lemma {:induction false} AllAreAdded(b: Backend, id: nat, rs: seq<Request>)
    requires forall i | 0 <= i < |rs| :: rs[i].answer != None && !Watches(b, id, rs[i].root)
    requires forall i, j | 0 <= i < j < |rs| :: rs[i].root != rs[j].root
    ensures var before, after := At(b.byId, id), At(AddAll(b, id, rs).byId, id);
            && |after| == |before| + |rs| && before <= after
            && forall i | 0 <= i < |rs| :: IsRecordOf(after[|before| + i], id, rs[i])
    decreases |rs|
  {
    hide AddOne, IsRecordOf;
    if rs != [] {
      var c := AddOne(b, id, rs[0]);
      AddOneIs(b, id, rs[0]);
      var record :| IsRecordOf(record, id, rs[0]) && Recorded(b, c, id, record);
      assert record.root == rs[0].root by { RootOf(record, id, rs[0]); }
      forall i | 1 <= i < |rs| ensures !Watches(c, id, rs[i].root) {
        assert c.byId[id] == At(b.byId, id) + [record];
      }
      AllAreAdded(c, id, rs[1..]);
      var before, after := At(b.byId, id), At(AddAll(c, id, rs[1..]).byId, id);
      assert after[..|before| + 1] == before + [record];
      assert after[|before|] == record && before <= after;
      forall i | 0 <= i < |rs| ensures IsRecordOf(after[|before| + i], id, rs[i]) {
        if i > 0 { assert rs[i] == rs[1..][i - 1]; }
      }
    }
  }

  lemma RootOf(record: Record, id: nat, r: Request)
    requires IsRecordOf(record, id, r)
    ensures record.root == r.root
  {
  }

  /** A running backend takes every watch, and the directories discovered below a live one. */
  lemma RunningTakes(b: Backend, id: nat, rs: seq<Request>, r: Request)
    requires !b.stopped
    ensures Act(b, Watch(id, rs)) == AddAll(b, id, rs)
    ensures Act(b, Discover(id, r)) == if id in b.byId then AddOne(b, id, r) else b
  {
  }

  lemma {:induction false} AddAllStops(b: Backend, id: nat, rs: seq<Request>)
    ensures AddAll(b, id, rs).stopped == b.stopped
    decreases |rs|
  {
    if rs != [] { AddAllStops(AddOne(b, id, rs[0]), id, rs[1..]); }
  }

  /** After a stop nothing is watched, whatever follows; without one the backend runs. */
  lemma {:induction false} StopIsFinal(actions: seq<Action>)
    ensures var b := Run(actions);
            && (b.stopped <==> Stop in actions)
            && (Stop in actions ==> b.byId == map[] && b.byWd == map[] && b.live == {})
  {
    if actions != [] {
      var before, a := actions[..|actions| - 1], actions[|actions| - 1];
      StopIsFinal(before);
      assert actions == before + [a];
      if a.Watch? { AddAllStops(Run(before), a.id, a.requests); }
    }
  }

  /** Removal keeps the records of the other ids, in their order. */
  lemma {:induction false} WithoutParts(records: seq<Record>, more: seq<Record>, id: nat)
    ensures Without(records + more, id) == Without(records, id) + Without(more, id)
  {
    if records == [] {
      assert records + more == more;
    } else {
      WithoutParts(records[1..], more, id);
      assert (records + more)[1..] == records[1..] + more && (records + more)[0] == records[0];
      var first := if records[0].id == id then [] else [records[0]];
      assert first + (Without(records[1..], id) + Without(more, id)) == first + Without(records[1..], id) + Without(more, id);
    }
  }

  lemma WithoutOne(record: Record, id: nat)
    ensures Without([record], id) == if record.id == id then [] else [record]
  {
    assert [record][1..] == [];
  }

  // ----- the backend object

  class InotifyBackend {
    var watchByWd: map<nat, seq<Record>>
    var watchesById: map<nat, seq<Record>>
    var kernel: set<nat>
    var stopped: bool

    function State(): Backend
      reads this
    {
      Backend(watchByWd, watchesById, kernel, stopped)
    }

    constructor ()
      ensures State() == Empty
    {
      watchByWd, watchesById, kernel, stopped := map[], map[], {}, false;
    }

    method AddOneLocked(id: nat, r: Request)
      modifies `watchByWd, `watchesById, `kernel
      ensures State() == AddOne(old(State()), id, r)
    {
      var records := At(watchesById, id);
      for i := 0 to |records|
        invariant forall k | 0 <= k < i :: records[k].root != r.root
        invariant State() == old(State())
      {
        if records[i].root == r.root {
          assert HasRoot(State(), id, r.root);
          return;
        }
      }
      if r.answer.None? {
        return;
      }
      var wd := r.answer.value;
      kernel := kernel + {wd};
      var record := Record(wd, id, r.root, r.watched, r.filter);
      watchByWd := watchByWd[wd := At(watchByWd, wd) + [record]];
      watchesById := watchesById[id := At(watchesById, id) + [record]];
    }

    method AddWatch(id: nat, requests: seq<Request>) returns (ok: bool)
      modifies `watchByWd, `watchesById, `kernel
      ensures State() == Act(old(State()), Watch(id, requests))
      ensures ok == (!stopped && id in watchesById)
    {
      hide AddOne;
      if stopped {
        return false;
      }
      for i := 0 to |requests|
        invariant !stopped && AddAll(State(), id, requests[i..]) == AddAll(old(State()), id, requests)
      {
        assert requests[i..][1..] == requests[i + 1..];
        AddOneLocked(id, requests[i]);
        AddOneKeepsRunning(old(State()), id, requests[i]);
      }
      assert requests[|requests|..] == [];
      ok := id in watchesById;
    }

    lemma AddOneKeepsRunning(b: Backend, id: nat, r: Request)
      ensures AddOne(b, id, r).stopped == b.stopped
    {
    }

    method RemoveIdFrom(records: seq<Record>, id: nat) returns (kept: seq<Record>)
      ensures kept == Without(records, id)
    {
      kept := [];
      for i := 0 to |records|
        invariant kept + Without(records[i..], id) == Without(records, id)
      {
        assert records[i..][1..] == records[i + 1..];
        if records[i].id != id {
          kept := kept + [records[i]];
        }
      }
      assert records[|records|..] == [];
    }

    method RemoveWatch(id: nat) returns (removed: bool)
      modifies `watchByWd, `watchesById, `kernel
      ensures State() == Removed(old(State()), id)
      ensures removed <==> id in old(watchesById)
    {
      hide Without, WdsOf;
      if id !in watchesById {
        return false;
      }
      ghost var was := State();
      var records := watchesById[id];
      NoWds();
      assert records[..0] == [];
      for i := 0 to |records|
        invariant State() == Dropped(was, id, WdsOf(records[..i]))
      {
        var wd := records[i].wd;
        OneMoreWd(records, i);
        if wd in watchByWd {
          var kept := RemoveIdFrom(watchByWd[wd], id);
          DropAgain(was, id, WdsOf(records[..i]), wd);
          if kept != [] {
            watchByWd := watchByWd[wd := kept];
            continue;
          }
          watchByWd := watchByWd - {wd};
        }
        kernel := kernel - {wd};
        EmptiedIfAbsent(was, id, wd);
      }
      assert records[..|records|] == records;
      watchesById := watchesById - {id};
      return true;
    }

    lemma NoWds()
      ensures WdsOf([]) == {}
    {
    }

    lemma OneMoreWd(records: seq<Record>, i: nat)
      requires i < |records|
      ensures WdsOf(records[..i + 1]) == WdsOf(records[..i]) + {records[i].wd}
    {
      var next := records[..i + 1];
      assert next[i] == records[i] && forall k | 0 <= k < i :: next[k] == records[..i][k];
    }

    lemma EmptiedIfAbsent(b: Backend, id: nat, wd: nat)
      ensures wd !in b.byWd ==> Emptied(b, id, wd)
    {
    }

    lemma {:induction false} WithoutTwice(records: seq<Record>, id: nat)
      ensures Without(Without(records, id), id) == Without(records, id)
    {
      WithoutMembers(records, id);
      NothingWithout(Without(records, id), id);
    }

    lemma DropAgain(b: Backend, id: nat, wds: set<nat>, wd: nat)
      requires wd in Dropped(b, id, wds).byWd
      ensures Without(Dropped(b, id, wds).byWd[wd], id) == Without(b.byWd[wd], id)
    {
      WithoutTwice(b.byWd[wd], id);
    }

    method AddDiscoveredWatch(id: nat, r: Request)
      modifies `watchByWd, `watchesById, `kernel
      ensures State() == Act(old(State()), Discover(id, r))
    {
      if stopped || id !in watchesById {
        return;
      }
      AddOneLocked(id, r);
    }

    method StopBackend()
      modifies this
      ensures State() == Act(old(State()), Stop)
    {
      if stopped {
        return;
      }
      stopped, kernel := true, {};
      watchByWd, watchesById := map[], map[];
    }
  }
}
