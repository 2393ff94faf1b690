/**
 Runs of the master: any sequence of joins, heartbeats, sync-downs and address requests.
 */
module Runs {
  import opened ProxyTypes
  import opened NodeInfo
  import opened NodeObjects
  import opened Protocol
  import opened WriteAddress
  import opened Invariant
  import opened Steps
  import opened HeartbeatSteps
  import opened SyncDownSteps
  import opened JoinSteps
  import opened JoinLoops
  import opened Counting

  /**
   One message. `rnd` is the random stream a join draws from. A message from a device the master does not know
   is refused.
   */
  datatype Message =
    | JoinMsg(zone: int, weight: int, rnd: nat -> nat)
    | HeartbeatMsg(dev: nat, reports: seq<Report>)
    | SyncDownMsg(dev: nat, ids: seq<int>)
    | ReadMsg(vnode: nat)
    | WriteMsg(vnode: nat)

  function Handle(e: Edition, s: State, m: Message): Outcome<State> {
    match m
    case JoinMsg(zone, weight, rnd) => Join(e, s, zone, weight, rnd)
    case HeartbeatMsg(d, reports) =>
      if d >= |s.devices| then Ok(s)
      else
        var (s', _) :- Heartbeat(s, d, reports);
        Ok(s')
    case SyncDownMsg(d, ids) => if d >= |s.devices| then Ok(s) else SyncDown(e, s, d, ids)
    case ReadMsg(v) =>
      if v >= |s.vnodes| then Fault else Ok(s.(vnodes := s.vnodes[v := ReadReplica(s.vnodes[v]).0]))
    case WriteMsg(v) =>
      if v >= |s.vnodes| then Fault
      else
        var (vn, _) :- WriteRequest(s.vnodes[v], e.ownCursor, s.replicaCount);
        Ok(s.(vnodes := s.vnodes[v := vn]))
  }

  function Run(e: Edition, s: State, ms: seq<Message>): Outcome<State>
    decreases |ms|
  {
    if ms == [] then Ok(s)
    else
      var s' :- Handle(e, s, ms[0]);
      Run(e, s', ms[1..])
  }

  /** The master before any device joined. */
  function Boot(vnodeCount: nat, replicaCount: int): State {
    State([], seq(vnodeCount, _ => Vnode(0, 0, 0, [])), replicaCount, [])
  }

  // ---------------------------------------------------------------------------------------------
  // One message
  // ---------------------------------------------------------------------------------------------

  lemma TwiceCounts(list: seq<Event>, i: nat, j: nat)
    requires i < j < |list| && list[i] == list[j]
    ensures multiset(list)[list[i]] >= 2
  {
    assert list == list[..j] + [list[j]] + list[j + 1..];
    assert list[..j][i] == list[i];
    assert multiset(list) == multiset(list[..j]) + multiset{list[j]} + multiset(list[j + 1..]);
  }

  /** The lookup of a syncing event by vnode is unambiguous. */
  lemma UniqueSyncing(e: Edition, s: State, d: nat)
    requires Inv(e, s) && d < |s.devices|
    ensures forall i, j :: 0 <= i < j < |s.devices[d].syncing| ==>
              s.devices[d].syncing[i].vnode != s.devices[d].syncing[j].vnode
  {
    var list := s.devices[d].syncing;
    forall i, j | 0 <= i < j < |list|
      ensures list[i].vnode != list[j].vnode
    {
      if list[i].vnode == list[j].vnode {
        var v := list[i].vnode;
        assert list[i] in Owed(s.devices[d]) && list[j] in Owed(s.devices[d]);
        OwedIsSound(e, s, d, list[i]);
        OwedIsSound(e, s, d, list[j]);
        assert VnodeInv(e, s.devices, s.vnodes[v].replicas, v);
        assert (d, list[i].dest) == (d, list[j].dest);
        assert Owed(s.devices[d])[Event(v, list[i].dest)] <= 1;
        TwiceCounts(list, i, j);
      }
    }
  }

  /** All of the ids have the property, and no two are the same. */
  ghost predicate AllOnce(p: int -> bool, ids: seq<int>) {
    && (forall i :: 0 <= i < |ids| ==> p(ids[i]))
    && (forall i, j :: 0 <= i < j < |ids| ==> ids[i] != ids[j])
  }

  ghost predicate AllSyncing(s: State, d: nat, ids: seq<int>) {
    AllOnce(id => Syncing(s, d, id), ids)
  }

  lemma AllOnceRest(p: int -> bool, q: int -> bool, ids: seq<int>)
    requires ids != [] && p(ids[0]) && forall id :: q(id) <==> p(id) && id != ids[0]
    ensures AllOnce(p, ids) <==> AllOnce(q, ids[1..])
  {
    var rest := ids[1..];
    assert forall i :: 0 <= i < |rest| ==> rest[i] == ids[i + 1];
    if AllOnce(q, rest) {
      forall i | 0 <= i < |ids|
        ensures p(ids[i]) && (i > 0 ==> ids[i] != ids[0])
      {
        assert i > 0 ==> q(rest[i - 1]);
      }
      forall i, j | 0 <= i < j < |ids|
        ensures ids[i] != ids[j]
      {
        assert i > 0 ==> rest[i - 1] != rest[j - 1];
      }
    }
  }

  lemma RemovedEvent(list: seq<Event>, id: int, id': int)
    requires EventIndex(list, id) < |list|
    requires forall i, j :: 0 <= i < j < |list| ==> list[i].vnode != list[j].vnode
    ensures var list' := RemoveAt(list, EventIndex(list, id));
            EventIndex(list', id') < |list'| <==> EventIndex(list, id') < |list| && id' != id
  {
    var i := EventIndex(list, id);
    var list' := RemoveAt(list, i);
    assert forall k :: 0 <= k < |list'| ==> list'[k] == list[if k < i then k else k + 1];
    var k := EventIndex(list, id');
    if k < |list| && id' != id {
      assert list'[if k < i then k else k - 1].vnode == id';
    }
  }

  lemma SyncDownOneSizes(e: Edition, s: State, d: nat, id: int)
    requires d < |s.devices| && SyncDownOne(e, s, d, id).Ok?
    ensures Syncing(s, d, id) && SameSizes(s, SyncDownOne(e, s, d, id).value)
    ensures var list := s.devices[d].syncing;
            SyncDownOne(e, s, d, id).value.devices[d].syncing == RemoveAt(list, EventIndex(list, id))
  {
  }

  lemma SyncDownOneSyncing(e: Edition, s: State, d: nat, id: int, id': int)
    requires Inv(e, s) && d < |s.devices| && SyncDownOne(e, s, d, id).Ok?
    ensures Syncing(SyncDownOne(e, s, d, id).value, d, id') <==> Syncing(s, d, id') && id' != id
  {
    SyncDownOneSizes(e, s, d, id);
    UniqueSyncing(e, s, d);
    RemovedEvent(s.devices[d].syncing, id, id');
  }

  lemma AllSyncingRest(e: Edition, s: State, d: nat, ids: seq<int>)
    requires Inv(e, s) && d < |s.devices| && ids != [] && SyncDownOne(e, s, d, ids[0]).Ok?
    ensures AllSyncing(s, d, ids) <==> AllSyncing(SyncDownOne(e, s, d, ids[0]).value, d, ids[1..])
  {
    var s1 := SyncDownOne(e, s, d, ids[0]).value;
    SyncDownOneSizes(e, s, d, ids[0]);
    forall id
      ensures Syncing(s1, d, id) <==> Syncing(s, d, id) && id != ids[0]
    {
      SyncDownOneSyncing(e, s, d, ids[0], id);
    }
    AllOnceRest(id => Syncing(s, d, id), id => Syncing(s1, d, id), ids);
  }

  lemma SameCounted(s: State, s': State)
    requires Counted(s) && SameCounts(s, s') && SameSizes(s, s')
    ensures Counted(s')
  {
  }

  lemma SyncDownOneAll(e: Edition, s: State, d: nat, id: int)
    requires Inv(e, s) && Counted(s) && d < |s.devices|
    ensures SyncDownOne(e, s, d, id).Ok? <==> Syncing(s, d, id)
    ensures SyncDownOne(e, s, d, id).Ok? ==>
              var s' := SyncDownOne(e, s, d, id).value; Inv(e, s') && Counted(s') && SameSizes(s, s')
  {
    if SyncDownOne(e, s, d, id).Ok? {
      SyncDownOneSizes(e, s, d, id);
    }
    if Syncing(s, d, id) {
      SyncDownOneKeeps(e, s, d, id);
      SyncDownOneCounts(e, s, d, id);
      SyncDownOneSizes(e, s, d, id);
      SameCounted(s, SyncDownOne(e, s, d, id).value);
    }
  }

  /** A sync-down faults exactly unless it names different vnodes, all of them being synced by the device. */
  lemma {:induction false} SyncDownKeeps(e: Edition, s: State, d: nat, ids: seq<int>)
    requires Inv(e, s) && Counted(s) && d < |s.devices|
    ensures SyncDown(e, s, d, ids).Ok? <==> AllSyncing(s, d, ids)
    ensures SyncDown(e, s, d, ids).Ok? ==>
              var s' := SyncDown(e, s, d, ids).value; Inv(e, s') && Counted(s') && SameSizes(s, s')
    decreases |ids|
  {
    if ids != [] {
      SyncDownOneAll(e, s, d, ids[0]);
      var r := SyncDownOne(e, s, d, ids[0]);
      if r.Ok? {
        AllSyncingRest(e, s, d, ids);
        SyncDownKeeps(e, r.value, d, ids[1..]);
      }
    }
  }
}
