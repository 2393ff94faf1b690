/**
 The statuses a replica can have on the master: INIT and OFFLINE are never given to one.
 */
module Statuses {
  import opened ProxyTypes
  import opened NodeInfo
  import opened NodeObjects
  import opened Protocol
  import opened Steps
  import opened SyncDownSteps
  import opened JoinSteps
  import opened JoinLoops
  import opened JoinInduction
  import opened Counting
  import opened Runs
  import opened Guarantees

  predicate Used(rs: seq<Replica>) {
    forall r :: r in rs ==> !r.status.Init? && !r.status.Offline?
  }

  ghost predicate Usual(s: State) {
    forall v: nat :: v < |s.vnodes| ==> Used(s.vnodes[v].replicas)
  }

  lemma LagUsual(s: State, v: nat, d: nat)
    requires Usual(s) && v < |s.vnodes| && StatusOf(s.vnodes[v].replicas, d).Some?
    ensures Lag(s, v, d).Ok? ==> Usual(Lag(s, v, d).value.0)
  {
    assert Used(s.vnodes[v].replicas);
  }

  lemma AcceptUsual(s: State, v: nat, d: nat, version: int)
    requires Usual(s) && v < |s.vnodes| && StatusOf(s.vnodes[v].replicas, d).Some?
    ensures Usual(Accept(s, v, d, version).0)
  {
    assert Used(s.vnodes[v].replicas);
  }

  lemma ReportOneUsual(b: Beat, d: nat, r: Report)
    requires Usual(b.s)
    ensures ReportOne(b, d, r).Ok? ==> Usual(ReportOne(b, d, r).value.s)
  {
    var j := IndexOf(b.todo, r.id);
    if j < |b.todo| && b.todo[j] < |b.s.vnodes| && StatusOf(b.s.vnodes[b.todo[j]].replicas, d).Some? {
      LagUsual(b.s, b.todo[j], d);
      AcceptUsual(b.s, b.todo[j], d, r.version);
    }
  }

  lemma {:induction false} ReportAllUsual(b: Beat, d: nat, reports: seq<Report>)
    requires Usual(b.s)
    ensures ReportAll(b, d, reports).Ok? ==> Usual(ReportAll(b, d, reports).value.s)
    decreases |reports|
  {
    if reports != [] {
      ReportOneUsual(b, d, reports[0]);
      var r := ReportOne(b, d, reports[0]);
      if r.Ok? {
        ReportAllUsual(r.value, d, reports[1..]);
      }
    }
  }

  /** The orders of the reply for a list of events. */
  ghost predicate Announces(reply: seq<Reply>, events: seq<Event>, status: nat -> Option<Status>) {
    && |reply| == |events|
    && forall i :: 0 <= i < |events| ==>
         reply[i].id == events[i].vnode && reply[i].dest == Some(events[i].dest)
           && Some(reply[i].status) == status(events[i].vnode)
  }

  ghost function StatusesOn(s: State, d: nat): nat -> Option<Status> {
    (v: nat) => if v < |s.vnodes| then StatusOf(s.vnodes[v].replicas, d) else None
  }

  lemma SameStatuses(s: State, s': State, d: nat)
    requires s'.vnodes == s.vnodes
    ensures forall reply, events ::
              Announces(reply, events, StatusesOn(s', d)) ==> Announces(reply, events, StatusesOn(s, d))
  {
    assert forall v: nat :: StatusesOn(s', d)(v) == StatusesOn(s, d)(v);
  }

  /** Of `all`, what follows `reply` announces the first event and then the others. */
  lemma AnnouncesOneMore(reply: seq<Reply>, unit: Reply, all: seq<Reply>, events: seq<Event>,
                         status: nat -> Option<Status>)
    requires events != [] && Announces([unit], events[..1], status)
    requires |all| > |reply| && all[..|reply| + 1] == reply + [unit]
    requires Announces(all[|reply| + 1..], events[1..], status)
    ensures all[..|reply|] == reply && Announces(all[|reply|..], events, status)
  {
    var tail := all[|reply|..];
    assert all[|reply|] == all[..|reply| + 1][|reply|] == unit;
    assert all[..|reply|] == all[..|reply| + 1][..|reply|];
    forall i | 0 <= i < |events|
      ensures tail[i].id == events[i].vnode && tail[i].dest == Some(events[i].dest)
      ensures Some(tail[i].status) == status(events[i].vnode)
    {
      if i > 0 {
        assert tail[i] == all[|reply| + 1..][i - 1] && events[i] == events[1..][i - 1];
      } else {
        assert [unit][0] == unit && events[..1][0] == events[0];
      }
    }
  }

  /** All pending events become syncing ones, in order, and each is announced with its replica's status. */
  lemma {:induction false} DrainIs(s: State, d: nat, reply: seq<Reply>)
    requires d < |s.devices| && Drain(s, d, reply).Ok?
    ensures var (s', reply') := Drain(s, d, reply).value;
            var dev := s.devices[d];
            && s' == s.(devices := s.devices[d := dev.(pending := [], syncing := dev.syncing + dev.pending)])
            && |reply'| >= |reply| && reply'[..|reply|] == reply
            && Announces(reply'[|reply|..], dev.pending, StatusesOn(s, d))
    decreases |s.devices[d].pending|
  {
    var dev := s.devices[d];
    if dev.pending == [] {
      assert dev.syncing + dev.pending == dev.syncing;
      assert s.devices[d := dev] == s.devices;
    } else {
      var (s1, unit) := DrainOne(s, d).value;
      DrainIs(s1, d, reply + [unit]);
      var dev1 := s1.devices[d];
      assert dev1.syncing + dev1.pending == dev.syncing + dev.pending;
      SameStatuses(s, s1, d);
      AnnouncesOneMore(reply, unit, Drain(s, d, reply).value.1, dev.pending, StatusesOn(s, d));
    }
  }

  lemma HeartbeatUsual(s: State, d: nat, reports: seq<Report>)
    requires Usual(s) && d < |s.devices|
    ensures Heartbeat(s, d, reports).Ok? ==> Usual(Heartbeat(s, d, reports).value.0)
  {
    if Heartbeat(s, d, reports).Ok? {
      DrainIs(s, d, []);
      var (s1, reply1) := Drain(s, d, []).value;
      ReportAllUsual(Beat(s1, s.devices[d].listed, reply1), d, reports);
    }
  }

  lemma UsedSet(rs: seq<Replica>, i: nat, d: nat)
    requires Used(rs) && i < |rs|
    ensures Used(rs[i := Replica(Active, d)])
  {
    var rs' := rs[i := Replica(Active, d)];
    assert forall k :: 0 <= k < |rs'| && k != i ==> rs'[k] == rs[k];
  }

  lemma UsedEnded(rs: seq<Replica>, d: nat, dst: nat)
    requires Used(rs) && Find(rs, d) < |rs| && Find(rs, dst) < |rs|
    ensures Used(Ended(rs, d, dst))
  {
    var rs1 := SetStatus(rs, dst, Active);
    UsedSet(rs, Find(rs, dst), dst);
    UsedSet(rs1, Find(rs, d), d);
    assert forall r :: r in Destroy(rs1, d) ==> r in rs1;
  }

  lemma SyncDownOneReplicas(e: Edition, s: State, d: nat, id: int)
    requires d < |s.devices| && SyncDownOne(e, s, d, id).Ok?
    ensures Syncing(s, d, id) && 0 <= id < |s.vnodes|
    ensures var rs := s.vnodes[id].replicas;
            var dst := s.devices[d].syncing[EventIndex(s.devices[d].syncing, id)].dest;
            && Find(rs, d) < |rs| && Find(rs, dst) < |rs|
            && SyncDownOne(e, s, d, id).value.vnodes == s.vnodes[id := s.vnodes[id].(replicas := Ended(rs, d, dst))]
  {
  }

  lemma SyncDownOneUsual(e: Edition, s: State, d: nat, id: int)
    requires Usual(s) && d < |s.devices|
    ensures SyncDownOne(e, s, d, id).Ok? ==> Usual(SyncDownOne(e, s, d, id).value)
  {
    if SyncDownOne(e, s, d, id).Ok? {
      SyncDownOneReplicas(e, s, d, id);
      UsedEnded(s.vnodes[id].replicas, d, s.devices[d].syncing[EventIndex(s.devices[d].syncing, id)].dest);
    }
  }

  lemma {:induction false} SyncDownUsual(e: Edition, s: State, d: nat, ids: seq<int>)
    requires Usual(s) && d < |s.devices|
    ensures SyncDown(e, s, d, ids).Ok? ==> Usual(SyncDown(e, s, d, ids).value)
    decreases |ids|
  {
    if ids != [] {
      SyncDownOneUsual(e, s, d, ids[0]);
      var r := SyncDownOne(e, s, d, ids[0]);
      if r.Ok? {
        SyncDownOneSizes(e, s, d, ids[0]);
        SyncDownUsual(e, r.value, d, ids[1..]);
      }
    }
  }

  lemma CopyOneUsual(s: State, v: nat, nd: nat)
    requires Usual(s) && v < |s.vnodes| && nd < |s.devices|
    ensures CopyOne(s, v, nd).Ok? ==>
              var s' := CopyOne(s, v, nd).value; Usual(s') && |s'.vnodes| == |s.vnodes| && |s'.devices| == |s.devices|
  {
    assert Used(s.vnodes[v].replicas);
  }

  lemma MoveOneUsual(e: Edition, s: State, donor: nat, v: nat, nd: nat)
    requires Usual(s) && donor < |s.devices| && nd < |s.devices|
    ensures MoveOne(e, s, donor, v, nd).Ok? ==> Usual(MoveOne(e, s, donor, v, nd).value.0)
  {
    if v < |s.vnodes| {
      assert Used(s.vnodes[v].replicas);
    }
  }

  ghost predicate UsualOrFault(r: Outcome<State>) {
    r.Ok? ==> Usual(r.value)
  }

  ghost predicate CopiedUsual(e: Edition, nd: nat, x: State, v: nat) {
    Inv(e, x) && ListedBelow(x, nd, v) && Usual(x)
  }

  lemma CopyStepUsual(P: (State, nat) -> bool, e: Edition, nd: nat, x: State, v: nat)
    requires forall y, w :: P(y, w) <==> CopiedUsual(e, nd, y, w)
    requires P(x, v)
    ensures CopyKeeps(P, x, v, nd)
  {
    if v < |x.vnodes| && nd < |x.devices| {
      CopyStep(e, x, v, nd);
      CopyOneUsual(x, v, nd);
    }
  }

  lemma CopyJoinUsual(e: Edition, s: State, nd: nat)
    requires Inv(e, s) && Usual(s) && nd < |s.devices| && s.devices[nd].listed == []
    ensures UsualOrFault(CopyFrom(s, 0, nd))
  {
    var P := (x: State, v: nat) => CopiedUsual(e, nd, x, v);
    forall x: State, v: nat | P(x, v)
      ensures CopyKeeps(P, x, v, nd)
    {
      CopyStepUsual(P, e, nd, x, v);
    }
    assert P(s, 0);
    CopyInduction(P, s, 0, nd);
  }

  lemma MoveDonorsUsual(e: Edition, s: State, nd: nat, avg: int, rnd: nat -> nat)
    requires Usual(s) && nd < |s.devices|
    ensures UsualOrFault(MoveDonors(e, s, 0, nd, avg, rnd, 0))
  {
    forall x: State, donor: nat, v: nat | Usual(x) && donor < |x.devices| && v in x.devices[donor].listed
      ensures MoveKeeps(y => Usual(y), false, e, x, donor, v, nd)
    {
      if donor < nd < |x.devices| {
        MoveOneUsual(e, x, donor, v, nd);
      }
    }
    MoveInduction(y => Usual(y), false, e, s, 0, nd, avg, rnd, 0);
  }

  lemma MoveJoinUsual(e: Edition, s: State, zone: int, weight: int, rnd: nat -> nat)
    requires Usual(s)
    ensures UsualOrFault(MoveJoin(e, s, zone, weight, rnd))
  {
    var s1 := AddDevice(s, zone, weight);
    var Q := r => UsualOrFault(r);
    forall avg: int
      ensures Q(MoveDonors(e, s1, 0, |s.devices|, avg, rnd, 0))
    {
      MoveDonorsUsual(e, s1, |s.devices|, avg, rnd);
    }
    AnyAverage(Q, e, s, zone, weight, rnd);
  }

  lemma JoinUsual(e: Edition, s: State, zone: int, weight: int, rnd: nat -> nat)
    requires Inv(e, s) && Usual(s)
    ensures UsualOrFault(Join(e, s, zone, weight, rnd))
  {
    if |s.devices| < s.replicaCount {
      AddDeviceKeeps(e, s, zone, weight);
      CopyJoinUsual(e, AddDevice(s, zone, weight), |s.devices|);
    } else {
      MoveJoinUsual(e, s, zone, weight, rnd);
    }
  }

  lemma HandleUsual(e: Edition, s: State, m: Message)
    requires Inv(e, s) && Usual(s)
    ensures UsualOrFault(Handle(e, s, m))
  {
    match m
    case JoinMsg(zone, weight, rnd) => JoinUsual(e, s, zone, weight, rnd);
    case HeartbeatMsg(d, reports) =>
      if d < |s.devices| {
        HeartbeatUsual(s, d, reports);
      }
    case SyncDownMsg(d, ids) =>
      if d < |s.devices| {
        SyncDownUsual(e, s, d, ids);
      }
    case ReadMsg(v) =>
    case WriteMsg(v) =>
      if v < |s.vnodes| {
        WriteHandled(e, s, v);
      }
  }

  lemma {:induction false} RunFromUsual(e: Edition, s: State, ms: seq<Message>)
    requires Inv(e, s) && Counted(s) && Usual(s)
    ensures UsualOrFault(Run(e, s, ms))
    decreases |ms|
  {
    if ms != [] {
      HandleUsual(e, s, ms[0]);
      HandleKeeps(e, s, ms[0]);
      if Handle(e, s, ms[0]).Ok? {
        RunFromUsual(e, Handle(e, s, ms[0]).value, ms[1..]);
      }
    }
  }

  /** In no run does a replica become INIT or OFFLINE. */
  lemma RunUsual(e: Edition, n: nat, rc: int, s: State)
    requires Reached(e, n, rc, s)
    ensures Usual(s)
  {
    var ms :| Run(e, Boot(n, rc), ms) == Ok(s);
    BootInv(e, n, rc);
    RunFromUsual(e, Boot(n, rc), ms);
  }
}
