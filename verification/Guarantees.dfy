/**
 What holds after every run of the master, in terms of its lists and replicas.
 */
module Guarantees {
  import opened ProxyTypes
  import opened NodeInfo
  import opened NodeObjects
  import opened Protocol
  import opened WriteAddress
  import opened Invariant
  import opened Steps
  import opened HeartbeatSteps
  import opened SyncDownSteps
  import opened JoinSteps
  import opened JoinLoops
  import opened Counting
  import opened Runs

  lemma CursorKeeps(e: Edition, s: State, s': State)
    requires Inv(e, s) && Counted(s)
    requires s'.devices == s.devices && |s'.vnodes| == |s.vnodes| && s'.accepted == s.accepted
             && s'.replicaCount == s.replicaCount
    requires forall v: nat :: v < |s.vnodes| ==>
               s'.vnodes[v].replicas == s.vnodes[v].replicas && s'.vnodes[v].version == s.vnodes[v].version
    ensures Inv(e, s') && Counted(s')
  {
  }

  /** A write request moves the write cursor and nothing else. */
  lemma WriteHandled(e: Edition, s: State, v: nat)
    requires v < |s.vnodes|
    ensures Handle(e, s, WriteMsg(v)).Fault? <==>
            !e.ownCursor && s.replicaCount > 0 && s.vnodes[v].replicas != [] && s.vnodes[v].rd >= |s.vnodes[v].replicas|
    ensures Handle(e, s, WriteMsg(v)).Ok? ==>
              var s' := Handle(e, s, WriteMsg(v)).value;
              && s'.devices == s.devices && s'.replicaCount == s.replicaCount && s'.accepted == s.accepted
              && s'.vnodes == s.vnodes[v := s.vnodes[v].(wr := s'.vnodes[v].wr)]
  {
    WriteRequestOwn(s.vnodes[v], s.replicaCount);
    WriteRequestShared(s.vnodes[v], s.replicaCount);
  }

  lemma HeartbeatHandled(e: Edition, s: State, d: nat, reports: seq<Report>)
    requires Inv(e, s) && Counted(s) && d < |s.devices|
    ensures Heartbeat(s, d, reports).Ok? ==> var s' := Heartbeat(s, d, reports).value.0; Inv(e, s') && Counted(s')
  {
    HeartbeatKeeps(e, s, d, reports);
    if Heartbeat(s, d, reports).Ok? {
      SamePlacesCounts(s, Heartbeat(s, d, reports).value.0);
    }
  }

  lemma JoinHandled(e: Edition, s: State, zone: int, weight: int, rnd: nat -> nat)
    requires Inv(e, s) && Counted(s)
    ensures Join(e, s, zone, weight, rnd).Ok? ==>
              var s' := Join(e, s, zone, weight, rnd).value; Inv(e, s') && Counted(s')
  {
    JoinKeeps(e, s, zone, weight, rnd);
    JoinCounted(e, s, zone, weight, rnd);
  }

  lemma HandleKeeps(e: Edition, s: State, m: Message)
    requires Inv(e, s) && Counted(s)
    ensures Handle(e, s, m).Ok? ==> Inv(e, Handle(e, s, m).value) && Counted(Handle(e, s, m).value)
  {
    match m
    case JoinMsg(zone, weight, rnd) =>
      JoinHandled(e, s, zone, weight, rnd);
    case HeartbeatMsg(d, reports) =>
      if d < |s.devices| {
        HeartbeatHandled(e, s, d, reports);
      }
    case SyncDownMsg(d, ids) =>
      if d < |s.devices| {
        SyncDownKeeps(e, s, d, ids);
      }
    case ReadMsg(v) => ReadKeeps(e, s, v);
    case WriteMsg(v) => WriteKeeps(e, s, v);
  }

  lemma ReadKeeps(e: Edition, s: State, v: nat)
    requires Inv(e, s) && Counted(s)
    ensures var r := Handle(e, s, ReadMsg(v)); r.Ok? ==> Inv(e, r.value) && Counted(r.value)
  {
    if v < |s.vnodes| {
      CursorKeeps(e, s, Handle(e, s, ReadMsg(v)).value);
    }
  }

  lemma WriteKeeps(e: Edition, s: State, v: nat)
    requires Inv(e, s) && Counted(s)
    ensures var r := Handle(e, s, WriteMsg(v)); r.Ok? ==> Inv(e, r.value) && Counted(r.value)
  {
    if v < |s.vnodes| {
      WriteHandled(e, s, v);
      if Handle(e, s, WriteMsg(v)).Ok? {
        CursorKeeps(e, s, Handle(e, s, WriteMsg(v)).value);
      }
    }
  }

  lemma {:induction false} RunFromKeeps(e: Edition, s: State, ms: seq<Message>)
    requires Inv(e, s) && Counted(s)
    ensures Run(e, s, ms).Ok? ==> Inv(e, Run(e, s, ms).value) && Counted(Run(e, s, ms).value)
    decreases |ms|
  {
    if ms != [] {
      HandleKeeps(e, s, ms[0]);
      if Handle(e, s, ms[0]).Ok? {
        RunFromKeeps(e, Handle(e, s, ms[0]).value, ms[1..]);
      }
    }
  }

  lemma BootInv(e: Edition, n: nat, rc: int)
    ensures Inv(e, Boot(n, rc)) && Counted(Boot(n, rc))
  {
  }

  /** `s` is the state after some run that did not fault. */
  ghost predicate Reached(e: Edition, n: nat, rc: int, s: State) {
    exists ms :: Run(e, Boot(n, rc), ms) == Ok(s)
  }

  /** Every run keeps the invariant, in every edition. */
  lemma RunInv(e: Edition, n: nat, rc: int, s: State)
    requires Reached(e, n, rc, s)
    ensures Inv(e, s) && Counted(s)
  {
    var ms :| Run(e, Boot(n, rc), ms) == Ok(s);
    BootInv(e, n, rc);
    RunFromKeeps(e, Boot(n, rc), ms);
  }

  // ---------------------------------------------------------------------------------------------
  // Read requests in a row
  // ---------------------------------------------------------------------------------------------

  function ReadMessages(v: nat, m: nat): seq<Message> {
    seq(m, _ => ReadMsg(v))
  }

  /** `m` read requests for one vnode move its read cursor as `m` scans do, and change nothing else. */
  lemma {:induction false} ReadRun(e: Edition, s: State, v: nat, m: nat)
    requires v < |s.vnodes|
    ensures Run(e, s, ReadMessages(v, m)) == Ok(s.(vnodes := s.vnodes[v := Reads(s.vnodes[v], m).0]))
    ensures Reads(s.vnodes[v], m).0 == s.vnodes[v].(rd := Reads(s.vnodes[v], m).0.rd)
    decreases m
  {
    if m == 0 {
      assert s.vnodes[v := s.vnodes[v]] == s.vnodes;
    } else {
      var vn' := ReadReplica(s.vnodes[v]).0;
      var s' := s.(vnodes := s.vnodes[v := vn']);
      ReadReplicaIs(s.vnodes[v], 0);
      ReadRun(e, s', v, m - 1);
      assert ReadMessages(v, m)[1..] == ReadMessages(v, m - 1);
      assert s'.vnodes[v := Reads(vn', m - 1).0] == s.vnodes[v := Reads(vn', m - 1).0];
    }
  }

  /** What a read request is answered after `i` others. */
  function ReadAnswer(e: Edition, s: State, v: nat, i: nat): Option<nat>
    requires v < |s.vnodes|
  {
    ReadRun(e, s, v, i);
    ReadReplica(Run(e, s, ReadMessages(v, i)).value.vnodes[v]).1
  }

  function ReadAnswers(e: Edition, s: State, v: nat, m: nat): seq<Option<nat>>
    requires v < |s.vnodes|
  {
    seq(m, i requires 0 <= i < m => ReadAnswer(e, s, v, i))
  }

  lemma {:induction false} ReadAnswersAre(e: Edition, s: State, v: nat, m: nat)
    requires v < |s.vnodes|
    ensures ReadAnswers(e, s, v, m) == Reads(s.vnodes[v], m).1
    decreases m
  {
    if m > 0 {
      ReadAnswersAre(e, s, v, m - 1);
      LastAnswer(e, s, v, m - 1);
      assert ReadAnswers(e, s, v, m) == ReadAnswers(e, s, v, m - 1) + [ReadAnswer(e, s, v, m - 1)];
    }
  }

  lemma LastAnswer(e: Edition, s: State, v: nat, m: nat)
    requires v < |s.vnodes|
    ensures Reads(s.vnodes[v], m + 1).1 == Reads(s.vnodes[v], m).1 + [ReadAnswer(e, s, v, m)]
  {
    ReadRun(e, s, v, m);
    ReadsMore(s.vnodes[v], m);
  }

  /**
   Whatever the master went through: the next k read requests for a vnode with k ACTIVE replicas are answered with each
   of them once, and then the round begins again. Each answer is the one given in the state after the requests before.
   */
  lemma ReadRequestsAreFair(e: Edition, s: State, v: nat)
    requires v < |s.vnodes|
    ensures var (rs, k) := (s.vnodes[v].replicas, |ActiveSet(s.vnodes[v].replicas)|);
            EachOnce(rs, ReadAnswers(e, s, v, k)) && (k > 0 ==> ReadAnswer(e, s, v, k) == ReadAnswer(e, s, v, 0))
  {
    var k := |ActiveSet(s.vnodes[v].replicas)|;
    ReadsAreFair(s.vnodes[v]);
    ReadAnswersAre(e, s, v, k);
    ReadAnswersAre(e, s, v, k + 1);
    assert k > 0 ==> ReadAnswers(e, s, v, k + 1)[k] == ReadAnswers(e, s, v, k + 1)[0];
  }

  // ---------------------------------------------------------------------------------------------
  // Events and statuses
  // ---------------------------------------------------------------------------------------------

  /** How many events of the list are for vnode `v`. */
  function EventsFor(events: seq<Event>, v: nat): nat {
    if events == [] then 0 else (if events[0].vnode == v then 1 else 0) + EventsFor(events[1..], v)
  }

  lemma {:induction false} EventsForNone(events: seq<Event>, v: nat)
    requires forall i :: 0 <= i < |events| ==> events[i].vnode != v
    ensures EventsFor(events, v) == 0
  {
    if events != [] {
      EventsForNone(events[1..], v);
    }
  }

  lemma {:induction false} EventsForOne(events: seq<Event>, v: nat, k: nat)
    requires k < |events| && events[k].vnode == v
    requires forall i :: 0 <= i < |events| && i != k ==> events[i].vnode != v
    ensures EventsFor(events, v) == 1
  {
    if k == 0 {
      EventsForNone(events[1..], v);
    } else {
      EventsForOne(events[1..], v, k - 1);
    }
  }

  lemma OwedList(dev: Device)
    ensures forall x :: x in dev.pending + dev.syncing <==> x in Owed(dev)
    ensures multiset(dev.pending + dev.syncing) == Owed(dev)
  {
    assert forall x :: x in dev.pending + dev.syncing <==> x in multiset(dev.pending + dev.syncing);
  }

  lemma UniqueOwed(e: Edition, s: State, d: nat)
    requires Inv(e, s) && d < |s.devices|
    ensures var list := s.devices[d].pending + s.devices[d].syncing;
            forall i, j :: 0 <= i < j < |list| ==> list[i].vnode != list[j].vnode
  {
    var dev := s.devices[d];
    var list := dev.pending + dev.syncing;
    OwedList(dev);
    forall i, j | 0 <= i < j < |list|
      ensures list[i].vnode != list[j].vnode
    {
      assert list[i] in list && list[j] in list;
      OwedIsSound(e, s, d, list[i]);
      OwedIsSound(e, s, d, list[j]);
      if list[i].vnode == list[j].vnode {
        var v := list[i].vnode;
        assert VnodeInv(e, s.devices, s.vnodes[v].replicas, v);
        assert (d, list[i].dest) == (d, list[j].dest);
        assert Owed(dev)[Event(v, list[i].dest)] <= 1;
        TwiceCounts(list, i, j);
      }
    }
  }

  /** In a list of events for different vnodes, one is for `v` if any is. */
  lemma EventsForUnique(list: seq<Event>, v: nat)
    requires forall i, j :: 0 <= i < j < |list| ==> list[i].vnode != list[j].vnode
    ensures EventsFor(list, v) == if exists ev :: ev in list && ev.vnode == v then 1 else 0
  {
    if ev :| ev in list && ev.vnode == v {
      var k :| 0 <= k < |list| && list[k] == ev;
      EventsForOne(list, v, k);
    } else {
      assert forall i :: 0 <= i < |list| ==> list[i] in list;
      EventsForNone(list, v);
    }
  }

  lemma SourceHasEvent(e: Edition, s: State, v: nat, d: nat)
    requires Inv(e, s) && v < |s.vnodes| && d < |s.devices|
    ensures SourceOn(s.vnodes[v].replicas, d) <==>
            exists ev :: ev in s.devices[d].pending + s.devices[d].syncing && ev.vnode == v
  {
    OwedList(s.devices[d]);
    assert VnodeInv(e, s.devices, s.vnodes[v].replicas, v);
    if SourceOn(s.vnodes[v].replicas, d) {
      var p :| p in Links(s.devices, v) && p.0 == d;
      assert p == (d, p.1);
      assert Event(v, p.1) in s.devices[d].pending + s.devices[d].syncing;
    }
    if ev :| ev in s.devices[d].pending + s.devices[d].syncing && ev.vnode == v {
      OwedIsSound(e, s, d, ev);
    }
  }

  lemma EventPerSource(e: Edition, s: State, v: nat, d: nat)
    requires Inv(e, s) && v < |s.vnodes| && d < |s.devices|
    ensures EventsFor(s.devices[d].pending + s.devices[d].syncing, v) ==
            if SourceOn(s.vnodes[v].replicas, d) then 1 else 0
  {
    UniqueOwed(e, s, d);
    SourceHasEvent(e, s, v, d);
    EventsForUnique(s.devices[d].pending + s.devices[d].syncing, v);
  }

  /**
   A device has exactly one event for a vnode, pending and syncing together, if its replica is COPY_SRC or MOVE_SRC,
   and none otherwise.
   */
  lemma OneEventPerSource(e: Edition, n: nat, rc: int, s: State, v: nat, d: nat)
    requires Reached(e, n, rc, s) && v < |s.vnodes| && d < |s.devices|
    ensures EventsFor(s.devices[d].pending + s.devices[d].syncing, v) ==
            if SourceOn(s.vnodes[v].replicas, d) then 1 else 0
  {
    RunInv(e, n, rc, s);
    EventPerSource(e, s, v, d);
  }

  /** Device `d` owes this event. */
  ghost predicate Owes(s: State, d: nat, ev: Event) {
    d < |s.devices| && ev in s.devices[d].pending + s.devices[d].syncing
  }

  lemma OwesIsLink(s: State, d: nat, v: nat, x: nat)
    ensures Owes(s, d, Event(v, x)) <==> (d, x) in Links(s.devices, v)
  {
    if d < |s.devices| {
      OwedList(s.devices[d]);
    }
  }

  lemma EventPerWaiting(e: Edition, s: State, v: nat, x: nat)
    requires Inv(e, s) && v < |s.vnodes|
    ensures WaitsOn(s.vnodes[v].replicas, x) <==> exists d: nat :: d != x && Owes(s, d, Event(v, x))
    ensures forall c: nat, d: nat :: Owes(s, c, Event(v, x)) && Owes(s, d, Event(v, x)) ==> c == d
  {
    assert VnodeInv(e, s.devices, s.vnodes[v].replicas, v);
    forall d: nat
      ensures Owes(s, d, Event(v, x)) <==> (d, x) in Links(s.devices, v)
    {
      OwesIsLink(s, d, v, x);
    }
    if WaitsOn(s.vnodes[v].replicas, x) {
      var p :| p in Links(s.devices, v) && p.1 == x;
      assert p == (p.0, x);
      assert Owes(s, p.0, Event(v, x));
    }
  }

  /**
   A replica waits exactly when some other device owes an event to it, and then exactly one device does.
   */
  lemma OneEventPerWaiting(e: Edition, n: nat, rc: int, s: State, v: nat, x: nat)
    requires Reached(e, n, rc, s) && v < |s.vnodes|
    ensures WaitsOn(s.vnodes[v].replicas, x) <==> exists d: nat :: d != x && Owes(s, d, Event(v, x))
    ensures forall c: nat, d: nat :: Owes(s, c, Event(v, x)) && Owes(s, d, Event(v, x)) ==> c == d
  {
    RunInv(e, n, rc, s);
    EventPerWaiting(e, s, v, x);
  }

  lemma HolderThere(e: Edition, s: State, v: nat)
    requires Inv(e, s) && v < |s.vnodes| && s.vnodes[v].replicas != []
    ensures exists r :: r in s.vnodes[v].replicas && HoldsData(r.status)
  {
    var rs := s.vnodes[v].replicas;
    assert VnodeInv(e, s.devices, rs, v);
    var d: nat :| HolderOn(rs, d);
    assert rs[Find(rs, d)] in rs;
  }

  /** A vnode that has replicas has one with the data: ACTIVE, COPY_SRC or MOVE_SRC. */
  lemma HolderRemains(e: Edition, n: nat, rc: int, s: State, v: nat)
    requires Reached(e, n, rc, s) && v < |s.vnodes| && s.vnodes[v].replicas != []
    ensures exists r :: r in s.vnodes[v].replicas && HoldsData(r.status)
  {
    RunInv(e, n, rc, s);
    HolderThere(e, s, v);
  }

  /** Replicas of `v` that are not MOVE_SRC lie on devices in different zones. */
  ghost predicate ApartIn(s: State, v: nat) {
    v < |s.vnodes| ==>
      var rs := s.vnodes[v].replicas;
      forall i: nat, j: nat :: i < j < |rs| && !rs[i].status.MoveSrc? && !rs[j].status.MoveSrc? ==>
        rs[i].dev < |s.devices| && rs[j].dev < |s.devices| && s.devices[rs[i].dev].zone != s.devices[rs[j].dev].zone
  }

  lemma ZonesApart(e: Edition, s: State, v: nat)
    requires Inv(e, s)
    ensures ApartIn(s, v)
  {
    if v < |s.vnodes| {
      var rs := s.vnodes[v].replicas;
      assert VnodeInv(e, s.devices, rs, v);
      forall i: nat, j: nat | i < j < |rs| && !rs[i].status.MoveSrc? && !rs[j].status.MoveSrc?
        ensures rs[i].dev < |s.devices| && rs[j].dev < |s.devices|
                && s.devices[rs[i].dev].zone != s.devices[rs[j].dev].zone
      {
        FindAt(rs, i);
        FindAt(rs, j);
        assert rs[i] in rs && rs[j] in rs;
        assert LiveOn(rs, rs[i].dev) && LiveOn(rs, rs[j].dev);
      }
    }
  }

  /** Replicas that are not MOVE_SRC lie on different devices in different zones. */
  lemma ZonesDiffer(e: Edition, n: nat, rc: int, s: State, v: nat, i: nat, j: nat)
    requires Reached(e, n, rc, s) && v < |s.vnodes| && i < |s.vnodes[v].replicas| && j < |s.vnodes[v].replicas|
             && i != j
    requires !s.vnodes[v].replicas[i].status.MoveSrc? && !s.vnodes[v].replicas[j].status.MoveSrc?
    ensures s.vnodes[v].replicas[i].dev < |s.devices| && s.vnodes[v].replicas[j].dev < |s.devices|
    ensures s.devices[s.vnodes[v].replicas[i].dev].zone != s.devices[s.vnodes[v].replicas[j].dev].zone
  {
    RunInv(e, n, rc, s);
    ZonesApart(e, s, v);
  }

  /**
   One replica per device; at most min(device count, replica_count) that stay; every replica is listed by its
   device, once; and in the exact editions nothing else is listed.
   */
  lemma PlacementHolds(e: Edition, n: nat, rc: int, s: State, v: nat)
    requires Reached(e, n, rc, s) && v < |s.vnodes|
    ensures Distinct(s.vnodes[v].replicas)
    ensures CountLive(s.vnodes[v].replicas) <= |s.devices|
    ensures CountLive(s.vnodes[v].replicas) > 0 ==> CountLive(s.vnodes[v].replicas) <= s.replicaCount
    ensures forall d: nat :: d < |s.devices| ==>
              && multiset(s.devices[d].listed)[v] <= 1
              && (StatusOf(s.vnodes[v].replicas, d).Some? ==> v in s.devices[d].listed)
              && (Exact(e) && v in s.devices[d].listed ==> StatusOf(s.vnodes[v].replicas, d).Some?)
  {
    RunInv(e, n, rc, s);
    assert VnodeInv(e, s.devices, s.vnodes[v].replicas, v);
    forall d: nat | d < |s.devices|
      ensures v in s.devices[d].listed <==> multiset(s.devices[d].listed)[v] > 0
    {
    }
  }

  // ---------------------------------------------------------------------------------------------
  // Versions
  // ---------------------------------------------------------------------------------------------

  lemma VersionHighest(e: Edition, s: State, v: nat)
    requires Inv(e, s) && v < |s.vnodes|
    ensures s.vnodes[v].version >= 0
    ensures forall a :: a in s.accepted && a.vnode == v ==> a.version <= s.vnodes[v].version
    ensures s.vnodes[v].version > 0 ==> Acceptance(v, s.vnodes[v].version) in s.accepted
  {
    MaxAcceptedIs(s.accepted, v);
  }

  /** A vnode's version is the highest one ever accepted for it, and at least 0. */
  lemma VersionIsHighest(e: Edition, n: nat, rc: int, s: State, v: nat)
    requires Reached(e, n, rc, s) && v < |s.vnodes|
    ensures s.vnodes[v].version >= 0
    ensures forall a :: a in s.accepted && a.vnode == v ==> a.version <= s.vnodes[v].version
    ensures s.vnodes[v].version > 0 ==> Acceptance(v, s.vnodes[v].version) in s.accepted
  {
    RunInv(e, n, rc, s);
    VersionHighest(e, s, v);
  }

  lemma {:induction false} MaxAcceptedIs(accepted: seq<Acceptance>, v: nat)
    ensures var m := MaxAccepted(accepted, v);
            && m >= 0 && (m > 0 ==> Acceptance(v, m) in accepted)
            && forall a :: a in accepted && a.vnode == v ==> a.version <= m
  {
    if accepted != [] {
      var rest, last := accepted[..|accepted| - 1], accepted[|accepted| - 1];
      MaxAcceptedIs(rest, v);
      assert accepted == rest + [last];
    }
  }

  lemma ReportOneTouches(b: Beat, d: nat, r: Report, w: nat)
    requires ReportOne(b, d, r).Ok? && w < |b.s.vnodes|
    ensures var b' := ReportOne(b, d, r).value;
            && |b'.s.vnodes| == |b.s.vnodes|
            && (w != r.id || w !in b.todo ==> b'.s.vnodes[w] == b.s.vnodes[w])
            && (w !in b.todo ==> w !in b'.todo)
  {
    var j := IndexOf(b.todo, r.id);
    if j < |b.todo| {
      assert forall x :: x in RemoveAt(b.todo, j) ==> x in b.todo;
    }
  }

  lemma {:induction false} ReportAllTouches(b: Beat, d: nat, reports: seq<Report>, w: nat)
    requires ReportAll(b, d, reports).Ok? && w < |b.s.vnodes| && w !in b.todo
    ensures var b' := ReportAll(b, d, reports).value; |b'.s.vnodes| == |b.s.vnodes| && b'.s.vnodes[w] == b.s.vnodes[w]
    decreases |reports|
  {
    if reports != [] {
      ReportOneTouches(b, d, reports[0], w);
      ReportAllTouches(ReportOne(b, d, reports[0]).value, d, reports[1..], w);
    }
  }

  lemma LagStatus(s: State, v: nat, d: nat)
    requires v < |s.vnodes| && StatusOf(s.vnodes[v].replicas, d).Some? && Lag(s, v, d).Ok?
    requires Distinct(s.vnodes[v].replicas) && Neutral(StatusOf(s.vnodes[v].replicas, d))
    ensures |Lag(s, v, d).value.0.vnodes| == |s.vnodes|
    ensures StatusOf(Lag(s, v, d).value.0.vnodes[v].replicas, d) != Some(Active)
  {
    var rs := s.vnodes[v].replicas;
    var pos := ReadReplica(s.vnodes[v]).1;
    SetStatusIs(rs, d, Online);
    if pos.Some? {
      PlanReplicas(rs, pos.value, d);
    }
  }

  /** Where one report of a listed vnode leads. */
  lemma ReportOneIs(b: Beat, d: nat, r: Report)
    requires ReportOne(b, d, r).Ok? && IndexOf(b.todo, r.id) < |b.todo|
    ensures 0 <= r.id < |b.s.vnodes| && StatusOf(b.s.vnodes[r.id].replicas, d).Some?
    ensures var st, s' := StatusOf(b.s.vnodes[r.id].replicas, d).value, ReportOne(b, d, r).value.s;
            if IsSource(st) || st.WaitSync? then s' == b.s
            else if r.version < b.s.vnodes[r.id].version then
              Lag(b.s, r.id, d).Ok? && s' == Lag(b.s, r.id, d).value.0
            else s' == Accept(b.s, r.id, d, r.version).0
  {
  }

  /** A replica that was just reported is ACTIVE only with the vnode's version. */
  lemma ReportOneActive(e: Edition, b: Beat, d: nat, r: Report)
    requires Inv(e, b.s) && ReportOne(b, d, r).Ok? && IndexOf(b.todo, r.id) < |b.todo|
    ensures var vs := ReportOne(b, d, r).value.s.vnodes;
            && 0 <= r.id < |vs|
            && (StatusOf(vs[r.id].replicas, d) == Some(Active) ==> vs[r.id].version == r.version)
  {
    ReportOneIs(b, d, r);
    var rs := b.s.vnodes[r.id].replicas;
    if Neutral(StatusOf(rs, d)) && r.version < b.s.vnodes[r.id].version {
      assert VnodeInv(e, b.s.devices, rs, r.id);
      LagStatus(b.s, r.id, d);
    }
  }

  lemma ReportOneCounts(b: Beat, d: nat, r: Report, v: nat)
    requires ReportOne(b, d, r).Ok?
    ensures var todo' := ReportOne(b, d, r).value.todo;
            if r.id == v && v in b.todo then multiset(todo')[v] == multiset(b.todo)[v] - 1
            else multiset(todo')[v] == multiset(b.todo)[v]
  {
    ReportOneTodo(b, d, r);
    assert v in b.todo <==> multiset(b.todo)[v] > 0;
  }

  lemma FirstReportActive(e: Edition, b: Beat, d: nat, reports: seq<Report>)
    requires Inv(e, b.s) && ReportAll(b, d, reports).Ok? && reports != []
    requires 0 <= reports[0].id < |b.s.vnodes| && multiset(b.todo)[reports[0].id] == 1
    ensures |ReportAll(b, d, reports).value.s.vnodes| == |b.s.vnodes|
    ensures var vn := ReportAll(b, d, reports).value.s.vnodes[reports[0].id];
            StatusOf(vn.replicas, d) == Some(Active) ==> vn.version == reports[0].version
  {
    var v: nat := reports[0].id;
    assert v in b.todo;
    var b' := ReportOne(b, d, reports[0]).value;
    ReportOneKeeps(e, b, d, reports[0]);
    ReportOneCounts(b, d, reports[0], v);
    ReportOneActive(e, b, d, reports[0]);
    assert v !in b'.todo;
    ReportAllTouches(b', d, reports[1..], v);
  }

  /** Report `i` is the first for vnode `v`. */
  ghost predicate FirstAt(reports: seq<Report>, i: nat, v: nat) {
    i < |reports| && reports[i].id == v && forall j :: 0 <= j < i ==> reports[j].id != v
  }

  lemma FirstAtRest(reports: seq<Report>, i: nat, v: nat)
    requires FirstAt(reports, i, v) && i > 0
    ensures FirstAt(reports[1..], i - 1, v) && reports[1..][i - 1] == reports[i] && reports[0].id != v
  {
  }

  lemma {:induction false} ReportAllActive(e: Edition, b: Beat, d: nat, reports: seq<Report>, i: nat, v: nat)
    requires Inv(e, b.s) && ReportAll(b, d, reports).Ok? && FirstAt(reports, i, v)
    requires v < |b.s.vnodes| && multiset(b.todo)[v] == 1
    ensures |ReportAll(b, d, reports).value.s.vnodes| == |b.s.vnodes|
    ensures var vn := ReportAll(b, d, reports).value.s.vnodes[v];
            StatusOf(vn.replicas, d) == Some(Active) ==> vn.version == reports[i].version
    decreases |reports|
  {
    if i == 0 {
      FirstReportActive(e, b, d, reports);
    } else {
      ReportOneKeeps(e, b, d, reports[0]);
      ReportOneCounts(b, d, reports[0], v);
      FirstAtRest(reports, i, v);
      ReportAllActive(e, ReportOne(b, d, reports[0]).value, d, reports[1..], i - 1, v);
    }
  }

  /**
   When its heartbeat is done, a replica whose first report in it gave a smaller version than the vnode's
   is not ACTIVE.
   */
  lemma LaggardIsNotActive(e: Edition, n: nat, rc: int, s: State, d: nat, reports: seq<Report>, i: nat)
    requires Reached(e, n, rc, s) && d < |s.devices| && Heartbeat(s, d, reports).Ok? && i < |reports|
    requires forall j :: 0 <= j < i ==> reports[j].id != reports[i].id
    requires 0 <= reports[i].id < |s.vnodes| && reports[i].id in s.devices[d].listed
    ensures var s' := Heartbeat(s, d, reports).value.0;
            && |s'.vnodes| == |s.vnodes|
            && (reports[i].version < s'.vnodes[reports[i].id].version ==>
                  StatusOf(s'.vnodes[reports[i].id].replicas, d) != Some(Active))
  {
    RunInv(e, n, rc, s);
    var v: nat := reports[i].id;
    assert VnodeInv(e, s.devices, s.vnodes[v].replicas, v);
    assert multiset(s.devices[d].listed)[v] > 0;
    DrainKeeps(e, s, d, []);
    var (s1, reply) := Drain(s, d, []).value;
    ReportAllActive(e, Beat(s1, s.devices[d].listed, reply), d, reports, i, v);
  }
}
