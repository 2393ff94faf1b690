/**
 The master as the object it is: handlers that update devices and vnodes in place. Each handler is proved equal
 to its step in Protocol, so that everything proved about runs holds of it.
 */
module ProxyMaster {
  import opened ProxyTypes
  import opened NodeInfo
  import opened NodeObjects
  import opened Protocol
  import opened Steps
  import opened JoinSteps
  import opened JoinLoops
  import opened SlaveMerge
  import opened WriteAddress

  /** What a sync-down ends in from here. */
  ghost function SyncRest(e: Edition, s: State, d: nat, ids: seq<int>): Outcome<State> {
    if d < |s.devices| then SyncDown(e, s, d, ids) else Fault
  }

  lemma SyncRestStep(e: Edition, s: State, d: nat, ids: seq<int>)
    requires d < |s.devices| && ids != []
    ensures var r := SyncDownOne(e, s, d, ids[0]);
            SyncRest(e, s, d, ids) == if r.Ok? then SyncRest(e, r.value, d, ids[1..]) else Fault
  {
  }

  lemma SyncRestEnds(e: Edition, s: State, d: nat)
    requires d < |s.devices|
    ensures forall ids :: |ids| == 0 ==> SyncRest(e, s, d, ids) == Ok(s)
  {
  }

  /** What a copying join ends in from vnode `v` on. */
  ghost function CopyRest(s: State, v: nat, nd: nat): Outcome<State> {
    if v <= |s.vnodes| && nd < |s.devices| then CopyFrom(s, v, nd) else Fault
  }

  lemma CopyRestStep(s: State, v: nat, nd: nat)
    requires v < |s.vnodes| && nd < |s.devices|
    ensures CopyRest(s, v, nd) == if CopyOne(s, v, nd).Ok? then CopyRest(CopyOne(s, v, nd).value, v + 1, nd) else Fault
  {
  }

  lemma CopyRestEnds(s: State, nd: nat)
    requires nd < |s.devices|
    ensures CopyRest(s, |s.vnodes|, nd) == Ok(s)
  {
  }

  /** What a join ends in once the joining device has its handle. */
  ghost function Balanced(e: Edition, s: State, nd: nat, total: nat, weight: int, rnd: nat -> nat): Outcome<State> {
    if nd >= |s.devices| then Fault
    else if nd < s.replicaCount then CopyRest(s, 0, nd)
    else if weight == 0 then Fault
    else MoveDonors(e, s, 0, nd, Truncated(total, weight), rnd, 0)
  }

  lemma JoinIs(e: Edition, s: State, zone: int, weight: int, rnd: nat -> nat)
    ensures Join(e, s, zone, weight, rnd) ==
            Balanced(e, AddDevice(s, zone, weight), |s.devices|, TotalCount(s.devices),
                     TotalWeight(s.devices) + weight, rnd)
  {
  }

  /** What the selection loop ends in from here. */
  ghost function Selection(e: Edition, s: State, donor: nat, nd: nat, working: seq<nat>, quota: int, rnd: nat -> nat,
                           drawn: nat): Outcome<Draws>
  {
    if donor < |s.devices| && nd < |s.devices| && donor != nd && |working| <= |s.devices[donor].listed| then
      MoveFrom(e, s, donor, nd, working, quota, rnd, drawn)
    else Fault
  }

  lemma SelectionEnds(e: Edition, s: State, donor: nat, nd: nat, quota: int, rnd: nat -> nat, drawn: nat)
    requires donor < |s.devices| && nd < |s.devices| && donor != nd
    ensures forall working :: |working| == 0 ==>
              Selection(e, s, donor, nd, working, quota, rnd, drawn) == Ok(Draws(s, drawn))
  {
  }

  /** One draw of the selection loop. */
  lemma DrawIs(e: Edition, s: State, donor: nat, nd: nat, working: seq<nat>, quota: int, rnd: nat -> nat, drawn: nat,
               v: nat)
    requires donor < |s.devices| && nd < |s.devices| && donor != nd
    requires 0 < |working| <= |s.devices[donor].listed|
    requires v == if e.drawsFromCopy then working[rnd(drawn) % |working|]
             else s.devices[donor].listed[rnd(drawn) % |working|]
    ensures var i := rnd(drawn) % |working|;
            var r := MoveOne(e, s, donor, v, nd);
            && (r.Ok? ==> donor < |r.value.0.devices| && r.value.0.devices[donor].listed == s.devices[donor].listed)
            && Selection(e, s, donor, nd, working, quota, rnd, drawn) ==
               if r.Fault? then Fault
               else if r.value.1 && quota <= 1 then Ok(Draws(r.value.0, drawn + 1))
               else Selection(e, r.value.0, donor, nd, RemoveAt(working, i), if r.value.1 then quota - 1 else quota,
                              rnd, drawn + 1)
  {
  }

  class Master {
    var devices: seq<DeviceInfo>
    var vnodes: seq<VnodeInfo>
    const replicaCount: int
    ghost var accepted: seq<Acceptance>

    /** No object is in a container twice. */
    ghost predicate Valid()
      reads this
    {
      && (forall i, j :: 0 <= i < j < |devices| ==> devices[i] != devices[j])
      && (forall i, j :: 0 <= i < j < |vnodes| ==> vnodes[i] != vnodes[j])
    }

    ghost function View(): State
      reads this, devices, vnodes
    {
      State(DeviceViews(devices), VnodeViews(vnodes), replicaCount, accepted)
    }

    /** The master before any device joined. */
    constructor (vnodeCount: nat, replicaCount: int)
      ensures Valid() && View() == State([], seq(vnodeCount, _ => Vnode(0, 0, 0, [])), replicaCount, [])
    {
      devices, vnodes, accepted := [], [], [];
      this.replicaCount := replicaCount;
      new;
      for i := 0 to vnodeCount
        invariant Valid() && devices == [] && accepted == [] && |vnodes| == i
        invariant forall k :: 0 <= k < i ==> fresh(vnodes[k]) && vnodes[k].View() == Vnode(0, 0, 0, [])
      {
        var vn := new VnodeInfo();
        vnodes := vnodes + [vn];
      }
      assert VnodeViews(vnodes) == seq(vnodeCount, _ => Vnode(0, 0, 0, []));
    }

    // -------------------------------------------------------------------------------------------
    // Single updates
    // -------------------------------------------------------------------------------------------

    method SetReplicas(v: nat, rs: seq<Replica>)
      requires Valid() && v < |vnodes|
      modifies vnodes[v]
      ensures View() == WithReplicas(old(View()), v, rs)
    {
      vnodes[v].replicas := rs;
      assert DeviceViews(devices) == old(DeviceViews(devices));
      assert VnodeViews(vnodes) == old(VnodeViews(vnodes))[v := vnodes[v].View()];
    }

    method ChooseSource(v: nat) returns (pos: Option<nat>)
      requires Valid() && v < |vnodes|
      modifies vnodes[v]
      ensures var (vn, p) := ReadReplica(old(View()).vnodes[v]);
              View() == old(View()).(vnodes := old(View()).vnodes[v := vn]) && pos == p
    {
      pos := vnodes[v].GetReadReplica();
      assert DeviceViews(devices) == old(DeviceViews(devices));
      assert VnodeViews(vnodes) == old(VnodeViews(vnodes))[v := vnodes[v].View()];
    }

    method AppendPending(d: nat, ev: Event)
      requires Valid() && d < |devices|
      modifies devices[d]
      ensures View() == PushPending(old(View()), d, ev)
    {
      devices[d].pending := devices[d].pending + [ev];
      assert DeviceViews(devices) == old(DeviceViews(devices))[d := devices[d].View()];
      assert VnodeViews(vnodes) == old(VnodeViews(vnodes));
    }

    method AppendListed(d: nat, v: nat)
      requires Valid() && d < |devices|
      modifies devices[d]
      ensures View() == PushListed(old(View()), d, v)
    {
      devices[d].listed := devices[d].listed + [v];
      assert DeviceViews(devices) == old(DeviceViews(devices))[d := devices[d].View()];
      assert VnodeViews(vnodes) == old(VnodeViews(vnodes));
    }

    method EraseFromListed(d: nat, v: nat)
      requires Valid() && d < |devices|
      modifies devices[d]
      ensures View() == EraseListed(old(View()), d, v)
    {
      var _ := devices[d].EraseVnode(v);
      assert DeviceViews(devices) == old(DeviceViews(devices))[d := devices[d].View()];
      assert VnodeViews(vnodes) == old(VnodeViews(vnodes));
    }

    method PopEvent(d: nat, id: nat) returns (ev: Option<Event>)
      requires Valid() && d < |devices|
      modifies devices[d]
      ensures var s := old(View());
              var i := EventIndex(s.devices[d].syncing, id);
              if i == |s.devices[d].syncing| then View() == s && ev == None
              else
                && ev == Some(s.devices[d].syncing[i])
                && View() == s.(devices := s.devices[d := s.devices[d].(syncing := RemoveAt(s.devices[d].syncing, i))])
    {
      ev := devices[d].PopSyncing(id);
      assert DeviceViews(devices) == old(DeviceViews(devices))[d := devices[d].View()];
      assert VnodeViews(vnodes) == old(VnodeViews(vnodes));
    }

    // -------------------------------------------------------------------------------------------
    // Heartbeat
    // -------------------------------------------------------------------------------------------

    /** One sync event goes out with the reply. */
    method SendEvent(d: nat) returns (unit: Outcome<Reply>)
      requires Valid() && d < |devices| && devices[d].pending != []
      modifies devices
      ensures match DrainOne(old(View()), d)
              case Fault => unit == Fault
              case Ok((s, u)) => View() == s && unit == Ok(u)
      ensures |devices[d].pending| < old(|devices[d].pending|)
    {
      var dev := devices[d];
      var ev := dev.pending[0];
      dev.pending := dev.pending[1..];
      dev.syncing := dev.syncing + [ev];
      assert DeviceViews(devices) == old(DeviceViews(devices))[d := dev.View()];
      assert VnodeViews(vnodes) == old(VnodeViews(vnodes));
      if ev.vnode >= |vnodes| || ev.dest >= |devices| {
        return Fault;
      }
      var i := vnodes[ev.vnode].GetReplicaInfo(d);
      if i == |vnodes[ev.vnode].replicas| {
        return Fault;
      }
      return Ok(Reply(ev.vnode, vnodes[ev.vnode].replicas[i].status, Some(ev.dest)));
    }

    method SendEvents(d: nat) returns (units: Outcome<seq<Reply>>)
      requires Valid() && d < |devices|
      modifies devices
      ensures match Drain(old(View()), d, [])
              case Fault => units == Fault
              case Ok((s, us)) => View() == s && units == Ok(us)
    {
      var reply: seq<Reply> := [];
      while devices[d].pending != []
        invariant Valid() && Drain(View(), d, reply) == Drain(old(View()), d, [])
        decreases |devices[d].pending|
      {
        var unit := SendEvent(d);
        if unit.Fault? {
          return Fault;
        }
        reply := reply + [unit.value];
      }
      return Ok(reply);
    }

    /** The branch of a report that lags behind the vnode's version. */
    method AskSync(v: nat, d: nat) returns (st: Outcome<Status>)
      requires Valid() && v < |vnodes| && Find(vnodes[v].replicas, d) < |vnodes[v].replicas|
      modifies vnodes[v], devices
      ensures match Lag(old(View()), v, d)
              case Fault => st == Fault
              case Ok((s, u)) => View() == s && st == Ok(u)
    {
      var own := vnodes[v].GetReplicaInfo(d);
      var rs := vnodes[v].replicas;
      assert View().vnodes[v] == vnodes[v].View();
      var pos := ChooseSource(v);
      if pos.None? {
        SetReplicas(v, rs[own := Replica(Online, d)]);
        return Ok(Online);
      }
      var src := rs[pos.value].dev;
      if src >= |devices| {
        return Fault;
      }
      SetReplicas(v, rs[own := Replica(WaitSync, d)][pos.value := Replica(CopySrc, src)]);
      AppendPending(src, Event(v, d));
      return Ok(WaitSync);
    }

    /** The branch of a report that does not lag behind. */
    method AcceptVersion(v: nat, d: nat, version: int) returns (st: Status)
      requires Valid() && v < |vnodes| && Find(vnodes[v].replicas, d) < |vnodes[v].replicas|
      modifies this`accepted, vnodes[v]
      ensures (View(), st) == Accept(old(View()), v, d, version)
    {
      assert View().vnodes[v] == vnodes[v].View();
      var vn := vnodes[v];
      var i := vn.GetReplicaInfo(d);
      st := vn.replicas[i].status;
      assert vn.replicas == vn.replicas[i := Replica(st, d)];
      if version == vn.version {
        st := Active;
        vn.replicas := vn.replicas[i := Replica(Active, d)];
      } else {
        vn.version := version;
      }
      accepted := accepted + [Acceptance(v, version)];
      assert DeviceViews(devices) == old(DeviceViews(devices));
      assert VnodeViews(vnodes) == old(VnodeViews(vnodes))[v := vn.View()];
    }

    /** One reported vnode; `todo` and `reply` are the handler's working copies. */
    method MergeReport(d: nat, r: Report, todo: seq<nat>, reply: seq<Reply>)
      returns (res: Outcome<(seq<nat>, seq<Reply>)>)
      requires Valid() && d < |devices|
      modifies this`accepted, vnodes, devices
      ensures match ReportOne(Beat(old(View()), todo, reply), d, r)
              case Fault => res == Fault
              case Ok(b) => View() == b.s && res == Ok((b.todo, b.reply))
    {
      var j := PositionOf(todo, r.id);
      if j == |todo| {
        return Ok((todo, reply + [Reply(r.id, Offline, None)]));
      }
      var v := todo[j];
      var todo' := RemoveAt(todo, j);
      if v >= |vnodes| {
        return Fault;
      }
      assert View().vnodes[v] == vnodes[v].View();
      var i := vnodes[v].GetReplicaInfo(d);
      if i == |vnodes[v].replicas| {
        return Fault;
      }
      var st := vnodes[v].replicas[i].status;
      if IsSource(st) {
        return Ok((todo', reply));
      } else if st.WaitSync? {
        return Ok((todo', reply + [Reply(r.id, WaitSync, None)]));
      } else if r.version < vnodes[v].version {
        var asked := AskSync(v, d);
        if asked.Fault? {
          return Fault;
        }
        st := asked.value;
      } else {
        st := AcceptVersion(v, d, r.version);
      }
      return Ok((todo', reply + [Reply(r.id, st, None)]));
    }

    /** The vnodes the device should have but did not report. */
    method ReplyUnreported(d: nat, todo: seq<nat>, reply: seq<Reply>) returns (res: Outcome<seq<Reply>>)
      ensures res == Unreported(View(), d, todo, reply)
    {
      var out := reply;
      for k := 0 to |todo|
        invariant Unreported(View(), d, todo, reply) == Unreported(View(), d, todo[k..], out)
      {
        var v := todo[k];
        assert todo[k..][0] == v && todo[k..][1..] == todo[k + 1..];
        if v >= |vnodes| {
          return Fault;
        }
        var i := vnodes[v].GetReplicaInfo(d);
        if i == |vnodes[v].replicas| {
          return Fault;
        }
        var st := vnodes[v].replicas[i].status;
        if !IsSource(st) {
          out := out + [Reply(v, st, None)];
        }
      }
      return Ok(out);
    }

    /** master_do_device_merge: the whole heartbeat. */
    method MergeDevice(d: nat, reports: seq<Report>) returns (res: Outcome<seq<Reply>>)
      requires Valid() && d < |devices|
      modifies this`accepted, vnodes, devices
      ensures match Heartbeat(old(View()), d, reports)
              case Fault => res == Fault
              case Ok((s, reply)) => View() == s && res == Ok(reply)
    {
      var todo := devices[d].listed;
      var units := SendEvents(d);
      if units.Fault? {
        return Fault;
      }
      var reply := units.value;
      ghost var b := Beat(View(), todo, reply);
      for k := 0 to |reports|
        invariant Valid() && ReportAll(b, d, reports) == ReportAll(Beat(View(), todo, reply), d, reports[k..])
      {
        assert reports[k..][0] == reports[k] && reports[k..][1..] == reports[k + 1..];
        var r := MergeReport(d, reports[k], todo, reply);
        if r.Fault? {
          return Fault;
        }
        todo, reply := r.value.0, r.value.1;
      }
      res := ReplyUnreported(d, todo, reply);
    }

    // -------------------------------------------------------------------------------------------
    // Address requests
    // -------------------------------------------------------------------------------------------

    /** A client asks where to read from. */
    method AnswerRead(v: nat) returns (res: Outcome<Option<nat>>)
      requires Valid()
      modifies vnodes
      ensures v >= |vnodes| ==> res == Fault
      ensures v < |vnodes| ==>
                var (vn, pos) := ReadReplica(old(View()).vnodes[v]);
                View() == old(View()).(vnodes := old(View()).vnodes[v := vn]) && res == Ok(pos)
    {
      if v >= |vnodes| {
        return Fault;
      }
      var pos := ChooseSource(v);
      return Ok(pos);
    }

    /** Read requests for one vnode, one after the other. */
    method AnswerReads(v: nat, m: nat) returns (answers: seq<Option<nat>>)
      requires Valid() && v < |vnodes|
      modifies vnodes
      ensures var (vn, all) := Reads(old(View()).vnodes[v], m);
              View() == old(View()).(vnodes := old(View()).vnodes[v := vn]) && answers == all
    {
      answers := [];
      ghost var s := View();
      assert s.vnodes[v := s.vnodes[v]] == s.vnodes;
      for i := 0 to m
        invariant Valid() && |vnodes| == |s.vnodes|
        invariant View() == s.(vnodes := s.vnodes[v := Reads(s.vnodes[v], i).0])
        invariant answers == Reads(s.vnodes[v], i).1
      {
        ghost var vn := Reads(s.vnodes[v], i).0;
        ReadsMore(s.vnodes[v], i);
        assert s.vnodes[v := vn][v := ReadReplica(vn).0] == s.vnodes[v := ReadReplica(vn).0];
        var r := AnswerRead(v);
        answers := answers + [r.value];
      }
    }

    /** A client asks where to write to. */
    method AnswerWrite(e: Edition, v: nat) returns (res: Outcome<Option<seq<nat>>>)
      requires Valid()
      modifies vnodes
      ensures v >= |vnodes| ==> res == Fault
      ensures v < |vnodes| ==>
                match WriteRequest(old(View()).vnodes[v], e.ownCursor, replicaCount)
                case Fault => res == Fault
                case Ok((vn, answer)) =>
                  View() == old(View()).(vnodes := old(View()).vnodes[v := vn]) && res == Ok(answer)
    {
      if v >= |vnodes| {
        return Fault;
      }
      assert View().vnodes[v] == vnodes[v].View();
      res := OfferAddresses(vnodes[v], replicaCount, e.ownCursor);
      assert DeviceViews(devices) == old(DeviceViews(devices));
      assert VnodeViews(vnodes) == old(VnodeViews(vnodes))[v := vnodes[v].View()];
    }

    // -------------------------------------------------------------------------------------------
    // Sync-down
    // -------------------------------------------------------------------------------------------

    /** The end of a sync at its source: a moving replica goes, another one is ACTIVE. */
    method EndSource(e: Edition, d: nat, v: nat, rs: seq<Replica>, src: nat)
      requires Valid() && d < |devices| && v < |vnodes| && src == Find(rs, d) < |rs|
      modifies vnodes, devices
      ensures View() ==
              if rs[src].status.MoveSrc? then
                var s := WithReplicas(old(View()), v, Destroy(rs, d));
                if e.erasesMoved then EraseListed(s, d, v) else s
              else WithReplicas(old(View()), v, rs[src := Replica(Active, d)])
    {
      if rs[src].status.MoveSrc? {
        SetReplicas(v, Destroy(rs, d));
        if e.erasesMoved {
          EraseFromListed(d, v);
        }
      } else {
        SetReplicas(v, rs[src := Replica(Active, d)]);
      }
    }

    /** Device `d` says that its sync of vnode `id` is done. */
    method FinishSync(e: Edition, d: nat, id: int) returns (res: Outcome<()>)
      requires Valid() && d < |devices|
      modifies vnodes, devices
      ensures match SyncDownOne(e, old(View()), d, id)
              case Fault => res == Fault
              case Ok(s) => View() == s && res == Ok(())
    {
      if id < 0 || id >= |vnodes| {
        return Fault;
      }
      ghost var s := View();
      var src := vnodes[id].GetReplicaInfo(d);
      var ev := PopEvent(d, id);
      if ev.None? {
        return Fault;
      }
      var rs := vnodes[id].replicas;
      assert rs == s.vnodes[id].replicas by {
        assert View().vnodes[id] == vnodes[id].View();
      }
      var dst := vnodes[id].GetReplicaInfo(ev.value.dest);
      if src == |rs| || dst == |rs| {
        return Fault;
      }
      rs := rs[dst := Replica(Active, ev.value.dest)];
      SameFind(s.vnodes[id].replicas, rs, d);
      EndSource(e, d, id, rs, src);
      return Ok(());
    }

    method FinishNext(e: Edition, d: nat, ids: seq<int>) returns (res: Outcome<()>)
      requires Valid() && d < |devices| && ids != []
      modifies vnodes, devices
      ensures SyncRest(e, old(View()), d, ids) == if res.Ok? then SyncRest(e, View(), d, ids[1..]) else Fault
    {
      SyncRestStep(e, View(), d, ids);
      res := FinishSync(e, d, ids[0]);
    }

    method FinishSyncs(e: Edition, d: nat, ids: seq<int>) returns (res: Outcome<()>)
      requires Valid() && d < |devices|
      modifies vnodes, devices
      ensures StateIs(SyncRest(e, old(View()), d, ids), res)
    {
      ghost var outcome := SyncRest(e, View(), d, ids);
      for k := 0 to |ids|
        invariant Valid() && SyncRest(e, View(), d, ids[k..]) == outcome
      {
        assert ids[k..][0] == ids[k] && ids[k..][1..] == ids[k + 1..];
        res := FinishNext(e, d, ids[k..]);
        if res.Fault? {
          return;
        }
      }
      SyncRestEnds(e, View(), d);
      return Ok(());
    }

    // -------------------------------------------------------------------------------------------
    // Joins
    // -------------------------------------------------------------------------------------------

    /** Gives the joining device a replica of vnode `v`, unless the zone test refuses. */
    method CopyVnode(v: nat, nd: nat) returns (res: Outcome<()>)
      requires Valid() && v < |vnodes| && nd < |devices|
      modifies vnodes, devices
      ensures match CopyOne(old(View()), v, nd)
              case Fault => res == Fault
              case Ok(s) => View() == s && res == Ok(())
    {
      ghost var s := View();
      assert s.vnodes[v] == vnodes[v].View() && s.devices[nd] == devices[nd].View();
      var diff := vnodes[v].TestDiffZones(devices, devices[nd].zone);
      if !diff {
        return Ok(());
      }
      var rs := vnodes[v].replicas;
      if rs == [] {
        SetReplicas(v, [Replica(Active, nd)]);
        AppendListed(nd, v);
        return Ok(());
      }
      var pos := ChooseSource(v);
      if pos.None? {
        SetReplicas(v, rs + [Replica(Online, nd)]);
        AppendListed(nd, v);
        return Ok(());
      }
      var src := rs[pos.value].dev;
      if src >= |devices| {
        return Fault;
      }
      SetReplicas(v, rs[pos.value := Replica(CopySrc, src)] + [Replica(WaitSync, nd)]);
      AppendPending(src, Event(v, nd));
      AppendListed(nd, v);
      return Ok(());
    }

    ghost predicate StateIs(outcome: Outcome<State>, end: Outcome<()>)
      reads this, devices, vnodes
    {
      match outcome
      case Fault => end == Fault
      case Ok(s) => View() == s && end == Ok(())
    }

    method CopyNext(v: nat, nd: nat) returns (res: Outcome<()>)
      requires Valid() && v < |vnodes| && nd < |devices|
      modifies vnodes, devices
      ensures CopyRest(old(View()), v, nd) == if res.Ok? then CopyRest(View(), v + 1, nd) else Fault
    {
      CopyRestStep(View(), v, nd);
      res := CopyVnode(v, nd);
    }

    /** master_do_copy_vnode, from the moment the joining device has its handle. */
    method CopyVnodes(nd: nat) returns (res: Outcome<()>)
      requires Valid() && nd < |devices|
      modifies vnodes, devices
      ensures StateIs(CopyRest(old(View()), 0, nd), res)
    {
      ghost var outcome := CopyRest(View(), 0, nd);
      for v := 0 to |vnodes|
        invariant Valid() && CopyRest(View(), v, nd) == outcome
      {
        res := CopyNext(v, nd);
        if res.Fault? {
          return;
        }
      }
      CopyRestEnds(View(), nd);
      return Ok(());
    }

    /** The tests on vnode `v` of the donor. */
    method TestMove(donor: nat, v: nat, nd: nat) returns (res: Outcome<bool>)
      requires Valid() && donor < |devices| && nd < |devices|
      ensures res.Ok? <==> AllPlaced(View(), donor, [v])
      ensures res.Ok? ==> v < |View().vnodes| && (res.value <==> Movable(View(), donor, v, nd))
    {
      ghost var s := View();
      assert v in [v];
      if v >= |vnodes| {
        return Fault;
      }
      var vn, from, joiner := vnodes[v], devices[donor], devices[nd];
      assert s.vnodes[v] == vn.View() && s.devices[nd] == joiner.View() && s.devices[donor] == from.View();
      var i := vn.GetReplicaInfo(donor);
      if i == |vn.replicas| {
        return Fault;
      }
      if !vn.replicas[i].status.Active? {
        return Ok(false);
      }
      var j := PositionOf(joiner.listed, v);
      if j < |joiner.listed| {
        return Ok(false);
      }
      if from.zone != joiner.zone {
        var diff := vn.TestDiffZones(devices, joiner.zone);
        return Ok(diff);
      }
      return Ok(true);
    }

    /** One look at vnode `v` of the donor. */
    method MoveVnode(e: Edition, donor: nat, v: nat, nd: nat) returns (res: Outcome<bool>)
      requires Valid() && donor < |devices| && nd < |devices|
      modifies vnodes, devices
      ensures match MoveOne(e, old(View()), donor, v, nd)
              case Fault => res == Fault
              case Ok((s, moved)) => View() == s && res == Ok(moved)
    {
      MoveOneIs(e, View(), donor, v, nd);
      var test := TestMove(donor, v, nd);
      if test != Ok(true) {
        return test;
      }
      if !e.keepsReplica {
        return Fault;
      }
      assert View().vnodes[v] == vnodes[v].View();
      StartMove(donor, v, nd);
      return Ok(true);
    }

    method StartMove(donor: nat, v: nat, nd: nat)
      requires Valid() && donor < |devices| && nd < |devices| && v < |vnodes|
      requires Find(vnodes[v].replicas, donor) < |vnodes[v].replicas|
      modifies vnodes[v], devices
      ensures v < |old(View()).vnodes| && Find(old(View()).vnodes[v].replicas, donor) < |old(View()).vnodes[v].replicas|
      ensures View() == MovedState(old(View()), donor, v, nd)
    {
      assert View().vnodes[v] == vnodes[v].View();
      var rs := vnodes[v].replicas;
      var i := vnodes[v].GetReplicaInfo(donor);
      SetReplicas(v, rs[i := Replica(MoveSrc, donor)] + [Replica(WaitSync, nd)]);
      AppendPending(donor, Event(v, nd));
      AppendListed(nd, v);
    }

    /** The loop is done: with a fault, or with this state and so many draws. */
    ghost predicate EndsIn(outcome: Outcome<Draws>, end: Outcome<nat>)
      reads this, devices, vnodes
    {
      match outcome
      case Fault => end == Fault
      case Ok(draws) => View() == draws.s && end == Ok(draws.drawn)
    }

    /** One draw: the vnode at the drawn position is looked at, and the position leaves the working copy. */
    method Draw(e: Edition, donor: nat, nd: nat, working: seq<nat>, left: int, rnd: nat -> nat, drawn: nat)
      returns (more: bool, end: Outcome<nat>, rest: seq<nat>, left': int, drawn': nat)
      requires Valid() && donor < |devices| && nd < |devices| && donor != nd
      requires 0 < |working| <= |devices[donor].listed|
      modifies vnodes, devices
      ensures more ==>
                Selection(e, old(View()), donor, nd, working, left, rnd, drawn) ==
                Selection(e, View(), donor, nd, rest, left', rnd, drawn')
      ensures !more ==> EndsIn(Selection(e, old(View()), donor, nd, working, left, rnd, drawn), end)
      ensures |rest| < |working| && (more ==> |rest| <= |devices[donor].listed|)
    {
      var i := rnd(drawn) % |working|;
      var v := if e.drawsFromCopy then working[i] else devices[donor].listed[i];
      ghost var s := View();
      assert s.devices[donor].listed == devices[donor].listed;
      DrawIs(e, s, donor, nd, working, left, rnd, drawn, v);
      rest, left', drawn', end := RemoveAt(working, i), left, drawn + 1, Fault;
      var moved := MoveVnode(e, donor, v, nd);
      if moved.Fault? {
        return false, end, rest, left', drawn';
      }
      assert View().devices[donor].listed == devices[donor].listed;
      if moved.value && left <= 1 {
        return false, Ok(drawn'), rest, left', drawn';
      }
      left' := if moved.value then left - 1 else left;
      return true, end, rest, left', drawn';
    }

    /** The selection loop over one donor; `drawn` random numbers were drawn so far. */
    method MoveFromDonor(e: Edition, donor: nat, nd: nat, quota: int, rnd: nat -> nat, drawn: nat)
      returns (res: Outcome<nat>)
      requires Valid() && donor < |devices| && nd < |devices| && donor != nd
      modifies vnodes, devices
      ensures EndsIn(Selection(e, old(View()), donor, nd, old(devices[donor].listed), quota, rnd, drawn), res)
    {
      var working := devices[donor].listed;
      var left, n := quota, drawn;
      ghost var outcome := Selection(e, View(), donor, nd, working, quota, rnd, drawn);
      while |working| > 0
        invariant Valid() && |working| <= |devices[donor].listed|
        invariant Selection(e, View(), donor, nd, working, left, rnd, n) == outcome
        decreases |working|
      {
        var more;
        more, res, working, left, n := Draw(e, donor, nd, working, left, rnd, n);
        if !more {
          return;
        }
      }
      SelectionEnds(e, View(), donor, nd, left, rnd, n);
      return Ok(n);
    }

    /** get_total_replica_count: how many vnodes are listed in all, and the weight of all devices. */
    method GetTotalReplicaCount() returns (count: nat, weight: int)
      ensures count == TotalCount(View().devices) && weight == TotalWeight(View().devices)
    {
      count, weight := 0, 0;
      ghost var ds := View().devices;
      for i := 0 to |devices|
        invariant count + TotalCount(ds[i..]) == TotalCount(ds) && weight + TotalWeight(ds[i..]) == TotalWeight(ds)
      {
        assert ds[i..][0] == devices[i].View() && ds[i..][1..] == ds[i + 1..];
        count, weight := count + |devices[i].listed|, weight + devices[i].weight;
      }
    }

    /** How many vnodes the donor should give up. */
    method QuotaOf(donor: nat, avg: int) returns (quota: int)
      requires Valid() && donor < |devices|
      ensures quota == Quota(View().devices[donor], avg)
    {
      quota := |devices[donor].listed| - avg * devices[donor].weight;
    }

    /** The donors' turns of master_do_move_vnode, from the moment the joining device has its handle. */
    method MoveVnodes(e: Edition, nd: nat, avg: int, rnd: nat -> nat) returns (res: Outcome<()>)
      requires Valid() && nd < |devices|
      modifies vnodes, devices
      ensures match MoveDonors(e, old(View()), 0, nd, avg, rnd, 0)
              case Fault => res == Fault
              case Ok(s) => View() == s && res == Ok(())
    {
      var drawn := 0;
      for donor := 0 to nd
        invariant Valid() && MoveDonors(e, View(), donor, nd, avg, rnd, drawn) ==
                    MoveDonors(e, old(View()), 0, nd, avg, rnd, 0)
      {
        var quota := QuotaOf(donor, avg);
        if quota <= 0 {
          continue;
        }
        var r := MoveFromDonor(e, donor, nd, quota, rnd, drawn);
        if r.Fault? {
          return Fault;
        }
        drawn := r.value;
      }
      return Ok(());
    }

    method AddJoiner(zone: int, weight: int)
      requires Valid()
      modifies this`devices
      ensures Valid() && View() == AddDevice(old(View()), zone, weight)
      ensures |devices| == |old(devices)| + 1 && devices[..|old(devices)|] == old(devices)
              && fresh(devices[|old(devices)|])
    {
      var joiner := new DeviceInfo(zone, weight);
      ghost var s := View();
      devices := devices + [joiner];
      assert DeviceViews(devices) == s.devices + [joiner.View()];
      assert VnodeViews(vnodes) == s.vnodes;
    }

    /** The join dispatch: copies until there are enough devices, moves from then on. */
    method Balance(e: Edition, nd: nat, total: nat, weight: int, rnd: nat -> nat) returns (res: Outcome<()>)
      requires Valid() && nd < |devices|
      modifies vnodes, devices
      ensures StateIs(Balanced(e, old(View()), nd, total, weight, rnd), res)
    {
      if nd < replicaCount {
        res := CopyVnodes(nd);
      } else if weight == 0 {
        return Fault;
      } else {
        res := MoveVnodes(e, nd, Truncated(total, weight), rnd);
      }
    }

    /** The joining device gets its handle; the totals are those before. */
    method Admit(zone: int, weight: int) returns (total: nat, totalWeight: int)
      requires Valid()
      modifies this`devices
      ensures Valid() && View() == AddDevice(old(View()), zone, weight)
      ensures total == TotalCount(old(View()).devices) && totalWeight == TotalWeight(old(View()).devices) + weight
      ensures |devices| == |old(devices)| + 1 && devices[..|old(devices)|] == old(devices)
              && fresh(devices[|old(devices)|])
    {
      total, totalWeight := GetTotalReplicaCount();
      totalWeight := totalWeight + weight;
      AddJoiner(zone, weight);
    }

    /** The rest of a join of the device that `Admit` admitted. */
    method Settle(e: Edition, nd: nat, total: nat, totalWeight: int, rnd: nat -> nat,
                  ghost s: State, ghost zone: int, ghost weight: int)
      returns (res: Outcome<()>)
      requires Valid() && nd == |s.devices| && View() == AddDevice(s, zone, weight) && nd < |devices|
      requires total == TotalCount(s.devices) && totalWeight == TotalWeight(s.devices) + weight
      modifies vnodes, devices
      ensures StateIs(Join(e, s, zone, weight, rnd), res)
    {
      JoinIs(e, s, zone, weight, rnd);
      res := Balance(e, nd, total, totalWeight, rnd);
    }

    method JoinDevice(e: Edition, zone: int, weight: int, rnd: nat -> nat) returns (res: Outcome<()>)
      requires Valid()
      modifies this`devices, vnodes, devices
      ensures Valid() && StateIs(Join(e, old(View()), zone, weight, rnd), res)
    {
      ghost var s := View();
      var nd := |devices|;
      var total, totalWeight := Admit(zone, weight);
      res := Settle(e, nd, total, totalWeight, rnd, s, zone, weight);
    }

    // -------------------------------------------------------------------------------------------
    // The slave's merge
    // -------------------------------------------------------------------------------------------

    method Retell(v: nat, version: int, rs: seq<Replica>)
      requires Valid() && v < |vnodes|
      modifies vnodes[v]
      ensures View() == Retold(old(View()), v, version, rs)
    {
      vnodes[v].version := version;
      vnodes[v].replicas := rs;
      assert DeviceViews(devices) == old(DeviceViews(devices));
      assert VnodeViews(vnodes) == old(VnodeViews(vnodes))[v := vnodes[v].View()];
    }

    method TakeReport(d: nat, t: Report, todo: seq<nat>) returns (res: Outcome<seq<nat>>)
      requires Valid() && d < |devices|
      modifies vnodes, devices
      ensures match TakeOne(Merging(old(View()), todo), d, t)
              case Fault => res == Fault
              case Ok(m) => View() == m.s && res == Ok(m.todo)
    {
      if t.id < 0 || t.id >= |vnodes| {
        return Fault;
      }
      assert View().vnodes[t.id] == vnodes[t.id].View();
      var j := PositionOf(todo, t.id);
      var rs := vnodes[t.id].replicas;
      if j == |todo| {
        Retell(t.id, t.version, rs + [Replica(t.status, d)]);
        AppendListed(d, t.id);
        return Ok(todo);
      }
      var i := vnodes[t.id].GetReplicaInfo(d);
      if i == |rs| {
        return Fault;
      }
      Retell(t.id, t.version, rs[i := Replica(t.status, d)]);
      return Ok(RemoveAt(todo, j));
    }

    method TakeReports(d: nat, told: seq<Report>) returns (res: Outcome<seq<nat>>)
      requires Valid() && d < |devices|
      modifies vnodes, devices
      ensures match TakeAll(old(View()), d, told)
              case Fault => res == Fault
              case Ok(m) => View() == m.s && res == Ok(m.todo)
    {
      var todo := devices[d].listed;
      ghost var s := View();
      for i := 0 to |told|
        invariant Valid() && TakeAll(s, d, told[..i]) == Ok(Merging(View(), todo))
      {
        assert told[..i + 1][..i] == told[..i];
        var r := TakeReport(d, told[i], todo);
        if r.Fault? {
          TakeFaults(s, d, told, i + 1);
          return Fault;
        }
        todo := r.value;
      }
      assert told[..|told|] == told;
      return Ok(todo);
    }

    method DropVnode(erases: bool, d: nat, v: nat) returns (res: Outcome<()>)
      requires Valid() && d < |devices|
      modifies vnodes, devices
      ensures match DropOne(erases, old(View()), d, v)
              case Fault => res == Fault
              case Ok(s) => View() == s && res == Ok(())
    {
      if v >= |vnodes| {
        return Fault;
      }
      assert View().vnodes[v] == vnodes[v].View();
      SetReplicas(v, Destroy(vnodes[v].replicas, d));
      if erases {
        EraseFromListed(d, v);
      }
      return Ok(());
    }

    method DropUnreported(erases: bool, d: nat, todo: seq<nat>) returns (res: Outcome<()>)
      requires Valid() && d < |devices|
      modifies vnodes, devices
      ensures match DropAll(erases, old(View()), d, todo)
              case Fault => res == Fault
              case Ok(s) => View() == s && res == Ok(())
    {
      ghost var s := View();
      for i := 0 to |todo|
        invariant Valid() && DropAll(erases, s, d, todo[..i]) == Ok(View())
      {
        assert todo[..i + 1][..i] == todo[..i];
        var r := DropVnode(erases, d, todo[i]);
        if r.Fault? {
          DropFaults(erases, s, d, todo, i + 1);
          return Fault;
        }
      }
      assert todo[..|todo|] == todo;
      return Ok(());
    }

    /** slaver_do_device_merge. */
    method SlaverMergeDevice(erases: bool, d: nat, told: seq<Report>) returns (res: Outcome<()>)
      requires Valid() && d < |devices|
      modifies vnodes, devices
      ensures match SlaveBeat(erases, old(View()), d, told)
              case Fault => res == Fault
              case Ok(s) => View() == s && res == Ok(())
    {
      var todo := TakeReports(d, told);
      if todo.Fault? {
        return Fault;
      }
      res := DropUnreported(erases, d, todo.value);
    }
  }

  lemma {:induction false} TakeFaults(s: State, d: nat, told: seq<Report>, k: nat)
    requires d < |s.devices| && k <= |told| && TakeAll(s, d, told[..k]).Fault?
    ensures TakeAll(s, d, told).Fault?
    decreases |told|
  {
    if k < |told| {
      assert told[..|told| - 1][..k] == told[..k];
      TakeFaults(s, d, told[..|told| - 1], k);
    } else {
      assert told[..k] == told;
    }
  }

  lemma {:induction false} DropFaults(erases: bool, s: State, d: nat, todo: seq<nat>, k: nat)
    requires d < |s.devices| && k <= |todo| && DropAll(erases, s, d, todo[..k]).Fault?
    ensures DropAll(erases, s, d, todo).Fault?
    decreases |todo|
  {
    if k < |todo| {
      assert todo[..|todo| - 1][..k] == todo[..k];
      DropFaults(erases, s, d, todo[..|todo| - 1], k);
    } else {
      assert todo[..k] == todo;
    }
  }
}
