/**
 The master's message handlers, each as one atomic step on its state.

 A step that would follow a null pointer or leave a container ends in Fault.
 */
module Protocol {
  import opened ProxyTypes
  import opened NodeInfo
  import opened NodeObjects

  // ---------------------------------------------------------------------------------------------
  // Updates shared by the handlers
  // ---------------------------------------------------------------------------------------------

  function WithReplicas(s: State, v: nat, rs: seq<Replica>): State
    requires v < |s.vnodes|
  {
    s.(vnodes := s.vnodes[v := s.vnodes[v].(replicas := rs)])
  }

  function PushPending(s: State, d: nat, e: Event): State
    requires d < |s.devices|
  {
    s.(devices := s.devices[d := s.devices[d].(pending := s.devices[d].pending + [e])])
  }

  function PushListed(s: State, d: nat, v: nat): State
    requires d < |s.devices|
  {
    s.(devices := s.devices[d := s.devices[d].(listed := s.devices[d].listed + [v])])
  }

  function EraseListed(s: State, d: nat, v: nat): State
    requires d < |s.devices|
  {
    var list := s.devices[d].listed;
    var i := IndexOf(list, v);
    if i < |list| then s.(devices := s.devices[d := s.devices[d].(listed := RemoveAt(list, i))]) else s
  }

  // ---------------------------------------------------------------------------------------------
  // Heartbeat
  // ---------------------------------------------------------------------------------------------

  /** One unit of a device's report. The master does not use the reported status; a slave does. */
  datatype Report = Report(id: int, status: Status, version: int)

  /** One unit of the reply; `dest` is given with a sync event. */
  datatype Reply = Reply(id: int, status: Status, dest: Option<nat>)

  /** Moves the front pending event of `d` to the syncing list. */
  function DrainOne(s: State, d: nat): Outcome<(State, Reply)>
    requires d < |s.devices| && s.devices[d].pending != []
  {
    var e := s.devices[d].pending[0];
    if e.vnode >= |s.vnodes| || e.dest >= |s.devices| then Fault
    else match StatusOf(s.vnodes[e.vnode].replicas, d)
      case None => Fault
      case Some(st) =>
        var dev := s.devices[d].(pending := s.devices[d].pending[1..], syncing := s.devices[d].syncing + [e]);
        Ok((s.(devices := s.devices[d := dev]), Reply(e.vnode, st, Some(e.dest))))
  }

  function Drain(s: State, d: nat, reply: seq<Reply>): Outcome<(State, seq<Reply>)>
    requires d < |s.devices|
    decreases |s.devices[d].pending|
  {
    if s.devices[d].pending == [] then Ok((s, reply))
    else
      var (s', unit) :- DrainOne(s, d);
      Drain(s', d, reply + [unit])
  }

  /** The replica of `v` on `d` lags behind the vnode's version: ask for a sync, or put it ONLINE. */
  function Lag(s: State, v: nat, d: nat): Outcome<(State, Status)>
    requires v < |s.vnodes| && StatusOf(s.vnodes[v].replicas, d).Some?
  {
    var (vn, pos) := ReadReplica(s.vnodes[v]);
    var s1 := s.(vnodes := s.vnodes[v := vn]);
    match pos
    case None => Ok((WithReplicas(s1, v, SetStatus(vn.replicas, d, Online)), Online))
    case Some(p) =>
      if vn.replicas[p].dev >= |s.devices| then Fault
      else
        var src := vn.replicas[p].dev;
        var rs := SetStatus(vn.replicas, d, WaitSync)[p := Replica(CopySrc, src)];
        Ok((PushPending(WithReplicas(s1, v, rs), src, Event(v, d)), WaitSync))
  }

  /** The replica of `v` on `d` reports at least the vnode's version. */
  function Accept(s: State, v: nat, d: nat, version: int): (State, Status)
    requires v < |s.vnodes| && StatusOf(s.vnodes[v].replicas, d).Some?
  {
    var vn := s.vnodes[v];
    var st := if version == vn.version then Active else StatusOf(vn.replicas, d).value;
    var vn' := vn.(version := version, replicas := SetStatus(vn.replicas, d, st));
    (s.(vnodes := s.vnodes[v := vn'], accepted := s.accepted + [Acceptance(v, version)]), st)
  }

  /** `todo` is what is left of the copy of the device's vnode_list. */
  datatype Beat = Beat(s: State, todo: seq<nat>, reply: seq<Reply>)

  function ReportOne(b: Beat, d: nat, r: Report): (b': Outcome<Beat>)
  {
    var j := IndexOf(b.todo, r.id);
    if j == |b.todo| then Ok(b.(reply := b.reply + [Reply(r.id, Offline, None)]))
    else
      var v := b.todo[j];
      var b1 := b.(todo := RemoveAt(b.todo, j));
      if v >= |b.s.vnodes| || StatusOf(b.s.vnodes[v].replicas, d).None? then Fault
      else
        var st := StatusOf(b.s.vnodes[v].replicas, d).value;
        if IsSource(st) then Ok(b1)
        else if st.WaitSync? then Ok(b1.(reply := b.reply + [Reply(r.id, WaitSync, None)]))
        else
          var (s', st') :-
            if r.version < b.s.vnodes[v].version then Lag(b.s, v, d)
            else Ok(Accept(b.s, v, d, r.version));
          Ok(b1.(s := s', reply := b.reply + [Reply(r.id, st', None)]))
  }

  function ReportAll(b: Beat, d: nat, reports: seq<Report>): Outcome<Beat>
    decreases |reports|
  {
    if reports == [] then Ok(b)
    else
      var b' :- ReportOne(b, d, reports[0]);
      ReportAll(b', d, reports[1..])
  }

  /** The vnodes listed for `d` that it did not report: it is told to add them, sources excepted. */
  function Unreported(s: State, d: nat, todo: seq<nat>, reply: seq<Reply>): Outcome<seq<Reply>> {
    if todo == [] then Ok(reply)
    else
      var v := todo[0];
      if v >= |s.vnodes| || StatusOf(s.vnodes[v].replicas, d).None? then Fault
      else
        var st := StatusOf(s.vnodes[v].replicas, d).value;
        Unreported(s, d, todo[1..], if IsSource(st) then reply else reply + [Reply(v, st, None)])
  }

  function Heartbeat(s: State, d: nat, reports: seq<Report>): Outcome<(State, seq<Reply>)>
    requires d < |s.devices|
  {
    var (s1, reply1) :- Drain(s, d, []);
    var b :- ReportAll(Beat(s1, s.devices[d].listed, reply1), d, reports);
    var reply :- Unreported(b.s, d, b.todo, b.reply);
    Ok((b.s, reply))
  }

  // ---------------------------------------------------------------------------------------------
  // Sync-down
  // ---------------------------------------------------------------------------------------------

  /** Device `d` says that its sync of vnode `id` is done. */
  function SyncDownOne(e: Edition, s: State, d: nat, id: int): Outcome<State>
    requires d < |s.devices|
  {
    if id < 0 || id >= |s.vnodes| then Fault
    else
      var rs := s.vnodes[id].replicas;
      var dev := s.devices[d];
      var i := EventIndex(dev.syncing, id);
      if i == |dev.syncing| || Find(rs, dev.syncing[i].dest) == |rs| || Find(rs, d) == |rs| then Fault
      else
        var s1 := s.(devices := s.devices[d := dev.(syncing := RemoveAt(dev.syncing, i))]);
        var rs1 := SetStatus(rs, dev.syncing[i].dest, Active);
        if rs1[Find(rs, d)].status.MoveSrc? then
          var s2 := WithReplicas(s1, id, Destroy(rs1, d));
          Ok(if e.erasesMoved then EraseListed(s2, d, id) else s2)
        else
          Ok(WithReplicas(s1, id, rs1[Find(rs, d) := Replica(Active, d)]))
  }

  function SyncDown(e: Edition, s: State, d: nat, ids: seq<int>): Outcome<State>
    requires d < |s.devices|
    decreases |ids|
  {
    if ids == [] then Ok(s)
    else
      var s' :- SyncDownOne(e, s, d, ids[0]);
      SyncDown(e, s', d, ids[1..])
  }

  // ---------------------------------------------------------------------------------------------
  // Joins
  // ---------------------------------------------------------------------------------------------

  function AddDevice(s: State, zone: int, weight: int): State {
    s.(devices := s.devices + [Device(zone, weight, [], [], [])])
  }

  /** Gives the joining device `nd` a replica of vnode `v`, unless the zone test refuses. */
  function CopyOne(s: State, v: nat, nd: nat): Outcome<State>
    requires v < |s.vnodes| && nd < |s.devices|
  {
    var vn := s.vnodes[v];
    if !IsDiffZones(vn.replicas, s.devices, s.devices[nd].zone) then Ok(s)
    else if vn.replicas == [] then Ok(PushListed(WithReplicas(s, v, [Replica(Active, nd)]), nd, v))
    else
      var (vn1, pos) := ReadReplica(vn);
      var s1 := s.(vnodes := s.vnodes[v := vn1]);
      match pos
      case None => Ok(PushListed(WithReplicas(s1, v, vn.replicas + [Replica(Online, nd)]), nd, v))
      case Some(p) =>
        if vn.replicas[p].dev >= |s.devices| then Fault
        else
          var src := vn.replicas[p].dev;
          var rs := vn.replicas[p := Replica(CopySrc, src)] + [Replica(WaitSync, nd)];
          Ok(PushListed(PushPending(WithReplicas(s1, v, rs), src, Event(v, nd)), nd, v))
  }

  function CopyFrom(s: State, v: nat, nd: nat): Outcome<State>
    requires v <= |s.vnodes| && nd < |s.devices|
    decreases |s.vnodes| - v
  {
    if v == |s.vnodes| then Ok(s)
    else
      var s' :- CopyOne(s, v, nd);
      CopyFrom(s', v + 1, nd)
  }

  function CopyJoin(s: State, zone: int, weight: int): Outcome<State> {
    CopyFrom(AddDevice(s, zone, weight), 0, |s.devices|)
  }

  /** Tries to move vnode `v` from `donor` to the joining device `nd`; also says whether it moved. */
  function MoveOne(e: Edition, s: State, donor: nat, v: nat, nd: nat): Outcome<(State, bool)>
    requires donor < |s.devices| && nd < |s.devices|
  {
    if v >= |s.vnodes| || StatusOf(s.vnodes[v].replicas, donor).None? then Fault
    else
      var rs := s.vnodes[v].replicas;
      if !StatusOf(rs, donor).value.Active? then Ok((s, false))
      else if IndexOf(s.devices[nd].listed, v) < |s.devices[nd].listed| then Ok((s, false))
      else if s.devices[donor].zone != s.devices[nd].zone && !IsDiffZones(rs, s.devices, s.devices[nd].zone) then
        Ok((s, false))
      else if !e.keepsReplica then Fault
      else
        var rs' := SetStatus(rs, donor, MoveSrc) + [Replica(WaitSync, nd)];
        Ok((PushListed(PushPending(WithReplicas(s, v, rs'), donor, Event(v, nd)), nd, v), true))
  }

  /** The stream of random numbers, and how many of them were drawn. */
  datatype Draws = Draws(s: State, drawn: nat)

  /** The selection loop over one donor. `working` is the shrinking copy of its list. */
  function MoveFrom(e: Edition, s: State, donor: nat, nd: nat, working: seq<nat>, quota: int, rnd: nat -> nat,
                    drawn: nat)
    : (r: Outcome<Draws>)
    requires donor < |s.devices| && nd < |s.devices| && donor != nd
    requires |working| <= |s.devices[donor].listed|
    ensures r.Ok? ==> |r.value.s.devices| == |s.devices|
    decreases |working|
  {
    if working == [] then Ok(Draws(s, drawn))
    else
      var i := rnd(drawn) % |working|;
      var v := if e.drawsFromCopy then working[i] else s.devices[donor].listed[i];
      var (s', moved) :- MoveOne(e, s, donor, v, nd);
      if moved && quota <= 1 then Ok(Draws(s', drawn + 1))
      else MoveFrom(e, s', donor, nd, RemoveAt(working, i), if moved then quota - 1 else quota, rnd, drawn + 1)
  }

  /** Integer division truncating toward zero. */
  function Truncated(a: int, b: int): int
    requires b != 0
  {
    if (a >= 0) == (b > 0) then Abs(a) / Abs(b) else -(Abs(a) / Abs(b))
  }

  function Abs(a: int): nat {
    if a < 0 then -a else a
  }

  function TotalCount(devices: seq<Device>): nat {
    if devices == [] then 0 else |devices[0].listed| + TotalCount(devices[1..])
  }

  function TotalWeight(devices: seq<Device>): int {
    if devices == [] then 0 else devices[0].weight + TotalWeight(devices[1..])
  }

  /** How many vnodes `dev` should give up when the average per unit of weight is `avg`. */
  function Quota(dev: Device, avg: int): int {
    |dev.listed| - avg * dev.weight
  }

  /** One donor's turn: skipped unless it holds more than its share. */
  function DonorTurn(e: Edition, s: State, donor: nat, nd: nat, avg: int, rnd: nat -> nat,
                     drawn: nat): (r: Outcome<Draws>)
    requires donor < nd < |s.devices|
    ensures r.Ok? ==> |r.value.s.devices| == |s.devices|
  {
    var dev := s.devices[donor];
    if Quota(dev, avg) <= 0 then Ok(Draws(s, drawn))
    else MoveFrom(e, s, donor, nd, dev.listed, Quota(dev, avg), rnd, drawn)
  }

  function MoveDonors(e: Edition, s: State, donor: nat, nd: nat, avg: int, rnd: nat -> nat, drawn: nat): Outcome<State>
    requires donor <= nd < |s.devices|
    decreases nd - donor
  {
    if donor == nd then Ok(s)
    else
      var r :- DonorTurn(e, s, donor, nd, avg, rnd, drawn);
      MoveDonors(e, r.s, donor + 1, nd, avg, rnd, r.drawn)
  }

  function MoveJoin(e: Edition, s: State, zone: int, weight: int, rnd: nat -> nat): Outcome<State> {
    var total := TotalWeight(s.devices) + weight;
    if total == 0 then Fault
    else MoveDonors(e, AddDevice(s, zone, weight), 0, |s.devices|, Truncated(TotalCount(s.devices), total), rnd, 0)
  }

  function Join(e: Edition, s: State, zone: int, weight: int, rnd: nat -> nat): Outcome<State> {
    if |s.devices| < s.replicaCount then CopyJoin(s, zone, weight) else MoveJoin(e, s, zone, weight, rnd)
  }
}
