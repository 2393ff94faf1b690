/**
 What a heartbeat makes of each vnode, which syncs it asks for, and what its reply says: in terms of the state
 before it, without the handler's own functions.
 */
module HeartbeatMerge {
  import opened ProxyTypes
  import opened NodeInfo
  import opened NodeObjects
  import opened Protocol
  import opened Invariant
  import opened Steps
  import opened HeartbeatSteps
  import opened Guarantees
  import opened Statuses
  import opened StorageNode
  import opened RoundTrip

  // ---------------------------------------------------------------------------------------------
  // One reported vnode
  // ---------------------------------------------------------------------------------------------

  /** The replica on `d` gets this status; nothing else about the replicas changes. */
  ghost predicate Becomes(rs: seq<Replica>, rs': seq<Replica>, d: nat, st: Status) {
    && |rs'| == |rs| && (forall i :: 0 <= i < |rs| ==> rs'[i].dev == rs[i].dev)
    && forall c: nat :: StatusOf(rs', c) == if c == d then Some(st) else StatusOf(rs, c)
  }

  ghost predicate NoneActive(rs: seq<Replica>) {
    forall r :: r in rs ==> !r.status.Active?
  }

  /**
   Device `d` reported `version` for a vnode of which it has a replica. A source and a waiting replica stay as they are.
   With the vnode's version the replica becomes ACTIVE. A higher version is taken over, and the replica keeps its
   status. With a lower one the replica becomes ONLINE if there is no ACTIVE one, and otherwise waits for the one that
   comes next; it is itself the source if that is the one.
   */
  ghost predicate Merged(vn: Vnode, vn': Vnode, d: nat, version: int) {
    if !Neutral(StatusOf(vn.replicas, d)) then vn' == vn
    else if version == vn.version then
      vn' == vn.(replicas := vn'.replicas) && Becomes(vn.replicas, vn'.replicas, d, Active)
    else if version > vn.version then vn' == vn.(version := version)
    else if NoneActive(vn.replicas) then
      vn' == vn.(replicas := vn'.replicas, rd := vn'.rd) && Becomes(vn.replicas, vn'.replicas, d, Online)
    else
      exists p: nat :: ComesNext(vn.replicas, vn.rd, p)
        && vn' == vn.(replicas := vn'.replicas, rd := p + 1)
        && Planned(vn.replicas, vn'.replicas, vn.replicas[p].dev, d, CopySrc)
  }

  /** The replica on `d` lags, and the next ACTIVE one, on device `c`, is to bring it up to date. */
  ghost predicate Asks(vn: Vnode, d: nat, version: int, c: nat) {
    && Neutral(StatusOf(vn.replicas, d)) && version < vn.version
    && exists p: nat :: ComesNext(vn.replicas, vn.rd, p) && vn.replicas[p].dev == c
  }

  ghost predicate Takes(vn: Vnode, d: nat, version: int) {
    Neutral(StatusOf(vn.replicas, d)) && version >= vn.version
  }

  ghost function AskedOne(vn: Vnode, d: nat, r: Report, c: nat): seq<Event>
    requires r.id >= 0
  {
    if Asks(vn, d, r.version, c) then [Event(r.id, d)] else []
  }

  ghost function TakenOne(vn: Vnode, d: nat, r: Report): seq<Acceptance>
    requires r.id >= 0
  {
    if Takes(vn, d, r.version) then [Acceptance(r.id, r.version)] else []
  }

  /** The whole effect of the report of a listed vnode. */
  ghost predicate Reported(s: State, s': State, d: nat, r: Report) {
    && 0 <= r.id < |s.vnodes| && |s'.vnodes| == |s.vnodes| && |s'.devices| == |s.devices|
    && s'.replicaCount == s.replicaCount
    && StatusOf(s.vnodes[r.id].replicas, d).Some?
    && Merged(s.vnodes[r.id], s'.vnodes[r.id], d, r.version)
    && (forall w: nat :: w < |s.vnodes| && w != r.id ==> s'.vnodes[w] == s.vnodes[w])
    && s'.accepted == s.accepted + TakenOne(s.vnodes[r.id], d, r)
    && (forall c: nat :: c < |s.devices| ==>
          s'.devices[c] == s.devices[c].(pending := s.devices[c].pending + AskedOne(s.vnodes[r.id], d, r, c)))
  }

  /**
   The unit of the reply has the status that the replica has now, save for a replica that is to bring itself up to date:
   it is a source, and is told to wait.
   */
  ghost predicate Tells(s: State, s': State, d: nat, r: Report, told: Status) {
    && 0 <= r.id < |s.vnodes| && |s'.vnodes| == |s.vnodes|
    && if Asks(s.vnodes[r.id], d, r.version, d) then
         told.WaitSync? && StatusOf(s'.vnodes[r.id].replicas, d) == Some(CopySrc)
       else StatusOf(s'.vnodes[r.id].replicas, d) == Some(told)
  }

  lemma Alike(s: State, d: nat, r: Report)
    requires 0 <= r.id < |s.vnodes|
    requires forall c: nat :: !Asks(s.vnodes[r.id], d, r.version, c)
    ensures forall c: nat :: c < |s.devices| ==>
              s.devices[c].(pending := s.devices[c].pending + AskedOne(s.vnodes[r.id], d, r, c)) == s.devices[c]
  {
    forall c: nat | c < |s.devices|
      ensures s.devices[c].pending + AskedOne(s.vnodes[r.id], d, r, c) == s.devices[c].pending
    {
    }
  }

  lemma LeftAlone(s: State, d: nat, r: Report)
    requires 0 <= r.id < |s.vnodes| && !Neutral(StatusOf(s.vnodes[r.id].replicas, d))
    ensures Reported(s, s, d, r)
  {
    assert s.accepted + TakenOne(s.vnodes[r.id], d, r) == s.accepted;
    Alike(s, d, r);
  }

  lemma AcceptReported(s: State, d: nat, r: Report)
    requires 0 <= r.id < |s.vnodes| && StatusOf(s.vnodes[r.id].replicas, d).Some?
    requires Distinct(s.vnodes[r.id].replicas)
    requires Takes(s.vnodes[r.id], d, r.version)
    ensures Reported(s, Accept(s, r.id, d, r.version).0, d, r)
    ensures Tells(s, Accept(s, r.id, d, r.version).0, d, r, Accept(s, r.id, d, r.version).1)
  {
    var rs := s.vnodes[r.id].replicas;
    var st := Accept(s, r.id, d, r.version).1;
    SetStatusIs(rs, d, st);
    if r.version > s.vnodes[r.id].version {
      assert SetStatus(rs, d, st) == rs;
    }
    Alike(s, d, r);
  }

  /** `p` is what the read scan answers, and only `p`. */
  lemma NextIs(vn: Vnode, p: nat)
    requires ReadReplica(vn).1 == Some(p)
    ensures forall q: nat :: q == p <==> ComesNext(vn.replicas, vn.rd, q)
    ensures ReadReplica(vn).0 == vn.(rd := p + 1)
  {
    forall q: nat
      ensures q == p <==> ComesNext(vn.replicas, vn.rd, q)
    {
      ReadReplicaIs(vn, q);
    }
    ReadReplicaIs(vn, p);
  }

  lemma LagFindsNone(s: State, d: nat, r: Report)
    requires 0 <= r.id < |s.vnodes| && StatusOf(s.vnodes[r.id].replicas, d).Some?
    requires Distinct(s.vnodes[r.id].replicas) && Neutral(StatusOf(s.vnodes[r.id].replicas, d))
    requires r.version < s.vnodes[r.id].version && ReadReplica(s.vnodes[r.id]).1.None?
    ensures Lag(s, r.id, d).Ok? && Reported(s, Lag(s, r.id, d).value.0, d, r)
    ensures Tells(s, Lag(s, r.id, d).value.0, d, r, Lag(s, r.id, d).value.1)
  {
    var vn := s.vnodes[r.id];
    ReadReplicaIs(vn, 0);
    SetStatusIs(vn.replicas, d, Online);
    forall p: nat
      ensures !ComesNext(vn.replicas, vn.rd, p)
    {
      ReadReplicaIs(vn, p);
    }
    assert s.accepted + TakenOne(vn, d, r) == s.accepted;
    Alike(s, d, r);
  }

  lemma LagMerges(s: State, d: nat, r: Report, p: nat)
    requires 0 <= r.id < |s.vnodes| && StatusOf(s.vnodes[r.id].replicas, d).Some?
    requires Distinct(s.vnodes[r.id].replicas) && Neutral(StatusOf(s.vnodes[r.id].replicas, d))
    requires r.version < s.vnodes[r.id].version && ReadReplica(s.vnodes[r.id]).1 == Some(p) && Lag(s, r.id, d).Ok?
    ensures |Lag(s, r.id, d).value.0.vnodes| == |s.vnodes|
    ensures Merged(s.vnodes[r.id], Lag(s, r.id, d).value.0.vnodes[r.id], d, r.version)
  {
    var vn := s.vnodes[r.id];
    NextIs(vn, p);
    PlanReplicas(vn.replicas, p, d);
    assert vn.replicas[p] in vn.replicas;
    assert ComesNext(vn.replicas, vn.rd, p);
  }

  lemma LagFindsOne(s: State, d: nat, r: Report, p: nat)
    requires 0 <= r.id < |s.vnodes| && StatusOf(s.vnodes[r.id].replicas, d).Some?
    requires Distinct(s.vnodes[r.id].replicas) && Neutral(StatusOf(s.vnodes[r.id].replicas, d))
    requires r.version < s.vnodes[r.id].version && ReadReplica(s.vnodes[r.id]).1 == Some(p) && Lag(s, r.id, d).Ok?
    ensures Reported(s, Lag(s, r.id, d).value.0, d, r)
    ensures Tells(s, Lag(s, r.id, d).value.0, d, r, Lag(s, r.id, d).value.1)
  {
    var vn := s.vnodes[r.id];
    NextIs(vn, p);
    PlanReplicas(vn.replicas, p, d);
    LagAsks(s, d, r, p);
    LagMerges(s, d, r, p);
  }

  /** The event goes to the source's pending list and to no other. */
  lemma LagAsks(s: State, d: nat, r: Report, p: nat)
    requires 0 <= r.id < |s.vnodes| && Neutral(StatusOf(s.vnodes[r.id].replicas, d))
    requires StatusOf(s.vnodes[r.id].replicas, d).Some? && r.version < s.vnodes[r.id].version
    requires ReadReplica(s.vnodes[r.id]).1 == Some(p) && Lag(s, r.id, d).Ok?
    ensures var s' := Lag(s, r.id, d).value.0;
            && |s'.devices| == |s.devices| && s'.accepted == s.accepted
            && (forall c: nat :: c < |s.devices| ==>
                  s'.devices[c] ==
                    s.devices[c].(pending := s.devices[c].pending + AskedOne(s.vnodes[r.id], d, r, c)))
            && forall c: nat :: Asks(s.vnodes[r.id], d, r.version, c) <==> c == s.vnodes[r.id].replicas[p].dev
  {
    var vn := s.vnodes[r.id];
    NextIs(vn, p);
    forall c: nat
      ensures Asks(vn, d, r.version, c) <==> c == vn.replicas[p].dev
    {
      assert ComesNext(vn.replicas, vn.rd, p);
    }
    forall c: nat | c < |s.devices| && c != vn.replicas[p].dev
      ensures s.devices[c].pending + AskedOne(vn, d, r, c) == s.devices[c].pending
    {
    }
  }

  /** The unit for a listed vnode, or none for a source. */
  ghost predicate AnswersFor(b: Beat, b': Beat, d: nat, r: Report) {
    && 0 <= r.id < |b.s.vnodes|
    && if SourceOn(b.s.vnodes[r.id].replicas, d) then b'.reply == b.reply
       else exists st :: b'.reply == b.reply + [Reply(r.id, st, None)] && Tells(b.s, b'.s, d, r, st)
  }

  lemma ListedReport(b: Beat, d: nat, r: Report)
    requires ReportOne(b, d, r).Ok? && IndexOf(b.todo, r.id) < |b.todo|
    requires 0 <= r.id < |b.s.vnodes| ==> Distinct(b.s.vnodes[r.id].replicas)
    ensures Reported(b.s, ReportOne(b, d, r).value.s, d, r)
    ensures AnswersFor(b, ReportOne(b, d, r).value, d, r)
  {
    ReportOneIs(b, d, r);
    var b' := ReportOne(b, d, r).value;
    var st := StatusOf(b.s.vnodes[r.id].replicas, d).value;
    if !Neutral(Some(st)) {
      LeftAlone(b.s, d, r);
      if st.WaitSync? {
        assert b'.reply == b.reply + [Reply(r.id, WaitSync, None)] && Tells(b.s, b'.s, d, r, WaitSync);
      }
    } else if r.version < b.s.vnodes[r.id].version {
      var (s', told) := Lag(b.s, r.id, d).value;
      var pos := ReadReplica(b.s.vnodes[r.id]).1;
      if pos.None? {
        LagFindsNone(b.s, d, r);
      } else {
        LagFindsOne(b.s, d, r, pos.value);
      }
      assert b'.reply == b.reply + [Reply(r.id, told, None)] && Tells(b.s, b'.s, d, r, told);
    } else {
      var (s', told) := Accept(b.s, r.id, d, r.version);
      AcceptReported(b.s, d, r);
      assert b'.reply == b.reply + [Reply(r.id, told, None)] && Tells(b.s, b'.s, d, r, told);
    }
  }

  // ---------------------------------------------------------------------------------------------
  // All reported vnodes
  // ---------------------------------------------------------------------------------------------

  /** The report counts: its vnode is listed, and was not reported before. */
  ghost predicate CountsIn(s: State, d: nat, before: seq<Report>, r: Report)
    requires d < |s.devices|
  {
    0 <= r.id < |s.vnodes| && r.id in s.devices[d].listed && forall i :: 0 <= i < |before| ==> before[i].id != r.id
  }

  /** The syncs that the reports ask device `c` for, in the order of the reports. */
  ghost function Asked(s: State, d: nat, reports: seq<Report>, c: nat): seq<Event>
    requires d < |s.devices|
    decreases |reports|
  {
    if reports == [] then []
    else
      var before, r := reports[..|reports| - 1], reports[|reports| - 1];
      Asked(s, d, before, c) + if CountsIn(s, d, before, r) then AskedOne(s.vnodes[r.id], d, r, c) else []
  }

  /** The versions that the reports bring, in their order. */
  ghost function Taken(s: State, d: nat, reports: seq<Report>): seq<Acceptance>
    requires d < |s.devices|
    decreases |reports|
  {
    if reports == [] then []
    else
      var before, r := reports[..|reports| - 1], reports[|reports| - 1];
      Taken(s, d, before) + if CountsIn(s, d, before, r) then TakenOne(s.vnodes[r.id], d, r) else []
  }

  /** A vnode is merged with its first report if it is listed and reported, and otherwise stays as it is. */
  ghost predicate VnodeAfter(s: State, d: nat, reports: seq<Report>, v: nat, vn': Vnode)
    requires d < |s.devices|
  {
    v < |s.vnodes| ==>
      if v in s.devices[d].listed && v in ReportedIds(reports) then
        StatusOf(s.vnodes[v].replicas, d).Some?
        && forall i: nat :: FirstAt(reports, i, v) ==> Merged(s.vnodes[v], vn', d, reports[i].version)
      else vn' == s.vnodes[v]
  }

  /** The whole state once the reports are dealt with, in terms of the state when the heartbeat began. */
  ghost predicate After(s: State, d: nat, reports: seq<Report>, s': State)
    requires d < |s.devices|
  {
    && |s'.vnodes| == |s.vnodes| && |s'.devices| == |s.devices| && s'.replicaCount == s.replicaCount
    && (forall v: nat :: v < |s.vnodes| ==> VnodeAfter(s, d, reports, v, s'.vnodes[v]))
    && s'.accepted == s.accepted + Taken(s, d, reports)
    && (forall c: nat :: c < |s.devices| ==>
          var dev := s.devices[c];
          s'.devices[c] == if c == d then
                             dev.(pending := Asked(s, d, reports, c), syncing := dev.syncing + dev.pending)
                           else dev.(pending := dev.pending + Asked(s, d, reports, c)))
  }

  /** What is left to look for. */
  ghost predicate TodoAfter(s: State, d: nat, reports: seq<Report>, todo: seq<nat>)
    requires d < |s.devices|
  {
    NoDuplicates(todo) && forall v: nat :: v in todo <==> v in s.devices[d].listed && v !in ReportedIds(reports)
  }

  lemma ReportedMore(before: seq<Report>, r: Report)
    ensures ReportedIds(before + [r]) == ReportedIds(before) + {r.id}
  {
    var all := before + [r];
    assert all[|before|] == r;
    forall x | x in ReportedIds(before)
      ensures x in ReportedIds(all)
    {
      var i :| 0 <= i < |before| && before[i].id == x;
      assert all[i].id == x;
    }
  }

  lemma FirstMore(before: seq<Report>, r: Report, i: nat, v: nat)
    ensures FirstAt(before + [r], i, v) <==>
            FirstAt(before, i, v) || (i == |before| && r.id == v && v !in ReportedIds(before))
  {
    var all := before + [r];
    assert forall j :: 0 <= j < |before| ==> all[j] == before[j];
    if i == |before| && r.id == v && v !in ReportedIds(before) {
      assert forall j :: 0 <= j < |before| ==> before[j].id in ReportedIds(before);
    }
  }

  lemma TodoMore(s: State, d: nat, before: seq<Report>, b: Beat, r: Report)
    requires d < |s.devices| && TodoAfter(s, d, before, b.todo) && ReportOne(b, d, r).Ok?
    ensures TodoAfter(s, d, before + [r], ReportOne(b, d, r).value.todo)
  {
    var j := IndexOf(b.todo, r.id);
    ReportOneTodo(b, d, r);
    ReportedMore(before, r);
    if j < |b.todo| {
      RemovedOnce(b.todo, j);
    }
  }

  lemma VnodeMore(s: State, d: nat, before: seq<Report>, r: Report, v: nat, vn: Vnode, vn': Vnode)
    requires d < |s.devices| && v < |s.vnodes| && VnodeAfter(s, d, before, v, vn)
    requires if CountsIn(s, d, before, r) && v == r.id then
               StatusOf(vn.replicas, d).Some? && Merged(vn, vn', d, r.version)
             else vn' == vn
    ensures VnodeAfter(s, d, before + [r], v, vn')
  {
    var all := before + [r];
    ReportedMore(before, r);
    forall i: nat
      ensures FirstAt(all, i, v) <==> FirstAt(before, i, v) || (i == |before| && r.id == v && v !in ReportedIds(before))
    {
      FirstMore(before, r, i, v);
    }
    if v == r.id {
      assert CountsIn(s, d, before, r) <==> v in s.devices[d].listed && v !in ReportedIds(before);
      if v !in ReportedIds(before) {
        assert forall i: nat :: !FirstAt(before, i, v);
      }
    }
  }

  lemma CountsIff(s: State, d: nat, before: seq<Report>, todo: seq<nat>, r: Report)
    requires d < |s.devices| && TodoAfter(s, d, before, todo) && (r.id in todo ==> 0 <= r.id < |s.vnodes|)
    requires forall v :: v in s.devices[d].listed ==> v < |s.vnodes|
    ensures CountsIn(s, d, before, r) <==> IndexOf(todo, r.id) < |todo|
  {
    var j := IndexOf(todo, r.id);
    if j < |todo| {
      assert todo[j] in todo;
      assert r.id !in ReportedIds(before);
      assert forall i :: 0 <= i < |before| ==> before[i].id in ReportedIds(before);
    }
    if CountsIn(s, d, before, r) {
      var v: nat := r.id;
      assert v in todo;
    }
  }

  lemma AskedMore(s: State, d: nat, before: seq<Report>, r: Report, c: nat)
    requires d < |s.devices|
    ensures Asked(s, d, before + [r], c) ==
            Asked(s, d, before, c) + if CountsIn(s, d, before, r) then AskedOne(s.vnodes[r.id], d, r, c) else []
    ensures Taken(s, d, before + [r]) ==
            Taken(s, d, before) + if CountsIn(s, d, before, r) then TakenOne(s.vnodes[r.id], d, r) else []
  {
    var all := before + [r];
    assert all[..|all| - 1] == before && all[|all| - 1] == r;
  }

  /** The steps of one report that does not count. */
  lemma AfterNothing(s: State, d: nat, before: seq<Report>, r: Report, s1: State)
    requires d < |s.devices| && After(s, d, before, s1) && !CountsIn(s, d, before, r)
    ensures After(s, d, before + [r], s1)
  {
    forall c: nat
      ensures Asked(s, d, before + [r], c) == Asked(s, d, before, c)
      ensures Taken(s, d, before + [r]) == Taken(s, d, before)
    {
      AskedMore(s, d, before, r, c);
    }
    forall v: nat | v < |s.vnodes|
      ensures VnodeAfter(s, d, before + [r], v, s1.vnodes[v])
    {
      VnodeMore(s, d, before, r, v, s1.vnodes[v], s1.vnodes[v]);
    }
  }

  lemma AfterReport(s: State, d: nat, before: seq<Report>, r: Report, s1: State, s2: State)
    requires d < |s.devices| && After(s, d, before, s1) && CountsIn(s, d, before, r) && Reported(s1, s2, d, r)
    ensures After(s, d, before + [r], s2)
    ensures s1.vnodes[r.id] == s.vnodes[r.id]
  {
    Untouched(s, d, before, r, s1);
    forall v: nat | v < |s.vnodes|
      ensures VnodeAfter(s, d, before + [r], v, s2.vnodes[v])
    {
      VnodeMore(s, d, before, r, v, s1.vnodes[v], s2.vnodes[v]);
    }
    AskedMore(s, d, before, r, d);
    assert s2.accepted == s.accepted + Taken(s, d, before + [r]);
    forall c: nat | c < |s.devices|
      ensures s2.devices[c].pending ==
                (if c == d then [] else s.devices[c].pending) + Asked(s, d, before + [r], c)
    {
      AskedMore(s, d, before, r, c);
    }
  }

  lemma Untouched(s: State, d: nat, before: seq<Report>, r: Report, s1: State)
    requires d < |s.devices| && After(s, d, before, s1) && CountsIn(s, d, before, r)
    ensures r.id !in ReportedIds(before) && s1.vnodes[r.id] == s.vnodes[r.id]
  {
    var v: nat := r.id;
    assert VnodeAfter(s, d, before, v, s1.vnodes[v]);
  }

  lemma AfterMore(e: Edition, s: State, d: nat, before: seq<Report>, b: Beat, r: Report)
    requires d < |s.devices| && Inv(e, s) && Inv(e, b.s) && ReportOne(b, d, r).Ok?
    requires After(s, d, before, b.s) && TodoAfter(s, d, before, b.todo)
    ensures var b' := ReportOne(b, d, r).value;
            && Inv(e, b'.s) && After(s, d, before + [r], b'.s) && TodoAfter(s, d, before + [r], b'.todo)
            && if CountsIn(s, d, before, r) then
                 IndexOf(b.todo, r.id) < |b.todo| && Reported(b.s, b'.s, d, r) && AnswersFor(b, b', d, r)
               else b'.s == b.s && b'.reply == b.reply + [Reply(r.id, Offline, None)]
  {
    var j := IndexOf(b.todo, r.id);
    TodoMore(s, d, before, b, r);
    ReportOneAll(e, b, d, r);
    if j < |b.todo| {
      ReportOneIs(b, d, r);
      assert VnodeInv(e, b.s.devices, b.s.vnodes[r.id].replicas, r.id);
      ListedReport(b, d, r);
      CountsIff(s, d, before, b.todo, r);
      AfterReport(s, d, before, r, b.s, ReportOne(b, d, r).value.s);
    } else {
      assert r.id !in b.todo;
      CountsIff(s, d, before, b.todo, r);
      AfterNothing(s, d, before, r, b.s);
    }
  }

  // ---------------------------------------------------------------------------------------------
  // The reply
  // ---------------------------------------------------------------------------------------------

  /** The replica of `x` on `d` was asked to bring itself up to date. */
  ghost predicate SelfAsked(s: State, d: nat, reports: seq<Report>, x: int)
    requires d < |s.devices|
  {
    x >= 0 && Event(x, d) in Asked(s, d, reports, d)
  }

  /** The unit has the status that the replica has in `s'`, save for a replica that is its own source. */
  ghost predicate UnitTold(s: State, d: nat, reports: seq<Report>, s': State, u: Reply)
    requires d < |s.devices|
  {
    && 0 <= u.id < |s'.vnodes|
    && if SelfAsked(s, d, reports, u.id) then
         u.status.WaitSync? && StatusOf(s'.vnodes[u.id].replicas, d) == Some(CopySrc)
       else StatusOf(s'.vnodes[u.id].replicas, d) == Some(u.status)
  }

  ghost predicate UnitsTold(s: State, d: nat, reports: seq<Report>, b: Beat)
    requires d < |s.devices|
  {
    forall u :: u in b.reply && !u.status.Offline? ==>
      && UnitTold(s, d, reports, b.s, u)
      && u.id < |s.vnodes| && (u.id in b.todo ==> SourceOn(s.vnodes[u.id].replicas, d))
  }

  lemma SelfAskedMore(s: State, d: nat, before: seq<Report>, r: Report, x: int)
    requires d < |s.devices|
    ensures SelfAsked(s, d, before + [r], x) <==>
            SelfAsked(s, d, before, x) ||
            (x == r.id && CountsIn(s, d, before, r) && Asks(s.vnodes[r.id], d, r.version, d))
  {
    AskedMore(s, d, before, r, d);
  }

  lemma {:induction false} SelfAskedReported(s: State, d: nat, reports: seq<Report>, x: int)
    requires d < |s.devices| && SelfAsked(s, d, reports, x)
    ensures x in ReportedIds(reports)
    decreases |reports|
  {
    if reports != [] {
      var before, r := reports[..|reports| - 1], reports[|reports| - 1];
      assert reports == before + [r];
      SelfAskedMore(s, d, before, r, x);
      ReportedMore(before, r);
      if SelfAsked(s, d, before, x) {
        SelfAskedReported(s, d, before, x);
      }
    }
  }

  /** What was told stays true when another vnode is reported, or the same one as a source. */
  lemma StaysTold(s: State, d: nat, before: seq<Report>, r: Report, s1: State, s2: State, u: Reply)
    requires d < |s.devices| && UnitTold(s, d, before, s1, u) && |s2.vnodes| == |s1.vnodes|
    requires s2.vnodes[u.id] == s1.vnodes[u.id]
    requires u.id == r.id && CountsIn(s, d, before, r) ==> SourceOn(s.vnodes[r.id].replicas, d)
    ensures UnitTold(s, d, before + [r], s2, u)
  {
    SelfAskedMore(s, d, before, r, u.id);
  }

  lemma UnitsMore(e: Edition, s: State, d: nat, before: seq<Report>, b: Beat, r: Report)
    requires d < |s.devices| && Inv(e, s) && Inv(e, b.s) && ReportOne(b, d, r).Ok?
    requires After(s, d, before, b.s) && TodoAfter(s, d, before, b.todo) && UnitsTold(s, d, before, b)
    ensures UnitsTold(s, d, before + [r], ReportOne(b, d, r).value)
  {
    AfterMore(e, s, d, before, b, r);
    var b' := ReportOne(b, d, r).value;
    ReportedMore(before, r);
    if CountsIn(s, d, before, r) {
      Untouched(s, d, before, r, b.s);
      UnitsCounted(s, d, before, b, b', r);
    } else {
      forall u | u in b'.reply && !u.status.Offline?
        ensures UnitTold(s, d, before + [r], b'.s, u)
        ensures u.id < |s.vnodes| && (u.id in b'.todo ==> SourceOn(s.vnodes[u.id].replicas, d))
      {
        assert u in b.reply;
        StaysTold(s, d, before, r, b.s, b'.s, u);
      }
    }
  }

  lemma UnitsCounted(s: State, d: nat, before: seq<Report>, b: Beat, b': Beat, r: Report)
    requires d < |s.devices| && UnitsTold(s, d, before, b) && CountsIn(s, d, before, r)
    requires IndexOf(b.todo, r.id) < |b.todo| && Reported(b.s, b'.s, d, r) && AnswersFor(b, b', d, r)
    requires |b.s.vnodes| == |s.vnodes| && b.s.vnodes[r.id] == s.vnodes[r.id]
    requires r.id !in ReportedIds(before)
    requires forall v: nat :: v in b'.todo ==> v in b.todo && v != r.id
    ensures UnitsTold(s, d, before + [r], b')
  {
    forall u | u in b'.reply && !u.status.Offline?
      ensures UnitTold(s, d, before + [r], b'.s, u)
      ensures u.id < |s.vnodes| && (u.id in b'.todo ==> SourceOn(s.vnodes[u.id].replicas, d))
    {
      if u in b.reply {
        assert r.id in b.todo;
        StaysTold(s, d, before, r, b.s, b'.s, u);
      } else {
        SelfAskedMore(s, d, before, r, r.id);
        if SelfAsked(s, d, before, r.id) {
          SelfAskedReported(s, d, before, r.id);
        }
      }
    }
  }

  /** How far the heartbeat got. */
  ghost predicate Stage(s: State, d: nat, before: seq<Report>, b: Beat)
    requires d < |s.devices|
  {
    After(s, d, before, b.s) && TodoAfter(s, d, before, b.todo) && UnitsTold(s, d, before, b)
  }

  lemma StageStep(e: Edition, s: State, d: nat, before: seq<Report>, b: Beat, r: Report)
    requires d < |s.devices| && Inv(e, s) && Inv(e, b.s) && Stage(s, d, before, b) && ReportOne(b, d, r).Ok?
    ensures Inv(e, ReportOne(b, d, r).value.s) && Stage(s, d, before + [r], ReportOne(b, d, r).value)
  {
    AfterMore(e, s, d, before, b, r);
    UnitsMore(e, s, d, before, b, r);
  }

  lemma FirstReport(b: Beat, d: nat, reports: seq<Report>)
    requires reports != [] && ReportAll(b, d, reports).Ok?
    ensures ReportOne(b, d, reports[0]).Ok?
    ensures ReportAll(b, d, reports) == ReportAll(ReportOne(b, d, reports[0]).value, d, reports[1..])
  {
  }

  lemma FromNext<T>(list: seq<T>, k: nat)
    requires k < |list|
    ensures list[k..] != [] && list[k..][0] == list[k] && list[k..][1..] == list[k + 1..]
    ensures list[..k + 1] == list[..k] + [list[k]]
  {
  }

  lemma StageMore(e: Edition, s: State, d: nat, reports: seq<Report>, k: nat, b: Beat)
    requires d < |s.devices| && Inv(e, s) && Inv(e, b.s) && k < |reports| && Stage(s, d, reports[..k], b)
    requires ReportOne(b, d, reports[k]).Ok? && reports[..k + 1] == reports[..k] + [reports[k]]
    ensures var b' := ReportOne(b, d, reports[k]).value; Inv(e, b'.s) && Stage(s, d, reports[..k + 1], b')
  {
    StageStep(e, s, d, reports[..k], b, reports[k]);
  }

  lemma {:induction false} AllReported(e: Edition, s: State, d: nat, reports: seq<Report>, k: nat, b: Beat)
    requires d < |s.devices| && Inv(e, s) && Inv(e, b.s) && k <= |reports| && Stage(s, d, reports[..k], b)
    requires ReportAll(b, d, reports[k..]).Ok?
    ensures Stage(s, d, reports, ReportAll(b, d, reports[k..]).value)
    decreases |reports| - k
  {
    if k == |reports| {
      assert reports[..k] == reports;
    } else {
      FromNext(reports, k);
      FirstReport(b, d, reports[k..]);
      StageMore(e, s, d, reports, k, b);
      AllReported(e, s, d, reports, k + 1, ReportOne(b, d, reports[k]).value);
    }
  }

  lemma BeginsAfter(s: State, d: nat)
    requires d < |s.devices| && Drain(s, d, []).Ok?
    ensures After(s, d, [], Beginning(s, d).s)
  {
    DrainIs(s, d, []);
    assert s.accepted + Taken(s, d, []) == s.accepted;
    forall c: nat | c < |s.devices|
      ensures s.devices[c].pending + Asked(s, d, [], c) == s.devices[c].pending
    {
    }
  }

  lemma BeginsTold(s: State, d: nat)
    requires d < |s.devices| && Orderly(s, d) && Drain(s, d, []).Ok?
    ensures UnitsTold(s, d, [], Beginning(s, d))
  {
    DrainIs(s, d, []);
    var b := Beginning(s, d);
    assert b.reply[0..] == b.reply;
    AnnouncedIs(b.reply, s.devices[d].pending, StatusesOn(s, d));
    forall u | u in b.reply
      ensures UnitTold(s, d, [], b.s, u) && 0 <= u.id < |s.vnodes| && SourceOn(s.vnodes[u.id].replicas, d)
    {
      var ev :| ev in s.devices[d].pending && ev.vnode == u.id && StatusesOn(s, d)(ev.vnode) == Some(u.status);
      assert SourceAt(s, d, ev.vnode);
    }
  }

  lemma {:induction false} UnreportedTold(s: State, d: nat, reports: seq<Report>, b: Beat)
    requires d < |s.devices| && UnitsTold(s, d, reports, b) && |b.s.vnodes| == |s.vnodes|
    requires forall v: nat :: v in b.todo ==> v !in ReportedIds(reports)
    requires Unreported(b.s, d, b.todo, b.reply).Ok?
    requires NoDuplicates(b.todo)
    ensures UnitsTold(s, d, reports, Beat(b.s, [], Unreported(b.s, d, b.todo, b.reply).value))
    decreases |b.todo|
  {
    if b.todo != [] {
      var v, todo := b.todo[0], b.todo[1..];
      UnreportedStep(b.s, d, b.todo, b.reply);
      var st := StatusOf(b.s.vnodes[v].replicas, d).value;
      var b' := b.(todo := todo, reply := if IsSource(st) then b.reply else b.reply + [Reply(v, st, None)]);
      assert v in b.todo && forall w :: w in todo ==> w in b.todo && w != v;
      if SelfAsked(s, d, reports, v) {
        SelfAskedReported(s, d, reports, v);
      }
      UnreportedTold(s, d, reports, b');
    }
  }

  lemma WholeBeat(e: Edition, s: State, d: nat, reports: seq<Report>)
    requires Inv(e, s) && d < |s.devices| && Heartbeat(s, d, reports).Ok?
    ensures var (s', reply) := Heartbeat(s, d, reports).value;
            && After(s, d, reports, s')
            && forall u :: u in reply && !u.status.Offline? ==> UnitTold(s, d, reports, s', u)
  {
    InvOrderly(e, s, d);
    DrainKeeps(e, s, d, []);
    BeginsAfter(s, d);
    BeginsTold(s, d);
    assert reports[..0] == [] && reports[0..] == reports;
    AllReported(e, s, d, reports, 0, Beginning(s, d));
    UnreportedTold(s, d, reports, ReportAll(Beginning(s, d), d, reports).value);
  }

  /**
   The state after a heartbeat, from the state before it. A listed vnode that was reported is merged with its first
   report; every other vnode stays as it was. The device's pending syncs became syncing, in order; every device is
   asked, in the order of the reports, for the syncs of which its replica comes next.
   */
  lemma HeartbeatMerges(e: Edition, n: nat, rc: int, s: State, d: nat, reports: seq<Report>)
    requires Reached(e, n, rc, s) && d < |s.devices| && Heartbeat(s, d, reports).Ok?
    ensures After(s, d, reports, Heartbeat(s, d, reports).value.0)
  {
    RunInv(e, n, rc, s);
    WholeBeat(e, s, d, reports);
  }

  lemma {:induction false} SelfAskedIs(s: State, d: nat, reports: seq<Report>, i: nat)
    requires d < |s.devices| && i < |reports| && reports[i].id >= 0
    requires FirstAt(reports, i, reports[i].id)
    ensures SelfAsked(s, d, reports, reports[i].id) <==>
            && reports[i].id < |s.vnodes| && reports[i].id in s.devices[d].listed
            && Asks(s.vnodes[reports[i].id], d, reports[i].version, d)
    decreases |reports|
  {
    var x := reports[i].id;
    var before, r := reports[..|reports| - 1], reports[|reports| - 1];
    assert reports == before + [r];
    SelfAskedMore(s, d, before, r, x);
    if i < |before| {
      SelfAskedIs(s, d, before, i);
      assert before[i].id == x;
    } else if SelfAsked(s, d, before, x) {
      SelfAskedReported(s, d, before, x);
    }
  }

  /**
   Every unit of the reply but an OFFLINE one carries the status that the replica has when the heartbeat is done,
   unless the vnode's report lagged and the next ACTIVE replica is the reported one itself: then the master has COPY_SRC
   and tells WAIT_SYNC.
   */
  lemma ReplyTellsStatus(e: Edition, n: nat, rc: int, s: State, d: nat, reports: seq<Report>, u: Reply)
    requires Reached(e, n, rc, s) && d < |s.devices| && Heartbeat(s, d, reports).Ok?
    requires u in Heartbeat(s, d, reports).value.1 && !u.status.Offline?
    ensures var s' := Heartbeat(s, d, reports).value.0;
            && 0 <= u.id < |s'.vnodes| == |s.vnodes|
            && (StatusOf(s'.vnodes[u.id].replicas, d) == Some(u.status) <==>
                !exists i: nat :: FirstAt(reports, i, u.id) && u.id in s.devices[d].listed
                    && Asks(s.vnodes[u.id], d, reports[i].version, d))
            && (StatusOf(s'.vnodes[u.id].replicas, d) == Some(u.status)
                || (StatusOf(s'.vnodes[u.id].replicas, d) == Some(CopySrc) && u.status.WaitSync?))
  {
    RunInv(e, n, rc, s);
    WholeBeat(e, s, d, reports);
    if i: nat :| FirstAt(reports, i, u.id) {
      SelfAskedIs(s, d, reports, i);
      assert forall k: nat :: FirstAt(reports, k, u.id) ==> k == i;
    } else if SelfAsked(s, d, reports, u.id) {
      SelfAskedReported(s, d, reports, u.id);
      FirstThere(reports, u.id);
    }
  }

  lemma {:induction false} FirstThere(reports: seq<Report>, x: nat)
    requires x in ReportedIds(reports)
    ensures exists i: nat :: FirstAt(reports, i, x)
    decreases |reports|
  {
    var before, r := reports[..|reports| - 1], reports[|reports| - 1];
    assert reports == before + [r];
    ReportedMore(before, r);
    if x in ReportedIds(before) {
      FirstThere(before, x);
      var i: nat :| FirstAt(before, i, x);
      FirstMore(before, r, i, x);
    } else {
      FirstMore(before, r, |before|, x);
    }
  }
}
