/**
 The statuses on a node and those of its replicas on the master: after a heartbeat they are the same, in all joint
 histories of the master and its nodes, save for a replica that is its own source.
 */
module NodeAgreement {
  import opened ProxyTypes
  import opened NodeInfo
  import opened NodeObjects
  import opened Protocol
  import opened Invariant
  import opened Steps
  import opened HeartbeatSteps
  import opened SyncDownSteps
  import opened JoinSteps
  import opened JoinLoops
  import opened Counting
  import opened Runs
  import opened Guarantees
  import opened Statuses
  import opened StorageNode
  import opened RoundTrip
  import opened HeartbeatMerge
  import opened JoinOutcome
  import opened SyncOutcome

  // ---------------------------------------------------------------------------------------------
  // What the node has of the vnodes it is syncing
  // ---------------------------------------------------------------------------------------------

  ghost predicate Carries(list: seq<StorageVnode>, x: int, st: Option<Status>) {
    exists w :: w in list && w.id == x && st == Some(w.status)
  }

  /** For each vnode that it is syncing to another, the node has the status that its replica has on the master. */
  ghost predicate Agreeing(s: State, d: nat, list: seq<StorageVnode>)
    requires d < |s.devices|
  {
    forall ev :: ev in s.devices[d].syncing && ev.vnode < |s.vnodes| ==>
      Carries(list, ev.vnode, StatusOf(s.vnodes[ev.vnode].replicas, d))
  }

  ghost predicate SourcesStay(rs: seq<Replica>, rs': seq<Replica>) {
    forall d: nat :: SourceOn(rs, d) ==> StatusOf(rs', d) == StatusOf(rs, d)
  }

  /** Of the events that `d` is syncing none is new, and its replicas of their vnodes keep their status. */
  ghost predicate SyncingStay(s: State, s': State, d: nat)
    requires d < |s.devices| && d < |s'.devices|
  {
    |s'.vnodes| == |s.vnodes| && forall ev :: ev in s'.devices[d].syncing ==>
      ev in s.devices[d].syncing
      && (ev.vnode < |s.vnodes| ==>
            StatusOf(s'.vnodes[ev.vnode].replicas, d) == StatusOf(s.vnodes[ev.vnode].replicas, d))
  }

  lemma AgreeingStays(s: State, s': State, d: nat, list: seq<StorageVnode>)
    requires d < |s.devices| && d < |s'.devices| && Agreeing(s, d, list) && SyncingStay(s, s', d)
    ensures Agreeing(s', d, list)
  {
  }

  lemma SyncingIsSource(e: Edition, s: State, d: nat, ev: Event)
    requires Inv(e, s) && d < |s.devices| && ev in s.devices[d].syncing
    ensures ev.vnode < |s.vnodes| && SourceOn(s.vnodes[ev.vnode].replicas, d)
  {
    OwedList(s.devices[d]);
    OwedIsSound(e, s, d, ev);
  }

  /** Where every source stays a source of the same kind. */
  lemma StayBySources(e: Edition, s: State, s': State, d: nat)
    requires Inv(e, s) && d < |s.devices| && d < |s'.devices| && |s'.vnodes| == |s.vnodes|
    requires s'.devices[d].syncing == s.devices[d].syncing
    requires forall v: nat :: v < |s.vnodes| ==> SourcesStay(s.vnodes[v].replicas, s'.vnodes[v].replicas)
    ensures SyncingStay(s, s', d)
  {
    forall ev | ev in s'.devices[d].syncing
      ensures ev.vnode < |s.vnodes| && SourceOn(s.vnodes[ev.vnode].replicas, d)
    {
      SyncingIsSource(e, s, d, ev);
    }
  }

  // ---------------------------------------------------------------------------------------------
  // Sources stay
  // ---------------------------------------------------------------------------------------------

  lemma MergedSources(vn: Vnode, vn': Vnode, d: nat, version: int)
    requires Merged(vn, vn', d, version) && Distinct(vn.replicas)
    ensures SourcesStay(vn.replicas, vn'.replicas)
  {
    var lags := Neutral(StatusOf(vn.replicas, d)) && version < vn.version && !NoneActive(vn.replicas);
    if lags {
      var p: nat :| ComesNext(vn.replicas, vn.rd, p)
        && Planned(vn.replicas, vn'.replicas, vn.replicas[p].dev, d, CopySrc);
      FindAt(vn.replicas, p);
    }
  }

  lemma AppendedSources(rs: seq<Replica>, rs1: seq<Replica>, p: nat, st: Status, r: Replica)
    requires Distinct(rs) && p < |rs| && rs[p].status.Active? && Find(rs, r.dev) == |rs|
    requires rs1 == rs[p := Replica(st, rs[p].dev)]
    ensures SourcesStay(rs, rs1 + [r])
  {
    FindAt(rs, p);
    SetStatusIs(rs, rs[p].dev, st);
    AppendIs(rs1, r) by {
      SameFind(rs, rs1, r.dev);
    }
  }

  lemma CopiedSources(ds: seq<Device>, vn: Vnode, vn': Vnode, nd: nat)
    requires nd < |ds| && CopiedVnode(ds, vn, vn', nd) && Distinct(vn.replicas)
    ensures SourcesStay(vn.replicas, vn'.replicas)
  {
    var rs := vn.replicas;
    if ZoneFree(ds, rs, nd) && rs != [] {
      assert Find(rs, nd) == |rs|;
      if NoneActive(rs) {
        AppendIs(rs, Replica(Online, nd));
      } else {
        var p: nat :| ComesNext(rs, vn.rd, p)
          && vn'.replicas == rs[p := Replica(CopySrc, rs[p].dev)] + [Replica(WaitSync, nd)];
        AppendedSources(rs, rs[p := Replica(CopySrc, rs[p].dev)], p, CopySrc, Replica(WaitSync, nd));
      }
    }
  }

  lemma LeftSources(s: State, x: State, v: nat, donor: nat, nd: nat)
    requires Left(s, x, v, donor, nd) && Distinct(s.vnodes[v].replicas)
    requires Find(s.vnodes[v].replicas, nd) == |s.vnodes[v].replicas|
    ensures SourcesStay(s.vnodes[v].replicas, x.vnodes[v].replicas)
  {
    var rs := s.vnodes[v].replicas;
    var p := Find(rs, donor);
    AppendedSources(rs, rs[p := Replica(MoveSrc, donor)], p, MoveSrc, Replica(WaitSync, nd));
  }

  // ---------------------------------------------------------------------------------------------
  // What happens, one by one
  // ---------------------------------------------------------------------------------------------

  lemma AddedStay(e: Edition, s: State, zone: int, weight: int, d: nat)
    requires Inv(e, s) && d < |s.devices|
    ensures SyncingStay(s, AddDevice(s, zone, weight), d)
  {
    StayBySources(e, s, AddDevice(s, zone, weight), d);
  }

  lemma CopyStays(e: Edition, s: State, x: State, nd: nat, d: nat)
    requires Inv(e, s) && nd < |s.devices| && d < |s.devices| && CopiedBelow(s, nd, x, |s.vnodes|)
    ensures SyncingStay(s, x, d)
  {
    forall v: nat | v < |s.vnodes|
      ensures SourcesStay(s.vnodes[v].replicas, x.vnodes[v].replicas)
    {
      assert VnodeInv(e, s.devices, s.vnodes[v].replicas, v);
      CopiedSources(s.devices, s.vnodes[v], x.vnodes[v], nd);
    }
    StayBySources(e, s, x, d);
  }

  lemma MoveStays(e: Edition, s: State, x: State, nd: nat, d: nat)
    requires Inv(e, s) && nd < |s.devices| && d < |s.devices| && Moves(s, nd, x)
    requires forall v: nat :: v < |s.vnodes| ==> Find(s.vnodes[v].replicas, nd) == |s.vnodes[v].replicas|
    ensures SyncingStay(s, x, d)
  {
    forall v: nat | v < |s.vnodes|
      ensures SourcesStay(s.vnodes[v].replicas, x.vnodes[v].replicas)
    {
      assert VnodeInv(e, s.devices, s.vnodes[v].replicas, v);
      if v in x.devices[nd].listed {
        var donor: nat :| donor < nd && Left(s, x, v, donor, nd);
        LeftSources(s, x, v, donor, nd);
      }
    }
    assert d != nd ==> SendsSome(s, x, d, nd);
    StayBySources(e, s, x, d);
  }

  lemma JoinStays(e: Edition, s: State, zone: int, weight: int, rnd: nat -> nat, d: nat)
    requires Inv(e, s) && d <= |s.devices| && Join(e, s, zone, weight, rnd).Ok?
    ensures d < |Join(e, s, zone, weight, rnd).value.devices|
    ensures SyncingStay(AddDevice(s, zone, weight), Join(e, s, zone, weight, rnd).value, d)
  {
    var s1, nd := AddDevice(s, zone, weight), |s.devices|;
    AddDeviceKeeps(e, s, zone, weight);
    if |s.devices| < s.replicaCount {
      CopyFromOutcome(e, s1, nd);
      CopyStays(e, s1, CopyJoin(s, zone, weight).value, nd, d);
    } else {
      MoveJoinMoves(e, s, zone, weight, rnd);
      forall v: nat | v < |s1.vnodes|
        ensures Find(s1.vnodes[v].replicas, nd) == |s1.vnodes[v].replicas|
      {
        assert VnodeInv(e, s.devices, s.vnodes[v].replicas, v);
        assert StatusOf(s.vnodes[v].replicas, nd).None?;
      }
      MoveStays(e, s1, MoveJoin(e, s, zone, weight, rnd).value, nd, d);
    }
  }

  lemma SyncDownStays(e: Edition, s: State, d: nat, ids: seq<int>, c: nat)
    requires Inv(e, s) && Counted(s) && d < |s.devices| && c < |s.devices| && SyncDown(e, s, d, ids).Ok?
    ensures c < |SyncDown(e, s, d, ids).value.devices| && SyncingStay(s, SyncDown(e, s, d, ids).value, c)
  {
    SyncDownKeeps(e, s, d, ids);
    forall i | 0 <= i < |ids|
      ensures ids[i] >= 0
    {
      assert Syncing(s, d, ids[i]);
    }
    AllSynced(e, s, d, ids);
    SyncedStay(e, s, d, Vnodes(ids), SyncDown(e, s, d, ids).value, c);
  }

  lemma SyncedStay(e: Edition, s: State, d: nat, done: set<nat>, s': State, c: nat)
    requires Inv(e, s) && c < |s.devices| && Synced(e, s, d, done, s')
    ensures SyncingStay(s, s', c)
  {
    forall ev | ev in s'.devices[c].syncing
      ensures ev in s.devices[c].syncing && ev.vnode < |s.vnodes|
      ensures StatusOf(s'.vnodes[ev.vnode].replicas, c) == StatusOf(s.vnodes[ev.vnode].replicas, c)
    {
      if c == d {
        StillThere(s.devices[d].syncing, done, ev);
        SyncingIsSource(e, s, c, ev);
      } else {
        SyncingIsSource(e, s, c, ev);
        if ev.vnode in done {
          EndedStays(e, s, d, ev.vnode, s'.vnodes[ev.vnode], c);
        }
      }
    }
  }

  /** A sync that ends changes no other source of the vnode. */
  lemma EndedStays(e: Edition, s: State, d: nat, v: nat, vn': Vnode, c: nat)
    requires Inv(e, s) && d < |s.devices| && EndsIn(s, d, v, vn') && c != d && SourceOn(s.vnodes[v].replicas, c)
    ensures StatusOf(vn'.replicas, c) == StatusOf(s.vnodes[v].replicas, c)
  {
    var ev :| ev in s.devices[d].syncing && ev.vnode == v
      && EndedStatuses(s.vnodes[v].replicas, vn'.replicas, d, ev.dest);
    assert VnodeInv(e, s.devices, s.vnodes[v].replicas, v);
    assert ev in Owed(s.devices[d]);
    OwedIsSound(e, s, d, ev);
    assert (d, ev.dest).1 == ev.dest;
  }

  lemma BeatStays(e: Edition, s: State, d: nat, reports: seq<Report>, c: nat)
    requires Inv(e, s) && d < |s.devices| && c < |s.devices| && c != d && Heartbeat(s, d, reports).Ok?
    ensures c < |Heartbeat(s, d, reports).value.0.devices| && SyncingStay(s, Heartbeat(s, d, reports).value.0, c)
  {
    WholeBeat(e, s, d, reports);
    var s' := Heartbeat(s, d, reports).value.0;
    forall v: nat | v < |s.vnodes|
      ensures SourcesStay(s.vnodes[v].replicas, s'.vnodes[v].replicas)
    {
      AfterSources(e, s, d, reports, s', v);
    }
    StayBySources(e, s, s', c);
  }

  lemma AfterSources(e: Edition, s: State, d: nat, reports: seq<Report>, s': State, v: nat)
    requires Inv(e, s) && d < |s.devices| && After(s, d, reports, s') && v < |s.vnodes|
    ensures SourcesStay(s.vnodes[v].replicas, s'.vnodes[v].replicas)
  {
    assert VnodeAfter(s, d, reports, v, s'.vnodes[v]);
    if v in s.devices[d].listed && v in ReportedIds(reports) {
      FirstThere(reports, v);
      var i: nat :| FirstAt(reports, i, v);
      assert VnodeInv(e, s.devices, s.vnodes[v].replicas, v);
      MergedSources(s.vnodes[v], s'.vnodes[v], d, reports[i].version);
    }
  }

  // ---------------------------------------------------------------------------------------------
  // The heartbeat of the node itself
  // ---------------------------------------------------------------------------------------------

  /** What the node has of vnode `x` lags, and of the ACTIVE replicas its own comes next. */
  ghost predicate OwnSource(s: State, d: nat, list: seq<StorageVnode>, x: int)
    requires d < |s.devices|
  {
    && 0 <= x < |s.vnodes| && x in s.devices[d].listed
    && exists was :: was in list && was.id == x && Asks(s.vnodes[x], d, was.version, d)
  }

  lemma OwnSourceIs(s: State, d: nat, list: seq<StorageVnode>, x: int)
    requires d < |s.devices| && UniqueIds(list)
    ensures SelfAsked(s, d, ReportOf(list), x) <==> OwnSource(s, d, list, x)
  {
    var reports := ReportOf(list);
    ReportedAre(list);
    if SelfAsked(s, d, reports, x) {
      SelfAskedReported(s, d, reports, x);
    }
    if x >= 0 && x in Ids(list) {
      var i :| 0 <= i < |list| && list[i].id == x;
      assert FirstAt(reports, i, x);
      SelfAskedIs(s, d, reports, i);
      assert list[i] in list;
    }
  }

  /** The entry has the replica's status, or waits for itself. */
  ghost predicate SameStatus(s: State, s': State, d: nat, list: seq<StorageVnode>, w: StorageVnode)
    requires d < |s.devices|
  {
    && 0 <= w.id < |s'.vnodes|
    && if OwnSource(s, d, list, w.id) then
         w.status.WaitSync? && StatusOf(s'.vnodes[w.id].replicas, d) == Some(CopySrc)
       else StatusOf(s'.vnodes[w.id].replicas, d) == Some(w.status)
  }

  lemma ToldEntry(e: Edition, s: State, d: nat, list: seq<StorageVnode>, w: StorageVnode, u: Reply)
    requires Inv(e, s) && d < |s.devices| && UniqueIds(list) && Heartbeat(s, d, ReportOf(list)).Ok?
    requires u in Heartbeat(s, d, ReportOf(list)).value.1
    requires u.id == w.id && u.status == w.status && !u.status.Offline?
    ensures SameStatus(s, Heartbeat(s, d, ReportOf(list)).value.0, d, list, w)
  {
    WholeBeat(e, s, d, ReportOf(list));
    OwnSourceIs(s, d, list, w.id);
  }

  /** The device has an event for the vnode out. */
  ghost predicate SyncingOf(s: State, d: nat, x: int) {
    d < |s.devices| && EventFor(s.devices[d].syncing, x)
  }

  /** Of the listed vnodes, the reply affirms exactly those that the device is not syncing. */
  lemma AffirmedIs(e: Edition, s: State, d: nat, list: seq<StorageVnode>, x: int)
    requires Inv(e, s) && Usual(s) && d < |s.devices| && UniqueIds(list) && Heartbeat(s, d, ReportOf(list)).Ok?
    requires x in s.devices[d].listed
    ensures Affirmed(Heartbeat(s, d, ReportOf(list)).value.1, x) <==> !SyncingOf(s, d, x)
  {
    var reply := Heartbeat(s, d, ReportOf(list)).value.1;
    InvOrderly(e, s, d);
    HeartbeatAnswers(s, d, ReportOf(list)) by {
      ReportedAre(list);
    }
    MentionedIs(reply, x);
    SourceOwes(e, s, d, x);
  }

  /**
   What a heartbeat leaves on the node. An entry for a vnode that the device is syncing is as it was; every other one
   has the status of the replica on the master.
   */
  lemma BeatTells(e: Edition, s: State, d: nat, list: seq<StorageVnode>, w: StorageVnode)
    requires Inv(e, s) && Usual(s) && d < |s.devices| && UniqueIds(list) && HasSyncing(s, d, list)
    requires Heartbeat(s, d, ReportOf(list)).Ok?
    requires w in MergeReply(list, Heartbeat(s, d, ReportOf(list)).value.1)
    ensures w.id in s.devices[d].listed && (w.id in Ids(list) ==> VersionThere(list, w.id, w.version))
    ensures if SyncingOf(s, d, w.id) then w in list
            else SameStatus(s, Heartbeat(s, d, ReportOf(list)).value.0, d, list, w)
  {
    var reply := Heartbeat(s, d, ReportOf(list)).value.1;
    BeatConverges(e, s, d, list);
    MergeReplyEntries(list, reply);
    assert Follows(list, reply, w);
    var list' := MergeReply(list, reply);
    var k :| 0 <= k < |list'| && list'[k] == w;
    assert w.id in Ids(list');
    AffirmedIs(e, s, d, list, w.id);
    if Affirmed(reply, w.id) {
      var u :| u in reply && u.id == w.id && u.status == w.status && !u.status.Offline?;
      ToldEntry(e, s, d, list, w, u);
    }
  }

  /** A replica that the device is syncing keeps its status in the heartbeat. */
  lemma SyncingKept(e: Edition, s: State, d: nat, reports: seq<Report>, x: int)
    requires Inv(e, s) && d < |s.devices| && SyncingOf(s, d, x) && Heartbeat(s, d, reports).Ok?
    ensures var s' := Heartbeat(s, d, reports).value.0;
            && 0 <= x < |s.vnodes| == |s'.vnodes| && SourceOn(s.vnodes[x].replicas, d)
            && StatusOf(s'.vnodes[x].replicas, d) == StatusOf(s.vnodes[x].replicas, d)
  {
    var ev :| ev in s.devices[d].syncing && ev.vnode == x;
    SyncingIsSource(e, s, d, ev);
    WholeBeat(e, s, d, reports);
    AfterSources(e, s, d, reports, Heartbeat(s, d, reports).value.0, x);
  }

  lemma SyncingEntry(e: Edition, s: State, d: nat, list: seq<StorageVnode>, w: StorageVnode)
    requires Inv(e, s) && d < |s.devices| && UniqueIds(list) && Agreeing(s, d, list)
    requires SyncingOf(s, d, w.id) && w in list
    ensures 0 <= w.id < |s.vnodes| && StatusOf(s.vnodes[w.id].replicas, d) == Some(w.status)
    ensures !OwnSource(s, d, list, w.id)
  {
    var ev :| ev in s.devices[d].syncing && ev.vnode == w.id;
    SyncingIsSource(e, s, d, ev);
    assert Carries(list, ev.vnode, StatusOf(s.vnodes[ev.vnode].replicas, d));
  }

  /** If the node agreed on what it was syncing, it agrees on everything. */
  lemma BeatAgrees(e: Edition, s: State, d: nat, list: seq<StorageVnode>, w: StorageVnode)
    requires Inv(e, s) && Usual(s) && d < |s.devices| && UniqueIds(list) && Agreeing(s, d, list)
             && HasSyncing(s, d, list)
    requires Heartbeat(s, d, ReportOf(list)).Ok?
    requires w in MergeReply(list, Heartbeat(s, d, ReportOf(list)).value.1)
    ensures SameStatus(s, Heartbeat(s, d, ReportOf(list)).value.0, d, list, w)
  {
    BeatTells(e, s, d, list, w);
    if SyncingOf(s, d, w.id) {
      SyncingEntry(e, s, d, list, w);
      SyncingKept(e, s, d, ReportOf(list), w.id);
    }
  }

  /** An ACTIVE replica that was there before the heartbeat has the vnode's version. */
  lemma BeatVersions(e: Edition, s: State, d: nat, list: seq<StorageVnode>, w: StorageVnode)
    requires Inv(e, s) && Usual(s) && d < |s.devices| && UniqueIds(list) && HasSyncing(s, d, list)
    requires Heartbeat(s, d, ReportOf(list)).Ok? && !SyncingOf(s, d, w.id)
    requires w in MergeReply(list, Heartbeat(s, d, ReportOf(list)).value.1) && w.status.Active? && w.id in Ids(list)
    ensures 0 <= w.id < |Heartbeat(s, d, ReportOf(list)).value.0.vnodes|
    ensures w.version == Heartbeat(s, d, ReportOf(list)).value.0.vnodes[w.id].version
  {
    BeatTells(e, s, d, list, w);
    var was :| was in list && was.id == w.id && was.version == w.version;
    WholeBeat(e, s, d, ReportOf(list));
    ActiveVersion(e, s, d, list, was, Heartbeat(s, d, ReportOf(list)).value.0);
  }

  lemma ActiveVersion(e: Edition, s: State, d: nat, list: seq<StorageVnode>, was: StorageVnode, s': State)
    requires Inv(e, s) && d < |s.devices| && UniqueIds(list) && was in list && was.id in s.devices[d].listed
    requires After(s, d, ReportOf(list), s') && StatusOf(s'.vnodes[was.id].replicas, d) == Some(Active)
    ensures was.version == s'.vnodes[was.id].version
  {
    var i :| 0 <= i < |list| && list[i] == was;
    var reports, v: nat := ReportOf(list), was.id;
    ReportedAre(list);
    assert FirstAt(reports, i, v) && v in ReportedIds(reports);
    assert VnodeAfter(s, d, reports, v, s'.vnodes[v]);
    assert Merged(s.vnodes[v], s'.vnodes[v], d, was.version);
    MergedActive(s.vnodes[v], s'.vnodes[v], d, was.version);
  }

  lemma MergedActive(vn: Vnode, vn': Vnode, d: nat, version: int)
    requires Merged(vn, vn', d, version) && StatusOf(vn.replicas, d).Some? && StatusOf(vn'.replicas, d) == Some(Active)
    ensures vn'.version == version
  {
  }

  lemma BeatAgreeing(e: Edition, s: State, d: nat, list: seq<StorageVnode>)
    requires Inv(e, s) && Usual(s) && d < |s.devices| && UniqueIds(list) && Agreeing(s, d, list)
             && HasSyncing(s, d, list)
    requires Heartbeat(s, d, ReportOf(list)).Ok?
    ensures var (s', reply) := Heartbeat(s, d, ReportOf(list)).value;
            d < |s'.devices| && Agreeing(s', d, MergeReply(list, reply))
  {
    var (s', reply) := Heartbeat(s, d, ReportOf(list)).value;
    var list' := MergeReply(list, reply);
    BeatConverges(e, s, d, list);
    HeartbeatKeeps(e, s, d, ReportOf(list));
    WholeBeat(e, s, d, ReportOf(list));
    forall ev | ev in s'.devices[d].syncing
      ensures Carries(list', ev.vnode, StatusOf(s'.vnodes[ev.vnode].replicas, d))
    {
      SyncingListed(e, s', d, ev);
      var k :| 0 <= k < |list'| && list'[k].id == ev.vnode;
      BeatAgrees(e, s, d, list, list'[k]);
      NotOwnSource(e, s, d, list, ev);
      assert list'[k] in list';
    }
  }

  lemma NotOwnSource(e: Edition, s: State, d: nat, list: seq<StorageVnode>, ev: Event)
    requires Inv(e, s) && d < |s.devices| && ev in s.devices[d].syncing + s.devices[d].pending
    ensures !OwnSource(s, d, list, ev.vnode)
  {
    OwedList(s.devices[d]);
    OwedIsSound(e, s, d, ev);
  }

  // ---------------------------------------------------------------------------------------------
  // Histories
  // ---------------------------------------------------------------------------------------------

  ghost predicate Agreed(w: World) {
    |w.nodes| == |w.master.devices| && forall d: nat :: d < |w.nodes| ==> Agreeing(w.master, d, w.nodes[d])
  }

  /** The versions of entries changed. */
  lemma ListChanges(s: State, d: nat, list: seq<StorageVnode>, list': seq<StorageVnode>)
    requires d < |s.devices| && Agreeing(s, d, list)
    requires |list'| == |list| && forall i :: 0 <= i < |list| ==> list'[i] == list[i].(version := list'[i].version)
    ensures Agreeing(s, d, list')
  {
    forall ev | ev in s.devices[d].syncing && ev.vnode < |s.vnodes|
      ensures Carries(list', ev.vnode, StatusOf(s.vnodes[ev.vnode].replicas, d))
    {
      assert Carries(list, ev.vnode, StatusOf(s.vnodes[ev.vnode].replicas, d));
      var w :| w in list && w.id == ev.vnode && StatusOf(s.vnodes[ev.vnode].replicas, d) == Some(w.status);
      var i :| 0 <= i < |list| && list[i] == w;
      assert list'[i] in list';
    }
  }

  /** Only the master took a step. */
  lemma MasterSteps(w: World, s': State)
    requires |w.nodes| == |w.master.devices| <= |s'.devices|
    requires forall d: nat :: d < |w.nodes| ==> Agreeing(w.master, d, w.nodes[d]) && SyncingStay(w.master, s', d)
    ensures forall d: nat :: d < |w.nodes| ==> Agreeing(s', d, w.nodes[d])
  {
  }

  lemma JoinsAgree(e: Edition, w: World, zone: int, weight: int, rnd: nat -> nat)
    requires Inv(e, w.master) && Counted(w.master) && Agreed(w) && Next(e, w, NodeJoins(zone, weight, rnd)).Ok?
    ensures Agreed(Next(e, w, NodeJoins(zone, weight, rnd)).value)
  {
    var s1, s' := AddDevice(w.master, zone, weight), Join(e, w.master, zone, weight, rnd).value;
    JoinSyncing(e, w.master, zone, weight, rnd);
    var w' := Next(e, w, NodeJoins(zone, weight, rnd)).value;
    forall d: nat | d < |w'.nodes|
      ensures Agreeing(s', d, w'.nodes[d])
    {
      JoinStays(e, w.master, zone, weight, rnd, d);
      if d < |w.nodes| {
        AddedStay(e, w.master, zone, weight, d);
        AgreeingStays(w.master, s1, d, w.nodes[d]);
      }
      AgreeingStays(s1, s', d, w'.nodes[d]);
    }
  }

  lemma BeatsAgree(e: Edition, w: World, d: nat)
    requires Inv(e, w.master) && Usual(w.master) && Agreed(w) && d < |w.nodes|
    requires UniqueIds(w.nodes[d]) && HasSyncing(w.master, d, w.nodes[d]) && Next(e, w, NodeBeats(d)).Ok?
    ensures Agreed(Next(e, w, NodeBeats(d)).value)
  {
    HeartbeatSyncing(w.master, d, ReportOf(w.nodes[d]));
    BeatAgreeing(e, w.master, d, w.nodes[d]);
    var w' := Next(e, w, NodeBeats(d)).value;
    forall c: nat | c < |w.nodes| && c != d
      ensures Agreeing(w'.master, c, w'.nodes[c])
    {
      BeatStays(e, w.master, d, ReportOf(w.nodes[d]), c);
      AgreeingStays(w.master, w'.master, c, w.nodes[c]);
    }
  }

  lemma SyncDownAgrees(e: Edition, s: State, nodes: seq<seq<StorageVnode>>, d: nat, ids: seq<int>)
    requires Inv(e, s) && Counted(s) && d < |s.devices| == |nodes| && SyncDown(e, s, d, ids).Ok?
    requires forall c: nat :: c < |nodes| ==> Agreeing(s, c, nodes[c])
    ensures |SyncDown(e, s, d, ids).value.devices| == |nodes|
    ensures forall c: nat :: c < |nodes| ==> Agreeing(SyncDown(e, s, d, ids).value, c, nodes[c])
  {
    SyncDownKeeps(e, s, d, ids);
    forall c: nat | c < |nodes|
      ensures Agreeing(SyncDown(e, s, d, ids).value, c, nodes[c])
    {
      SyncDownStays(e, s, d, ids, c);
      AgreeingStays(s, SyncDown(e, s, d, ids).value, c, nodes[c]);
    }
  }

  lemma NextSynced(e: Edition, w: World, d: nat, ids: seq<int>)
    requires Next(e, w, NodeSynced(d, ids)).Ok?
    ensures var w' := Next(e, w, NodeSynced(d, ids)).value;
            if d < |w.master.devices| then
              SyncDown(e, w.master, d, ids).Ok? && w' == w.(master := SyncDown(e, w.master, d, ids).value)
            else w' == w
  {
  }

  lemma SyncedAgree(e: Edition, w: World, d: nat, ids: seq<int>)
    requires Inv(e, w.master) && Counted(w.master) && Agreed(w) && Next(e, w, NodeSynced(d, ids)).Ok?
    ensures Agreed(Next(e, w, NodeSynced(d, ids)).value)
  {
    NextSynced(e, w, d, ids);
    if d < |w.master.devices| {
      SyncDownAgrees(e, w.master, w.nodes, d, ids);
    }
  }

  lemma AsksAgree(e: Edition, w: World, m: Message)
    requires Inv(e, w.master) && Agreed(w) && (m.ReadMsg? || m.WriteMsg?) && Next(e, w, ClientAsks(m)).Ok?
    ensures Agreed(Next(e, w, ClientAsks(m)).value)
  {
    var s' := Handle(e, w.master, m).value;
    if m.WriteMsg? && m.vnode < |w.master.vnodes| {
      WriteHandled(e, w.master, m.vnode);
    }
    forall d: nat | d < |w.nodes|
      ensures d < |s'.devices| && SyncingStay(w.master, s', d)
    {
      StayBySources(e, w.master, s', d);
    }
    MasterSteps(w, s');
  }

  lemma NodeChanges(w: World, d: nat, list: seq<StorageVnode>)
    requires Agreed(w) && d < |w.nodes| && |list| == |w.nodes[d]|
    requires forall i :: 0 <= i < |w.nodes[d]| ==> list[i] == w.nodes[d][i].(version := list[i].version)
    ensures Agreed(w.(nodes := w.nodes[d := list]))
  {
    ListChanges(w.master, d, w.nodes[d], list);
  }

  /** No file check comes to a node for a vnode that it is syncing to another. */
  ghost predicate Undisturbing(w: World, h: Happening) {
    h.PeerChecks? ==> !SyncingOf(w.master, h.dev, h.id)
  }

  ghost predicate Undisturbed(e: Edition, w: World, hs: seq<Happening>)
    decreases |hs|
  {
    hs == [] || (Undisturbing(w, hs[0]) && (Next(e, w, hs[0]).Ok? ==> Undisturbed(e, Next(e, w, hs[0]).value, hs[1..])))
  }

  lemma CheckAgrees(w: World, d: nat, id: int, version: int)
    requires Agreed(w) && d < |w.nodes| && UniqueIds(w.nodes[d]) && !SyncingOf(w.master, d, id)
    ensures Agreed(w.(nodes := w.nodes[d := Awaiting(w.nodes[d], id, version)]))
  {
    var s, list, list' := w.master, w.nodes[d], Awaiting(w.nodes[d], id, version);
    forall ev | ev in s.devices[d].syncing && ev.vnode < |s.vnodes|
      ensures Carries(list', ev.vnode, StatusOf(s.vnodes[ev.vnode].replicas, d))
    {
      assert Carries(list, ev.vnode, StatusOf(s.vnodes[ev.vnode].replicas, d));
      var w :| w in list && w.id == ev.vnode && StatusOf(s.vnodes[ev.vnode].replicas, d) == Some(w.status);
      var i :| 0 <= i < |list| && list[i] == w;
      assert list'[i] == w;
    }
  }

  lemma NextAgrees(e: Edition, w: World, h: Happening)
    requires Joint(e, w) && Agreed(w) && Undisturbing(w, h)
    ensures Next(e, w, h).Ok? ==> Agreed(Next(e, w, h).value)
  {
    if Next(e, w, h).Ok? {
      match h
      case NodeJoins(zone, weight, rnd) => JoinsAgree(e, w, zone, weight, rnd);
      case NodeBeats(d) =>
        if d < |w.nodes| {
          BeatsAgree(e, w, d);
        }
      case NodeSynced(d, ids) => SyncedAgree(e, w, d, ids);
      case ClientAsks(m) =>
        if m.ReadMsg? || m.WriteMsg? {
          AsksAgree(e, w, m);
        }
      case DataChange(d, versions) =>
        if d < |w.nodes| {
          NodeChanges(w, d, Changed(w.nodes[d], versions));
        }
      case PeerChecks(d, id, version) =>
        if d < |w.nodes| {
          CheckAgrees(w, d, id, version);
        }
    }
  }

  lemma {:induction false} HistoryAgrees(e: Edition, w: World, hs: seq<Happening>)
    requires Joint(e, w) && Agreed(w) && Undisturbed(e, w, hs)
    ensures History(e, w, hs).Ok? ==> Joint(e, History(e, w, hs).value) && Agreed(History(e, w, hs).value)
    decreases |hs|
  {
    if hs != [] {
      NextKeeps(e, w, hs[0]);
      NextAgrees(e, w, hs[0]);
      if Next(e, w, hs[0]).Ok? {
        HistoryAgrees(e, Next(e, w, hs[0]).value, hs[1..]);
      }
    }
  }

  /** The world after a history and one heartbeat more. */
  ghost predicate BeatsAfter(e: Edition, n: nat, rc: int, hs: seq<Happening>, d: nat, w: World, w': World) {
    && History(e, World(Boot(n, rc), []), hs) == Ok(w) && d < |w.nodes| && d < |w.master.devices|
    && Next(e, w, NodeBeats(d)) == Ok(w') && d < |w'.nodes|
  }

  /** On the node the vnode has the status of its replica on the master. */
  ghost predicate Agrees(w: World, d: nat, v: StorageVnode) {
    0 <= v.id < |w.master.vnodes| && StatusOf(w.master.vnodes[v.id].replicas, d) == Some(v.status)
  }

  /**
   However the master and its nodes got where they are, after a heartbeat of node `d`: what it has of a vnode that it is
   not syncing to another has the status of its replica on the master, unless it lagged and its own replica came next;
   then the master has COPY_SRC and the node WAIT_SYNC. What it has of a vnode that it is syncing is as it was, and
   agrees exactly if it did before. An ACTIVE one that the node reported has the vnode's version.
   */
  lemma StatusesTold(e: Edition, n: nat, rc: int, hs: seq<Happening>, d: nat, w: World, w': World, v: StorageVnode)
    requires BeatsAfter(e, n, rc, hs, d, w, w') && v in w'.nodes[d]
    ensures SyncingOf(w.master, d, v.id) ==> v in w.nodes[d] && (Agrees(w', d, v) <==> Agrees(w, d, v))
    ensures !SyncingOf(w.master, d, v.id) ==>
              && 0 <= v.id < |w'.master.vnodes|
              && (Agrees(w', d, v) <==> !OwnSource(w.master, d, w.nodes[d], v.id))
              && (OwnSource(w.master, d, w.nodes[d], v.id) ==>
                    StatusOf(w'.master.vnodes[v.id].replicas, d) == Some(CopySrc) && v.status.WaitSync?)
              && (v.status.Active? && v.id in Ids(w.nodes[d]) ==> v.version == w'.master.vnodes[v.id].version)
  {
    BootInv(e, n, rc);
    HistoryKeeps(e, World(Boot(n, rc), []), hs);
    BeatTells(e, w.master, d, w.nodes[d], v);
    if SyncingOf(w.master, d, v.id) {
      SyncingKept(e, w.master, d, ReportOf(w.nodes[d]), v.id);
    } else if v.status.Active? && v.id in Ids(w.nodes[d]) {
      BeatVersions(e, w.master, d, w.nodes[d], v);
    }
  }

  /**
   When no file check came to a node for a vnode that it was syncing, everything on the node agrees after its heartbeat,
   save for replicas that are their own source.
   */
  lemma StatusesAgree(e: Edition, n: nat, rc: int, hs: seq<Happening>, d: nat, w: World, w': World, v: StorageVnode)
    requires BeatsAfter(e, n, rc, hs, d, w, w') && v in w'.nodes[d] && Undisturbed(e, World(Boot(n, rc), []), hs)
    ensures Agrees(w', d, v) <==> !OwnSource(w.master, d, w.nodes[d], v.id)
  {
    BootInv(e, n, rc);
    HistoryAgrees(e, World(Boot(n, rc), []), hs);
    BeatAgrees(e, w.master, d, w.nodes[d], v);
  }

  lemma NodesUnique(e: Edition, n: nat, rc: int, hs: seq<Happening>, w: World, d: nat)
    requires History(e, World(Boot(n, rc), []), hs) == Ok(w) && d < |w.nodes|
    ensures Inv(e, w.master) && UniqueIds(w.nodes[d])
  {
    BootInv(e, n, rc);
    HistoryKeeps(e, World(Boot(n, rc), []), hs);
  }

  /** A file check that does come for one makes the two disagree: the node waits for what it is the source of. */
  lemma CheckDisturbs(e: Edition, n: nat, rc: int, hs: seq<Happening>, w: World, d: nat, id: int, version: int)
    requires History(e, World(Boot(n, rc), []), hs) == Ok(w) && d < |w.nodes| && SyncingOf(w.master, d, id)
    ensures Next(e, w, PeerChecks(d, id, version)) == Ok(w.(nodes := w.nodes[d := Awaiting(w.nodes[d], id, version)]))
    ensures StorageVnode(id, WaitSync, version) in Awaiting(w.nodes[d], id, version)
    ensures forall v :: v in Awaiting(w.nodes[d], id, version) && v.id == id ==> !Agrees(w, d, v)
  {
    NodesUnique(e, n, rc, hs, w, d);
    CheckedDisagrees(e, w, d, id, version);
  }

  lemma CheckedDisagrees(e: Edition, w: World, d: nat, id: int, version: int)
    requires Inv(e, w.master) && d < |w.nodes| && UniqueIds(w.nodes[d]) && SyncingOf(w.master, d, id)
    ensures StorageVnode(id, WaitSync, version) in Awaiting(w.nodes[d], id, version)
    ensures forall v :: v in Awaiting(w.nodes[d], id, version) && v.id == id ==> !Agrees(w, d, v)
  {
    AwaitingIs(w.nodes[d], id, version);
    var ev :| ev in w.master.devices[d].syncing && ev.vnode == id;
    SyncingIsSource(e, w.master, d, ev);
  }
}
