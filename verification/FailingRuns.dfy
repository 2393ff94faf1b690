/**
 Runs that show the failures: what the master does with messages it may well receive.
 */
module FailingRuns {
  import opened ProxyTypes
  import opened NodeInfo
  import opened NodeObjects
  import opened Protocol
  import opened WriteAddress
  import opened Invariant
  import opened Runs
  import opened Guarantees
  import opened JoinInduction
  import opened Faults
  import opened Rebalance
  import opened Interleaving
  import opened InterleavedRuns
  import opened HeartbeatFaults

  const ZEROS: nat -> nat := (_: nat) => 0

  /** Appending to an empty list. */
  lemma Single<T>(x: T)
    ensures [] + [x] == [x]
  {
  }

  lemma RunStep(e: Edition, s: State, m: Message, s': State, ms: seq<Message>)
    requires Handle(e, s, m) == Ok(s')
    ensures Run(e, s, [m] + ms) == Run(e, s', ms)
  {
    assert ([m] + ms)[1..] == ms;
  }

  lemma RunEnds(e: Edition, s: State, m: Message, ms: seq<Message>)
    requires Handle(e, s, m) == Fault
    ensures Run(e, s, [m] + ms) == Fault
  {
  }

  // ---------------------------------------------------------------------------------------------
  // One vnode, one device, then another
  // ---------------------------------------------------------------------------------------------

  /** One vnode with these replicas. */
  function With(devices: seq<Device>, version: int, rd: nat, rs: seq<Replica>, accepted: seq<Acceptance>): State {
    State(devices, [Vnode(version, rd, 0, rs)], 1, accepted)
  }

  const ALONE := With([Device(1, 1, [0], [], [])], 0, 0, [Replica(Active, 0)], [])

  lemma FirstJoin(e: Edition)
    ensures Handle(e, Boot(1, 1), JoinMsg(1, 1, ZEROS)) == Ok(ALONE)
  {
    var s := AddDevice(Boot(1, 1), 1, 1);
    assert s.devices == [Device(1, 1, [], [], [])] && s.vnodes == [Vnode(0, 0, 0, [])];
    assert CopyOne(s, 0, 0) == Ok(ALONE) by {
      assert WithReplicas(s, 0, [Replica(Active, 0)]).vnodes == ALONE.vnodes;
      Single<nat>(0);
      assert PushListed(s, 0, 0).devices == ALONE.devices;
    }
    assert CopyFrom(s, 0, 0) == CopyFrom(ALONE, 1, 0) == Ok(ALONE);
  }

  // ---------------------------------------------------------------------------------------------
  // A move that ends
  // ---------------------------------------------------------------------------------------------

  const MOVING := With([Device(1, 1, [0], [Event(0, 1)], []), Device(2, 1, [0], [], [])], 0, 0,
                       [Replica(MoveSrc, 0), Replica(WaitSync, 1)], [])

  const SENT := With([Device(1, 1, [0], [], [Event(0, 1)]), Device(2, 1, [0], [], [])], 0, 0,
                     [Replica(MoveSrc, 0), Replica(WaitSync, 1)], [])

  const MOVED := With([Device(1, 1, [0], [], []), Device(2, 1, [0], [], [])], 0, 0, [Replica(Active, 1)], [])

  const BARE := With([Device(1, 1, [0], [], []), Device(2, 1, [], [], [])], 0, 0, [Replica(Active, 0)], [])

  lemma OverItsQuota()
    ensures AddDevice(ALONE, 2, 1) == BARE
    ensures TotalWeight(ALONE.devices) == 1 && TotalCount(ALONE.devices) == 1 && Truncated(1, 2) == 0
    ensures Quota(BARE.devices[0], 0) == 1
  {
    assert ALONE.devices[1..] == [];
  }

  lemma TheMove(e: Edition)
    ensures MoveOne(e, BARE, 0, 0, 1) == if e.keepsReplica then Ok((MOVING, true)) else Fault
  {
    var rs := BARE.vnodes[0].replicas;
    var rs' := SetStatus(rs, 0, MoveSrc) + [Replica(WaitSync, 1)];
    assert rs' == MOVING.vnodes[0].replicas;
    assert WithReplicas(BARE, 0, rs').vnodes == MOVING.vnodes;
    Single<nat>(0);
    Single(Event(0, 1));
    assert PushListed(PushPending(BARE, 0, Event(0, 1)), 1, 0).devices == MOVING.devices;
  }

  lemma SecondJoin(e: Edition)
    ensures Handle(e, ALONE, JoinMsg(2, 1, ZEROS)) == if e.keepsReplica then Ok(MOVING) else Fault
  {
    OverItsQuota();
    TheMove(e);
    assert BARE.devices[0].listed == [0] && ZEROS(0) % 1 == 0;
    var r := MoveFrom(e, BARE, 0, 1, [0], 1, ZEROS, 0);
    assert r == if e.keepsReplica then Ok(Draws(MOVING, 1)) else Fault;
    assert DonorTurn(e, BARE, 0, 1, 0, ZEROS, 0) == r;
    assert MoveDonors(e, BARE, 0, 1, 0, ZEROS, 0) ==
           if e.keepsReplica then MoveDonors(e, MOVING, 1, 1, 0, ZEROS, 1) else Fault;
  }

  lemma MoveSent(e: Edition)
    ensures Handle(e, MOVING, HeartbeatMsg(0, [])) == Ok(SENT)
  {
    assert MOVING.devices[0].pending[1..] == [];
    assert StatusOf(MOVING.vnodes[0].replicas, 0) == Some(MoveSrc);
    var unit := Reply(0, MoveSrc, Some(1));
    Single(Event(0, 1));
    assert SENT.devices == MOVING.devices[0 := SENT.devices[0]];
    assert DrainOne(MOVING, 0) == Ok((SENT, unit));
    assert Drain(MOVING, 0, []) == Drain(SENT, 0, [] + [unit]) == Ok((SENT, [] + [unit]));
    assert SENT.devices[0].listed[1..] == [];
    assert Unreported(SENT, 0, [0], [] + [unit]) == Unreported(SENT, 0, [], [] + [unit]);
  }

  lemma MoveDone(e: Edition)
    requires !e.erasesMoved
    ensures Handle(e, SENT, SyncDownMsg(0, [0])) == Ok(MOVED)
  {
    var rs := SENT.vnodes[0].replicas;
    assert rs[1].dev == 1 && Find(rs, 1) == 1 by {
      FindAt(rs, 1);
    }
    var rs1 := SetStatus(rs, 1, Active);
    assert Destroy(rs1, 0) == [Replica(Active, 1)];
    assert SENT.devices[0 := SENT.devices[0].(syncing := RemoveAt(SENT.devices[0].syncing, 0))] == MOVED.devices;
    assert RemoveAt(SENT.devices[0].syncing, 0) == [];
    assert EventIndex(SENT.devices[0].syncing, 0) == 0;
    var s1 := SENT.(devices := MOVED.devices);
    assert Find(rs, 0) == 0 && rs1[0] == Replica(MoveSrc, 0);
    assert WithReplicas(s1, 0, [Replica(Active, 1)]).vnodes == MOVED.vnodes;
    assert SyncDownOne(e, SENT, 0, 0) == Ok(MOVED);
    assert [0][1..] == [];
    assert SyncDown(e, MOVED, 0, []) == Ok(MOVED);
  }

  lemma NextBeatFaults(e: Edition)
    ensures Stale(MOVED, 0, 0) && Handle(e, MOVED, HeartbeatMsg(0, [])) == Fault
  {
    assert StatusOf(MOVED.vnodes[0].replicas, 0) == None;
    assert 0 in MOVED.devices[0].listed;
    assert Unreported(MOVED, 0, [0], []) == Fault;
  }

  /** A device joins, a second one takes its vnode over, and the first says so; then what is in `rest`. */
  function MoveMessages(rest: seq<Message>): seq<Message> {
    [JoinMsg(1, 1, ZEROS)] + ([JoinMsg(2, 1, ZEROS)] + ([HeartbeatMsg(0, [])] + ([SyncDownMsg(0, [0])] + rest)))
  }

  /** The donor's heartbeat sends the event, and the donor says that the move is done. */
  lemma MoveUntilDone(e: Edition, rest: seq<Message>)
    requires e.keepsReplica && !e.erasesMoved
    ensures Run(e, ALONE, [JoinMsg(2, 1, ZEROS)] + ([HeartbeatMsg(0, [])] + ([SyncDownMsg(0, [0])] + rest))) ==
            Run(e, MOVED, rest)
  {
    SecondJoin(e);
    MoveSent(e);
    MoveDone(e);
    RunStep(e, SENT, SyncDownMsg(0, [0]), MOVED, rest);
    RunStep(e, MOVING, HeartbeatMsg(0, []), SENT, [SyncDownMsg(0, [0])] + rest);
    RunStep(e, ALONE, JoinMsg(2, 1, ZEROS), MOVING, [HeartbeatMsg(0, [])] + ([SyncDownMsg(0, [0])] + rest));
  }

  lemma BootUntilDone(e: Edition, rest: seq<Message>)
    requires e.keepsReplica && !e.erasesMoved
    ensures Run(e, Boot(1, 1), MoveMessages(rest)) == Run(e, MOVED, rest)
  {
    FirstJoin(e);
    MoveUntilDone(e, rest);
    RunStep(e, Boot(1, 1), JoinMsg(1, 1, ZEROS), ALONE,
            [JoinMsg(2, 1, ZEROS)] + ([HeartbeatMsg(0, [])] + ([SyncDownMsg(0, [0])] + rest)));
  }

  /**
   With a kept replica but without the erase, the run goes well until the move is done, which leaves a stale entry;
   the next heartbeat of the donor faults.
   */
  lemma MoveThenHeartbeat(e: Edition)
    requires e.keepsReplica && !e.erasesMoved
    ensures Run(e, Boot(1, 1), MoveMessages([])) == Ok(MOVED) && Stale(MOVED, 0, 0)
    ensures Run(e, Boot(1, 1), MoveMessages([HeartbeatMsg(0, [])])) == Fault
  {
    BootUntilDone(e, []);
    BootUntilDone(e, [HeartbeatMsg(0, [])]);
    NextBeatFaults(e);
    assert [HeartbeatMsg(0, [])][0] == HeartbeatMsg(0, []);
  }

  /** As written, the run ends earlier: the second join faults. */
  lemma SecondJoinFaults(e: Edition)
    requires !e.keepsReplica
    ensures Run(e, Boot(1, 1), [JoinMsg(1, 1, ZEROS)] + ([JoinMsg(2, 1, ZEROS)] + [])) == Fault
  {
    FirstJoin(e);
    SecondJoin(e);
    RunEnds(e, ALONE, JoinMsg(2, 1, ZEROS), []);
    RunStep(e, Boot(1, 1), JoinMsg(1, 1, ZEROS), ALONE, [JoinMsg(2, 1, ZEROS)] + []);
  }

  /** With moves erased, or no moves at all, no state ever has a stale entry. */
  lemma NeverStale(e: Edition, n: nat, rc: int, s: State, d: nat, v: nat)
    requires Exact(e) && Reached(e, n, rc, s)
    ensures !Stale(s, d, v)
  {
    RunInv(e, n, rc, s);
    if d < |s.devices| && v < |s.vnodes| {
      assert VnodeInv(e, s.devices, s.vnodes[v].replicas, v);
      assert v in s.devices[d].listed <==> multiset(s.devices[d].listed)[v] > 0;
    }
  }

  // ---------------------------------------------------------------------------------------------
  // A move that ends in the middle of a heartbeat
  // ---------------------------------------------------------------------------------------------

  /** The state after the move, whether or not the edition erases it from the list. */
  function DoneState(e: Edition): State {
    if e.erasesMoved then MOVED.(devices := [Device(1, 1, [], [], []), Device(2, 1, [0], [], [])]) else MOVED
  }

  lemma MoveErased(e: Edition)
    requires e.erasesMoved
    ensures SyncDownOne(e, SENT, 0, 0) == Ok(DoneState(e))
  {
    var kept := e.(erasesMoved := false);
    MoveDone(kept);
    assert [0][1..] == [];
    var s' := SyncDownOne(kept, SENT, 0, 0).value;
    assert SyncDown(kept, SENT, 0, [0]) == SyncDown(kept, s', 0, []) == Ok(s');
    assert IndexOf([0], 0) == 0 && RemoveAt([0], 0) == [];
    assert EraseListed(MOVED, 0, 0).devices == DoneState(e).devices;
  }

  lemma MoveEnds(e: Edition)
    ensures SyncDownOne(e, SENT, 0, 0) == Ok(DoneState(e))
  {
    if e.erasesMoved {
      MoveErased(e);
    } else {
      MoveDone(e);
      assert [0][1..] == [];
      var r := SyncDownOne(e, SENT, 0, 0);
      assert SyncDown(e, SENT, 0, [0]) == if r.Ok? then SyncDown(e, r.value, 0, []) else Fault;
    }
  }

  lemma SentReached(e: Edition)
    requires e.keepsReplica
    ensures Reached(e, 1, 1, SENT)
  {
    FirstJoin(e);
    SecondJoin(e);
    MoveSent(e);
    var beat, join := HeartbeatMsg(0, []), JoinMsg(2, 1, ZEROS);
    RunStep(e, MOVING, beat, SENT, []);
    RunStep(e, ALONE, join, MOVING, [beat] + []);
    RunStep(e, Boot(1, 1), JoinMsg(1, 1, ZEROS), ALONE, [join] + ([beat] + []));
    assert Run(e, Boot(1, 1), [JoinMsg(1, 1, ZEROS)] + ([join] + ([beat] + []))) == Ok(SENT);
  }

  /** The donor's handler when its heartbeat has begun, and at its next two sections. */
  const BEGUN := Handler(0, [], [0], [], Sending)

  lemma OneGoes(e: Edition, s: State, hs: seq<Handler>, h: Handler, more: seq<Handler>, rest: seq<Act>)
    requires h.dev < |s.devices| && Section(e, s, h).Ok?
    ensures Course(e, System(s, hs + [h] + more), [Goes(|hs|)] + rest) ==
            Course(e, System(Section(e, s, h).value.0, hs + [Section(e, s, h).value.1] + more), rest)
  {
    var h' := Section(e, s, h).value.1;
    assert (hs + [h] + more)[|hs|] == h;
    assert (hs + [h] + more)[|hs| := h'] == hs + [h'] + more;
    assert ([Goes(|hs|)] + rest)[1..] == rest;
  }

  lemma GoesFaults(e: Edition, s: State, hs: seq<Handler>, h: Handler, more: seq<Handler>)
    requires h.dev < |s.devices| && Section(e, s, h).Fault?
    ensures Course(e, System(s, hs + [h] + more), [Goes(|hs|)]) == Fault
  {
    assert (hs + [h] + more)[|hs|] == h;
  }

  /** Once the move is done, the donor's handler looks for a replica that is gone. */
  lemma LooksInVain(e: Edition, hs: seq<Handler>, more: seq<Handler>)
    ensures Course(e, System(DoneState(e), hs + [BEGUN] + more), [Goes(|hs|)] + ([Goes(|hs|)] + [Goes(|hs|)])) == Fault
  {
    var s := DoneState(e);
    assert StatusOf(s.vnodes[0].replicas, 0) == None && s.devices[0].pending == [];
    OneGoes(e, s, hs, BEGUN, more, [Goes(|hs|)] + [Goes(|hs|)]);
    OneGoes(e, s, hs, BEGUN.(at := Merging), more, [Goes(|hs|)]);
    GoesFaults(e, s, hs, BEGUN.(at := Closing), more);
  }

  const TAKEN := With([Device(1, 1, [0], [], []), Device(2, 1, [0], [], [])], 0, 0,
                      [Replica(MoveSrc, 0), Replica(WaitSync, 1)], [])

  /** The handler of the donor's sync, when its event has been taken. */
  const ENDING := Handler(0, [], [], [], Ending(Event(0, 1)))

  lemma SyncTaken(e: Edition)
    ensures TakeSync(SENT, 0, 0) == Ok((TAKEN, ENDING))
    ensures Section(e, TAKEN, ENDING) == Ok((DoneState(e), ENDING.(at := Over)))
  {
    MoveEnds(e);
    SyncInTwo(e, SENT, 0, 0);
    assert RemoveAt(SENT.devices[0].syncing, 0) == [];
    assert SENT.devices[0 := SENT.devices[0].(syncing := [])] == TAKEN.devices;
  }

  /** The heartbeat begins, the sync is taken and ends, the heartbeat goes on: a fault. */
  ghost predicate FaultsInBetween(e: Edition, hs: seq<Handler>) {
    var begun, taken := System(SENT, hs + [BEGUN]), System(TAKEN, hs + [BEGUN] + [ENDING]);
    var done := System(DoneState(e), hs + [BEGUN] + [ENDING.(at := Over)]);
    && Next(e, System(SENT, hs), Begins(0, [])) == Ok(begun) && Next(e, begun, Syncs(0, 0)) == Ok(taken)
    && OutOfPlace(taken, Goes(|hs| + 1)) && Next(e, taken, Goes(|hs| + 1)) == Ok(done)
    && Course(e, done, [Goes(|hs|)] + ([Goes(|hs|)] + [Goes(|hs|)])) == Fault
  }

  lemma EndsTooEarly(e: Edition, hs: seq<Handler>)
    ensures OutOfPlace(System(TAKEN, hs + [BEGUN] + [ENDING]), Goes(|hs| + 1))
  {
    var all := hs + [BEGUN] + [ENDING];
    assert all[|hs|] == BEGUN && all[|hs| + 1] == ENDING;
    assert Awaits(BEGUN, 0) && EndsMove(TAKEN, ENDING, 0, 0);
    assert BEGUN in all && Robbed(TAKEN, ENDING, BEGUN);
  }

  lemma TakenEnds(e: Edition, hs: seq<Handler>)
    ensures Next(e, System(TAKEN, hs + [BEGUN] + [ENDING]), Goes(|hs| + 1)) ==
            Ok(System(DoneState(e), hs + [BEGUN] + [ENDING.(at := Over)]))
  {
    var all, over := hs + [BEGUN] + [ENDING], ENDING.(at := Over);
    SyncTaken(e);
    assert all[|hs| + 1] == ENDING;
    assert all[|hs| + 1 := over] == hs + [BEGUN] + [over];
  }

  lemma FaultsThere(e: Edition, hs: seq<Handler>)
    ensures FaultsInBetween(e, hs)
  {
    assert Begun(SENT, 0, []) == BEGUN;
    SyncTaken(e);
    EndsTooEarly(e, hs);
    TakenEnds(e, hs);
    LooksInVain(e, hs, [ENDING.(at := Over)]);
  }

  /**
   Every statement repaired, and still: the donor's heartbeat begins, and copies its list; then the donor says that the
   move is done; then the heartbeat comes to the vnode that was moved, and faults.
   */
  lemma MoveEndsDuringHeartbeat(e: Edition)
    requires e.keepsReplica
    ensures exists hs: seq<Handler> :: Met(e, 1, 1, System(SENT, hs)) && AllOver(hs) && FaultsInBetween(e, hs)
  {
    SentReached(e);
    RunsAreCourses(e, 1, 1, SENT);
    var hs :| AllOver(hs) && Met(e, 1, 1, System(SENT, hs));
    FaultsThere(e, hs);
  }

  // ---------------------------------------------------------------------------------------------
  // A replica that falls behind
  // ---------------------------------------------------------------------------------------------

  const AHEAD := With([Device(1, 1, [0], [], [])], 5, 0, [Replica(Active, 0)], [Acceptance(0, 5)])

  const OWN_SOURCE := With([Device(1, 1, [0], [Event(0, 0)], [])], 5, 1, [Replica(CopySrc, 0)], [Acceptance(0, 5)])

  lemma ReportsVersion(s: State, version: int, s': State, st: Status)
    requires |s.devices| == 1 && s.devices[0].listed == [0] && s.devices[0].pending == [] && |s.vnodes| == 1
    requires StatusOf(s.vnodes[0].replicas, 0) == Some(Active)
    requires (if version < s.vnodes[0].version then Lag(s, 0, 0) else Ok(Accept(s, 0, 0, version))) == Ok((s', st))
    ensures forall e: Edition :: Handle(e, s, HeartbeatMsg(0, [Report(0, Active, version)])) == Ok(s')
  {
    var r := Report(0, Active, version);
    assert Drain(s, 0, []) == Ok((s, []));
    assert RemoveAt([0], 0) == [];
    var b := Beat(s', [], [] + [Reply(0, st, None)]);
    assert ReportOne(Beat(s, [0], []), 0, r) == Ok(b);
    assert [r][1..] == [];
    assert ReportAll(Beat(s, [0], []), 0, [r]) == ReportAll(b, 0, []) == Ok(b);
  }

  lemma GoesAhead(e: Edition)
    ensures Handle(e, ALONE, HeartbeatMsg(0, [Report(0, Active, 5)])) == Ok(AHEAD)
  {
    assert SetStatus(ALONE.vnodes[0].replicas, 0, Active) == ALONE.vnodes[0].replicas;
    assert Accept(ALONE, 0, 0, 5).0.vnodes == AHEAD.vnodes;
    Single(Acceptance(0, 5));
    assert Accept(ALONE, 0, 0, 5) == (AHEAD, Active);
    ReportsVersion(ALONE, 5, AHEAD, Active);
  }

  lemma FallsBehind(e: Edition)
    ensures Handle(e, AHEAD, HeartbeatMsg(0, [Report(0, Active, 3)])) == Ok(OWN_SOURCE)
  {
    var vn := AHEAD.vnodes[0];
    assert Around(0, 0, 1) == 0 && NextActive(vn.replicas, 0, 0) == 0;
    assert ReadReplica(vn) == (vn.(rd := 1), Some(0));
    assert SetStatus(vn.replicas, 0, WaitSync)[0 := Replica(CopySrc, 0)] == [Replica(CopySrc, 0)];
    assert Lag(AHEAD, 0, 0).value.0.vnodes == OWN_SOURCE.vnodes;
    Single(Event(0, 0));
    assert Lag(AHEAD, 0, 0).value.0.devices == OWN_SOURCE.devices;
    assert Lag(AHEAD, 0, 0) == Ok((OWN_SOURCE, WaitSync));
    ReportsVersion(AHEAD, 3, OWN_SOURCE, WaitSync);
  }

  function BehindScript(): seq<Message> {
    [JoinMsg(1, 1, ZEROS)] + ([HeartbeatMsg(0, [Report(0, Active, 5)])] +
                              ([HeartbeatMsg(0, [Report(0, Active, 3)])] + []))
  }

  /** In every edition, one device that reports version 5 and then version 3 is told to sync to itself. */
  lemma SyncsToItself(e: Edition)
    ensures Run(e, Boot(1, 1), BehindScript()) == Ok(OWN_SOURCE)
    ensures StatusOf(OWN_SOURCE.vnodes[0].replicas, 0) == Some(CopySrc) && Event(0, 0) in OWN_SOURCE.devices[0].pending
  {
    FirstJoin(e);
    GoesAhead(e);
    FallsBehind(e);
    var five, three := HeartbeatMsg(0, [Report(0, Active, 5)]), HeartbeatMsg(0, [Report(0, Active, 3)]);
    RunStep(e, AHEAD, three, OWN_SOURCE, []);
    RunStep(e, ALONE, five, AHEAD, [three] + []);
    RunStep(e, Boot(1, 1), JoinMsg(1, 1, ZEROS), ALONE, [five] + ([three] + []));
  }

  // ---------------------------------------------------------------------------------------------
  // A read, then a write
  // ---------------------------------------------------------------------------------------------

  const READ_ONCE := With([Device(1, 1, [0], [], [])], 0, 1, [Replica(Active, 0)], [])

  lemma ReadOnce(e: Edition)
    ensures Handle(e, ALONE, ReadMsg(0)) == Ok(READ_ONCE)
  {
    var vn := ALONE.vnodes[0];
    assert Around(0, 0, 1) == 0 && NextActive(vn.replicas, 0, 0) == 0;
    assert ReadReplica(vn) == (vn.(rd := 1), Some(0));
    assert ALONE.vnodes[0 := vn.(rd := 1)] == READ_ONCE.vnodes;
  }

  /** As written, one read of a vnode with one replica makes the next write request fault. */
  lemma ReadThenWrite(e: Edition)
    requires !e.ownCursor
    ensures Run(e, Boot(1, 1), [JoinMsg(1, 1, ZEROS)] + ([ReadMsg(0)] + ([WriteMsg(0)] + []))) == Fault
  {
    FirstJoin(e);
    ReadOnce(e);
    WriteFaults(e, READ_ONCE, 0);
    RunEnds(e, READ_ONCE, WriteMsg(0), []);
    RunStep(e, ALONE, ReadMsg(0), READ_ONCE, [WriteMsg(0)] + []);
    RunStep(e, Boot(1, 1), JoinMsg(1, 1, ZEROS), ALONE, [ReadMsg(0)] + ([WriteMsg(0)] + []));
  }

  // ---------------------------------------------------------------------------------------------
  // Two draws
  // ---------------------------------------------------------------------------------------------

  /** Two vnodes on the device of zone 1; the device of zone 2 is joining. */
  function Pair(rs: seq<Replica>, pending: seq<Event>, listed: seq<nat>): State {
    State([Device(1, 1, [0, 1], pending, []), Device(2, 5, listed, [], [])],
          [Vnode(0, 0, 0, rs), Vnode(0, 0, 0, [Replica(Active, 0)])], 1, [])
  }

  const BEFORE := Pair([Replica(Active, 0)], [], [])
  const AFTER := Pair([Replica(MoveSrc, 0), Replica(WaitSync, 1)], [Event(0, 1)], [0])

  lemma TwoLooks(e: Edition)
    requires e.keepsReplica
    ensures MoveOne(e, BEFORE, 0, 0, 1) == Ok((AFTER, true)) && MoveOne(e, AFTER, 0, 0, 1) == Ok((AFTER, false))
  {
    var rs' := SetStatus(BEFORE.vnodes[0].replicas, 0, MoveSrc) + [Replica(WaitSync, 1)];
    assert rs' == AFTER.vnodes[0].replicas;
    assert WithReplicas(BEFORE, 0, rs').vnodes == AFTER.vnodes;
    Single<nat>(0);
    Single(Event(0, 1));
    assert PushListed(PushPending(BEFORE, 0, Event(0, 1)), 1, 0).devices == AFTER.devices;
  }

  lemma TheLoop(e: Edition)
    requires e.keepsReplica && !e.drawsFromCopy
    ensures MoveFrom(e, BEFORE, 0, 1, [0, 1], 2, ZEROS, 0) == Ok(Draws(AFTER, 2))
  {
    TwoLooks(e);
    assert ZEROS(0) % 2 == 0 && ZEROS(1) % 1 == 0;
    assert RemoveAt([0, 1], 0) == [1] && RemoveAt([1], 0) == [];
    assert MoveFrom(e, AFTER, 0, 1, [], 1, ZEROS, 2) == Ok(Draws(AFTER, 2));
    assert MoveFrom(e, AFTER, 0, 1, [1], 1, ZEROS, 1) == Ok(Draws(AFTER, 2));
  }

  /** One look that does not fill the quota, then the others. */
  lemma TriedStep(e: Edition, s: State, donor: nat, nd: nat, working: seq<nat>, quota: int, rnd: nat -> nat, drawn: nat,
                  i: nat, s': State, moved: bool)
    requires donor < |s.devices| && nd < |s.devices| && donor != nd && !e.drawsFromCopy
    requires 0 < |working| <= |s.devices[donor].listed| && i == rnd(drawn) % |working|
    requires MoveOne(e, s, donor, s.devices[donor].listed[i], nd) == Ok((s', moved)) && (moved ==> quota > 1)
    ensures |s'.devices| == |s.devices| && s'.devices[donor].listed == s.devices[donor].listed
    ensures Tried(e, s, donor, nd, working, quota, rnd, drawn) ==
            [s.devices[donor].listed[i]]
            + Tried(e, s', donor, nd, RemoveAt(working, i), if moved then quota - 1 else quota, rnd, drawn + 1)
  {
  }

  lemma TheSecondLook(e: Edition)
    requires e.keepsReplica && !e.drawsFromCopy
    ensures Tried(e, AFTER, 0, 1, [1], 1, ZEROS, 1) == [0]
  {
    TwoLooks(e);
    assert RemoveAt([1], 0) == [];
    TriedStep(e, AFTER, 0, 1, [1], 1, ZEROS, 1, 0, AFTER, false);
    assert Tried(e, AFTER, 0, 1, [], 1, ZEROS, 2) == [];
    assert [0] + [] == [0];
  }

  lemma TheFirstLook(e: Edition)
    requires e.keepsReplica && !e.drawsFromCopy
    ensures Tried(e, BEFORE, 0, 1, [0, 1], 2, ZEROS, 0) == [0] + Tried(e, AFTER, 0, 1, [1], 1, ZEROS, 1)
  {
    TwoLooks(e);
    assert RemoveAt([0, 1], 0) == [1];
    TriedStep(e, BEFORE, 0, 1, [0, 1], 2, ZEROS, 0, 0, AFTER, true);
  }

  lemma TheTried(e: Edition)
    requires e.keepsReplica && !e.drawsFromCopy
    ensures Tried(e, BEFORE, 0, 1, [0, 1], 2, ZEROS, 0) == [0, 0]
  {
    TheFirstLook(e);
    TheSecondLook(e);
    assert [0] + [0] == [0, 0];
  }

  lemma CouldHaveMoved(e: Edition)
    requires e.keepsReplica
    ensures MoveOne(e, AFTER, 0, 1, 1).Ok? && MoveOne(e, AFTER, 0, 1, 1).value.1
  {
    assert Find(AFTER.vnodes[1].replicas, 0) == 0;
    assert IndexOf([0], 1) == 1;
  }

  lemma OneTotal(dev: Device)
    ensures TotalWeight([dev]) == dev.weight && TotalCount([dev]) == |dev.listed|
  {
    assert [dev][1..] == [];
  }

  lemma TwoTotals(a: Device, b: Device)
    ensures TotalWeight([a, b]) == a.weight + b.weight && TotalCount([a, b]) == |a.listed| + |b.listed|
  {
    assert [a, b][1..] == [b];
    OneTotal(b);
  }

  lemma TheAverage()
    ensures TotalWeight(BEFORE.devices) == 6 && TotalCount(BEFORE.devices) == 2 && Truncated(2, 6) == 0
  {
    TwoTotals(BEFORE.devices[0], BEFORE.devices[1]);
    assert BEFORE.devices == [BEFORE.devices[0], BEFORE.devices[1]];
  }

  const BOTH := State([Device(1, 1, [0, 1], [], [])],
                      [Vnode(0, 0, 0, [Replica(Active, 0)]), Vnode(0, 0, 0, [Replica(Active, 0)])], 1, [])

  /** The first device while its join is at vnode 1. */
  const HALFWAY := State([Device(1, 1, [0], [], [])], [Vnode(0, 0, 0, [Replica(Active, 0)]), Vnode(0, 0, 0, [])], 1, [])

  lemma FirstOfTwo()
    ensures CopyOne(AddDevice(Boot(2, 1), 1, 1), 0, 0) == Ok(HALFWAY)
  {
    var s := AddDevice(Boot(2, 1), 1, 1);
    assert s.devices == [Device(1, 1, [], [], [])] && s.vnodes == [Vnode(0, 0, 0, []), Vnode(0, 0, 0, [])];
    assert WithReplicas(s, 0, [Replica(Active, 0)]).vnodes == HALFWAY.vnodes;
    Single<nat>(0);
    assert PushListed(s, 0, 0).devices == HALFWAY.devices;
  }

  lemma SecondOfTwo()
    ensures CopyOne(HALFWAY, 1, 0) == Ok(BOTH)
  {
    assert WithReplicas(HALFWAY, 1, [Replica(Active, 0)]).vnodes == BOTH.vnodes;
    assert [0] + [1] == [0, 1];
    assert PushListed(HALFWAY, 0, 1).devices == BOTH.devices;
  }

  lemma JoinOfTwo(e: Edition)
    ensures Handle(e, Boot(2, 1), JoinMsg(1, 1, ZEROS)) == Ok(BOTH)
  {
    FirstOfTwo();
    SecondOfTwo();
    assert |AddDevice(Boot(2, 1), 1, 1).vnodes| == 2;
    assert CopyFrom(AddDevice(Boot(2, 1), 1, 1), 0, 0) == CopyFrom(HALFWAY, 1, 0) == CopyFrom(BOTH, 2, 0) == Ok(BOTH);
  }

  lemma TheTurn(e: Edition)
    requires e.keepsReplica && !e.drawsFromCopy
    ensures Quota(BEFORE.devices[0], 0) == 2 && DonorTurn(e, BEFORE, 0, 1, 0, ZEROS, 0) == Ok(Draws(AFTER, 2))
  {
    TheLoop(e);
  }

  lemma TheTurns(e: Edition)
    requires e.keepsReplica && !e.drawsFromCopy
    ensures MoveDonors(e, BEFORE, 0, 1, 0, ZEROS, 0) == Ok(AFTER)
  {
    TheTurn(e);
    MoveDonorsStep(e, BEFORE, 0, 1, 0, ZEROS, 0);
  }

  lemma BothTotals()
    ensures TotalWeight(BOTH.devices) == 1 && TotalCount(BOTH.devices) == 2 && Truncated(2, 6) == 0
    ensures AddDevice(BOTH, 2, 5) == BEFORE && |BOTH.devices| == 1 == BOTH.replicaCount
  {
    OneTotal(BOTH.devices[0]);
    assert BOTH.devices == [BOTH.devices[0]];
  }

  /** The join of the second device, as the dispatch leads to it. */
  lemma JoinMovesAt(e: Edition, s: State, zone: int, weight: int, rnd: nat -> nat, total: int, count: int, avg: int)
    requires |s.devices| >= s.replicaCount && TotalWeight(s.devices) + weight == total != 0
    requires TotalCount(s.devices) == count && Truncated(count, total) == avg
    ensures |s.devices| < |AddDevice(s, zone, weight).devices|
    ensures Handle(e, s, JoinMsg(zone, weight, rnd)) ==
            MoveDonors(e, AddDevice(s, zone, weight), 0, |s.devices|, avg, rnd, 0)
  {
    MoveJoinIs(e, s, zone, weight, rnd, avg);
  }

  lemma JoinAfterTwo(e: Edition)
    requires e.keepsReplica && !e.drawsFromCopy
    ensures Handle(e, BOTH, JoinMsg(2, 5, ZEROS)) == Ok(AFTER)
  {
    BothTotals();
    JoinMovesAt(e, BOTH, 2, 5, ZEROS, 6, 2, 0);
    TheTurns(e);
  }

  /** With draws as written, these two joins lead to the state in which one vnode moved. */
  lemma TwoJoins(e: Edition)
    requires e.keepsReplica && !e.drawsFromCopy
    ensures Run(e, Boot(2, 1), [JoinMsg(1, 1, ZEROS)] + ([JoinMsg(2, 5, ZEROS)] + [])) == Ok(AFTER)
  {
    JoinOfTwo(e);
    JoinAfterTwo(e);
    RunStep(e, BOTH, JoinMsg(2, 5, ZEROS), AFTER, []);
    RunStep(e, Boot(2, 1), JoinMsg(1, 1, ZEROS), BOTH, [JoinMsg(2, 5, ZEROS)] + []);
  }

  lemma BothReached(e: Edition)
    ensures Reached(e, 2, 1, BOTH)
  {
    JoinOfTwo(e);
    RunStep(e, Boot(2, 1), JoinMsg(1, 1, ZEROS), BOTH, []);
    assert Run(e, Boot(2, 1), [JoinMsg(1, 1, ZEROS)] + []) == Ok(BOTH);
  }

  lemma ZeroPositions()
    ensures 1 !in Positions(2, ZEROS, 0) && !AlwaysLast(2, ZEROS, 0)
  {
    assert Positions(2, ZEROS, 0) == [0] + ([0] + Positions(0, ZEROS, 2));
  }

  /**
   With the new replica kept (vnode_balancer.cpp:302), and draws as written: a device with both vnodes is there, and one
   of another zone joins. The average is 0 and the first device should give both of its vnodes, but two zero draws look
   at the first one twice. One vnode moves, and the other, which could, is never looked at.
   */
  lemma SecondVnodeNeverTried(e: Edition)
    requires e.keepsReplica && !e.drawsFromCopy
    ensures Reached(e, 2, 1, BOTH) && BEFORE == AddDevice(BOTH, 2, 5)
    ensures TotalWeight(BEFORE.devices) == 6 && Truncated(TotalCount(BEFORE.devices), 6) == 0
    ensures Quota(BEFORE.devices[0], 0) == 2 && DonorTurn(e, BEFORE, 0, 1, 0, ZEROS, 0) == Ok(Draws(AFTER, 2))
    ensures AFTER.devices[1].listed == [0] && 1 !in Tried(e, BEFORE, 0, 1, [0, 1], 2, ZEROS, 0)
    ensures MoveOne(e, AFTER, 0, 1, 1).Ok? && MoveOne(e, AFTER, 0, 1, 1).value.1
    ensures 1 !in Positions(2, ZEROS, 0) && !AlwaysLast(2, ZEROS, 0)
  {
    BothReached(e);
    BothTotals();
    TheAverage();
    TheTurn(e);
    TheTried(e);
    CouldHaveMoved(e);
    ZeroPositions();
  }
}
