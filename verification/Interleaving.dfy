/**
 The heartbeat handler split at its locks: between two of its sections anything else may happen, other heartbeats
 included. An event that one section took from a list and another has yet to put into one is in the handler's hands.
 */
module Interleaving {
  import opened ProxyTypes
  import opened NodeInfo
  import opened NodeObjects
  import opened Protocol
  import opened WriteAddress
  import opened Invariant
  import opened Steps
  import opened HeartbeatSteps
  import opened SyncDownSteps
  import opened JoinSteps
  import opened JoinInduction
  import opened JoinLoops
  import opened Counting
  import opened Runs
  import opened Guarantees

  // ---------------------------------------------------------------------------------------------
  // Sections
  // ---------------------------------------------------------------------------------------------

  /**
   Where a handler is: at the test of sync_list; with an event popped from it; with the event in syncing_list and the
   status to be read; at the next report; with a sync planned and the event still to be put into the source's list; at
   the next vnode that was not reported; with the event of a finished sync taken from syncing_list and the statuses
   still to be set; done.
   */
  datatype Stage =
    | Sending
    | Popped(event: Event)
    | Noting(event: Event)
    | Merging
    | Owing(src: nat, event: Event)
    | Closing
    | Ending(event: Event)
    | Over

  /** One heartbeat of a device being handled, with these reports still to come; or one sync it finished. */
  datatype Handler = Handler(dev: nat, reports: seq<Report>, todo: seq<nat>, reply: seq<Reply>, at: Stage)

  datatype System = System(s: State, handlers: seq<Handler>)

  function Answering(h: Handler, unit: Reply): Handler {
    h.(reply := h.reply + [unit])
  }

  /** The section that takes a reported vnode. */
  function ReportSection(s: State, h: Handler): Outcome<(State, Handler)>
    requires h.reports != []
  {
    var r, d := h.reports[0], h.dev;
    var j := IndexOf(h.todo, r.id);
    var h0 := h.(reports := h.reports[1..]);
    if j == |h.todo| then Ok((s, Answering(h0, Reply(r.id, Offline, None))))
    else
      var v := h.todo[j];
      var h1 := h0.(todo := RemoveAt(h.todo, j));
      if v >= |s.vnodes| || StatusOf(s.vnodes[v].replicas, d).None? then Fault
      else
        var st := StatusOf(s.vnodes[v].replicas, d).value;
        if IsSource(st) then Ok((s, h1))
        else if st.WaitSync? then Ok((s, Answering(h1, Reply(r.id, WaitSync, None))))
        else if r.version >= s.vnodes[v].version then
          var (s', st') := Accept(s, v, d, r.version);
          Ok((s', Answering(h1, Reply(r.id, st', None))))
        else Ok(PlanSection(s, h1, v))
  }

  /** The branch of a report that lags behind: it ends before the event is in the source's list. */
  function PlanSection(s: State, h: Handler, v: nat): (State, Handler)
    requires v < |s.vnodes| && StatusOf(s.vnodes[v].replicas, h.dev).Some?
  {
    var (vn, pos) := ReadReplica(s.vnodes[v]);
    var s1 := s.(vnodes := s.vnodes[v := vn]);
    match pos
    case None => (WithReplicas(s1, v, SetStatus(vn.replicas, h.dev, Online)), Answering(h, Reply(v, Online, None)))
    case Some(p) =>
      var src := vn.replicas[p].dev;
      var rs := SetStatus(vn.replicas, h.dev, WaitSync)[p := Replica(CopySrc, src)];
      (WithReplicas(s1, v, rs), h.(at := Owing(src, Event(v, h.dev))))
  }

  function SetDevice(s: State, d: nat, dev: Device): State
    requires d < |s.devices|
  {
    s.(devices := s.devices[d := dev])
  }

  /** What the end of a sync from `d` does to the replicas, found when its event was taken, and to vnode_list. */
  function EndSync(e: Edition, s: State, d: nat, ev: Event): State
    requires d < |s.devices| && ev.vnode < |s.vnodes|
    requires var rs := s.vnodes[ev.vnode].replicas; Find(rs, d) < |rs| && Find(rs, ev.dest) < |rs|
  {
    var rs := s.vnodes[ev.vnode].replicas;
    var rs1 := SetStatus(rs, ev.dest, Active);
    if rs1[Find(rs, d)].status.MoveSrc? then
      var s1 := WithReplicas(s, ev.vnode, Destroy(rs1, d));
      if e.erasesMoved then EraseListed(s1, d, ev.vnode) else s1
    else WithReplicas(s, ev.vnode, rs1[Find(rs, d) := Replica(Active, d)])
  }

  /** The next section of a handler. */
  function Section(e: Edition, s: State, h: Handler): Outcome<(State, Handler)>
    requires h.dev < |s.devices|
  {
    var d, dev := h.dev, s.devices[h.dev];
    match h.at
    case Sending =>
      if dev.pending == [] then Ok((s, h.(at := Merging)))
      else Ok((SetDevice(s, d, dev.(pending := dev.pending[1..])), h.(at := Popped(dev.pending[0]))))
    case Popped(ev) =>
      Ok((SetDevice(s, d, dev.(syncing := dev.syncing + [ev])), h.(at := Noting(ev))))
    case Noting(ev) =>
      if ev.vnode >= |s.vnodes| || ev.dest >= |s.devices| || StatusOf(s.vnodes[ev.vnode].replicas, d).None? then Fault
      else
        var unit := Reply(ev.vnode, StatusOf(s.vnodes[ev.vnode].replicas, d).value, Some(ev.dest));
        Ok((s, Answering(h, unit).(at := Sending)))
    case Merging => if h.reports == [] then Ok((s, h.(at := Closing))) else ReportSection(s, h)
    case Owing(src, ev) =>
      if src >= |s.devices| then Fault
      else Ok((PushPending(s, src, ev), Answering(h, Reply(ev.vnode, WaitSync, None)).(at := Merging)))
    case Closing =>
      if h.todo == [] then Ok((s, h.(at := Over)))
      else
        var v := h.todo[0];
        if v >= |s.vnodes| || StatusOf(s.vnodes[v].replicas, d).None? then Fault
        else
          var st, h' := StatusOf(s.vnodes[v].replicas, d).value, h.(todo := h.todo[1..]);
          Ok((s, if IsSource(st) then h' else Answering(h', Reply(v, st, None))))
    case Ending(ev) =>
      if ev.vnode >= |s.vnodes| then Fault
      else
        var rs := s.vnodes[ev.vnode].replicas;
        if Find(rs, d) == |rs| || Find(rs, ev.dest) == |rs| then Fault
        else Ok((EndSync(e, s, d, ev), h.(at := Over)))
    case Over => Ok((s, h))
  }

  function Begun(s: State, d: nat, reports: seq<Report>): Handler
    requires d < |s.devices|
  {
    Handler(d, reports, s.devices[d].listed, [], Sending)
  }

  /** Device `d` says that its sync of vnode `id` is done: the section that takes the event and finds the replicas. */
  function TakeSync(s: State, d: nat, id: int): Outcome<(State, Handler)>
    requires d < |s.devices|
  {
    if id < 0 || id >= |s.vnodes| then Fault
    else
      var rs, dev := s.vnodes[id].replicas, s.devices[d];
      var i := EventIndex(dev.syncing, id);
      if i == |dev.syncing| || Find(rs, dev.syncing[i].dest) == |rs| || Find(rs, d) == |rs| then Fault
      else
        var s' := s.(devices := s.devices[d := dev.(syncing := RemoveAt(dev.syncing, i))]);
        Ok((s', Handler(d, [], [], [], Ending(dev.syncing[i]))))
  }

  /** The two sections in a row are the step. */
  lemma SyncInTwo(e: Edition, s: State, d: nat, id: int)
    requires d < |s.devices|
    ensures SyncDownOne(e, s, d, id).Ok? <==> TakeSync(s, d, id).Ok?
    ensures TakeSync(s, d, id).Ok? ==>
              var (s', h) := TakeSync(s, d, id).value;
              && h.dev == d && |s'.devices| == |s.devices|
              && Section(e, s', h) == Ok((SyncDownOne(e, s, d, id).value, h.(at := Over)))
  {
  }

  /** What can happen next. A device says of one vnode at a time that its sync is done: each takes the lock anew. */
  datatype Act =
    | Begins(dev: nat, reports: seq<Report>)
    | Goes(handler: nat)
    | Syncs(dev: nat, id: int)
    | Joins(zone: int, weight: int, rnd: nat -> nat)
    | Asks(vnode: nat, write: bool)

  function Next(e: Edition, y: System, a: Act): Outcome<System> {
    match a
    case Begins(d, reports) =>
      Ok(if d >= |y.s.devices| then y else y.(handlers := y.handlers + [Begun(y.s, d, reports)]))
    case Goes(i) =>
      if i >= |y.handlers| then Ok(y)
      else if y.handlers[i].dev >= |y.s.devices| then Fault
      else
        var (s', h') :- Section(e, y.s, y.handlers[i]);
        Ok(System(s', y.handlers[i := h']))
    case Syncs(d, id) =>
      if d >= |y.s.devices| then Ok(y)
      else
        var (s', h) :- TakeSync(y.s, d, id);
        Ok(System(s', y.handlers + [h]))
    case Joins(zone, weight, rnd) =>
      var s' :- Join(e, y.s, zone, weight, rnd);
      Ok(y.(s := s'))
    case Asks(v, write) =>
      var s' :- Handle(e, y.s, if write then WriteMsg(v) else ReadMsg(v));
      Ok(y.(s := s'))
  }

  function Course(e: Edition, y: System, acts: seq<Act>): Outcome<System>
    decreases |acts|
  {
    if acts == [] then Ok(y)
    else
      var y' :- Next(e, y, acts[0]);
      Course(e, y', acts[1..])
  }

  // ---------------------------------------------------------------------------------------------
  // A handler left alone
  // ---------------------------------------------------------------------------------------------

  /** How far a handler is from its end. */
  function Phase(h: Handler): nat {
    if h.at.Over? then 0 else if h.at.Closing? || h.at.Ending? then 1 else if h.at.Merging? || h.at.Owing? then 2 else 3
  }

  function Left(s: State, h: Handler): nat
    requires h.dev < |s.devices|
  {
    match h.at
    case Sending => 3 * |s.devices[h.dev].pending|
    case Popped(_) => 3 * |s.devices[h.dev].pending| + 2
    case Noting(_) => 3 * |s.devices[h.dev].pending| + 1
    case Merging => 2 * |h.reports|
    case Owing(_, _) => 2 * |h.reports| + 1
    case Closing => |h.todo|
    case Ending(_) => 0
    case Over => 0
  }

  lemma SectionEnds(e: Edition, s: State, h: Handler)
    requires h.dev < |s.devices| && !h.at.Over? && Section(e, s, h).Ok?
    ensures var (s', h') := Section(e, s, h).value;
            && h'.dev == h.dev && |s'.devices| == |s.devices| && |s'.vnodes| == |s.vnodes|
            && (Phase(h') < Phase(h) || (Phase(h') == Phase(h) && Left(s', h') < Left(s, h)))
  {
    if h.at.Merging? && h.reports != [] {
      ReportSectionEnds(s, h);
    } else if h.at.Ending? {
      EndSyncSizes(e, s, h.dev, h.at.event);
    }
  }

  lemma ReportSectionEnds(s: State, h: Handler)
    requires h.at.Merging? && h.reports != [] && ReportSection(s, h).Ok?
    ensures var (s', h') := ReportSection(s, h).value;
            && h'.dev == h.dev && |s'.devices| == |s.devices| && |s'.vnodes| == |s.vnodes|
            && h'.reports == h.reports[1..] && (h'.at.Merging? || h'.at.Owing?)
  {
  }

  /** Section after section, with nothing in between. */
  function Alone(e: Edition, s: State, h: Handler): Outcome<(State, seq<Reply>)>
    requires h.dev < |s.devices|
    decreases Phase(h), Left(s, h)
  {
    if h.at.Over? then Ok((s, h.reply))
    else
      var r := Section(e, s, h);
      if r.Fault? then Fault
      else
        SectionEnds(e, s, h);
        Alone(e, r.value.0, r.value.1)
  }

  /** What a handler of `d` ends in from here, in the terms of Protocol. */
  function Closed(r: Outcome<Beat>, d: nat): Outcome<(State, seq<Reply>)> {
    if r.Fault? then Fault
    else
      var reply :- Unreported(r.value.s, d, r.value.todo, r.value.reply);
      Ok((r.value.s, reply))
  }

  lemma {:induction false} AloneClosing(e: Edition, s: State, h: Handler)
    requires h.dev < |s.devices| && h.at.Closing?
    ensures Alone(e, s, h) == Closed(Ok(Beat(s, h.todo, h.reply)), h.dev)
    decreases |h.todo|
  {
    var r := Section(e, s, h);
    if r.Ok? {
      var (s', h') := r.value;
      assert Alone(e, s, h) == Alone(e, s', h');
      if h.todo != [] {
        AloneClosing(e, s', h');
      }
    }
  }

  lemma AloneGoes(e: Edition, s: State, h: Handler)
    requires h.dev < |s.devices| && !h.at.Over? && Section(e, s, h).Ok?
    ensures var (s', h') := Section(e, s, h).value; h'.dev < |s'.devices| && Alone(e, s, h) == Alone(e, s', h')
  {
    SectionEnds(e, s, h);
  }

  /** The second section of a report that lags behind. */
  lemma OwingAlone(e: Edition, s: State, h: Handler)
    requires h.dev < |s.devices| && h.at.Owing?
    ensures Alone(e, s, h) ==
            if h.at.src >= |s.devices| then Fault
            else
              Alone(e, PushPending(s, h.at.src, h.at.event),
                    Answering(h, Reply(h.at.event.vnode, WaitSync, None)).(at := Merging))
  {
    if h.at.src < |s.devices| {
      AloneGoes(e, s, h);
    }
  }

  /** What the section of a report has in common with the step of it. */
  lemma ReportSectionIs(s: State, h: Handler)
    requires h.at.Merging? && h.reports != []
    ensures var (r, r') := (ReportOne(Beat(s, h.todo, h.reply), h.dev, h.reports[0]), ReportSection(s, h));
            if r'.Fault? then r == Fault
            else
              var (s', h') := r'.value;
              && h'.dev == h.dev && h'.reports == h.reports[1..] && |s'.devices| == |s.devices|
              && match h'.at
                 case Merging => r == Ok(Beat(s', h'.todo, h'.reply))
                 case Owing(src, ev) =>
                   r == if src >= |s.devices| then Fault
                        else Ok(Beat(PushPending(s', src, ev), h'.todo, h'.reply + [Reply(ev.vnode, WaitSync, None)]))
                 case _ => false
  {
  }

  /** One report, in one section or in two. */
  lemma ReportedAlone(e: Edition, s: State, h: Handler)
    requires h.dev < |s.devices| && h.at.Merging? && h.reports != []
    ensures var r := ReportOne(Beat(s, h.todo, h.reply), h.dev, h.reports[0]);
            if r.Fault? then Alone(e, s, h) == Fault
            else
              && |r.value.s.devices| == |s.devices|
              && Alone(e, s, h) ==
                 Alone(e, r.value.s, Handler(h.dev, h.reports[1..], r.value.todo, r.value.reply, Merging))
  {
    ReportSectionIs(s, h);
    var r := ReportSection(s, h);
    assert Section(e, s, h) == r;
    if r.Ok? {
      var (s', h') := r.value;
      assert Alone(e, s, h) == Alone(e, s', h');
      if h'.at.Owing? {
        OwingAlone(e, s', h');
      }
    }
  }

  lemma {:induction false} AloneMerging(e: Edition, s: State, h: Handler)
    requires h.dev < |s.devices| && h.at.Merging?
    ensures Alone(e, s, h) == Closed(ReportAll(Beat(s, h.todo, h.reply), h.dev, h.reports), h.dev)
    decreases |h.reports|
  {
    if h.reports == [] {
      AloneClosing(e, s, h.(at := Closing));
      assert Alone(e, s, h) == Alone(e, s, h.(at := Closing));
    } else {
      ReportedAlone(e, s, h);
      var r := ReportOne(Beat(s, h.todo, h.reply), h.dev, h.reports[0]);
      if r.Ok? {
        AloneMerging(e, r.value.s, Handler(h.dev, h.reports[1..], r.value.todo, r.value.reply, Merging));
      }
    }
  }

  /** One event, in three sections. */
  lemma SentAlone(e: Edition, s: State, h: Handler)
    requires h.dev < |s.devices| && h.at.Sending? && s.devices[h.dev].pending != []
    ensures var r := DrainOne(s, h.dev);
            if r.Fault? then Alone(e, s, h) == Fault
            else
              && |r.value.0.devices| == |s.devices|
              && |r.value.0.devices[h.dev].pending| < |s.devices[h.dev].pending|
              && Alone(e, s, h) == Alone(e, r.value.0, Answering(h, r.value.1))
  {
    var (s1, h1) := Section(e, s, h).value;
    var (s2, h2) := Section(e, s1, h1).value;
    assert Alone(e, s, h) == Alone(e, s1, h1) == Alone(e, s2, h2);
    var dev := s.devices[h.dev];
    assert s2 == SetDevice(s, h.dev, dev.(pending := dev.pending[1..], syncing := dev.syncing + [dev.pending[0]]));
  }

  lemma {:induction false} AloneSending(e: Edition, s: State, h: Handler)
    requires h.dev < |s.devices| && h.at.Sending?
    ensures var r := Drain(s, h.dev, h.reply);
            Alone(e, s, h) ==
            if r.Fault? then Fault
            else Closed(ReportAll(Beat(r.value.0, h.todo, r.value.1), h.dev, h.reports), h.dev)
    decreases |s.devices[h.dev].pending|
  {
    if s.devices[h.dev].pending == [] {
      AloneMerging(e, s, h.(at := Merging));
      assert Alone(e, s, h) == Alone(e, s, h.(at := Merging));
    } else {
      SentAlone(e, s, h);
      var r := DrainOne(s, h.dev);
      if r.Ok? {
        AloneSending(e, r.value.0, Answering(h, r.value.1));
      }
    }
  }

  /** A handler that is left alone is the heartbeat in one step. */
  lemma UninterruptedIsAtomic(e: Edition, s: State, d: nat, reports: seq<Report>)
    requires d < |s.devices|
    ensures Alone(e, s, Begun(s, d, reports)) == Heartbeat(s, d, reports)
  {
    AloneSending(e, s, Begun(s, d, reports));
  }

  // ---------------------------------------------------------------------------------------------
  // What is in the handlers' hands
  // ---------------------------------------------------------------------------------------------

  /** The event that device `d` owes and this handler holds. */
  function Held(h: Handler, d: nat): seq<Event> {
    match h.at
    case Popped(ev) => if h.dev == d then [ev] else []
    case Owing(src, ev) => if src == d then [ev] else []
    case Ending(ev) => if h.dev == d then [ev] else []
    case _ => []
  }

  function InHands(hs: seq<Handler>, d: nat): seq<Event> {
    if hs == [] then [] else Held(hs[0], d) + InHands(hs[1..], d)
  }

  /** The state with all that is in hands put back into the pending lists. */
  function Whole(s: State, hs: seq<Handler>): (x: State)
    ensures |x.devices| == |s.devices| && x.vnodes == s.vnodes && x.accepted == s.accepted
            && x.replicaCount == s.replicaCount
    ensures forall d: nat :: d < |s.devices| ==>
              x.devices[d] == s.devices[d].(pending := InHands(hs, d) + s.devices[d].pending)
  {
    s.(devices := seq(|s.devices|, d requires 0 <= d < |s.devices| =>
                                     s.devices[d].(pending := InHands(hs, d) + s.devices[d].pending)))
  }

  lemma WholeOwed(s: State, hs: seq<Handler>, d: nat)
    requires d < |s.devices|
    ensures Owed(Whole(s, hs).devices[d]) == multiset(InHands(hs, d)) + Owed(s.devices[d])
  {
  }

  /** Handing over: what one handler gives and takes, all of them together give and take. */
  ghost predicate Exchanged(all: multiset<Event>, all': multiset<Event>, held: seq<Event>, held': seq<Event>) {
    multiset(held) <= all && all' == all - multiset(held) + multiset(held')
  }

  lemma ExchangedMore(a: seq<Event>, all: multiset<Event>, all': multiset<Event>, held: seq<Event>, held': seq<Event>)
    requires Exchanged(all, all', held, held')
    ensures Exchanged(multiset(a) + all, multiset(a) + all', held, held')
  {
  }

  lemma ExchangedFirst(rest: seq<Event>, held: seq<Event>, held': seq<Event>)
    ensures Exchanged(multiset(held + rest), multiset(held' + rest), held, held')
  {
  }

  lemma {:induction false} HandsAfter(hs: seq<Handler>, i: nat, h: Handler, d: nat)
    requires i < |hs|
    ensures Exchanged(multiset(InHands(hs, d)), multiset(InHands(hs[i := h], d)), Held(hs[i], d), Held(h, d))
  {
    if i == 0 {
      assert hs[i := h][1..] == hs[1..];
      ExchangedFirst(InHands(hs[1..], d), Held(hs[0], d), Held(h, d));
    } else {
      HandsAfter(hs[1..], i - 1, h, d);
      assert hs[i := h][1..] == hs[1..][i - 1 := h];
      ExchangedMore(Held(hs[0], d), multiset(InHands(hs[1..], d)), multiset(InHands(hs[1..][i - 1 := h], d)),
                    Held(hs[i], d), Held(h, d));
    }
  }

  lemma HandsFirst(h: Handler, hs: seq<Handler>, d: nat)
    ensures InHands([h] + hs, d) == Held(h, d) + InHands(hs, d)
  {
    assert ([h] + hs)[1..] == hs;
  }

  lemma {:induction false} HandsAppend(hs: seq<Handler>, h: Handler, d: nat)
    ensures InHands(hs + [h], d) == InHands(hs, d) + Held(h, d)
  {
    if hs == [] {
      HandsFirst(h, [], d);
      assert [] + [h] == [h] + [];
    } else {
      HandsAppend(hs[1..], h, d);
      HandsFirst(hs[0], hs[1..] + [h], d);
      assert hs + [h] == [hs[0]] + (hs[1..] + [h]);
    }
  }

  /** A handler is of a device that is there, and so are the devices of the event it is at. */
  ghost predicate Known(s: State, h: Handler) {
    && h.dev < |s.devices|
    && (h.at.Owing? ==> h.at.src < |s.devices|)
    && (h.at.Noting? ==> h.at.event.vnode < |s.vnodes| && h.at.event.dest < |s.devices|)
  }

  lemma {:induction false} HandsKnown(s: State, hs: seq<Handler>, d: nat)
    requires d >= |s.devices| && forall h :: h in hs ==> Known(s, h)
    ensures InHands(hs, d) == []
  {
    if hs != [] {
      assert hs[0] in hs;
      HandsKnown(s, hs[1..], d);
    }
  }

  ghost predicate SysInv(e: Edition, y: System) {
    && Inv(e, Whole(y.s, y.handlers)) && Counted(y.s)
    && (forall h :: h in y.handlers ==> Known(y.s, h))
  }

  // ---------------------------------------------------------------------------------------------
  // Sections keep the invariant
  // ---------------------------------------------------------------------------------------------

  /** Apart from what it owes, each device is the same. */
  ghost predicate SameLists(s: State, s': State) {
    && |s'.devices| == |s.devices|
    && forall d: nat :: d < |s.devices| ==>
         s'.devices[d].zone == s.devices[d].zone && s'.devices[d].listed == s.devices[d].listed
  }

  /** The same vnodes, and in the lists and the hands together the same events. */
  lemma Rewhole(e: Edition, x: State, s': State, hs': seq<Handler>)
    requires Inv(e, x) && s'.vnodes == x.vnodes && s'.accepted == x.accepted && SameLists(x, s')
    requires forall d: nat :: d < |x.devices| ==> Owed(x.devices[d]) == multiset(InHands(hs', d)) + Owed(s'.devices[d])
    ensures Inv(e, Whole(s', hs'))
  {
    forall d: nat | d < |x.devices|
      ensures Owed(Whole(s', hs').devices[d]) == Owed(x.devices[d])
    {
      WholeOwed(s', hs', d);
    }
    Reordered(e, x, Whole(s', hs'));
  }

  lemma KnownStays(s: State, s': State, hs: seq<Handler>, i: nat, h': Handler)
    requires i < |hs| && |s'.devices| == |s.devices| && |s'.vnodes| == |s.vnodes|
    requires Known(s', h') && forall h :: h in hs ==> Known(s, h)
    ensures forall h :: h in hs[i := h'] ==> Known(s', h)
  {
    forall h | h in hs[i := h']
      ensures Known(s', h)
    {
      var k :| 0 <= k < |hs| && hs[i := h'][k] == h;
      assert k != i ==> hs[k] in hs;
    }
  }

  /** What is missing in the lists after the section is in hands, and the other way round. */
  ghost predicate Balanced(s: State, s': State, h: Handler, h': Handler) {
    && SameLists(s, s')
    && forall d: nat :: d < |s.devices| ==>
         multiset(Held(h', d)) + Owed(s'.devices[d]) == multiset(Held(h, d)) + Owed(s.devices[d])
  }

  lemma SameSum(all: multiset<Event>, all': multiset<Event>, held: seq<Event>, held': seq<Event>,
                owed: multiset<Event>, owed': multiset<Event>)
    requires Exchanged(all, all', held, held') && multiset(held') + owed' == multiset(held) + owed
    ensures all' + owed' == all + owed
  {
    forall ev
      ensures (all' + owed')[ev] == (all + owed)[ev]
    {
      assert (multiset(held') + owed')[ev] == (multiset(held) + owed)[ev];
    }
  }

  lemma TakesOver(s: State, hs: seq<Handler>, i: nat, s': State, h': Handler, d: nat)
    requires i < |hs| && d < |s.devices| && Balanced(s, s', hs[i], h')
    ensures Owed(Whole(s, hs).devices[d]) == multiset(InHands(hs[i := h'], d)) + Owed(s'.devices[d])
  {
    WholeOwed(s, hs, d);
    HandsAfter(hs, i, h', d);
    SameSum(multiset(InHands(hs, d)), multiset(InHands(hs[i := h'], d)), Held(hs[i], d), Held(h', d),
            Owed(s.devices[d]), Owed(s'.devices[d]));
  }

  lemma HandOver(e: Edition, y: System, i: nat, s': State, h': Handler)
    requires SysInv(e, y) && i < |y.handlers| && Known(s', h')
    requires s'.vnodes == y.s.vnodes && s'.accepted == y.s.accepted && s'.replicaCount == y.s.replicaCount
    requires Balanced(y.s, s', y.handlers[i], h')
    ensures SysInv(e, System(s', y.handlers[i := h']))
  {
    var hs, x := y.handlers, Whole(y.s, y.handlers);
    forall d: nat | d < |x.devices|
      ensures Owed(x.devices[d]) == multiset(InHands(hs[i := h'], d)) + Owed(s'.devices[d])
    {
      TakesOver(y.s, hs, i, s', h', d);
    }
    Rewhole(e, x, s', hs[i := h']);
    KnownStays(y.s, s', hs, i, h');
  }

  lemma PopBalances(e: Edition, s: State, h: Handler)
    requires h.dev < |s.devices| && h.at.Sending? && s.devices[h.dev].pending != []
    ensures Balanced(s, Section(e, s, h).value.0, h, Section(e, s, h).value.1)
  {
    var dev := s.devices[h.dev];
    assert dev.pending == [dev.pending[0]] + dev.pending[1..];
    assert multiset(dev.pending) == multiset([dev.pending[0]]) + multiset(dev.pending[1..]);
  }

  lemma PutBalances(e: Edition, s: State, h: Handler)
    requires h.dev < |s.devices| && h.at.Popped?
    ensures Balanced(s, Section(e, s, h).value.0, h, Section(e, s, h).value.1)
  {
    var dev, ev := s.devices[h.dev], h.at.event;
    assert multiset(dev.syncing + [ev]) == multiset(dev.syncing) + multiset([ev]);
  }

  lemma OweBalances(e: Edition, s: State, h: Handler)
    requires h.dev < |s.devices| && h.at.Owing? && h.at.src < |s.devices|
    ensures Balanced(s, Section(e, s, h).value.0, h, Section(e, s, h).value.1)
  {
    var (s', h') := Section(e, s, h).value;
    PushedPending(s, h.at.src, h.at.event);
    forall d: nat | d < |s.devices|
      ensures multiset(Held(h', d)) + Owed(s'.devices[d]) == multiset(Held(h, d)) + Owed(s.devices[d])
    {
      assert Held(h', d) == [];
    }
  }

  lemma QuietBalances(s: State, h: Handler, h': Handler)
    requires (forall d :: Held(h, d) == []) && (forall d :: Held(h', d) == [])
    ensures Balanced(s, s, h, h')
  {
  }

  /** The vnodes of the step in one piece, and the events it adds in lists or hands. */
  ghost predicate Adds(x: State, x': State, s: State, s': State, h: Handler, h': Handler) {
    && SameLists(x, x') && SameLists(x', s') && s'.devices == s.devices
    && forall d: nat :: d < |x.devices| ==>
        Held(h, d) == [] && Owed(x'.devices[d]) == Owed(x.devices[d]) + multiset(Held(h', d))
  }

  lemma TakesOn(s: State, hs: seq<Handler>, i: nat, x': State, s': State, h': Handler, d: nat)
    requires i < |hs| && d < |s.devices| && Adds(Whole(s, hs), x', s, s', hs[i], h')
    ensures Owed(x'.devices[d]) == multiset(InHands(hs[i := h'], d)) + Owed(s'.devices[d])
  {
    WholeOwed(s, hs, d);
    HandsAfter(hs, i, h', d);
  }

  /** A section that does to the vnodes what a whole step does, and has in hands what that would list. */
  lemma StepInParts(e: Edition, y: System, i: nat, x': State, s': State, h': Handler)
    requires SysInv(e, y) && i < |y.handlers| && Known(s', h') && Inv(e, x') && SamePlaces(Whole(y.s, y.handlers), x')
    requires s'.vnodes == x'.vnodes && s'.accepted == x'.accepted && s'.replicaCount == y.s.replicaCount
    requires Adds(Whole(y.s, y.handlers), x', y.s, s', y.handlers[i], h')
    ensures SysInv(e, System(s', y.handlers[i := h']))
  {
    var hs, x := y.handlers, Whole(y.s, y.handlers);
    SamePlacesCounts(x, x');
    forall d: nat | d < |x'.devices|
      ensures Owed(x'.devices[d]) == multiset(InHands(hs[i := h'], d)) + Owed(s'.devices[d])
    {
      TakesOn(y.s, hs, i, x', s', h', d);
    }
    Rewhole(e, x', s', hs[i := h']);
    KnownStays(y.s, s', hs, i, h');
  }

  /** A report that reaches the vnode's version. */
  lemma AcceptSection(e: Edition, y: System, i: nat, v: nat, version: int, h': Handler)
    requires SysInv(e, y) && i < |y.handlers| && y.handlers[i].at.Merging? && h'.at.Merging?
             && h'.dev == y.handlers[i].dev
    requires v < |y.s.vnodes| && StatusOf(y.s.vnodes[v].replicas, h'.dev).Some? && version >= y.s.vnodes[v].version
    requires Neutral(StatusOf(y.s.vnodes[v].replicas, h'.dev))
    ensures SysInv(e, System(Accept(y.s, v, h'.dev, version).0, y.handlers[i := h']))
  {
    var x, d := Whole(y.s, y.handlers), h'.dev;
    AcceptKeeps(e, x, v, d, version);
    AcceptPlaces(x, v, d, version);
    assert y.handlers[i] in y.handlers;
    StepInParts(e, y, i, Accept(x, v, d, version).0, Accept(y.s, v, d, version).0, h');
  }

  /** What planning a sync changes in the lists. */
  lemma LagOwes(x: State, v: nat, d: nat)
    requires v < |x.vnodes| && StatusOf(x.vnodes[v].replicas, d).Some? && Lag(x, v, d).Ok?
    ensures var (x', pos) := (Lag(x, v, d).value.0, ReadReplica(x.vnodes[v]).1);
            && SameLists(x, x') && x'.accepted == x.accepted && x'.replicaCount == x.replicaCount
            && (pos.None? ==> x'.devices == x.devices)
            && (pos.Some? ==>
                  var src := x.vnodes[v].replicas[pos.value].dev;
                  && src < |x.devices|
                  && forall c: nat :: c < |x.devices| ==>
                       Owed(x'.devices[c]) == Owed(x.devices[c]) + if c == src then multiset{Event(v, d)}
                         else multiset{})
  {
    var pos := ReadReplica(x.vnodes[v]).1;
    if pos.Some? {
      var src := x.vnodes[v].replicas[pos.value].dev;
      PushedPending(x, src, Event(v, d));
    }
  }

  lemma PlanIs(s: State, h: Handler, v: nat)
    requires v < |s.vnodes| && StatusOf(s.vnodes[v].replicas, h.dev).Some?
    ensures var ((s', h'), pos) := (PlanSection(s, h, v), ReadReplica(s.vnodes[v]).1);
            && s'.devices == s.devices && s'.accepted == s.accepted && s'.replicaCount == s.replicaCount
              && h'.dev == h.dev
            && (pos.None? ==> h'.at == h.at)
            && (pos.Some? ==> h'.at == Owing(s.vnodes[v].replicas[pos.value].dev, Event(v, h.dev)))
    ensures forall x: State :: x.vnodes == s.vnodes && Lag(x, v, h.dev).Ok? ==>
                                 Lag(x, v, h.dev).value.0.vnodes == PlanSection(s, h, v).0.vnodes
  {
  }

  /** A plan with a source: the event is in hands. */
  lemma HeldForSource(x: State, x': State, s: State, s': State, h: Handler, h': Handler, src: nat, ev: Event)
    requires SameLists(x, x') && SameLists(x', s') && s'.devices == s.devices && h.at.Merging?
             && h'.at == Owing(src, ev)
    requires forall d: nat :: d < |x.devices| ==>
               Owed(x'.devices[d]) == Owed(x.devices[d]) + if d == src then multiset{ev} else multiset{}
    ensures Adds(x, x', s, s', h, h')
  {
    assert multiset([ev]) == multiset{ev};
  }

  lemma PlanAdds(s: State, hs: seq<Handler>, i: nat, v: nat, h1: Handler)
    requires i < |hs| && hs[i].at.Merging? && h1.at.Merging? && h1.dev == hs[i].dev
    requires v < |s.vnodes| && StatusOf(s.vnodes[v].replicas, h1.dev).Some? && Lag(Whole(s, hs), v, h1.dev).Ok?
    ensures var (s', h') := PlanSection(s, h1, v); var x' := Lag(Whole(s, hs), v, h1.dev).value.0;
            Adds(Whole(s, hs), x', s, s', hs[i], h') && (h'.at.Owing? ==> h'.at.src < |s.devices|)
  {
    var x, d := Whole(s, hs), h1.dev;
    var (s', h') := PlanSection(s, h1, v);
    var x', pos := Lag(x, v, d).value.0, ReadReplica(s.vnodes[v]).1;
    PlanIs(s, h1, v);
    LagOwes(x, v, d);
    if pos.Some? {
      HeldForSource(x, x', s, s', hs[i], h', s.vnodes[v].replicas[pos.value].dev, Event(v, d));
    }
  }

  /** A report that lags behind: what is planned but not listed is in hands. */
  lemma PlanSectionKeeps(e: Edition, y: System, i: nat, v: nat, h1: Handler)
    requires SysInv(e, y) && i < |y.handlers| && y.handlers[i].at.Merging? && h1.at.Merging?
             && h1.dev == y.handlers[i].dev
    requires v < |y.s.vnodes| && StatusOf(y.s.vnodes[v].replicas, h1.dev).Some?
    requires Neutral(StatusOf(y.s.vnodes[v].replicas, h1.dev))
    ensures var (s', h') := PlanSection(y.s, h1, v); SysInv(e, System(s', y.handlers[i := h']))
  {
    var x, d := Whole(y.s, y.handlers), h1.dev;
    LagKeeps(e, x, v, d);
    LagPlaces(x, v, d);
    LagOwes(x, v, d);
    PlanIs(y.s, h1, v);
    PlanAdds(y.s, y.handlers, i, v, h1);
    assert y.handlers[i] in y.handlers;
    var (s', h') := PlanSection(y.s, h1, v);
    StepInParts(e, y, i, Lag(x, v, d).value.0, s', h');
  }

  lemma ReportKeeps(e: Edition, y: System, i: nat)
    requires SysInv(e, y) && i < |y.handlers| && y.handlers[i].at.Merging? && y.handlers[i].reports != []
    ensures var r := ReportSection(y.s, y.handlers[i]);
            r.Ok? ==> SysInv(e, System(r.value.0, y.handlers[i := r.value.1]))
  {
    var h := y.handlers[i];
    var r, j := h.reports[0], IndexOf(h.todo, h.reports[0].id);
    var h1 := h.(reports := h.reports[1..]);
    assert h in y.handlers;
    if j < |h.todo| {
      var v := h.todo[j];
      h1 := h1.(todo := RemoveAt(h.todo, j));
      if v < |y.s.vnodes| && StatusOf(y.s.vnodes[v].replicas, h.dev).Some? {
        var st := StatusOf(y.s.vnodes[v].replicas, h.dev).value;
        if IsSource(st) || st.WaitSync? {
          GoneOn(e, y, i, ReportSection(y.s, h).value.1);
        } else if r.version >= y.s.vnodes[v].version {
          AcceptSection(e, y, i, v, r.version, ReportSection(y.s, h).value.1);
        } else {
          PlanSectionKeeps(e, y, i, v, h1);
        }
      }
    } else {
      GoneOn(e, y, i, ReportSection(y.s, h).value.1);
    }
  }

  /** What a handler holds is in hands, and so is owed. */
  lemma HeldIsSound(e: Edition, y: System, i: nat, d: nat, ev: Event)
    requires SysInv(e, y) && i < |y.handlers| && d < |y.s.devices| && ev in Held(y.handlers[i], d)
    ensures ev.vnode < |y.s.vnodes| && ev.dest < |y.s.devices| && SourceOn(y.s.vnodes[ev.vnode].replicas, d)
  {
    HandsAfter(y.handlers, i, y.handlers[i], d);
    WholeOwed(y.s, y.handlers, d);
    assert ev in multiset(InHands(y.handlers, d));
    OwedIsSound(e, Whole(y.s, y.handlers), d, ev);
  }

  /** A section that moves an event between a list and hands. */
  lemma EventSectionKeeps(e: Edition, y: System, i: nat)
    requires SysInv(e, y) && i < |y.handlers|
    requires var h := y.handlers[i];
             h.dev < |y.s.devices| && (h.at.Popped? || h.at.Owing?
                                       || (h.at.Sending? && y.s.devices[h.dev].pending != []))
    ensures var r := Section(e, y.s, y.handlers[i]); r.Ok? ==> SysInv(e, System(r.value.0, y.handlers[i := r.value.1]))
  {
    var h := y.handlers[i];
    assert h in y.handlers;
    if h.at.Sending? {
      PopBalances(e, y.s, h);
    } else if h.at.Popped? {
      PutBalances(e, y.s, h);
      HeldIsSound(e, y, i, h.dev, h.at.event);
    } else {
      OweBalances(e, y.s, h);
    }
    var (s', h') := Section(e, y.s, h).value;
    HandOver(e, y, i, s', h');
  }

  /** The handler has gone on to `h'`, and nothing else happened. */
  lemma GoneOn(e: Edition, y: System, i: nat, h': Handler)
    requires SysInv(e, y) && i < |y.handlers| && h'.dev == y.handlers[i].dev
    requires !y.handlers[i].at.Popped? && !y.handlers[i].at.Owing? && !y.handlers[i].at.Ending?
    requires !h'.at.Popped? && !h'.at.Owing? && !h'.at.Noting? && !h'.at.Ending?
    ensures SysInv(e, System(y.s, y.handlers[i := h']))
  {
    assert y.handlers[i] in y.handlers;
    QuietBalances(y.s, y.handlers[i], h');
    HandOver(e, y, i, y.s, h');
  }

  /** A section that only looks. */
  ghost predicate Quiet(s: State, h: Handler) {
    && h.dev < |s.devices| && !h.at.Popped? && !h.at.Owing? && !h.at.Ending?
    && (h.at.Sending? ==> s.devices[h.dev].pending == [])
    && (h.at.Merging? ==> h.reports == [])
  }

  lemma QuietSection(e: Edition, s: State, h: Handler)
    requires Quiet(s, h) && Section(e, s, h).Ok?
    ensures var (s', h') := Section(e, s, h).value;
            && s' == s && h'.dev == h.dev
            && !h'.at.Popped? && !h'.at.Owing? && !h'.at.Noting? && !h'.at.Ending?
  {
  }

  lemma QuietSectionKeeps(e: Edition, y: System, i: nat)
    requires SysInv(e, y) && i < |y.handlers| && Quiet(y.s, y.handlers[i])
    ensures var r := Section(e, y.s, y.handlers[i]); r.Ok? ==> SysInv(e, System(r.value.0, y.handlers[i := r.value.1]))
  {
    var r := Section(e, y.s, y.handlers[i]);
    if r.Ok? {
      QuietSection(e, y.s, y.handlers[i]);
      GoneOn(e, y, i, r.value.1);
    }
  }

  lemma {:induction false} HandsSame(hs: seq<Handler>, i: nat, h: Handler, d: nat)
    requires i < |hs| && Held(h, d) == Held(hs[i], d)
    ensures InHands(hs[i := h], d) == InHands(hs, d)
  {
    if i == 0 {
      assert hs[i := h][1..] == hs[1..];
    } else {
      HandsSame(hs[1..], i - 1, h, d);
      assert hs[i := h][1..] == hs[1..][i - 1 := h];
    }
  }

  /** What ending a sync does to the lists. */
  lemma EndSyncIs(e: Edition, s: State, d: nat, ev: Event)
    requires d < |s.devices| && ev.vnode < |s.vnodes|
    requires var rs := s.vnodes[ev.vnode].replicas; Find(rs, d) < |rs| && Find(rs, ev.dest) < |rs|
    requires var rs := s.vnodes[ev.vnode].replicas; ev.dest == d ==> StatusOf(rs, d) != Some(MoveSrc)
    ensures var (s', rs) := (EndSync(e, s, d, ev), s.vnodes[ev.vnode].replicas);
            && Replaces(s, s', ev.vnode, Ended(rs, d, ev.dest))
            && s'.replicaCount == s.replicaCount
            && s'.devices ==
               if StatusOf(rs, d) == Some(MoveSrc) && e.erasesMoved then EraseListed(s, d, ev.vnode).devices
               else s.devices
  {
    var rs := s.vnodes[ev.vnode].replicas;
    var rs1 := SetStatus(rs, ev.dest, Active);
    assert rs1[Find(rs, d)].status.MoveSrc? <==> StatusOf(rs, d) == Some(MoveSrc);
  }

  lemma LetGo(all: multiset<Event>, all': multiset<Event>, held: seq<Event>, owed: multiset<Event>)
    requires Exchanged(all, all', held, [])
    ensures all + owed == all' + owed + multiset(held)
  {
  }

  /** Its event is owed no more. */
  lemma EndingOwes(s: State, s': State, hs: seq<Handler>, i: nat, c: nat)
    requires i < |hs| && hs[i].at.Ending? && c < |s.devices| == |s'.devices|
    requires Owed(s'.devices[c]) == Owed(s.devices[c])
    ensures Owed(Whole(s, hs).devices[c]) ==
            Owed(Whole(s', hs[i := hs[i].(at := Over)]).devices[c]) + multiset(Held(hs[i], c))
  {
    var h' := hs[i].(at := Over);
    HandsAfter(hs, i, h', c);
    WholeOwed(s, hs, c);
    WholeOwed(s', hs[i := h'], c);
    LetGo(multiset(InHands(hs, c)), multiset(InHands(hs[i := h'], c)), Held(hs[i], c), Owed(s.devices[c]));
  }

  lemma EndingOthers(s: State, s': State, hs: seq<Handler>, i: nat, c: nat)
    requires i < |hs| && hs[i].at.Ending? && c != hs[i].dev && c < |s.devices| == |s'.devices|
    requires s'.devices[c] == s.devices[c]
    ensures Whole(s', hs[i := hs[i].(at := Over)]).devices[c] == Whole(s, hs).devices[c]
  {
    HandsSame(hs, i, hs[i].(at := Over), c);
  }

  lemma EndingLists(e: Edition, s: State, s': State, d: nat, v: nat, gone: bool)
    requires d < |s.devices| && (gone ==> v in s.devices[d].listed)
    requires s'.devices == if gone && e.erasesMoved then EraseListed(s, d, v).devices else s.devices
    ensures |s'.devices| == |s.devices|
    ensures forall c: nat :: c < |s.devices| && c != d ==> s'.devices[c] == s.devices[c]
    ensures Owed(s'.devices[d]) == Owed(s.devices[d]) && s'.devices[d].zone == s.devices[d].zone
    ensures multiset(s'.devices[d].listed) ==
            if gone && e.erasesMoved then multiset(s.devices[d].listed) - multiset{v}
            else multiset(s.devices[d].listed)
  {
    if gone {
      Erased(s, d, v);
    }
  }

  lemma WholeLists(s: State, hs: seq<Handler>, d: nat)
    requires d < |s.devices|
    ensures Whole(s, hs).devices[d].listed == s.devices[d].listed && Whole(s, hs).devices[d].zone == s.devices[d].zone
  {
  }

  lemma EndsFrom(e: Edition, ds: seq<Device>, ds': seq<Device>, d: nat, ev: Event, gone: bool)
    requires Gains(ds', ds, d, ev) && forall c: nat :: c < |ds| && c != d ==> ds'[c] == ds[c]
    requires ds'[d].zone == ds[d].zone
    requires multiset(ds'[d].listed) ==
             if gone && e.erasesMoved then multiset(ds[d].listed) - multiset{ev.vnode} else multiset(ds[d].listed)
    ensures SyncDownSteps.Ends(e, ds, ds', d, ev, gone)
  {
  }

  /** The handler that ends a sync, with everything in hands put back. */
  lemma EndingEnds(e: Edition, s: State, s': State, hs: seq<Handler>, i: nat, gone: bool)
    requires i < |hs| && hs[i].at.Ending? && hs[i].dev < |s.devices|
    requires gone ==> hs[i].at.event.vnode in s.devices[hs[i].dev].listed
    requires s'.devices ==
             if gone && e.erasesMoved then EraseListed(s, hs[i].dev, hs[i].at.event.vnode).devices else s.devices
    ensures var hs' := hs[i := hs[i].(at := Over)];
            SyncDownSteps.Ends(e, Whole(s, hs).devices, Whole(s', hs').devices, hs[i].dev, hs[i].at.event, gone)
  {
    var d, ev, hs' := hs[i].dev, hs[i].at.event, hs[i := hs[i].(at := Over)];
    EndingLists(e, s, s', d, ev.vnode, gone);
    EndingGains(s, s', hs, i);
    WholeLists(s, hs, d);
    WholeLists(s', hs', d);
    forall c: nat | c < |s.devices| && c != d
      ensures Whole(s', hs').devices[c] == Whole(s, hs).devices[c]
    {
      EndingOthers(s, s', hs, i, c);
    }
    EndsFrom(e, Whole(s, hs).devices, Whole(s', hs').devices, d, ev, gone);
  }

  lemma EndingGains(s: State, s': State, hs: seq<Handler>, i: nat)
    requires i < |hs| && hs[i].at.Ending? && hs[i].dev < |s.devices| == |s'.devices|
    requires forall c: nat :: c < |s.devices| ==> Owed(s'.devices[c]) == Owed(s.devices[c])
    ensures var hs' := hs[i := hs[i].(at := Over)];
            Gains(Whole(s', hs').devices, Whole(s, hs).devices, hs[i].dev, hs[i].at.event)
  {
    var d, ev := hs[i].dev, hs[i].at.event;
    var ds, ds' := Whole(s, hs).devices, Whole(s', hs[i := hs[i].(at := Over)]).devices;
    forall c: nat | c < |s.devices|
      ensures Owed(ds[c]) == if c == d then Owed(ds'[c]) + multiset{ev} else Owed(ds'[c])
    {
      EndingOwes(s, s', hs, i, c);
      HeldEnding(hs[i], c, Owed(ds'[c]));
    }
  }

  lemma HeldEnding(h: Handler, c: nat, owed: multiset<Event>)
    requires h.at.Ending?
    ensures owed + multiset(Held(h, c)) == if c == h.dev then owed + multiset{h.at.event} else owed
  {
    assert multiset([h.at.event]) == multiset{h.at.event};
  }

  /** Where the event of a sync about to end leads, and that its replicas are there. */
  ghost predicate Endable(ds: seq<Device>, s: State, d: nat, ev: Event) {
    && d < |s.devices| && ev.vnode < |s.vnodes| && (d, ev.dest) in Links(ds, ev.vnode)
    && var rs := s.vnodes[ev.vnode].replicas;
       && Find(rs, d) < |rs| && Find(rs, ev.dest) < |rs| && Distinct(rs) && LiveOn(rs, ev.dest)
       && (ev.dest == d ==> StatusOf(rs, d) == Some(CopySrc)) && ev.vnode in s.devices[d].listed
  }

  lemma OwedIsEndable(e: Edition, x: State, s: State, d: nat, ev: Event)
    requires Inv(e, x) && x.vnodes == s.vnodes && d < |x.devices| == |s.devices| && ev in Owed(x.devices[d])
    requires x.devices[d].listed == s.devices[d].listed
    ensures Endable(x.devices, s, d, ev)
  {
    OwedIsSound(e, x, d, ev);
    var rs := x.vnodes[ev.vnode].replicas;
    assert VnodeInv(e, x.devices, rs, ev.vnode);
    LinkEnds(e, x.devices, rs, ev.vnode, d, ev.dest);
    assert multiset(x.devices[d].listed)[ev.vnode] > 0;
  }

  lemma EndingIsSound(e: Edition, y: System, i: nat)
    requires SysInv(e, y) && i < |y.handlers| && y.handlers[i].at.Ending?
    ensures Endable(Whole(y.s, y.handlers).devices, y.s, y.handlers[i].dev, y.handlers[i].at.event)
  {
    assert y.handlers[i] in y.handlers;
    var d, ev := y.handlers[i].dev, y.handlers[i].at.event;
    HandsAfter(y.handlers, i, y.handlers[i], d);
    WholeOwed(y.s, y.handlers, d);
    assert ev in multiset(InHands(y.handlers, d));
    OwedIsEndable(e, Whole(y.s, y.handlers), y.s, d, ev);
  }

  lemma ReplacedCounted(s: State, s': State, v: nat, rs': seq<Replica>)
    requires Counted(s) && Replaces(s, s', v, rs') && CountLive(rs') == CountLive(s.vnodes[v].replicas)
    requires |s'.devices| == |s.devices| && s'.replicaCount == s.replicaCount
    ensures Counted(s')
  {
    ReplacedCounts(s, s', v, rs');
    SameCounted(s, s');
  }

  lemma EndingCounts(e: Edition, s: State, d: nat, ev: Event)
    requires Counted(s) && d < |s.devices| && ev.vnode < |s.vnodes|
    requires var rs := s.vnodes[ev.vnode].replicas;
             Find(rs, d) < |rs| && Find(rs, ev.dest) < |rs| && LiveOn(rs, ev.dest)
             && (ev.dest == d ==> StatusOf(rs, d) != Some(MoveSrc))
    ensures Counted(EndSync(e, s, d, ev))
  {
    var rs := s.vnodes[ev.vnode].replicas;
    EndSyncIs(e, s, d, ev);
    EndedCount(rs, d, ev.dest);
    ReplacedCounted(s, EndSync(e, s, d, ev), ev.vnode, Ended(rs, d, ev.dest));
  }

  lemma WholeReplaces(s: State, s': State, hs: seq<Handler>, hs': seq<Handler>, v: nat, rs': seq<Replica>)
    requires Replaces(s, s', v, rs')
    ensures Replaces(Whole(s, hs), Whole(s', hs'), v, rs')
  {
  }

  lemma EndingInv(e: Edition, s: State, hs: seq<Handler>, i: nat, d: nat, ev: Event)
    requires i < |hs| && hs[i].at == Ending(ev) && hs[i].dev == d && Inv(e, Whole(s, hs))
    requires Endable(Whole(s, hs).devices, s, d, ev)
    ensures Inv(e, Whole(EndSync(e, s, d, ev), hs[i := hs[i].(at := Over)]))
  {
    var hs', rs, s' := hs[i := hs[i].(at := Over)], s.vnodes[ev.vnode].replicas, EndSync(e, s, d, ev);
    EndSyncIs(e, s, d, ev);
    EndingEnds(e, s, s', hs, i, StatusOf(rs, d) == Some(MoveSrc));
    WholeReplaces(s, s', hs, hs', ev.vnode, Ended(rs, d, ev.dest));
    EventIs(ev);
    EndedKeeps(e, Whole(s, hs), Whole(s', hs'), d, ev.vnode, ev.dest);
  }

  lemma EventIs(ev: Event)
    ensures Event(ev.vnode, ev.dest) == ev
  {
  }

  lemma EndableSection(e: Edition, s: State, h: Handler)
    requires h.at.Ending? && h.dev < |s.devices| && h.at.event.vnode < |s.vnodes|
    requires var rs := s.vnodes[h.at.event.vnode].replicas; Find(rs, h.dev) < |rs| && Find(rs, h.at.event.dest) < |rs|
    ensures Section(e, s, h) == Ok((EndSync(e, s, h.dev, h.at.event), h.(at := Over)))
  {
    assert h.at == Ending(h.at.event);
  }

  lemma EndSyncSizes(e: Edition, s: State, d: nat, ev: Event)
    requires d < |s.devices| && ev.vnode < |s.vnodes|
    requires var rs := s.vnodes[ev.vnode].replicas; Find(rs, d) < |rs| && Find(rs, ev.dest) < |rs|
    ensures SameSizes(s, EndSync(e, s, d, ev))
  {
  }

  /** The section that ends a sync does not fault, and keeps the invariant. */
  lemma EndingKeeps(e: Edition, y: System, i: nat)
    requires SysInv(e, y) && i < |y.handlers| && y.handlers[i].at.Ending? && y.handlers[i].dev < |y.s.devices|
    ensures Section(e, y.s, y.handlers[i]).Ok?
    ensures var (s', h') := Section(e, y.s, y.handlers[i]).value; SysInv(e, System(s', y.handlers[i := h']))
  {
    var h := y.handlers[i];
    EndingIsSound(e, y, i);
    EndableSection(e, y.s, h);
    EndingInv(e, y.s, y.handlers, i, h.dev, h.at.event);
    EndingCounts(e, y.s, h.dev, h.at.event);
    EndSyncSizes(e, y.s, h.dev, h.at.event);
    KnownStays(y.s, EndSync(e, y.s, h.dev, h.at.event), y.handlers, i, h.(at := Over));
  }

  /** Every section of a heartbeat keeps the invariant. */
  lemma SectionKeeps(e: Edition, y: System, i: nat)
    requires SysInv(e, y) && i < |y.handlers| && y.handlers[i].dev < |y.s.devices|
    ensures var r := Section(e, y.s, y.handlers[i]); r.Ok? ==> SysInv(e, System(r.value.0, y.handlers[i := r.value.1]))
  {
    var h := y.handlers[i];
    if h.at.Merging? && h.reports != [] {
      ReportKeeps(e, y, i);
    } else if h.at.Ending? {
      EndingKeeps(e, y, i);
    } else if h.at.Popped? || h.at.Owing? || (h.at.Sending? && y.s.devices[h.dev].pending != []) {
      EventSectionKeeps(e, y, i);
    } else {
      QuietSectionKeeps(e, y, i);
    }
  }
}
