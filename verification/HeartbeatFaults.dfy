/**
 Which heartbeats fault when their sections mix with other messages: those during which a move from their device ends,
 of a vnode that they are still going to look for.
 */
module HeartbeatFaults {
  import opened ProxyTypes
  import opened NodeInfo
  import opened NodeObjects
  import opened Protocol
  import opened Invariant
  import opened Steps
  import opened HeartbeatSteps
  import opened SyncDownSteps
  import opened JoinLoops
  import opened Counting
  import opened Runs
  import opened Interleaving
  import opened InterleavedRuns

  // ---------------------------------------------------------------------------------------------
  // One section
  // ---------------------------------------------------------------------------------------------

  /** Device `d` has a replica of `v`. */
  ghost predicate There(s: State, d: nat, v: nat) {
    v < |s.vnodes| && StatusOf(s.vnodes[v].replicas, d).Some?
  }

  /** The vnode whose replica on the device the next section reads. */
  function LooksFor(h: Handler): (v: Option<nat>)
    ensures v.Some? && h.at.Closing? ==> v.value in h.todo
    ensures v.Some? && h.at.Merging? ==> v.value in h.todo
  {
    match h.at
    case Noting(ev) => Some(ev.vnode)
    case Merging =>
      if h.reports != [] && IndexOf(h.todo, h.reports[0].id) < |h.todo|
        then Some(h.todo[IndexOf(h.todo, h.reports[0].id)])
      else None
    case Closing => if h.todo != [] then Some(h.todo[0]) else None
    case _ => None
  }

  lemma HeartbeatSectionFaults(e: Edition, s: State, h: Handler)
    requires Known(s, h) && !h.at.Ending?
    ensures Section(e, s, h).Fault? <==> LooksFor(h).Some? && !There(s, h.dev, LooksFor(h).value)
  {
  }

  /** A section faults exactly when the vnode it looks for has no replica on the device. */
  lemma SectionFaults(e: Edition, y: System, i: nat)
    requires SysInv(e, y) && i < |y.handlers|
    ensures var h := y.handlers[i];
            h.dev < |y.s.devices| &&
            (Section(e, y.s, h).Fault? <==> LooksFor(h).Some? && !There(y.s, h.dev, LooksFor(h).value))
  {
    assert y.handlers[i] in y.handlers;
    if y.handlers[i].at.Ending? {
      EndingKeeps(e, y, i);
    } else {
      HeartbeatSectionFaults(e, y.s, y.handlers[i]);
    }
  }

  /** The handler is still going to look for `v`. */
  ghost predicate Awaits(h: Handler, v: nat) {
    !h.at.Over? && !h.at.Ending? && (v in h.todo || (h.at.Noting? && h.at.event.vnode == v))
  }

  /** All that it is going to look for is there. */
  ghost predicate Ready(s: State, h: Handler) {
    forall v: nat :: Awaits(h, v) ==> There(s, h.dev, v)
  }

  ghost predicate Calm(y: System) {
    forall h :: h in y.handlers ==> Ready(y.s, h)
  }

  lemma ReadyGoes(e: Edition, y: System, i: nat)
    requires SysInv(e, y) && i < |y.handlers| && Ready(y.s, y.handlers[i])
    ensures y.handlers[i].dev < |y.s.devices| && Section(e, y.s, y.handlers[i]).Ok?
  {
    var h := y.handlers[i];
    SectionFaults(e, y, i);
    if LooksFor(h).Some? {
      assert Awaits(h, LooksFor(h).value);
    }
  }

  /** The same devices in the same order. */
  ghost predicate SameHomes(rs: seq<Replica>, rs': seq<Replica>) {
    |rs'| == |rs| && forall i :: 0 <= i < |rs| ==> rs'[i].dev == rs[i].dev
  }

  lemma PlanHomes(s: State, h: Handler, w: nat, v: nat)
    requires w < |s.vnodes| && StatusOf(s.vnodes[w].replicas, h.dev).Some?
    ensures var s' := PlanSection(s, h, w).0;
            |s'.vnodes| == |s.vnodes| && (v < |s.vnodes| ==> SameHomes(s.vnodes[v].replicas, s'.vnodes[v].replicas))
  {
  }

  lemma AcceptHomes(s: State, w: nat, d: nat, version: int, v: nat)
    requires w < |s.vnodes| && StatusOf(s.vnodes[w].replicas, d).Some?
    ensures var s' := Accept(s, w, d, version).0;
            |s'.vnodes| == |s.vnodes| && (v < |s.vnodes| ==> SameHomes(s.vnodes[v].replicas, s'.vnodes[v].replicas))
  {
  }

  lemma SectionHomes(e: Edition, s: State, h: Handler, v: nat)
    requires h.dev < |s.devices| && Section(e, s, h).Ok? && !h.at.Ending?
    ensures var s' := Section(e, s, h).value.0;
            |s'.vnodes| == |s.vnodes| && (v < |s.vnodes| ==> SameHomes(s.vnodes[v].replicas, s'.vnodes[v].replicas))
  {
    if h.at.Merging? && h.reports != [] && IndexOf(h.todo, h.reports[0].id) < |h.todo| {
      var j := IndexOf(h.todo, h.reports[0].id);
      PlanHomes(s, h.(reports := h.reports[1..], todo := RemoveAt(h.todo, j)), h.todo[j], v);
      AcceptHomes(s, h.todo[j], h.dev, h.reports[0].version, v);
    }
  }

  lemma SectionThere(e: Edition, s: State, h: Handler, d: nat, v: nat)
    requires h.dev < |s.devices| && Section(e, s, h).Ok? && !h.at.Ending?
    ensures There(Section(e, s, h).value.0, d, v) <==> There(s, d, v)
  {
    SectionHomes(e, s, h, v);
    if v < |s.vnodes| {
      SameFind(s.vnodes[v].replicas, Section(e, s, h).value.0.vnodes[v].replicas, d);
    }
  }

  lemma SectionTodo(e: Edition, s: State, h: Handler)
    requires h.dev < |s.devices| && Section(e, s, h).Ok?
    ensures var h' := Section(e, s, h).value.1;
            && h'.dev == h.dev && (forall v :: v in h'.todo ==> v in h.todo)
            && (h'.at.Noting? ==> h.at == Popped(h'.at.event))
            && (h.at.Over? ==> h' == h) && (h.at.Ending? ==> h' == h.(at := Over)) && !h'.at.Ending?
  {
  }

  /** What a handler was going to look for, it still is, unless it has just done so. */
  lemma AwaitsStill(e: Edition, s: State, h: Handler, v: nat)
    requires h.dev < |s.devices| && Section(e, s, h).Ok? && Awaits(h, v) && LooksFor(h) != Some(v)
    ensures Awaits(Section(e, s, h).value.1, v)
  {
    if h.at.Merging? && h.reports != [] && IndexOf(h.todo, h.reports[0].id) < |h.todo| {
      RemainsListed(h.todo, IndexOf(h.todo, h.reports[0].id), v);
    } else if h.at.Closing? {
      assert h.todo == [h.todo[0]] + h.todo[1..];
    }
  }

  lemma RemainsListed(list: seq<nat>, i: nat, v: nat)
    requires i < |list| && v in list && list[i] != v
    ensures v in RemoveAt(list, i)
  {
    var k :| 0 <= k < |list| && list[k] == v;
    assert RemoveAt(list, i)[if k < i then k else k - 1] == v;
  }

  // ---------------------------------------------------------------------------------------------
  // A finished sync
  // ---------------------------------------------------------------------------------------------

  /** Handler `h` is about to end a move of `v` from device `d`. */
  ghost predicate EndsMove(s: State, h: Handler, d: nat, v: nat) {
    && h.at.Ending? && h.dev == d && h.at.event.vnode == v
    && v < |s.vnodes| && StatusOf(s.vnodes[v].replicas, d) == Some(MoveSrc)
  }

  /** The end of a sync takes one replica away: that of a move, from its source. */
  lemma EndedThere(rs: seq<Replica>, d: nat, dst: nat, c: nat)
    requires Distinct(rs) && Find(rs, d) < |rs| && Find(rs, dst) < |rs|
    requires d == dst ==> StatusOf(rs, d) != Some(MoveSrc)
    ensures StatusOf(Ended(rs, d, dst), c).Some? <==>
            StatusOf(rs, c).Some? && !(c == d && StatusOf(rs, d) == Some(MoveSrc))
  {
    EndedReplicas(rs, d, dst);
  }

  lemma EndingThere(e: Edition, ds: seq<Device>, s: State, h: Handler, c: nat, v: nat)
    requires h.at.Ending? && Endable(ds, s, h.dev, h.at.event)
    ensures Section(e, s, h).Ok?
    ensures There(Section(e, s, h).value.0, c, v) <==> There(s, c, v) && !EndsMove(s, h, c, v)
  {
    var d, ev := h.dev, h.at.event;
    EndSyncIs(e, s, d, ev);
    EndableSection(e, s, h);
    EndedThere(s.vnodes[ev.vnode].replicas, d, ev.dest, c);
  }

  /** What any section does to the places of replicas. */
  lemma GoesThere(e: Edition, y: System, i: nat, c: nat, v: nat)
    requires SysInv(e, y) && i < |y.handlers| && y.handlers[i].dev < |y.s.devices| && Section(e, y.s, y.handlers[i]).Ok?
    ensures There(Section(e, y.s, y.handlers[i]).value.0, c, v) <==>
            There(y.s, c, v) && !EndsMove(y.s, y.handlers[i], c, v)
  {
    var h := y.handlers[i];
    if h.at.Ending? {
      EndingIsSound(e, y, i);
      EndingThere(e, Whole(y.s, y.handlers).devices, y.s, h, c, v);
    } else {
      SectionThere(e, y.s, h, c, v);
    }
  }

  /** Handler `g` is about to end a move of what `h` is still to look for on its device. */
  ghost predicate Robbed(s: State, g: Handler, h: Handler) {
    exists v: nat :: Awaits(h, v) && EndsMove(s, g, h.dev, v)
  }

  /** An act that comes too early: the end of a move, when a heartbeat of its source is still to look for the vnode. */
  ghost predicate OutOfPlace(y: System, a: Act) {
    && a.Goes? && a.handler < |y.handlers|
    && exists h :: h in y.handlers && Robbed(y.s, y.handlers[a.handler], h)
  }

  // ---------------------------------------------------------------------------------------------
  // What keeps heartbeats from faulting
  // ---------------------------------------------------------------------------------------------

  /** The event that was just put into syncing_list is one of a source. */
  lemma NotedThere(e: Edition, y: System, i: nat, ev: Event)
    requires SysInv(e, y) && i < |y.handlers| && y.handlers[i].at == Popped(ev) && y.handlers[i].dev < |y.s.devices|
    ensures There(y.s, y.handlers[i].dev, ev.vnode)
  {
    HeldIsSound(e, y, i, y.handlers[i].dev, ev);
  }

  /** The handler that goes on: what it will look for is there afterwards, if it was before. */
  lemma GoesReady(e: Edition, y: System, i: nat)
    requires SysInv(e, y) && i < |y.handlers| && y.handlers[i].dev < |y.s.devices|
    requires Section(e, y.s, y.handlers[i]).Ok? && Ready(y.s, y.handlers[i])
    ensures var (s', h') := Section(e, y.s, y.handlers[i]).value; Ready(s', h')
  {
    var h := y.handlers[i];
    var (s', h') := Section(e, y.s, h).value;
    SectionTodo(e, y.s, h);
    forall v: nat | Awaits(h', v)
      ensures There(s', h'.dev, v)
    {
      GoesThere(e, y, i, h.dev, v);
      if v in h'.todo {
        assert Awaits(h, v);
      } else {
        NotedThere(e, y, i, h'.at.event);
      }
    }
  }

  /** Another handler: the same, unless the section ends a move of what it will look for. */
  lemma OthersReady(e: Edition, y: System, i: nat, h: Handler)
    requires SysInv(e, y) && i < |y.handlers| && y.handlers[i].dev < |y.s.devices|
    requires Section(e, y.s, y.handlers[i]).Ok? && Ready(y.s, h)
    ensures Ready(Section(e, y.s, y.handlers[i]).value.0, h) <==>
            !Robbed(y.s, y.handlers[i], h)
  {
    var s' := Section(e, y.s, y.handlers[i]).value.0;
    forall v: nat | Awaits(h, v)
      ensures There(s', h.dev, v) <==> !EndsMove(y.s, y.handlers[i], h.dev, v)
    {
      GoesThere(e, y, i, h.dev, v);
    }
  }

  lemma NextGoes(e: Edition, y: System, i: nat)
    requires i < |y.handlers| && y.handlers[i].dev < |y.s.devices| && Section(e, y.s, y.handlers[i]).Ok?
    ensures var (s', h') := Section(e, y.s, y.handlers[i]).value;
            Next(e, y, Goes(i)) == Ok(System(s', y.handlers[i := h']))
  {
  }

  lemma SectionCalm(e: Edition, y: System, i: nat)
    requires SysInv(e, y) && Calm(y) && i < |y.handlers|
    ensures y.handlers[i].dev < |y.s.devices| && Section(e, y.s, y.handlers[i]).Ok?
    ensures var (s', h') := Section(e, y.s, y.handlers[i]).value;
            Calm(System(s', y.handlers[i := h'])) <==> !OutOfPlace(y, Goes(i))
  {
    assert y.handlers[i] in y.handlers;
    ReadyGoes(e, y, i);
    GoesReady(e, y, i);
    AllOthersReady(e, y, i);
    var (s', h') := Section(e, y.s, y.handlers[i]).value;
    GoneOnCalm(y, i, s', h');
  }

  /** Where no heartbeat looks in vain, no section faults, and one changes that exactly when it comes too early. */
  lemma GoesCalm(e: Edition, y: System, i: nat)
    requires SysInv(e, y) && Calm(y)
    ensures Next(e, y, Goes(i)).Ok?
    ensures Calm(Next(e, y, Goes(i)).value) <==> !OutOfPlace(y, Goes(i))
  {
    if i < |y.handlers| {
      SectionCalm(e, y, i);
      NextGoes(e, y, i);
    }
  }

  lemma AllOthersReady(e: Edition, y: System, i: nat)
    requires SysInv(e, y) && Calm(y) && i < |y.handlers| && y.handlers[i].dev < |y.s.devices|
    requires Section(e, y.s, y.handlers[i]).Ok?
    ensures var s' := Section(e, y.s, y.handlers[i]).value.0;
            forall h :: h in y.handlers ==> (Ready(s', h) <==> !Robbed(y.s, y.handlers[i], h))
  {
    var s' := Section(e, y.s, y.handlers[i]).value.0;
    forall h | h in y.handlers
      ensures Ready(s', h) <==> !Robbed(y.s, y.handlers[i], h)
    {
      OthersReady(e, y, i, h);
    }
  }

  lemma GoneOnCalm(y: System, i: nat, s': State, h': Handler)
    requires i < |y.handlers| && Ready(s', h')
    requires forall h :: h in y.handlers ==> (Ready(s', h) <==> !Robbed(y.s, y.handlers[i], h))
    ensures Calm(System(s', y.handlers[i := h'])) <==> !OutOfPlace(y, Goes(i))
  {
    var hs, hs' := y.handlers, y.handlers[i := h'];
    if OutOfPlace(y, Goes(i)) {
      var h :| h in hs && Robbed(y.s, hs[i], h);
      var k :| 0 <= k < |hs| && hs[k] == h;
      assert k != i;
      assert hs'[k] == h;
      assert h in hs' && !Ready(s', h);
    } else {
      forall h | h in hs'
        ensures Ready(s', h)
      {
        var k :| 0 <= k < |hs| && hs'[k] == h;
        assert k != i ==> hs[k] in hs;
      }
    }
  }

  lemma BeginsCalm(e: Edition, y: System, d: nat, reports: seq<Report>)
    requires SysInv(e, y) && Exact(e) && Calm(y) && d < |y.s.devices|
    ensures Calm(y.(handlers := y.handlers + [Begun(y.s, d, reports)]))
  {
    ListedIsPlaced(e, Whole(y.s, y.handlers), d);
  }

  lemma TakenCalm(y: System, s': State, h: Handler)
    requires Calm(y) && s'.vnodes == y.s.vnodes && h.at.Ending? && h.todo == []
    ensures Calm(System(s', y.handlers + [h]))
  {
    forall g, v: nat | g in y.handlers + [h] && Awaits(g, v)
      ensures There(s', g.dev, v)
    {
      assert There(y.s, g.dev, v);
    }
  }

  lemma SameCalm(y: System, s': State)
    requires Calm(y) && SameBelow(y.s, s', |y.s.devices|) && forall h :: h in y.handlers ==> Known(y.s, h)
    ensures Calm(y.(s := s'))
  {
    forall h, v: nat | h in y.handlers && Awaits(h, v)
      ensures There(s', h.dev, v)
    {
      assert SameOn(y.s, s', h.dev) && There(y.s, h.dev, v);
    }
  }

  /** Where no heartbeat looks in vain, an act changes that exactly when it comes too early. */
  lemma NextCalm(e: Edition, y: System, a: Act)
    requires SysInv(e, y) && Exact(e) && Calm(y) && Next(e, y, a).Ok?
    ensures Calm(Next(e, y, a).value) <==> !OutOfPlace(y, a)
  {
    match a
    case Begins(d, reports) =>
      if d < |y.s.devices| {
        BeginsCalm(e, y, d, reports);
      }
    case Goes(i) => GoesCalm(e, y, i);
    case Syncs(d, id) =>
      if d < |y.s.devices| {
        TakenSame(y.s, d, id);
        TakenCalm(y, TakeSync(y.s, d, id).value.0, TakeSync(y.s, d, id).value.1);
      }
    case Joins(zone, weight, rnd) =>
      JoinsKeeps(e, y, zone, weight, rnd);
      SameCalm(y, Next(e, y, a).value.s);
    case Asks(v, write) =>
      AsksKeeps(e, y, v, write);
      SameCalm(y, Next(e, y, a).value.s);
  }

  // ---------------------------------------------------------------------------------------------
  // What is missing stays missing
  // ---------------------------------------------------------------------------------------------

  /** Handler `i` is still going to look for `v`, in vain. */
  ghost predicate Missing(y: System, i: nat, v: nat) {
    i < |y.handlers| && Awaits(y.handlers[i], v) && !There(y.s, y.handlers[i].dev, v)
  }

  lemma GoesMissing(e: Edition, y: System, k: nat, i: nat, v: nat)
    requires SysInv(e, y) && Missing(y, i, v) && Next(e, y, Goes(k)).Ok?
    ensures Missing(Next(e, y, Goes(k)).value, i, v)
  {
    if k < |y.handlers| {
      assert y.handlers[k] in y.handlers;
      GoesThere(e, y, k, y.handlers[i].dev, v);
      if k == i {
        SectionFaults(e, y, i);
        SectionTodo(e, y.s, y.handlers[i]);
        AwaitsStill(e, y.s, y.handlers[i], v);
      }
    }
  }

  lemma SyncsMissing(y: System, d: nat, id: int, i: nat, v: nat)
    requires Missing(y, i, v) && d < |y.s.devices| && TakeSync(y.s, d, id).Ok?
    ensures var (s', h) := TakeSync(y.s, d, id).value; Missing(System(s', y.handlers + [h]), i, v)
  {
    TakenSame(y.s, d, id);
  }

  lemma SameMissing(y: System, s': State, i: nat, v: nat)
    requires Missing(y, i, v) && SameBelow(y.s, s', |y.s.devices|) && y.handlers[i].dev < |y.s.devices|
    ensures Missing(y.(s := s'), i, v)
  {
    assert SameOn(y.s, s', y.handlers[i].dev);
  }

  lemma NextMissing(e: Edition, y: System, a: Act, i: nat, v: nat)
    requires SysInv(e, y) && Missing(y, i, v) && Next(e, y, a).Ok?
    ensures Missing(Next(e, y, a).value, i, v)
  {
    assert y.handlers[i] in y.handlers;
    match a
    case Begins(d, reports) =>
    case Goes(k) => GoesMissing(e, y, k, i, v);
    case Syncs(d, id) =>
      if d < |y.s.devices| {
        SyncsMissing(y, d, id, i, v);
      }
    case Joins(zone, weight, rnd) =>
      JoinsKeeps(e, y, zone, weight, rnd);
      SameMissing(y, Next(e, y, a).value.s, i, v);
    case Asks(w, write) =>
      AsksKeeps(e, y, w, write);
      SameMissing(y, Next(e, y, a).value.s, i, v);
  }

  lemma {:induction false} CourseMissing(e: Edition, y: System, acts: seq<Act>, i: nat, v: nat)
    requires SysInv(e, y) && Missing(y, i, v)
    ensures Course(e, y, acts).Ok? ==> Missing(Course(e, y, acts).value, i, v)
    decreases |acts|
  {
    if acts != [] && Next(e, y, acts[0]).Ok? {
      NextKeeps(e, y, acts[0]);
      NextMissing(e, y, acts[0], i, v);
      CourseMissing(e, Next(e, y, acts[0]).value, acts[1..], i, v);
    }
  }

  // ---------------------------------------------------------------------------------------------
  // Whole courses
  // ---------------------------------------------------------------------------------------------

  /** No act comes too early. */
  ghost predicate InPlace(e: Edition, y: System, acts: seq<Act>)
    decreases |acts|
  {
    acts == []
    || (!OutOfPlace(y, acts[0]) && (Next(e, y, acts[0]).Ok? ==> InPlace(e, Next(e, y, acts[0]).value, acts[1..])))
  }

  ghost predicate SomeMissing(y: System) {
    exists i: nat, v: nat :: Missing(y, i, v)
  }

  lemma NotCalm(y: System)
    ensures SomeMissing(y) <==> !Calm(y)
  {
    if !Calm(y) {
      var h :| h in y.handlers && !Ready(y.s, h);
      var v: nat :| Awaits(h, v) && !There(y.s, h.dev, v);
      var i :| 0 <= i < |y.handlers| && y.handlers[i] == h;
      assert Missing(y, i, v);
    }
    if SomeMissing(y) {
      var i: nat, v: nat :| Missing(y, i, v);
      assert y.handlers[i] in y.handlers;
    }
  }

  /** Over a whole course: no heartbeat looks in vain at its end exactly when no act came too early. */
  lemma {:induction false} CourseCalm(e: Edition, y: System, acts: seq<Act>)
    requires SysInv(e, y) && Exact(e) && Calm(y) && Course(e, y, acts).Ok?
    ensures Calm(Course(e, y, acts).value) <==> InPlace(e, y, acts)
    decreases |acts|
  {
    if acts != [] {
      var y1 := Next(e, y, acts[0]).value;
      NextKeeps(e, y, acts[0]);
      NextCalm(e, y, acts[0]);
      if Calm(y1) {
        CourseCalm(e, y1, acts[1..]);
      } else {
        NotCalm(y1);
        var i: nat, v: nat :| Missing(y1, i, v);
        CourseMissing(e, y1, acts[1..], i, v);
        NotCalm(Course(e, y, acts).value);
      }
    }
  }

  /** Left alone, a handler that looks in vain faults. */
  lemma MissingFaults(e: Edition, y: System, i: nat, v: nat)
    requires SysInv(e, y) && Missing(y, i, v)
    ensures y.handlers[i].dev < |y.s.devices| && Alone(e, y.s, y.handlers[i]).Fault?
  {
    assert y.handlers[i] in y.handlers;
    if Alone(e, y.s, y.handlers[i]).Ok? {
      var acts, h' := AloneCourse(e, y, i);
      CourseMissing(e, y, acts, i, v);
    }
  }

  lemma {:induction false} CalmEnds(e: Edition, y: System, i: nat)
    requires SysInv(e, y) && Calm(y) && i < |y.handlers| && y.handlers[i].dev < |y.s.devices|
    ensures Alone(e, y.s, y.handlers[i]).Ok?
    decreases Phase(y.handlers[i]), Left(y.s, y.handlers[i])
  {
    var h := y.handlers[i];
    if !h.at.Over? {
      GoesCalm(e, y, i);
      NextKeeps(e, y, Goes(i));
      SectionEnds(e, y.s, h);
      SectionTodo(e, y.s, h);
      AloneGoes(e, y.s, h);
      if !h.at.Ending? {
        CalmEnds(e, Next(e, y, Goes(i)).value, i);
      }
    }
  }

  /** Every heartbeat and every sync that has begun ends without a fault when it is left alone from here. */
  ghost predicate AllEnd(e: Edition, y: System) {
    forall i: nat :: i < |y.handlers| ==> y.handlers[i].dev < |y.s.devices| && Alone(e, y.s, y.handlers[i]).Ok?
  }

  lemma CalmIffAllEnd(e: Edition, y: System)
    requires SysInv(e, y)
    ensures Calm(y) <==> AllEnd(e, y)
  {
    NotCalm(y);
    if Calm(y) {
      forall i: nat | i < |y.handlers|
        ensures y.handlers[i].dev < |y.s.devices| && Alone(e, y.s, y.handlers[i]).Ok?
      {
        assert y.handlers[i] in y.handlers;
        CalmEnds(e, y, i);
      }
    } else {
      var i: nat, v: nat :| Missing(y, i, v);
      MissingFaults(e, y, i, v);
    }
  }

  /**
   In the exact editions, however heartbeats mix with all other messages: every heartbeat can still end without a fault
   exactly if no move ended while a heartbeat of its source was still to look for the moved vnode.
   */
  lemma HeartbeatsEndIffInPlace(e: Edition, n: nat, rc: int, acts: seq<Act>)
    requires Exact(e)
    ensures var r := Course(e, System(Boot(n, rc), []), acts);
            r.Ok? ==> (AllEnd(e, r.value) <==> InPlace(e, System(Boot(n, rc), []), acts))
  {
    BootSystem(e, n, rc);
    var r := Course(e, System(Boot(n, rc), []), acts);
    if r.Ok? {
      CourseCalm(e, System(Boot(n, rc), []), acts);
      CourseKeeps(e, System(Boot(n, rc), []), acts);
      CalmIffAllEnd(e, r.value);
    }
  }

  /** If no act came too early, no next section of any heartbeat faults. */
  lemma NoSectionFaults(e: Edition, n: nat, rc: int, acts: seq<Act>, i: nat)
    requires Exact(e) && InPlace(e, System(Boot(n, rc), []), acts)
    ensures var r := Course(e, System(Boot(n, rc), []), acts); r.Ok? ==> Next(e, r.value, Goes(i)).Ok?
  {
    BootSystem(e, n, rc);
    var r := Course(e, System(Boot(n, rc), []), acts);
    if r.Ok? {
      CourseCalm(e, System(Boot(n, rc), []), acts);
      CourseKeeps(e, System(Boot(n, rc), []), acts);
      GoesCalm(e, r.value, i);
    }
  }

  /** If one did, there is a heartbeat that is never done, whatever happens afterwards. */
  lemma SomeNeverEnds(e: Edition, n: nat, rc: int, acts: seq<Act>, y: System)
    requires Exact(e) && Course(e, System(Boot(n, rc), []), acts) == Ok(y)
    requires !InPlace(e, System(Boot(n, rc), []), acts)
    ensures exists i: nat :: i < |y.handlers| && NeverOver(e, y, i)
  {
    BootSystem(e, n, rc);
    CourseCalm(e, System(Boot(n, rc), []), acts);
    CourseKeeps(e, System(Boot(n, rc), []), acts);
    NotCalm(y);
    var i: nat, v: nat :| Missing(y, i, v);
    forall more: seq<Act> | Course(e, y, more).Ok?
      ensures i < |Course(e, y, more).value.handlers| && !Course(e, y, more).value.handlers[i].at.Over?
    {
      CourseMissing(e, y, more, i, v);
    }
    assert NeverOver(e, y, i);
  }

  /** In every course from here the handler is there and not done. */
  ghost predicate NeverOver(e: Edition, y: System, i: nat) {
    forall more: seq<Act> :: Course(e, y, more).Ok? ==>
      i < |Course(e, y, more).value.handlers| && !Course(e, y, more).value.handlers[i].at.Over?
  }
}
