/**
 A whole heartbeat: the node reports, the master replies, the node merges the reply. Afterwards the node has what
 the master lists for it, once it has what it is already syncing; and in runs of the master together with its
 nodes it always does.
 */
module RoundTrip {
  import opened ProxyTypes
  import opened NodeInfo
  import opened NodeObjects
  import opened Protocol
  import opened Invariant
  import opened Steps
  import opened HeartbeatSteps
  import opened JoinSteps
  import opened JoinLoops
  import opened JoinInduction
  import opened Counting
  import opened Runs
  import opened Guarantees
  import opened Statuses
  import opened StorageNode

  // ---------------------------------------------------------------------------------------------
  // What a reply answers
  // ---------------------------------------------------------------------------------------------

  ghost predicate SourceAt(s: State, d: nat, x: int) {
    0 <= x < |s.vnodes| && SourceOn(s.vnodes[x].replicas, d)
  }

  ghost predicate EventFor(events: seq<Event>, x: int) {
    exists ev :: ev in events && ev.vnode == x
  }

  ghost predicate Mentioned(reply: seq<Reply>, x: int) {
    exists u :: u in reply && u.id == x
  }

  function OrdersOf(events: seq<Event>): (orders: seq<SyncOrder>) {
    seq(|events|, i requires 0 <= i < |events| => SyncOrder(events[i].vnode, Some(events[i].dest)))
  }

  /**
   Once the ids in `done` are dealt with, the reply has one unit for each vnode whose sync was pending and for each
   id in `done` that is not a source of the device. OFFLINE is told for ids that are not listed, a source status for
   pending syncs, in their order.
   */
  ghost predicate Answered(s: State, d: nat, done: set<int>, reply: seq<Reply>)
    requires d < |s.devices|
  {
    var dev := s.devices[d];
    && UniqueReply(reply)
    && (forall u :: u in reply ==> (u.status.Offline? <==> u.id !in dev.listed))
    && (forall x :: Mentioned(reply, x) <==>
                    EventFor(dev.pending, x) || (x in done && (x in dev.listed ==> !SourceAt(s, d, x))))
    && Orders(reply) == OrdersOf(dev.pending)
  }

  lemma MentionedAfter(reply: seq<Reply>, u: Reply, x: int)
    ensures Mentioned(reply + [u], x) <==> Mentioned(reply, x) || x == u.id
  {
    assert u in reply + [u];
  }

  lemma AnswerOne(s: State, d: nat, done: set<int>, reply: seq<Reply>, u: Reply)
    requires d < |s.devices| && Answered(s, d, done, reply)
    requires u.id !in done && !EventFor(s.devices[d].pending, u.id)
    requires u.id in s.devices[d].listed ==> !SourceAt(s, d, u.id)
    requires u.status.Offline? <==> u.id !in s.devices[d].listed
    requires !IsSource(u.status)
    ensures Answered(s, d, done + {u.id}, reply + [u])
  {
    var reply' := reply + [u];
    assert !Mentioned(reply, u.id);
    assert reply'[..|reply|] == reply;
    forall x
      ensures Mentioned(reply', x) <==> Mentioned(reply, x) || x == u.id
    {
      MentionedAfter(reply, u, x);
    }
  }

  lemma AnswerNone(s: State, d: nat, done: set<int>, reply: seq<Reply>, x: int)
    requires d < |s.devices| && Answered(s, d, done, reply)
    requires x in s.devices[d].listed && SourceAt(s, d, x)
    ensures Answered(s, d, done + {x}, reply)
  {
  }

  /** The pending events of a device: for different vnodes, listed ones, of which it is a source. */
  ghost predicate Orderly(s: State, d: nat)
    requires d < |s.devices|
  {
    && (forall ev :: ev in s.devices[d].pending ==> ev.vnode in s.devices[d].listed && SourceAt(s, d, ev.vnode))
    && (forall i, j :: 0 <= i < j < |s.devices[d].pending| ==>
        s.devices[d].pending[i].vnode != s.devices[d].pending[j].vnode)
    && NoDuplicates(s.devices[d].listed)
    && (forall v: nat :: v < |s.vnodes| && SourceAt(s, d, v) ==> v in s.devices[d].listed)
  }

  lemma {:induction false} OrdersIs(reply: seq<Reply>, events: seq<Event>, status: nat -> Option<Status>)
    requires Announces(reply, events, status)
    requires forall ev :: ev in events ==> status(ev.vnode).Some? && IsSource(status(ev.vnode).value)
    ensures Orders(reply) == OrdersOf(events)
    decreases |reply|
  {
    if reply != [] {
      var n := |reply| - 1;
      OrdersIs(reply[..n], events[..n], status);
      assert events[n] in events;
      assert OrdersOf(events) == OrdersOf(events[..n]) + [SyncOrder(events[n].vnode, Some(events[n].dest))];
    }
  }

  lemma AnnouncedIs(reply: seq<Reply>, events: seq<Event>, status: nat -> Option<Status>)
    requires Announces(reply, events, status)
    ensures forall u :: u in reply ==>
              && EventFor(events, u.id)
              && exists ev :: ev in events && ev.vnode == u.id && status(ev.vnode) == Some(u.status)
    ensures forall x :: Mentioned(reply, x) <==> EventFor(events, x)
  {
    forall u | u in reply
      ensures EventFor(events, u.id)
      ensures exists ev :: ev in events && ev.vnode == u.id && status(ev.vnode) == Some(u.status)
    {
      var i :| 0 <= i < |reply| && reply[i] == u;
      assert events[i] in events;
    }
    forall x | EventFor(events, x)
      ensures Mentioned(reply, x)
    {
      var i :| 0 <= i < |events| && events[i].vnode == x;
      assert reply[i] in reply;
    }
  }

  /** After the pending events went out. */
  lemma DrainAnswers(s: State, d: nat)
    requires d < |s.devices| && Orderly(s, d) && Drain(s, d, []).Ok?
    ensures Answered(s, d, {}, Drain(s, d, []).value.1)
  {
    DrainIs(s, d, []);
    var reply := Drain(s, d, []).value.1;
    assert reply[0..] == reply;
    AnnouncedAnswers(s, d, reply);
  }

  lemma AnnouncedAnswers(s: State, d: nat, reply: seq<Reply>)
    requires d < |s.devices| && Orderly(s, d) && Announces(reply, s.devices[d].pending, StatusesOn(s, d))
    ensures Answered(s, d, {}, reply)
  {
    var pending := s.devices[d].pending;
    forall ev | ev in pending
      ensures StatusesOn(s, d)(ev.vnode).Some? && IsSource(StatusesOn(s, d)(ev.vnode).value)
    {
      assert SourceAt(s, d, ev.vnode);
    }
    OrdersIs(reply, pending, StatusesOn(s, d));
    AnnouncedIs(reply, pending, StatusesOn(s, d));
  }

  /** How far the master got when the ids in `done` were reported. */
  ghost predicate Progress(s: State, d: nat, done: set<int>, b: Beat)
    requires d < |s.devices|
  {
    && Answered(s, d, done, b.reply)
    && |b.s.vnodes| == |s.vnodes|
    && (forall v: nat :: v < |s.vnodes| && v !in done ==> b.s.vnodes[v] == s.vnodes[v])
    && (forall v: nat :: v in b.todo <==> v in s.devices[d].listed && v !in done)
    && NoDuplicates(b.todo)
  }

  /** The unit a report is answered with, if any. */
  lemma ReportOneReply(b: Beat, d: nat, r: Report)
    requires ReportOne(b, d, r).Ok? && Usual(b.s)
    ensures var reply' := ReportOne(b, d, r).value.reply;
            if r.id in b.todo && SourceAt(b.s, d, r.id) then reply' == b.reply
            else
              exists u :: reply' == b.reply + [u] && u.id == r.id && !IsSource(u.status)
                && (u.status.Offline? <==> r.id !in b.todo)
  {
    var j := IndexOf(b.todo, r.id);
    if j == |b.todo| {
      assert ReportOne(b, d, r).value.reply == b.reply + [Reply(r.id, Offline, None)];
    } else {
      var v := b.todo[j];
      assert Used(b.s.vnodes[v].replicas);
      var i := Find(b.s.vnodes[v].replicas, d);
      assert b.s.vnodes[v].replicas[i] in b.s.vnodes[v].replicas;
      if !SourceAt(b.s, d, r.id) {
        var reply' := ReportOne(b, d, r).value.reply;
        assert reply' == b.reply + [reply'[|b.reply|]];
      }
    }
  }

  lemma ReportOneLeaves(s: State, d: nat, done: set<int>, b: Beat, r: Report)
    requires d < |s.devices| && Progress(s, d, done, b) && ReportOne(b, d, r).Ok?
    ensures var b' := ReportOne(b, d, r).value;
            && |b'.s.vnodes| == |s.vnodes|
            && (forall v: nat :: v < |s.vnodes| && v !in done && v != r.id ==> b'.s.vnodes[v] == s.vnodes[v])
            && (forall v: nat :: v in b'.todo <==> v in s.devices[d].listed && v !in done && v != r.id)
            && NoDuplicates(b'.todo)
  {
    var b' := ReportOne(b, d, r).value;
    ReportOneTodo(b, d, r);
    ReportOneSizes(b, d, r);
    forall v: nat | v < |s.vnodes| && v !in done && v != r.id
      ensures b'.s.vnodes[v] == s.vnodes[v]
    {
      ReportOneTouches(b, d, r, v);
    }
    var j := IndexOf(b.todo, r.id);
    if j < |b.todo| {
      RemovedOnce(b.todo, j);
    }
  }

  lemma ReportOneProgress(s: State, d: nat, done: set<int>, b: Beat, r: Report)
    requires d < |s.devices| && Orderly(s, d) && Usual(b.s) && Progress(s, d, done, b)
    requires r.id !in done && ReportOne(b, d, r).Ok?
    ensures Progress(s, d, done + {r.id}, ReportOne(b, d, r).value)
  {
    var b' := ReportOne(b, d, r).value;
    ReportOneLeaves(s, d, done, b, r);
    ReportOneReply(b, d, r);
    assert r.id >= 0 ==> (r.id in b.todo <==> r.id in s.devices[d].listed);
    assert r.id in b.todo ==> (SourceAt(b.s, d, r.id) <==> SourceAt(s, d, r.id));
    if r.id in b.todo && SourceAt(b.s, d, r.id) {
      AnswerNone(s, d, done, b.reply, r.id);
    } else {
      var u :| b'.reply == b.reply + [u] && u.id == r.id && !IsSource(u.status)
        && (u.status.Offline? <==> r.id !in b.todo);
      AnswerOne(s, d, done, b.reply, u);
    }
  }

  lemma ReportOneSizes(b: Beat, d: nat, r: Report)
    requires ReportOne(b, d, r).Ok?
    ensures |ReportOne(b, d, r).value.s.vnodes| == |b.s.vnodes|
  {
  }

  ghost function ReportedIds(reports: seq<Report>): set<int> {
    set i | 0 <= i < |reports| :: reports[i].id
  }

  ghost predicate UniqueReports(reports: seq<Report>) {
    forall i, j :: 0 <= i < j < |reports| ==> reports[i].id != reports[j].id
  }

  lemma {:induction false} ReportAllProgress(s: State, d: nat, done: set<int>, b: Beat, reports: seq<Report>)
    requires d < |s.devices| && Orderly(s, d) && Usual(b.s) && Progress(s, d, done, b)
    requires UniqueReports(reports) && ReportedIds(reports) !! done && ReportAll(b, d, reports).Ok?
    ensures Progress(s, d, done + ReportedIds(reports), ReportAll(b, d, reports).value)
    decreases |reports|
  {
    if reports == [] {
      assert done + ReportedIds(reports) == done;
    } else {
      var rest := reports[1..];
      var b' := ReportOne(b, d, reports[0]).value;
      assert reports[0].id in ReportedIds(reports);
      ReportOneProgress(s, d, done, b, reports[0]);
      ReportOneUsual(b, d, reports[0]);
      ReportedRest(reports);
      ReportAllProgress(s, d, done + {reports[0].id}, b', rest);
      assert done + {reports[0].id} + ReportedIds(rest) == done + ReportedIds(reports);
    }
  }

  lemma ReportedRest(reports: seq<Report>)
    requires reports != [] && UniqueReports(reports)
    ensures UniqueReports(reports[1..]) && reports[0].id !in ReportedIds(reports[1..])
    ensures ReportedIds(reports) == {reports[0].id} + ReportedIds(reports[1..])
  {
    var rest := reports[1..];
    forall x | x in ReportedIds(reports)
      ensures x == reports[0].id || x in ReportedIds(rest)
    {
      var i :| 0 <= i < |reports| && reports[i].id == x;
      assert i > 0 ==> rest[i - 1].id == x;
    }
    forall x | x in ReportedIds(rest)
      ensures x in ReportedIds(reports)
    {
      var i :| 0 <= i < |rest| && rest[i].id == x;
      assert reports[i + 1].id == x;
    }
  }

  lemma UnreportedOne(s: State, d: nat, done: set<int>, s1: State, v: nat, reply: seq<Reply>)
    requires d < |s.devices| && Usual(s) && Answered(s, d, done, reply) && Orderly(s, d)
    requires v in s.devices[d].listed && v !in done && v < |s.vnodes| && v < |s1.vnodes| && s1.vnodes[v] == s.vnodes[v]
    requires StatusOf(s1.vnodes[v].replicas, d).Some?
    ensures var st := StatusOf(s1.vnodes[v].replicas, d).value;
            Answered(s, d, done + {v}, if IsSource(st) then reply else reply + [Reply(v, st, None)])
  {
    var rs := s.vnodes[v].replicas;
    var st := StatusOf(rs, d).value;
    assert Used(rs) && rs[Find(rs, d)] in rs;
    if IsSource(st) {
      AnswerNone(s, d, done, reply, v);
    } else {
      AnswerOne(s, d, done, reply, Reply(v, st, None));
    }
  }

  ghost function Values(list: seq<nat>): set<int> {
    set v | v in list
  }

  lemma ValuesRest(list: seq<nat>)
    requires list != []
    ensures Values(list) == {list[0]} + Values(list[1..])
  {
  }

  /** The list is of vnodes still to be answered, as they were. */
  ghost predicate Unanswered(s: State, d: nat, done: set<int>, s1: State, todo: seq<nat>)
    requires d < |s.devices|
  {
    && |s1.vnodes| == |s.vnodes|
    && (forall v :: v in todo ==>
          v in s.devices[d].listed && v !in done && (v < |s.vnodes| ==> s1.vnodes[v] == s.vnodes[v]))
    && NoDuplicates(todo)
  }

  lemma UnansweredRest(s: State, d: nat, done: set<int>, s1: State, todo: seq<nat>)
    requires d < |s.devices| && todo != [] && Unanswered(s, d, done, s1, todo)
    ensures Unanswered(s, d, done + {todo[0]}, s1, todo[1..])
  {
    assert forall v :: v in todo[1..] ==> v in todo && v != todo[0];
  }

  lemma UnreportedStep(s1: State, d: nat, todo: seq<nat>, reply: seq<Reply>)
    requires todo != [] && Unreported(s1, d, todo, reply).Ok?
    ensures var v := todo[0];
            && v < |s1.vnodes| && StatusOf(s1.vnodes[v].replicas, d).Some?
            && var st := StatusOf(s1.vnodes[v].replicas, d).value;
               Unreported(s1, d, todo, reply) ==
                   Unreported(s1, d, todo[1..], if IsSource(st) then reply else reply + [Reply(v, st, None)])
  {
  }

  /** The last part of the reply. */
  lemma {:induction false} UnreportedAnswers(s: State, d: nat, done: set<int>, s1: State, todo: seq<nat>,
                                             reply: seq<Reply>)
    requires d < |s.devices| && Orderly(s, d) && Usual(s) && Answered(s, d, done, reply)
             && Unanswered(s, d, done, s1, todo)
    requires Unreported(s1, d, todo, reply).Ok?
    ensures Answered(s, d, done + Values(todo), Unreported(s1, d, todo, reply).value)
    decreases |todo|
  {
    if todo == [] {
      assert done + Values(todo) == done;
    } else {
      var v := todo[0];
      UnreportedStep(s1, d, todo, reply);
      var st := StatusOf(s1.vnodes[v].replicas, d).value;
      var reply' := if IsSource(st) then reply else reply + [Reply(v, st, None)];
      assert v in todo;
      UnreportedOne(s, d, done, s1, v, reply);
      UnansweredRest(s, d, done, s1, todo);
      UnreportedAnswers(s, d, done + {v}, s1, todo[1..], reply');
      ValuesRest(todo);
      assert done + {v} + Values(todo[1..]) == done + Values(todo);
    }
  }

  /** A heartbeat when the pending events are sent. */
  function Beginning(s: State, d: nat): Beat
    requires d < |s.devices| && Drain(s, d, []).Ok?
  {
    Beat(Drain(s, d, []).value.0, s.devices[d].listed, Drain(s, d, []).value.1)
  }

  lemma ReportedFromBeginning(s: State, d: nat, reports: seq<Report>)
    requires d < |s.devices| && Orderly(s, d) && Usual(s) && UniqueReports(reports) && Heartbeat(s, d, reports).Ok?
    ensures var r := ReportAll(Beginning(s, d), d, reports);
            && r.Ok? && Progress(s, d, ReportedIds(reports), r.value)
            && Unreported(r.value.s, d, r.value.todo, r.value.reply) == Ok(Heartbeat(s, d, reports).value.1)
  {
    DrainAnswers(s, d);
    DrainIs(s, d, []);
    ReportAllProgress(s, d, {}, Beginning(s, d), reports);
    assert {} + ReportedIds(reports) == ReportedIds(reports);
  }

  lemma ProgressUnanswered(s: State, d: nat, done: set<int>, b: Beat)
    requires d < |s.devices| && Progress(s, d, done, b)
    ensures Unanswered(s, d, done, b.s, b.todo)
    ensures done + Values(b.todo) == done + Values(s.devices[d].listed)
  {
  }

  /** The whole reply of a heartbeat. */
  lemma HeartbeatAnswers(s: State, d: nat, reports: seq<Report>)
    requires d < |s.devices| && Orderly(s, d) && Usual(s) && UniqueReports(reports) && Heartbeat(s, d, reports).Ok?
    ensures Answered(s, d, ReportedIds(reports) + Values(s.devices[d].listed), Heartbeat(s, d, reports).value.1)
  {
    var b := Beginning(s, d);
    ReportedFromBeginning(s, d, reports);
    var b', done := ReportAll(b, d, reports).value, ReportedIds(reports);
    ProgressUnanswered(s, d, done, b');
    UnreportedAnswers(s, d, done, b'.s, b'.todo, b'.reply);
  }

  lemma InvOrderly(e: Edition, s: State, d: nat)
    requires Inv(e, s) && d < |s.devices|
    ensures Orderly(s, d)
  {
    var dev := s.devices[d];
    UniqueOwed(e, s, d);
    OwedList(dev);
    var owed := dev.pending + dev.syncing;
    forall ev | ev in dev.pending
      ensures ev.vnode in dev.listed && SourceAt(s, d, ev.vnode)
    {
      assert ev in owed;
      OwedIsSound(e, s, d, ev);
      assert VnodeInv(e, s.devices, s.vnodes[ev.vnode].replicas, ev.vnode);
      assert multiset(dev.listed)[ev.vnode] > 0;
    }
    assert forall i :: 0 <= i < |dev.pending| ==> owed[i] == dev.pending[i];
    forall v: nat | v < |s.vnodes| && SourceAt(s, d, v)
      ensures v in dev.listed
    {
      assert VnodeInv(e, s.devices, s.vnodes[v].replicas, v);
      assert multiset(dev.listed)[v] > 0;
    }
    ListedOnce(e, s, d);
  }

  lemma NotBoth(e: Edition, s: State, d: nat)
    requires Inv(e, s) && d < |s.devices|
    ensures forall i, j :: 0 <= i < |s.devices[d].pending| && 0 <= j < |s.devices[d].syncing| ==>
                             s.devices[d].pending[i].vnode != s.devices[d].syncing[j].vnode
  {
    var dev := s.devices[d];
    var owed := dev.pending + dev.syncing;
    UniqueOwed(e, s, d);
    forall i, j | 0 <= i < |dev.pending| && 0 <= j < |dev.syncing|
      ensures dev.pending[i].vnode != dev.syncing[j].vnode
    {
      assert owed[i] == dev.pending[i] && owed[|dev.pending| + j] == dev.syncing[j];
    }
  }

  /** A device that is a source of a vnode has its sync pending or syncing. */
  lemma SourceOwes(e: Edition, s: State, d: nat, v: nat)
    requires Inv(e, s) && d < |s.devices| && v < |s.vnodes|
    ensures SourceAt(s, d, v) <==> EventFor(s.devices[d].pending, v) || EventFor(s.devices[d].syncing, v)
    ensures !(EventFor(s.devices[d].pending, v) && EventFor(s.devices[d].syncing, v))
  {
    var dev := s.devices[d];
    NotBoth(e, s, d);
    assert VnodeInv(e, s.devices, s.vnodes[v].replicas, v);
    if SourceAt(s, d, v) {
      var p :| p in Links(s.devices, v) && p.0 == d;
      assert p == (d, p.1);
      assert Event(v, p.1) in Owed(dev);
      assert Event(v, p.1) in dev.pending || Event(v, p.1) in dev.syncing;
    }
    forall ev | (ev in dev.pending || ev in dev.syncing) && ev.vnode == v
      ensures SourceAt(s, d, v)
    {
      assert ev in Owed(dev);
      OwedIsSound(e, s, d, ev);
    }
  }

  /** The node has every vnode it is syncing to others. */
  ghost predicate HasSyncing(s: State, d: nat, list: seq<StorageVnode>)
    requires d < |s.devices|
  {
    forall ev :: ev in s.devices[d].syncing ==> ev.vnode in Ids(list)
  }

  ghost predicate SameAsListed(s: State, d: nat, list: seq<StorageVnode>)
    requires d < |s.devices|
  {
    forall x :: x in Ids(list) <==> x in s.devices[d].listed
  }

  lemma MentionedIs(reply: seq<Reply>, x: int)
    ensures Mentioned(reply, x) <==> Affirmed(reply, x) || Offlined(reply, x)
  {
  }

  lemma ReportedAre(list: seq<StorageVnode>)
    ensures ReportedIds(ReportOf(list)) == Ids(list)
    ensures UniqueIds(list) ==> UniqueReports(ReportOf(list))
  {
    var reports := ReportOf(list);
    forall x
      ensures x in ReportedIds(reports) <==> x in Ids(list)
    {
      if x in ReportedIds(reports) {
        var i :| 0 <= i < |reports| && reports[i].id == x;
        assert list[i].id == x;
      }
      if x in Ids(list) {
        var i :| 0 <= i < |list| && list[i].id == x;
        assert reports[i].id == x;
      }
    }
  }

  /** The ids after the merge: the listed ones, save those being synced already that the node did not have. */
  lemma MergedIds(e: Edition, s: State, d: nat, list: seq<StorageVnode>, x: int)
    requires Inv(e, s) && Usual(s) && d < |s.devices| && UniqueIds(list)
    requires Heartbeat(s, d, ReportOf(list)).Ok?
    ensures var list' := MergeReply(list, Heartbeat(s, d, ReportOf(list)).value.1);
            && UniqueIds(list')
            && (x in Ids(list') <==> x in s.devices[d].listed && (x in Ids(list) || !EventFor(s.devices[d].syncing, x)))
  {
    var reply := Heartbeat(s, d, ReportOf(list)).value.1;
    InvOrderly(e, s, d);
    ReportedAre(list);
    HeartbeatAnswers(s, d, ReportOf(list));
    MergeReplyIds(list, reply);
    MentionedIs(reply, x);
    if x in s.devices[d].listed {
      assert Inv(e, s) && 0 <= x < |s.vnodes|;
      SourceOwes(e, s, d, x);
      assert !Offlined(reply, x);
    } else {
      assert !Affirmed(reply, x);
      assert !EventFor(s.devices[d].pending, x);
    }
  }

  /**
   One heartbeat after which the node's ids are the listed ones: exactly when the node had every vnode it was
   already syncing. No id is answered twice, and the orders it queues are the pending syncs in order.
   */
  lemma RoundTripConverges(e: Edition, n: nat, rc: int, s: State, d: nat, list: seq<StorageVnode>)
    requires Reached(e, n, rc, s) && d < |s.devices| && UniqueIds(list)
    requires Heartbeat(s, d, ReportOf(list)).Ok?
    ensures var (s', reply) := Heartbeat(s, d, ReportOf(list)).value;
            && UniqueReply(reply)
            && UniqueIds(MergeReply(list, reply))
            && Orders(reply) == OrdersOf(s.devices[d].pending)
            && d < |s'.devices|
            && (SameAsListed(s', d, MergeReply(list, reply)) <==> HasSyncing(s, d, list))
  {
    RunInv(e, n, rc, s);
    RunUsual(e, n, rc, s);
    BeatConverges(e, s, d, list);
  }

  /** The reply to a heartbeat, and what the heartbeat leaves alone. */
  lemma BeatReplies(e: Edition, s: State, d: nat, list: seq<StorageVnode>)
    requires Inv(e, s) && Usual(s) && d < |s.devices| && UniqueIds(list)
    requires Heartbeat(s, d, ReportOf(list)).Ok?
    ensures var (s', reply) := Heartbeat(s, d, ReportOf(list)).value;
            UniqueReply(reply) && Orders(reply) == OrdersOf(s.devices[d].pending) && SamePlaces(s, s')
  {
    HeartbeatKeeps(e, s, d, ReportOf(list));
    InvOrderly(e, s, d);
    ReportedAre(list);
    HeartbeatAnswers(s, d, ReportOf(list));
  }

  lemma MergedAsListed(e: Edition, s: State, d: nat, list: seq<StorageVnode>)
    requires Inv(e, s) && Usual(s) && d < |s.devices| && UniqueIds(list)
    requires Heartbeat(s, d, ReportOf(list)).Ok?
    ensures SameAsListed(s, d, MergeReply(list, Heartbeat(s, d, ReportOf(list)).value.1)) <==> HasSyncing(s, d, list)
  {
    var list' := MergeReply(list, Heartbeat(s, d, ReportOf(list)).value.1);
    if HasSyncing(s, d, list) {
      forall x
        ensures x in Ids(list') <==> x in s.devices[d].listed
      {
        MergedIds(e, s, d, list, x);
      }
    }
    if SameAsListed(s, d, list') {
      forall ev | ev in s.devices[d].syncing
        ensures ev.vnode in Ids(list)
      {
        MergedIds(e, s, d, list, ev.vnode);
        SyncingListed(e, s, d, ev);
      }
    }
  }

  lemma BeatConverges(e: Edition, s: State, d: nat, list: seq<StorageVnode>)
    requires Inv(e, s) && Usual(s) && d < |s.devices| && UniqueIds(list)
    requires Heartbeat(s, d, ReportOf(list)).Ok?
    ensures var (s', reply) := Heartbeat(s, d, ReportOf(list)).value;
            && UniqueReply(reply)
            && UniqueIds(MergeReply(list, reply))
            && Orders(reply) == OrdersOf(s.devices[d].pending)
            && SamePlaces(s, s')
            && (SameAsListed(s', d, MergeReply(list, reply)) <==> HasSyncing(s, d, list))
  {
    BeatReplies(e, s, d, list);
    MergedIds(e, s, d, list, 0);
    MergedAsListed(e, s, d, list);
  }

  lemma SyncingListed(e: Edition, s: State, d: nat, ev: Event)
    requires Inv(e, s) && d < |s.devices| && ev in s.devices[d].syncing
    ensures ev.vnode in s.devices[d].listed
  {
    InvOrderly(e, s, d);
    OwedList(s.devices[d]);
    OwedIsSound(e, s, d, ev);
  }

  // ---------------------------------------------------------------------------------------------
  // The master and its nodes together
  // ---------------------------------------------------------------------------------------------

  /** `nodes[d]` is what storage node `d` has. */
  datatype World = World(master: State, nodes: seq<seq<StorageVnode>>)

  /**
   What can happen: a new node joins, empty; a node heartbeats and merges the reply; a node says which syncs are
   done; a client asks the master for addresses; the data of a node's vnodes change; a peer's file check makes a
   node wait for a vnode's data, and add the vnode if it does not have it.
   */
  datatype Happening =
    | NodeJoins(zone: int, weight: int, rnd: nat -> nat)
    | NodeBeats(dev: nat)
    | NodeSynced(dev: nat, ids: seq<int>)
    | ClientAsks(message: Message)
    | DataChange(dev: nat, versions: int -> int)
    | PeerChecks(dev: nat, id: int, version: int)

  function Changed(list: seq<StorageVnode>, versions: int -> int): (list': seq<StorageVnode>)
    ensures |list'| == |list| && forall i :: 0 <= i < |list| ==> list'[i] == list[i].(version := versions(list[i].id))
  {
    seq(|list|, i requires 0 <= i < |list| => list[i].(version := versions(list[i].id)))
  }

  function Next(e: Edition, w: World, h: Happening): Outcome<World> {
    match h
    case NodeJoins(zone, weight, rnd) =>
      var s :- Join(e, w.master, zone, weight, rnd);
      Ok(World(s, w.nodes + [[]]))
    case NodeBeats(d) =>
      if d >= |w.master.devices| || d >= |w.nodes| then Ok(w)
      else
        var (s, reply) :- Heartbeat(w.master, d, ReportOf(w.nodes[d]));
        Ok(World(s, w.nodes[d := MergeReply(w.nodes[d], reply)]))
    case NodeSynced(d, ids) =>
      var s :- Handle(e, w.master, SyncDownMsg(d, ids));
      Ok(w.(master := s))
    case ClientAsks(m) =>
      if m.ReadMsg? || m.WriteMsg? then
        var s :- Handle(e, w.master, m);
        Ok(w.(master := s))
      else Ok(w)
    case DataChange(d, versions) =>
      Ok(if d < |w.nodes| then w.(nodes := w.nodes[d := Changed(w.nodes[d], versions)]) else w)
    case PeerChecks(d, id, version) =>
      Ok(if d < |w.nodes| then w.(nodes := w.nodes[d := Awaiting(w.nodes[d], id, version)]) else w)
  }

  function History(e: Edition, w: World, hs: seq<Happening>): Outcome<World>
    decreases |hs|
  {
    if hs == [] then Ok(w)
    else
      var w' :- Next(e, w, hs[0]);
      History(e, w', hs[1..])
  }

  /** The nodes know what they are syncing. */
  ghost predicate Joint(e: Edition, w: World) {
    && Inv(e, w.master) && Counted(w.master) && Usual(w.master)
    && |w.nodes| == |w.master.devices|
    && (forall d: nat :: d < |w.nodes| ==> UniqueIds(w.nodes[d]) && HasSyncing(w.master, d, w.nodes[d]))
  }

  /** No device's syncing list differs. */
  ghost predicate SameSyncing(s: State, s': State) {
    && |s'.devices| == |s.devices|
    && forall c: nat :: c < |s.devices| ==> s'.devices[c].syncing == s.devices[c].syncing
  }

  lemma ReportOneSyncing(b: Beat, d: nat, r: Report)
    requires ReportOne(b, d, r).Ok?
    ensures SameSyncing(b.s, ReportOne(b, d, r).value.s)
  {
  }

  lemma {:induction false} ReportAllSyncing(b: Beat, d: nat, reports: seq<Report>)
    requires ReportAll(b, d, reports).Ok?
    ensures SameSyncing(b.s, ReportAll(b, d, reports).value.s)
    decreases |reports|
  {
    if reports != [] {
      ReportOneSyncing(b, d, reports[0]);
      ReportAllSyncing(ReportOne(b, d, reports[0]).value, d, reports[1..]);
    }
  }

  lemma HeartbeatSyncing(s: State, d: nat, reports: seq<Report>)
    requires d < |s.devices| && Heartbeat(s, d, reports).Ok?
    ensures var s' := Heartbeat(s, d, reports).value.0;
            |s'.devices| == |s.devices| && forall c: nat :: c < |s.devices| && c != d ==>
                s'.devices[c].syncing == s.devices[c].syncing
  {
    DrainIs(s, d, []);
    var (s1, reply1) := Drain(s, d, []).value;
    ReportAllSyncing(Beat(s1, s.devices[d].listed, reply1), d, reports);
  }

  /** Syncing events only go. */
  ghost predicate FewerSyncing(s: State, s': State) {
    && |s'.devices| == |s.devices|
    && forall c: nat, ev :: c < |s.devices| && ev in s'.devices[c].syncing ==> ev in s.devices[c].syncing
  }

  lemma SyncDownOneFewer(e: Edition, s: State, d: nat, id: int)
    requires d < |s.devices| && SyncDownOne(e, s, d, id).Ok?
    ensures FewerSyncing(s, SyncDownOne(e, s, d, id).value)
  {
    var list := s.devices[d].syncing;
    var i := EventIndex(list, id);
    assert forall ev :: ev in RemoveAt(list, i) ==> ev in list;
  }

  lemma {:induction false} SyncDownFewer(e: Edition, s: State, d: nat, ids: seq<int>)
    requires d < |s.devices| && SyncDown(e, s, d, ids).Ok?
    ensures FewerSyncing(s, SyncDown(e, s, d, ids).value)
    decreases |ids|
  {
    if ids != [] {
      SyncDownOneFewer(e, s, d, ids[0]);
      SyncDownFewer(e, SyncDownOne(e, s, d, ids[0]).value, d, ids[1..]);
    }
  }

  lemma CopyOneSyncing(s: State, v: nat, nd: nat)
    requires v < |s.vnodes| && nd < |s.devices| && CopyOne(s, v, nd).Ok?
    ensures SameSyncing(s, CopyOne(s, v, nd).value) && |CopyOne(s, v, nd).value.vnodes| == |s.vnodes|
  {
  }

  ghost predicate SyncingOrFault(s: State, r: Outcome<State>) {
    r.Ok? ==> SameSyncing(s, r.value)
  }

  ghost predicate CopiedSyncing(e: Edition, s: State, nd: nat, x: State, v: nat) {
    Inv(e, x) && ListedBelow(x, nd, v) && SameSyncing(s, x)
  }

  lemma CopyStepSyncing(P: (State, nat) -> bool, e: Edition, s: State, nd: nat, x: State, v: nat)
    requires forall y, w :: P(y, w) <==> CopiedSyncing(e, s, nd, y, w)
    requires P(x, v)
    ensures CopyKeeps(P, x, v, nd)
  {
    if v < |x.vnodes| && nd < |x.devices| {
      CopyStep(e, x, v, nd);
      CopyOneSyncing(x, v, nd);
    }
  }

  lemma CopyFromSyncing(e: Edition, s: State, nd: nat)
    requires Inv(e, s) && nd < |s.devices| && s.devices[nd].listed == []
    ensures SyncingOrFault(s, CopyFrom(s, 0, nd))
  {
    var P := (x: State, v: nat) => CopiedSyncing(e, s, nd, x, v);
    forall x: State, v: nat | P(x, v)
      ensures CopyKeeps(P, x, v, nd)
    {
      CopyStepSyncing(P, e, s, nd, x, v);
    }
    assert P(s, 0);
    CopyInduction(P, s, 0, nd);
  }

  lemma MoveOneSyncing(e: Edition, s: State, donor: nat, v: nat, nd: nat)
    requires donor < |s.devices| && nd < |s.devices| && MoveOne(e, s, donor, v, nd).Ok?
    ensures SameSyncing(s, MoveOne(e, s, donor, v, nd).value.0)
  {
  }

  lemma MoveDonorsSyncing(e: Edition, s: State, nd: nat, avg: int, rnd: nat -> nat)
    requires nd < |s.devices|
    ensures SyncingOrFault(s, MoveDonors(e, s, 0, nd, avg, rnd, 0))
  {
    var P := x => SameSyncing(s, x);
    forall x: State, donor: nat, v: nat | P(x) && donor < |x.devices| && v in x.devices[donor].listed
      ensures MoveKeeps(P, false, e, x, donor, v, nd)
    {
      if donor < nd < |x.devices| && MoveOne(e, x, donor, v, nd).Ok? {
        MoveOneSyncing(e, x, donor, v, nd);
      }
    }
    MoveInduction(P, false, e, s, 0, nd, avg, rnd, 0);
  }

  lemma MoveJoinSyncing(e: Edition, s: State, zone: int, weight: int, rnd: nat -> nat)
    ensures SyncingOrFault(AddDevice(s, zone, weight), MoveJoin(e, s, zone, weight, rnd))
  {
    var s1 := AddDevice(s, zone, weight);
    var Q := r => SyncingOrFault(s1, r);
    forall avg: int
      ensures Q(MoveDonors(e, s1, 0, |s.devices|, avg, rnd, 0))
    {
      MoveDonorsSyncing(e, s1, |s.devices|, avg, rnd);
    }
    AnyAverage(Q, e, s, zone, weight, rnd);
  }

  lemma JoinSyncing(e: Edition, s: State, zone: int, weight: int, rnd: nat -> nat)
    requires Inv(e, s)
    ensures SyncingOrFault(AddDevice(s, zone, weight), Join(e, s, zone, weight, rnd))
  {
    if |s.devices| < s.replicaCount {
      AddDeviceKeeps(e, s, zone, weight);
      CopyFromSyncing(e, AddDevice(s, zone, weight), |s.devices|);
    } else {
      MoveJoinSyncing(e, s, zone, weight, rnd);
    }
  }

  lemma JoinsJointly(e: Edition, w: World, zone: int, weight: int, rnd: nat -> nat)
    requires Joint(e, w) && Next(e, w, NodeJoins(zone, weight, rnd)).Ok?
    ensures Joint(e, Next(e, w, NodeJoins(zone, weight, rnd)).value)
  {
    JoinSyncing(e, w.master, zone, weight, rnd);
    HandleKeeps(e, w.master, JoinMsg(zone, weight, rnd));
    HandleUsual(e, w.master, JoinMsg(zone, weight, rnd));
    var s1, w' := AddDevice(w.master, zone, weight), Next(e, w, NodeJoins(zone, weight, rnd)).value;
    forall d: nat | d < |w'.nodes|
      ensures UniqueIds(w'.nodes[d]) && HasSyncing(w'.master, d, w'.nodes[d])
    {
      assert w'.master.devices[d].syncing == s1.devices[d].syncing;
      if d < |w.nodes| {
        assert HasSyncing(w.master, d, w.nodes[d]);
      }
    }
  }

  lemma BeatsJointly(e: Edition, w: World, d: nat)
    requires Joint(e, w) && d < |w.nodes| && Next(e, w, NodeBeats(d)).Ok?
    ensures Joint(e, Next(e, w, NodeBeats(d)).value)
    ensures var w' := Next(e, w, NodeBeats(d)).value; d < |w'.nodes| && SameAsListed(w'.master, d, w'.nodes[d])
  {
    var list, w' := w.nodes[d], Next(e, w, NodeBeats(d)).value;
    assert UniqueIds(list) && HasSyncing(w.master, d, list);
    BeatConverges(e, w.master, d, list);
    HeartbeatSyncing(w.master, d, ReportOf(list));
    HandleKeeps(e, w.master, HeartbeatMsg(d, ReportOf(list)));
    HeartbeatUsual(w.master, d, ReportOf(list));
    forall ev | ev in w'.master.devices[d].syncing
      ensures ev.vnode in Ids(w'.nodes[d])
    {
      SyncingListed(e, w'.master, d, ev);
    }
    forall c: nat | c < |w'.nodes| && c != d
      ensures UniqueIds(w'.nodes[c]) && HasSyncing(w'.master, c, w'.nodes[c])
    {
      assert HasSyncing(w.master, c, w.nodes[c]);
    }
  }

  lemma SyncedJointly(e: Edition, w: World, d: nat, ids: seq<int>)
    requires Joint(e, w) && Next(e, w, NodeSynced(d, ids)).Ok?
    ensures Joint(e, Next(e, w, NodeSynced(d, ids)).value)
  {
    HandleKeeps(e, w.master, SyncDownMsg(d, ids));
    HandleUsual(e, w.master, SyncDownMsg(d, ids));
    if d < |w.master.devices| {
      SyncDownFewer(e, w.master, d, ids);
      var w' := Next(e, w, NodeSynced(d, ids)).value;
      forall c: nat | c < |w'.nodes|
        ensures HasSyncing(w'.master, c, w'.nodes[c])
      {
        assert HasSyncing(w.master, c, w.nodes[c]);
      }
    }
  }

  /** The node's ids only grow. */
  lemma NodeGrows(e: Edition, w: World, d: nat, list: seq<StorageVnode>)
    requires Joint(e, w) && d < |w.nodes| && UniqueIds(list) && Ids(w.nodes[d]) <= Ids(list)
    ensures Joint(e, w.(nodes := w.nodes[d := list]))
  {
    var w' := w.(nodes := w.nodes[d := list]);
    forall c: nat | c < |w'.nodes|
      ensures UniqueIds(w'.nodes[c]) && HasSyncing(w'.master, c, w'.nodes[c])
    {
      assert UniqueIds(w.nodes[c]) && HasSyncing(w.master, c, w.nodes[c]);
    }
  }

  lemma NextKeeps(e: Edition, w: World, h: Happening)
    requires Joint(e, w)
    ensures Next(e, w, h).Ok? ==> Joint(e, Next(e, w, h).value)
  {
    if Next(e, w, h).Ok? {
      match h
      case NodeJoins(zone, weight, rnd) => JoinsJointly(e, w, zone, weight, rnd);
      case NodeBeats(d) =>
        if d < |w.nodes| {
          BeatsJointly(e, w, d);
        }
      case NodeSynced(d, ids) => SyncedJointly(e, w, d, ids);
      case ClientAsks(m) =>
        if m.ReadMsg? || m.WriteMsg? {
          AsksJointly(e, w, m);
        }
      case DataChange(d, versions) =>
        if d < |w.nodes| {
          SameIds(w.nodes[d], Changed(w.nodes[d], versions));
          NodeGrows(e, w, d, Changed(w.nodes[d], versions));
        }
      case PeerChecks(d, id, version) =>
        if d < |w.nodes| {
          AwaitingIs(w.nodes[d], id, version);
          NodeGrows(e, w, d, Awaiting(w.nodes[d], id, version));
        }
    }
  }

  lemma AsksJointly(e: Edition, w: World, m: Message)
    requires Joint(e, w) && (m.ReadMsg? || m.WriteMsg?) && Next(e, w, ClientAsks(m)).Ok?
    ensures Joint(e, Next(e, w, ClientAsks(m)).value)
  {
    HandleKeeps(e, w.master, m);
    HandleUsual(e, w.master, m);
    var w' := Next(e, w, ClientAsks(m)).value;
    assert w'.master.devices == w.master.devices;
    forall d: nat | d < |w'.nodes|
      ensures UniqueIds(w'.nodes[d]) && HasSyncing(w'.master, d, w'.nodes[d])
    {
      assert HasSyncing(w.master, d, w.nodes[d]);
    }
  }

  lemma {:induction false} HistoryKeeps(e: Edition, w: World, hs: seq<Happening>)
    requires Joint(e, w)
    ensures History(e, w, hs).Ok? ==> Joint(e, History(e, w, hs).value)
    decreases |hs|
  {
    if hs != [] {
      NextKeeps(e, w, hs[0]);
      if Next(e, w, hs[0]).Ok? {
        HistoryKeeps(e, Next(e, w, hs[0]).value, hs[1..]);
      }
    }
  }

  /**
   However the master and its nodes got where they are: a heartbeat makes the node's ids unique and equal to what
   the master lists for it.
   */
  lemma HeartbeatConverges(e: Edition, n: nat, rc: int, hs: seq<Happening>, d: nat)
    requires History(e, World(Boot(n, rc), []), hs).Ok?
    requires var w := History(e, World(Boot(n, rc), []), hs).value; d < |w.nodes| && Next(e, w, NodeBeats(d)).Ok?
    ensures var w' := Next(e, History(e, World(Boot(n, rc), []), hs).value, NodeBeats(d)).value;
            && d < |w'.nodes| && d < |w'.master.devices|
            && UniqueIds(w'.nodes[d]) && SameAsListed(w'.master, d, w'.nodes[d])
  {
    BootInv(e, n, rc);
    HistoryKeeps(e, World(Boot(n, rc), []), hs);
    BeatsJointly(e, History(e, World(Boot(n, rc), []), hs).value, d);
  }

  /** With finished moves erased, that heartbeat never faults. */
  lemma HeartbeatSucceeds(e: Edition, n: nat, rc: int, hs: seq<Happening>, d: nat)
    requires Exact(e) && History(e, World(Boot(n, rc), []), hs).Ok?
    ensures Next(e, History(e, World(Boot(n, rc), []), hs).value, NodeBeats(d)).Ok?
  {
    BootInv(e, n, rc);
    HistoryKeeps(e, World(Boot(n, rc), []), hs);
    var w := History(e, World(Boot(n, rc), []), hs).value;
    if d < |w.nodes| {
      HeartbeatKeeps(e, w.master, d, ReportOf(w.nodes[d]));
      ListedIsPlaced(e, w.master, d);
    }
  }
}
