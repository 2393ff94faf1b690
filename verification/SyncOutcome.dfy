/**
 What a whole sync-down does to each vnode and to the lists of the device, in terms of the state before it.
 */
module SyncOutcome {
  import opened ProxyTypes
  import opened NodeInfo
  import opened NodeObjects
  import opened Protocol
  import opened Invariant
  import opened Steps
  import opened HeartbeatSteps
  import opened SyncDownSteps
  import opened JoinLoops
  import opened Counting
  import opened Runs
  import opened Guarantees

  /** The list without some of its entries, in order. */
  function Without(list: seq<nat>, gone: set<nat>): seq<nat> {
    if list == [] then []
    else if list[0] in gone then Without(list[1..], gone)
    else [list[0]] + Without(list[1..], gone)
  }

  function WithoutFor(events: seq<Event>, done: set<nat>): seq<Event> {
    if events == [] then []
    else if events[0].vnode in done then WithoutFor(events[1..], done)
    else [events[0]] + WithoutFor(events[1..], done)
  }

  lemma {:induction false} WithoutNone(list: seq<nat>, gone: set<nat>)
    requires forall v :: v in list ==> v !in gone
    ensures Without(list, gone) == list
  {
    if list != [] {
      assert list == [list[0]] + list[1..];
      WithoutNone(list[1..], gone);
    }
  }

  lemma {:induction false} WithoutTwice(list: seq<nat>, gone: set<nat>, more: set<nat>)
    ensures Without(Without(list, gone), more) == Without(list, gone + more)
  {
    if list != [] {
      WithoutTwice(list[1..], gone, more);
      if list[0] !in gone {
        assert Without(list, gone)[1..] == Without(list[1..], gone);
      }
    }
  }

  lemma {:induction false} WithoutBoth(a: seq<nat>, b: seq<nat>, gone: set<nat>)
    ensures Without(a + b, gone) == Without(a, gone) + Without(b, gone)
  {
    if a == [] {
      assert a + b == b;
    } else {
      assert (a + b)[0] == a[0] && (a + b)[1..] == a[1..] + b;
      WithoutBoth(a[1..], b, gone);
    }
  }

  lemma WithoutMiddle(a: seq<nat>, x: nat, b: seq<nat>)
    requires x !in a && x !in b
    ensures Without(a + [x] + b, {x}) == a + b
  {
    var mid := a + [x];
    assert Without(mid, {x}) == a by {
      WithoutNone(a, {x});
      WithoutBoth(a, [x], {x});
      assert Without([x], {x}) == [];
    }
    WithoutNone(b, {x});
    WithoutBoth(mid, b, {x});
  }

  lemma WithoutOne(list: seq<nat>, i: nat)
    requires NoDuplicates(list) && i < |list|
    ensures Without(list, {list[i]}) == RemoveAt(list, i)
  {
    assert list == list[..i] + [list[i]] + list[i + 1..];
    WithoutMiddle(list[..i], list[i], list[i + 1..]);
  }

  lemma {:induction false} WithoutForNone(events: seq<Event>, done: set<nat>)
    requires forall e :: e in events ==> e.vnode !in done
    ensures WithoutFor(events, done) == events
  {
    if events != [] {
      assert events == [events[0]] + events[1..];
      WithoutForNone(events[1..], done);
    }
  }

  lemma {:induction false} WithoutForTwice(events: seq<Event>, done: set<nat>, more: set<nat>)
    ensures WithoutFor(WithoutFor(events, done), more) == WithoutFor(events, done + more)
  {
    if events != [] {
      WithoutForTwice(events[1..], done, more);
      if events[0].vnode !in done {
        assert WithoutFor(events, done)[1..] == WithoutFor(events[1..], done);
      }
    }
  }

  lemma {:induction false} WithoutForBoth(a: seq<Event>, b: seq<Event>, done: set<nat>)
    ensures WithoutFor(a + b, done) == WithoutFor(a, done) + WithoutFor(b, done)
  {
    if a == [] {
      assert a + b == b;
    } else {
      assert (a + b)[0] == a[0] && (a + b)[1..] == a[1..] + b;
      WithoutForBoth(a[1..], b, done);
    }
  }

  lemma WithoutForMiddle(a: seq<Event>, x: Event, b: seq<Event>)
    requires forall e :: e in a || e in b ==> e.vnode != x.vnode
    ensures WithoutFor(a + [x] + b, {x.vnode}) == a + b
  {
    var mid := a + [x];
    assert WithoutFor(mid, {x.vnode}) == a by {
      WithoutForNone(a, {x.vnode});
      WithoutForBoth(a, [x], {x.vnode});
      assert WithoutFor([x], {x.vnode}) == [];
    }
    WithoutForNone(b, {x.vnode});
    WithoutForBoth(mid, b, {x.vnode});
  }

  lemma WithoutForOne(events: seq<Event>, i: nat)
    requires forall j, k :: 0 <= j < k < |events| ==> events[j].vnode != events[k].vnode
    requires i < |events|
    ensures WithoutFor(events, {events[i].vnode}) == RemoveAt(events, i)
  {
    assert events == events[..i] + [events[i]] + events[i + 1..];
    WithoutForMiddle(events[..i], events[i], events[i + 1..]);
  }

  // ---------------------------------------------------------------------------------------------
  // One id
  // ---------------------------------------------------------------------------------------------

  ghost predicate EndsIn(s: State, d: nat, v: nat, vn': Vnode)
    requires d < |s.devices|
  {
    && v < |s.vnodes|
    && vn' == s.vnodes[v].(replicas := vn'.replicas)
    && exists ev :: ev in s.devices[d].syncing && ev.vnode == v
         && EndedStatuses(s.vnodes[v].replicas, vn'.replicas, d, ev.dest)
  }

  /** Of these vnodes, those that the device must no longer list. */
  ghost function Gone(e: Edition, s: State, d: nat, done: set<nat>): set<nat> {
    set v | v in done && e.erasesMoved && v < |s.vnodes| && StatusOf(s.vnodes[v].replicas, d) == Some(MoveSrc)
  }

  /**
   The syncs of the vnodes in `done` are over: the destination is ACTIVE, and the device too unless its replica moved
   away. Their events, and no others, left the syncing list. With `erasesMoved` the device lists what it did, save the
   vnodes that moved away.
   */
  ghost predicate Synced(e: Edition, s: State, d: nat, done: set<nat>, s': State) {
    && d < |s.devices| && |s'.devices| == |s.devices| && |s'.vnodes| == |s.vnodes|
    && s'.accepted == s.accepted && s'.replicaCount == s.replicaCount
    && (forall v: nat :: v < |s.vnodes| ==>
          if v in done then EndsIn(s, d, v, s'.vnodes[v]) else s'.vnodes[v] == s.vnodes[v])
    && s'.devices == s.devices[d := DeviceAfter(e, s, d, done)]
  }

  lemma ListedWithout(list: seq<nat>, v: nat, gone: set<nat>)
    requires NoDuplicates(list) && gone <= {v}
    ensures Without(list, gone) ==
            if gone == {} || IndexOf(list, v) == |list| then list else RemoveAt(list, IndexOf(list, v))
  {
    if v in gone && IndexOf(list, v) < |list| {
      assert gone == {v};
      WithoutOne(list, IndexOf(list, v));
    } else {
      WithoutNone(list, gone);
    }
  }

  ghost function DeviceAfter(e: Edition, s: State, d: nat, done: set<nat>): Device
    requires d < |s.devices|
  {
    var dev := s.devices[d];
    dev.(syncing := WithoutFor(dev.syncing, done), listed := Without(dev.listed, Gone(e, s, d, done)))
  }

  lemma EndedDeviceAfter(e: Edition, s: State, d: nat, v: nat, i: nat)
    requires d < |s.devices| && i < |s.devices[d].syncing| && v < |s.vnodes| && s.devices[d].syncing[i].vnode == v
    requires NoDuplicates(s.devices[d].listed)
    requires forall j, k :: 0 <= j < k < |s.devices[d].syncing| ==>
               s.devices[d].syncing[j].vnode != s.devices[d].syncing[k].vnode
    ensures EndedDevices(e, s, d, v, i, StatusOf(s.vnodes[v].replicas, d) == Some(MoveSrc)) ==
            s.devices[d := DeviceAfter(e, s, d, {v})]
  {
    WithoutForOne(s.devices[d].syncing, i);
    var gone := Gone(e, s, d, {v});
    assert gone == if e.erasesMoved && StatusOf(s.vnodes[v].replicas, d) == Some(MoveSrc) then {v} else {};
    ListedWithout(s.devices[d].listed, v, gone);
  }

  lemma OneDeviceAfter(e: Edition, s: State, d: nat, id: int)
    requires Inv(e, s) && d < |s.devices| && SyncDownOne(e, s, d, id).Ok?
    ensures 0 <= id < |s.vnodes|
    ensures SyncDownOne(e, s, d, id).value.devices == s.devices[d := DeviceAfter(e, s, d, {id})]
  {
    var i := EventIndex(s.devices[d].syncing, id);
    SyncDownOneIs(e, s, d, id);
    SyncingIs(e, s, d, id);
    ListedOnce(e, s, d);
    UniqueSyncing(e, s, d);
    EndedDeviceAfter(e, s, d, id, i);
    EndedStateIs(e, s, d, id, s.devices[d].syncing[i].dest, i);
  }

  lemma EndedRest(e: Edition, s: State, d: nat, v: nat, dst: nat, i: nat)
    requires d < |s.devices| && i < |s.devices[d].syncing| && v < |s.vnodes|
    requires Find(s.vnodes[v].replicas, d) < |s.vnodes[v].replicas|
             && Find(s.vnodes[v].replicas, dst) < |s.vnodes[v].replicas|
    ensures EndedState(e, s, d, v, dst, i) ==
            s.(devices := EndedState(e, s, d, v, dst, i).devices,
               vnodes := s.vnodes[v := s.vnodes[v].(replicas := Ended(s.vnodes[v].replicas, d, dst))])
  {
  }

  lemma OneVnodeAfter(e: Edition, s: State, d: nat, id: int)
    requires Inv(e, s) && d < |s.devices| && SyncDownOne(e, s, d, id).Ok?
    ensures 0 <= id < |s.vnodes|
    ensures var s' := SyncDownOne(e, s, d, id).value;
            && |s'.vnodes| == |s.vnodes| && EndsIn(s, d, id, s'.vnodes[id])
            && s' == s.(devices := s'.devices, vnodes := s.vnodes[id := s'.vnodes[id]])
  {
    SyncDownOneIs(e, s, d, id);
    SyncingIs(e, s, d, id);
    var i := EventIndex(s.devices[d].syncing, id);
    var ev := s.devices[d].syncing[i];
    var rs := s.vnodes[id].replicas;
    assert VnodeInv(e, s.devices, rs, id);
    EndedReplicas(rs, d, ev.dest);
    assert ev in s.devices[d].syncing;
    EndedRest(e, s, d, id, ev.dest, i);
  }

  lemma SyncedFrom(e: Edition, s: State, d: nat, v: nat, s': State)
    requires d < |s.devices| && v < |s.vnodes| == |s'.vnodes| && EndsIn(s, d, v, s'.vnodes[v])
    requires s' == s.(devices := s'.devices, vnodes := s.vnodes[v := s'.vnodes[v]])
    requires s'.devices == s.devices[d := DeviceAfter(e, s, d, {v})]
    ensures Synced(e, s, d, {v}, s')
  {
  }

  lemma SyncedOne(e: Edition, s: State, d: nat, id: int)
    requires Inv(e, s) && d < |s.devices| && SyncDownOne(e, s, d, id).Ok?
    ensures 0 <= id && Synced(e, s, d, {id}, SyncDownOne(e, s, d, id).value)
  {
    OneDeviceAfter(e, s, d, id);
    OneVnodeAfter(e, s, d, id);
    SyncedFrom(e, s, d, id, SyncDownOne(e, s, d, id).value);
  }

  // ---------------------------------------------------------------------------------------------
  // All ids
  // ---------------------------------------------------------------------------------------------

  lemma {:induction false} StillThere(events: seq<Event>, done: set<nat>, ev: Event)
    ensures ev in WithoutFor(events, done) <==> ev in events && ev.vnode !in done
  {
    if events != [] {
      StillThere(events[1..], done, ev);
      assert events == [events[0]] + events[1..];
    }
  }

  lemma DeviceThen(e: Edition, s: State, d: nat, done: set<nat>, s1: State, v: nat)
    requires Synced(e, s, d, done, s1) && v < |s.vnodes| && v !in done
    ensures DeviceAfter(e, s1, d, {v}) == DeviceAfter(e, s, d, done + {v})
  {
    var dev := s.devices[d];
    WithoutForTwice(dev.syncing, done, {v});
    WithoutTwice(dev.listed, Gone(e, s, d, done), Gone(e, s1, d, {v}));
    assert s1.vnodes[v] == s.vnodes[v];
    assert Gone(e, s, d, done) + Gone(e, s1, d, {v}) == Gone(e, s, d, done + {v});
  }

  lemma SyncedThen(e: Edition, s: State, d: nat, done: set<nat>, s1: State, v: nat, s2: State)
    requires Synced(e, s, d, done, s1) && v < |s.vnodes| && v !in done && Synced(e, s1, d, {v}, s2)
    ensures Synced(e, s, d, done + {v}, s2)
  {
    DeviceThen(e, s, d, done, s1, v);
    forall w: nat | w < |s.vnodes|
      ensures if w in done + {v} then EndsIn(s, d, w, s2.vnodes[w]) else s2.vnodes[w] == s.vnodes[w]
    {
      if w == v {
        var ev :| ev in s1.devices[d].syncing && ev.vnode == v
          && EndedStatuses(s1.vnodes[v].replicas, s2.vnodes[v].replicas, d, ev.dest);
        StillThere(s.devices[d].syncing, done, ev);
      }
    }
  }

  /** The ids as vnode numbers. */
  ghost function Vnodes(ids: seq<int>): set<nat> {
    set v: nat | v in ids
  }

  lemma FirstSyncDown(e: Edition, s: State, d: nat, ids: seq<int>)
    requires d < |s.devices| && ids != [] && SyncDown(e, s, d, ids).Ok?
    ensures SyncDownOne(e, s, d, ids[0]).Ok? && d < |SyncDownOne(e, s, d, ids[0]).value.devices|
    ensures SyncDown(e, s, d, ids) == SyncDown(e, SyncDownOne(e, s, d, ids[0]).value, d, ids[1..])
  {
    SyncDownOneSizes(e, s, d, ids[0]);
  }

  lemma SyncedMore(e: Edition, s: State, d: nat, done: set<nat>, s1: State, v: nat)
    requires Inv(e, s1) && Synced(e, s, d, done, s1) && SyncDownOne(e, s1, d, v).Ok? && v !in done
    ensures Inv(e, SyncDownOne(e, s1, d, v).value) && Synced(e, s, d, done + {v}, SyncDownOne(e, s1, d, v).value)
  {
    SyncedOne(e, s1, d, v);
    SyncDownOneIs(e, s1, d, v);
    SyncDownOneKeeps(e, s1, d, v);
    OneVnodeAfter(e, s1, d, v);
    SyncedThen(e, s, d, done, s1, v, SyncDownOne(e, s1, d, v).value);
  }

  lemma VnodesRest(ids: seq<int>, done: set<nat>)
    requires ids != [] && ids[0] >= 0
    ensures done + {ids[0]} + Vnodes(ids[1..]) == done + Vnodes(ids)
  {
  }

  /** Different vnodes, none of them in `done`. */
  ghost predicate ToDo(ids: seq<int>, done: set<nat>) {
    && (forall i :: 0 <= i < |ids| ==> ids[i] >= 0 && ids[i] !in done)
    && (forall i, j :: 0 <= i < j < |ids| ==> ids[i] != ids[j])
  }

  /** `P(done, x)` is what holds when the vnodes in `done` are dealt with. */
  ghost predicate SyncKeeps(P: (set<nat>, State) -> bool, e: Edition, d: nat, done: set<nat>, x: State, v: nat) {
    d < |x.devices| && v !in done && SyncDownOne(e, x, d, v).Ok? ==> P(done + {v}, SyncDownOne(e, x, d, v).value)
  }

  ghost predicate EverySyncKeeps(P: (set<nat>, State) -> bool, e: Edition, d: nat) {
    forall done: set<nat>, x: State, v: nat :: P(done, x) ==> SyncKeeps(P, e, d, done, x, v)
  }

  lemma {:induction false} SyncInduction(P: (set<nat>, State) -> bool, e: Edition, d: nat, done: set<nat>, x: State,
                                         ids: seq<int>)
    requires EverySyncKeeps(P, e, d) && P(done, x) && ToDo(ids, done)
    requires d < |x.devices| && SyncDown(e, x, d, ids).Ok?
    ensures P(done + Vnodes(ids), SyncDown(e, x, d, ids).value)
    decreases |ids|
  {
    if ids == [] {
      assert done + Vnodes(ids) == done;
    } else {
      var v: nat := ids[0];
      FirstSyncDown(e, x, d, ids);
      assert SyncKeeps(P, e, d, done, x, v);
      SyncInduction(P, e, d, done + {v}, SyncDownOne(e, x, d, v).value, ids[1..]);
      VnodesRest(ids, done);
    }
  }

  ghost predicate SyncedSoundly(e: Edition, s: State, d: nat, done: set<nat>, x: State) {
    Inv(e, x) && Synced(e, s, d, done, x)
  }

  lemma SyncedKept(e: Edition, s: State, d: nat, done: set<nat>, x: State, v: nat)
    requires SyncedSoundly(e, s, d, done, x) && v !in done && SyncDownOne(e, x, d, v).Ok?
    ensures SyncedSoundly(e, s, d, done + {v}, SyncDownOne(e, x, d, v).value)
  {
    SyncedMore(e, s, d, done, x, v);
  }

  lemma AllSynced(e: Edition, s: State, d: nat, ids: seq<int>)
    requires Inv(e, s) && d < |s.devices| && SyncDown(e, s, d, ids).Ok? && ToDo(ids, {})
    ensures Synced(e, s, d, Vnodes(ids), SyncDown(e, s, d, ids).value)
  {
    var P := (done: set<nat>, x: State) => SyncedSoundly(e, s, d, done, x);
    forall done: set<nat>, x: State, v: nat | P(done, x)
      ensures SyncKeeps(P, e, d, done, x, v)
    {
      if v !in done && SyncDownOne(e, x, d, v).Ok? {
        SyncedKept(e, s, d, done, x, v);
      }
    }
    SyncedNone(e, s, d);
    assert P({}, s);
    SyncInduction(P, e, d, {}, s, ids);
    assert {} + Vnodes(ids) == Vnodes(ids);
  }

  lemma SyncedNone(e: Edition, s: State, d: nat)
    requires d < |s.devices|
    ensures Synced(e, s, d, {}, s)
  {
    WithoutForNone(s.devices[d].syncing, {});
    WithoutNone(s.devices[d].listed, Gone(e, s, d, {}));
    assert Gone(e, s, d, {}) == {};
  }

  /** A sync-down in any run: what becomes of every vnode, and which events and vnodes leave the lists of the device. */
  lemma SyncDownOutcome(e: Edition, n: nat, rc: int, s: State, d: nat, ids: seq<int>)
    requires Reached(e, n, rc, s) && d < |s.devices| && SyncDown(e, s, d, ids).Ok?
    ensures Synced(e, s, d, Vnodes(ids), SyncDown(e, s, d, ids).value)
  {
    RunInv(e, n, rc, s);
    SyncDownKeeps(e, s, d, ids);
    forall i | 0 <= i < |ids|
      ensures ids[i] >= 0
    {
      assert Syncing(s, d, ids[i]);
    }
    AllSynced(e, s, d, ids);
  }
}
