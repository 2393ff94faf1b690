/**
 The whole heartbeat under the invariant: when it faults, and what it keeps.
 */
module HeartbeatSteps {
  import opened ProxyTypes
  import opened NodeInfo
  import opened NodeObjects
  import opened Protocol
  import opened Invariant
  import opened Steps

  lemma {:induction false} DrainKeeps(e: Edition, s: State, d: nat, reply: seq<Reply>)
    requires Inv(e, s) && d < |s.devices|
    ensures Drain(s, d, reply).Ok?
    ensures var s' := Drain(s, d, reply).value.0;
            && Inv(e, s') && s'.vnodes == s.vnodes && |s'.devices| == |s.devices| && s'.replicaCount == s.replicaCount
            && s'.accepted == s.accepted
            && (forall c: nat :: c < |s.devices| ==> s'.devices[c].listed == s.devices[c].listed)
    decreases |s.devices[d].pending|
  {
    if s.devices[d].pending != [] {
      DrainOneKeeps(e, s, d);
      var (s', unit) := DrainOne(s, d).value;
      DrainKeeps(e, s', d, reply + [unit]);
    }
  }

  lemma SameTransitive(s: State, s': State, s'': State)
    requires SamePlaces(s, s') && SamePlaces(s', s'')
    ensures SamePlaces(s, s'')
  {
    forall v: nat | v < |s.vnodes|
      ensures SameDevs(s.vnodes[v].replicas, s''.vnodes[v].replicas)
    {
      assert SameDevs(s.vnodes[v].replicas, s'.vnodes[v].replicas);
      assert SameDevs(s'.vnodes[v].replicas, s''.vnodes[v].replicas);
    }
  }

  lemma RestPlaced(s: State, d: nat, list: seq<nat>, i: nat)
    requires i < |list|
    ensures AllPlaced(s, d, list) <==> AllPlaced(s, d, [list[i]]) && AllPlaced(s, d, RemoveAt(list, i))
  {
    var rest := RemoveAt(list, i);
    assert list[i] in list && list[i] in [list[i]];
    forall v
      ensures v in list <==> v == list[i] || v in rest
    {
      if v in list && v != list[i] {
        var k :| 0 <= k < |list| && list[k] == v;
        assert rest[if k < i then k else k - 1] == v;
      }
    }
  }

  lemma ReportOneTodo(b: Beat, d: nat, r: Report)
    requires ReportOne(b, d, r).Ok?
    ensures var j := IndexOf(b.todo, r.id);
            ReportOne(b, d, r).value.todo == if j < |b.todo| then RemoveAt(b.todo, j) else b.todo
  {
  }

  lemma ReportOneAll(e: Edition, b: Beat, d: nat, r: Report)
    requires Inv(e, b.s)
    ensures AllPlaced(b.s, d, b.todo) ==> ReportOne(b, d, r).Ok?
    ensures ReportOne(b, d, r).Ok? ==>
              var b' := ReportOne(b, d, r).value;
              && Inv(e, b'.s) && SamePlaces(b.s, b'.s)
              && (AllPlaced(b'.s, d, b'.todo) <==> AllPlaced(b.s, d, b.todo))
  {
    var j := IndexOf(b.todo, r.id);
    if j < |b.todo| {
      ReportOneFaults(e, b, d, r);
      RestPlaced(b.s, d, b.todo, j);
    }
    if ReportOne(b, d, r).Ok? {
      ReportOneKeeps(e, b, d, r);
      ReportOneTodo(b, d, r);
      PlacedStays(b.s, ReportOne(b, d, r).value.s, d, ReportOne(b, d, r).value.todo);
    }
  }

  lemma {:induction false} ReportAllKeeps(e: Edition, b: Beat, d: nat, reports: seq<Report>)
    requires Inv(e, b.s)
    ensures AllPlaced(b.s, d, b.todo) ==> ReportAll(b, d, reports).Ok?
    ensures ReportAll(b, d, reports).Ok? ==>
              var b' := ReportAll(b, d, reports).value;
              && Inv(e, b'.s) && SamePlaces(b.s, b'.s)
              && (AllPlaced(b'.s, d, b'.todo) <==> AllPlaced(b.s, d, b.todo))
    decreases |reports|
  {
    if reports != [] {
      ReportOneAll(e, b, d, reports[0]);
      var r := ReportOne(b, d, reports[0]);
      if r.Ok? {
        ReportAllKeeps(e, r.value, d, reports[1..]);
        if ReportAll(r.value, d, reports[1..]).Ok? {
          SameTransitive(b.s, r.value.s, ReportAll(r.value, d, reports[1..]).value.s);
        }
      }
    }
  }

  lemma {:induction false} UnreportedFaults(s: State, d: nat, todo: seq<nat>, reply: seq<Reply>)
    ensures Unreported(s, d, todo, reply).Ok? <==> AllPlaced(s, d, todo)
  {
    if todo != [] {
      RestPlaced(s, d, todo, 0);
      assert RemoveAt(todo, 0) == todo[1..];
      var v := todo[0];
      if AllPlaced(s, d, [v]) {
        assert v in [v];
        var st := StatusOf(s.vnodes[v].replicas, d).value;
        UnreportedFaults(s, d, todo[1..], if IsSource(st) then reply else reply + [Reply(v, st, None)]);
      }
    }
  }

  /** A heartbeat faults exactly when the device's vnode_list names a vnode that has no replica there. */
  lemma HeartbeatKeeps(e: Edition, s: State, d: nat, reports: seq<Report>)
    requires Inv(e, s) && d < |s.devices|
    ensures Heartbeat(s, d, reports).Ok? <==> AllPlaced(s, d, s.devices[d].listed)
    ensures Heartbeat(s, d, reports).Ok? ==>
              var s' := Heartbeat(s, d, reports).value.0; Inv(e, s') && SamePlaces(s, s')
  {
    DrainKeeps(e, s, d, []);
    var (s1, reply1) := Drain(s, d, []).value;
    assert SamePlaces(s, s1);
    PlacedStays(s, s1, d, s.devices[d].listed);
    var b := Beat(s1, s.devices[d].listed, reply1);
    ReportAllKeeps(e, b, d, reports);
    if ReportAll(b, d, reports).Ok? {
      var b' := ReportAll(b, d, reports).value;
      UnreportedFaults(b'.s, d, b'.todo, b'.reply);
      SameTransitive(s, s1, b'.s);
    }
  }

  /** In the exact editions no heartbeat faults. */
  lemma ListedIsPlaced(e: Edition, s: State, d: nat)
    requires Inv(e, s) && Exact(e) && d < |s.devices|
    ensures AllPlaced(s, d, s.devices[d].listed)
  {
    forall v | v in s.devices[d].listed
      ensures v < |s.vnodes| && StatusOf(s.vnodes[v].replicas, d).Some?
    {
      assert VnodeInv(e, s.devices, s.vnodes[v].replicas, v);
      assert multiset(s.devices[d].listed)[v] > 0;
    }
  }

  lemma ListedOnce(e: Edition, s: State, d: nat)
    requires Inv(e, s) && d < |s.devices|
    ensures NoDuplicates(s.devices[d].listed)
  {
    var list := s.devices[d].listed;
    forall i, j | 0 <= i < j < |list|
      ensures list[i] != list[j]
    {
      assert list[i] in list;
      assert VnodeInv(e, s.devices, s.vnodes[list[i]].replicas, list[i]);
      assert list == list[..j] + [list[j]] + list[j + 1..];
      assert list[..j][i] == list[i];
      assert multiset(list)[list[j]] == multiset(list[..j])[list[j]] + 1 + multiset(list[j + 1..])[list[j]];
    }
  }
}
