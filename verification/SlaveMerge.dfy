/**
 A slave proxy's merge of a device's report: the report is taken as the truth about what the device holds.
 */
module SlaveMerge {
  import opened ProxyTypes
  import opened NodeInfo
  import opened NodeObjects
  import opened Protocol

  /** `todo` is what is left of the copy of the device's vnode_list. */
  datatype Merging = Merging(s: State, todo: seq<nat>)

  function Retold(s: State, v: nat, version: int, rs: seq<Replica>): State
    requires v < |s.vnodes|
  {
    s.(vnodes := s.vnodes[v := s.vnodes[v].(version := version, replicas := rs)])
  }

  function TakeOne(m: Merging, d: nat, t: Report): Outcome<Merging>
    requires d < |m.s.devices|
  {
    if t.id < 0 || t.id >= |m.s.vnodes| then Fault
    else
      var rs := m.s.vnodes[t.id].replicas;
      var j := IndexOf(m.todo, t.id);
      if j == |m.todo| then
        Ok(Merging(PushListed(Retold(m.s, t.id, t.version, rs + [Replica(t.status, d)]), d, t.id), m.todo))
      else if Find(rs, d) == |rs| then Fault
      else Ok(Merging(Retold(m.s, t.id, t.version, SetStatus(rs, d, t.status)), RemoveAt(m.todo, j)))
  }

  function TakeAll(s: State, d: nat, told: seq<Report>): (r: Outcome<Merging>)
    requires d < |s.devices|
    ensures r.Ok? ==> |r.value.s.devices| == |s.devices|
    decreases |told|
  {
    if told == [] then Ok(Merging(s, s.devices[d].listed))
    else
      var m :- TakeAll(s, d, told[..|told| - 1]);
      TakeOne(m, d, told[|told| - 1])
  }

  /** With `erases`, a dropped vnode also leaves the device's vnode_list; the source omits that. */
  function DropOne(erases: bool, s: State, d: nat, v: nat): Outcome<State>
    requires d < |s.devices|
  {
    if v >= |s.vnodes| then Fault
    else
      var s' := WithReplicas(s, v, Destroy(s.vnodes[v].replicas, d));
      Ok(if erases then EraseListed(s', d, v) else s')
  }

  function DropAll(erases: bool, s: State, d: nat, todo: seq<nat>): (r: Outcome<State>)
    requires d < |s.devices|
    ensures r.Ok? ==> |r.value.devices| == |s.devices|
    decreases |todo|
  {
    if todo == [] then Ok(s)
    else
      var s' :- DropAll(erases, s, d, todo[..|todo| - 1]);
      DropOne(erases, s', d, todo[|todo| - 1])
  }

  function SlaveBeat(erases: bool, s: State, d: nat, told: seq<Report>): Outcome<State>
    requires d < |s.devices|
  {
    var m :- TakeAll(s, d, told);
    DropAll(erases, m.s, d, m.todo)
  }

  // ---------------------------------------------------------------------------------------------
  // Index
  // ---------------------------------------------------------------------------------------------

  /** The device lists every vnode with a replica there, once. */
  ghost predicate Listing(s: State, d: nat)
    requires d < |s.devices|
  {
    && NoDuplicates(s.devices[d].listed)
    && (forall v :: v in s.devices[d].listed ==> v < |s.vnodes|)
    && (forall v: nat :: v < |s.vnodes| ==> Distinct(s.vnodes[v].replicas))
    && (forall v: nat :: v < |s.vnodes| && StatusOf(s.vnodes[v].replicas, d).Some? ==> v in s.devices[d].listed)
  }

  /** It lists nothing else either: the index is correct. */
  ghost predicate Indexed(s: State, d: nat)
    requires d < |s.devices|
  {
    Listing(s, d) && forall v :: v in s.devices[d].listed && v < |s.vnodes| ==> StatusOf(s.vnodes[v].replicas, d).Some?
  }

  ghost predicate UniqueTold(told: seq<Report>) {
    forall i, j :: 0 <= i < j < |told| ==> told[i].id != told[j].id
  }

  ghost predicate Tells(told: seq<Report>, id: int) {
    exists t :: t in told && t.id == id
  }

  /** The report names a vnode, and not one that is listed without a replica. */
  ghost predicate Sound(s: State, d: nat, t: Report)
    requires d < |s.devices|
  {
    0 <= t.id < |s.vnodes| && (t.id in s.devices[d].listed ==> StatusOf(s.vnodes[t.id].replicas, d).Some?)
  }

  /** Other devices and their replicas are as they were, and so are the cursors; of `d` only its vnode_list differs. */
  ghost predicate OthersSame(s: State, s': State, d: nat) {
    && |s'.devices| == |s.devices| && |s'.vnodes| == |s.vnodes|
    && s' == s.(devices := s'.devices, vnodes := s'.vnodes)
    && (forall c: nat :: c < |s.devices| && c != d ==> s'.devices[c] == s.devices[c])
    && (d < |s.devices| ==> s'.devices[d] == s.devices[d].(listed := s'.devices[d].listed))
    && (forall v: nat :: v < |s.vnodes| ==> s'.vnodes[v].rd == s.vnodes[v].rd && s'.vnodes[v].wr == s.vnodes[v].wr)
    && (forall v: nat, c: nat :: v < |s.vnodes| && c != d ==>
        StatusOf(s'.vnodes[v].replicas, c) == StatusOf(s.vnodes[v].replicas, c))
  }

  /** What was told holds; the rest is as it was, and still to be looked at. */
  ghost predicate Taken(s: State, d: nat, told: seq<Report>, m: Merging)
    requires d < |s.devices|
  {
    && OthersSame(s, m.s, d) && Listing(m.s, d)
    && (forall t :: t in told ==> 0 <= t.id < |s.vnodes| && Holds(m.s, d, t))
    && (forall v: nat :: v < |s.vnodes| && !Tells(told, v) ==> m.s.vnodes[v] == s.vnodes[v])
    && (forall v: nat :: v in m.s.devices[d].listed <==> v in s.devices[d].listed || Tells(told, v))
    && NoDuplicates(m.todo) && (forall v: nat :: v in m.todo <==> v in s.devices[d].listed && !Tells(told, v))
  }

  ghost predicate Holds(s: State, d: nat, t: Report) {
    && 0 <= t.id < |s.vnodes|
    && StatusOf(s.vnodes[t.id].replicas, d) == Some(t.status) && s.vnodes[t.id].version == t.version
  }

  lemma TellsAfter(told: seq<Report>, t: Report, id: int)
    ensures Tells(told + [t], id) <==> Tells(told, id) || id == t.id
  {
    assert t in told + [t];
  }

  lemma PushedList(list: seq<nat>, v: nat)
    requires NoDuplicates(list) && v !in list
    ensures NoDuplicates(list + [v]) && forall w :: w in list + [v] <==> w in list || w == v
  {
  }

  /** What taking one unit does to the state. */
  lemma TakeOneIs(m: Merging, d: nat, t: Report)
    requires d < |m.s.devices| && Listing(m.s, d) && NoDuplicates(m.todo)
    requires t.id in m.todo <==> t.id in m.s.devices[d].listed
    ensures TakeOne(m, d, t).Ok? <==> Sound(m.s, d, t)
    ensures TakeOne(m, d, t).Ok? ==>
              var m' := TakeOne(m, d, t).value;
              && OthersSame(m.s, m'.s, d) && Listing(m'.s, d) && Holds(m'.s, d, t)
              && (forall v: nat :: v < |m.s.vnodes| && v != t.id ==> m'.s.vnodes[v] == m.s.vnodes[v])
              && (forall v: nat :: v in m'.s.devices[d].listed <==> v in m.s.devices[d].listed || v == t.id)
              && NoDuplicates(m'.todo) && (forall v: nat :: v in m'.todo <==> v in m.todo && v != t.id)
  {
    if Sound(m.s, d, t) {
      var v: nat := t.id;
      var rs := m.s.vnodes[v].replicas;
      var j := IndexOf(m.todo, v);
      if j == |m.todo| {
        AppendIs(rs, Replica(t.status, d));
        PushedList(m.s.devices[d].listed, v);
      } else {
        SetStatusIs(rs, d, t.status);
        RemovedOnce(m.todo, j);
      }
    }
  }

  lemma TakenNext(s: State, d: nat, told: seq<Report>, m: Merging, t: Report, m': Merging)
    requires d < |s.devices| && Taken(s, d, told, m) && !Tells(told, t.id)
    requires OthersSame(m.s, m'.s, d) && Listing(m'.s, d) && Holds(m'.s, d, t)
    requires forall v: nat :: v < |m.s.vnodes| && v != t.id ==> m'.s.vnodes[v] == m.s.vnodes[v]
    requires forall v: nat :: v in m'.s.devices[d].listed <==> v in m.s.devices[d].listed || v == t.id
    requires NoDuplicates(m'.todo) && (forall v: nat :: v in m'.todo <==> v in m.todo && v != t.id)
    ensures Taken(s, d, told + [t], m')
  {
    forall v: nat
      ensures Tells(told + [t], v) <==> Tells(told, v) || v == t.id
    {
      TellsAfter(told, t, v);
    }
    forall u | u in told + [t]
      ensures 0 <= u.id < |s.vnodes| && Holds(m'.s, d, u)
    {
      if u in told {
        assert u.id != t.id;
        assert Holds(m.s, d, u);
      }
    }
    forall v: nat, c: nat | v < |s.vnodes| && c != d
      ensures StatusOf(m'.s.vnodes[v].replicas, c) == StatusOf(s.vnodes[v].replicas, c)
    {
      assert StatusOf(m'.s.vnodes[v].replicas, c) == StatusOf(m.s.vnodes[v].replicas, c);
    }
  }

  ghost predicate AllSound(s: State, d: nat, told: seq<Report>)
    requires d < |s.devices|
  {
    forall t :: t in told ==> Sound(s, d, t)
  }

  lemma {:induction false} TakeAllIs(s: State, d: nat, told: seq<Report>)
    requires d < |s.devices| && Listing(s, d) && UniqueTold(told)
    ensures TakeAll(s, d, told).Ok? <==> AllSound(s, d, told)
    ensures TakeAll(s, d, told).Ok? ==> Taken(s, d, told, TakeAll(s, d, told).value)
    decreases |told|
  {
    if told != [] {
      var rest, t := told[..|told| - 1], told[|told| - 1];
      assert told == rest + [t];
      TakeAllIs(s, d, rest);
      assert !Tells(rest, t.id);
      assert AllSound(s, d, told) <==> AllSound(s, d, rest) && Sound(s, d, t);
      if TakeAll(s, d, rest).Ok? {
        var m := TakeAll(s, d, rest).value;
        assert t.id >= 0 ==> (t.id in m.todo <==> t.id in m.s.devices[d].listed);
        TakeOneIs(m, d, t);
        assert Sound(m.s, d, t) <==> Sound(s, d, t);
        if TakeOne(m, d, t).Ok? {
          TakenNext(s, d, rest, m, t, TakeOne(m, d, t).value);
        }
      }
    }
  }

  // ---------------------------------------------------------------------------------------------
  // Dropping what was not told
  // ---------------------------------------------------------------------------------------------

  ghost predicate Dropped(erases: bool, s: State, d: nat, todo: seq<nat>, s': State)
    requires d < |s.devices|
  {
    && OthersSame(s, s', d) && Listing(s', d)
    && (forall v :: v in todo ==>
          && v < |s.vnodes| && StatusOf(s'.vnodes[v].replicas, d).None?
          && s'.vnodes[v].version == s.vnodes[v].version)
    && (forall v: nat :: v < |s.vnodes| && v !in todo ==> s'.vnodes[v] == s.vnodes[v])
    && (forall v: nat :: v in s'.devices[d].listed <==> v in s.devices[d].listed && !(erases && v in todo))
  }

  lemma DropOneIs(erases: bool, s: State, d: nat, v: nat)
    requires d < |s.devices| && Listing(s, d) && v in s.devices[d].listed
    ensures DropOne(erases, s, d, v).Ok? && Dropped(erases, s, d, [v], DropOne(erases, s, d, v).value)
  {
    DestroyIs(s.vnodes[v].replicas, d);
    var list := s.devices[d].listed;
    RemovedOnce(list, IndexOf(list, v));
    var s' := DropOne(erases, s, d, v).value;
    assert forall w :: w in [v] <==> w == v;
    assert s'.vnodes == s.vnodes[v := s.vnodes[v].(replicas := Destroy(s.vnodes[v].replicas, d))];
    assert s'.devices[d].listed == if erases then RemoveAt(list, IndexOf(list, v)) else list;
  }

  lemma DroppedNext(erases: bool, s: State, d: nat, todo: seq<nat>, s1: State, v: nat, s2: State)
    requires d < |s.devices| && Dropped(erases, s, d, todo, s1) && d < |s1.devices| && Dropped(erases, s1, d, [v], s2)
    ensures Dropped(erases, s, d, todo + [v], s2)
  {
    assert v in [v];
    assert forall w :: w in todo + [v] <==> w in todo || w == v;
    forall w: nat, c: nat | w < |s.vnodes| && c != d
      ensures StatusOf(s2.vnodes[w].replicas, c) == StatusOf(s.vnodes[w].replicas, c)
    {
      assert StatusOf(s2.vnodes[w].replicas, c) == StatusOf(s1.vnodes[w].replicas, c);
    }
    forall w | w in todo + [v]
      ensures w < |s.vnodes| && StatusOf(s2.vnodes[w].replicas, d).None? && s2.vnodes[w].version == s.vnodes[w].version
    {
      if w in todo && w != v {
        assert s2.vnodes[w] == s1.vnodes[w];
      }
    }
  }

  lemma DropsOneMore(erases: bool, s: State, d: nat, todo: seq<nat>, s1: State, v: nat)
    requires d < |s.devices| && Dropped(erases, s, d, todo, s1) && v in s.devices[d].listed && v !in todo
    ensures d < |s1.devices| && DropOne(erases, s1, d, v).Ok?
    ensures Dropped(erases, s, d, todo + [v], DropOne(erases, s1, d, v).value)
  {
    DropOneIs(erases, s1, d, v);
    DroppedNext(erases, s, d, todo, s1, v, DropOne(erases, s1, d, v).value);
  }

  lemma LastOnce(todo: seq<nat>)
    requires todo != [] && NoDuplicates(todo)
    ensures var rest, v := todo[..|todo| - 1], todo[|todo| - 1];
            todo == rest + [v] && v in todo && v !in rest && NoDuplicates(rest) && forall w :: w in rest ==> w in todo
  {
  }

  /** All of the list can be dropped, with that result. */
  ghost predicate DropsAll(erases: bool, s: State, d: nat, todo: seq<nat>)
    requires d < |s.devices|
  {
    DropAll(erases, s, d, todo).Ok? && Dropped(erases, s, d, todo, DropAll(erases, s, d, todo).value)
  }

  lemma DropsNone(erases: bool, s: State, d: nat)
    requires d < |s.devices| && Listing(s, d)
    ensures DropsAll(erases, s, d, [])
  {
  }

  lemma DropsNext(erases: bool, s: State, d: nat, rest: seq<nat>, v: nat)
    requires d < |s.devices| && DropsAll(erases, s, d, rest) && v in s.devices[d].listed && v !in rest
    ensures DropsAll(erases, s, d, rest + [v])
  {
    assert (rest + [v])[..|rest|] == rest;
    DropsOneMore(erases, s, d, rest, DropAll(erases, s, d, rest).value, v);
  }

  lemma {:induction false} DropAllIs(erases: bool, s: State, d: nat, todo: seq<nat>)
    requires d < |s.devices| && Listing(s, d) && NoDuplicates(todo)
    requires forall v :: v in todo ==> v in s.devices[d].listed
    ensures DropsAll(erases, s, d, todo)
    decreases |todo|
  {
    if todo == [] {
      DropsNone(erases, s, d);
    } else {
      LastOnce(todo);
      DropAllIs(erases, s, d, todo[..|todo| - 1]);
      DropsNext(erases, s, d, todo[..|todo| - 1], todo[|todo| - 1]);
    }
  }

  /**
   The merge of a report with different ids faults exactly when the report names a vnode that does not exist, or
   one that the device lists without having a replica. Otherwise the device's replicas are then exactly the reported
   vnodes, with the status and version reported, and nothing about other devices changed. The index is correct
   afterwards exactly when dropped vnodes are erased, or none was dropped.
   */
  lemma SlaveMergeIs(erases: bool, s: State, d: nat, told: seq<Report>)
    requires d < |s.devices| && Listing(s, d) && UniqueTold(told)
    ensures SlaveBeat(erases, s, d, told).Ok? <==> AllSound(s, d, told)
    ensures SlaveBeat(erases, s, d, told).Ok? ==>
              var s' := SlaveBeat(erases, s, d, told).value;
              && OthersSame(s, s', d) && Listing(s', d)
              && (forall t :: t in told ==> Holds(s', d, t))
              && (forall v: nat :: v < |s.vnodes| && !Tells(told, v) ==>
                    StatusOf(s'.vnodes[v].replicas, d).None? && s'.vnodes[v].version == s.vnodes[v].version)
              && (forall v: nat :: v in s'.devices[d].listed <==>
                    Tells(told, v) || (!erases && v in s.devices[d].listed))
              && (Indexed(s', d) <==> erases || forall v :: v in s.devices[d].listed ==> Tells(told, v))
  {
    TakeAllIs(s, d, told);
    if TakeAll(s, d, told).Ok? {
      var m := TakeAll(s, d, told).value;
      DropAllIs(erases, m.s, d, m.todo);
      var s' := DropAll(erases, m.s, d, m.todo).value;
      MergedSame(s, m.s, s', d);
      forall t | t in told
        ensures Holds(s', d, t)
      {
        assert Holds(m.s, d, t) && t.id !in m.todo;
      }
      MergedIndex(erases, s, d, told, m, s');
    }
  }

  lemma MergedSame(s: State, s1: State, s2: State, d: nat)
    requires OthersSame(s, s1, d) && OthersSame(s1, s2, d)
    ensures OthersSame(s, s2, d)
  {
    forall v: nat, c: nat | v < |s.vnodes| && c != d
      ensures StatusOf(s2.vnodes[v].replicas, c) == StatusOf(s.vnodes[v].replicas, c)
    {
      assert StatusOf(s2.vnodes[v].replicas, c) == StatusOf(s1.vnodes[v].replicas, c);
    }
  }

  lemma MergedIndex(erases: bool, s: State, d: nat, told: seq<Report>, m: Merging, s': State)
    requires d < |s.devices| && Listing(s, d) && Taken(s, d, told, m) && d < |m.s.devices|
             && Dropped(erases, m.s, d, m.todo, s')
    ensures forall v: nat :: v < |s.vnodes| && !Tells(told, v) ==>
              StatusOf(s'.vnodes[v].replicas, d).None? && s'.vnodes[v].version == s.vnodes[v].version
    ensures Indexed(s', d) <==> erases || forall v :: v in s.devices[d].listed ==> Tells(told, v)
  {
    forall v: nat | v < |s.vnodes| && !Tells(told, v)
      ensures StatusOf(s'.vnodes[v].replicas, d).None? && s'.vnodes[v].version == s.vnodes[v].version
    {
      if v !in m.todo {
        assert s'.vnodes[v] == s.vnodes[v];
      }
    }
    forall v: nat | v < |s.vnodes| && Tells(told, v)
      ensures StatusOf(s'.vnodes[v].replicas, d).Some?
    {
      var t :| t in told && t.id == v;
      assert Holds(m.s, d, t);
    }
    if Indexed(s', d) && !erases {
      forall v | v in s.devices[d].listed
        ensures Tells(told, v)
      {
        assert v in s'.devices[d].listed;
      }
    }
  }

  /** As written: a vnode dropped by one report and named by the next one makes the slave fault. */
  lemma DroppedThenTold(s: State, d: nat, told: seq<Report>, told': seq<Report>, v: nat)
    requires d < |s.devices| && Listing(s, d) && UniqueTold(told) && UniqueTold(told') && AllSound(s, d, told)
    requires v in s.devices[d].listed && !Tells(told, v) && Tells(told', v)
    ensures SlaveBeat(false, s, d, told).Ok?
    ensures SlaveBeat(false, SlaveBeat(false, s, d, told).value, d, told').Fault?
  {
    SlaveMergeIs(false, s, d, told);
    var s' := SlaveBeat(false, s, d, told).value;
    TakeAllIs(s, d, told);
    DropAllIs(false, TakeAll(s, d, told).value.s, d, TakeAll(s, d, told).value.todo);
    assert v in s'.devices[d].listed;
    SlaveMergeIs(false, s', d, told');
    var t :| t in told' && t.id == v;
    assert !Sound(s', d, t);
  }

  // ---------------------------------------------------------------------------------------------
  // Runs of a slave
  // ---------------------------------------------------------------------------------------------

  /** A device joins a slave with nothing on it; reports with different ids follow. */
  datatype SlaveMessage = SlaveJoin(zone: int, weight: int) | SlaveReport(dev: nat, told: seq<Report>)

  function SlaveHandle(erases: bool, s: State, m: SlaveMessage): Outcome<State> {
    match m
    case SlaveJoin(zone, weight) => Ok(AddDevice(s, zone, weight))
    case SlaveReport(d, told) => if d < |s.devices| then SlaveBeat(erases, s, d, told) else Ok(s)
  }

  function SlaveRun(erases: bool, s: State, ms: seq<SlaveMessage>): Outcome<State>
    decreases |ms|
  {
    if ms == [] then Ok(s)
    else
      var s' :- SlaveHandle(erases, s, ms[0]);
      SlaveRun(erases, s', ms[1..])
  }

  /** Every device lists its replicas, or with `exact` just these; no replica is on a device that is not there. */
  ghost predicate SlaveInv(exact: bool, s: State) {
    && (forall d: nat :: d < |s.devices| ==> Listing(s, d) && (exact ==> Indexed(s, d)))
    && (forall v: nat :: v < |s.vnodes| ==> Distinct(s.vnodes[v].replicas))
    && (forall v: nat, c: nat :: v < |s.vnodes| && c >= |s.devices| ==> StatusOf(s.vnodes[v].replicas, c).None?)
  }

  ghost predicate SlaveInvOrFault(exact: bool, r: Outcome<State>) {
    r.Ok? ==> SlaveInv(exact, r.value)
  }

  lemma OtherListing(s: State, s': State, d: nat, c: nat)
    requires OthersSame(s, s', d) && c < |s.devices| && c != d && Listing(s, c)
    requires forall v: nat :: v < |s'.vnodes| ==> Distinct(s'.vnodes[v].replicas)
    ensures Listing(s', c) && (Indexed(s, c) ==> Indexed(s', c))
  {
    assert s'.devices[c] == s.devices[c];
    assert forall v: nat :: v < |s.vnodes| ==> StatusOf(s'.vnodes[v].replicas, c) == StatusOf(s.vnodes[v].replicas, c);
  }

  lemma SlaveBeatKeeps(erases: bool, s: State, d: nat, told: seq<Report>)
    requires SlaveInv(erases, s) && d < |s.devices| && UniqueTold(told)
    ensures SlaveInvOrFault(erases, SlaveBeat(erases, s, d, told))
  {
    SlaveMergeIs(erases, s, d, told);
    var r := SlaveBeat(erases, s, d, told);
    if r.Ok? {
      var s' := r.value;
      forall c: nat | c < |s'.devices|
        ensures Listing(s', c) && (erases ==> Indexed(s', c))
      {
        if c != d {
          OtherListing(s, s', d, c);
        }
      }
      forall v: nat, c: nat | v < |s'.vnodes| && c >= |s'.devices|
        ensures StatusOf(s'.vnodes[v].replicas, c).None?
      {
        assert StatusOf(s'.vnodes[v].replicas, c) == StatusOf(s.vnodes[v].replicas, c);
      }
    }
  }

  lemma SlaveJoinKeeps(exact: bool, s: State, zone: int, weight: int)
    requires SlaveInv(exact, s)
    ensures SlaveInv(exact, AddDevice(s, zone, weight))
  {
    var s' := AddDevice(s, zone, weight);
    forall d: nat | d < |s'.devices|
      ensures Listing(s', d) && (exact ==> Indexed(s', d))
    {
      if d < |s.devices| {
        assert Listing(s, d) && s'.devices[d] == s.devices[d];
      }
    }
  }

  ghost predicate Clean(ms: seq<SlaveMessage>) {
    forall m :: m in ms && m.SlaveReport? ==> UniqueTold(m.told)
  }

  lemma {:induction false} SlaveRunKeeps(erases: bool, s: State, ms: seq<SlaveMessage>)
    requires SlaveInv(erases, s) && Clean(ms)
    ensures SlaveInvOrFault(erases, SlaveRun(erases, s, ms))
    decreases |ms|
  {
    if ms != [] {
      assert ms[0] in ms && Clean(ms[1..]);
      match ms[0] {
        case SlaveJoin(zone, weight) => SlaveJoinKeeps(erases, s, zone, weight);
        case SlaveReport(d, told) =>
          if d < |s.devices| {
            SlaveBeatKeeps(erases, s, d, told);
          }
      }
      if SlaveHandle(erases, s, ms[0]).Ok? {
        SlaveRunKeeps(erases, SlaveHandle(erases, s, ms[0]).value, ms[1..]);
      }
    }
  }

  /**
   In every run of a slave every device lists each of its replicas once, so that SlaveMergeIs speaks of every report
   in it; and when dropped vnodes are erased, it lists nothing else.
   */
  lemma SlaveRuns(erases: bool, n: nat, rc: int, ms: seq<SlaveMessage>, d: nat)
    requires var boot := State([], seq(n, _ => Vnode(0, 0, 0, [])), rc, []);
             Clean(ms) && SlaveRun(erases, boot, ms).Ok? && d < |SlaveRun(erases, boot, ms).value.devices|
    ensures var s := SlaveRun(erases, State([], seq(n, _ => Vnode(0, 0, 0, [])), rc, []), ms).value;
            Listing(s, d) && (erases ==> Indexed(s, d))
  {
    var boot := State([], seq(n, _ => Vnode(0, 0, 0, [])), rc, []);
    assert SlaveInv(erases, boot);
    SlaveRunKeeps(erases, boot, ms);
  }
}
