/**
 The storage node's side of a heartbeat: its container of vnodes, the report it sends and the reply it merges.
 */
module StorageNode {
  import opened ProxyTypes
  import opened Protocol

  datatype StorageVnode = StorageVnode(id: int, status: Status, version: int)

  /** An order for the node to copy a vnode to another device. */
  datatype SyncOrder = SyncOrder(id: int, dest: Option<nat>)

  /** Position of the first entry for `id`, or |list| if there is none. */
  function Place(list: seq<StorageVnode>, id: int): (i: nat)
    ensures i <= |list|
    ensures i < |list| ==> list[i].id == id
    ensures forall j :: 0 <= j < i ==> list[j].id != id
  {
    if list == [] || list[0].id == id then 0 else 1 + Place(list[1..], id)
  }

  function MergeStatus(list: seq<StorageVnode>, id: int, status: Status): seq<StorageVnode> {
    var i := Place(list, id);
    if status.Offline? then
      if i < |list| then list[..i] + list[i + 1..] else list
    else if i < |list| then list[i := list[i].(status := status)]
    else list + [StorageVnode(id, status, 0)]
  }

  /** The vnode is waiting for its data, with the version of the source. */
  function Awaiting(list: seq<StorageVnode>, id: int, version: int): seq<StorageVnode> {
    var i := Place(list, id);
    if i < |list| then list[i := StorageVnode(id, WaitSync, version)] else list + [StorageVnode(id, WaitSync, version)]
  }

  function MergeReply(list: seq<StorageVnode>, reply: seq<Reply>): seq<StorageVnode>
    decreases |reply|
  {
    if reply == [] then list
    else MergeStatus(MergeReply(list, reply[..|reply| - 1]), reply[|reply| - 1].id, reply[|reply| - 1].status)
  }

  /** The orders a reply carries: one for each unit with a source status. */
  function Orders(reply: seq<Reply>): seq<SyncOrder>
    decreases |reply|
  {
    if reply == [] then []
    else
      var u := reply[|reply| - 1];
      Orders(reply[..|reply| - 1]) + if IsSource(u.status) then [SyncOrder(u.id, u.dest)] else []
  }

  function ReportOf(list: seq<StorageVnode>): (reports: seq<Report>)
    ensures |reports| == |list|
    ensures forall i :: 0 <= i < |list| ==> reports[i] == Report(list[i].id, list[i].status, list[i].version)
  {
    seq(|list|, i requires 0 <= i < |list| => Report(list[i].id, list[i].status, list[i].version))
  }

  class VnodeContainer {
    var list: seq<StorageVnode>

    constructor ()
      ensures list == []
    {
      list := [];
    }

    method At(index: int) returns (vnode: Option<StorageVnode>)
      ensures vnode == if 0 <= index < |list| then Some(list[index]) else None
    {
      if index < 0 || index >= |list| {
        return None;
      }
      return Some(list[index]);
    }

    method GetVnode(id: int) returns (i: nat)
      ensures i == Place(list, id)
    {
      i := 0;
      while i < |list| && list[i].id != id
        invariant i <= |list|
        invariant forall j :: 0 <= j < i ==> list[j].id != id
      {
        i := i + 1;
      }
    }

    method AddVnode(vnode: StorageVnode)
      modifies this
      ensures list == old(list) + [vnode]
    {
      list := list + [vnode];
    }

    method DeleteVnode(id: int)
      modifies this
      ensures list == MergeStatus(old(list), id, Offline)
    {
      var i := GetVnode(id);
      if i < |list| {
        list := list[..i] + list[i + 1..];
      }
    }
  }

  class BeatHeart {
    const container: VnodeContainer
    var syncQueue: seq<SyncOrder>

    constructor (container: VnodeContainer)
      ensures this.container == container && syncQueue == []
    {
      this.container := container;
      syncQueue := [];
    }

    method ReportVnodeInfo() returns (reports: seq<Report>)
      ensures reports == ReportOf(container.list)
    {
      reports := [];
      for i := 0 to |container.list|
        invariant |reports| == i
        invariant forall j :: 0 <= j < i ==>
                    reports[j] == Report(container.list[j].id, container.list[j].status, container.list[j].version)
      {
        var vnode := container.At(i);
        reports := reports + [Report(vnode.value.id, vnode.value.status, vnode.value.version)];
      }
    }

    method MergeVnodeStatus(id: int, status: Status)
      modifies container
      ensures container.list == MergeStatus(old(container.list), id, status)
    {
      if status.Offline? {
        container.DeleteVnode(id);
        return;
      }
      var i := container.GetVnode(id);
      if i < |container.list| {
        container.list := container.list[i := container.list[i].(status := status)];
        return;
      }
      container.AddVnode(StorageVnode(id, status, 0));
    }

    /** The loop over the units of a reply. */
    method HandleReply(reply: seq<Reply>)
      modifies this`syncQueue, container
      ensures container.list == MergeReply(old(container.list), reply)
      ensures syncQueue == old(syncQueue) + Orders(reply)
    {
      for i := 0 to |reply|
        invariant container.list == MergeReply(old(container.list), reply[..i])
        invariant syncQueue == old(syncQueue) + Orders(reply[..i])
      {
        var u := reply[i];
        assert reply[..i + 1][..i] == reply[..i];
        MergeVnodeStatus(u.id, u.status);
        if IsSource(u.status) {
          syncQueue := syncQueue + [SyncOrder(u.id, u.dest)];
        }
      }
      assert reply[..|reply|] == reply;
    }
  }

  // ---------------------------------------------------------------------------------------------
  // What a reply does to the ids on the node
  // ---------------------------------------------------------------------------------------------

  /** The ids on the node. */
  ghost function Ids(list: seq<StorageVnode>): set<int> {
    set i | 0 <= i < |list| :: list[i].id
  }

  ghost predicate UniqueIds(list: seq<StorageVnode>) {
    forall i, j :: 0 <= i < j < |list| ==> list[i].id != list[j].id
  }

  ghost predicate UniqueReply(reply: seq<Reply>) {
    forall i, j :: 0 <= i < j < |reply| ==> reply[i].id != reply[j].id
  }

  lemma SameIds(list: seq<StorageVnode>, list': seq<StorageVnode>)
    requires |list'| == |list| && forall k :: 0 <= k < |list| ==> list'[k].id == list[k].id
    ensures Ids(list') == Ids(list)
  {
    forall x | x in Ids(list)
      ensures x in Ids(list')
    {
      var k :| 0 <= k < |list| && list[k].id == x;
      assert list'[k].id == x;
    }
  }

  lemma DroppedIds(list: seq<StorageVnode>, i: nat)
    requires UniqueIds(list) && i < |list|
    ensures var list' := list[..i] + list[i + 1..]; UniqueIds(list') && Ids(list') == Ids(list) - {list[i].id}
  {
    var list' := list[..i] + list[i + 1..];
    assert forall k :: 0 <= k < |list'| ==> list'[k] == list[if k < i then k else k + 1];
    forall x | x in Ids(list) && x != list[i].id
      ensures x in Ids(list')
    {
      var k :| 0 <= k < |list| && list[k].id == x;
      assert list'[if k < i then k else k - 1].id == x;
    }
  }

  lemma AppendedIds(list: seq<StorageVnode>, vnode: StorageVnode)
    requires UniqueIds(list) && vnode.id !in Ids(list)
    ensures UniqueIds(list + [vnode]) && Ids(list + [vnode]) == Ids(list) + {vnode.id}
  {
    var list' := list + [vnode];
    assert list'[|list|] == vnode;
    forall x | x in Ids(list)
      ensures x in Ids(list')
    {
      var k :| 0 <= k < |list| && list[k].id == x;
      assert list'[k].id == x;
    }
  }

  lemma MergeStatusIds(list: seq<StorageVnode>, id: int, status: Status)
    requires UniqueIds(list)
    ensures var list' := MergeStatus(list, id, status);
            UniqueIds(list') && Ids(list') == if status.Offline? then Ids(list) - {id} else Ids(list) + {id}
  {
    var i := Place(list, id);
    assert i < |list| <==> id in Ids(list);
    if i < |list| {
      if status.Offline? {
        DroppedIds(list, i);
      } else {
        SameIds(list, list[i := list[i].(status := status)]);
      }
    } else if !status.Offline? {
      AppendedIds(list, StorageVnode(id, status, 0));
    }
  }

  ghost predicate Offlined(reply: seq<Reply>, x: int) {
    exists u :: u in reply && u.id == x && u.status.Offline?
  }

  ghost predicate Affirmed(reply: seq<Reply>, x: int) {
    exists u :: u in reply && u.id == x && !u.status.Offline?
  }

  lemma AnsweredLast(rest: seq<Reply>, u: Reply, x: int)
    ensures Affirmed(rest + [u], x) <==> Affirmed(rest, x) || (x == u.id && !u.status.Offline?)
    ensures Offlined(rest + [u], x) <==> Offlined(rest, x) || (x == u.id && u.status.Offline?)
  {
    assert u in rest + [u] && forall w :: w in rest ==> w in rest + [u];
  }

  lemma NotAnsweredBefore(rest: seq<Reply>, u: Reply)
    requires UniqueReply(rest + [u])
    ensures UniqueReply(rest) && !Affirmed(rest, u.id) && !Offlined(rest, u.id)
  {
    var reply := rest + [u];
    forall i | 0 <= i < |rest|
      ensures rest[i].id != u.id
    {
      assert reply[i] == rest[i] && reply[|rest|] == u;
    }
    assert forall i :: 0 <= i < |rest| ==> reply[i] == rest[i];
  }

  /** A reply that answers no id twice leaves the ids it affirms, and of the others those it does not put offline. */
  lemma {:induction false} MergeReplyIds(list: seq<StorageVnode>, reply: seq<Reply>)
    requires UniqueIds(list) && UniqueReply(reply)
    ensures var list' := MergeReply(list, reply);
            UniqueIds(list') && forall x :: x in Ids(list') <==>
              Affirmed(reply, x) || (x in Ids(list) && !Offlined(reply, x))
    decreases |reply|
  {
    if reply != [] {
      var rest, u := reply[..|reply| - 1], reply[|reply| - 1];
      assert reply == rest + [u];
      NotAnsweredBefore(rest, u);
      MergeReplyIds(list, rest);
      MergeStatusIds(MergeReply(list, rest), u.id, u.status);
      forall x
        ensures Affirmed(reply, x) <==> Affirmed(rest, x) || (x == u.id && !u.status.Offline?)
        ensures Offlined(reply, x) <==> Offlined(rest, x) || (x == u.id && u.status.Offline?)
      {
        AnsweredLast(rest, u, x);
      }
    }
  }

  /** The version of the entry for `x`; 0 if there is none. */
  ghost predicate VersionThere(list: seq<StorageVnode>, x: int, version: int) {
    if x in Ids(list) then exists w :: w in list && w.id == x && w.version == version else version == 0
  }

  /**
   An entry that a reply affirms has the unit's status, with its old version if it was there and 0 if it is new. One
   that the reply does not mention is as before.
   */
  ghost predicate Follows(list: seq<StorageVnode>, reply: seq<Reply>, w: StorageVnode) {
    if Affirmed(reply, w.id) then
      && VersionThere(list, w.id, w.version)
      && exists u :: u in reply && u.id == w.id && u.status == w.status && !u.status.Offline?
    else w in list
  }

  lemma MergeStatusEntries(list: seq<StorageVnode>, id: int, status: Status, w: StorageVnode)
    requires UniqueIds(list) && w in MergeStatus(list, id, status)
    ensures if w.id == id then !status.Offline? && w.status == status && VersionThere(list, id, w.version)
            else w in list
  {
    var i := Place(list, id);
    var list' := MergeStatus(list, id, status);
    MergeStatusIds(list, id, status);
    var k :| 0 <= k < |list'| && list'[k] == w;
    assert w.id in Ids(list');
    assert i < |list| <==> id in Ids(list);
    if i < |list| && !status.Offline? {
      assert list'[i].id == id;
      assert list[i] in list;
    }
  }

  lemma VersionsKept(list: seq<StorageVnode>, rest: seq<Reply>, x: int, version: int)
    requires UniqueIds(list) && UniqueIds(MergeReply(list, rest)) && !Affirmed(rest, x) && !Offlined(rest, x)
    requires forall y :: y in Ids(MergeReply(list, rest)) <==>
               Affirmed(rest, y) || (y in Ids(list) && !Offlined(rest, y))
    requires forall w :: w in MergeReply(list, rest) ==> Follows(list, rest, w)
    requires VersionThere(MergeReply(list, rest), x, version)
    ensures VersionThere(list, x, version)
  {
    if x in Ids(MergeReply(list, rest)) {
      var w :| w in MergeReply(list, rest) && w.id == x && w.version == version;
      assert Follows(list, rest, w);
    }
  }

  /** What a reply that answers no id twice makes of each entry. */
  lemma {:induction false} MergeReplyEntries(list: seq<StorageVnode>, reply: seq<Reply>)
    requires UniqueIds(list) && UniqueReply(reply)
    ensures forall w :: w in MergeReply(list, reply) ==> Follows(list, reply, w)
    decreases |reply|
  {
    if reply != [] {
      var rest, u := reply[..|reply| - 1], reply[|reply| - 1];
      assert reply == rest + [u];
      NotAnsweredBefore(rest, u);
      MergeReplyEntries(list, rest);
      MergeReplyIds(list, rest);
      forall w | w in MergeReply(list, reply)
        ensures Follows(list, reply, w)
      {
        MergeStatusEntries(MergeReply(list, rest), u.id, u.status, w);
        LastFollows(list, rest, u, w);
      }
    } else {
      assert forall x :: !Affirmed(reply, x);
    }
  }

  lemma LastFollows(list: seq<StorageVnode>, rest: seq<Reply>, u: Reply, w: StorageVnode)
    requires UniqueIds(list) && UniqueIds(MergeReply(list, rest)) && UniqueReply(rest + [u])
    requires forall y :: y in Ids(MergeReply(list, rest)) <==>
               Affirmed(rest, y) || (y in Ids(list) && !Offlined(rest, y))
    requires forall x :: x in MergeReply(list, rest) ==> Follows(list, rest, x)
    requires if w.id == u.id then
               !u.status.Offline? && w.status == u.status && VersionThere(MergeReply(list, rest), u.id, w.version)
             else w in MergeReply(list, rest)
    ensures Follows(list, rest + [u], w)
  {
    AnsweredLast(rest, u, w.id);
    NotAnsweredBefore(rest, u);
    if w.id == u.id {
      VersionsKept(list, rest, u.id, w.version);
      assert u in rest + [u];
    } else {
      assert Follows(list, rest, w);
      assert forall x :: x in rest ==> x in rest + [u];
    }
  }

  /** Afterwards the node has the vnode, waiting, with the version that was sent, and every other entry as before. */
  lemma AwaitingIs(list: seq<StorageVnode>, id: int, version: int)
    requires UniqueIds(list)
    ensures var list' := Awaiting(list, id, version);
            && UniqueIds(list') && Ids(list') == Ids(list) + {id}
            && StorageVnode(id, WaitSync, version) in list'
            && (forall w :: w in list' ==> w == StorageVnode(id, WaitSync, version) || (w in list && w.id != id))
  {
    var i, list' := Place(list, id), Awaiting(list, id, version);
    assert i < |list| <==> id in Ids(list);
    if i < |list| {
      SameIds(list, list');
      assert list'[i] in list';
    } else {
      AppendedIds(list, StorageVnode(id, WaitSync, version));
    }
  }
}
