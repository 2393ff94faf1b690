/**
 The values the master proxy works on: replica statuses, vnodes, devices, sync events.

 A `device_info *` is represented by a handle: the position the device has, or is about to get,
 in the device container, which only ever grows.
 */
module ProxyTypes {

  /** The result of a step that may dereference a null pointer, index out of bounds or divide by zero. */
  datatype Outcome<+T> = Ok(value: T) | Fault
  {
    predicate IsFailure() {
      Fault?
    }

    function PropagateFailure<U>(): Outcome<U>
      requires Fault?
    {
      Fault
    }

    function Extract(): T
      requires Ok?
    {
      value
    }
  }

  datatype Option<+T> = None | Some(value: T)

  /** The status codes 0 to 6 of a replica, in order. */
  datatype Status = Init | Online | WaitSync | CopySrc | MoveSrc | Active | Offline

  predicate IsSource(status: Status) {
    status.CopySrc? || status.MoveSrc?
  }

  /** A replica in this status has the vnode's data. */
  predicate HoldsData(status: Status) {
    status.Active? || IsSource(status)
  }

  datatype Replica = Replica(status: Status, dev: nat)

  /** `rd` and `wr` are the two round-robin cursors. */
  datatype Vnode = Vnode(version: int, rd: nat, wr: nat, replicas: seq<Replica>)

  datatype Event = Event(vnode: nat, dest: nat)

  /** `listed` is vnode_list, `pending` is sync_list and `syncing` is syncing_list. */
  datatype Device = Device(zone: int, weight: int, listed: seq<nat>, pending: seq<Event>, syncing: seq<Event>)

  /** One version taken from a heartbeat while the reporting replica was not syncing. */
  datatype Acceptance = Acceptance(vnode: nat, version: int)

  /** The master's whole state. `accepted` is a history variable: nothing reads it. */
  datatype State = State(devices: seq<Device>, vnodes: seq<Vnode>, replicaCount: int, accepted: seq<Acceptance>)

  /**
   Four statements of the source do something other than what surrounds them asks for. Each flag says
   whether that statement is repaired; with all flags off the model is the source as written.

   - keepsReplica: the fresh replica is tested with `==`, not overwritten with NULL (vnode_balancer.cpp:302);
   - erasesMoved: a finished move also erases the vnode from the donor's vnode_list (proxy_msg_parser.cpp:164);
   - drawsFromCopy: a draw indexes the shrinking working copy, not the donor's list (vnode_balancer.cpp:206);
   - ownCursor: the write scan walks to the write cursor, not to the read cursor (node_info.cpp:117).
   */
  datatype Edition = Edition(keepsReplica: bool, erasesMoved: bool, drawsFromCopy: bool, ownCursor: bool)

  const AS_WRITTEN := Edition(false, false, false, false)
}
