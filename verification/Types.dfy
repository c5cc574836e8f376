/** The entities of the cluster, as values. */
module Types {

  type Id = string

  datatype Option<+T> = None | Some(value: T)

  datatype TaskStatus = Pending | Ready | Assigned | Running | Completed | Failed | Blocked

  datatype NodeStatus = Online | Degraded | Offline

  datatype LeaseStatus = Active | Expired | Revoked

  datatype Task = Task(
    title: string,
    needs: seq<string>,
    dependsOn: seq<Id>,
    priority: int,
    status: TaskStatus,
    assignedTo: Option<Id>,
    createdAt: int,
    version: int,
    failReason: Option<string>)

  type Tasks = map<Id, Task>

  datatype Node = Node(capabilities: seq<string>, status: NodeStatus, lastHeartbeat: int, load: real)

  /** The node table in registration order. */
  datatype Registry = Registry(ids: seq<Id>, nodes: map<Id, Node>)

  datatype Lease = Lease(taskId: Id, nodeId: Id, createdAt: int, expiresAt: int, status: LeaseStatus)

  /** The leases in creation order, and the index from a task to the lease created for it last. */
  datatype LeaseTable = LeaseTable(ids: seq<Id>, leases: map<Id, Lease>, index: map<Id, Id>)

  datatype Decision = Decision(taskId: Id, title: string, priority: int, nodeId: Id)

  datatype RecoveryAction = LeaseRevoked | Rescheduled | MarkedFailed | FullRecovery

  datatype RecoveryOutcome = Done | Partial

  datatype RecoveryEvent = RecoveryEvent(taskId: Id, nodeId: Id, action: RecoveryAction, outcome: RecoveryOutcome)

  /** Python's truth value of an optional string: neither None nor empty. */
  predicate Truthy(s: Option<string>) {
    s.Some? && s.value != ""
  }
}
