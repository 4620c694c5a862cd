/**
 * Shared records of the hosts-tree module: the host records returned by the
 * inventory API, problem records, and the group tree node that the host-list
 * controller builds and the view renders.
 */
module HostTypes {

  datatype Option<T> = None | Some(value: T)

  // Values of the monitoring platform's constants that the core uses.
  const SeverityNotClassified: int := 0
  const SeverityCount: int := 6
  const HostStatusMonitored: int := 0
  const HostStatusNotMonitored: int := 1
  const MaintenanceStatusOff: int := 0
  const MaintenanceStatusOn: int := 1
  const ProblemSuppressedFalse: int := 0
  const ProblemSuppressedTrue: int := 1
  const InterfaceAgent: int := 1
  const InterfaceSnmp: int := 2
  const InterfaceIpmi: int := 3
  const InterfaceJmx: int := 4

  /** First id handed to a synthesised group that the group lookup does not know. */
  const FakeGroupIdStart: nat := 10000

  /** A host tag or an inherited (template) tag: only `tag` and `value` are selected. */
  datatype Tag = Tag(tag: string, value: string)

  datatype Interface = Interface(ifType: int, ip: string, dns: string, port: string, main: int)

  /** One entry of a host's `groups`: the group id and its full '/'-separated name. */
  datatype GroupRef = GroupRef(groupid: nat, name: string)

  datatype Host = Host(
    hostid: nat,
    name: string,
    status: int,
    maintenanceStatus: int,
    maintenanceid: nat,
    maintenanceType: int,
    interfaces: seq<Interface>,
    tags: seq<Tag>,
    inheritedTags: seq<Tag>,
    groups: seq<GroupRef>,
    problemCount: map<int, nat>)

  /** An open problem: its event id, the trigger it comes from and its severity. */
  datatype Problem = Problem(eventid: nat, objectid: nat, severity: int)

  datatype Maintenance = Maintenance(name: string, description: string)

  /** A host monitored and in maintenance: the only hosts that show a maintenance label. */
  predicate InMaintenance(h: Host) {
    h.status == HostStatusMonitored && h.maintenanceStatus == MaintenanceStatusOn
  }

  /** A node of `$host_groups`. */
  datatype Node = Node(
    groupid: nat,
    hosts: seq<nat>,
    children: seq<string>,
    parentGroupName: string,
    isCollapsed: bool)

  /**
   * The ordered PHP array `$host_groups`: keys in insertion order and the
   * nodes they map to. Updating an existing key keeps its position; a new
   * key goes to the end.
   */
  datatype GroupMap = GroupMap(names: seq<string>, nodes: map<string, Node>) {

    ghost predicate Valid() {
      && (forall i, j :: 0 <= i < j < |names| ==> names[i] != names[j])
      && (forall n :: n in nodes <==> n in names)
    }

    function Put(name: string, node: Node): (r: GroupMap)
      requires Valid()
      ensures r.Valid()
      ensures r.nodes == nodes[name := node]
      ensures name in nodes ==> r.names == names
      ensures name !in nodes ==> r.names == names + [name]
    {
      if name in nodes then GroupMap(names, nodes[name := node])
      else GroupMap(names + [name], nodes[name := node])
    }
  }

  const EmptyGroups: GroupMap := GroupMap([], map[])
}
