/**
 * The host-list controller's pass over the fetched hosts (`getData`): for
 * every host in the sorted, paged list it records the maintenance id, counts
 * its problems per severity, merges its tags and adds its groups to the
 * group tree, with the synthetic-id counter starting again for every host.
 */
module HostProcessing {
  import opened HostTypes
  import opened GroupNames
  import opened GroupTree
  import opened TagMerge
  import opened ProblemCounting

  /** A host as the controller leaves it: problem counts filled in, tags merged. */
  function Processed(h: Host, problems: seq<Problem>, triggers: map<nat, seq<nat>>): Host
  {
    h.(problemCount := HostCounts(problems, triggers, h.hostid), tags := MergedTags(h.tags, h.inheritedTags))
  }

  /** Every host of the list, processed. */
  function ProcessedAll(hosts: seq<Host>, problems: seq<Problem>, triggers: map<nat, seq<nat>>): (r: seq<Host>)
    ensures |r| == |hosts|
    ensures forall k :: 0 <= k < |hosts| ==> r[k] == Processed(hosts[k], problems, triggers)
    decreases |hosts|
  {
    if hosts == [] then []
    else ProcessedAll(hosts[..|hosts| - 1], problems, triggers) + [Processed(hosts[|hosts| - 1], problems, triggers)]
  }

  /** The maintenance ids of the monitored hosts in maintenance. */
  function MaintenanceIds(hosts: seq<Host>): set<nat>
  {
    set k | 0 <= k < |hosts| && InMaintenance(hosts[k]) :: hosts[k].maintenanceid
  }

  /**
   * The loop over `$hosts` with its inner loop over each host's groups, as
   * the code runs it. `lookup` stands for the group-name query the code makes
   * when a parent is missing: the id of a group of that name, if there is one.
   */
  method ProcessHosts(hosts: seq<Host>, problems: seq<Problem>, triggers: map<nat, seq<nat>>, lookup: map<string, nat>)
    returns (out: seq<Host>, maintenanceids: set<nat>, groups: GroupMap)
    ensures out == ProcessedAll(hosts, problems, triggers)
    ensures maintenanceids == MaintenanceIds(hosts)
    ensures groups == BuildGroups(hosts, lookup)
  {
    var hp := GroupProblems(problems, triggers);
    out, maintenanceids, groups := [], {}, EmptyGroups;
    var i: nat := 0;
    while i < |hosts|
      invariant i <= |hosts|
      invariant out == ProcessedAll(hosts[..i], problems, triggers)
      invariant maintenanceids == MaintenanceIds(hosts[..i])
      invariant groups == BuildGroups(hosts[..i], lookup)
    {
      var host := hosts[i];
      if host.status == HostStatusMonitored && host.maintenanceStatus == MaintenanceStatusOn {
        maintenanceids := maintenanceids + {host.maintenanceid};
      }
      var processed := ProcessHost(host, hp, problems, triggers);
      groups := AddHostGroupsLoop(groups, host, lookup);
      BuildGroupsStep(hosts, i, lookup);
      out := out + [processed];
      ProcessedAllStep(hosts, i, problems, triggers);
      MaintenanceIdsStep(hosts, i);
      i := i + 1;
    }
    assert hosts[..i] == hosts;
  }

  /** The counts and merged tags of one host. */
  method ProcessHost(host: Host, hp: HostProblems, ghost problems: seq<Problem>, ghost triggers: map<nat, seq<nat>>)
    returns (processed: Host)
    requires forall h, s :: EventsOf(hp, h, s) == DistinctEvents(problems, triggers, h, s)
    ensures processed == Processed(host, problems, triggers)
  {
    var counts := CountBySeverity(hp, host.hostid);
    CountsOfGroupedProblems(problems, triggers, hp, host.hostid);
    var tags := MergeTags(host.tags, host.inheritedTags);
    processed := host.(problemCount := counts, tags := tags);
  }

  lemma BuildGroupsStep(hosts: seq<Host>, i: nat, lookup: map<string, nat>)
    requires i < |hosts|
    ensures BuildGroups(hosts[..i + 1], lookup)
      == AddHostGroups(BuildGroups(hosts[..i], lookup), hosts[i].hostid, hosts[i].groups, lookup).0
  {
    assert hosts[..i + 1][..i] == hosts[..i];
  }

  lemma ProcessedAllStep(hosts: seq<Host>, i: nat, problems: seq<Problem>, triggers: map<nat, seq<nat>>)
    requires i < |hosts|
    ensures ProcessedAll(hosts[..i + 1], problems, triggers)
      == ProcessedAll(hosts[..i], problems, triggers) + [Processed(hosts[i], problems, triggers)]
  {
    assert hosts[..i + 1][..i] == hosts[..i];
  }

  lemma MaintenanceIdsStep(hosts: seq<Host>, i: nat)
    requires i < |hosts|
    ensures MaintenanceIds(hosts[..i + 1])
      == MaintenanceIds(hosts[..i]) + (if InMaintenance(hosts[i]) then {hosts[i].maintenanceid} else {})
  {
    var pre, pre1 := hosts[..i], hosts[..i + 1];
    assert forall k :: 0 <= k < i ==> pre1[k] == pre[k];
    assert pre1[i] == hosts[i];
  }

  /** The inner loop over one host's groups; the counter starts at 10000. */
  method AddHostGroupsLoop(start: GroupMap, host: Host, lookup: map<string, nat>) returns (groups: GroupMap)
    requires start.Valid()
    ensures groups == AddHostGroups(start, host.hostid, host.groups, lookup).0
  {
    groups := start;
    var fakeId := FakeGroupIdStart;
    var j: nat := 0;
    while j < |host.groups|
      invariant j <= |host.groups|
      invariant groups == AddHostGroups(start, host.hostid, host.groups[..j], lookup).0
      invariant fakeId == AddHostGroups(start, host.hostid, host.groups[..j], lookup).1
    {
      var g := host.groups[j];
      ghost var before, firstId := groups, fakeId;
      var member := AddMembership(groups, host.hostid, g);
      groups, fakeId := LinkToParent(member, g.name, lookup, fakeId);
      AddHostGroupsStep(start, host.hostid, host.groups, lookup, j, before, firstId, groups, fakeId);
      j := j + 1;
    }
    assert host.groups[..j] == host.groups;
  }

  /**
   * The membership branch: the group's node is created with the host as its only member, or the
   * host id is appended to the existing node's list; no other node changes.
   */
  method AddMembership(m: GroupMap, hostid: nat, g: GroupRef) returns (r: GroupMap)
    requires m.Valid()
    ensures r == AddMember(m, hostid, g)
    ensures r.nodes.Keys == m.nodes.Keys + {g.name}
    ensures r.nodes[g.name].hosts == HostsIn(m, g.name) + [hostid]
    ensures g.name !in m.nodes ==> r.nodes[g.name] == Node(g.groupid, [hostid], [], "", true)
    ensures g.name in m.nodes ==> (r.nodes[g.name].groupid == m.nodes[g.name].groupid
      && r.nodes[g.name].children == m.nodes[g.name].children
      && r.nodes[g.name].parentGroupName == m.nodes[g.name].parentGroupName)
    ensures forall k :: k in m.nodes && k != g.name ==> r.nodes[k] == m.nodes[k]
  {
    if g.name !in m.nodes {
      r := m.Put(g.name, Node(g.groupid, [hostid], [], "", true));
    } else {
      r := m.Put(g.name, m.nodes[g.name].(hosts := m.nodes[g.name].hosts + [hostid]));
    }
  }

  /**
   * Parent linking for a name with a '/': the name is listed once among its parent's children and
   * its parent field names the parent. Nothing else changes, beyond the parent itself.
   */
  method LinkToParent(m: GroupMap, name: string, lookup: map<string, nat>, fakeId: nat) returns (r: GroupMap, nextId: nat)
    requires m.Valid() && name in m.nodes
    ensures (r, nextId) == LinkParent(m, name, lookup, fakeId)
    ensures !HasParent(name) ==> r == m && nextId == fakeId
    ensures HasParent(name) ==> var parent := ParentName(name);
      && r.nodes.Keys == m.nodes.Keys + {parent}
      && r.nodes[name] == m.nodes[name].(parentGroupName := parent)
      && name in r.nodes[parent].children
      && (forall k :: k in m.nodes && k != name && k != parent ==> r.nodes[k] == m.nodes[k])
  {
    r, nextId := m, fakeId;
    if HasParent(name) {
      var parent := ParentName(name);
      ParentShorter(name);
      var attached;
      attached, nextId := AttachToParent(m, parent, name, lookup, fakeId);
      r := attached.Put(name, attached.nodes[name].(parentGroupName := parent));
      assert r == SetParentName(attached, name, parent);
      assert r.nodes == attached.nodes[name := m.nodes[name].(parentGroupName := parent)];
    }
  }

  /**
   * The three parent branches: an existing parent lists the name once more unless it already does;
   * a missing one is created with the looked-up id, or with the counter, which then moves on.
   */
  method AttachToParent(m: GroupMap, parent: string, name: string, lookup: map<string, nat>, fakeId: nat)
    returns (r: GroupMap, nextId: nat)
    requires m.Valid()
    ensures r == if parent in m.nodes then AppendChild(m, parent, name)
      else NewParent(m, parent, name, if parent in lookup then lookup[parent] else fakeId)
    ensures r.nodes.Keys == m.nodes.Keys + {parent}
    ensures name in r.nodes[parent].children
    ensures parent in m.nodes ==> (r.nodes[parent].hosts == m.nodes[parent].hosts
      && r.nodes[parent].parentGroupName == m.nodes[parent].parentGroupName)
    ensures parent !in m.nodes ==>
      r.nodes[parent] == Node(if parent in lookup then lookup[parent] else fakeId, [], [name], "", true)
    ensures forall k :: k in m.nodes && k != parent ==> r.nodes[k] == m.nodes[k]
    ensures nextId == if parent !in m.nodes && parent !in lookup then fakeId + 1 else fakeId
  {
    r, nextId := m, fakeId;
    if parent in m.nodes {
      if name !in m.nodes[parent].children {
        r := m.Put(parent, m.nodes[parent].(children := m.nodes[parent].children + [name]));
      }
    } else if parent in lookup {
      r := m.Put(parent, Node(lookup[parent], [], [name], "", true));
    } else {
      r := m.Put(parent, Node(fakeId, [], [name], "", true));
      nextId := fakeId + 1;
    }
  }

  /** The group loop's step: one more group of the host is one more `AddGroup`. */
  lemma AddHostGroupsStep(m: GroupMap, hostid: nat, groups: seq<GroupRef>, lookup: map<string, nat>, j: nat,
                          before: GroupMap, firstId: nat, after: GroupMap, nextId: nat)
    requires m.Valid() && j < |groups|
    requires before == AddHostGroups(m, hostid, groups[..j], lookup).0
    requires firstId == AddHostGroups(m, hostid, groups[..j], lookup).1
    requires (after, nextId) == LinkParent(AddMember(before, hostid, groups[j]), groups[j].name, lookup, firstId)
    ensures after == AddHostGroups(m, hostid, groups[..j + 1], lookup).0
    ensures nextId == AddHostGroups(m, hostid, groups[..j + 1], lookup).1
  {
    AddHostGroupsNext(m, hostid, groups, lookup, j);
  }

  lemma AddHostGroupsNext(m: GroupMap, hostid: nat, groups: seq<GroupRef>, lookup: map<string, nat>, j: nat)
    requires m.Valid() && j < |groups|
    ensures var r := AddHostGroups(m, hostid, groups[..j], lookup);
      var s := AddGroup(r.0, hostid, groups[j], lookup, r.1);
      AddHostGroups(m, hostid, groups[..j + 1], lookup).0 == s.0 && AddHostGroups(m, hostid, groups[..j + 1], lookup).1 == s.1
  {
    assert groups[..j + 1][..j] == groups[..j];
  }

  /**
   * The processed hosts keep everything the view needs from the fetch (id,
   * name, status, maintenance, interfaces, groups) and get the counts for
   * exactly the severities 0..5.
   */
  lemma ProcessedKeepsHost(h: Host, problems: seq<Problem>, triggers: map<nat, seq<nat>>)
    ensures var p := Processed(h, problems, triggers);
      && p.hostid == h.hostid && p.name == h.name && p.status == h.status
      && p.maintenanceStatus == h.maintenanceStatus && p.maintenanceid == h.maintenanceid
      && p.interfaces == h.interfaces && p.groups == h.groups
      && (forall s :: s in p.problemCount <==> SeverityNotClassified <= s < SeverityCount)
  {
  }

  /** A maintenance id is collected exactly when some monitored host in maintenance carries it. */
  lemma MaintenanceIdsMeaning(hosts: seq<Host>, id: nat)
    ensures id in MaintenanceIds(hosts) <==>
      exists k :: 0 <= k < |hosts| && hosts[k].status == HostStatusMonitored
        && hosts[k].maintenanceStatus == MaintenanceStatusOn && hosts[k].maintenanceid == id
  {
  }
}
