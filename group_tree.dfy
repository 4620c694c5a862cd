/**
 * The group tree that the host-list controller folds out of the sorted host
 * list (`getData`): a map from full group name to a node holding the group id,
 * the hosts that belong to it directly, the child group names and the parent
 * group name.
 *
 * As the code does it: a missing parent is synthesised one level up only (the
 * new node keeps the empty parent name and is not linked further), the id
 * counter for synthesised groups restarts at 10000 for every host, and a name
 * like "/x" gets the empty string as its parent.
 */
module GroupTree {
  import opened HostTypes
  import opened GroupNames

  /** A host's membership in one group: a new node, or the host appended to the existing one. */
  function AddMember(m: GroupMap, hostid: nat, g: GroupRef): (r: GroupMap)
    requires m.Valid()
    ensures r.Valid() && forall k :: k in r.nodes <==> k in m.nodes || k == g.name
  {
    if g.name in m.nodes then m.Put(g.name, m.nodes[g.name].(hosts := m.nodes[g.name].hosts + [hostid]))
    else m.Put(g.name, Node(g.groupid, [hostid], [], "", true))
  }

  /** `name` is a child of `parent`: the text before its last '/' is `parent`. */
  predicate ChildOf(name: string, parent: string) {
    HasParent(name) && ParentName(name) == parent
  }

  /** Adds `name` to the children of an existing `parent`, unless it is there already. */
  function AppendChild(m: GroupMap, parent: string, name: string): (r: GroupMap)
    requires m.Valid() && parent in m.nodes
    ensures r.Valid() && forall k :: k in r.nodes <==> k in m.nodes
  {
    var node := m.nodes[parent];
    if name in node.children then m else m.Put(parent, node.(children := node.children + [name]))
  }

  /** A synthesised parent: no hosts, `name` as its only child, parent name ''. */
  function NewParent(m: GroupMap, parent: string, name: string, groupid: nat): (r: GroupMap)
    requires m.Valid()
    ensures r.Valid() && forall k :: k in r.nodes <==> k in m.nodes || k == parent
  {
    m.Put(parent, Node(groupid, [], [name], "", true))
  }

  function SetParentName(m: GroupMap, name: string, parent: string): (r: GroupMap)
    requires m.Valid() && name in m.nodes
    ensures r.Valid() && forall k :: k in r.nodes <==> k in m.nodes
  {
    m.Put(name, m.nodes[name].(parentGroupName := parent))
  }

  /**
   * Parent linking for a group name: record the name among the parent's
   * children (once), synthesising the parent when it is missing, with the id
   * the group lookup gives it or else the next counter value.
   */
  function LinkParent(m: GroupMap, name: string, lookup: map<string, nat>, fakeId: nat): (r: (GroupMap, nat))
    requires m.Valid() && name in m.nodes
    ensures r.0.Valid() && forall k :: k in m.nodes ==> k in r.0.nodes
  {
    if !HasParent(name) then (m, fakeId)
    else
      var parent := ParentName(name);
      if parent in m.nodes then (SetParentName(AppendChild(m, parent, name), name, parent), fakeId)
      else if parent in lookup then (SetParentName(NewParent(m, parent, name, lookup[parent]), name, parent), fakeId)
      else (SetParentName(NewParent(m, parent, name, fakeId), name, parent), fakeId + 1)
  }

  function AddGroup(m: GroupMap, hostid: nat, g: GroupRef, lookup: map<string, nat>, fakeId: nat): (r: (GroupMap, nat))
    requires m.Valid()
    ensures r.0.Valid()
  {
    LinkParent(AddMember(m, hostid, g), g.name, lookup, fakeId)
  }

  /** All groups of one host, in order; the counter starts again at 10000 for each host. */
  function AddHostGroups(m: GroupMap, hostid: nat, groups: seq<GroupRef>, lookup: map<string, nat>): (r: (GroupMap, nat))
    requires m.Valid()
    ensures r.0.Valid()
    decreases |groups|
  {
    if groups == [] then (m, FakeGroupIdStart)
    else
      var r := AddHostGroups(m, hostid, groups[..|groups| - 1], lookup);
      AddGroup(r.0, hostid, groups[|groups| - 1], lookup, r.1)
  }

  /** `$host_groups` after the loop over `hosts`. */
  function BuildGroups(hosts: seq<Host>, lookup: map<string, nat>): (r: GroupMap)
    ensures r.Valid()
    decreases |hosts|
  {
    if hosts == [] then EmptyGroups
    else
      var h := hosts[|hosts| - 1];
      AddHostGroups(BuildGroups(hosts[..|hosts| - 1], lookup), h.hostid, h.groups, lookup).0
  }

  // ---------------------------------------------------------------------
  // What the tree looks like: specification predicates and functions.

  /** The direct hosts of a group name, empty when it is not a key. */
  function HostsIn(m: GroupMap, name: string): seq<nat>
  {
    if name in m.nodes then m.nodes[name].hosts else []
  }

  /** The host id once per membership of `name` among `groups`. */
  function Occurrences(hostid: nat, groups: seq<GroupRef>, name: string): seq<nat>
    decreases |groups|
  {
    if groups == [] then []
    else
      var last := if groups[|groups| - 1].name == name then [hostid] else [];
      Occurrences(hostid, groups[..|groups| - 1], name) + last
  }

  /** The expected direct host list of a group: in host order, once per membership. */
  function MemberEntries(hosts: seq<Host>, name: string): seq<nat>
    decreases |hosts|
  {
    if hosts == [] then []
    else
      var h := hosts[|hosts| - 1];
      MemberEntries(hosts[..|hosts| - 1], name) + Occurrences(h.hostid, h.groups, name)
  }

  /** The names of the groups the hosts belong to directly. */
  function GroupNamesOf(groups: seq<GroupRef>): set<string>
  {
    set g | g in groups :: g.name
  }

  ghost function MemberNames(hosts: seq<Host>): set<string>
    decreases |hosts|
  {
    if hosts == [] then {}
    else MemberNames(hosts[..|hosts| - 1]) + GroupNamesOf(hosts[|hosts| - 1].groups)
  }

  predicate NoDuplicates(s: seq<string>) {
    forall i, j :: 0 <= i < j < |s| ==> s[i] != s[j]
  }

  ghost predicate AllCollapsed(m: GroupMap) {
    forall n :: n in m.nodes ==> m.nodes[n].isCollapsed
  }

  /** Every listed child is a key and a child of the node that lists it. */
  ghost predicate ChildrenLinked(m: GroupMap) {
    forall p, c :: p in m.nodes && c in m.nodes[p].children ==> c in m.nodes && ChildOf(c, p)
  }

  ghost predicate ChildrenDistinct(m: GroupMap) {
    forall p :: p in m.nodes ==> NoDuplicates(m.nodes[p].children)
  }

  /** A non-empty parent field names the real parent. */
  ghost predicate ParentFieldsSound(m: GroupMap) {
    forall n :: n in m.nodes && m.nodes[n].parentGroupName != "" ==> ChildOf(n, m.nodes[n].parentGroupName)
  }

  /** Every node is collapsed; children are keys whose parent is this node, each listed once; the parent field is '' or the real parent. */
  ghost predicate TreeShape(m: GroupMap) {
    AllCollapsed(m) && ChildrenLinked(m) && ChildrenDistinct(m) && ParentFieldsSound(m)
  }

  /** A member group is a key; when it has a '/', it is among its parent's children and names that parent. */
  ghost predicate MembersLinked(m: GroupMap, members: set<string>)
  {
    && members <= m.nodes.Keys
    && (forall n :: n in members && HasParent(n) ==>
          && ParentName(n) in m.nodes
          && n in m.nodes[ParentName(n)].children
          && m.nodes[n].parentGroupName == ParentName(n))
  }

  /** A key that no host belongs to is a synthesised parent: no hosts, parent name '', at least one child. */
  ghost predicate OthersSynthesised(m: GroupMap, members: set<string>)
  {
    forall n :: n in m.nodes && n !in members ==>
      m.nodes[n].hosts == [] && m.nodes[n].parentGroupName == "" && m.nodes[n].children != []
  }

  ghost predicate MemberShape(m: GroupMap, members: set<string>)
  {
    MembersLinked(m, members) && OthersSynthesised(m, members)
  }

  // ---------------------------------------------------------------------
  // Storing one node.

  lemma PutKeepsShape(m: GroupMap, k: string, node: Node)
    requires m.Valid() && TreeShape(m)
    requires node.isCollapsed && NoDuplicates(node.children)
    requires forall c :: c in node.children ==> (c in m.nodes || c == k) && ChildOf(c, k)
    requires node.parentGroupName != "" ==> ChildOf(k, node.parentGroupName)
    ensures TreeShape(m.Put(k, node))
  {
    PutKeepsChildrenLinked(m, k, node);
    PutKeepsChildrenDistinct(m, k, node);
    PutKeepsParentFields(m, k, node);
  }

  lemma PutKeepsChildrenLinked(m: GroupMap, k: string, node: Node)
    requires m.Valid() && ChildrenLinked(m)
    requires forall c :: c in node.children ==> (c in m.nodes || c == k) && ChildOf(c, k)
    ensures ChildrenLinked(m.Put(k, node))
  {
    var r := m.Put(k, node);
    forall p, c | p in r.nodes && c in r.nodes[p].children
      ensures c in r.nodes && ChildOf(c, p)
    {
      if p != k { assert c in m.nodes[p].children; }
    }
  }

  lemma PutKeepsChildrenDistinct(m: GroupMap, k: string, node: Node)
    requires m.Valid() && ChildrenDistinct(m) && NoDuplicates(node.children)
    ensures ChildrenDistinct(m.Put(k, node))
  {
    var r := m.Put(k, node);
    forall p | p in r.nodes ensures NoDuplicates(r.nodes[p].children) {
      if p != k { assert NoDuplicates(m.nodes[p].children); }
    }
  }

  lemma PutKeepsParentFields(m: GroupMap, k: string, node: Node)
    requires m.Valid() && ParentFieldsSound(m)
    requires node.parentGroupName != "" ==> ChildOf(k, node.parentGroupName)
    ensures ParentFieldsSound(m.Put(k, node))
  {
    var r := m.Put(k, node);
    forall n | n in r.nodes && r.nodes[n].parentGroupName != ""
      ensures ChildOf(n, r.nodes[n].parentGroupName)
    {
      if n != k { assert m.nodes[n].parentGroupName != ""; }
    }
  }

  lemma PutKeepsLinks(m: GroupMap, k: string, node: Node, linked: set<string>)
    requires m.Valid() && MembersLinked(m, linked)
    requires k in m.nodes ==> forall c :: c in m.nodes[k].children ==> c in node.children
    requires k in linked && HasParent(k) ==> node.parentGroupName == ParentName(k)
    ensures MembersLinked(m.Put(k, node), linked)
  {
    var r := m.Put(k, node);
    forall n | n in linked && HasParent(n)
      ensures ParentName(n) in r.nodes && n in r.nodes[ParentName(n)].children
      ensures r.nodes[n].parentGroupName == ParentName(n)
    {
      assert n in m.nodes[ParentName(n)].children;
    }
  }

  lemma PutKeepsOthers(m: GroupMap, k: string, node: Node, members: set<string>)
    requires m.Valid() && OthersSynthesised(m, members)
    requires k !in members ==> node.hosts == [] && node.parentGroupName == "" && node.children != []
    ensures OthersSynthesised(m.Put(k, node), members)
  {
  }

  // ---------------------------------------------------------------------
  // One membership step, piece by piece. `linked` are the names already
  // linked to their parent, `members` the names some host belongs to.

  lemma AddMemberFacts(m: GroupMap, hostid: nat, g: GroupRef, linked: set<string>, members: set<string>)
    requires m.Valid() && TreeShape(m) && MembersLinked(m, linked) && OthersSynthesised(m, members)
    ensures var r := AddMember(m, hostid, g);
      && TreeShape(r)
      && MembersLinked(r, linked)
      && OthersSynthesised(r, members + {g.name})
      && (forall n :: HostsIn(r, n) == HostsIn(m, n) + (if n == g.name then [hostid] else []))
  {
    var node := if g.name in m.nodes then m.nodes[g.name].(hosts := m.nodes[g.name].hosts + [hostid])
      else Node(g.groupid, [hostid], [], "", true);
    if g.name in m.nodes {
      assert NoDuplicates(m.nodes[g.name].children);
      forall c | c in node.children ensures c in m.nodes && ChildOf(c, g.name) {
        assert c in m.nodes[g.name].children;
      }
      assert node.parentGroupName != "" ==> m.nodes[g.name].parentGroupName != "";
    }
    PutKeepsShape(m, g.name, node);
    PutKeepsLinks(m, g.name, node, linked);
    PutKeepsOthers(m, g.name, node, members + {g.name});
  }

  lemma AppendChildFacts(m: GroupMap, parent: string, name: string, linked: set<string>, members: set<string>)
    requires m.Valid() && parent in m.nodes && name in m.nodes && ChildOf(name, parent)
    requires TreeShape(m) && MembersLinked(m, linked) && OthersSynthesised(m, members)
    ensures var r := AppendChild(m, parent, name);
      && TreeShape(r) && MembersLinked(r, linked) && OthersSynthesised(r, members)
      && name in r.nodes[parent].children
      && (forall n :: HostsIn(r, n) == HostsIn(m, n))
  {
    var node := m.nodes[parent];
    if name !in node.children {
      var kids := node.children + [name];
      var node' := node.(children := kids);
      assert NoDuplicates(node.children);
      forall i, j | 0 <= i < j < |kids| ensures kids[i] != kids[j] {
        if j == |kids| - 1 { assert kids[i] in node.children; }
      }
      forall c | c in kids ensures c in m.nodes && ChildOf(c, parent) {
        if c != name { assert c in node.children; }
      }
      assert node'.parentGroupName != "" ==> node.parentGroupName != "";
      PutKeepsShape(m, parent, node');
      PutKeepsLinks(m, parent, node', linked);
      PutKeepsOthers(m, parent, node', members);
    }
  }

  lemma NewParentFacts(m: GroupMap, parent: string, name: string, groupid: nat, linked: set<string>, members: set<string>)
    requires m.Valid() && parent !in m.nodes && name in m.nodes && ChildOf(name, parent)
    requires TreeShape(m) && MembersLinked(m, linked) && OthersSynthesised(m, members)
    ensures var r := NewParent(m, parent, name, groupid);
      && TreeShape(r) && MembersLinked(r, linked) && OthersSynthesised(r, members)
      && name in r.nodes[parent].children
      && (forall n :: HostsIn(r, n) == HostsIn(m, n))
  {
    var node := Node(groupid, [], [name], "", true);
    PutKeepsShape(m, parent, node);
    PutKeepsLinks(m, parent, node, linked);
    PutKeepsOthers(m, parent, node, members);
  }

  lemma SetParentNameFacts(m: GroupMap, name: string, parent: string, linked: set<string>, members: set<string>)
    requires m.Valid() && name in m.nodes && parent in m.nodes && ChildOf(name, parent)
    requires name in m.nodes[parent].children && name in members
    requires TreeShape(m) && MembersLinked(m, linked) && OthersSynthesised(m, members)
    ensures var r := SetParentName(m, name, parent);
      && TreeShape(r) && MembersLinked(r, linked + {name}) && OthersSynthesised(r, members)
      && (forall n :: HostsIn(r, n) == HostsIn(m, n))
  {
    ParentShorter(name);
    var node := m.nodes[name].(parentGroupName := parent);
    assert NoDuplicates(m.nodes[name].children);
    forall c | c in node.children ensures c in m.nodes && ChildOf(c, name) {
      assert c in m.nodes[name].children;
    }
    PutKeepsShape(m, name, node);
    PutKeepsLinks(m, name, node, linked);
    PutKeepsOthers(m, name, node, members);
    var r := SetParentName(m, name, parent);
    assert r.nodes[parent] == m.nodes[parent];
  }

  /** Linking a member name keeps the tree's shape and makes the name a linked member. */
  lemma LinkParentFacts(m: GroupMap, name: string, lookup: map<string, nat>, fakeId: nat,
                        linked: set<string>, members: set<string>)
    requires m.Valid() && name in m.nodes && name in members
    requires TreeShape(m) && MembersLinked(m, linked) && OthersSynthesised(m, members)
    ensures var r := LinkParent(m, name, lookup, fakeId).0;
      && TreeShape(r) && MembersLinked(r, linked + {name}) && OthersSynthesised(r, members)
      && (forall n :: HostsIn(r, n) == HostsIn(m, n))
  {
    if HasParent(name) {
      var parent := ParentName(name);
      if parent in m.nodes {
        AppendChildFacts(m, parent, name, linked, members);
        SetParentNameFacts(AppendChild(m, parent, name), name, parent, linked, members);
      } else {
        var id := if parent in lookup then lookup[parent] else fakeId;
        NewParentFacts(m, parent, name, id, linked, members);
        SetParentNameFacts(NewParent(m, parent, name, id), name, parent, linked, members);
      }
    }
  }

  /** What synthesis produces: a node at the end with no hosts, the one child, parent '' and the lookup id or the counter. */
  lemma SynthesisedParent(m: GroupMap, name: string, lookup: map<string, nat>, fakeId: nat)
    requires m.Valid() && name in m.nodes && HasParent(name) && ParentName(name) !in m.nodes
    ensures var r := LinkParent(m, name, lookup, fakeId);
      var parent := ParentName(name);
      && r.0.names == m.names + [parent]
      && r.0.nodes[parent] == Node(if parent in lookup then lookup[parent] else fakeId, [], [name], "", true)
      && r.1 == (if parent in lookup then fakeId else fakeId + 1)
      && r.0.nodes[name].parentGroupName == parent
  {
    ParentShorter(name);
  }

  /** The counter moves only when a parent is synthesised without a lookup id. */
  lemma CounterUnchanged(m: GroupMap, name: string, lookup: map<string, nat>, fakeId: nat)
    requires m.Valid() && name in m.nodes
    requires !HasParent(name) || ParentName(name) in m.nodes || ParentName(name) in lookup
    ensures LinkParent(m, name, lookup, fakeId).1 == fakeId
  {
  }

  // ---------------------------------------------------------------------
  // The folds.

  lemma {:induction false} AddHostGroupsFacts(m: GroupMap, hostid: nat, groups: seq<GroupRef>,
                                              lookup: map<string, nat>, members: set<string>)
    requires m.Valid() && TreeShape(m) && MemberShape(m, members)
    ensures var r := AddHostGroups(m, hostid, groups, lookup);
      && TreeShape(r.0)
      && MemberShape(r.0, members + GroupNamesOf(groups))
    decreases |groups|
  {
    if groups == [] {
      assert GroupNamesOf(groups) == {};
    } else {
      var init := groups[..|groups| - 1];
      var g := groups[|groups| - 1];
      AddHostGroupsFacts(m, hostid, init, lookup, members);
      var r1 := AddHostGroups(m, hostid, init, lookup);
      AddGroupFacts(r1.0, hostid, g, lookup, r1.1, members + GroupNamesOf(init));
      GroupNamesSnoc(groups);
      UnionAssoc(members, GroupNamesOf(init), {g.name});
    }
  }

  lemma UnionAssoc<T>(a: set<T>, b: set<T>, c: set<T>)
    ensures a + (b + c) == a + b + c
  {
  }

  /** The groups of one host add that host once per membership, in order, to each group's list. */
  lemma {:induction false} AddHostGroupsHosts(m: GroupMap, hostid: nat, groups: seq<GroupRef>, lookup: map<string, nat>,
                                              n: string)
    requires m.Valid()
    ensures HostsIn(AddHostGroups(m, hostid, groups, lookup).0, n) == HostsIn(m, n) + Occurrences(hostid, groups, n)
    decreases |groups|
  {
    if groups != [] {
      var init := groups[..|groups| - 1];
      var g := groups[|groups| - 1];
      AddHostGroupsHosts(m, hostid, init, lookup, n);
      var r1 := AddHostGroups(m, hostid, init, lookup);
      AddGroupHosts(r1.0, hostid, g, lookup, r1.1, n);
      var last := if n == g.name then [hostid] else [];
      assert Occurrences(hostid, groups, n) == Occurrences(hostid, init, n) + last;
      AppendAssoc(HostsIn(m, n), Occurrences(hostid, init, n), last);
    }
  }

  lemma AppendAssoc<T>(a: seq<T>, b: seq<T>, c: seq<T>)
    ensures (a + b) + c == a + (b + c)
  {
  }

  lemma AddGroupHosts(m: GroupMap, hostid: nat, g: GroupRef, lookup: map<string, nat>, fakeId: nat, n: string)
    requires m.Valid()
    ensures HostsIn(AddGroup(m, hostid, g, lookup, fakeId).0, n) == HostsIn(m, n) + (if n == g.name then [hostid] else [])
  {
    var m2 := AddMember(m, hostid, g);
    assert HostsIn(m2, n) == HostsIn(m, n) + (if n == g.name then [hostid] else []);
    LinkParentHosts(m2, g.name, lookup, fakeId, n);
  }

  /** Linking a name to its parent leaves every host list as it was. */
  lemma LinkParentHosts(m: GroupMap, name: string, lookup: map<string, nat>, fakeId: nat, n: string)
    requires m.Valid() && name in m.nodes
    ensures HostsIn(LinkParent(m, name, lookup, fakeId).0, n) == HostsIn(m, n)
  {
    if HasParent(name) {
      var parent := ParentName(name);
      var m1;
      if parent in m.nodes {
        m1 := AppendChild(m, parent, name);
        if name !in m.nodes[parent].children {
          PutKeepsHosts(m, parent, m.nodes[parent].(children := m.nodes[parent].children + [name]), n);
        }
      } else {
        var id := if parent in lookup then lookup[parent] else fakeId;
        m1 := NewParent(m, parent, name, id);
        PutKeepsHosts(m, parent, Node(id, [], [name], "", true), n);
      }
      PutKeepsHosts(m1, name, m1.nodes[name].(parentGroupName := parent), n);
      assert LinkParent(m, name, lookup, fakeId).0 == SetParentName(m1, name, parent);
    }
  }

  /** Storing a node with the host list the key already had leaves every host list as it was. */
  lemma PutKeepsHosts(m: GroupMap, key: string, node: Node, n: string)
    requires m.Valid() && node.hosts == HostsIn(m, key)
    ensures HostsIn(m.Put(key, node), n) == HostsIn(m, n)
  {
  }

  /** One membership: the tree keeps its shape, the group becomes a linked member and gains the host. */
  lemma AddGroupFacts(m: GroupMap, hostid: nat, g: GroupRef, lookup: map<string, nat>, fakeId: nat, members: set<string>)
    requires m.Valid() && TreeShape(m) && MemberShape(m, members)
    ensures var r := AddGroup(m, hostid, g, lookup, fakeId).0;
      && TreeShape(r)
      && MemberShape(r, members + {g.name})
  {
    AddMemberFacts(m, hostid, g, members, members);
    LinkParentFacts(AddMember(m, hostid, g), g.name, lookup, fakeId, members, members + {g.name});
  }

  lemma GroupNamesSnoc(groups: seq<GroupRef>)
    requires groups != []
    ensures GroupNamesOf(groups) == GroupNamesOf(groups[..|groups| - 1]) + {groups[|groups| - 1].name}
  {
    var init := groups[..|groups| - 1];
    assert groups == init + [groups[|groups| - 1]];
  }

  /**
   * The group tree after all hosts: every group of every host is a key whose
   * host list is exactly that host id once per membership in host order,
   * every member group with a '/' is listed once among its parent's children
   * and names that parent, every other key is a synthesised parent with no
   * hosts, parent name '' and a child, and every node is collapsed.
   */
  lemma {:induction false} BuildGroupsFacts(hosts: seq<Host>, lookup: map<string, nat>)
    ensures var m := BuildGroups(hosts, lookup);
      && TreeShape(m)
      && MemberShape(m, MemberNames(hosts))
      && (forall n :: HostsIn(m, n) == MemberEntries(hosts, n))
    decreases |hosts|
  {
    if hosts != [] {
      var init := hosts[..|hosts| - 1];
      var h := hosts[|hosts| - 1];
      BuildGroupsFacts(init, lookup);
      AddHostGroupsFacts(BuildGroups(init, lookup), h.hostid, h.groups, lookup, MemberNames(init));
      forall n ensures HostsIn(BuildGroups(hosts, lookup), n) == MemberEntries(hosts, n) {
        AddHostGroupsHosts(BuildGroups(init, lookup), h.hostid, h.groups, lookup, n);
      }
    }
  }

  /** The entries of a host list are host ids of those hosts. */
  lemma {:induction false} MemberEntriesAreHosts(hosts: seq<Host>, name: string)
    ensures forall x :: x in MemberEntries(hosts, name) ==> exists k :: 0 <= k < |hosts| && hosts[k].hostid == x
    decreases |hosts|
  {
    if hosts != [] {
      var init := hosts[..|hosts| - 1];
      var h := hosts[|hosts| - 1];
      MemberEntriesAreHosts(init, name);
      OccurrencesAreHost(h.hostid, h.groups, name);
      forall x | x in MemberEntries(hosts, name) ensures exists k :: 0 <= k < |hosts| && hosts[k].hostid == x {
        if x in MemberEntries(init, name) {
          var k :| 0 <= k < |init| && init[k].hostid == x;
          assert hosts[k] == init[k];
        } else {
          assert hosts[|hosts| - 1].hostid == x;
        }
      }
    }
  }

  lemma {:induction false} OccurrencesAreHost(hostid: nat, groups: seq<GroupRef>, name: string)
    ensures forall x :: x in Occurrences(hostid, groups, name) ==> x == hostid
    decreases |groups|
  {
    if groups != [] {
      OccurrencesAreHost(hostid, groups[..|groups| - 1], name);
    }
  }

  /** Parent linking, as the view and the script rely on it: a child is strictly longer than its parent. */
  lemma ChildLongerThanParent(m: GroupMap, p: string, c: string)
    requires TreeShape(m) && p in m.nodes && c in m.nodes[p].children
    ensures c in m.nodes && |p| < |c|
  {
    assert ChildOf(c, p);
    ParentShorter(c);
  }

  // ---------------------------------------------------------------------
  // How the code departs from a globally consistent tree.

  lemma BuildGroupsSnoc(hosts: seq<Host>, h: Host, lookup: map<string, nat>)
    ensures BuildGroups(hosts + [h], lookup) == AddHostGroups(BuildGroups(hosts, lookup), h.hostid, h.groups, lookup).0
  {
    assert (hosts + [h])[..|hosts|] == hosts;
  }

  /** A host in one new group "a/b" whose parent "a" is unknown: "a" is synthesised with the first counter value. */
  lemma SingleGroupSynthesis(m: GroupMap, hostid: nat, g: GroupRef, a: string, b: string)
    requires m.Valid() && '/' !in b && g.name == a + "/" + b
    requires g.name !in m.nodes && a !in m.nodes
    ensures var r := AddHostGroups(m, hostid, [g], map[]).0;
      && (forall k :: k in r.nodes <==> k in m.nodes || k == g.name || k == a)
      && r.nodes[a].groupid == FakeGroupIdStart
      && (forall k :: k in m.nodes ==> r.nodes[k] == m.nodes[k])
  {
    JoinParent(a, b);
    var a1 := AddMember(m, hostid, g);
    SynthesisedParent(a1, g.name, map[], FakeGroupIdStart);
    assert [g][..0] == [];
    assert AddHostGroups(m, hostid, [g], map[]) == LinkParent(a1, g.name, map[], FakeGroupIdStart);
  }

  /**
   * Two hosts in groups "a/x" and "b/y" with different unknown parents: both
   * parents are synthesised, and both get id 10000 because the counter starts
   * again for every host.
   */
  lemma FakeIdsRepeatAcrossHosts(h1: Host, h2: Host, a: string, x: string, b: string, y: string)
    requires '/' !in a && '/' !in x && '/' !in b && '/' !in y && a != b
    requires |h1.groups| == 1 && h1.groups[0].name == a + "/" + x
    requires |h2.groups| == 1 && h2.groups[0].name == b + "/" + y
    ensures var m := BuildGroups([h1, h2], map[]);
      && a in m.nodes && b in m.nodes
      && m.nodes[a].groupid == FakeGroupIdStart && m.nodes[b].groupid == FakeGroupIdStart
  {
    SeparateNames(a, x, b, y);
    assert h1.groups == [h1.groups[0]] && h2.groups == [h2.groups[0]];
    SingleGroupSynthesis(EmptyGroups, h1.hostid, h1.groups[0], a, x);
    var m1 := AddHostGroups(EmptyGroups, h1.hostid, h1.groups, map[]).0;
    assert b !in m1.nodes && b + "/" + y !in m1.nodes;
    SingleGroupSynthesis(m1, h2.hostid, h2.groups[0], b, y);
    BuildGroupsTwo(h1, h2, map[]);
  }

  /** The four names of two one-level groups under different roots are pairwise different. */
  lemma SeparateNames(a: string, x: string, b: string, y: string)
    requires '/' !in a && '/' !in x && '/' !in b && '/' !in y && a != b
    ensures b != a && b != a + "/" + x && b + "/" + y != a + "/" + x && b + "/" + y != a
  {
    assert (a + "/" + x)[|a|] == '/' && (b + "/" + y)[|b|] == '/';
    JoinParent(a, x);
    JoinParent(b, y);
  }

  lemma BuildGroupsTwo(h1: Host, h2: Host, lookup: map<string, nat>)
    ensures BuildGroups([h1, h2], lookup)
      == AddHostGroups(AddHostGroups(EmptyGroups, h1.hostid, h1.groups, lookup).0, h2.hostid, h2.groups, lookup).0
  {
    BuildGroupsOne(h1, lookup);
    BuildGroupsSnoc([h1], h2, lookup);
    assert [h1] + [h2] == [h1, h2];
  }

  lemma BuildGroupsOne(h: Host, lookup: map<string, nat>)
    ensures BuildGroups([h], lookup) == AddHostGroups(EmptyGroups, h.hostid, h.groups, lookup).0
  {
    assert [h][..0] == [];
  }

  lemma AddHostGroupsOne(m: GroupMap, hostid: nat, groups: seq<GroupRef>, lookup: map<string, nat>)
    requires m.Valid() && |groups| == 1
    ensures AddHostGroups(m, hostid, groups, lookup) == LinkParent(AddMember(m, hostid, groups[0]), groups[0].name, lookup, FakeGroupIdStart)
  {
    assert groups[..0] == [];
  }

  /**
   * Synthesis goes one level up only: a host whose only group is "p/c", with
   * "p" itself holding a '/', gets "p" created as a root, and the parent of
   * "p" is never created.
   */
  lemma SynthesisIsOneLevel(h: Host, p: string, c: string, lookup: map<string, nat>)
    requires '/' !in c && HasParent(p) && |h.groups| == 1 && h.groups[0].name == p + "/" + c
    ensures var m := BuildGroups([h], lookup);
      && m.names == [h.groups[0].name, p]
      && m.nodes[p].parentGroupName == ""
      && m.nodes[p].children == [h.groups[0].name]
      && m.nodes[h.groups[0].name].parentGroupName == p
      && ParentName(p) !in m.nodes
  {
    var g := h.groups[0];
    JoinParent(p, c);
    ParentShorter(p);
    var a := AddMember(EmptyGroups, h.hostid, g);
    assert a.names == [g.name];
    SynthesisedParent(a, g.name, lookup, FakeGroupIdStart);
    BuildGroupsOne(h, lookup);
    AddHostGroupsOne(EmptyGroups, h.hostid, h.groups, lookup);
    var m := BuildGroups([h], lookup);
    assert m.names == [g.name] + [p];
    ShorterNotListed(ParentName(p), g.name, p);
  }

  /**
   * A group whose name starts with its only '/' gets the synthesised parent
   * '' and keeps '' as its own parent field: both it and the '' node look
   * like top-level groups, and it is also listed as the child of ''.
   */
  lemma LeadingSlashTwice(h: Host, x: string, lookup: map<string, nat>)
    requires '/' !in x && |h.groups| == 1 && h.groups[0].name == "/" + x
    ensures var m := BuildGroups([h], lookup);
      && m.names == ["/" + x, ""]
      && m.nodes["/" + x].parentGroupName == ""
      && m.nodes[""].parentGroupName == ""
      && m.nodes[""].children == ["/" + x]
  {
    var g := h.groups[0];
    LeadingSlashParent(x);
    var a := AddMember(EmptyGroups, h.hostid, g);
    assert a.names == [g.name];
    SynthesisedParent(a, g.name, lookup, FakeGroupIdStart);
    BuildGroupsOne(h, lookup);
    AddHostGroupsOne(EmptyGroups, h.hostid, h.groups, lookup);
    var m := BuildGroups([h], lookup);
    assert m.names == [g.name] + [""];
  }

  lemma ShorterNotListed(x: string, u: string, v: string)
    requires |x| < |v| < |u|
    ensures x !in [u, v]
  {
  }
}
