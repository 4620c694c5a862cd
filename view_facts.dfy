/**
 * What the rendered table says about the group tree: every row describes its
 * group or host correctly (indentation, title, toggle id, visibility, parent
 * attribute, cells), a group's rows start with its header and list the
 * groups of its subtree in pre-order, followed by the host entries of that
 * subtree.
 */
module RowFacts {
  import opened HostTypes
  import opened GroupNames
  import opened GroupTree
  import opened HostCells
  import opened HostRows
  import opened HostProcessing

  /** What one row says about the group or host it was made from. */
  ghost predicate RowFaithful(d: ViewData, cm: map<nat, Cells>, row: Row) {
    match row
    case GroupHeader(g, id, level, spacers, title, collapsed, hidden, parentId) =>
      && g in d.tree.nodes && id == d.tree.nodes[g].groupid
      && spacers == 5 * level && title == LastPiece(g)
      && collapsed == d.tree.nodes[g].isCollapsed
      && hidden == (collapsed && parentId.Some?)
    case HostLine(h, g, level, spacers, hidden, parentId, cells) =>
      && g in d.tree.nodes && h in d.tree.nodes[g].hosts && h in cm
      && spacers == 7 + 5 * level && hidden == d.tree.nodes[g].isCollapsed
      && parentId == (if g != "" then Some(d.tree.nodes[g].groupid) else None) && cells == cm[h]
  }

  /** Every row is faithful and at depth `level` or deeper. */
  ghost predicate Faithful(d: ViewData, cm: map<nat, Cells>, rows: seq<Row>, level: nat) {
    forall i :: 0 <= i < |rows| ==> RowFaithful(d, cm, rows[i]) && rows[i].level >= level
  }

  /** Every header among `rows` is deeper than `level`. */
  predicate HeadersBelow(rows: seq<Row>, level: nat) {
    forall i :: 0 <= i < |rows| && rows[i].GroupHeader? ==> rows[i].level > level
  }

  lemma FaithfulAppend(d: ViewData, cm: map<nat, Cells>, a: seq<Row>, b: seq<Row>, level: nat)
    requires Faithful(d, cm, a, level) && Faithful(d, cm, b, level)
    ensures Faithful(d, cm, a + b, level)
  {
    forall i | 0 <= i < |a + b| ensures RowFaithful(d, cm, (a + b)[i]) && (a + b)[i].level >= level {
      if i < |a| { assert (a + b)[i] == a[i]; } else { assert (a + b)[i] == b[i - |a|]; }
    }
  }

  lemma HeadersBelowAppend(a: seq<Row>, b: seq<Row>, level: nat)
    requires HeadersBelow(a, level) && HeadersBelow(b, level)
    ensures HeadersBelow(a + b, level)
  {
    forall i | 0 <= i < |a + b| && (a + b)[i].GroupHeader? ensures (a + b)[i].level > level {
      if i < |a| { assert (a + b)[i] == a[i]; } else { assert (a + b)[i] == b[i - |a|]; }
    }
  }

  /** The host rows of a group: faithful, at the group's level, no headers. */
  lemma {:induction false} HostRowsFacts(d: ViewData, cm: map<nat, Cells>, name: string, level: nat, n: nat)
    requires Renderable(d) && d.hosts.Keys <= cm.Keys && name in d.tree.nodes && n <= |d.tree.nodes[name].hosts|
    ensures Faithful(d, cm, HostRowsOf(d, cm, name, level, n), level)
    ensures HeadersBelow(HostRowsOf(d, cm, name, level, n), level)
  {
    if n > 0 {
      HostRowsFacts(d, cm, name, level, n - 1);
      var h := d.tree.nodes[name].hosts[n - 1];
      assert h in d.tree.nodes[name].hosts;
      var row := HostRow(d, cm, name, level, h);
      assert RowFaithful(d, cm, row);
      FaithfulAppend(d, cm, HostRowsOf(d, cm, name, level, n - 1), [row], level);
      HeadersBelowAppend(HostRowsOf(d, cm, name, level, n - 1), [row], level);
    }
  }

  /** The rows of a group: faithful, at its level or deeper, with its header the only row at its level that is a header. */
  lemma {:induction false} GroupRowsFacts(d: ViewData, cm: map<nat, Cells>, name: string, parent: string, level: nat)
    requires Renderable(d) && d.hosts.Keys <= cm.Keys
    requires name in d.tree.nodes && (parent == "" || parent in d.tree.nodes)
    ensures Faithful(d, cm, GroupRows(d, cm, name, parent, level), level)
    ensures HeadersBelow(GroupRows(d, cm, name, parent, level)[1..], level)
    decreases Height(d, name), |d.tree.nodes[name].children| + 1
  {
    var node := d.tree.nodes[name];
    var children := ChildRows(d, cm, name, level, |node.children|);
    var hosts := HostRowsOf(d, cm, name, level, |node.hosts|);
    ChildRowsFacts(d, cm, name, level, |node.children|);
    HostRowsFacts(d, cm, name, level, |node.hosts|);
    ShallowerFaithful(d, cm, children, level);
    HeaderFaithful(d, cm, name, parent, level);
    FaithfulAppend(d, cm, children, hosts, level);
    HeadersBelowAppend(children, hosts, level);
    GroupRowsSplit(d, cm, name, parent, level);
    FaithfulAppend(d, cm, [Header(d, name, parent, level)], children + hosts, level);
  }

  lemma HeaderFaithful(d: ViewData, cm: map<nat, Cells>, name: string, parent: string, level: nat)
    requires name in d.tree.nodes && (parent == "" || parent in d.tree.nodes)
    ensures Faithful(d, cm, [Header(d, name, parent, level)], level)
  {
    assert RowFaithful(d, cm, Header(d, name, parent, level));
  }

  /** A group's rows: its header, then the rest. */
  lemma GroupRowsSplit(d: ViewData, cm: map<nat, Cells>, name: string, parent: string, level: nat)
    requires Renderable(d) && d.hosts.Keys <= cm.Keys
    requires name in d.tree.nodes && (parent == "" || parent in d.tree.nodes)
    ensures var node := d.tree.nodes[name];
      var rest := ChildRows(d, cm, name, level, |node.children|) + HostRowsOf(d, cm, name, level, |node.hosts|);
      && GroupRows(d, cm, name, parent, level) == [Header(d, name, parent, level)] + rest
      && GroupRows(d, cm, name, parent, level)[1..] == rest
  {
    var node := d.tree.nodes[name];
    var header := Header(d, name, parent, level);
    var children := ChildRows(d, cm, name, level, |node.children|);
    var hosts := HostRowsOf(d, cm, name, level, |node.hosts|);
    AppendAssoc3(header, children, hosts);
  }

  lemma AppendAssoc3<T>(x: T, b: seq<T>, c: seq<T>)
    ensures [x] + b + c == [x] + (b + c) && ([x] + (b + c))[1..] == b + c
  {
  }

  /** The rows of the first `n` children of a group: faithful and one level deeper. */
  lemma {:induction false} ChildRowsFacts(d: ViewData, cm: map<nat, Cells>, name: string, level: nat, n: nat)
    requires Renderable(d) && d.hosts.Keys <= cm.Keys && name in d.tree.nodes
    requires n <= |d.tree.nodes[name].children|
    ensures Faithful(d, cm, ChildRows(d, cm, name, level, n), level + 1)
    decreases Height(d, name), n
  {
    if n > 0 {
      var c := d.tree.nodes[name].children[n - 1];
      assert c in d.tree.nodes && Height(d, c) < Height(d, name);
      ChildRowsFacts(d, cm, name, level, n - 1);
      GroupRowsFacts(d, cm, c, name, level + 1);
      FaithfulAppend(d, cm, ChildRows(d, cm, name, level, n - 1), GroupRows(d, cm, c, name, level + 1), level + 1);
    }
  }

  lemma ShallowerFaithful(d: ViewData, cm: map<nat, Cells>, rows: seq<Row>, level: nat)
    requires Faithful(d, cm, rows, level + 1)
    ensures Faithful(d, cm, rows, level) && HeadersBelow(rows, level)
  {
  }

  // ---------------------------------------------------------------------
  // The whole table.

  /** The table from the first `n` keys: every row is faithful. */
  lemma {:induction false} TableRowsFaithful(d: ViewData, cm: map<nat, Cells>, n: nat)
    requires Renderable(d) && d.hosts.Keys <= cm.Keys && n <= |d.tree.names|
    ensures Faithful(d, cm, TableRowsOf(d, cm, n), 0)
  {
    if n > 0 {
      var g := d.tree.names[n - 1];
      var before, top := TableRowsOf(d, cm, n - 1), TopRows(d, cm, g);
      TableRowsFaithful(d, cm, n - 1);
      TopRowsFaithful(d, cm, g);
      FaithfulAppend(d, cm, before, top, 0);
      TableRowsNext(d, cm, n - 1);
    }
  }

  lemma TopRowsFaithful(d: ViewData, cm: map<nat, Cells>, g: string)
    requires Renderable(d) && d.hosts.Keys <= cm.Keys && g in d.tree.nodes
    ensures Faithful(d, cm, TopRows(d, cm, g), 0)
  {
    if d.tree.nodes[g].parentGroupName == "" {
      GroupRowsFacts(d, cm, g, "", 0);
    }
  }

  /**
   * The whole table: every row faithful, and every host row showing the
   * cells computed from that host's record.
   */
  lemma AllRowsFacts(d: ViewData)
    requires Renderable(d)
    ensures var cm := CellsMap(d.hosts, d.severities, d.maintenances);
      Faithful(d, cm, AllRows(d), 0)
    ensures forall i :: 0 <= i < |AllRows(d)| && AllRows(d)[i].HostLine? ==>
      var row := AllRows(d)[i];
      row.hostid in d.hosts && row.cells == CellsOf(d.hosts[row.hostid], d.severities, d.maintenances)
  {
    var cm := CellsMap(d.hosts, d.severities, d.maintenances);
    TableRowsFaithful(d, cm, |d.tree.names|);
    forall i | 0 <= i < |AllRows(d)| && AllRows(d)[i].HostLine?
      ensures AllRows(d)[i].hostid in d.hosts
    {
      var row := AllRows(d)[i];
      assert RowFaithful(d, cm, row);
      var k :| 0 <= k < |d.tree.nodes[row.group].hosts| && d.tree.nodes[row.group].hosts[k] == row.hostid;
    }
  }

  /**
   * The tree the controller builds is one the view can render, provided
   * every host of the list has a record: names are distinct keys, every
   * child is a longer key, and every listed host id is a known host.
   */
  lemma ControllerTreeRenderable(hosts: seq<Host>, lookup: map<string, nat>, hostMap: map<nat, Host>,
                                 severities: seq<int>, maintenances: map<nat, Maintenance>)
    requires forall k :: 0 <= k < |hosts| ==> hosts[k].hostid in hostMap
    ensures Renderable(ViewData(BuildGroups(hosts, lookup), hostMap, severities, maintenances))
  {
    var t := BuildGroups(hosts, lookup);
    BuildGroupsFacts(hosts, lookup);
    ValidNamesBounded(t);
    ShapeChildrenLonger(t);
    BuiltHostsKnown(hosts, t, hostMap, severities, maintenances);
  }

  /** Every key is one of the listed names, so no key is longer than the longest name. */
  lemma ValidNamesBounded(t: GroupMap)
    requires t.Valid()
    ensures NamesBounded(t) && forall i :: 0 <= i < |t.names| ==> t.names[i] in t.nodes
  {
    forall n | n in t.nodes ensures |n| <= MaxLen(t.names) {
      var i :| 0 <= i < |t.names| && t.names[i] == n;
    }
  }

  /** Children that name their parent are longer than it. */
  lemma ShapeChildrenLonger(t: GroupMap)
    requires TreeShape(t)
    ensures ChildrenLonger(t)
  {
    forall p, i | p in t.nodes && 0 <= i < |t.nodes[p].children|
      ensures t.nodes[p].children[i] in t.nodes && |p| < |t.nodes[p].children[i]|
    {
      ChildLongerThanParent(t, p, t.nodes[p].children[i]);
    }
  }

  /** Host lists made of the hosts' own ids name only known hosts. */
  lemma BuiltHostsKnown(hosts: seq<Host>, t: GroupMap, hostMap: map<nat, Host>,
                        severities: seq<int>, maintenances: map<nat, Maintenance>)
    requires forall k :: 0 <= k < |hosts| ==> hosts[k].hostid in hostMap
    requires forall n :: HostsIn(t, n) == MemberEntries(hosts, n)
    ensures HostsKnown(ViewData(t, hostMap, severities, maintenances))
  {
    forall g, i | g in t.nodes && 0 <= i < |t.nodes[g].hosts| ensures t.nodes[g].hosts[i] in hostMap {
      var x := t.nodes[g].hosts[i];
      assert x in HostsIn(t, g);
      assert x in MemberEntries(hosts, g);
      MemberEntriesAreHosts(hosts, g);
      var k :| 0 <= k < |hosts| && hosts[k].hostid == x;
    }
  }

  /**
   * Visibility when every group is collapsed, as the controller leaves them:
   * every host row is hidden, and a header is hidden exactly when its row
   * carries a parent group id, that is, when it was not reached from the top.
   */
  lemma CollapsedVisibility(d: ViewData, cm: map<nat, Cells>, rows: seq<Row>, level: nat)
    requires AllCollapsed(d.tree) && Faithful(d, cm, rows, level)
    ensures forall i :: 0 <= i < |rows| && rows[i].HostLine? ==> rows[i].hidden
    ensures forall i :: 0 <= i < |rows| && rows[i].GroupHeader? ==> (rows[i].hidden <==> rows[i].parentId.Some?)
  {
    forall i | 0 <= i < |rows| ensures RowFaithful(d, cm, rows[i]) {
    }
  }

  /**
   * A host row's maintenance label comes from a host whose maintenance id the
   * controller collected for the maintenance query; when that query did not
   * return the record, the label reads "Inaccessible maintenance".
   */
  lemma LabelledMaintenanceCollected(hosts: seq<Host>, k: nat, maintenances: map<nat, Maintenance>)
    requires k < |hosts|
    ensures MaintenanceLabel(hosts[k], maintenances).Some? ==> hosts[k].maintenanceid in MaintenanceIds(hosts)
    ensures MaintenanceLabel(hosts[k], maintenances).Some? && hosts[k].maintenanceid !in maintenances ==>
      MaintenanceLabel(hosts[k], maintenances).value.name == InaccessibleMaintenance
  {
    MaintenanceIdsMeaning(hosts, hosts[k].maintenanceid);
  }

  // ---------------------------------------------------------------------
  // Pre-order and row count.

  /** The groups of a subtree in pre-order: the group, then the subtrees of its children in list order. */
  function Subtree(d: ViewData, name: string): (r: seq<string>)
    requires Renderable(d) && name in d.tree.nodes
    ensures r != [] && r[0] == name
    decreases Height(d, name), |d.tree.nodes[name].children| + 1
  {
    [name] + Subtrees(d, name, |d.tree.nodes[name].children|)
  }

  /** The subtrees of the first `n` children of `name`, one after the other. */
  function Subtrees(d: ViewData, name: string, n: nat): seq<string>
    requires Renderable(d) && name in d.tree.nodes && n <= |d.tree.nodes[name].children|
    decreases Height(d, name), n
  {
    if n == 0 then []
    else
      var c := d.tree.nodes[name].children[n - 1];
      Subtrees(d, name, n - 1) + Subtree(d, c)
  }

  /** The number of host entries of the listed groups. */
  function HostEntries(t: GroupMap, names: seq<string>): nat
  {
    if names == [] then 0
    else HostEntries(t, names[..|names| - 1]) + HostsAt(t, names[|names| - 1])
  }

  function HostsAt(t: GroupMap, name: string): nat
  {
    if name in t.nodes then |t.nodes[name].hosts| else 0
  }

  /** The groups of the header rows, in order. */
  function Headers(rows: seq<Row>): seq<string>
  {
    if rows == [] then []
    else if rows[|rows| - 1].GroupHeader? then Headers(rows[..|rows| - 1]) + [rows[|rows| - 1].group]
    else Headers(rows[..|rows| - 1])
  }

  /** The number of host rows. */
  function HostLines(rows: seq<Row>): nat
  {
    if rows == [] then 0
    else if rows[|rows| - 1].HostLine? then HostLines(rows[..|rows| - 1]) + 1
    else HostLines(rows[..|rows| - 1])
  }

  lemma {:induction false} HeadersAppend(a: seq<Row>, b: seq<Row>)
    ensures Headers(a + b) == Headers(a) + Headers(b)
    ensures HostLines(a + b) == HostLines(a) + HostLines(b)
    decreases |b|
  {
    if b == [] {
      assert a + b == a;
    } else {
      HeadersAppend(a, b[..|b| - 1]);
      assert (a + b)[..|a + b| - 1] == a + b[..|b| - 1];
    }
  }

  lemma {:induction false} HostEntriesAppend(t: GroupMap, a: seq<string>, b: seq<string>)
    ensures HostEntries(t, a + b) == HostEntries(t, a) + HostEntries(t, b)
    decreases |b|
  {
    if b == [] {
      assert a + b == a;
    } else {
      HostEntriesAppend(t, a, b[..|b| - 1]);
      assert (a + b)[..|a + b| - 1] == a + b[..|b| - 1];
    }
  }

  /** Every row is a header or a host row. */
  lemma {:induction false} RowKinds(rows: seq<Row>)
    ensures |rows| == |Headers(rows)| + HostLines(rows)
    decreases |rows|
  {
    if rows != [] {
      RowKinds(rows[..|rows| - 1]);
    }
  }

  lemma {:induction false} HostRowsCount(d: ViewData, cm: map<nat, Cells>, name: string, level: nat, n: nat)
    requires Renderable(d) && d.hosts.Keys <= cm.Keys && name in d.tree.nodes && n <= |d.tree.nodes[name].hosts|
    ensures Headers(HostRowsOf(d, cm, name, level, n)) == []
    ensures HostLines(HostRowsOf(d, cm, name, level, n)) == n
  {
    if n > 0 {
      HostRowsCount(d, cm, name, level, n - 1);
      var rows := HostRowsOf(d, cm, name, level, n);
      assert rows[..|rows| - 1] == HostRowsOf(d, cm, name, level, n - 1);
    }
  }

  /**
   * The header rows of a group's rows name the groups of its subtree in
   * pre-order, and there is one host row per host entry of that subtree.
   */
  lemma {:induction false} GroupRowsPreorder(d: ViewData, cm: map<nat, Cells>, name: string, parent: string, level: nat)
    requires Renderable(d) && d.hosts.Keys <= cm.Keys
    requires name in d.tree.nodes && (parent == "" || parent in d.tree.nodes)
    ensures Headers(GroupRows(d, cm, name, parent, level)) == Subtree(d, name)
    ensures HostLines(GroupRows(d, cm, name, parent, level)) == HostEntries(d.tree, Subtree(d, name))
    decreases Height(d, name)
  {
    var node := d.tree.nodes[name];
    var k: nat := 0;
    while k < |node.children|
      invariant k <= |node.children|
      invariant Headers(ChildRows(d, cm, name, level, k)) == Subtrees(d, name, k)
      invariant HostLines(ChildRows(d, cm, name, level, k)) == HostEntries(d.tree, Subtrees(d, name, k))
    {
      var c := node.children[k];
      assert c in d.tree.nodes && Height(d, c) < Height(d, name);
      GroupRowsPreorder(d, cm, c, name, level + 1);
      ChildRowsStep(d, cm, name, level, k + 1);
      k := k + 1;
    }
    GroupRowsAssemble(d, cm, name, parent, level);
  }

  /** A group's header, then its children's rows, then its host rows. */
  lemma GroupRowsAssemble(d: ViewData, cm: map<nat, Cells>, name: string, parent: string, level: nat)
    requires Renderable(d) && d.hosts.Keys <= cm.Keys
    requires name in d.tree.nodes && (parent == "" || parent in d.tree.nodes)
    requires var node := d.tree.nodes[name];
      && Headers(ChildRows(d, cm, name, level, |node.children|)) == Subtrees(d, name, |node.children|)
      && HostLines(ChildRows(d, cm, name, level, |node.children|)) == HostEntries(d.tree, Subtrees(d, name, |node.children|))
    ensures Headers(GroupRows(d, cm, name, parent, level)) == Subtree(d, name)
    ensures HostLines(GroupRows(d, cm, name, parent, level)) == HostEntries(d.tree, Subtree(d, name))
  {
    var node := d.tree.nodes[name];
    var header := Header(d, name, parent, level);
    var children := ChildRows(d, cm, name, level, |node.children|);
    var hosts := HostRowsOf(d, cm, name, level, |node.hosts|);
    var below := Subtrees(d, name, |node.children|);
    HostRowsCount(d, cm, name, level, |node.hosts|);
    GroupRowsSplit(d, cm, name, parent, level);
    HeadersAppend(children, hosts);
    HeadersAppend([header], children + hosts);
    assert Headers([header]) == [name] && HostLines([header]) == 0 by {
      assert [header][..0] == [];
    }
    HostEntriesAppend(d.tree, [name], below);
    assert HostEntries(d.tree, [name]) == |node.hosts| by {
      assert [name][..0] == [];
    }
  }

  /** One more child: its header groups and host rows follow those of the children before it. */
  lemma ChildRowsStep(d: ViewData, cm: map<nat, Cells>, name: string, level: nat, n: nat)
    requires Renderable(d) && d.hosts.Keys <= cm.Keys && name in d.tree.nodes
    requires 0 < n <= |d.tree.nodes[name].children|
    requires d.tree.nodes[name].children[n - 1] in d.tree.nodes
    requires Headers(ChildRows(d, cm, name, level, n - 1)) == Subtrees(d, name, n - 1)
    requires HostLines(ChildRows(d, cm, name, level, n - 1)) == HostEntries(d.tree, Subtrees(d, name, n - 1))
    requires Headers(GroupRows(d, cm, d.tree.nodes[name].children[n - 1], name, level + 1))
      == Subtree(d, d.tree.nodes[name].children[n - 1])
    requires HostLines(GroupRows(d, cm, d.tree.nodes[name].children[n - 1], name, level + 1))
      == HostEntries(d.tree, Subtree(d, d.tree.nodes[name].children[n - 1]))
    ensures Headers(ChildRows(d, cm, name, level, n)) == Subtrees(d, name, n)
    ensures HostLines(ChildRows(d, cm, name, level, n)) == HostEntries(d.tree, Subtrees(d, name, n))
  {
    var c := d.tree.nodes[name].children[n - 1];
    ChildRowsLast(d, cm, name, level, n);
    SubtreesLast(d, name, n);
    PreorderConcat(d.tree, ChildRows(d, cm, name, level, n - 1), GroupRows(d, cm, c, name, level + 1),
      Subtrees(d, name, n - 1), Subtree(d, c));
  }

  /** Header groups and host-row counts of a concatenation of rows. */
  lemma PreorderConcat(t: GroupMap, before: seq<Row>, rows: seq<Row>, names: seq<string>, sub: seq<string>)
    requires Headers(before) == names && Headers(rows) == sub
    requires HostLines(before) == HostEntries(t, names) && HostLines(rows) == HostEntries(t, sub)
    ensures Headers(before + rows) == names + sub
    ensures HostLines(before + rows) == HostEntries(t, names + sub)
  {
    HeadersAppend(before, rows);
    HostEntriesAppend(t, names, sub);
  }

  lemma SubtreesLast(d: ViewData, name: string, n: nat)
    requires Renderable(d) && name in d.tree.nodes && 0 < n <= |d.tree.nodes[name].children|
    ensures d.tree.nodes[name].children[n - 1] in d.tree.nodes
    ensures Subtrees(d, name, n) == Subtrees(d, name, n - 1) + Subtree(d, d.tree.nodes[name].children[n - 1])
  {
  }

  lemma ChildRowsLast(d: ViewData, cm: map<nat, Cells>, name: string, level: nat, n: nat)
    requires Renderable(d) && d.hosts.Keys <= cm.Keys && name in d.tree.nodes
    requires 0 < n <= |d.tree.nodes[name].children|
    ensures d.tree.nodes[name].children[n - 1] in d.tree.nodes
    ensures ChildRows(d, cm, name, level, n)
      == ChildRows(d, cm, name, level, n - 1) + GroupRows(d, cm, d.tree.nodes[name].children[n - 1], name, level + 1)
  {
  }

  /** Row count: a group's rows number the groups of its subtree plus the host entries of that subtree. */
  lemma GroupRowsCount(d: ViewData, cm: map<nat, Cells>, name: string, parent: string, level: nat)
    requires Renderable(d) && d.hosts.Keys <= cm.Keys
    requires name in d.tree.nodes && (parent == "" || parent in d.tree.nodes)
    ensures |GroupRows(d, cm, name, parent, level)| == |Subtree(d, name)| + HostEntries(d.tree, Subtree(d, name))
  {
    GroupRowsPreorder(d, cm, name, parent, level);
    RowKinds(GroupRows(d, cm, name, parent, level));
  }
}
