/**
 * The host-list view's table: for every group whose parent field is '' the
 * recursive `addGroupRow` emits the group's header row, then the rows of its
 * children (recursively, one level deeper), then one row per direct host.
 * Header rows of a collapsed group are hidden unless the group was reached
 * from the top; host rows are hidden when their group is collapsed; every
 * row carries the id of the group it was reached from.
 */
module HostRows {
  import opened HostTypes
  import opened GroupNames
  import opened GroupTree
  import opened HostCells
  import opened HostProcessing

  /** One table row, reduced to what the model follows of it. */
  datatype Row =
    | GroupHeader(group: string, toggleId: nat, level: nat, spacers: nat, title: string,
                  collapsed: bool, hidden: bool, parentId: Option<nat>)
    | HostLine(hostid: nat, group: string, level: nat, spacers: nat, hidden: bool, parentId: Option<nat>,
               cells: Cells)

  /** What the view receives from the controller. */
  datatype ViewData = ViewData(tree: GroupMap, hosts: map<nat, Host>, severities: seq<int>,
                               maintenances: map<nat, Maintenance>)

  /** Every child of a group is a group with a longer name. */
  ghost predicate ChildrenLonger(t: GroupMap) {
    forall p, i :: p in t.nodes && 0 <= i < |t.nodes[p].children| ==>
      t.nodes[p].children[i] in t.nodes && |p| < |t.nodes[p].children[i]|
  }

  /** Every host listed under a group has a record. */
  ghost predicate HostsKnown(d: ViewData) {
    forall g, i :: g in d.tree.nodes && 0 <= i < |d.tree.nodes[g].hosts| ==> d.tree.nodes[g].hosts[i] in d.hosts
  }

  function MaxLen(names: seq<string>): (r: nat)
    ensures forall k :: 0 <= k < |names| ==> |names[k]| <= r
  {
    if names == [] then 0
    else
      var rest := MaxLen(names[1..]);
      if |names[0]| > rest then |names[0]| else rest
  }

  /** No group name is longer than the longest listed name. */
  ghost predicate NamesBounded(t: GroupMap) {
    forall n :: n in t.nodes ==> |n| <= MaxLen(t.names)
  }

  /** The view's lookups never miss: children are keys longer than their parent, listed hosts are known. */
  ghost predicate Renderable(d: ViewData) {
    && NamesBounded(d.tree) && ChildrenLonger(d.tree) && HostsKnown(d)
    && (forall i :: 0 <= i < |d.tree.names| ==> d.tree.names[i] in d.tree.nodes)
  }

  /** How far a group name is from the longest name, which bounds the recursion. */
  function Height(d: ViewData, name: string): nat
    requires Renderable(d) && name in d.tree.nodes
  {
    MaxLen(d.tree.names) - |name|
  }

  /** `addParentGroupClass`: the id of the group a row was reached from, none from the top. */
  function ParentAttr(d: ViewData, parent: string): (r: Option<nat>)
    requires parent == "" || parent in d.tree.nodes
    ensures r.Some? <==> parent != ""
  {
    if parent != "" then Some(d.tree.nodes[parent].groupid) else None
  }

  /** The row of one direct host of group `name`, with the cells `cm` gives it. */
  function HostRow(d: ViewData, cm: map<nat, Cells>, name: string, level: nat, hostid: nat): Row
    requires name in d.tree.nodes && hostid in cm
  {
    HostLine(hostid, name, level, 7 + 5 * level, d.tree.nodes[name].isCollapsed, ParentAttr(d, name), cm[hostid])
  }

  /** The header row of group `name`, reached from `parent`. */
  function Header(d: ViewData, name: string, parent: string, level: nat): Row
    requires name in d.tree.nodes && (parent == "" || parent in d.tree.nodes)
  {
    var node := d.tree.nodes[name];
    GroupHeader(name, node.groupid, level, 5 * level, LastPiece(name), node.isCollapsed,
                node.isCollapsed && parent != "", ParentAttr(d, parent))
  }

  /** The rows of the first `n` direct hosts of group `name`. */
  function HostRowsOf(d: ViewData, cm: map<nat, Cells>, name: string, level: nat, n: nat): (r: seq<Row>)
    requires Renderable(d) && d.hosts.Keys <= cm.Keys && name in d.tree.nodes && n <= |d.tree.nodes[name].hosts|
    ensures |r| == n
  {
    if n == 0 then []
    else HostRowsOf(d, cm, name, level, n - 1) + [HostRow(d, cm, name, level, d.tree.nodes[name].hosts[n - 1])]
  }

  /** The rows `addGroupRow` emits for group `name` reached from `parent` at depth `level`. */
  function GroupRows(d: ViewData, cm: map<nat, Cells>, name: string, parent: string, level: nat): (r: seq<Row>)
    requires Renderable(d) && d.hosts.Keys <= cm.Keys
    requires name in d.tree.nodes && (parent == "" || parent in d.tree.nodes)
    ensures r != [] && r[0] == Header(d, name, parent, level)
    decreases Height(d, name), |d.tree.nodes[name].children| + 1
  {
    var node := d.tree.nodes[name];
    [Header(d, name, parent, level)]
      + ChildRows(d, cm, name, level, |node.children|)
      + HostRowsOf(d, cm, name, level, |node.hosts|)
  }

  /** The rows of the first `n` children of `name`, each one level deeper. */
  function ChildRows(d: ViewData, cm: map<nat, Cells>, name: string, level: nat, n: nat): seq<Row>
    requires Renderable(d) && d.hosts.Keys <= cm.Keys && name in d.tree.nodes
    requires n <= |d.tree.nodes[name].children|
    decreases Height(d, name), n
  {
    if n == 0 then []
    else
      var c := d.tree.nodes[name].children[n - 1];
      ChildRows(d, cm, name, level, n - 1) + GroupRows(d, cm, c, name, level + 1)
  }

  /** The rows the table gets for key `g`: all of its rows when its parent field is '', none otherwise. */
  function TopRows(d: ViewData, cm: map<nat, Cells>, g: string): seq<Row>
    requires Renderable(d) && d.hosts.Keys <= cm.Keys && g in d.tree.nodes
  {
    if d.tree.nodes[g].parentGroupName == "" then GroupRows(d, cm, g, "", 0) else []
  }

  /** The rows started from the first `n` keys. */
  function TableRowsOf(d: ViewData, cm: map<nat, Cells>, n: nat): seq<Row>
    requires Renderable(d) && d.hosts.Keys <= cm.Keys && n <= |d.tree.names|
  {
    if n == 0 then [] else TableRowsOf(d, cm, n - 1) + TopRows(d, cm, d.tree.names[n - 1])
  }

  /** The whole table, host cells filled in from the host records. */
  function AllRows(d: ViewData): seq<Row>
    requires Renderable(d)
  {
    TableRowsOf(d, CellsMap(d.hosts, d.severities, d.maintenances), |d.tree.names|)
  }

  // ---------------------------------------------------------------------
  // The view as it runs.

  /** One host row: its cells and the indentation loop. */
  method BuildHostRow(d: ViewData, cm: map<nat, Cells>, name: string, level: nat, hostid: nat) returns (row: Row)
    requires name in d.tree.nodes && hostid in cm
    ensures row == HostRow(d, cm, name, level, hostid)
  {
    var spacers := HostSpacers(level);
    var hidden := d.tree.nodes[name].isCollapsed;
    row := HostLine(hostid, name, level, spacers, hidden, ParentAttr(d, name), cm[hostid]);
  }

  lemma ChildRowsNext(d: ViewData, cm: map<nat, Cells>, name: string, level: nat, k: nat)
    requires Renderable(d) && d.hosts.Keys <= cm.Keys && name in d.tree.nodes
    requires k < |d.tree.nodes[name].children|
    ensures d.tree.nodes[name].children[k] in d.tree.nodes
    ensures ChildRows(d, cm, name, level, k + 1)
      == ChildRows(d, cm, name, level, k) + GroupRows(d, cm, d.tree.nodes[name].children[k], name, level + 1)
  {
  }

  lemma TableRowsNext(d: ViewData, cm: map<nat, Cells>, i: nat)
    requires Renderable(d) && d.hosts.Keys <= cm.Keys && i < |d.tree.names|
    ensures d.tree.names[i] in d.tree.nodes
    ensures TableRowsOf(d, cm, i + 1) == TableRowsOf(d, cm, i) + TopRows(d, cm, d.tree.names[i])
  {
  }

  lemma AppendAssoc<T>(a: seq<T>, b: seq<T>, c: seq<T>, e: seq<T>)
    ensures a + b + c + e == a + (b + c + e)
  {
  }

  /** `foreach ($rows as $row) { $out[] = $row; }` */
  method AppendRows(out: seq<Row>, rows: seq<Row>) returns (r: seq<Row>)
    ensures r == out + rows
  {
    r := out;
    var k := 0;
    while k < |rows|
      invariant 0 <= k <= |rows|
      invariant r == out + rows[..k]
    {
      assert rows[..k + 1] == rows[..k] + [rows[k]];
      r := r + [rows[k]];
      k := k + 1;
    }
    assert rows[..k] == rows;
  }

  /** The loop over the group's direct hosts. */
  method CollectHostRows(d: ViewData, cm: map<nat, Cells>, name: string, level: nat) returns (hostRows: seq<Row>)
    requires Renderable(d) && d.hosts.Keys <= cm.Keys && name in d.tree.nodes
    ensures hostRows == HostRowsOf(d, cm, name, level, |d.tree.nodes[name].hosts|)
  {
    var hosts := d.tree.nodes[name].hosts;
    hostRows := [];
    var k := 0;
    while k < |hosts|
      invariant 0 <= k <= |hosts|
      invariant hostRows == HostRowsOf(d, cm, name, level, k)
    {
      var row := BuildHostRow(d, cm, name, level, hosts[k]);
      hostRows := hostRows + [row];
      k := k + 1;
    }
  }

  /** The loop over the group's children, recursing one level deeper. */
  method CollectChildRows(d: ViewData, cm: map<nat, Cells>, name: string, level: nat) returns (subgroupRows: seq<Row>)
    requires Renderable(d) && d.hosts.Keys <= cm.Keys && name in d.tree.nodes
    ensures subgroupRows == ChildRows(d, cm, name, level, |d.tree.nodes[name].children|)
    decreases Height(d, name), 0
  {
    var children := d.tree.nodes[name].children;
    subgroupRows := [];
    var k := 0;
    while k < |children|
      invariant 0 <= k <= |children|
      invariant subgroupRows == ChildRows(d, cm, name, level, k)
    {
      var child := children[k];
      assert child in d.tree.nodes && Height(d, child) < Height(d, name);
      ChildRowsNext(d, cm, name, level, k);
      subgroupRows := AddGroupRow(d, cm, subgroupRows, child, name, level + 1);
      k := k + 1;
    }
  }

  /** `addGroupRow`: appends the rows of group `name` to `rows`. */
  method AddGroupRow(d: ViewData, cm: map<nat, Cells>, rows: seq<Row>, name: string, parent: string, level: nat)
    returns (out: seq<Row>)
    requires Renderable(d) && d.hosts.Keys <= cm.Keys
    requires name in d.tree.nodes && (parent == "" || parent in d.tree.nodes)
    ensures out == rows + GroupRows(d, cm, name, parent, level)
    decreases Height(d, name), 1
  {
    var node := d.tree.nodes[name];
    var hostRows := CollectHostRows(d, cm, name, level);
    var subgroupRows := CollectChildRows(d, cm, name, level);
    var spacers := HeaderSpacers(level);
    var header := GroupHeader(name, node.groupid, level, spacers, LastPiece(name), node.isCollapsed,
                              node.isCollapsed && parent != "", ParentAttr(d, parent));
    assert GroupRows(d, cm, name, parent, level) == [header] + subgroupRows + hostRows;
    out := rows + [header];
    out := AppendRows(out, subgroupRows);
    out := AppendRows(out, hostRows);
    AppendAssoc(rows, [header], subgroupRows, hostRows);
  }

  /** One key of `$host_groups`: when its parent field is '', its rows are gathered in `$rows` and added to the table. */
  method AddTopGroup(d: ViewData, cm: map<nat, Cells>, table: seq<Row>, name: string) returns (out: seq<Row>)
    requires Renderable(d) && d.hosts.Keys <= cm.Keys && name in d.tree.nodes
    ensures out == table + TopRows(d, cm, name)
  {
    out := table;
    if d.tree.nodes[name].parentGroupName == "" {
      var rows := AddGroupRow(d, cm, [], name, "", 0);
      assert rows == GroupRows(d, cm, name, "", 0);
      out := AppendRows(table, rows);
    } else {
      assert out == table + [];
    }
  }

  /** The loop over all groups, starting the recursion at every group whose parent field is ''. */
  method CollectTableRows(d: ViewData, cm: map<nat, Cells>) returns (table: seq<Row>)
    requires Renderable(d) && d.hosts.Keys <= cm.Keys
    ensures table == TableRowsOf(d, cm, |d.tree.names|)
  {
    table := [];
    var names := d.tree.names;
    var i := 0;
    while i < |names|
      invariant 0 <= i <= |names|
      invariant table == TableRowsOf(d, cm, i)
    {
      TableRowsNext(d, cm, i);
      table := AddTopGroup(d, cm, table, names[i]);
      i := i + 1;
    }
  }

  /** The table body: the cells of every host, then the rows. */
  method TableRows(d: ViewData) returns (table: seq<Row>)
    requires Renderable(d)
    ensures table == AllRows(d)
  {
    var cm := BuildCellsMap(d.hosts, d.severities, d.maintenances);
    assert cm == CellsMap(d.hosts, d.severities, d.maintenances);
    table := CollectTableRows(d, cm);
  }
}
