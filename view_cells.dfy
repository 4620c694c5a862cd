/**
 * The cells of one host row of the host-list view: the problem icons and
 * their total under the severity filter, the interface shown, the
 * maintenance label and the indentation of the name cell and group header.
 */
module HostCells {
  import opened HostTypes

  // ---------------------------------------------------------------------
  // Problem icons and total.

  /** One problem icon: a severity and its count. */
  datatype Icon = Icon(severity: int, count: nat)

  /** `in_array`: a scan of the filter for the severity. */
  predicate Listed(filter: seq<int>, s: int)
    decreases |filter|
  {
    filter != [] && (filter[0] == s || Listed(filter[1..], s))
  }

  lemma {:induction false} ListedMeansIn(filter: seq<int>, s: int)
    ensures Listed(filter, s) <==> s in filter
    decreases |filter|
  {
    if filter != [] {
      ListedMeansIn(filter[1..], s);
      assert filter == [filter[0]] + filter[1..];
    }
  }

  /** A severity counts and gets an icon when it has problems and the filter is empty or names it. */
  predicate Shown(counts: map<int, nat>, filter: seq<int>, s: int) {
    s in counts && counts[s] > 0 && (filter == [] || Listed(filter, s))
  }

  /** The icons for severities `s` down to "not classified", highest first. */
  function IconsFrom(counts: map<int, nat>, filter: seq<int>, s: int): seq<Icon>
    decreases s + 1
  {
    if s < SeverityNotClassified then []
    else if Shown(counts, filter, s) then [Icon(s, counts[s])] + IconsFrom(counts, filter, s - 1)
    else IconsFrom(counts, filter, s - 1)
  }

  function Total(icons: seq<Icon>): nat
  {
    if icons == [] then 0 else icons[0].count + Total(icons[1..])
  }

  /** The sum of all counts of severities `s` down to 0, a reference for the unfiltered total. */
  function SumCounts(counts: map<int, nat>, s: int): nat
    decreases s + 1
  {
    if s < SeverityNotClassified then 0
    else (if s in counts then counts[s] else 0) + SumCounts(counts, s - 1)
  }

  lemma {:induction false} TotalAppend(a: seq<Icon>, b: seq<Icon>)
    ensures Total(a + b) == Total(a) + Total(b)
    decreases |a|
  {
    if a != [] {
      assert (a + b)[0] == a[0];
      assert (a + b)[1..] == a[1..] + b;
      TotalAppend(a[1..], b);
    } else {
      assert a + b == b;
    }
  }

  lemma IconsStep(counts: map<int, nat>, filter: seq<int>, s: int)
    requires s >= SeverityNotClassified
    ensures Shown(counts, filter, s) ==>
      IconsFrom(counts, filter, s) == [Icon(s, counts[s])] + IconsFrom(counts, filter, s - 1)
    ensures !Shown(counts, filter, s) ==> IconsFrom(counts, filter, s) == IconsFrom(counts, filter, s - 1)
  {
  }

  /** The same step, element by element. */
  lemma IconsShift(counts: map<int, nat>, filter: seq<int>, s: int)
    requires s >= SeverityNotClassified && Shown(counts, filter, s)
    ensures var icons, rest := IconsFrom(counts, filter, s), IconsFrom(counts, filter, s - 1);
      && |icons| == |rest| + 1 && icons[0] == Icon(s, counts[s])
      && forall i :: 0 < i < |icons| ==> icons[i] == rest[i - 1]
  {
    IconsStep(counts, filter, s);
  }

  /**
   * The icon loop over the counts in descending severity order (the keys the
   * controller writes are 5 down to 0), adding shown counts to the total.
   */
  method ProblemIcons(counts: map<int, nat>, filter: seq<int>) returns (total: nat, icons: seq<Icon>)
    ensures icons == IconsFrom(counts, filter, SeverityCount - 1)
    ensures total == Total(icons)
  {
    total, icons := 0, [];
    var severity := SeverityCount - 1;
    while severity >= SeverityNotClassified
      invariant SeverityNotClassified - 1 <= severity <= SeverityCount - 1
      invariant icons + IconsFrom(counts, filter, severity) == IconsFrom(counts, filter, SeverityCount - 1)
      invariant total == Total(icons)
    {
      IconsStep(counts, filter, severity);
      ListedMeansIn(filter, severity);
      if severity in counts {
        var count := counts[severity];
        if (count > 0 && filter != [] && severity in filter) || (filter == [] && count > 0) {
          TotalAppend(icons, [Icon(severity, count)]);
          total := total + count;
          icons := icons + [Icon(severity, count)];
        }
      }
      severity := severity - 1;
    }
  }

  /** Every icon is for a shown severity between 0 and `s`, with that severity's non-zero count. */
  lemma {:induction false} IconsAreShown(counts: map<int, nat>, filter: seq<int>, s: int)
    ensures var icons := IconsFrom(counts, filter, s);
      forall i :: 0 <= i < |icons| ==>
        && SeverityNotClassified <= icons[i].severity <= s
        && Shown(counts, filter, icons[i].severity)
        && icons[i].count == counts[icons[i].severity] > 0
    decreases s + 1
  {
    if s >= SeverityNotClassified {
      IconsAreShown(counts, filter, s - 1);
      IconsStep(counts, filter, s);
      var rest := IconsFrom(counts, filter, s - 1);
      var icons := IconsFrom(counts, filter, s);
      if Shown(counts, filter, s) {
        forall i | 0 <= i < |icons|
          ensures && SeverityNotClassified <= icons[i].severity <= s
                  && Shown(counts, filter, icons[i].severity)
                  && icons[i].count == counts[icons[i].severity] > 0
        {
          if i > 0 {
            assert icons[i] == rest[i - 1];
          }
        }
      }
    }
  }

  /** The icons come highest severity first, so no severity has two icons. */
  lemma {:induction false} IconsDescending(counts: map<int, nat>, filter: seq<int>, s: int)
    ensures var icons := IconsFrom(counts, filter, s);
      forall i, j :: 0 <= i < j < |icons| ==> icons[i].severity > icons[j].severity
    decreases s + 1
  {
    if s >= SeverityNotClassified {
      IconsDescending(counts, filter, s - 1);
      if Shown(counts, filter, s) {
        IconsDescendingShown(counts, filter, s);
      } else {
        IconsStep(counts, filter, s);
      }
    }
  }

  /** The step of `IconsDescending` where severity `s` gets an icon in front of the lower ones. */
  lemma IconsDescendingShown(counts: map<int, nat>, filter: seq<int>, s: int)
    requires s >= SeverityNotClassified && Shown(counts, filter, s)
    requires var rest := IconsFrom(counts, filter, s - 1);
      forall i, j :: 0 <= i < j < |rest| ==> rest[i].severity > rest[j].severity
    ensures var icons := IconsFrom(counts, filter, s);
      forall i, j :: 0 <= i < j < |icons| ==> icons[i].severity > icons[j].severity
  {
    var icons, rest := IconsFrom(counts, filter, s), IconsFrom(counts, filter, s - 1);
    IconsBelow(counts, filter, s - 1);
    IconsShift(counts, filter, s);
    forall i, j | 0 <= i < j < |icons|
      ensures icons[i].severity > icons[j].severity
    {
      assert icons[j].severity == rest[j - 1].severity <= s - 1;
      if i > 0 { assert icons[i].severity == rest[i - 1].severity; }
    }
  }

  /** No icon of `IconsFrom(counts, filter, s)` is for a severity above `s`. */
  lemma {:induction false} IconsBelow(counts: map<int, nat>, filter: seq<int>, s: int)
    ensures forall i :: 0 <= i < |IconsFrom(counts, filter, s)| ==> IconsFrom(counts, filter, s)[i].severity <= s
    decreases s + 1
  {
    if s >= SeverityNotClassified {
      IconsBelow(counts, filter, s - 1);
      IconsStep(counts, filter, s);
      if Shown(counts, filter, s) {
        IconsShift(counts, filter, s);
      }
    }
  }

  /** A severity between 0 and `s` has an icon exactly when it is shown. */
  lemma {:induction false} IconsComplete(counts: map<int, nat>, filter: seq<int>, s: int, t: int)
    requires SeverityNotClassified <= t <= s
    ensures Shown(counts, filter, t) <==>
      exists i :: 0 <= i < |IconsFrom(counts, filter, s)| && IconsFrom(counts, filter, s)[i].severity == t
    decreases s + 1
  {
    IconsAreShown(counts, filter, s);
    IconsStep(counts, filter, s);
    var icons := IconsFrom(counts, filter, s);
    if t < s {
      IconsComplete(counts, filter, s - 1, t);
      var rest := IconsFrom(counts, filter, s - 1);
      if Shown(counts, filter, t) {
        var i :| 0 <= i < |rest| && rest[i].severity == t;
        if Shown(counts, filter, s) {
          IconsShift(counts, filter, s);
          assert icons[i + 1].severity == t;
        } else {
          assert icons[i].severity == t;
        }
      }
    } else if Shown(counts, filter, s) {
      IconsShift(counts, filter, s);
      assert icons[0].severity == t;
    }
  }

  /** The total is zero, and the cell shows the plain "Problems" text, exactly when no icon is shown. */
  lemma {:induction false} TotalZeroIffNoIcons(counts: map<int, nat>, filter: seq<int>, s: int)
    ensures Total(IconsFrom(counts, filter, s)) == 0 <==> IconsFrom(counts, filter, s) == []
    decreases s + 1
  {
    if s >= SeverityNotClassified {
      TotalZeroIffNoIcons(counts, filter, s - 1);
      var rest := IconsFrom(counts, filter, s - 1);
      IconsStep(counts, filter, s);
      if Shown(counts, filter, s) {
        var icons := IconsFrom(counts, filter, s);
        assert icons == [Icon(s, counts[s])] + rest;
        assert icons[0].count > 0 && icons[1..] == rest;
        assert Total(icons) == icons[0].count + Total(rest);
      }
    }
  }

  /** Without a severity filter the total is the sum of all counts. */
  lemma {:induction false} UnfilteredTotalIsSum(counts: map<int, nat>, s: int)
    ensures Total(IconsFrom(counts, [], s)) == SumCounts(counts, s)
    decreases s + 1
  {
    if s >= SeverityNotClassified {
      UnfilteredTotalIsSum(counts, s - 1);
      var rest := IconsFrom(counts, [], s - 1);
      if Shown(counts, [], s) {
        assert IconsFrom(counts, [], s) == [Icon(s, counts[s])] + rest;
        TotalAppend([Icon(s, counts[s])], rest);
        assert Total([Icon(s, counts[s])]) == counts[s];
      } else {
        assert IconsFrom(counts, [], s) == rest;
      }
    }
  }

  // ---------------------------------------------------------------------
  // Interface choice.

  /** Interface types in the order the view tries them: agent, SNMP, JMX, IPMI. */
  const InterfaceOrder: seq<int> := [InterfaceAgent, InterfaceSnmp, InterfaceJmx, InterfaceIpmi]

  /** `reset(array_filter(...))`: the first interface of a type. */
  function FirstOfType(ifaces: seq<Interface>, t: int): Option<Interface>
  {
    if ifaces == [] then None
    else if ifaces[0].ifType == t then Some(ifaces[0])
    else FirstOfType(ifaces[1..], t)
  }

  /** The first interface of the first type in `types` that the host has. */
  function PickFrom(ifaces: seq<Interface>, types: seq<int>): Option<Interface>
  {
    if types == [] then None
    else if FirstOfType(ifaces, types[0]).Some? then FirstOfType(ifaces, types[0])
    else PickFrom(ifaces, types[1..])
  }

  function PreferredInterface(ifaces: seq<Interface>): Option<Interface>
  {
    PickFrom(ifaces, InterfaceOrder)
  }

  lemma {:induction false} FirstOfTypeAt(ifaces: seq<Interface>, t: int, j: nat)
    requires j <= |ifaces|
    requires forall i :: 0 <= i < j ==> ifaces[i].ifType != t
    ensures j < |ifaces| && ifaces[j].ifType == t ==> FirstOfType(ifaces, t) == Some(ifaces[j])
    ensures j == |ifaces| ==> FirstOfType(ifaces, t) == None
    decreases j
  {
    if j > 0 {
      FirstOfTypeAt(ifaces[1..], t, j - 1);
    }
  }

  /** The interface loop: each type in order, the first interface of it, stop at the first type found. */
  method PickInterface(ifaces: seq<Interface>) returns (r: Option<Interface>)
    ensures r == PreferredInterface(ifaces)
  {
    r := None;
    if ifaces != [] {
      var order := InterfaceOrder;
      var k: nat := 0;
      while k < |order|
        invariant k <= |order|
        invariant PickFrom(ifaces, order[k..]) == PreferredInterface(ifaces)
        invariant r == None
      {
        var t := order[k];
        var j: nat := 0;
        while j < |ifaces| && ifaces[j].ifType != t
          invariant j <= |ifaces|
          invariant forall i :: 0 <= i < j ==> ifaces[i].ifType != t
        {
          j := j + 1;
        }
        FirstOfTypeAt(ifaces, t, j);
        assert order[k..][0] == t && order[k..][1..] == order[k + 1..];
        if j < |ifaces| {
          r := Some(ifaces[j]);
          return;
        }
        k := k + 1;
      }
    } else {
      PickFromMeaning(ifaces, InterfaceOrder);
    }
  }

  lemma {:induction false} FirstOfTypeMeaning(ifaces: seq<Interface>, t: int)
    ensures FirstOfType(ifaces, t).None? <==> forall i :: 0 <= i < |ifaces| ==> ifaces[i].ifType != t
    ensures FirstOfType(ifaces, t).Some? ==> exists j ::
      && 0 <= j < |ifaces| && FirstOfType(ifaces, t) == Some(ifaces[j])
      && ifaces[j].ifType == t && (forall i :: 0 <= i < j ==> ifaces[i].ifType != t)
    decreases |ifaces|
  {
    if ifaces != [] {
      FirstOfTypeMeaning(ifaces[1..], t);
      if ifaces[0].ifType != t {
        if FirstOfType(ifaces[1..], t).Some? {
          var j :| 0 <= j < |ifaces[1..]| && FirstOfType(ifaces[1..], t) == Some(ifaces[1..][j])
            && ifaces[1..][j].ifType == t && forall i :: 0 <= i < j ==> ifaces[1..][i].ifType != t;
          assert ifaces[j + 1] == ifaces[1..][j];
          assert forall i :: 1 <= i < j + 1 ==> ifaces[i] == ifaces[1..][i - 1];
        } else {
          assert forall i :: 1 <= i < |ifaces| ==> ifaces[i] == ifaces[1..][i - 1];
        }
      }
    }
  }

  /**
   * The interface shown: none when the host has no interface of the four
   * types; otherwise one of the host's interfaces, of the earliest type in
   * the order agent, SNMP, JMX, IPMI that the host has, and the first of
   * that type in the host's list.
   */
  lemma PickFromMeaning(ifaces: seq<Interface>, types: seq<int>)
    ensures PickFrom(ifaces, types).None? <==>
      forall i, k :: 0 <= i < |ifaces| && 0 <= k < |types| ==> ifaces[i].ifType != types[k]
    ensures PickFrom(ifaces, types).Some? ==> exists k, j ::
      && 0 <= k < |types| && 0 <= j < |ifaces|
      && PickFrom(ifaces, types) == Some(ifaces[j])
      && ifaces[j].ifType == types[k]
      && (forall i :: 0 <= i < j ==> ifaces[i].ifType != types[k])
      && (forall i, k' :: 0 <= i < |ifaces| && 0 <= k' < k ==> ifaces[i].ifType != types[k'])
  {
    PickFromNone(ifaces, types);
    if PickFrom(ifaces, types).Some? {
      var k, j := PickFromSome(ifaces, types);
    }
  }

  lemma {:induction false} PickFromNone(ifaces: seq<Interface>, types: seq<int>)
    ensures PickFrom(ifaces, types).None? <==>
      forall i, k :: 0 <= i < |ifaces| && 0 <= k < |types| ==> ifaces[i].ifType != types[k]
    decreases |types|
  {
    if types != [] {
      var rest := types[1..];
      FirstOfTypeMeaning(ifaces, types[0]);
      PickFromNone(ifaces, rest);
      assert forall k :: 0 < k < |types| ==> types[k] == rest[k - 1];
    }
  }

  lemma {:induction false} PickFromSome(ifaces: seq<Interface>, types: seq<int>) returns (k: nat, j: nat)
    requires PickFrom(ifaces, types).Some?
    ensures k < |types| && j < |ifaces|
    ensures PickFrom(ifaces, types) == Some(ifaces[j]) && ifaces[j].ifType == types[k]
    ensures forall i :: 0 <= i < j ==> ifaces[i].ifType != types[k]
    ensures forall i, k' :: 0 <= i < |ifaces| && 0 <= k' < k ==> ifaces[i].ifType != types[k']
    decreases |types|
  {
    var rest := types[1..];
    FirstOfTypeMeaning(ifaces, types[0]);
    if FirstOfType(ifaces, types[0]).Some? {
      k := 0;
      j :| 0 <= j < |ifaces| && FirstOfType(ifaces, types[0]) == Some(ifaces[j])
        && ifaces[j].ifType == types[0] && forall i :: 0 <= i < j ==> ifaces[i].ifType != types[0];
    } else {
      var k1;
      k1, j := PickFromSome(ifaces, rest);
      k := k1 + 1;
      assert forall k' :: 0 < k' <= k ==> types[k'] == rest[k' - 1];
    }
  }

  // ---------------------------------------------------------------------
  // Maintenance label.

  /** What the maintenance icon is made from: the maintenance type, a name and a description. */
  datatype MaintenanceIcon = MaintenanceIcon(maintenanceType: int, name: string, description: string)

  const InaccessibleMaintenance: string := "Inaccessible maintenance"

  /**
   * Monitored hosts in maintenance get a label of their maintenance type; it
   * shows the maintenance record's name and description when the record was
   * fetched and "Inaccessible maintenance" with no description otherwise.
   */
  function MaintenanceLabel(h: Host, maintenances: map<nat, Maintenance>): (r: Option<MaintenanceIcon>)
    ensures r.Some? <==> InMaintenance(h)
    ensures r.Some? ==> r.value.maintenanceType == h.maintenanceType
    ensures r.Some? && h.maintenanceid in maintenances ==>
      r.value.name == maintenances[h.maintenanceid].name
      && r.value.description == maintenances[h.maintenanceid].description
    ensures r.Some? && h.maintenanceid !in maintenances ==>
      r.value.name == InaccessibleMaintenance && r.value.description == ""
  {
    if h.status == HostStatusMonitored && h.maintenanceStatus == MaintenanceStatusOn then
      if h.maintenanceid in maintenances then
        Some(MaintenanceIcon(h.maintenanceType, maintenances[h.maintenanceid].name, maintenances[h.maintenanceid].description))
      else Some(MaintenanceIcon(h.maintenanceType, InaccessibleMaintenance, ""))
    else None
  }

  // ---------------------------------------------------------------------
  // Indentation.

  /** The name cell's loop `for ($i = 0; $i <= 6 + $level*5; $i++)`. */
  method HostSpacers(level: nat) returns (n: nat)
    ensures n == 7 + 5 * level
  {
    n := 0;
    var i: nat := 0;
    while i <= 6 + level * 5
      invariant i <= 7 + level * 5
      invariant n == i
    {
      n := n + 1;
      i := i + 1;
    }
  }

  /** The group header's loop `for ($i = 0; $i < $level*5; $i++)`. */
  method HeaderSpacers(level: nat) returns (n: nat)
    ensures n == 5 * level
  {
    n := 0;
    var i: nat := 0;
    while i < level * 5
      invariant i <= level * 5
      invariant n == i
    {
      n := n + 1;
      i := i + 1;
    }
  }

  // ---------------------------------------------------------------------
  // The cells of one host row.

  /** The per-host cells: interface, problem icons and total, maintenance label, enabled. */
  datatype Cells = Cells(iface: Option<Interface>, icons: seq<Icon>, problemTotal: nat,
                         maintenance: Option<MaintenanceIcon>, enabled: bool)

  /** What the row shows for a host under the severity filter and the known maintenances. */
  function CellsOf(h: Host, severities: seq<int>, maintenances: map<nat, Maintenance>): Cells
  {
    var icons := IconsFrom(h.problemCount, severities, SeverityCount - 1);
    Cells(PreferredInterface(h.interfaces), icons, Total(icons),
          MaintenanceLabel(h, maintenances), h.status == HostStatusMonitored)
  }

  /** The cells of every host, by host id. */
  function CellsMap(hosts: map<nat, Host>, severities: seq<int>, maintenances: map<nat, Maintenance>): map<nat, Cells>
  {
    map h | h in hosts :: CellsOf(hosts[h], severities, maintenances)
  }

  /** The cells of one host: interface loop, icon loop and maintenance label. */
  method BuildCells(h: Host, severities: seq<int>, maintenances: map<nat, Maintenance>) returns (c: Cells)
    ensures c == CellsOf(h, severities, maintenances)
  {
    var iface := PickInterface(h.interfaces);
    var total, icons := ProblemIcons(h.problemCount, severities);
    var maintenance := MaintenanceLabel(h, maintenances);
    c := Cells(iface, icons, total, maintenance, h.status == HostStatusMonitored);
  }

  /** The cells of all hosts, one host at a time. */
  method BuildCellsMap(hosts: map<nat, Host>, severities: seq<int>, maintenances: map<nat, Maintenance>)
    returns (cm: map<nat, Cells>)
    ensures cm.Keys == hosts.Keys
    ensures forall h :: h in hosts ==> cm[h] == CellsOf(hosts[h], severities, maintenances)
  {
    cm := map[];
    var todo := hosts.Keys;
    while todo != {}
      invariant todo <= hosts.Keys
      invariant cm.Keys == hosts.Keys - todo
      invariant forall h :: h in cm ==> cm[h] == CellsOf(hosts[h], severities, maintenances)
      decreases todo
    {
      var h :| h in todo;
      var c := BuildCells(hosts[h], severities, maintenances);
      cm := cm[h := c];
      todo := todo - {h};
    }
  }
}
