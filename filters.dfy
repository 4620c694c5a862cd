/**
 * The filter side of the host-list controller: `cleanInput`, which tidies the
 * request's filter fields before they are stored, and the option records the
 * controller hands to the host query in `getCount` and `getData`.
 */
module FilterOptions {
  import opened HostTypes

  /** One row of the tag filter. */
  datatype TagFilter = TagFilter(tag: string, value: string, operator: string)

  /** A request field: a scalar string, the list of tag filter rows, or another list. */
  datatype InputValue = Text(s: string) | TagRows(rows: seq<TagFilter>) | Items(items: seq<string>)

  type Input = map<string, InputValue>

  /** PHP truthiness of a field value: '' and '0' and empty arrays are false. */
  predicate Truthy(v: InputValue) {
    match v
    case Text(s) => s != "" && s != "0"
    case TagRows(rows) => rows != []
    case Items(items) => items != []
  }

  /** A tag row with both tag and value empty: the blank row of the filter form. */
  predicate BlankRow(t: TagFilter) {
    t.tag == "" && t.value == ""
  }

  /** `array_values(array_filter(...))`: the non-blank rows, in their order. */
  function NonBlankRows(rows: seq<TagFilter>): (r: seq<TagFilter>)
    ensures |r| <= |rows|
    decreases |rows|
  {
    if rows == [] then []
    else
      var init := NonBlankRows(rows[..|rows| - 1]);
      var last := rows[|rows| - 1];
      if BlankRow(last) then init else init + [last]
  }

  function CleanInput(input: Input): (r: Input)
  {
    if "filter_reset" in input && Truthy(input["filter_reset"]) then
      // array_intersect_key(['filter_name' => ''], $input)
      if "filter_name" in input then map["filter_name" := Text("")] else map[]
    else if "tags" in input && Truthy(input["tags"]) && input["tags"].TagRows? then
      input["tags" := TagRows(NonBlankRows(input["tags"].rows))]
    else input
  }

  // ---------------------------------------------------------------------
  // What the filter keeps.

  /** `xs` is `ys` with some elements left out, the rest in the same order. */
  ghost predicate SubsequenceOf(xs: seq<TagFilter>, ys: seq<TagFilter>)
    decreases |ys|
  {
    if xs == [] then true
    else if ys == [] then false
    else if xs[|xs| - 1] == ys[|ys| - 1] then SubsequenceOf(xs[..|xs| - 1], ys[..|ys| - 1])
    else SubsequenceOf(xs, ys[..|ys| - 1])
  }

  /** The kept rows are exactly the non-blank rows, in their original order. */
  lemma {:induction false} NonBlankRowsMeaning(rows: seq<TagFilter>)
    ensures forall t :: t in NonBlankRows(rows) <==> t in rows && !BlankRow(t)
    ensures SubsequenceOf(NonBlankRows(rows), rows)
    ensures |NonBlankRows(rows)| == |rows| - CountBlank(rows)
    decreases |rows|
  {
    if rows != [] {
      var init := rows[..|rows| - 1];
      NonBlankRowsMeaning(init);
      assert rows == init + [rows[|rows| - 1]];
      var r := NonBlankRows(rows);
      if !BlankRow(rows[|rows| - 1]) {
        assert r[..|r| - 1] == NonBlankRows(init);
      }
      SubsequenceSnoc(NonBlankRows(init), init, rows[|rows| - 1]);
    }
  }

  function CountBlank(rows: seq<TagFilter>): nat
    decreases |rows|
  {
    if rows == [] then 0
    else CountBlank(rows[..|rows| - 1]) + (if BlankRow(rows[|rows| - 1]) then 1 else 0)
  }

  lemma {:induction false} SubsequenceSnoc(xs: seq<TagFilter>, ys: seq<TagFilter>, y: TagFilter)
    requires SubsequenceOf(xs, ys)
    ensures SubsequenceOf(xs, ys + [y])
    decreases |ys|, 1
  {
    var ys' := ys + [y];
    assert ys'[..|ys'| - 1] == ys;
    if xs != [] && xs[|xs| - 1] == y {
      SubsequenceInit(xs, ys);
    }
  }

  lemma {:induction false} SubsequenceInit(xs: seq<TagFilter>, ys: seq<TagFilter>)
    requires xs != [] && SubsequenceOf(xs, ys)
    ensures SubsequenceOf(xs[..|xs| - 1], ys)
    decreases |ys|, 0
  {
    var xs' := xs[..|xs| - 1];
    var ys' := ys[..|ys| - 1];
    assert ys' + [ys[|ys| - 1]] == ys;
    if xs[|xs| - 1] != ys[|ys| - 1] {
      SubsequenceInit(xs, ys');
    }
    SubsequenceSnoc(xs', ys', ys[|ys| - 1]);
  }

  lemma {:induction false} NonBlankRowsIdempotent(rows: seq<TagFilter>)
    ensures NonBlankRows(NonBlankRows(rows)) == NonBlankRows(rows)
    decreases |rows|
  {
    if rows != [] {
      var init := rows[..|rows| - 1];
      NonBlankRowsIdempotent(init);
      var r := NonBlankRows(rows);
      if !BlankRow(rows[|rows| - 1]) {
        assert r[..|r| - 1] == NonBlankRows(init);
      }
    }
  }

  /**
   * With `filter_reset` set the result holds at most the `filter_name` key,
   * with the empty string; otherwise blank tag rows are dropped and every
   * other key keeps its value.
   */
  lemma CleanInputMeaning(input: Input)
    ensures "filter_reset" in input && Truthy(input["filter_reset"]) ==>
      && CleanInput(input).Keys <= {"filter_name"}
      && ("filter_name" in CleanInput(input) <==> "filter_name" in input)
      && (forall k :: k in CleanInput(input) ==> CleanInput(input)[k] == Text(""))
    ensures !("filter_reset" in input && Truthy(input["filter_reset"])) ==>
      && CleanInput(input).Keys == input.Keys
      && (forall k :: k in input && k != "tags" ==> CleanInput(input)[k] == input[k])
      && ("tags" in input && input["tags"].TagRows? ==>
            CleanInput(input)["tags"] == TagRows(NonBlankRows(input["tags"].rows)))
  {
  }

  /** Cleaning twice is cleaning once. */
  lemma CleanInputIdempotent(input: Input)
    ensures CleanInput(CleanInput(input)) == CleanInput(input)
  {
    if !("filter_reset" in input && Truthy(input["filter_reset"])) && "tags" in input && Truthy(input["tags"])
        && input["tags"].TagRows? {
      var rows := NonBlankRows(input["tags"].rows);
      NonBlankRowsIdempotent(input["tags"].rows);
      var c := CleanInput(input);
      assert c["tags"] == TagRows(rows);
      if Truthy(c["tags"]) {
        assert CleanInput(c) == c["tags" := TagRows(NonBlankRows(rows))];
      }
    }
  }

  // ---------------------------------------------------------------------
  // Filter to host-query options.

  /** The stored filter fields the query options are built from. */
  datatype HostFilter = HostFilter(
    name: string,
    groupids: seq<nat>,
    ip: string,
    dns: string,
    port: string,
    status: int,
    evaltype: int,
    tags: seq<TagFilter>,
    severities: seq<int>,
    showSuppressed: int,
    maintenanceStatus: int)

  /** The options of the host query; `None` is PHP null, an option the API then ignores. */
  datatype HostQuery = HostQuery(
    countOutput: bool,
    sortByName: bool,
    evaltype: int,
    tags: seq<TagFilter>,
    inheritedTags: bool,
    groupids: Option<seq<nat>>,
    severities: Option<seq<int>>,
    withProblemsSuppressed: Option<bool>,
    searchName: Option<string>,
    searchIp: Option<string>,
    searchDns: Option<string>,
    filterStatus: Option<int>,
    filterPort: Option<string>,
    filterMaintenanceStatus: Option<int>,
    limit: int)

  /** `($x === '') ? null : $x` */
  function NullIfEmpty(x: string): Option<string> {
    if x == "" then None else Some(x)
  }

  /**
   * The options common to `getCount` and `getData`. `subGroups` is what the
   * sub-group helper returns for the selected group ids, and `searchLimit`
   * the configured search limit.
   */
  function QueryOptions(f: HostFilter, subGroups: seq<nat>, searchLimit: int, countOutput: bool): HostQuery
  {
    HostQuery(
      countOutput := countOutput,
      sortByName := !countOutput,
      evaltype := f.evaltype,
      tags := f.tags,
      inheritedTags := true,
      groupids := if f.groupids != [] then Some(subGroups) else None,
      severities := if f.severities != [] then Some(f.severities) else None,
      withProblemsSuppressed :=
        if f.severities != [] then (if f.showSuppressed == ProblemSuppressedTrue then None else Some(false)) else None,
      searchName := NullIfEmpty(f.name),
      searchIp := NullIfEmpty(f.ip),
      searchDns := NullIfEmpty(f.dns),
      filterStatus := if f.status == -1 then None else Some(f.status),
      filterPort := NullIfEmpty(f.port),
      filterMaintenanceStatus := if f.maintenanceStatus == MaintenanceStatusOn then None else Some(MaintenanceStatusOff),
      limit := searchLimit + 1)
  }

  /** The count query of `getCount`. */
  function CountQuery(f: HostFilter, subGroups: seq<nat>, searchLimit: int): HostQuery
  {
    QueryOptions(f, subGroups, searchLimit, true)
  }

  /** The first host query of `getData`, sorted by name, with the same filter options. */
  function DataQuery(f: HostFilter, subGroups: seq<nat>, searchLimit: int): HostQuery
  {
    QueryOptions(f, subGroups, searchLimit, false)
  }

  /** The `suppressed` option of the problem query in `getData`. */
  function ProblemSuppressedOption(f: HostFilter): Option<bool>
  {
    if f.showSuppressed == ProblemSuppressedTrue then None else Some(false)
  }

  /** The filter text fields as they can be read back from the query options. */
  function SearchText(o: Option<string>): string {
    match o
    case None => ""
    case Some(x) => x
  }

  /**
   * The text fields pass through unchanged: the filter's name, ip, dns and
   * port can be read back from the options, and an option is null exactly
   * when the field is empty. A status of -1 and only that is null.
   */
  lemma QueryKeepsSearchFields(f: HostFilter, subGroups: seq<nat>, searchLimit: int, countOutput: bool)
    ensures var q := QueryOptions(f, subGroups, searchLimit, countOutput);
      && SearchText(q.searchName) == f.name && (q.searchName.None? <==> f.name == "")
      && SearchText(q.searchIp) == f.ip && (q.searchIp.None? <==> f.ip == "")
      && SearchText(q.searchDns) == f.dns && (q.searchDns.None? <==> f.dns == "")
      && SearchText(q.filterPort) == f.port && (q.filterPort.None? <==> f.port == "")
      && (q.filterStatus.None? <==> f.status == -1)
      && (q.filterStatus.Some? ==> q.filterStatus.value == f.status)
  {
  }

  /**
   * Suppression: the option is set only when severities are filtered and
   * suppressed problems are not shown, and then it is `false`. The limit is
   * one above the search limit, and maintenance ON means "no maintenance
   * filter" while any other value asks for hosts not in maintenance.
   */
  lemma QueryOptionRules(f: HostFilter, subGroups: seq<nat>, searchLimit: int, countOutput: bool)
    ensures var q := QueryOptions(f, subGroups, searchLimit, countOutput);
      && (q.withProblemsSuppressed.Some? <==> f.severities != [] && f.showSuppressed != ProblemSuppressedTrue)
      && (q.withProblemsSuppressed.Some? ==> q.withProblemsSuppressed.value == false)
      && (q.severities.Some? <==> f.severities != [])
      && (q.groupids.Some? <==> f.groupids != [])
      && q.limit == searchLimit + 1
      && q.filterMaintenanceStatus in {None, Some(MaintenanceStatusOff)}
      && (q.filterMaintenanceStatus.None? <==> f.maintenanceStatus == MaintenanceStatusOn)
  {
  }

  /** The counted hosts and the listed hosts are selected by the same options. */
  lemma CountAndDataAgree(f: HostFilter, subGroups: seq<nat>, searchLimit: int)
    ensures CountQuery(f, subGroups, searchLimit).(countOutput := false, sortByName := true)
      == DataQuery(f, subGroups, searchLimit)
  {
  }

  /** The problem query hides suppressed problems unless they are shown, whether or not severities are filtered. */
  lemma ProblemSuppressionIndependentOfSeverities(f: HostFilter, severities: seq<int>)
    ensures ProblemSuppressedOption(f) == ProblemSuppressedOption(f.(severities := severities))
    ensures f.severities != [] ==>
      ProblemSuppressedOption(f) == QueryOptions(f, [], 0, false).withProblemsSuppressed
  {
  }
}
