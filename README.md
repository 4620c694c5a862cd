# Hosts tree: a Dafny model

This project models the core of the "Monitoring → Hosts" tree module for
Zabbix. The module lists the monitored hosts grouped by host group. Host groups
are shown as a collapsible tree, built from the '/'-separated group names.

The model covers:

- **Controller pass (`getData`).** The controller walks the fetched host list
  and does four things for each host:
  - it collects maintenance ids;
  - it counts each host's distinct problems per severity;
  - it merges the host's own tags with its inherited tags;
  - it folds the hosts' groups into the ordered group map `$host_groups`.
    Each node of that map holds a group id, the direct hosts, the child
    names, the parent name and a collapsed flag. A missing parent is
    synthesised one level up.
- **Filter handling.** `cleanInput` drops blank tag rows and handles a filter
  reset. The stored filter is mapped to the host query's options.
- **`checkInput`.** It checks the shape of each tag filter row and the range
  of the severities. A failure sets a fatal response.
- **Table rows.** The view's recursive `addGroupRow` flattens the tree into
  rows: a group's header, then its children's rows, then its host rows. The
  model covers indentation, visibility, the parent-group attribute, the
  severity-filtered problem icons and total, the interface shown, and the
  maintenance label.
- **Refresh script.**
  - The page script receives the children map as a JavaScript object
    literal, printed by the view. The model covers that printer.
  - It covers `collapseSubgroup`, which transitively collapses a group's
    subtree.
  - It covers the chevron's click handler, which finds the group id among the
    toggle's `data-` attributes and flips that group.

Operations that run loops are `method`s, proved against specification
functions:

- `ProcessHosts`, `GroupProblems`, `CountBySeverity` and `MergeTags`;
- `AddGroupRow` and `CollectTableRows`;
- `PrintChildren`, `EmitData`, `CollapseSubgroup`, `FindGroupId` and
  `OnClick`.

`checkInput` updates the controller's response, so it is a method of a class
with that field. The remaining logic is pure functions with lemmas.

The model follows the code where it departs from the evident design:

- A missing parent is synthesised one level up only. The synthesised parent
  keeps the empty parent name and is not linked further up.
- The counter for synthesised group ids restarts at 10000 for every host. So
  two synthesised groups of different hosts can share an id. The design
  intent is a placeholder id unique within the page; the code does not give
  that.
- A name like "/x" gets the empty string as its parent.
- Group-level problem counts and host numbers are read by the view. Nothing in
  the code computes them, so the model does not invent them.

Ids are unbounded naturals. The script sees group ids as their decimal text.
The following are inputs to the model: the results of the inventory API (host
records, problems, triggers with their hosts, maintenances) and the group-name
lookup used for synthesised parents.

Constants used:

| constant | value |
|---|---|
| severities | 0..5 |
| host monitored | 0 |
| maintenance on / off | 1 / 0 |
| "show suppressed" | 1 |
| interface types: agent, SNMP, IPMI, JMX | 1, 2, 3, 4 |
| first synthesised id | 10000 |

Modules, one per file:

| module | file | covers |
|---|---|---|
| `HostTypes` | `types.dfy` | records, constants, the ordered group map |
| `GroupNames` | `group_names.dfy` | `explode`/`implode`, parent name and label |
| `GroupTree` | `group_tree.dfy` | the group-tree fold and its shape |
| `ProblemCounting` | `problems.dfy` | per-host problem counts |
| `TagMerge` | `tags.dfy` | the tag merge |
| `HostProcessing` | `hosts.dfy` | the controller's loop over the hosts |
| `FilterOptions` | `filters.dfy` | `cleanInput` and query options |
| `InputValidation` | `validation.dfy` | `checkInput` |
| `HostCells` | `view_cells.dfy` | a host row's cells |
| `HostRows` | `view_rows.dfy` | the row flattening |
| `RowFacts` | `view_facts.dfy` | what the rows say about the tree |
| `GroupScript` | `script.dfy` | the refresh script |

## Model

| member | source | states |
|---|---|---|
| HostTypes.GroupMap.Put | actions/CControllerBGHost.php:258-310 | Storing a key in `$host_groups` updates the node. An existing key keeps its place in the key order. A new key goes last. The map stays duplicate-free. |
| GroupNames.Explode | actions/CControllerBGHost.php:273 | `explode('/', ...)` always yields at least one piece. |
| GroupNames.LastSlash | actions/CControllerBGHost.php:273-278 | Names the position of the last '/' of a name that has one. |
| GroupNames.ExplodeNoSlash | actions/CControllerBGHost.php:273-275 | A name without '/' explodes to itself alone. |
| GroupNames.ExplodeLast | actions/CControllerBGHost.php:273-278 | Exploding `a/b`, with `b` free of '/', gives the pieces of `a` followed by `b`. |
| GroupNames.ImplodeExplode | actions/CControllerBGHost.php:273-278 | `implode` inverts `explode`. |
| GroupNames.SplitAtLastSlash | actions/CControllerBGHost.php:273-278 | A name with a '/' has a parent. The parent name is the text before the last '/'. The label is the text after it. The name is parent + "/" + label. |
| GroupNames.HasParentIffSlash | actions/CControllerBGHost.php:273-275 | A name has a parent (more than one piece) exactly when it contains '/'. |
| GroupNames.ParentShorter | actions/CControllerBGHost.php:276-278 | A parent name is strictly shorter than the name, and the name is parent + "/" + label. |
| GroupNames.LastPieceNoSlash | partials/module.monitoring.host.view.html.php:232-253 | A name without '/' is its own label and has no parent. |
| GroupNames.LeadingSlashParent | actions/CControllerBGHost.php:273-278 | "/x" has a parent, and that parent is the empty name. |
| GroupNames.JoinParent | actions/CControllerBGHost.php:273-278 | `a/b`, with `b` free of '/', has parent `a` and label `b`. |
| GroupTree.AddMember | actions/CControllerBGHost.php:258-270 | A membership adds exactly the group's key, or keeps an existing one. |
| GroupTree.AppendChild | actions/CControllerBGHost.php:283-285 | Appending a child keeps the key set. |
| GroupTree.NewParent | actions/CControllerBGHost.php:295-310 | A synthesised parent adds exactly its own key. |
| GroupTree.SetParentName | actions/CControllerBGHost.php:314 | Setting the parent field keeps the key set. |
| GroupTree.LinkParent | actions/CControllerBGHost.php:272-315 | Parent linking never removes a key. |
| GroupTree.AddMemberFacts | actions/CControllerBGHost.php:258-270 | One membership keeps the tree's shape (all collapsed, children linked and distinct, parent fields sound). It adds the group to the members. It appends the host id to that group's host list only. |
| GroupTree.AppendChildFacts | actions/CControllerBGHost.php:281-285 | Linking to an existing parent keeps the shape. Afterwards the child is in the parent's children. Host lists are unchanged. |
| GroupTree.NewParentFacts | actions/CControllerBGHost.php:286-311 | Synthesising a parent keeps the shape. The parent lists the child. Host lists are unchanged. |
| GroupTree.SetParentNameFacts | actions/CControllerBGHost.php:314 | Recording the parent name makes the name a linked member. Shape and host lists are kept. |
| GroupTree.LinkParentFacts | actions/CControllerBGHost.php:272-315 | After parent linking, the member is linked to its parent: listed once among its children, with its parent field naming it. Shape and host lists are kept. |
| GroupTree.SynthesisedParent | actions/CControllerBGHost.php:286-311 | A missing parent is appended as a node with no hosts, only the child, and parent name ''. Its id is the looked-up id, or else the counter, which then moves on by one. |
| GroupTree.CounterUnchanged | actions/CControllerBGHost.php:281-301 | The counter moves only when a parent is synthesised without a looked-up id. |
| GroupTree.AddGroup | actions/CControllerBGHost.php:255-316 | One group of a host keeps the map well-formed. |
| GroupTree.AddHostGroups | actions/CControllerBGHost.php:253-316 | All groups of one host keep the map well-formed. |
| GroupTree.BuildGroups | actions/CControllerBGHost.php:206-317 | The fold over the hosts yields a well-formed ordered map. |
| GroupTree.AddHostGroupsFacts | actions/CControllerBGHost.php:253-316 | A host's groups keep the shape, and every one of them becomes a linked member. |
| GroupTree.AddHostGroupsHosts | actions/CControllerBGHost.php:255-270 | A host's groups append its id to each group's host list once per membership. |
| GroupTree.AddGroupHosts | actions/CControllerBGHost.php:258-270 | One membership appends the host id to that group's list only. |
| GroupTree.LinkParentHosts | actions/CControllerBGHost.php:272-315 | Parent linking changes no host list. |
| GroupTree.AddGroupFacts | actions/CControllerBGHost.php:255-316 | One group of a host keeps the shape and makes the group a linked member. |
| GroupTree.BuildGroupsFacts | actions/CControllerBGHost.php:206-317 | See the note after this table. |
| GroupTree.MemberEntriesAreHosts | actions/CControllerBGHost.php:255-270 | Every entry of a host list is the id of a processed host. |
| GroupTree.OccurrencesAreHost | actions/CControllerBGHost.php:262-269 | One host's memberships add only its own id. |
| GroupTree.ChildLongerThanParent | actions/CControllerBGHost.php:273-285 | A listed child is a key with a strictly longer name than its parent, so the view's recursion ends. |
| GroupTree.BuildGroupsSnoc | actions/CControllerBGHost.php:208-317 | The fold processes hosts in list order: one more host is one more step. |
| GroupTree.SingleGroupSynthesis | actions/CControllerBGHost.php:302-310 | A host in a new group "a/b" with unknown parent "a" adds exactly "a/b" and "a". "a" gets id 10000. Older nodes are untouched. |
| GroupTree.FakeIdsRepeatAcrossHosts | actions/CControllerBGHost.php:253-310 | Two hosts in "a/x" and "b/y", with parents unknown to the lookup, both get a synthesised parent with id 10000. Synthesised ids are not unique. |
| GroupTree.LeadingSlashTwice | actions/CControllerBGHost.php:273-314 | A host whose only group is "/x" (no other '/') gives the keys "/x" and "" in that order. Both have parent name '', and "" lists "/x" as its only child. |
| GroupTree.SynthesisIsOneLevel | actions/CControllerBGHost.php:286-314 | For a host in "p/c" where "p" itself has a parent, "p" is created as a root with parent name '' and the single child. The parent of "p" is never created. |
| ProblemCounting.GroupProblems | actions/CControllerBGHost.php:198-204 | The grouped event sets are, for every host and severity, the distinct event ids of problems whose trigger is linked to the host. |
| ProblemCounting.CountBySeverity | actions/CControllerBGHost.php:218-228 | The counting loop gives one count per severity 0..5: the size of the recorded event set, or 0 when there is none. |
| ProblemCounting.CountsOfGroupedProblems | actions/CControllerBGHost.php:198-228 | The counts read from the grouped problems equal the counts stated directly on the problem records. |
| ProblemCounting.CountIsDistinctEvents | actions/CControllerBGHost.php:198-228 | A host has an entry for exactly the severities 0..5. Each entry is the number of distinct event ids of that severity on triggers linked to the host. |
| ProblemCounting.NoProblemsAllZero | actions/CControllerBGHost.php:218-228 | A host that no problem's trigger is linked to gets 0 for every severity. |
| ProblemCounting.RepeatedProblemCountedOnce | actions/CControllerBGHost.php:200-203 | A problem record that is reported twice is counted once. |
| TagMerge.MergeTags | actions/CControllerBGHost.php:231-252 | The nested merge loop computes the merged tag list. |
| TagMerge.AppendNewPrefix | actions/CControllerBGHost.php:237-249 | The merge keeps the host's tags as an unchanged prefix. |
| TagMerge.AppendNewCovers | actions/CControllerBGHost.php:240-249 | Every inherited pair is in the result. Nothing but host and inherited pairs is. |
| TagMerge.AppendNewFresh | actions/CControllerBGHost.php:240-249 | Every appended tag differs from all tags before it. |
| TagMerge.AppendNewOrder | actions/CControllerBGHost.php:240-249 | The appended tags keep the inherited order. |
| TagMerge.MergeKeepsOrderWithoutNewDuplicates | actions/CControllerBGHost.php:237-249 | See the note after this table. |
| TagMerge.MergeOfDistinctIsDistinct | actions/CControllerBGHost.php:237-249 | Without duplicate pairs among the host's tags, the merged list has none. |
| TagMerge.MergeWithEmptySide | actions/CControllerBGHost.php:231-236 | With no inherited tags the result is the host's tags. With no host tags it is the inherited tags. |
| HostProcessing.ProcessedAll | actions/CControllerBGHost.php:208-317 | The processed list has one processed entry per host, in the same order. |
| HostProcessing.ProcessHosts | actions/CControllerBGHost.php:178-317 | The controller's loop yields three things. The processed hosts are counts filled and tags merged. The maintenance ids are those of monitored hosts in maintenance. The group map is the fold over the hosts. |
| HostProcessing.ProcessHost | actions/CControllerBGHost.php:218-252 | One host gets its counts and merged tags. |
| HostProcessing.AddHostGroupsLoop | actions/CControllerBGHost.php:253-316 | The inner loop over a host's groups, with the counter reset to 10000, is the per-host fold. |
| HostProcessing.AddMembership | actions/CControllerBGHost.php:258-270 | The keys become the old keys plus the group's name. That group's host list becomes its old list (empty for a new key) plus the host id. A new node has the group's id, no children, parent name '' and is collapsed. An existing node keeps its id, children and parent name. No other node changes. |
| HostProcessing.LinkToParent | actions/CControllerBGHost.php:272-314 | A name without '/' changes nothing and keeps the counter. Otherwise the keys gain the parent's name, the name is among the parent's children, and the name's node changes only in its parent field, which names the parent. No node other than those two changes. |
| HostProcessing.AttachToParent | actions/CControllerBGHost.php:281-312 | An existing parent lists the name among its children and keeps its hosts and parent name. A missing parent becomes a node with the looked-up id, or else the counter value, with no hosts, the name as only child, parent name '' and collapsed. The counter moves on only in that last case. No other node changes. |
| HostProcessing.ProcessedKeepsHost | actions/CControllerBGHost.php:208-252 | A definition-level fact about ProcessHost. Processing keeps a host's id, name, status, maintenance fields, interfaces and groups. It gives counts for exactly the severities 0..5. |
| HostProcessing.MaintenanceIdsMeaning | actions/CControllerBGHost.php:214-216 | A definition-level fact about MaintenanceIds. An id is collected exactly when some monitored host in maintenance carries it. |
| FilterOptions.NonBlankRows | actions/CControllerBGHost.php:378-383 | Filtering tag rows never lengthens the list. |
| FilterOptions.NonBlankRowsMeaning | actions/CControllerBGHost.php:379-382 | The kept rows are exactly the rows whose tag or value is non-empty. They keep their order. The result is shorter by the number of blank rows. |
| FilterOptions.NonBlankRowsIdempotent | actions/CControllerBGHost.php:379-382 | Dropping blank rows twice is dropping them once. |
| FilterOptions.CleanInputMeaning | actions/CControllerBGHost.php:373-386 | See the note after this table. |
| FilterOptions.CleanInputIdempotent | actions/CControllerBGHost.php:373-386 | Cleaning a cleaned input changes nothing. |
| FilterOptions.QueryKeepsSearchFields | actions/CControllerBGHost.php:88-99 | Name, ip, dns and port are null exactly when empty, and otherwise read back unchanged. Status is null exactly when it is -1, and otherwise passed through. |
| FilterOptions.QueryOptionRules | actions/CControllerBGHost.php:76-100 | See the note after this table. |
| FilterOptions.CountAndDataAgree | actions/CControllerBGHost.php:125-153 | The count query and the first data query select hosts with the same options. Only the count flag and the name sort differ. |
| FilterOptions.ProblemSuppressionIndependentOfSeverities | actions/CControllerBGHost.php:190-196 | The problem query hides suppressed problems unless they are shown, whatever the severity filter. With severities filtered, this agrees with the host query's option. |
| InputValidation.HostViewController.CheckInput | actions/CControllerBGHostView.php:61-87 | The result is: base rules pass, every tag row is well formed, and every severity is one of 0..5. On failure the response is fatal. On success the response is untouched. |
| InputValidation.BaseFailureRejects | actions/CControllerBGHostView.php:61-64 | When the base field rules fail, the request is rejected whatever the tags and severities are. |
| InputValidation.BadTagRowRejects | actions/CControllerBGHostView.php:64-74 | One malformed tag row, at any position, rejects the request. |
| InputValidation.ExtraKeyRejected | actions/CControllerBGHostView.php:66-69 | A tag row with a fourth key is rejected even when `tag`, `value` and `operator` are strings. |
| InputValidation.VerdictIgnoresOrder | actions/CControllerBGHostView.php:64-81 | Reordering the tag rows or the severities does not change the verdict. |
| InputValidation.SeverityBoundaries | actions/CControllerBGHostView.php:77-81 | An empty list and [0, 5] pass. "6" and "-1" fail. |
| HostCells.ListedMeansIn | partials/module.monitoring.host.view.html.php:101 | The `in_array` scan finds a severity exactly when it is in the filter. |
| HostCells.ProblemIcons | partials/module.monitoring.host.view.html.php:94-111 | The icon loop yields the icons from severity 5 down to 0. The total is the sum of the icons' counts. |
| HostCells.IconsAreShown | partials/module.monitoring.host.view.html.php:100-111 | Every icon is for a severity in range with a positive count that the filter admits, and carries that count. |
| HostCells.IconsDescending | partials/module.monitoring.host.view.html.php:97-100 | Icons come in strictly descending severity. |
| HostCells.IconsBelow | partials/module.monitoring.host.view.html.php:97-100 | No icon is above the severity the loop starts from. |
| HostCells.IconsComplete | partials/module.monitoring.host.view.html.php:100-110 | A severity in range gets an icon exactly when it has problems and the filter is empty or names it. |
| HostCells.TotalZeroIffNoIcons | partials/module.monitoring.host.view.html.php:113-118 | The total is 0 (the plain "Problems" text) exactly when no icon is shown. |
| HostCells.UnfilteredTotalIsSum | partials/module.monitoring.host.view.html.php:100-103 | Without a severity filter the total is the sum of all counts. |
| HostCells.FirstOfTypeAt | partials/module.monitoring.host.view.html.php:78-82 | The first interface of a type is the earliest one of that type, or none. |
| HostCells.PickInterface | partials/module.monitoring.host.view.html.php:63-86 | The interface loop returns the preferred interface. |
| HostCells.FirstOfTypeMeaning | partials/module.monitoring.host.view.html.php:77-83 | No interface of a type exactly when none has it. Otherwise the result is the earliest interface of that type. |
| HostCells.PickFromMeaning | partials/module.monitoring.host.view.html.php:72-86 | See the note after this table. |
| HostCells.PickFromSome | partials/module.monitoring.host.view.html.php:72-86 | Witnesses for the chosen interface: its type's position and its own position, with nothing earlier matching. |
| HostCells.MaintenanceLabel | partials/module.monitoring.host.view.html.php:120-134 | Exactly monitored hosts in maintenance get a label of their maintenance type. The label shows the record's name and description, or "Inaccessible maintenance" with no description when the record is missing. |
| HostCells.HostSpacers | partials/module.monitoring.host.view.html.php:136-139 | The name cell gets 7 + 5·level spacers. |
| HostCells.HeaderSpacers | partials/module.monitoring.host.view.html.php:247-251 | The group header gets 5·level spacers. |
| HostCells.BuildCells | partials/module.monitoring.host.view.html.php:67-140 | A host row's cells: interface, icons and total, maintenance label, enabled flag. |
| HostCells.BuildCellsMap | partials/module.monitoring.host.view.html.php:67-211 | Every known host gets exactly its own cells. |
| HostRows.ParentAttr | partials/module.monitoring.host.view.html.php:282-290 | A row carries a parent group id exactly when it was reached from a group. |
| HostRows.HostRowsOf | partials/module.monitoring.host.view.html.php:68-211 | A group gets one row per entry of its host list. |
| HostRows.GroupRows | partials/module.monitoring.host.view.html.php:62-280 | A group's rows start with its own header. |
| HostRows.BuildHostRow | partials/module.monitoring.host.view.html.php:68-210 | One host row: cells, indentation, hidden when the group is collapsed, and the group's id as parent attribute. |
| HostRows.ChildRowsNext | partials/module.monitoring.host.view.html.php:215-217 | The child loop adds the next child's rows, one level deeper, after the earlier children's rows. |
| HostRows.TableRowsNext | partials/module.monitoring.host.view.html.php:45-55 | The top-level loop appends the rows started from the next key, in key order. |
| HostRows.AppendRows | partials/module.monitoring.host.view.html.php:269-279 | Copying rows appends them in order. |
| HostRows.CollectHostRows | partials/module.monitoring.host.view.html.php:67-211 | The host loop yields the group's host rows in host-list order. |
| HostRows.CollectChildRows | partials/module.monitoring.host.view.html.php:213-217 | The child loop yields the children's rows in children order, one level deeper. |
| HostRows.AddGroupRow | partials/module.monitoring.host.view.html.php:62-280 | The recursive `addGroupRow` appends the group's header, then its children's rows, then its host rows. |
| HostRows.AddTopGroup | partials/module.monitoring.host.view.html.php:45-55 | A key starts a traversal, as one contiguous block at level 0, exactly when its parent field is ''. |
| HostRows.CollectTableRows | partials/module.monitoring.host.view.html.php:45-55 | The table is the blocks of the root keys, in key order. |
| HostRows.TableRows | partials/module.monitoring.host.view.html.php:45-55 | The table the view builds is the specified table with cells computed from the host records. |
| RowFacts.HostRowsFacts | partials/module.monitoring.host.view.html.php:136-211 | Host rows are faithful (see the notes) and at the group's level. |
| RowFacts.HeaderFaithful | partials/module.monitoring.host.view.html.php:220-267 | A definition-level fact about HostRows.Header. A header row is faithful (see the notes). |
| RowFacts.GroupRowsFacts | partials/module.monitoring.host.view.html.php:62-280 | A group's rows are faithful and no shallower than the group. Every header after the first is deeper. |
| RowFacts.ChildRowsFacts | partials/module.monitoring.host.view.html.php:213-217 | The children's rows are faithful and one level deeper. |
| RowFacts.TableRowsFaithful | partials/module.monitoring.host.view.html.php:45-55 | Every row of the table is faithful. |
| RowFacts.TopRowsFaithful | partials/module.monitoring.host.view.html.php:45-55 | The rows started from one key are faithful. |
| RowFacts.ControllerTreeRenderable | actions/CControllerBGHost.php:253-316 | When every host of the list has a record, the controller's group tree meets the view's precondition `Renderable`. Its names are distinct keys, every child is a key with a longer name, and every listed host id has a record. |
| RowFacts.AllRowsFacts | partials/module.monitoring.host.view.html.php:45-290 | Every row of the table is faithful. Every host row shows the cells computed from that host's record. |
| RowFacts.CollapsedVisibility | partials/module.monitoring.host.view.html.php:206-264 | With every group collapsed, every host row is hidden. A header is hidden exactly when it was reached from a parent group. |
| RowFacts.LabelledMaintenanceCollected | partials/module.monitoring.host.view.html.php:122-134 | A labelled host's maintenance id is one the controller collected. A missing record labels it "Inaccessible maintenance". |
| RowFacts.HostRowsCount | partials/module.monitoring.host.view.html.php:68-211 | A group's host rows are n host lines and no header. |
| RowFacts.GroupRowsPreorder | partials/module.monitoring.host.view.html.php:213-279 | A group's header rows list the groups of its subtree in pre-order. Its host rows number the host entries of that subtree. |
| RowFacts.GroupRowsCount | partials/module.monitoring.host.view.html.php:68-279 | A group emits as many rows as the groups of its subtree plus their host entries. |
| GroupScript.Digit | partials/js/monitoring.host.view.refresh.js.php:35 | A decimal digit reads back as its value. |
| GroupScript.IdText | partials/js/monitoring.host.view.refresh.js.php:35 | An id is printed as non-empty decimal text. |
| GroupScript.ReadIdText | partials/js/monitoring.host.view.refresh.js.php:35-47 | Reading an id's text gives the id back. |
| GroupScript.IdTextInjective | partials/js/monitoring.host.view.refresh.js.php:35-47 | Two ids print alike exactly when they are equal. |
| GroupScript.ChildId | partials/js/monitoring.host.view.refresh.js.php:45 | A child is printed as its group id in digits. A child without a node (PHP null) prints as nothing. |
| GroupScript.JoinSnoc | partials/js/monitoring.host.view.refresh.js.php:44-53 | One more child adds a comma and its quoted id, with no comma before the first. |
| GroupScript.PrintChildren | partials/js/monitoring.host.view.refresh.js.php:41-54 | `print_children` writes the children's ids in children order, quoted and comma-separated, with no trailing comma. |
| GroupScript.EntrySpelling | partials/js/monitoring.host.view.refresh.js.php:35-37 | An entry is spelled as the quoted id, a colon, the bracketed list, and a comma. |
| GroupScript.EmitData | partials/js/monitoring.host.view.refresh.js.php:31-40 | The literal is "{", then one entry per group with children in key order, then "}". |
| GroupScript.SerializeSnoc | partials/js/monitoring.host.view.refresh.js.php:33-39 | One more entry is appended text. |
| GroupScript.UpToQuote | partials/js/monitoring.host.view.refresh.js.php:31-54 | The reader's split of a text at the next quote loses nothing. |
| GroupScript.ParseQuoted | partials/js/monitoring.host.view.refresh.js.php:31-54 | Reading a quoted id consumes input. |
| GroupScript.ParseItems | partials/js/monitoring.host.view.refresh.js.php:31-54 | Reading a list consumes input. |
| GroupScript.ParseEntry | partials/js/monitoring.host.view.refresh.js.php:31-54 | Reading an entry consumes input. |
| GroupScript.QuotedRead | partials/js/monitoring.host.view.refresh.js.php:47 | A quoted id reads back as the id. |
| GroupScript.ItemsRead | partials/js/monitoring.host.view.refresh.js.php:41-54 | A printed children list reads back as the list. |
| GroupScript.EntryRead | partials/js/monitoring.host.view.refresh.js.php:35-37 | A printed entry reads back as the entry. |
| GroupScript.SerializeRead | partials/js/monitoring.host.view.refresh.js.php:33-39 | Printed entries read back as the entries. |
| GroupScript.LiteralRoundTrip | partials/js/monitoring.host.view.refresh.js.php:31-54 | See the note after this table. |
| GroupScript.EvaluateSnoc | partials/js/monitoring.host.view.refresh.js.php:31-40 | In the evaluated object a later entry with the same key wins. |
| GroupScript.DataKeys | partials/js/monitoring.host.view.refresh.js.php:33-39 | The object's keys are exactly the ids of the groups that have children. |
| GroupScript.DataLookup | partials/js/monitoring.host.view.refresh.js.php:33-39 | A group with children, whose id no later group with children shares, maps to its children's ids. |
| GroupScript.PageDataMeaning | partials/js/monitoring.host.view.refresh.js.php:31-54 | See the note after this table. |
| GroupScript.WalkCons | partials/js/monitoring.host.view.refresh.js.php:94-103 | A step from a group to a listed child extends a walk through the children map. |
| GroupScript.CollapseWalk | partials/js/monitoring.host.view.refresh.js.php:94-103 | Every id that `collapseSubgroup(g)` collapses is reached from g by a walk through the children map. |
| GroupScript.KidsWalk | partials/js/monitoring.host.view.refresh.js.php:96-101 | Every id collapsed by the child loop is reached from a listed child. |
| GroupScript.KidsMember | partials/js/monitoring.host.view.refresh.js.php:96-101 | Every listed child is collapsed: through the recursive call when it has an entry, directly otherwise. |
| GroupScript.CollapseComplete | partials/js/monitoring.host.view.refresh.js.php:94-103 | Every id reached from g is collapsed when the collapse finishes. |
| GroupScript.CollapseExact | partials/js/monitoring.host.view.refresh.js.php:94-103 | A finished collapse of g collapses exactly the ids reachable from g. |
| GroupScript.KidsNone | partials/js/monitoring.host.view.refresh.js.php:96-101 | A child collapse that does not finish makes the child loop not finish. |
| GroupScript.SelfListedNeverEnds | partials/js/monitoring.host.view.refresh.js.php:94-103 | A group listed among its own children makes `collapseSubgroup` recurse without end. This happens when two groups share an id. |
| GroupScript.KidsPrefixNone | partials/js/monitoring.host.view.refresh.js.php:96-101 | A child whose collapse does not finish stops the whole loop. |
| GroupScript.CollapseSubgroup | partials/js/monitoring.host.view.refresh.js.php:94-103 | The recursive method adds to the collapsed set exactly the collapse of g, or does not finish. |
| GroupScript.ToggleChevron | partials/js/monitoring.host.view.refresh.js.php:56-64 | After a toggle the chevron reads as collapsed (right arrow) exactly when collapsed. It shows the down arrow exactly when expanded. Other classes are kept. |
| GroupScript.GroupIdOf | partials/js/monitoring.host.view.refresh.js.php:78-85 | The group id is the value of the first `data-` attribute. When there is none, the model yields "0"; the source throws instead (see "Left out"). |
| GroupScript.FindGroupId | partials/js/monitoring.host.view.refresh.js.php:78-85 | The attribute loop stops at the first `data-` attribute. |
| GroupScript.OnClick | partials/js/monitoring.host.view.refresh.js.php:75-92 | A collapsed group is expanded alone. An expanded group without an entry is collapsed alone. An expanded group with an entry is collapsed together with its subtree. |
| GroupScript.ClickMeaning | partials/js/monitoring.host.view.refresh.js.php:75-92 | See the note after this table. |

Notes on the longer rows:

- **GroupTree.BuildGroupsFacts.** After all hosts, three things hold:
  - The tree is well shaped: every node is collapsed, children are linked
    and listed once, and parent fields are '' or the real parent.
  - Every member group is a key. If it has a '/', it is listed once among its
    parent's children and names that parent. Every other key is a
    synthesised parent: no hosts, parent name '', and a child.
  - Every group's host list is the member host ids in host order, once per
    membership.
- **TagMerge.MergeKeepsOrderWithoutNewDuplicates.** With both lists non-empty:
  - the host's tags come first, unchanged;
  - then the inherited tags follow in their own order, each a pair not
    present earlier;
  - every inherited pair is present.
- **FilterOptions.CleanInputMeaning.** With `filter_reset` set, only
  `filter_name` can remain, and it holds the empty string. Otherwise:
  - keys are unchanged;
  - non-tag values are unchanged;
  - tag rows are filtered.
- **FilterOptions.QueryOptionRules.**
  - The suppression option is set exactly when severities are filtered and
    suppressed problems are not shown. It is then `false`.
  - Severities and groups are null exactly when empty.
  - The limit is the search limit + 1.
  - Maintenance ON maps to null. Anything else maps to OFF.
- **HostCells.PickFromMeaning.**
  - No interface exactly when the host has none of the listed types.
  - Otherwise the choice is the first interface of the first listed type the
    host has.
- **RowFacts (faithful rows).** A header row is faithful when:
  - it shows its group's id, its label and 5·level spacers;
  - it shows the collapsed flag;
  - it is hidden exactly when collapsed and reached from a parent.

  A host row is faithful when:
  - its host is in its group's list;
  - it has 7 + 5·level spacers;
  - it is hidden exactly when its group is collapsed;
  - it carries its group's id.
- **GroupTree.LeadingSlashTwice.** A group named "/x" gets the synthesised
  parent '' but keeps '' as its own parent field. Both keys are therefore
  roots. The view renders "/x" at level 0, and again at level 1 under a
  header with an empty title.
- **GroupScript.LiteralRoundTrip.** Reading the printed literal back gives
  exactly the entries: one per group with children, in key order, keyed by
  group id and listing the children's ids in order.
- **GroupScript.PageDataMeaning.** The script's children map:
  - has a key exactly for the ids of groups with children;
  - maps a group with a unique id to its children's ids in order.
- **GroupScript.ClickMeaning.**
  - A click flips the clicked group.
  - Expanding changes no other group.
  - Collapsing keeps every collapsed group collapsed. Every group reached from
    the clicked one ends up collapsed. Every newly collapsed group is reached
    from it.

## Left out

- The inventory API calls are not modelled. Their results are inputs: hosts, triggers with their hosts, problems, maintenances, and the group-name lookup for synthesised parents.
- The sub-group helper is not modelled. It appears as an input to the query options.
- The configured search limit is an input to the query options.
- Sorting and paging of hosts (`CArrayHelper::sort`, `CPagerHelper::paginate`) are left out. The host list is taken as already sorted and paged.
- Each host's interfaces are taken as already sorted by `main` (actions/CControllerBGHost.php:212).
- The dashboard count of each host is left out: `getHostDashboards` is not part of this model.
- The `makeTags` rendering of the merged tags (actions/CControllerBGHost.php:330-334) is not part of this model. The model stops at the merged tag list.
- The declarative field rules of `validateInput` are not modelled. They appear as one boolean input, `baseValid`.
- `checkPermissions`, `doAction` and the tab-filter profile are framework plumbing and are left out.
- HTML objects are not modelled: rows, cells, links, URLs, CSS classes, menu pop-ups and the spacer entity. Rows are records of kind, level, spacer count, label, collapsed/hidden flags, parent group id and computed cells.
- The `has_enabled_items` marking of interfaces (partials/module.monitoring.host.view.html.php:74-76) only feeds the availability widget, so it is left out.
- The group header's problem icons and host number are left out. The view reads `problem_count` and `num_of_hosts` of a group (lines 236, 255), but nothing in the code computes them. `$child_stat` is never used.
- HostCells.BuildCellsMap: cells are computed once per host before the tree walk, not inside each host row. The cells are the same.
- DOM effects are not modelled: jQuery selectors, class toggling on rows, and event binding. The script's state is the set of collapsed group ids. The chevron is its set of classes.
- GroupScript.FindGroupId: the toggle's attributes are a sequence in document order. The non-index properties that `for...in` also visits are not modelled.
- GroupScript.GroupIdOf: with no `data-` attribute, the source's `for...in` goes on to the collection's `length` property and `attr.name.startsWith` throws. The model returns the initial "0" instead.
- GroupScript.CollapseSubgroup: the JavaScript call stack is a `fuel` bound, and None stands for running out of it.
  - The model does not prove that enough fuel always suffices on acyclic data.
  - The groups already toggled when the stack runs out are not modelled.
- GroupScript.ClickMeaning: it states its facts only for a click whose collapse finishes (`r.Some?`).
- GroupScript.PageDataMeaning: a lookup is stated only for a group whose id no later group with children shares. Synthesised groups can share the id 10000, and then the later entry wins (GroupScript.EvaluateSnoc).
- HostRows.GroupRows: the view's lookups are assumed to succeed (`Renderable`). This means children are keys with longer names, and every listed host has a record. RowFacts.ControllerTreeRenderable proves this for the controller's tree whenever every host of the list has a record. PHP's null reads for missing keys are not modelled.
- The order of the level-0 headers is not stated as its own lemma. It is "root keys in key order"; HostRows.TableRowsNext and HostRows.AddTopGroup state it step by step.
- InputValidation.HostViewController.CheckInput: every tag row is taken to be an array. The base rule `'tags' => 'array'` (actions/CControllerBGHostView.php:46) does not check the elements. A scalar row makes `count()` throw a TypeError under PHP 8; under PHP 7 it warns, counts 1, and the input is rejected. Neither path is modelled.
- ProblemCounting.GroupProblems: a problem whose trigger was not returned by the trigger query adds nothing. PHP would iterate over null there.
