# Inspector panel model

A Dafny model of the component inspector panel of the editor:

- `editor/inspector/components/diy-class.js` — the rendering-plan formatter (`generatePropId`, `displayOrderCompare`, `groupBy`, `formatPropList`) and the small panel built on it (`update`, `ready`, `close`);
- `editor/inspector/components/class.js` — the reconciling panel: an identity-to-widget map `$propList`, a group-key-to-tab-group map `$groups`, insertion by display order, tab groups and their tab-change rule;
- `editor/inspector/components/prop-renderer.js` — the widget factory: label text, the `createByType` dispatch and seed rules, `createArrayProp`, `createPropGroup` and `createPropElement`.

The DOM is replaced by an explicit forest (`Dom.Tree`): each place is the section or a tab content area `Tab(group, name)`, and each has a child sequence and a parent map. Widgets are `NodeId`s handed out from a counter. What the factory builds is a `WidgetSpec` value. A thrown TypeError becomes an `Err(Fault)` result that leaves the state as it was when the throw happened. The faults modelled are the ones `Dump.Fault` lists; the label's throw on a property without `displayName` and `name` is not among them (see "## Left out").

Modules:

| Module | Contents |
|---|---|
| `Dump` | the input dump |
| `PropId` | the identity key |
| `DisplayOrder` | the comparator, and the stable sort that `Array.prototype.sort` performs with it |
| `Grouping` | `groupBy` |
| `Formatter` | `formatPropList` |
| `Dom` | the forest |
| `PropRenderer` | the factory |
| `ClassInspector` | class `Panel`, the `class.js` panel |
| `DiyInspector` | class `DiyPanel`, the `diy-class.js` panel with `createPropElement` / `createPropGroup` writing into it |
| `Tabs` | the two tab-change rules |

Methods that loop or that change a panel's fields are proved against value-level functions: `Update`'s contract is `Outcome(State(), r) == UpdatePass(old(State()), dump)`. The lemmas state what those functions promise.

Some behaviour of the code as written is stated as it is, in lemmas:
- **Widgets of later entries end detached.** The removal loop of `diy-class.js` runs inside the entry loop. Once the first entry has its widget, found or created, the loop detaches the widget of every identity the pass has not reached yet, and the reuse branch never re-attaches one (`LaterEntryDetached`, `DetachedStaysDetached`).
- **A tab group is rebuilt on every pass.** Its identity `undefined:undefined` is never stored, so each pass builds the group again and appends it to the section. When a member's identity already had a widget, the member is registered to a new widget, and the removal loop of the same entry detaches it. `RebuiltGroupLosesMembers` states this for a one-entry plan whose group holds one bucket of one member.
- **A `:` inside a name makes identity keys collide** (`ColonInNameCollides`).

## Model

| member | source | states |
|---|---|---|
| PropId.GeneratePropId | editor/inspector/components/diy-class.js:121-124 | the key is `type \|\| name`, then `:`, then `path`, by position and length |
| PropId.SplitPropId | editor/inspector/components/diy-class.js:121-124 | splitting a key at its first `:` succeeds exactly when it has one, and gives back a prefix without `:` and the rest |
| PropId.SplitGenerated | editor/inspector/components/diy-class.js:121-124 | round trip: splitting a generated key recovers the kind (or name) and the path whenever the kind has no `:` |
| PropId.SameIdIff | editor/inspector/components/diy-class.js:121-124 | for `:`-free kinds, two properties share a key exactly when they share kind-or-name and path |
| PropId.NameIgnoredWhenTyped | editor/inspector/components/diy-class.js:121-124 | `name` does not matter when `type` is truthy |
| PropId.ColonInNameCollides | editor/inspector/components/diy-class.js:121-124 | the names `a:b` / path `c` and `a` / path `b:c` give the same key |
| DisplayOrder.DisplayOrderCompare | editor/inspector/components/diy-class.js:131-136 | negative exactly when `a` is defined and smaller or `b` undefined; positive symmetrically; zero exactly when equal, so two undefined orders tie (NaN becomes 0) |
| DisplayOrder.CompareAntisymmetric | editor/inspector/components/diy-class.js:131-136 | swapping the arguments swaps the sign |
| DisplayOrder.BeforeTransitive | editor/inspector/components/diy-class.js:131-136 | the comparator's strict order is transitive |
| DisplayOrder.StableSort | editor/inspector/components/diy-class.js:173 | the sort result is a permutation of the input and ordered by the comparator |
| DisplayOrder.StableSortKeepsTies | editor/inspector/components/diy-class.js:173 | stability: the members with any one display order keep their input order |
| DisplayOrder.StableSortOfSorted | editor/inspector/components/diy-class.js:173 | an already ordered list is returned unchanged |
| DisplayOrder.InsertSorted | editor/inspector/components/diy-class.js:173 | inserting into an ordered list keeps it ordered |
| DisplayOrder.WithOrder | editor/inspector/components/diy-class.js:173 | the members with one display order: every element it keeps comes from the list and has that order, and every such element of the list is kept |
| DisplayOrder.InsertWithOrder | editor/inspector/components/diy-class.js:173 | insertion puts the new element in front of the equal-order members it joins |
| Grouping.GroupBy | editor/inspector/components/diy-class.js:78-90 | the loop computes `Groups`; every bucket is non-empty and its members share one key |
| Grouping.GroupsNonEmpty | editor/inspector/components/diy-class.js:78-90 | no bucket is empty |
| Grouping.MembersEmptyIffAbsent | editor/inspector/components/diy-class.js:78-90 | a key has members exactly when it is one of the bucket keys |
| Grouping.GroupsArePermutation | editor/inspector/components/diy-class.js:78-90 | the concatenated buckets are a permutation of the input |
| Grouping.Members | editor/inspector/components/diy-class.js:81-85 | a bucket holds only members with its key, drawn from the input |
| Grouping.FirstKeys | editor/inspector/components/diy-class.js:87-89 | the bucket keys are distinct |
| Grouping.KeysInFirstOccurrenceOrder | editor/inspector/components/diy-class.js:87-89 | buckets come in the order their keys first occur |
| Formatter.FormatPropList | editor/inspector/components/diy-class.js:143-189 | the method's loops compute `FormatPlan` |
| Formatter.CollectGroups | editor/inspector/components/diy-class.js:151-160 | `groupMap` maps each `group.id \|\| 'default'`, in first-occurrence order, to all its members in input order |
| Formatter.PushBuckets | editor/inspector/components/diy-class.js:164-171 | one bucket item per key of the `Map`, in its insertion order, appended after the ungrouped items |
| Formatter.BucketsOfMap | editor/inspector/components/diy-class.js:151-171 | the items pushed from the `Map` `CollectGroups` fills are exactly `GroupItems`: one per group key in first-occurrence order, with all its members |
| Formatter.Grouped | editor/inspector/components/diy-class.js:144 | every kept property has a non-empty group |
| Formatter.Ungrouped | editor/inspector/components/diy-class.js:145 | no kept property has a non-empty group |
| Formatter.GroupedKeepsOrder | editor/inspector/components/diy-class.js:144 | `filter` keeps order and multiplicity: filtering a concatenation concatenates the filtered parts, and a single property is kept exactly when it has a non-empty group |
| Formatter.UngroupedKeepsOrder | editor/inspector/components/diy-class.js:145 | the same for the complementary filter: a single property is kept exactly when it has no non-empty group |
| Formatter.FiltersPartition | editor/inspector/components/diy-class.js:144-145 | the two filters split the input, as a multiset |
| Formatter.GroupedEmptyIff | editor/inspector/components/diy-class.js:144-149 | there are no grouped properties exactly when none has a non-empty group |
| Formatter.NoGroupsPlan | editor/inspector/components/diy-class.js:147-149 | without grouped properties the plan is the input stable-sorted, one entry each |
| Formatter.PlanIsFinishedItems | editor/inspector/components/diy-class.js:162-188 | otherwise the plan is the sorted item list, finished entry by entry; the items are ordered and are exactly the ungrouped properties plus one item per bucket |
| Formatter.GroupOrder | editor/inspector/components/diy-class.js:165-169 | a bucket has a sort key exactly when its first member's `group.displayOrder` is truthy, and then it is that value |
| Formatter.OneEntryPerGroup | editor/inspector/components/diy-class.js:151-186 | each distinct group key yields exactly one item, holding all its members; it is rendered as those members sorted and split by `group.name` |
| Formatter.UngroupedExactlyOnce | editor/inspector/components/diy-class.js:145-186 | each ungrouped property is its own item exactly as often as it occurs in the input |
| Formatter.UnorderedGroupSortsLast | editor/inspector/components/diy-class.js:164-173 | a bucket whose order is 0 or missing is followed only by items without an order |
| Formatter.ClusterPartitionsBucket | editor/inspector/components/diy-class.js:176-182 | a group entry's tabs are non-empty, each holds one tab name, and together they hold exactly the bucket's members |
| Formatter.FinishItem | editor/inspector/components/diy-class.js:177-185 | one pass of the last loop is `Finish`: a bucket becomes its members sorted and grouped by name, a property stays itself |
| Formatter.ItemOfKeyIsBucket | editor/inspector/components/diy-class.js:151-186 | any plan item carrying group key `k` is the bucket of all members with that key |
| Dom.Without | editor/inspector/components/class.js:238-246 | removing a set of nodes from a child list never lengthens it |
| Dom.WithoutKeepsOrder | editor/inspector/components/class.js:238-246 | the remaining children keep their order and multiplicity: removal from a concatenation concatenates the removals, and a single child stays exactly when it is not removed |
| Dom.WithoutMembers | editor/inspector/components/class.js:238-246 | after removal, a node is listed exactly when it was listed before and is not in the removed set; a distinct list stays distinct |
| Dom.Detach | editor/inspector/components/class.js:242-244 | `parentElement.removeChild`: the node loses its parent and leaves its old parent's list |
| Dom.DetachValid | editor/inspector/components/class.js:242-244 | detaching keeps the forest well formed |
| Dom.InsertIndex | editor/inspector/components/class.js:149-156 | the `find`: the first child with a dump whose order is strictly greater than `displayOrder`, or the end |
| Dom.InsertByOrder | editor/inspector/components/class.js:149-162 | the node's new parent is the place; every other parent stays as it was |
| Dom.InsertByOrderPlacement | editor/inspector/components/class.js:149-162 | the list grows by exactly the node, other children keep their order, the node goes right before the first child sorting after it (never one without a dump), or last |
| Dom.InsertByOrderElsewhere | editor/inspector/components/class.js:149-162 | every other place only loses the node, as `before` / `appendChild` move it |
| Dom.InsertByOrderFresh | editor/inspector/components/class.js:149-162 | inserting a node that had no parent leaves every other place's children as they were |
| Dom.InsertByOrderValid | editor/inspector/components/class.js:149-162 | the insertion keeps the forest well formed |
| Dom.AppendChild | editor/inspector/components/diy-class.js:233 | `$section.appendChild`: the node becomes the last child |
| Dom.AppendChildFresh | editor/inspector/components/diy-class.js:233 | appending a detached node adds it at the end of the target list, and every other child list is unchanged |
| ClassInspector.Panel.constructor | editor/inspector/components/class.js:249-253 | the panel starts as `ready` leaves it, on an empty section |
| ClassInspector.Panel.Ready | editor/inspector/components/class.js:249-253 | `$propList` and `$groups` become empty; nothing else changes |
| ClassInspector.Panel.CreateTabGroup | editor/inspector/components/class.js:95-127 | a new, detached tab group with no tabs and the group dump |
| ClassInspector.Panel.AppendToTabGroup | editor/inspector/components/class.js:129-147 | the first call for a name adds one content area and one header button with that name; a repeat call changes nothing |
| ClassInspector.Panel.CacheTabGroup | editor/inspector/components/class.js:208-212 | a container is created exactly when none is cached for the key and the dump's group has style `tab` |
| ClassInspector.Panel.ConnectGroup | editor/inspector/components/class.js:213-216 | a cached group outside the document is inserted into the section by its group order (`InsertByOrder` with the group's `displayOrder`, 0 when absent); a group already in the document leaves the forest as it was; tab contents are untouched; a missing group description throws |
| ClassInspector.Panel.ShowGroup | editor/inspector/components/class.js:213-220 | a missing group description throws with the forest unchanged; otherwise the group's parent becomes the section, the section's children are `InsertByOrder` of the group with its `displayOrder` (0 when absent) when it was out of the document and unchanged when it was in it, tab `name` is added for a `tab` style and keeps its children, and every other children list is unchanged |
| ClassInspector.Panel.PrepareGroup | editor/inspector/components/class.js:203-221 | fails exactly when a read throws: `$groups` after `close`, a missing group description, no container, or no tab of that name; on success the group is cached, its parent is the section, the section's children are the group inserted by its order when it was out of the document (unchanged when in it), the tab keeps the children it had (none when new), and every other children list is unchanged |
| ClassInspector.Panel.PlaceInGroup | editor/inspector/components/class.js:203-221 | on success (`PlacedGrouped`) the group of `group.id \|\| 'default'` is in the section, inserted by its group order when it was out of the document; the new widget hangs in its tab `name` immediately before the first earlier child of that tab that sorts after its display order (`PlacedInTab`), and is in the document; the parent map changes only at the group and the widget, and every other children list is unchanged |
| ClassInspector.Panel.Register | editor/inspector/components/class.js:198-201 | a missing key gets a new, unplaced widget recorded under that key |
| ClassInspector.Panel.Visit | editor/inspector/components/class.js:193-232 | one visible property: fails exactly on a placement fault of a new grouped widget; otherwise the key has a widget, in the document, rendered with the property; an existing widget is re-inserted into the section by display order only when it was out of the document; a new one goes into the section by display order, or, when grouped and the dump has a group table, is placed as `PlacedGrouped` states: its group in the section by group order, itself in the group's tab by display order, no other children list changed |
| ClassInspector.Panel.Reuse | editor/inspector/components/class.js:225-232 | an existing widget keeps its key; when out of the document it is re-inserted into the section (not its group) by `InsertByOrder` with its display order; when in the document the forest is unchanged |
| ClassInspector.Panel.Create | editor/inspector/components/class.js:198-224 | a new widget under the next node id; ungrouped or without a group table it is inserted into the section by `InsertByOrder`; otherwise it is placed as `PlacedGrouped` states (group inserted into the section by its group order when out of the document, widget in the group's tab by display order, no other children list changed); then it is rendered, unless the placement threw |
| ClassInspector.Panel.PlaceNew | editor/inspector/components/class.js:203-221 | the placement alone: the same two cases and the same faults, with nothing rendered |
| ClassInspector.Panel.VisitAll | editor/inspector/components/class.js:175-233 | invisible properties get no key and no widget; afterwards the keys are the old ones plus the visible ones, every visible property is in the document, and each widget was last rendered with its key's last visible property |
| ClassInspector.Panel.RemoveStale | editor/inspector/components/class.js:238-246 | every old key absent from the new list has its widget detached but stays registered; visible properties stay in the document; the forest is the old one with exactly those widgets pruned (`PrunedFrom`), so every other children list keeps its order |
| ClassInspector.Panel.Update | editor/inspector/components/class.js:169-247 | the whole pass: keys only gain entries and keep their widgets; on success every visible property is shown and every vanished key's widget is out of the document |
| ClassInspector.DetachStale | editor/inspector/components/class.js:238-246 | the loop detaches exactly the widgets of stale keys and keeps every other widget's connection; the result is the input forest pruned of exactly `StaleWidgets` |
| ClassInspector.StaleWidgetsStep | editor/inspector/components/class.js:238-243 | one more key handled adds its widget to the stale set exactly when the key is not in `newPropList` |
| ClassInspector.Panel.Close | editor/inspector/components/class.js:255-261 | every cached group is removed, taking its tabs' widgets out of the document; `$groups` becomes undefined; `$propList` is untouched |
| ClassInspector.DetachGroups | editor/inspector/components/class.js:257-259 | the loop removes exactly the cached group nodes |
| ClassInspector.Panel.AppendChildByDisplayOrder | editor/inspector/components/class.js:149-162 | the insertion is `InsertByOrder` with the order defaulting to 0; nothing else changes |
| ClassInspector.InsertChild | editor/inspector/components/class.js:149-162 | the search loop and the insertion compute `InsertByOrder` |
| ClassInspector.MoveInto | editor/inspector/components/class.js:149-162 | the insertion is `InsertByOrder`; it keeps the forest and the tab groups consistent, disconnects nothing else, and leaves every other children list as it was |
| ClassInspector.InsertIndexIs | editor/inspector/components/class.js:150-156 | the index the search loop stops at is the `find` result |
| ClassInspector.AddTabKeepsInvariant | editor/inspector/components/class.js:129-147 | a new tab keeps the header equal to the tab names, with no name repeated |
| ClassInspector.SnocVisible | editor/inspector/components/class.js:180-194 | a property extends `newPropList` by its key exactly when it is visible |
| ClassInspector.VisibleIdsSet | editor/inspector/components/class.js:239 | `newPropList.includes(id)` is membership in the set of visible keys |
| Tabs.ToggleByName | editor/inspector/components/class.js:107-117 | one display flag per content area: shown exactly when its name is `Object.keys(tabs)[value \|\| 0]` |
| Tabs.ToggleByIndex | editor/inspector/components/prop-renderer.js:395-402 | one flag per content area: shown exactly when its position is `value \|\| 0` |
| Tabs.RulesAgree | editor/inspector/components/class.js:107-117 | with distinct tab names in area order, the name rule and the position rule show the same area |
| Tabs.ShownIsSelected | editor/inspector/components/prop-renderer.js:395-402 | an area is shown exactly when the selected index is in range, and never more than one |
| PropRenderer.Capitalize | editor/inspector/components/prop-renderer.js:25-29 | length is kept |
| PropRenderer.CapitalizeAt | editor/inspector/components/prop-renderer.js:25-29 | each character is upper-cased exactly when it starts a word (a word character not preceded by one), else kept |
| PropRenderer.CapitalizeIdempotent | editor/inspector/components/prop-renderer.js:25-29 | capitalizing twice is capitalizing once |
| PropRenderer.StripUnderscore | editor/inspector/components/prop-renderer.js:40-42 | exactly one leading `_` is removed |
| PropRenderer.LabelTextAt | editor/inspector/components/prop-renderer.js:36-44 | the label is `displayName` (else `name`) without one leading `_`, capitalized position by position |
| PropRenderer.LabelExample | editor/inspector/components/prop-renderer.js:36-44 | `_max speed_x` is labelled `Max Speed_x` |
| PropRenderer.Seed | editor/inspector/components/prop-renderer.js:101-120 | `default` when truthy, else `value` |
| PropRenderer.SliderSeed | editor/inspector/components/prop-renderer.js:138-139 | the slider seed is `default` or `min` |
| PropRenderer.SliderClampsToMin | editor/inspector/components/prop-renderer.js:138-139 | a numeric default below `min` becomes `min`; otherwise it is kept |
| PropRenderer.EnumOptions | editor/inspector/components/prop-renderer.js:180-188 | one option per `enumList` entry, in order, with its value and name |
| PropRenderer.CreateEnumOptions | editor/inspector/components/prop-renderer.js:180-188 | the loop computes `EnumOptions` |
| PropRenderer.CreateByType | editor/inspector/components/prop-renderer.js:420-448 | null exactly for unhandled types; among the faults `Dump.Fault` lists, throws exactly for a script whose value is undefined/null or an enum without `enumList`, and then only with those two faults; a widget carries the type, the label text, and is readonly and disabled exactly when the property is |
| PropRenderer.DispatchByType | editor/inspector/components/prop-renderer.js:420-448 | the content element kind for each type tag, both directions; node pickers use the type as droppable and placeholder |
| PropRenderer.SeedsByType | editor/inspector/components/prop-renderer.js:96-147 | text and number-input seeds are `Seed`, slider seeds are `SliderSeed` |
| PropRenderer.EnumSelectOptions | editor/inspector/components/prop-renderer.js:173-194 | an enum with a list gets a select with exactly its options in list order |
| PropRenderer.CreateArrayProp | editor/inspector/components/prop-renderer.js:246-344 | the method computes `ArrayProp`, the widget `createArrayProp` returns or the fault it throws |
| PropRenderer.CreateArrayRows | editor/inspector/components/prop-renderer.js:274-336 | the element loop computes `ArrayRows` over what `createByType` gives each element |
| PropRenderer.ArrayRowsSpec | editor/inspector/components/prop-renderer.js:275-336 | rows exist exactly when every element has a widget, and are then those widgets in element order |
| PropRenderer.ArrayPropCases | editor/inspector/components/prop-renderer.js:267-278 | `undefined` / `null` throw on `.length`; an empty string has count 0 and no rows, a non-empty one throws on its first character; numbers, booleans and objects have no length and no rows |
| PropRenderer.ArrayPropOk | editor/inspector/components/prop-renderer.js:274-336 | an array value gets a widget exactly when `createByType` gives every element one |
| PropRenderer.ArrayPropRows | editor/inspector/components/prop-renderer.js:256-336 | the widget carries `root-` + path, the name and the length, and one row per element, the widget `createByType` gives it, in order |
| DiyInspector.AddMember | editor/inspector/components/prop-renderer.js:382-389 | one member: succeeds exactly when `createByType` gives a widget; its key is then registered to a new widget, which becomes the last child of the tab; a null is registered and then throws; every other key keeps its entry; what stays untouched elsewhere in the forest is stated by `AddMemberKeepsForest` |
| DiyInspector.FillTab | editor/inspector/components/prop-renderer.js:382-389 | on success every member has a widget and no key loses one; a key of no member keeps its entry, success or not; what stays untouched elsewhere in the forest is stated by `FillTabKeepsForest` |
| DiyInspector.AddBucket | editor/inspector/components/prop-renderer.js:361-392 | one bucket: one header button and a content area named after the first member's group, `$groups[group.id \|\| 'default']` set to the group, members registered; an empty bucket, or one whose first member has no group, throws, and so does a write to `$groups` after `close`; what stays untouched elsewhere in the forest is stated by `AddBucketKeepsForest` |
| DiyInspector.AddBuckets | editor/inspector/components/prop-renderer.js:361-392 | on success the header has one button per bucket in order, every member has a widget and every bucket a content area; what stays untouched elsewhere in the forest is stated by `AddBucketsKeepsForest` |
| DiyInspector.PropGroup | editor/inspector/components/prop-renderer.js:352-413 | the returned group is the new node, detached; its header names the buckets; all members are registered under their keys; a key of no member keeps its entry; what stays untouched elsewhere in the forest is stated by `PropElementKeepsForest` |
| DiyInspector.AddMadeKeepsForest | editor/inspector/components/prop-renderer.js:382-389 | adding one made member touches only the tab's children list: every other list is unchanged, and node numbering stays fresh |
| DiyInspector.AddMemberKeepsForest | editor/inspector/components/prop-renderer.js:382-389 | `$content.appendChild($prop)` changes only that tab's children list |
| DiyInspector.FillTabKeepsForest | editor/inspector/components/prop-renderer.js:382-389 | filling one tab, success or throw, leaves every other children list unchanged |
| DiyInspector.AddBucketKeepsForest | editor/inspector/components/prop-renderer.js:361-392 | one bucket, success or throw, changes only the lists of the group's own tabs; the section's children are unchanged |
| DiyInspector.AddBucketsKeepsForest | editor/inspector/components/prop-renderer.js:361-392 | all buckets, success or throw, change only the lists of the group's own tabs |
| DiyInspector.PropElementKeepsForest | editor/inspector/components/prop-renderer.js:457-473 | building an entry's widget leaves every children list outside the new group's tabs unchanged, the section's included: the widget is returned detached |
| DiyInspector.PropElement | editor/inspector/components/prop-renderer.js:457-473 | a group entry goes to `createPropGroup`, and every key that is no member's, `propId` included, keeps its entry, so nothing is stored under `propId`; a single property's widget (or null) is stored under `propId`, nothing attached; what stays untouched elsewhere in the forest is stated by `PropElementKeepsForest` |
| DiyInspector.EnsureWidget | editor/inspector/components/diy-class.js:229-239 | an identity with a widget changes nothing (the reuse branch never re-attaches) |
| DiyInspector.EntryIdSplits | editor/inspector/components/diy-class.js:121-124 | the identity `EntryId` gives an entry, the key `${type \|\| name}:${path}` of line 226 splits back into the kind-or-name and the path when the former has no `:`; a group entry's key reads back as type `undefined`, path `undefined` |
| DiyInspector.ClusterSplits | editor/inspector/components/diy-class.js:121-124 | the key of a group entry, which has neither type, name nor path, is `undefined:undefined` and splits into two `undefined` parts |
| DiyInspector.SplitJoined | editor/inspector/components/diy-class.js:121-124 | a key joined from a `:`-free first part splits back into its two parts |
| DiyInspector.EnsureWidgetAppends | editor/inspector/components/diy-class.js:229-233 | a missing identity that gets its widget appends exactly that node to the section's old children; every other child list, except the new group's own tabs, is unchanged; on a throw only the new group's tabs differ |
| DiyInspector.RunPlan | editor/inspector/components/diy-class.js:217-251 | the entry loop with its removal loop after each entry: no place disappears, node numbers only grow, every node that gains a parent during the pass is one the pass created (no old widget is re-attached), and the forest stays well formed |
| DiyInspector.RunPlanFirst | editor/inspector/components/diy-class.js:217-251 | once the first entry has its widget, the pass is the removal loop for that entry followed by the loop over the rest of the plan |
| DiyInspector.EnsureWidgetCreates | editor/inspector/components/diy-class.js:231-233 | a missing identity gets `createPropElement`'s widget appended at the end of the section; a null throws in `appendChild` |
| DiyInspector.Sweep | editor/inspector/components/diy-class.js:243-250 | the removal loop detaches exactly the widgets of old identities not yet in `newPropList`, keeping `$propList` |
| DiyInspector.DetachStale | editor/inspector/components/diy-class.js:243-250 | the loop computes that detachment |
| DiyInspector.Visible | editor/inspector/components/diy-class.js:205-206 | exactly the visible properties are kept |
| DiyInspector.VisibleKeepsOrder | editor/inspector/components/diy-class.js:205-206 | the filter keeps order and multiplicity: filtering a concatenation concatenates the filtered parts, and a single property is kept exactly when visible |
| DiyInspector.UpdatePass | editor/inspector/components/diy-class.js:198-252 | with no visible property nothing is created or detached |
| DiyInspector.DiyPanel.Update | editor/inspector/components/diy-class.js:198-252 | the method's loop computes `UpdatePass` and keeps the forest well formed |
| DiyInspector.DiyPanel.PlaceEntry | editor/inspector/components/diy-class.js:229-239 | one plan entry's widget step is `EnsureWidget` |
| DiyInspector.DiyPanel.RemoveStale | editor/inspector/components/diy-class.js:243-250 | the removal loop is `Sweep` |
| DiyInspector.DiyPanel.CreatePropElement | editor/inspector/components/prop-renderer.js:457-473 | the method is `PropElement` |
| DiyInspector.DiyPanel.CreatePropGroup | editor/inspector/components/prop-renderer.js:352-413 | the method's loop is `PropGroup` |
| DiyInspector.DiyPanel.AppendBucket | editor/inspector/components/prop-renderer.js:361-392 | one pass of the outer loop is `AddBucket` |
| DiyInspector.DiyPanel.AppendMembers | editor/inspector/components/prop-renderer.js:382-389 | the inner loop is `FillTab` |
| DiyInspector.DiyPanel.AppendMember | editor/inspector/components/prop-renderer.js:383-388 | one member is `AddMember` |
| DiyInspector.DetachedStaysDetached | editor/inspector/components/diy-class.js:235-239 | a widget detached before a pass is not attached by it |
| DiyInspector.LaterEntryDetached | editor/inspector/components/diy-class.js:217-251 | once the first entry has its widget, found or created, every later entry whose identity had a widget ends the pass with it detached |
| DiyInspector.RebuiltGroupLosesMembers | editor/inspector/components/diy-class.js:217-251 | a tab group is rebuilt every pass and appended to the section; its member's key is re-registered to the new widget, which the same pass detaches; the group stays unstored |
| DiyInspector.Closed | editor/inspector/components/diy-class.js:260-266 | every cached group is detached, `$groups` becomes undefined, `$propList` is kept |
| DiyInspector.DiyPanel.Close | editor/inspector/components/diy-class.js:260-266 | the method's loop is `Closed` |
| DiyInspector.ClosedDetachesGroups | editor/inspector/components/diy-class.js:260-266 | every widget in a removed group's tabs is out of the document |
| DiyInspector.DiyPanel.Ready | editor/inspector/components/diy-class.js:254-258 | `$propList` and `$groups` become empty; nothing else changes |
| DiyInspector.DiyPanel.constructor | editor/inspector/components/diy-class.js:254-258 | the panel starts as `ready` leaves it, on an empty section |
| DiyInspector.PruneValid | editor/inspector/components/diy-class.js:243-250 | detaching any set of widgets keeps the forest well formed |
| DiyInspector.PrunedIsPruneAll | editor/inspector/components/diy-class.js:243-250 | detaching one by one, in any order, gives the same forest |

## Left out

- Presentation and wiring are not modelled: the CSS strings, `style.cssText` and the `template` / `$` exports. The same goes for the `log` helper, the event-listener registration, and the `async` wrappers of `ready` / `update` / `close`. Only the tab-change rule is modelled, as a function of the selected index.
- The `setTimeout` first-tab auto-select is left out: it is a deferred callback on widget internals. So are the `shadowRoot` queries of the tab header and of the array rows' dustbin icons.
- `$prop.render(info)` and the `ui-*` elements are opaque. The model records the property each widget was last rendered with. That property's `displayOrder` serves as the widget's `.dump.displayOrder` in `appendChildByDisplayOrder`.
- `dump.values` reconstruction is left out: its result is never read. As written in `diy-class.js` it also refers to an undeclared `key`, and it would throw whenever `dump.values` is a non-empty array, or a truthy value without `map`.
- Enumeration order is taken as given. `dump.value` is a sequence in `for … in` / `Reflect.ownKeys` order. The integer-like-keys-first rule of `Object.keys` is not modelled, so the tab names of a `class.js` tab group are in insertion order.
- Integers stand for numbers. There is no floating point, and `Infinity` appears only in the comparator, as `JsNum`. `<` against `min` is modelled for numbers, booleans and null; other operands compare false.
- PropRenderer.CreateByType: an absent `displayName` or `name` is the empty string (`LabelSource`). The code's `createLabelElement` (`prop-renderer.js:38-40`) throws when `displayName` is falsy and `name` is absent. The model labels such a property with `""` instead, so `CreateByType`, `ArrayProp` and the panels do not fail there.
- PropId.GeneratePropId: an absent `type` or `name` is the empty string. When both are absent, the code's template literal writes `undefined`, so the key is `undefined:path`; the model gives `:path`. Keys of properties that have a `type` or a `name` are as the code builds them.
- A group's `name` of `""` is taken literally. It is not the `undefined` that an absent name gives (`TabName`).
- ClassInspector.Panel.PrepareGroup: the code reads `dump.groups[key]` twice; in the model, whether the key is in the table is decided once, up front. Both reads fail on the same input before anything changes.
- ClassInspector.Panel.AppendChildByDisplayOrder: requires that the node is not yet a child of the place. Every call site in `update` meets this.
- ClassInspector.Panel.VisitAll: after the whole loop the forest is described only by which widgets are in the document and which tab groups exist. Each `Visit` states where its widget is inserted and that no other children list changes, but the loop invariant does not carry those placements. So the sibling order after a pass is not stated.
- ClassInspector.Panel.Update: the same. The removal loop is stated exactly (`RemoveStale` prunes exactly the stale widgets from the forest `VisitAll` left), but the forest before it is known only by connection.
- DiyInspector.AddBucket: the tab content area is a place of the forest from the start. In the code it is attached to its group only after its members (`prop-renderer.js:391`), so after a throw it stays outside the document. Buckets with the same name would share one area; buckets from `formatPropList` never repeat a name.
- DiyInspector.AddBuckets: does not state the group-key update of the whole loop. `AddBucket` states it for each bucket.
- DiyInspector.DiyPanel.Update: on a throw, the state is the one `UpdatePass` gives, which is where the throw left it. Nothing says the pass can be resumed.
- DiyInspector.Sweep: the removal loop visits `oldPropList` in order. The model uses a set, which is sound here because detaching is order-independent (`PrunedIsPruneAll`).
- `Object.keys($panel.$propList)` is a set of keys in the model: each key is listed once.
