/** The reconciling inspector panel of `class.js`: it keeps one widget per
    property identity across update passes, inserts widgets by display
    order into the root section or into a tab of a tab group, and detaches
    the widgets of properties that disappeared. */
module ClassInspector {
  import opened Dump
  import opened Dom
  import opened PropId

  /** The `$group` element `createTabGroup` makes: the group dump it keeps
      as `.dump`, the keys of its `tabs` object in insertion order (which is
      also the order of its tab content areas), and the names of the
      buttons in its header. */
  datatype TabGroup = TabGroup(desc: GroupDesc, tabNames: seq<string>, header: seq<string>)

  predicate DistinctNames(s: seq<string>) {
    forall i, j :: 0 <= i < j < |s| ==> s[i] != s[j]
  }

  class Panel {
    /** `$propList`: identity key to widget. */
    var propList: map<string, NodeId>
    /** `$groups`: group key to tab group; None once `close` has run. */
    var groups: Option<map<string, NodeId>>
    /** The section and the tab content areas, with the parent relation. */
    var tree: Tree
    /** Every tab group ever created, by node. */
    var containers: map<NodeId, TabGroup>
    /** The dump each widget was last rendered with (its `.dump`). */
    var rendered: map<NodeId, Prop>
    /** The next node `document.createElement` hands out. */
    var nextId: nat

    ghost predicate Valid()
      reads this
    {
      Dom.Valid(tree) && Fits(tree, containers, nextId)
      && WidgetsAllocated(propList, groups, containers, nextId) && WellFormed(containers)
    }

    /** The `.dump.displayOrder` of every child that has a `.dump`: a tab
        group's group dump, or the property a widget was rendered with. */
    function DumpOrders(): map<NodeId, Option<int>>
      reads this
    {
      OrdersOf(containers, rendered)
    }

    /** The panel as `ready` leaves it, on an empty section. */
    constructor ()
      ensures Valid()
      ensures propList == map[] && groups == Some(map[])
      ensures tree == Empty() && containers == map[] && rendered == map[] && nextId == 0
    {
      propList := map[];
      groups := Some(map[]);
      tree := Empty();
      containers := map[];
      rendered := map[];
      nextId := 0;
    }

    /** `ready`: fresh, empty `$propList` and `$groups`. */
    method Ready()
      requires Valid()
      modifies this
      ensures Valid()
      ensures propList == map[] && groups == Some(map[])
      ensures tree == old(tree) && containers == old(containers) && rendered == old(rendered) && nextId == old(nextId)
    {
      propList := map[];
      groups := Some(map[]);
    }

    /** `createTabGroup(dump)`: a new, detached tab group with no tabs. */
    method CreateTabGroup(desc: GroupDesc) returns (g: NodeId)
      requires Valid()
      modifies this
      ensures Valid()
      ensures g == old(nextId) && nextId == old(nextId) + 1 && g !in old(containers)
      ensures containers == old(containers)[g := TabGroup(desc, [], [])]
      ensures propList == old(propList) && groups == old(groups) && tree == old(tree) && rendered == old(rendered)
    {
      g := nextId;
      nextId := nextId + 1;
      containers := containers[g := TabGroup(desc, [], [])];
    }

    /** `appendToTabGroup($group, tabName)`: the first call for a name adds
        its content area and its header button; a repeat call changes
        nothing. */
    method AppendToTabGroup(g: NodeId, tabName: string)
      requires Valid() && g in containers
      modifies this
      ensures Valid()
      ensures tabName in old(containers)[g].tabNames ==>
                containers == old(containers) && tree == old(tree)
      ensures tabName !in old(containers)[g].tabNames ==>
                containers == AddTab(old(containers), g, tabName)
                && tree == AddPlace(old(tree), Tab(g, tabName))
      ensures tabName in containers[g].tabNames
      ensures containers.Keys == old(containers).Keys && tree.parent == old(tree).parent
      ensures DumpOrders() == old(DumpOrders())
      ensures propList == old(propList) && groups == old(groups) && rendered == old(rendered) && nextId == old(nextId)
    {
      var tg := containers[g];
      if tabName in tg.tabNames {
        return;
      }
      AddTabKeepsInvariant(tree, propList, groups, containers, nextId, g, tabName);
      AddTabOrders(containers, rendered, g, tabName);
      containers := AddTab(containers, g, tabName);
      tree := AddPlace(tree, Tab(g, tabName));
    }

    /** The first step of placing a grouped widget: a group key that has no
        cached container but a `tab` entry in the dump's group table gets a
        new tab group. */
    method CacheTabGroup(key: string, table: map<string, GroupDesc>)
      requires Valid() && groups.Some?
      modifies this
      ensures Valid() && groups.Some? && Extends(old(groups), groups)
      ensures TabGroupsGrow(old(containers), containers, old(nextId)) && old(nextId) <= nextId
      ensures key !in old(groups).value && key in table && table[key].style == "tab" ==>
                containers == old(containers)[old(nextId) := TabGroup(table[key], [], [])]
                && groups.value == old(groups).value[key := old(nextId)]
                && nextId == old(nextId) + 1 && old(nextId) !in old(containers)
      ensures !(key !in old(groups).value && key in table && table[key].style == "tab") ==>
                containers == old(containers) && groups == old(groups) && nextId == old(nextId)
      ensures propList == old(propList) && tree == old(tree) && rendered == old(rendered)
    {
      if key !in groups.value && key in table && table[key].style == "tab" {
        var g := CreateTabGroup(table[key]);
        groups := Some(groups.value[key := g]);
      }
    }

    /** The second step: a cached container that is not in the document
        is moved into the section by its group's display order. The display
        order, and the style read next, come from the dump's group table,
        and reading them fails when the table lacks the key. */
    method ConnectGroup(key: string, table: map<string, GroupDesc>) returns (r: Result<()>)
      requires Valid() && groups.Some? && key in groups.value
      modifies this
      ensures Valid()
      ensures r.Ok? <==> key in table
      ensures r.Err? ==> r.fault == GroupDescMissing && tree == old(tree)
      ensures r.Ok? ==> tree.parent == old(tree).parent[old(groups).value[key] := Section]
      ensures r.Ok? && !Connected(old(tree), old(groups).value[key]) ==>
                tree == InsertByOrder(old(tree), Section, old(groups).value[key], old(DumpOrders()),
                                      OrZero(table[key].displayOrder))
      ensures Connected(old(tree), old(groups).value[key]) ==> tree == old(tree)
      ensures tree.kids.Keys == old(tree).kids.Keys
      ensures forall q :: q in old(tree).kids && q.Tab? ==> tree.kids[q] == old(tree).kids[q]
      ensures KeepsConnected(old(tree), tree)
      ensures propList == old(propList) && groups == old(groups) && containers == old(containers)
      ensures rendered == old(rendered) && nextId == old(nextId)
    {
      if key !in table {
        return Err(GroupDescMissing);
      }
      var g := groups.value[key];
      if !Connected(tree, g) {
        assert g !in tree.kids[Section];
        tree := MoveInto(tree, Section, g, DumpOrders(), OrZero(table[key].displayOrder), containers, nextId);
      }
      r := Ok(());
    }

    /** The cached group of `key` brought into the section, then, for a
        `tab` style, given the tab `name`. */
    method ShowGroup(key: string, name: string, table: map<string, GroupDesc>) returns (r: Result<()>)
      requires Valid() && groups.Some? && key in groups.value
      modifies this
      ensures Valid()
      ensures r.Ok? <==> key in table
      ensures r.Err? ==> r.fault == GroupDescMissing && tree == old(tree)
      ensures var g := old(groups).value[key];
              r.Ok? ==> tree.parent == old(tree).parent[g := Section]
                        && Section in old(tree).kids
                        && SectionAfterGroup(old(tree), tree, g, old(DumpOrders()), OrZero(table[key].displayOrder))
                        && Untouched(old(tree), tree, Section, Tab(g, name))
                        && (Tab(g, name) in tree.kids ==> tree.kids[Tab(g, name)] == KidsOf(old(tree), Tab(g, name)))
      ensures var g := old(groups).value[key];
              r.Ok? && table[key].style == "tab" ==>
                containers == (if name in old(containers)[g].tabNames then old(containers)
                               else AddTab(old(containers), g, name))
      ensures !(r.Ok? && table[key].style == "tab") ==> containers == old(containers)
      ensures DumpOrders() == old(DumpOrders()) && KeepsConnected(old(tree), tree)
      ensures propList == old(propList) && groups == old(groups) && rendered == old(rendered) && nextId == old(nextId)
    {
      var g := groups.value[key];
      ghost var orders := DumpOrders();
      r := ConnectGroup(key, table);
      ghost var t1 := tree;
      if r.Ok? && table[key].style == "tab" {
        AppendToTabGroup(g, name);
      }
      if r.Ok? {
        ConnectThenTab(old(tree), t1, tree, g, name, orders, OrZero(table[key].displayOrder));
      }
    }

    /** The container steps of placing a grouped widget: find or create
        the tab group of `key`, bring it into the section, and make sure it
        has the tab `name`. */
    method PrepareGroup(key: string, name: string, table: map<string, GroupDesc>) returns (r: Result<NodeId>)
      requires Valid()
      modifies this
      ensures Valid()
      ensures r.Err? <==> PlaceFault(old(groups), old(containers), key, name, table).Some?
      ensures r.Err? ==> r.fault == PlaceFault(old(groups), old(containers), key, name, table).value
      ensures r.Ok? ==> groups.Some? && key in groups.value && r.value == groups.value[key]
                        && r.value in containers && name in containers[r.value].tabNames
                        && r.value in tree.parent && tree.parent[r.value] == Section
      ensures r.Ok? ==> Tab(r.value, name) in tree.kids
                        && tree.kids[Tab(r.value, name)] == KidsOf(old(tree), Tab(r.value, name))
      ensures r.Ok? ==> key in table && tree.parent == old(tree).parent[r.value := Section]
      ensures r.Ok? ==> Section in old(tree).kids
                        && SectionAfterGroup(old(tree), tree, r.value, DumpOrders(), OrZero(table[key].displayOrder))
      ensures r.Ok? ==> Untouched(old(tree), tree, Section, Tab(r.value, name))
      ensures old(groups).None? ==> groups == None && tree == old(tree) && containers == old(containers)
      ensures Extends(old(groups), groups) && KeepsConnected(old(tree), tree)
      ensures forall m :: m in tree.parent ==> m in old(tree).parent || m in containers
      ensures TabGroupsGrow(old(containers), containers, old(nextId)) && old(nextId) <= nextId
      ensures propList == old(propList) && rendered == old(rendered)
    {
      if groups.None? {
        return Err(GroupsMissing);
      }
      CacheTabGroup(key, table);
      if key in groups.value {
        var c := ShowGroup(key, name, table);
        if c.Err? {
          return Err(c.fault);
        }
      }
      if key !in groups.value {
        return Err(ContainerMissing);
      }
      var g := groups.value[key];
      if name !in containers[g].tabNames {
        return Err(TabMissing);
      }
      r := Ok(g);
    }

    /** Placing the new widget `w` of a grouped property when the dump has
        a group table: the container steps, then the insertion of `w` into
        the tab by display order. */
    method PlaceInGroup(w: NodeId, key: string, name: string, displayOrder: Option<int>,
                        table: map<string, GroupDesc>) returns (r: Result<()>)
      requires Valid() && w < nextId && w !in tree.parent && w !in containers
      modifies this
      ensures Valid()
      ensures r.Err? <==> PlaceFault(old(groups), old(containers), key, name, table).Some?
      ensures r.Err? ==> r.fault == PlaceFault(old(groups), old(containers), key, name, table).value
      ensures r.Ok? ==> groups.Some? && key in groups.value && key in table
                        && PlacedGrouped(old(tree), tree, groups.value[key], name, w, DumpOrders(),
                                         OrZero(table[key].displayOrder), OrZero(displayOrder))
                        && Connected(tree, w)
      ensures Extends(old(groups), groups) && KeepsConnected(old(tree), tree)
      ensures TabGroupsGrow(old(containers), containers, old(nextId)) && old(nextId) <= nextId
      ensures propList == old(propList) && rendered == old(rendered)
    {
      var p := PrepareGroup(key, name, table);
      if p.Err? {
        return Err(p.fault);
      }
      var g := p.value;
      assert w !in tree.kids[Tab(g, name)] && w !in tree.parent;
      InsertByOrderFresh(tree, Tab(g, name), w, DumpOrders(), OrZero(displayOrder));
      AppendChildByDisplayOrder(Tab(g, name), w, displayOrder);
      r := Ok(());
    }

    /** `document.createElement('ui-prop')` and `$propList[id] = $prop`
        for a key that has no widget yet. */
    method Register(id: string) returns (w: NodeId)
      requires Valid() && id !in propList
      modifies this
      ensures Valid()
      ensures w == old(nextId) && nextId == old(nextId) + 1
      ensures propList == old(propList)[id := w]
      ensures w !in tree.parent && w !in containers
      ensures groups == old(groups) && tree == old(tree) && containers == old(containers) && rendered == old(rendered)
    {
      w := nextId;
      nextId := nextId + 1;
      propList := propList[id := w];
    }

    /** One visible property of an update pass, under its identity key `id`:
        reuse the widget of `id` (back into the section when it fell out of
        the document) or make and place a new one, then render it with the
        property. A grouped property goes into its group's tab when the dump
        has a group table; the placement can fail like `PlaceFault` says,
        and then the property is not rendered. */
    method Visit(id: string, info: Prop, table: Option<map<string, GroupDesc>>) returns (r: Result<()>)
      requires Valid()
      modifies this
      ensures Valid() && Kept(old(propList), propList)
      ensures r.Err? <==> id !in old(propList) && info.group != NoGroup && table.Some?
                          && PlaceFault(old(groups), old(containers), GroupKey(info.group),
                                        TabName(info.group), table.value).Some?
      ensures r.Err? ==> r.fault == PlaceFault(old(groups), old(containers), GroupKey(info.group),
                                               TabName(info.group), table.value).value
                         && rendered == old(rendered)
      ensures r.Ok? ==> Visited(old(propList), propList, old(rendered), rendered, tree, id, info)
      ensures id in old(propList) ==> propList == old(propList) && groups == old(groups)
      ensures id in old(propList) && !Connected(old(tree), old(propList)[id]) ==>
                tree == InsertByOrder(old(tree), Section, old(propList)[id], old(DumpOrders()),
                                      OrZero(info.displayOrder))
      ensures id in old(propList) && Connected(old(tree), old(propList)[id]) ==> tree == old(tree)
      ensures id !in old(propList) ==> propList == old(propList)[id := old(nextId)]
      ensures id !in old(propList) && r.Ok? && !(info.group != NoGroup && table.Some?) ==>
                tree == InsertByOrder(old(tree), Section, old(nextId), old(DumpOrders()),
                                      OrZero(info.displayOrder))
      ensures id !in old(propList) && r.Ok? && info.group != NoGroup && table.Some? ==>
                groups.Some? && GroupKey(info.group) in groups.value && GroupKey(info.group) in table.value
                && PlacedGrouped(old(tree), tree, groups.value[GroupKey(info.group)], TabName(info.group), old(nextId),
                                 OrdersOf(containers, old(rendered)), OrZero(table.value[GroupKey(info.group)].displayOrder),
                                 OrZero(info.displayOrder))
      ensures KeepsConnected(old(tree), tree) && Extends(old(groups), groups)
    {
      if id in propList {
        Reuse(id, info);
        r := Ok(());
      } else {
        r := Create(id, info, table);
      }
    }

    /** The widget of `id` exists: back into the section by display order
        when it is not in the document, then rendered. */
    method Reuse(id: string, info: Prop)
      requires Valid() && id in propList
      modifies this
      ensures Valid()
      ensures propList == old(propList) && groups == old(groups)
      ensures Visited(old(propList), propList, old(rendered), rendered, tree, id, info)
      ensures !Connected(old(tree), old(propList)[id]) ==>
                tree == InsertByOrder(old(tree), Section, old(propList)[id], old(DumpOrders()),
                                      OrZero(info.displayOrder))
      ensures Connected(old(tree), old(propList)[id]) ==> tree == old(tree)
      ensures KeepsConnected(old(tree), tree)
    {
      var w := propList[id];
      if !Connected(tree, w) {
        assert w !in tree.kids[Section];
        AppendChildByDisplayOrder(Section, w, info.displayOrder);
      }
      rendered := rendered[w := info];
    }

    /** No widget for `id` yet: a new one, registered, placed into its
        group's tab or into the section, then rendered. */
    method Create(id: string, info: Prop, table: Option<map<string, GroupDesc>>) returns (r: Result<()>)
      requires Valid() && id !in propList
      modifies this
      ensures Valid()
      ensures propList == old(propList)[id := old(nextId)]
      ensures r.Err? <==> info.group != NoGroup && table.Some?
                          && PlaceFault(old(groups), old(containers), GroupKey(info.group),
                                        TabName(info.group), table.value).Some?
      ensures r.Err? ==> r.fault == PlaceFault(old(groups), old(containers), GroupKey(info.group),
                                               TabName(info.group), table.value).value
                         && rendered == old(rendered)
      ensures r.Ok? ==> Visited(old(propList), propList, old(rendered), rendered, tree, id, info)
      ensures r.Ok? && !(info.group != NoGroup && table.Some?) ==>
                tree == InsertByOrder(old(tree), Section, old(nextId), old(DumpOrders()),
                                      OrZero(info.displayOrder))
      ensures r.Ok? && info.group != NoGroup && table.Some? ==>
                groups.Some? && GroupKey(info.group) in groups.value && GroupKey(info.group) in table.value
                && PlacedGrouped(old(tree), tree, groups.value[GroupKey(info.group)], TabName(info.group), old(nextId),
                                 OrdersOf(containers, old(rendered)), OrZero(table.value[GroupKey(info.group)].displayOrder),
                                 OrZero(info.displayOrder))
      ensures KeepsConnected(old(tree), tree) && Extends(old(groups), groups)
    {
      var w := Register(id);
      r := PlaceNew(w, info, table);
      if r.Ok? {
        rendered := rendered[w := info];
      }
    }

    /** The placement of a new widget `w`: into its group's tab when the
        property is grouped and the dump has a group table, else into the
        section, by display order either way. */
    method PlaceNew(w: NodeId, info: Prop, table: Option<map<string, GroupDesc>>) returns (r: Result<()>)
      requires Valid() && w < nextId && w !in tree.parent && w !in containers
      modifies this
      ensures Valid()
      ensures r.Err? <==> info.group != NoGroup && table.Some?
                          && PlaceFault(old(groups), old(containers), GroupKey(info.group),
                                        TabName(info.group), table.value).Some?
      ensures r.Err? ==> r.fault == PlaceFault(old(groups), old(containers), GroupKey(info.group),
                                               TabName(info.group), table.value).value
      ensures r.Ok? ==> Connected(tree, w)
      ensures r.Ok? && !(info.group != NoGroup && table.Some?) ==>
                tree == InsertByOrder(old(tree), Section, w, old(DumpOrders()), OrZero(info.displayOrder))
      ensures r.Ok? && info.group != NoGroup && table.Some? ==>
                groups.Some? && GroupKey(info.group) in groups.value && GroupKey(info.group) in table.value
                && PlacedGrouped(old(tree), tree, groups.value[GroupKey(info.group)], TabName(info.group), w,
                                 OrdersOf(containers, rendered), OrZero(table.value[GroupKey(info.group)].displayOrder),
                                 OrZero(info.displayOrder))
      ensures KeepsConnected(old(tree), tree) && Extends(old(groups), groups)
      ensures TabGroupsGrow(old(containers), containers, old(nextId)) && old(nextId) <= nextId
      ensures propList == old(propList) && rendered == old(rendered)
    {
      if info.group != NoGroup && table.Some? {
        r := PlaceInGroup(w, GroupKey(info.group), TabName(info.group), info.displayOrder, table.value);
      } else {
        AppendChildByDisplayOrder(Section, w, info.displayOrder);
        r := Ok(());
      }
    }

    /** `update(dump)`: visit every visible property in order, then take
        out of the document the widget of every key that was registered
        before the pass and names no visible property of this dump. The
        widgets stay registered. A failing placement ends the pass. */
    method Update(dump: ComponentDump) returns (r: Result<()>)
      requires Valid()
      modifies this
      ensures Valid() && Kept(old(propList), propList)
      ensures r.Ok? ==> propList.Keys == old(propList).Keys + IdSet(dump.value)
      ensures r.Ok? ==> Shown(tree, propList, dump.value) && RenderedLast(rendered, propList, dump.value)
      ensures r.Ok? ==> forall k :: k in old(propList) && k !in IdSet(dump.value) ==> propList[k] !in tree.parent
    {
      var oldIds := propList.Keys;
      var newIds;
      r, newIds := VisitAll(dump);
      if r.Ok? {
        RemoveStale(oldIds, newIds, dump.value);
      }
    }

    /** The first loop of `update`: every visible property, in order,
        collecting `newPropList`. */
    method VisitAll(dump: ComponentDump) returns (r: Result<()>, newIds: seq<string>)
      requires Valid()
      modifies this
      ensures Valid() && Kept(old(propList), propList)
      ensures r.Ok? ==> propList.Keys == old(propList).Keys + IdSet(dump.value)
      ensures r.Ok? ==> newIds == VisibleIds(dump.value)
      ensures r.Ok? ==> Shown(tree, propList, dump.value) && RenderedLast(rendered, propList, dump.value)
    {
      newIds := [];
      r := Ok(());
      var i := 0;
      while i < |dump.value|
        invariant 0 <= i <= |dump.value|
        invariant Valid() && Kept(old(propList), propList)
        invariant propList.Keys == old(propList).Keys + IdSet(dump.value[..i])
        invariant newIds == VisibleIds(dump.value[..i])
        invariant Shown(tree, propList, dump.value[..i]) && RenderedLast(rendered, propList, dump.value[..i])
      {
        var info := dump.value[i];
        ghost var t0, pl0, rend0 := tree, propList, rendered;
        if info.visible {
          var id := GeneratePropId(info);
          newIds := newIds + [id];
          r := Visit(id, info, dump.groups);
          if r.Err? {
            return;
          }
        }
        VisitStep(t0, tree, old(propList).Keys, pl0, propList, rend0, rendered, dump.value[..i], info);
        TakeOneMore(dump.value, i);
        i := i + 1;
      }
      assert dump.value[..i] == dump.value;
    }

    /** The last loop of `update`, for the keys registered before the pass
        and the keys `newIds` of its visible properties `ps`. */
    method RemoveStale(oldIds: set<string>, newIds: seq<string>, ps: seq<Prop>)
      requires Valid() && oldIds <= propList.Keys && newIds == VisibleIds(ps)
      modifies this
      ensures Valid()
      ensures forall k :: k in oldIds && k !in IdSet(ps) ==> k in propList && propList[k] !in tree.parent
      ensures Shown(old(tree), propList, ps) ==> Shown(tree, propList, ps)
      ensures propList == old(propList) && groups == old(groups) && containers == old(containers)
      ensures PrunedFrom(tree, old(tree), StaleWidgets(oldIds, newIds, propList))
      ensures rendered == old(rendered) && nextId == old(nextId)
    {
      VisibleIdsSet(ps);
      var t := DetachStale(tree, oldIds, newIds, propList, containers, nextId);
      if Shown(tree, propList, ps) {
        StaleKeepsShown(tree, t, oldIds, newIds, propList, ps);
      }
      tree := t;
    }

    /** `close`: every cached tab group is removed from the document, and
        `$groups` becomes undefined. The widgets stay registered. */
    method Close()
      requires Valid()
      modifies this
      ensures Valid()
      ensures groups == None
      ensures PrunedFrom(tree, old(tree), CachedGroups(old(groups)))
      ensures forall n :: n in tree.parent && tree.parent[n].Tab? && tree.parent[n].group in CachedGroups(old(groups))
                ==> !Connected(tree, n)
      ensures propList == old(propList) && containers == old(containers)
      ensures rendered == old(rendered) && nextId == old(nextId)
    {
      var r := tree;
      if groups.Some? {
        r := DetachGroups(tree, groups.value);
      } else {
        PrunedNone(tree);
      }
      PrunedFits(r, tree, CachedGroups(groups), containers, nextId);
      tree := r;
      groups := None;
    }

    /** `appendChildByDisplayOrder(parent, newChild, displayOrder)`: the
        search over `parent.children` for the first child whose dump sorts
        after `displayOrder` (0 when undefined), then the insertion. Every
        call site passes a node that is not yet a child of `parent`. */
    method AppendChildByDisplayOrder(at: Place, child: NodeId, displayOrder: Option<int>)
      requires Valid() && at in tree.kids && child < nextId && child !in tree.kids[at]
      requires at.Tab? ==> child !in containers
      modifies this
      ensures Valid()
      ensures tree == InsertByOrder(old(tree), at, child, old(DumpOrders()), OrZero(displayOrder))
      ensures propList == old(propList) && groups == old(groups) && containers == old(containers)
      ensures rendered == old(rendered) && nextId == old(nextId)
      ensures Moved(old(tree), tree, at, child)
    {
      tree := MoveInto(tree, at, child, DumpOrders(), OrZero(displayOrder), containers, nextId);
    }
  }

  /** The tree agrees with the tab groups: nodes are allocated below
      `next`, tab groups only ever hang in the section, and a tab content
      area exists exactly for each key of its group's `tabs`. */
  ghost predicate Fits(t: Tree, cs: map<NodeId, TabGroup>, next: nat) {
    (forall n :: n in t.parent ==> n < next)
    && (forall n :: n in t.parent && t.parent[n].Tab? ==> n !in cs)
    && (forall q :: q in t.kids && q.Tab? ==> q.group in cs && q.name in cs[q.group].tabNames)
    && (forall g, name :: g in cs && name in cs[g].tabNames ==> Tab(g, name) in t.kids)
  }

  function OrdersOf(cs: map<NodeId, TabGroup>, rendered: map<NodeId, Prop>): map<NodeId, Option<int>> {
    map n | n in cs.Keys + rendered.Keys ::
      if n in cs then cs[n].desc.displayOrder else rendered[n].displayOrder
  }

  /** The children of place `q` in `t`; none when `t` has no such place
      yet (a tab content area about to be made). */
  function KidsOf(t: Tree, q: Place): seq<NodeId> {
    if q in t.kids then t.kids[q] else []
  }

  /** The section's children after a group `g` was brought in: as they
      were when `g` was already in the document, else with `g` inserted by
      the group's display order `dg`. */
  predicate SectionAfterGroup(t0: Tree, t: Tree, g: NodeId, orders: map<NodeId, Option<int>>, dg: int)
    requires Section in t0.kids
  {
    Section in t.kids
    && t.kids[Section] == (if Connected(t0, g) then t0.kids[Section]
                           else InsertByOrder(t0, Section, g, orders, dg).kids[Section])
  }

  /** Every place of `t0` other than `a` and `b` has the same children in
      `t`, and `t` has no new place but `b`. */
  ghost predicate Untouched(t0: Tree, t: Tree, a: Place, b: Place) {
    (forall q :: q in t0.kids && q != a && q != b ==> q in t.kids && t.kids[q] == t0.kids[q])
    && (forall q :: q in t.kids ==> q in t0.kids || q == b)
  }

  /** The whole placement of a new grouped widget `w`: the group `g` hangs
      in the section (inserted there by `dg` when it was out of the
      document), `w` went into the tab `name` by `d`, and no other parent
      or children list changed. */
  ghost predicate PlacedGrouped(t0: Tree, t: Tree, g: NodeId, name: string, w: NodeId,
                                orders: map<NodeId, Option<int>>, dg: int, d: int) {
    Section in t0.kids
    && SectionAfterGroup(t0, t, g, orders, dg)
    && PlacedInTab(t0, t, Tab(g, name), w, orders, d)
    && t.parent == t0.parent[g := Section][w := Tab(g, name)]
    && Untouched(t0, t, Section, Tab(g, name))
  }

  /** Bringing group `g` into the section (`t0` to `t1`), then perhaps
      adding its tab `name` (`t1` to `t`), touches only the section's list
      and that new, empty tab. */
  lemma ConnectThenTab(t0: Tree, t1: Tree, t: Tree, g: NodeId, name: string,
                       orders: map<NodeId, Option<int>>, dg: int)
    requires Section in t0.kids && SectionAfterGroup(t0, t1, g, orders, dg)
    requires t1.kids.Keys == t0.kids.Keys
    requires forall q :: q in t0.kids && q.Tab? ==> t1.kids[q] == t0.kids[q]
    requires t == t1 || (Tab(g, name) !in t1.kids && t.kids == t1.kids[Tab(g, name) := []])
    ensures SectionAfterGroup(t0, t, g, orders, dg)
    ensures Untouched(t0, t, Section, Tab(g, name))
    ensures Tab(g, name) in t.kids ==> t.kids[Tab(g, name)] == KidsOf(t0, Tab(g, name))
  {
  }

  /** The new node `w` went into tab `q` by display order: it hangs in
      `q`, immediately before the first of the tab's children in `t0` that
      sorts after `d`, every other child in its place. */
  predicate PlacedInTab(t0: Tree, t: Tree, q: Place, w: NodeId, orders: map<NodeId, Option<int>>, d: int) {
    var ks := KidsOf(t0, q);
    var i := InsertIndex(ks, orders, d);
    q in t.kids && w in t.parent && t.parent[w] == q && t.kids[q] == ks[..i] + [w] + ks[i..]
  }

  /** Distinct keys have distinct widgets, none of which is a tab group,
      every cached group is a tab group, and all of them are allocated. */
  ghost predicate WidgetsAllocated(propList: map<string, NodeId>, groups: Option<map<string, NodeId>>,
                             cs: map<NodeId, TabGroup>, next: nat) {
    (forall id :: id in propList ==> propList[id] < next && propList[id] !in cs)
    && Injective(propList)
    && (groups.Some? ==> forall k :: k in groups.value ==> groups.value[k] in cs)
    && (forall g :: g in cs ==> g < next)
  }

  /** The header has one button per tab, in the same order, and no tab
      name repeats. */
  ghost predicate WellFormed(cs: map<NodeId, TabGroup>) {
    forall g :: g in cs ==> cs[g].header == cs[g].tabNames && DistinctNames(cs[g].tabNames)
  }

  /** `cs` with tab `name` added to group `g`, in its areas and its header. */
  function AddTab(cs: map<NodeId, TabGroup>, g: NodeId, name: string): map<NodeId, TabGroup>
    requires g in cs
  {
    cs[g := TabGroup(cs[g].desc, cs[g].tabNames + [name], cs[g].header + [name])]
  }

  /** A new tab leaves every display order as it was. */
  lemma AddTabOrders(cs: map<NodeId, TabGroup>, rendered: map<NodeId, Prop>, g: NodeId, name: string)
    requires g in cs
    ensures OrdersOf(AddTab(cs, g, name), rendered) == OrdersOf(cs, rendered)
  {
    assert AddTab(cs, g, name).Keys == cs.Keys;
  }

  /** A new tab keeps the tree in agreement with the tab groups. */
  lemma AddTabKeepsInvariant(t: Tree, propList: map<string, NodeId>, groups: Option<map<string, NodeId>>,
                             cs: map<NodeId, TabGroup>, next: nat, g: NodeId, name: string)
    requires Dom.Valid(t) && Fits(t, cs, next) && WellFormed(cs) && WidgetsAllocated(propList, groups, cs, next)
    requires g in cs && name !in cs[g].tabNames
    ensures Tab(g, name) !in t.kids
    ensures Fits(AddPlace(t, Tab(g, name)), AddTab(cs, g, name), next)
    ensures WellFormed(AddTab(cs, g, name))
    ensures WidgetsAllocated(propList, groups, AddTab(cs, g, name), next)
  {
    AddTabFits(t, cs, next, g, name);
    AddTabWellFormed(cs, g, name);
    assert AddTab(cs, g, name).Keys == cs.Keys;
  }

  lemma AddTabFits(t: Tree, cs: map<NodeId, TabGroup>, next: nat, g: NodeId, name: string)
    requires Dom.Valid(t) && Fits(t, cs, next)
    requires g in cs && name !in cs[g].tabNames
    ensures Tab(g, name) !in t.kids
    ensures Fits(AddPlace(t, Tab(g, name)), AddTab(cs, g, name), next)
  {
    var cs' := AddTab(cs, g, name);
    assert cs'.Keys == cs.Keys;
    assert forall h :: h in cs && h != g ==> cs'[h] == cs[h];
  }

  lemma AddTabWellFormed(cs: map<NodeId, TabGroup>, g: NodeId, name: string)
    requires WellFormed(cs) && g in cs && name !in cs[g].tabNames
    ensures WellFormed(AddTab(cs, g, name))
  {
    var cs' := AddTab(cs, g, name);
    var s := cs[g].tabNames + [name];
    forall i, j | 0 <= i < j < |s| ensures s[i] != s[j] {
      if j == |s| - 1 {
        assert s[i] == cs[g].tabNames[i];
      }
    }
  }

  /** Which read fails when a widget is placed into the group `key`,
      tab `name`: none when the container exists or is created and has (or
      gets) the tab. */
  function PlaceFault(groups: Option<map<string, NodeId>>, cs: map<NodeId, TabGroup>,
                      key: string, name: string, table: map<string, GroupDesc>): Option<Fault>
  {
    if groups.None? then Some(GroupsMissing)
    else if key in groups.value then
      if key !in table then Some(GroupDescMissing)
      else if table[key].style == "tab" then None
      else if groups.value[key] in cs && name in cs[groups.value[key]].tabNames then None
      else Some(TabMissing)
    else if key in table && table[key].style == "tab" then None
    else Some(ContainerMissing)
  }

  /** `$groups` only gains entries. */
  ghost predicate Extends(g0: Option<map<string, NodeId>>, g1: Option<map<string, NodeId>>) {
    g0.Some? ==> g1.Some? && forall k :: k in g0.value ==> k in g1.value && g1.value[k] == g0.value[k]
  }

  /** Tab groups are only added, and only as nodes allocated from `next0` on. */
  ghost predicate TabGroupsGrow(cs0: map<NodeId, TabGroup>, cs1: map<NodeId, TabGroup>, next0: nat) {
    (forall n :: n in cs0 ==> n in cs1) && (forall n :: n in cs1 ==> n in cs0 || n >= next0)
  }

  /** Nothing in the document left it. */
  ghost predicate KeepsConnected(t0: Tree, t1: Tree) {
    forall m :: Connected(t0, m) ==> Connected(t1, m)
  }

  /** `newPropList`: the identity keys of the visible properties, in order. */
  function VisibleIds(ps: seq<Prop>): seq<string> {
    if ps == [] then []
    else VisibleIds(ps[..|ps| - 1]) + (if ps[|ps| - 1].visible then [GeneratePropId(ps[|ps| - 1])] else [])
  }

  /** The identity keys of the visible properties, as a set. */
  function IdSet(ps: seq<Prop>): set<string> {
    if ps == [] then {}
    else IdSet(ps[..|ps| - 1]) + (if ps[|ps| - 1].visible then {GeneratePropId(ps[|ps| - 1])} else {})
  }

  /** The last visible property whose identity key is `id`: the one its
      widget is left rendered with. */
  function LastVisible(ps: seq<Prop>, id: string): Option<Prop> {
    if ps == [] then None
    else if ps[|ps| - 1].visible && GeneratePropId(ps[|ps| - 1]) == id then Some(ps[|ps| - 1])
    else LastVisible(ps[..|ps| - 1], id)
  }

  /** Keys keep their widgets. */
  ghost predicate Kept(pl0: map<string, NodeId>, pl1: map<string, NodeId>) {
    forall k :: k in pl0 ==> k in pl1 && pl1[k] == pl0[k]
  }

  /** Every visible property of `ps` has a widget in the document. */
  ghost predicate Shown(t: Tree, pl: map<string, NodeId>, ps: seq<Prop>) {
    forall j :: 0 <= j < |ps| && ps[j].visible ==>
      GeneratePropId(ps[j]) in pl && Connected(t, pl[GeneratePropId(ps[j])])
  }

  /** The widget of each visible key was last rendered with the last
      visible property of that key. */
  ghost predicate RenderedLast(rend: map<NodeId, Prop>, pl: map<string, NodeId>, ps: seq<Prop>) {
    forall k :: k in IdSet(ps) ==> k in pl && pl[k] in rend && LastVisible(ps, k) == Some(rend[pl[k]])
  }

  /** Distinct keys have distinct widgets. */
  ghost predicate Injective(pl: map<string, NodeId>) {
    forall a, b :: a in pl && b in pl && a != b ==> pl[a] != pl[b]
  }

  /** What visiting the property `p` under key `id` guarantees: `id` has
      a widget, which is in the document and was rendered with `p`. */
  ghost predicate Visited(pl0: map<string, NodeId>, pl1: map<string, NodeId>,
                          rend0: map<NodeId, Prop>, rend1: map<NodeId, Prop>, t1: Tree, id: string, p: Prop) {
    pl1.Keys == pl0.Keys + {id} && id in pl1 && Connected(t1, pl1[id]) && rend1 == rend0[pl1[id] := p]
  }

  /** One step of the first loop of `update` extends the loop facts by the
      property it visits. */
  lemma VisitStep(t0: Tree, t1: Tree, base: set<string>, pl0: map<string, NodeId>, pl1: map<string, NodeId>,
                  rend0: map<NodeId, Prop>, rend1: map<NodeId, Prop>, ps: seq<Prop>, p: Prop)
    requires pl0.Keys == base + IdSet(ps) && Shown(t0, pl0, ps) && RenderedLast(rend0, pl0, ps)
    requires KeepsConnected(t0, t1) && Kept(pl0, pl1) && Injective(pl1)
    requires p.visible ==> Visited(pl0, pl1, rend0, rend1, t1, GeneratePropId(p), p)
    requires !p.visible ==> t1 == t0 && pl1 == pl0 && rend1 == rend0
    ensures pl1.Keys == base + IdSet(ps + [p])
    ensures VisibleIds(ps + [p]) == VisibleIds(ps) + (if p.visible then [GeneratePropId(p)] else [])
    ensures Shown(t1, pl1, ps + [p]) && RenderedLast(rend1, pl1, ps + [p])
  {
    SnocVisible(ps, p);
    ShownStep(t0, t1, pl0, pl1, ps, p);
    if p.visible {
      RenderedStep(pl0, pl1, rend0, rend1, ps, p);
    }
  }

  lemma ShownStep(t0: Tree, t1: Tree, pl0: map<string, NodeId>, pl1: map<string, NodeId>, ps: seq<Prop>, p: Prop)
    requires Shown(t0, pl0, ps) && KeepsConnected(t0, t1) && Kept(pl0, pl1)
    requires p.visible ==> GeneratePropId(p) in pl1 && Connected(t1, pl1[GeneratePropId(p)])
    ensures Shown(t1, pl1, ps + [p])
  {
    var q := ps + [p];
    forall j | 0 <= j < |q| && q[j].visible
      ensures GeneratePropId(q[j]) in pl1 && Connected(t1, pl1[GeneratePropId(q[j])])
    {
      if j < |ps| {
        assert q[j] == ps[j];
      }
    }
  }

  lemma RenderedStep(pl0: map<string, NodeId>, pl1: map<string, NodeId>,
                     rend0: map<NodeId, Prop>, rend1: map<NodeId, Prop>, ps: seq<Prop>, p: Prop)
    requires RenderedLast(rend0, pl0, ps) && Kept(pl0, pl1) && Injective(pl1) && p.visible
    requires GeneratePropId(p) in pl1 && rend1 == rend0[pl1[GeneratePropId(p)] := p]
    ensures RenderedLast(rend1, pl1, ps + [p])
  {
    var q := ps + [p];
    var id := GeneratePropId(p);
    SnocVisible(ps, p);
    forall k | k in IdSet(q) ensures k in pl1 && pl1[k] in rend1 && LastVisible(q, k) == Some(rend1[pl1[k]]) {
      if k != id {
        assert k in IdSet(ps);
        assert pl1[k] == pl0[k] && pl1[k] != pl1[id];
        assert rend1[pl1[k]] == rend0[pl0[k]];
        assert LastVisible(q, k) == LastVisible(ps, k);
      } else {
        assert LastVisible(q, k) == Some(p);
      }
    }
  }


  /** Removing the stale widgets leaves every visible property shown. */
  lemma StaleKeepsShown(t: Tree, r: Tree, ids: set<string>, keep: seq<string>, pl: map<string, NodeId>, ps: seq<Prop>)
    requires Shown(t, pl, ps)
    requires forall k :: k in keep <==> k in IdSet(ps)
    requires forall k :: k in pl && (k !in ids || k in keep) && Connected(t, pl[k]) ==> Connected(r, pl[k])
    ensures Shown(r, pl, ps)
  {
    forall j | 0 <= j < |ps| && ps[j].visible ensures Connected(r, pl[GeneratePropId(ps[j])]) {
      IdSetHas(ps, j);
    }
  }

  /** The visible properties of `ps + [p]` add the key of `p` when it is
      visible, and the last of them with a key is `p` for its own key. */
  lemma {:induction false} SnocVisible(ps: seq<Prop>, p: Prop)
    ensures VisibleIds(ps + [p]) == VisibleIds(ps) + (if p.visible then [GeneratePropId(p)] else [])
    ensures IdSet(ps + [p]) == IdSet(ps) + (if p.visible then {GeneratePropId(p)} else {})
    ensures forall k :: LastVisible(ps + [p], k) ==
                          if p.visible && GeneratePropId(p) == k then Some(p) else LastVisible(ps, k)
  {
    var q := ps + [p];
    assert q[..|q| - 1] == ps;
  }

  /** Every visible property's key is among the visible keys. */
  lemma {:induction false} IdSetHas(ps: seq<Prop>, j: nat)
    requires j < |ps| && ps[j].visible
    ensures GeneratePropId(ps[j]) in IdSet(ps)
    decreases |ps|
  {
    if j < |ps| - 1 {
      var init := ps[..|ps| - 1];
      assert init[j] == ps[j];
      IdSetHas(init, j);
    }
  }

  /** `newPropList.includes(id)` is membership in the set of visible keys. */
  lemma {:induction false} VisibleIdsSet(ps: seq<Prop>)
    ensures forall k :: k in VisibleIds(ps) <==> k in IdSet(ps)
    decreases |ps|
  {
    if ps != [] {
      var init := ps[..|ps| - 1];
      VisibleIdsSet(init);
      assert init + [ps[|ps| - 1]] == ps;
      SnocVisible(init, ps[|ps| - 1]);
    }
  }

  /** Taking a widget out of the document keeps the tree in agreement
      with the tab groups and disconnects nothing else: a widget has no
      tabs of its own. */
  lemma DetachWidget(t: Tree, w: NodeId, cs: map<NodeId, TabGroup>, next: nat)
    requires Dom.Valid(t) && Fits(t, cs, next) && w !in cs
    ensures Dom.Valid(Detach(t, w)) && Fits(Detach(t, w), cs, next)
    ensures w !in Detach(t, w).parent
    ensures forall m :: m != w && Connected(t, m) ==> Connected(Detach(t, w), m)
  {
    DetachValid(t, w);
    forall m | m != w && Connected(t, m) ensures Connected(Detach(t, w), m) {
      if t.parent[m].Tab? {
        assert t.parent[m] in t.kids;
      }
    }
  }

  /** The last loop of `update`: for every key in `ids` that `keep` does
      not hold, `$prop.parentElement.removeChild($prop)` when the widget
      has a parent. */
  method DetachStale(t: Tree, ids: set<string>, keep: seq<string>, pl: map<string, NodeId>,
                     cs: map<NodeId, TabGroup>, next: nat) returns (r: Tree)
    requires Dom.Valid(t) && Fits(t, cs, next) && ids <= pl.Keys
    requires forall k :: k in pl ==> pl[k] !in cs
    requires Injective(pl)
    ensures Dom.Valid(r) && Fits(r, cs, next)
    ensures forall k :: k in ids && k !in keep ==> pl[k] !in r.parent
    ensures forall k :: k in pl && (k !in ids || k in keep) && Connected(t, pl[k]) ==> Connected(r, pl[k])
    ensures PrunedFrom(r, t, StaleWidgets(ids, keep, pl))
  {
    r := t;
    var rest := ids;
    ghost var done: set<NodeId> := {};
    PrunedNone(t);
    while rest != {}
      invariant DetachedSoFar(t, r, ids, rest, keep, pl, cs, next, done)
      decreases |rest|
    {
      var k :| k in rest;
      DetachOne(t, r, ids, rest, keep, pl, cs, next, done, k);
      if k !in keep {
        r := Detach(r, pl[k]);
        done := done + {pl[k]};
      }
      rest := rest - {k};
    }
    DetachedAll(t, r, ids, keep, pl, cs, next, done);
  }

  /** The invariant of that loop: the keys of `ids` outside `rest` are
      handled, exactly their stale widgets `done` have been detached, and
      every other widget keeps its connection. */
  ghost predicate DetachedSoFar(t: Tree, r: Tree, ids: set<string>, rest: set<string>, keep: seq<string>,
                                pl: map<string, NodeId>, cs: map<NodeId, TabGroup>, next: nat, done: set<NodeId>)
  {
    rest <= ids <= pl.Keys && Dom.Valid(r) && Fits(r, cs, next)
    && (forall k :: k in ids && k !in rest && k !in keep ==> pl[k] !in r.parent)
    && (forall k :: k in pl && (k !in ids || k in keep) && Connected(t, pl[k]) ==> Connected(r, pl[k]))
    && done == StaleWidgets(ids - rest, keep, pl) && PrunedFrom(r, t, done)
  }

  /** The loop's end: with no key left, every key of `ids` is handled. */
  lemma DetachedAll(t: Tree, r: Tree, ids: set<string>, keep: seq<string>,
                    pl: map<string, NodeId>, cs: map<NodeId, TabGroup>, next: nat, done: set<NodeId>)
    requires DetachedSoFar(t, r, ids, {}, keep, pl, cs, next, done)
    ensures Dom.Valid(r) && Fits(r, cs, next)
    ensures forall k :: k in ids && k !in keep ==> pl[k] !in r.parent
    ensures forall k :: k in pl && (k !in ids || k in keep) && Connected(t, pl[k]) ==> Connected(r, pl[k])
    ensures PrunedFrom(r, t, StaleWidgets(ids, keep, pl))
  {
    assert ids - {} == ids;
  }

  /** One pass of that loop, for the key `k`. */
  lemma DetachOne(t: Tree, r: Tree, ids: set<string>, rest: set<string>, keep: seq<string>,
                  pl: map<string, NodeId>, cs: map<NodeId, TabGroup>, next: nat, done: set<NodeId>, k: string)
    requires DetachedSoFar(t, r, ids, rest, keep, pl, cs, next, done) && k in rest
    requires forall k :: k in pl ==> pl[k] !in cs
    requires Injective(pl)
    ensures k !in keep ==>
              DetachedSoFar(t, Detach(r, pl[k]), ids, rest - {k}, keep, pl, cs, next, done + {pl[k]})
    ensures k in keep ==> DetachedSoFar(t, r, ids, rest - {k}, keep, pl, cs, next, done)
    ensures |rest - {k}| < |rest|
  {
    StaleWidgetsStep(ids - rest, keep, pl, k);
    assert ids - (rest - {k}) == (ids - rest) + {k};
    if k !in keep {
      DetachStaleStep(t, r, done, pl[k], cs, next);
    }
  }

  /** One pass of that loop: detaching the widget `w` keeps the tree's
      invariants and every other connection, and extends the pruned set. */
  lemma DetachStaleStep(t: Tree, r: Tree, done: set<NodeId>, w: NodeId, cs: map<NodeId, TabGroup>, next: nat)
    requires Dom.Valid(r) && Fits(r, cs, next) && w !in cs && PrunedFrom(r, t, done)
    ensures Dom.Valid(Detach(r, w)) && Fits(Detach(r, w), cs, next)
    ensures PrunedFrom(Detach(r, w), t, done + {w}) && w !in Detach(r, w).parent
    ensures forall m :: m != w && Connected(r, m) ==> Connected(Detach(r, w), m)
  {
    DetachKids(r, w);
    PrunedStep(r, t, done, w);
    DetachWidget(r, w, cs, next);
  }

  /** The widgets of the keys of `ids` that `keep` does not list. */
  function StaleWidgets(ids: set<string>, keep: seq<string>, pl: map<string, NodeId>): set<NodeId>
    requires ids <= pl.Keys
  {
    set k | k in ids && k !in keep :: pl[k]
  }

  lemma StaleWidgetsStep(ids: set<string>, keep: seq<string>, pl: map<string, NodeId>, k: string)
    requires ids <= pl.Keys && k in pl
    ensures StaleWidgets(ids + {k}, keep, pl)
            == StaleWidgets(ids, keep, pl) + (if k in keep then {} else {pl[k]})
  {
  }

  /** The nodes `$groups` holds; none once `close` has run. */
  function CachedGroups(groups: Option<map<string, NodeId>>): set<NodeId> {
    if groups.Some? then groups.value.Values else {}
  }

  lemma TakeOneMore<T>(s: seq<T>, i: nat)
    requires i < |s|
    ensures s[..i + 1] == s[..i] + [s[i]]
  {
  }

  /** The loop of `close`: `$groups[key].remove()` for every key of
      `$groups`, in any order. */
  method DetachGroups(t: Tree, gs: map<string, NodeId>) returns (r: Tree)
    requires Dom.Valid(t)
    ensures Dom.Valid(r) && PrunedFrom(r, t, gs.Values)
  {
    r := t;
    var rest := gs.Keys;
    ghost var done: set<NodeId> := {};
    PrunedNone(t);
    while rest != {}
      invariant rest <= gs.Keys && done <= gs.Values
      invariant forall k :: k in gs && k !in rest ==> gs[k] in done
      invariant Dom.Valid(r) && PrunedFrom(r, t, done)
      decreases |rest|
    {
      var k :| k in rest;
      var g := gs[k];
      DetachKids(r, g);
      PrunedStep(r, t, done, g);
      DetachValid(r, g);
      r := Detach(r, g);
      done := done + {g};
      rest := rest - {k};
    }
    forall v | v in gs.Values ensures v in done {
      var k :| k in gs && gs[k] == v;
    }
    assert done == gs.Values;
  }

  /** Removing nodes keeps the tree in agreement with the tab groups, and
      disconnects exactly the removed nodes and what hangs in their tabs. */
  lemma PrunedFits(t: Tree, t0: Tree, x: set<NodeId>, cs: map<NodeId, TabGroup>, next: nat)
    requires Fits(t0, cs, next) && PrunedFrom(t, t0, x)
    ensures Fits(t, cs, next)
    ensures forall n :: n in t.parent && t.parent[n].Tab? && t.parent[n].group in x ==> !Connected(t, n)
    ensures forall n :: n in x ==> !Connected(t, n)
  {
  }

  /** Moving a node that is not a tab group, or moving into the section,
      keeps the tree in agreement with the tab groups. */
  lemma MoveFits(t: Tree, at: Place, child: NodeId, order: map<NodeId, Option<int>>, d: int,
                 cs: map<NodeId, TabGroup>, next: nat)
    requires Dom.Valid(t) && Fits(t, cs, next) && at in t.kids && child < next
    requires at.Tab? ==> child !in cs
    ensures Dom.Valid(InsertByOrder(t, at, child, order, d))
    ensures Fits(InsertByOrder(t, at, child, order, d), cs, next)
  {
    InsertByOrderValid(t, at, child, order, d);
  }

  /** Moving `child` to `at` disconnected nothing else, and put `child`
      itself in the document when `at` is the section or a tab of a group
      in the section. */
  ghost predicate Moved(t: Tree, r: Tree, at: Place, child: NodeId) {
    (forall m :: m != child && Connected(t, m) ==> Connected(r, m))
    && (at == Section ==> Connected(r, child))
    && (at.Tab? && at.group in t.parent && t.parent[at.group] == Section ==> Connected(r, child))
  }

  /** Moving a node keeps every invariant the tree has on its own. */
  lemma MoveKeeps(t: Tree, at: Place, child: NodeId, order: map<NodeId, Option<int>>, d: int,
                  cs: map<NodeId, TabGroup>, next: nat)
    requires Dom.Valid(t) && Fits(t, cs, next) && at in t.kids && child < next
    requires at.Tab? ==> child !in cs
    ensures var r := InsertByOrder(t, at, child, order, d);
            Dom.Valid(r) && Fits(r, cs, next) && Moved(t, r, at, child)
  {
    MoveFits(t, at, child, order, d, cs, next);
    MoveConnected(t, at, child, order, d, cs, next);
  }

  /** Moving `child` disconnects nothing else, and puts `child` itself in
      the document when the target is the section or a tab of a group in
      the section. */
  lemma MoveConnected(t: Tree, at: Place, child: NodeId, order: map<NodeId, Option<int>>, d: int,
                      cs: map<NodeId, TabGroup>, next: nat)
    requires Dom.Valid(t) && Fits(t, cs, next) && at in t.kids
    requires at.Tab? ==> child !in cs
    ensures Moved(t, InsertByOrder(t, at, child, order, d), at, child)
  {
    var r := InsertByOrder(t, at, child, order, d);
    forall m | m != child && Connected(t, m) ensures Connected(r, m) {
      if t.parent[m].Tab? {
        var g := t.parent[m].group;
        assert t.parent[m] in t.kids;
        assert g in cs;
      }
    }
  }

  /** The body of `appendChildByDisplayOrder` on the tree: the loop that
      walks the children for the first one whose dump sorts after `d`,
      then the insertion before it (or at the end). */
  method InsertChild(t: Tree, at: Place, child: NodeId, orders: map<NodeId, Option<int>>, d: int)
    returns (r: Tree)
    requires Dom.Valid(t) && at in t.kids && child !in t.kids[at]
    ensures r == InsertByOrder(t, at, child, orders, d)
  {
    var kids := t.kids[at];
    var i := 0;
    while i < |kids| && !After(orders, kids[i], d)
      invariant 0 <= i <= |kids|
      invariant forall j :: 0 <= j < i ==> !After(orders, kids[j], d)
    {
      i := i + 1;
    }
    InsertIndexIs(kids, orders, d, i);
    InsertByOrderAt(t, at, child, orders, d, i);
    r := InsertAt(Detach(t, child), at, i, child);
  }

  /** `appendChildByDisplayOrder` as the steps that call it need it: the
      node ends up in `at`, and every invariant and connection survives. */
  method MoveInto(t: Tree, at: Place, child: NodeId, orders: map<NodeId, Option<int>>, d: int,
                  cs: map<NodeId, TabGroup>, next: nat) returns (r: Tree)
    requires Dom.Valid(t) && Fits(t, cs, next) && at in t.kids && child < next && child !in t.kids[at]
    requires at.Tab? ==> child !in cs
    ensures r == InsertByOrder(t, at, child, orders, d)
    ensures Dom.Valid(r) && Fits(r, cs, next) && Moved(t, r, at, child)
    ensures r.kids.Keys == t.kids.Keys && r.parent == t.parent[child := at]
    ensures forall q :: q in t.kids && q != at && !(child in t.parent && t.parent[child] == q) ==> r.kids[q] == t.kids[q]
  {
    MoveKeeps(t, at, child, orders, d, cs, next);
    r := InsertChild(t, at, child, orders, d);
  }

  /** The index the search loop stops at is the one `InsertIndex` names. */
  lemma {:induction false} InsertIndexIs(kids: seq<NodeId>, order: map<NodeId, Option<int>>, d: int, i: nat)
    requires i <= |kids|
    requires forall j :: 0 <= j < i ==> !After(order, kids[j], d)
    requires i < |kids| ==> After(order, kids[i], d)
    ensures InsertIndex(kids, order, d) == i
  {
    if i > 0 {
      InsertIndexIs(kids[1..], order, d, i - 1);
    }
  }
}
