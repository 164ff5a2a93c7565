/** `formatPropList`: turns the visible properties into the rendering plan.
    Ungrouped properties become single entries; the grouped ones are
    bucketed by `group.id || 'default'`, one plan entry per bucket, whose
    members are sorted and then split into tabs by `group.name`. The whole
    plan is stable-sorted by display order. */
module Formatter {
  import opened Dump
  import opened DisplayOrder
  import opened Grouping

  /** An element of `normalPropList`: a property, or the `{[propsKey]: v}`
      object standing for one bucket (`id` is the bucket's key, kept so
      lemmas can name the bucket; the source holds it as the Map key). */
  datatype Item = PropItem(p: Prop) | GroupItem(id: string, order: Option<int>, members: seq<Prop>)

  /** An element of the returned plan: a property, or the tabs of a group. */
  datatype Entry = Single(p: Prop) | Cluster(tabs: seq<seq<Prop>>)

  function PropOrder(p: Prop): Option<int> { p.displayOrder }

  function GroupKeyOf(p: Prop): string { GroupKey(p.group) }

  function TabNameOf(p: Prop): string { TabName(p.group) }

  function ItemOrder(it: Item): Option<int> {
    match it
    case PropItem(p) => p.displayOrder
    case GroupItem(_, order, _) => order
  }

  /** `v[0].group.displayOrder`, kept only when it is truthy. */
  function GroupOrder(members: seq<Prop>): (r: Option<int>)
    ensures r.Some? ==> members != [] && members[0].group.InGroup? && members[0].group.displayOrder == r && r.value != 0
    ensures (members != [] && members[0].group.InGroup? && members[0].group.displayOrder.Some?
             && members[0].group.displayOrder.value != 0) ==> r.Some?
  {
    if members != [] && members[0].group.InGroup? && members[0].group.displayOrder.Some?
       && members[0].group.displayOrder.value != 0
    then members[0].group.displayOrder
    else None
  }

  /** `propList.filter(item => item.group && Object.keys(item.group).length !== 0)` */
  function Grouped(ps: seq<Prop>): (r: seq<Prop>)
    ensures AllGrouped(r)
  {
    if ps == [] then []
    else if HasGroup(ps[0]) then [ps[0]] + Grouped(ps[1..])
    else Grouped(ps[1..])
  }

  /** `propList.filter(item => !item.group || Object.keys(item.group).length === 0)` */
  function Ungrouped(ps: seq<Prop>): (r: seq<Prop>)
    ensures forall i :: 0 <= i < |r| ==> !HasGroup(r[i])
  {
    if ps == [] then []
    else if HasGroup(ps[0]) then Ungrouped(ps[1..])
    else [ps[0]] + Ungrouped(ps[1..])
  }

  /** `filter` keeps the input order: the kept properties of `a + b` are
      those of `a`, then those of `b`, and one property is kept exactly
      when it has a group. */
  lemma {:induction false} GroupedKeepsOrder(a: seq<Prop>, b: seq<Prop>)
    ensures Grouped(a + b) == Grouped(a) + Grouped(b)
    ensures |a| == 1 ==> Grouped(a) == (if HasGroup(a[0]) then a else [])
  {
    GroupedAppend(a, b);
    if |a| == 1 {
      assert a[1..] == [];
    }
  }

  lemma {:induction false} GroupedAppend(a: seq<Prop>, b: seq<Prop>)
    ensures Grouped(a + b) == Grouped(a) + Grouped(b)
  {
    if a == [] {
      assert a + b == b;
    } else {
      assert (a + b)[1..] == a[1..] + b;
      GroupedAppend(a[1..], b);
    }
  }

  /** The same for the other filter: the properties of `a + b` without a
      group are those of `a`, then those of `b`. */
  lemma {:induction false} UngroupedKeepsOrder(a: seq<Prop>, b: seq<Prop>)
    ensures Ungrouped(a + b) == Ungrouped(a) + Ungrouped(b)
    ensures |a| == 1 ==> Ungrouped(a) == (if HasGroup(a[0]) then [] else a)
  {
    UngroupedAppend(a, b);
    if |a| == 1 {
      assert a[1..] == [];
    }
  }

  lemma {:induction false} UngroupedAppend(a: seq<Prop>, b: seq<Prop>)
    ensures Ungrouped(a + b) == Ungrouped(a) + Ungrouped(b)
  {
    if a == [] {
      assert a + b == b;
    } else {
      assert (a + b)[1..] == a[1..] + b;
      UngroupedAppend(a[1..], b);
    }
  }

  /** The two filters split the input between them. */
  lemma {:induction false} FiltersPartition(ps: seq<Prop>)
    ensures multiset(Grouped(ps)) + multiset(Ungrouped(ps)) == multiset(ps)
  {
    if ps != [] {
      FiltersPartition(ps[1..]);
      assert ps == [ps[0]] + ps[1..];
    }
  }

  function PropItems(u: seq<Prop>): (r: seq<Item>)
    ensures |r| == |u|
  {
    seq(|u|, i requires 0 <= i < |u| => PropItem(u[i]))
  }

  /** The bucket item for key `k`. */
  function BucketItem(gs: seq<Prop>, k: string): Item {
    var m := Members(gs, GroupKeyOf, k);
    GroupItem(k, GroupOrder(m), m)
  }

  /** One item per bucket, in the `Map`'s insertion order. */
  function GroupItems(gs: seq<Prop>): (r: seq<Item>)
    ensures |r| == |FirstKeys(gs, GroupKeyOf)|
  {
    var ks := FirstKeys(gs, GroupKeyOf);
    seq(|ks|, i requires 0 <= i < |ks| => BucketItem(gs, ks[i]))
  }

  /** The combined `normalPropList` after its sort. */
  function PlanItems(ps: seq<Prop>): seq<Item> {
    StableSort(PropItems(Ungrouped(ps)) + GroupItems(Grouped(ps)), ItemOrder)
  }

  /** The last loop of `formatPropList` applied to one item. */
  function Finish(it: Item): Entry {
    match it
    case PropItem(p) => Single(p)
    case GroupItem(_, _, m) => Cluster(Groups(StableSort(m, PropOrder), TabNameOf))
  }

  /** The plan `formatPropList` returns. */
  function FormatPlan(ps: seq<Prop>): seq<Entry> {
    if Grouped(ps) == [] then
      var sorted := StableSort(ps, PropOrder);
      seq(|sorted|, i requires 0 <= i < |sorted| => Single(sorted[i]))
    else
      var items := PlanItems(ps);
      seq(|items|, i requires 0 <= i < |items| => Finish(items[i]))
  }

  method FormatPropList(propList: seq<Prop>) returns (ret: seq<Entry>)
    ensures ret == FormatPlan(propList)
  {
    var withGroup := Grouped(propList);
    var normal := PropItems(Ungrouped(propList));
    if |withGroup| == 0 {
      var sorted := StableSort(propList, PropOrder);
      ret := seq(|sorted|, i requires 0 <= i < |sorted| => Single(sorted[i]));
      return;
    }

    var keys, groupMap := CollectGroups(withGroup);
    // one item per bucket, pushed after the ungrouped properties
    normal := PushBuckets(normal, keys, groupMap);
    BucketsOfMap(withGroup, keys, groupMap);
    var sorted := StableSort(normal, ItemOrder);
    ret := FinishAll(sorted);
  }

  /** `for (const prop of withGroupPropList)`: fills `groupMap`, a `Map`
      from `group.id || 'default'` to the bucket's members. */
  method CollectGroups(withGroup: seq<Prop>) returns (keys: seq<string>, groupMap: map<string, seq<Prop>>)
    ensures keys == FirstKeys(withGroup, GroupKeyOf)
    ensures forall k :: k in keys ==> k in groupMap && groupMap[k] == Members(withGroup, GroupKeyOf, k)
  {
    keys := [];
    groupMap := map[];
    var i := 0;
    while i < |withGroup|
      invariant 0 <= i <= |withGroup|
      invariant keys == FirstKeys(withGroup[..i], GroupKeyOf)
      invariant groupMap.Keys == set k | k in keys
      invariant forall k :: k in groupMap ==> groupMap[k] == Members(withGroup[..i], GroupKeyOf, k)
    {
      var prop := withGroup[i];
      var groupId := GroupKey(prop.group);
      assert withGroup[..i + 1][..i] == withGroup[..i] && withGroup[..i + 1][i] == prop;
      if groupId in groupMap {
        groupMap := groupMap[groupId := groupMap[groupId] + [prop]];
      } else {
        groupMap := groupMap[groupId := [prop]];
        assert Members(withGroup[..i], GroupKeyOf, groupId) == [] by {
          MembersEmptyIffAbsent(withGroup[..i], GroupKeyOf, groupId);
        }
        keys := keys + [groupId];
      }
      i := i + 1;
    }
    assert withGroup[..i] == withGroup;
  }

  /** `for (const v of groupMap.values()) normalPropList.push(item)` */
  method PushBuckets(normal: seq<Item>, keys: seq<string>, groupMap: map<string, seq<Prop>>)
    returns (r: seq<Item>)
    requires forall k :: k in keys ==> k in groupMap
    ensures r == normal + MapItems(keys, groupMap)
  {
    ghost var items := MapItems(keys, groupMap);
    r := normal;
    var j := 0;
    while j < |keys|
      invariant 0 <= j <= |keys|
      invariant r == normal + items[..j]
    {
      var v := groupMap[keys[j]];
      assert items[..j + 1] == items[..j] + [GroupItem(keys[j], GroupOrder(v), v)];
      r := r + [GroupItem(keys[j], GroupOrder(v), v)];
      j := j + 1;
    }
    assert items[..j] == items;
  }

  /** One item per key of the `Map`, in key order, holding that key's bucket. */
  function MapItems(keys: seq<string>, groupMap: map<string, seq<Prop>>): (r: seq<Item>)
    requires forall k :: k in keys ==> k in groupMap
    ensures |r| == |keys|
  {
    seq(|keys|, j requires 0 <= j < |keys| => GroupItem(keys[j], GroupOrder(groupMap[keys[j]]), groupMap[keys[j]]))
  }

  /** The buckets `CollectGroups` leaves in the `Map` are the items
      `GroupItems` lists. */
  lemma BucketsOfMap(gs: seq<Prop>, keys: seq<string>, groupMap: map<string, seq<Prop>>)
    requires keys == FirstKeys(gs, GroupKeyOf)
    requires forall k :: k in keys ==> k in groupMap && groupMap[k] == Members(gs, GroupKeyOf, k)
    ensures MapItems(keys, groupMap) == GroupItems(gs)
  {
    forall j | 0 <= j < |keys|
      ensures MapItems(keys, groupMap)[j] == GroupItems(gs)[j]
    {
      assert GroupItems(gs)[j] == BucketItem(gs, keys[j]);
    }
  }

  /** The loop building `ret`: a property stays as it is, a bucket becomes
      its tabs. */
  method FinishAll(sorted: seq<Item>) returns (ret: seq<Entry>)
    ensures |ret| == |sorted|
    ensures forall m :: 0 <= m < |sorted| ==> ret[m] == Finish(sorted[m])
  {
    ret := [];
    var k := 0;
    while k < |sorted|
      invariant 0 <= k <= |sorted|
      invariant |ret| == k
      invariant forall m {:trigger ret[m]} :: 0 <= m < k ==> ret[m] == Finish(sorted[m])
    {
      var e := FinishItem(sorted[k]);
      ghost var prev := ret;
      ret := ret + [e];
      assert forall m :: 0 <= m < k ==> ret[m] == prev[m];
      k := k + 1;
    }
  }

  /** One pass of that loop: `ret.push(data)` for a bucket, the property
      itself otherwise. */
  method FinishItem(it: Item) returns (e: Entry)
    ensures e == Finish(it)
  {
    match it {
      case PropItem(p) =>
        e := Single(p);
      case GroupItem(_, _, members) =>
        var data := GroupBy(StableSort(members, PropOrder), TabNameOf);
        e := Cluster(data);
    }
  }

  // ---- properties of the plan ----

  lemma {:induction false} GroupedEmptyIff(ps: seq<Prop>)
    ensures Grouped(ps) == [] <==> forall i :: 0 <= i < |ps| ==> !HasGroup(ps[i])
  {
    if ps != [] {
      GroupedEmptyIff(ps[1..]);
      if HasGroup(ps[0]) {
        assert Grouped(ps)[0] == ps[0];
      } else {
        assert forall i :: 1 <= i < |ps| ==> ps[i] == ps[1..][i - 1];
      }
    }
  }

  /** With no grouped property the plan is the input, stable-sorted by
      display order, each property its own entry. */
  lemma NoGroupsPlan(ps: seq<Prop>)
    requires forall i :: 0 <= i < |ps| ==> !HasGroup(ps[i])
    ensures |FormatPlan(ps)| == |ps|
    ensures forall i :: 0 <= i < |ps| ==> FormatPlan(ps)[i] == Single(StableSort(ps, PropOrder)[i])
  {
    GroupedEmptyIff(ps);
    assert |StableSort(ps, PropOrder)| == |ps| by {
      assert |multiset(StableSort(ps, PropOrder))| == |multiset(ps)|;
    }
  }

  /** Each entry of the plan is the finished form of the sorted items. */
  lemma PlanIsFinishedItems(ps: seq<Prop>)
    requires Grouped(ps) != []
    ensures |FormatPlan(ps)| == |PlanItems(ps)|
    ensures forall i :: 0 <= i < |PlanItems(ps)| ==> FormatPlan(ps)[i] == Finish(PlanItems(ps)[i])
    ensures SortedBy(PlanItems(ps), ItemOrder)
    ensures multiset(PlanItems(ps)) == multiset(PropItems(Ungrouped(ps))) + multiset(GroupItems(Grouped(ps)))
  {
  }

  lemma CountUnique<T>(s: seq<T>, i: nat)
    requires i < |s|
    requires forall j :: 0 <= j < |s| && j != i ==> s[j] != s[i]
    ensures multiset(s)[s[i]] == 1
  {
    var x := s[i];
    assert s == s[..i] + [x] + s[i + 1..];
    assert x !in s[..i];
    assert x !in s[i + 1..];
  }

  lemma NoBucketAmongProps(u: seq<Prop>, it: Item)
    requires it.GroupItem?
    ensures multiset(PropItems(u))[it] == 0
  {
    assert it !in PropItems(u);
  }

  /** Each distinct `group.id || 'default'` yields exactly one plan item,
      the bucket of all its members, which the plan shows as those members
      sorted by display order and bucketed by `group.name`. */
  lemma OneEntryPerGroup(ps: seq<Prop>, k: string)
    requires k in FirstKeys(Grouped(ps), GroupKeyOf)
    ensures multiset(PlanItems(ps))[BucketItem(Grouped(ps), k)] == 1
    ensures forall it :: it in PlanItems(ps) && it.GroupItem? && it.id == k ==> it == BucketItem(Grouped(ps), k)
    ensures Finish(BucketItem(Grouped(ps), k)) ==
            Cluster(Groups(StableSort(Members(Grouped(ps), GroupKeyOf, k), PropOrder), TabNameOf))
  {
    var gs := Grouped(ps);
    var ks := FirstKeys(gs, GroupKeyOf);
    var gi := GroupItems(gs);
    var b := BucketItem(gs, k);
    var i :| 0 <= i < |ks| && ks[i] == k;
    assert gi[i] == b;
    forall j | 0 <= j < |gi| && j != i ensures gi[j] != gi[i] {
      assert gi[j].id == ks[j];
    }
    CountUnique(gi, i);
    NoBucketAmongProps(Ungrouped(ps), b);
    var all := PropItems(Ungrouped(ps)) + gi;
    assert multiset(PlanItems(ps)) == multiset(all);
    forall it | it in PlanItems(ps) && it.GroupItem? && it.id == k ensures it == b {
      ItemOfKeyIsBucket(ps, k, it);
    }
  }

  lemma ItemOfKeyIsBucket(ps: seq<Prop>, k: string, it: Item)
    requires it in PlanItems(ps) && it.GroupItem? && it.id == k
    ensures it == BucketItem(Grouped(ps), k)
  {
    var gs := Grouped(ps);
    var ks := FirstKeys(gs, GroupKeyOf);
    var gi := GroupItems(gs);
    NoBucketAmongProps(Ungrouped(ps), it);
    var all := PropItems(Ungrouped(ps)) + gi;
    assert multiset(PlanItems(ps)) == multiset(all);
    assert it in multiset(all);
    assert it !in PropItems(Ungrouped(ps));
    assert it in gi;
    var j :| 0 <= j < |gi| && gi[j] == it;
    assert ks[j] == k;
  }

  lemma {:induction false} PropItemCount(u: seq<Prop>, p: Prop)
    ensures multiset(PropItems(u))[PropItem(p)] == multiset(u)[p]
  {
    if u != [] {
      PropItemCount(u[1..], p);
      assert u == [u[0]] + u[1..];
      assert PropItems(u) == [PropItem(u[0])] + PropItems(u[1..]);
    }
  }

  /** Every ungrouped property is its own plan item exactly as often as it
      is in the input: once, for the distinct properties of a dump. */
  lemma UngroupedExactlyOnce(ps: seq<Prop>, p: Prop)
    ensures multiset(PlanItems(ps))[PropItem(p)] == multiset(Ungrouped(ps))[p]
  {
    PropItemCount(Ungrouped(ps), p);
    var gi := GroupItems(Grouped(ps));
    assert PropItem(p) !in gi;
    assert multiset(PlanItems(ps)) == multiset(PropItems(Ungrouped(ps))) + multiset(gi);
  }

  /** A bucket whose first member's `group.displayOrder` is 0 or missing
      has no order, so every item after it has none either: it sorts after
      every item with a defined order. */
  lemma UnorderedGroupSortsLast(ps: seq<Prop>, i: nat, j: nat)
    requires i < j < |PlanItems(ps)|
    requires PlanItems(ps)[i].GroupItem? && PlanItems(ps)[i].members != []
    requires PlanItems(ps)[i].order == GroupOrder(PlanItems(ps)[i].members)
    requires PlanItems(ps)[i].members[0].group.InGroup?
    requires PlanItems(ps)[i].members[0].group.displayOrder in {None, Some(0)}
    ensures ItemOrder(PlanItems(ps)[j]).None?
  {
    var items := PlanItems(ps);
    assert ItemOrder(items[i]).None?;
    assert SortedBy(items, ItemOrder);
    assert !Before(ItemOrder(items[j]), ItemOrder(items[i]));
  }

  /** The tabs of a bucket are non-empty, share a tab name each, and
      together hold exactly the bucket's members. */
  lemma ClusterPartitionsBucket(m: seq<Prop>)
    ensures var tabs := Groups(StableSort(m, PropOrder), TabNameOf);
            (forall t :: 0 <= t < |tabs| ==> tabs[t] != []) &&
            (forall t, x :: 0 <= t < |tabs| && 0 <= x < |tabs[t]| ==> TabNameOf(tabs[t][x]) == FirstKeys(StableSort(m, PropOrder), TabNameOf)[t]) &&
            multiset(Flatten(tabs)) == multiset(m)
  {
    var sorted := StableSort(m, PropOrder);
    GroupsNonEmpty(sorted, TabNameOf);
    GroupsArePermutation(sorted, TabNameOf);
  }
}
