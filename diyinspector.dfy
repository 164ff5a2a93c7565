/** The simpler panel of `diy-class.js`, built on the factories of
    `prop-renderer.js`: each pass formats the visible properties into a
    plan, creates a widget for every entry whose identity has none yet and
    appends it to the end of the section, and after every entry detaches
    the widgets of identities the pass has not reached. A group entry is
    rendered by `createPropGroup` as one tab group. */
module DiyInspector {
  import opened Dump
  import opened Dom
  import opened PropId
  import opened PropRenderer
  import opened Formatter
  import ClassInspector

  /** The identity `generatePropId` computes for a plan entry. A bucket list
      is an array: its `type`, `name` and `path` are all `undefined`. */
  function EntryId(e: Entry): string {
    match e
    case Single(p) => GeneratePropId(p)
    case Cluster(_) => ClusterId
  }

  /** An entry's identity reads back as what it was built from. */
  lemma EntryIdSplits(e: Entry)
    ensures e.Single? && ':' !in KindOrName(e.p) ==> SplitPropId(EntryId(e)) == Some((KindOrName(e.p), e.p.path))
    ensures e.Cluster? ==> SplitPropId(EntryId(e)) == Some(("undefined", "undefined"))
  {
    match e
    case Single(p) => SplitGeneratedIf(p);
    case Cluster(_) => ClusterSplits();
  }

  lemma SplitGeneratedIf(p: Prop)
    ensures ':' !in KindOrName(p) ==> SplitPropId(GeneratePropId(p)) == Some((KindOrName(p), p.path))
  {
    if ':' !in KindOrName(p) { SplitGenerated(p); }
  }

  /** The bucket list's key reads back as type `undefined`, path `undefined`. */
  lemma ClusterSplits()
    ensures SplitPropId(ClusterId) == Some(("undefined", "undefined"))
  {
    var u := "undefined";
    assert ClusterId == u + ":" + u;
    assert ':' !in u;
    SplitJoined(u, u);
  }

  /** A key built from a `:`-free prefix splits back into its two parts. */
  lemma SplitJoined(a: string, b: string)
    requires ':' !in a
    ensures SplitPropId(a + ":" + b) == Some((a, b))
  {
    var id := a + ":" + b;
    assert forall i :: 0 <= i < |a| ==> id[i] == a[i];
    FirstColonAt(id, |a|);
    assert id[..|a|] == a && id[|a| + 1..] == b;
  }

  const ClusterId: string := "undefined:undefined"

  /** The panel's state as a value.
      `propList`: identity to widget, where `None` is a stored `null`;
      `groups`: group key to tab group, `None` once `close` has run;
      `widgets`: what each element `createByType` or `createArrayProp`
      made is; `headers`: the button names of each tab group's header;
      `nextId`: the next node `document.createElement` hands out. */
  datatype Diy = Diy(
    propList: map<string, Option<NodeId>>,
    groups: Option<map<string, NodeId>>,
    tree: Tree,
    widgets: map<NodeId, WidgetSpec>,
    headers: map<NodeId, seq<string>>,
    nextId: nat)

  /** The state a step leaves, and what it returned or threw. A throw
      leaves whatever the step had already changed. */
  datatype Outcome<T> = Outcome(s: Diy, r: Result<T>)

  /** `!$panel.$propList[id]`: absent, or a stored `null`. */
  predicate Missing(pl: map<string, Option<NodeId>>, id: string) {
    id !in pl || pl[id].None?
  }

  /** `$propList[id]` holds a widget. */
  predicate HasWidget(pl: map<string, Option<NodeId>>, id: string) {
    id in pl && pl[id].Some?
  }

  /** The tab name of each bucket: its first member's `group.name`. */
  function BucketNames(tabs: seq<seq<Prop>>): seq<string> {
    if tabs == [] then []
    else [if tabs[0] != [] then TabName(tabs[0][0].group) else TabName(NoGroup)] + BucketNames(tabs[1..])
  }

  /** `s2` only adds to `s`: no place disappears, node numbers only grow,
      and every node that gained a parent is one created after `s`. */
  predicate OnlyAdds(s: Diy, s2: Diy) {
    s.nextId <= s2.nextId
    && s.tree.kids.Keys <= s2.tree.kids.Keys
    && (forall n :: n in s2.tree.parent && n !in s.tree.parent ==> s.nextId <= n)
  }

  /** Every stored widget was handed out before `nextId`. */
  predicate Allocated(s: Diy) {
    forall id :: id in s.propList && s.propList[id].Some? ==> s.propList[id].value < s.nextId
  }

  /** Every attached node was handed out before `nextId`. */
  predicate Fresh(s: Diy) {
    forall n :: n in s.tree.parent ==> n < s.nextId
  }

  /** `pl2` has the entry `pl` has for `id`, or neither has one. */
  predicate Keeps(pl: map<string, Option<NodeId>>, pl2: map<string, Option<NodeId>>, id: string) {
    (id in pl <==> id in pl2) && (id in pl ==> pl2[id] == pl[id])
  }

  /** Every children list of `t` but that of `at` is the same in `t2`. */
  ghost predicate KeptBut(t: Tree, t2: Tree, at: Place) {
    forall q :: q in t.kids && q != at ==> q in t2.kids && t2.kids[q] == t.kids[q]
  }

  /** Every children list of `t` outside the tabs of group `g` is the same
      in `t2`. */
  ghost predicate KeptOutside(t: Tree, t2: Tree, g: NodeId) {
    forall q :: q in t.kids && !(q.Tab? && q.group == g) ==> q in t2.kids && t2.kids[q] == t.kids[q]
  }

  /** `id` is the identity of no member of `ps`. */
  predicate NotAMember(id: string, ps: seq<Prop>) {
    forall j :: 0 <= j < |ps| ==> GeneratePropId(ps[j]) != id
  }

  /** `id` is the identity of no member of any bucket of `tabs`. */
  predicate NoMember(id: string, tabs: seq<seq<Prop>>) {
    forall i :: 0 <= i < |tabs| ==> NotAMember(id, tabs[i])
  }

  /** A tab content area `p`, made empty when the group has none yet. */
  function EnsurePlace(t: Tree, p: Place): (r: Tree)
    ensures r.kids.Keys == t.kids.Keys + {p} && r.parent == t.parent
    ensures p in t.kids ==> r == t
    ensures Dom.Valid(t) ==> Dom.Valid(r)
  {
    if p in t.kids then t else Tree(t.kids[p := []], t.parent)
  }

  // ---- createPropGroup ----

  /** One pass of the inner loop of `createPropGroup`: the member's widget
      is registered under its identity (a `null` too), then appended to
      the tab content area `at`, which throws on `null`. */
  function AddMember(s: Diy, at: Place, p: Prop): (o: Outcome<()>)
    requires at in s.tree.kids
    ensures OnlyAdds(s, o.s) && o.s.groups == s.groups && o.s.headers == s.headers
    ensures Dom.Valid(s.tree) ==> Dom.Valid(o.s.tree)
    ensures o.r.Ok? <==> CreateByType(p).Ok? && CreateByType(p).value.Some?
    ensures o.r.Ok? ==> o.s.propList == s.propList[GeneratePropId(p) := Some(s.nextId)]
                        && o.s.tree.parent == s.tree.parent[s.nextId := at]
    ensures o.r == Err(NullWidget) ==> o.s.propList == s.propList[GeneratePropId(p) := None]
    ensures o.r.Ok? && s.nextId !in s.tree.parent ==> o.s.tree.kids[at] == s.tree.kids[at] + [s.nextId]
    ensures forall id :: id != GeneratePropId(p) ==> Keeps(s.propList, o.s.propList, id)
  {
    AddMade(s, at, GeneratePropId(p), CreateByType(p))
  }

  /** `AddMember` once `createByType` has given `made`. */
  function AddMade(s: Diy, at: Place, id: string, made: Result<Option<WidgetSpec>>): (o: Outcome<()>)
    requires at in s.tree.kids
    ensures OnlyAdds(s, o.s) && o.s.groups == s.groups && o.s.headers == s.headers
    ensures Dom.Valid(s.tree) ==> Dom.Valid(o.s.tree)
    ensures made.Err? ==> o == Outcome(s, Err(made.fault))
    ensures made == Ok(None) ==> o == Outcome(s.(propList := s.propList[id := None]), Err(NullWidget))
    ensures made.Ok? && made.value.Some? ==>
              o.r.Ok? && o.s.propList == s.propList[id := Some(s.nextId)]
              && o.s.tree.parent == s.tree.parent[s.nextId := at]
              && (s.nextId !in s.tree.parent ==> o.s.tree.kids[at] == s.tree.kids[at] + [s.nextId])
  {
    match made
    case Err(f) => Outcome(s, Err(f))
    case Ok(None) => Outcome(s.(propList := s.propList[id := None]), Err(NullWidget))
    case Ok(Some(w)) =>
      var n := s.nextId;
      var t := AppendChild(s.tree, at, n);
      assert Dom.Valid(s.tree) ==> Dom.Valid(t) by {
        if Dom.Valid(s.tree) { AppendChildValid(s.tree, at, n); }
      }
      Outcome(Diy(s.propList[id := Some(n)], s.groups, t, s.widgets[n := w], s.headers, n + 1), Ok(()))
  }

  /** The inner loop of `createPropGroup` over the members `ps`. */
  function FillTab(s: Diy, at: Place, ps: seq<Prop>): (o: Outcome<()>)
    requires at in s.tree.kids
    ensures OnlyAdds(s, o.s) && o.s.groups == s.groups && o.s.headers == s.headers
    ensures Dom.Valid(s.tree) ==> Dom.Valid(o.s.tree)
    ensures o.r.Ok? ==> Fills(s.propList, o.s.propList, ps)
    ensures forall id :: NotAMember(id, ps) ==> Keeps(s.propList, o.s.propList, id)
    decreases |ps|
  {
    if ps == [] then Outcome(s, Ok(()))
    else
      var o1 := AddMember(s, at, ps[0]);
      if o1.r.Err? then
        assert forall id :: NotAMember(id, ps) ==> id != GeneratePropId(ps[0]);
        o1
      else
        var o := FillTab(o1.s, at, ps[1..]);
        assert o.r.Ok? ==> Fills(s.propList, o.s.propList, ps) by {
          if o.r.Ok? { FillsStep(s.propList, o1.s.propList, o.s.propList, ps, s.nextId); }
        }
        KeepsStep(s.propList, o1.s.propList, o.s.propList, ps);
        o
  }

  /** One member's write and the rest's keep every other identity. */
  lemma KeepsStep(pl: map<string, Option<NodeId>>, pl1: map<string, Option<NodeId>>,
                  pl2: map<string, Option<NodeId>>, ps: seq<Prop>)
    requires ps != []
    requires forall id :: id != GeneratePropId(ps[0]) ==> Keeps(pl, pl1, id)
    requires forall id :: NotAMember(id, ps[1..]) ==> Keeps(pl1, pl2, id)
    ensures forall id :: NotAMember(id, ps) ==> Keeps(pl, pl2, id)
  {
    forall id | NotAMember(id, ps) ensures Keeps(pl, pl2, id) {
      assert GeneratePropId(ps[0]) != id;
      forall j | 0 <= j < |ps[1..]| ensures GeneratePropId(ps[1..][j]) != id {
        assert ps[1..][j] == ps[j + 1] && 0 <= j + 1 < |ps|;
        assert GeneratePropId(ps[j + 1]) != id;
      }
      assert Keeps(pl, pl1, id) && Keeps(pl1, pl2, id);
    }
  }

  /** One bucket's members and the other buckets' keep every other identity. */
  lemma KeepsAllStep(pl: map<string, Option<NodeId>>, pl1: map<string, Option<NodeId>>,
                     pl2: map<string, Option<NodeId>>, tabs: seq<seq<Prop>>)
    requires tabs != []
    requires forall id :: NotAMember(id, tabs[0]) ==> Keeps(pl, pl1, id)
    requires forall id :: NoMember(id, tabs[1..]) ==> Keeps(pl1, pl2, id)
    ensures forall id :: NoMember(id, tabs) ==> Keeps(pl, pl2, id)
  {
    forall id | NoMember(id, tabs) ensures Keeps(pl, pl2, id) {
      assert NotAMember(id, tabs[0]);
      forall i | 0 <= i < |tabs[1..]| ensures NotAMember(id, tabs[1..][i]) {
        assert tabs[1..][i] == tabs[i + 1] && 0 <= i + 1 < |tabs|;
        assert NotAMember(id, tabs[i + 1]);
      }
      assert Keeps(pl, pl1, id) && Keeps(pl1, pl2, id);
    }
  }

  /** `pl2` keeps every widget of `pl` and has one for each of `ps`. */
  ghost predicate Fills(pl: map<string, Option<NodeId>>, pl2: map<string, Option<NodeId>>, ps: seq<Prop>) {
    (forall id :: HasWidget(pl, id) ==> HasWidget(pl2, id))
    && forall j :: 0 <= j < |ps| ==> HasWidget(pl2, GeneratePropId(ps[j]))
  }

  lemma FillsStep(pl: map<string, Option<NodeId>>, pl1: map<string, Option<NodeId>>,
                  pl2: map<string, Option<NodeId>>, ps: seq<Prop>, n: NodeId)
    requires ps != [] && pl1 == pl[GeneratePropId(ps[0]) := Some(n)]
    requires Fills(pl1, pl2, ps[1..])
    ensures Fills(pl, pl2, ps)
  {
    forall j | 0 <= j < |ps|
      ensures HasWidget(pl2, GeneratePropId(ps[j]))
    {
      if j > 0 { assert ps[j] == ps[1..][j - 1]; }
    }
  }

  /** One pass of the outer loop of `createPropGroup`: the header button
      and the tab content area named after the first member's group, the
      group registered under `group.id || 'default'` (which throws after
      `close`), then the members. */
  function AddBucket(s: Diy, g: NodeId, bucket: seq<Prop>): (o: Outcome<()>)
    requires g in s.headers
    ensures OnlyAdds(s, o.s) && o.s.headers.Keys == s.headers.Keys
    ensures Dom.Valid(s.tree) ==> Dom.Valid(o.s.tree)
    ensures o.r.Ok? ==> bucket != [] && !bucket[0].group.NoGroup?
                        && o.s.headers == s.headers[g := s.headers[g] + [TabName(bucket[0].group)]]
                        && s.groups.Some? && o.s.groups == Some(s.groups.value[GroupKey(bucket[0].group) := g])
    ensures bucket == [] || bucket[0].group.NoGroup? ==> o == Outcome(s, Err(BucketWithoutGroup))
    ensures bucket != [] && !bucket[0].group.NoGroup? && s.groups.None? ==> o.r == Err(GroupsMissing)
    ensures o.r.Ok? ==> Fills(s.propList, o.s.propList, bucket) && Tab(g, TabName(bucket[0].group)) in o.s.tree.kids
    ensures forall id :: NotAMember(id, bucket) ==> Keeps(s.propList, o.s.propList, id)
  {
    if bucket == [] || bucket[0].group.NoGroup? then Outcome(s, Err(BucketWithoutGroup))
    else
      var base := bucket[0].group;
      var at := Tab(g, TabName(base));
      var s1 := s.(tree := EnsurePlace(s.tree, at), headers := s.headers[g := s.headers[g] + [TabName(base)]]);
      if s1.groups.None? then Outcome(s1, Err(GroupsMissing))
      else FillTab(s1.(groups := Some(s1.groups.value[GroupKey(base) := g])), at, bucket)
  }

  /** The outer loop of `createPropGroup`, over the buckets `tabs`. */
  function AddBuckets(s: Diy, g: NodeId, tabs: seq<seq<Prop>>): (o: Outcome<()>)
    requires g in s.headers
    ensures OnlyAdds(s, o.s) && o.s.headers.Keys == s.headers.Keys
    ensures Dom.Valid(s.tree) ==> Dom.Valid(o.s.tree)
    ensures o.r.Ok? ==> o.s.headers[g] == s.headers[g] + BucketNames(tabs)
    ensures o.r.Ok? ==> FillsAll(s.propList, o.s.propList, o.s.tree.kids, g, tabs)
    ensures forall id :: NoMember(id, tabs) ==> Keeps(s.propList, o.s.propList, id)
    decreases |tabs|
  {
    if tabs == [] then Outcome(s, Ok(()))
    else
      var o1 := AddBucket(s, g, tabs[0]);
      if o1.r.Err? then
        assert forall id :: NoMember(id, tabs) ==> NotAMember(id, tabs[0]);
        o1
      else
        var o := AddBuckets(o1.s, g, tabs[1..]);
        assert o.r.Ok? ==> o.s.headers[g] == s.headers[g] + BucketNames(tabs)
                           && FillsAll(s.propList, o.s.propList, o.s.tree.kids, g, tabs) by {
          if o.r.Ok? {
            ConcatAssoc(s.headers[g], [TabName(tabs[0][0].group)], BucketNames(tabs[1..]));
            FillsAllStep(s.propList, o1.s.propList, o.s.propList, o1.s.tree.kids, o.s.tree.kids, g, tabs);
          }
        }
        KeepsAllStep(s.propList, o1.s.propList, o.s.propList, tabs);
        o
  }

  /** `pl2` keeps every widget of `pl`, has one for every member of `tabs`,
      and `kids` has every bucket's content area in group `g`. */
  ghost predicate FillsAll(pl: map<string, Option<NodeId>>, pl2: map<string, Option<NodeId>>,
                           kids: map<Place, seq<NodeId>>, g: NodeId, tabs: seq<seq<Prop>>) {
    (forall id :: HasWidget(pl, id) ==> HasWidget(pl2, id))
    && forall i, j :: 0 <= i < |tabs| && 0 <= j < |tabs[i]| ==>
         HasWidget(pl2, GeneratePropId(tabs[i][j])) && Tab(g, TabName(tabs[i][0].group)) in kids
  }

  lemma FillsAllStep(pl: map<string, Option<NodeId>>, pl1: map<string, Option<NodeId>>,
                     pl2: map<string, Option<NodeId>>, kids1: map<Place, seq<NodeId>>,
                     kids2: map<Place, seq<NodeId>>, g: NodeId, tabs: seq<seq<Prop>>)
    requires tabs != [] && tabs[0] != [] && Fills(pl, pl1, tabs[0])
    requires Tab(g, TabName(tabs[0][0].group)) in kids1 && kids1.Keys <= kids2.Keys
    requires FillsAll(pl1, pl2, kids2, g, tabs[1..])
    ensures FillsAll(pl, pl2, kids2, g, tabs)
  {
    forall i, j | 0 <= i < |tabs| && 0 <= j < |tabs[i]|
      ensures HasWidget(pl2, GeneratePropId(tabs[i][j])) && Tab(g, TabName(tabs[i][0].group)) in kids2
    {
      if i > 0 { assert tabs[i] == tabs[1..][i - 1]; }
    }
  }

  lemma ConcatAssoc<T>(a: seq<T>, b: seq<T>, c: seq<T>)
    ensures (a + b) + c == a + (b + c)
  {
  }

  /** `createPropGroup($panel, propGroup)`: a new tab group, filled bucket
      by bucket; it is returned detached. */
  function PropGroup(s: Diy, tabs: seq<seq<Prop>>): (o: Outcome<NodeId>)
    ensures OnlyAdds(s, o.s)
    ensures Fresh(s) ==> s.nextId !in o.s.tree.parent
    ensures Dom.Valid(s.tree) ==> Dom.Valid(o.s.tree)
    ensures o.r.Ok? ==> o.r.value == s.nextId && s.nextId in o.s.headers && o.s.headers[s.nextId] == BucketNames(tabs)
    ensures o.r.Ok? ==> forall i, j :: 0 <= i < |tabs| && 0 <= j < |tabs[i]| ==>
                          HasWidget(o.s.propList, GeneratePropId(tabs[i][j]))
                          && Tab(s.nextId, TabName(tabs[i][0].group)) in o.s.tree.kids
    ensures forall id :: NoMember(id, tabs) ==> Keeps(s.propList, o.s.propList, id)
  {
    var o := AddBuckets(Opened(s), s.nextId, tabs);
    assert [] + BucketNames(tabs) == BucketNames(tabs);
    Outcome(o.s, if o.r.Err? then Err(o.r.fault) else Ok(s.nextId))
  }

  /** The new, empty tab group `s.nextId` with its header. */
  function Opened(s: Diy): (r: Diy)
    ensures OnlyAdds(s, r) && s.nextId in r.headers && r.tree == s.tree && r.nextId == s.nextId + 1
  {
    s.(headers := s.headers[s.nextId := []], nextId := s.nextId + 1)
  }

  // ---- createPropElement ----

  /** `createPropElement($panel, propId, prop)`: a bucket list becomes a
      tab group, which is not stored under `propId`; a single property
      becomes `createArrayProp`'s or `createByType`'s widget (or `null`),
      stored under `propId`. */
  function PropElement(s: Diy, propId: string, e: Entry): (o: Outcome<Option<NodeId>>)
    ensures OnlyAdds(s, o.s)
    ensures Dom.Valid(s.tree) ==> Dom.Valid(o.s.tree)
    ensures o.r.Ok? && o.r.value.Some? ==> o.r.value.value == s.nextId
    ensures Fresh(s) && o.r.Ok? && o.r.value.Some? ==> s.nextId !in o.s.tree.parent
    ensures e.Single? ==> o.s.tree == s.tree && o.s.groups == s.groups
    ensures e.Single? && o.r.Ok? ==>
              o.s.propList == s.propList[propId := o.r.value] && (o.r.value.None? ==> o.s == s.(propList := o.s.propList))
    ensures e.Cluster? ==> forall id :: NoMember(id, e.tabs) ==> Keeps(s.propList, o.s.propList, id)
  {
    match e
    case Cluster(tabs) =>
      var o := PropGroup(s, tabs);
      Outcome(o.s, if o.r.Err? then Err(o.r.fault) else Ok(Some(o.r.value)))
    case Single(p) =>
      var made: Result<Option<WidgetSpec>> := if p.isArray then
                    (match ArrayProp(p) case Ok(w) => Ok(Some(w)) case Err(f) => Err(f))
                  else CreateByType(p);
      match made
      case Err(f) => Outcome(s, Err(f))
      case Ok(None) => Outcome(s.(propList := s.propList[propId := None]), Ok(None))
      case Ok(Some(w)) =>
        var n := s.nextId;
        Outcome(s.(propList := s.propList[propId := Some(n)], widgets := s.widgets[n := w], nextId := n + 1), Ok(Some(n)))
  }

  // ---- update ----

  /** The `if (!$prop)` branch of the pass over `propId`: a missing widget
      is created and appended to the end of the section (which throws on
      `null`); an existing one is left where it is, attached or not. */
  function EnsureWidget(s: Diy, propId: string, e: Entry): (o: Outcome<()>)
    requires Section in s.tree.kids
    ensures OnlyAdds(s, o.s)
    ensures Dom.Valid(s.tree) ==> Dom.Valid(o.s.tree)
    ensures !Missing(s.propList, propId) ==> o == Outcome(s, Ok(()))
  {
    if !Missing(s.propList, propId) then Outcome(s, Ok(()))
    else
      var o := PropElement(s, propId, e);
      match o.r
      case Err(f) => Outcome(o.s, Err(f))
      case Ok(None) => Outcome(o.s, Err(NullWidget))
      case Ok(Some(n)) =>
        var t := AppendChild(o.s.tree, Section, n);
        assert Dom.Valid(o.s.tree) ==> Dom.Valid(t) by {
          if Dom.Valid(o.s.tree) { AppendChildValid(o.s.tree, Section, n); }
        }
        Outcome(o.s.(tree := t), Ok(()))
  }

  // ---- what building touches ----

  /** Appending a member's new widget to `at` leaves every other children
      list as it was. */
  lemma AddMadeKeepsForest(s: Diy, at: Place, id: string, made: Result<Option<WidgetSpec>>)
    requires at in s.tree.kids && Fresh(s)
    ensures var o := AddMade(s, at, id, made);
            Fresh(o.s) && KeptBut(s.tree, o.s.tree, at)
  {
    if made.Ok? && made.value.Some? {
      AppendChildFresh(s.tree, at, s.nextId);
    }
  }

  lemma AddMemberKeepsForest(s: Diy, at: Place, p: Prop)
    requires at in s.tree.kids && Fresh(s)
    ensures var o := AddMember(s, at, p);
            Fresh(o.s) && KeptBut(s.tree, o.s.tree, at)
  {
    AddMadeKeepsForest(s, at, GeneratePropId(p), CreateByType(p));
  }

  /** Filling the tab content area `at` touches no other children list. */
  lemma {:induction false} FillTabKeepsForest(s: Diy, at: Place, ps: seq<Prop>)
    requires at in s.tree.kids && Fresh(s)
    ensures var o := FillTab(s, at, ps);
            Fresh(o.s) && KeptBut(s.tree, o.s.tree, at)
    decreases |ps|
  {
    if ps != [] {
      var o1 := AddMember(s, at, ps[0]);
      AddMemberKeepsForest(s, at, ps[0]);
      if o1.r.Ok? {
        FillTabKeepsForest(o1.s, at, ps[1..]);
      }
    }
  }

  /** One bucket touches only tab content areas of its own group `g`. */
  lemma AddBucketKeepsForest(s: Diy, g: NodeId, bucket: seq<Prop>)
    requires g in s.headers && Fresh(s)
    ensures var o := AddBucket(s, g, bucket);
            Fresh(o.s) && KeptOutside(s.tree, o.s.tree, g)
  {
    if bucket != [] && !bucket[0].group.NoGroup? {
      var base := bucket[0].group;
      var at := Tab(g, TabName(base));
      var s1 := s.(tree := EnsurePlace(s.tree, at), headers := s.headers[g := s.headers[g] + [TabName(base)]]);
      if s1.groups.Some? {
        var s2 := s1.(groups := Some(s1.groups.value[GroupKey(base) := g]));
        FillTabKeepsForest(s2, at, bucket);
      }
    }
  }

  /** All the buckets touch only tab content areas of group `g`. */
  lemma {:induction false} AddBucketsKeepsForest(s: Diy, g: NodeId, tabs: seq<seq<Prop>>)
    requires g in s.headers && Fresh(s)
    ensures var o := AddBuckets(s, g, tabs);
            Fresh(o.s) && KeptOutside(s.tree, o.s.tree, g)
    decreases |tabs|
  {
    if tabs != [] {
      var o1 := AddBucket(s, g, tabs[0]);
      AddBucketKeepsForest(s, g, tabs[0]);
      if o1.r.Ok? {
        AddBucketsKeepsForest(o1.s, g, tabs[1..]);
      }
    }
  }

  /** `createPropElement` touches no children list outside the tabs of the
      new group `s.nextId`: the section in particular is as it was. */
  lemma PropElementKeepsForest(s: Diy, propId: string, e: Entry)
    requires Fresh(s)
    ensures var o := PropElement(s, propId, e);
            Fresh(o.s) && KeptOutside(s.tree, o.s.tree, s.nextId)
  {
    if e.Cluster? {
      AddBucketsKeepsForest(Opened(s), s.nextId, e.tabs);
    }
  }

  /** The `if (!$prop)` branch appends exactly the new widget to the end
      of the section and touches no other children list outside the new
      group's tabs; when it throws, the section is as it was. */
  lemma EnsureWidgetAppends(s: Diy, propId: string, e: Entry)
    requires Section in s.tree.kids && Fresh(s)
    ensures var o := EnsureWidget(s, propId, e);
            Fresh(o.s) && (o.r.Err? ==> KeptOutside(s.tree, o.s.tree, s.nextId))
    ensures var o := EnsureWidget(s, propId, e);
            o.r.Ok? && Missing(s.propList, propId) ==>
              o.s.tree.kids[Section] == s.tree.kids[Section] + [s.nextId]
              && forall q :: q in s.tree.kids && q != Section && !(q.Tab? && q.group == s.nextId) ==>
                   q in o.s.tree.kids && o.s.tree.kids[q] == s.tree.kids[q]
  {
    if Missing(s.propList, propId) {
      var o := PropElement(s, propId, e);
      PropElementKeepsForest(s, propId, e);
      if o.r.Ok? && o.r.value.Some? {
        assert o.r.value.value == s.nextId < o.s.nextId;
        AppendChildFresh(o.s.tree, Section, s.nextId);
      }
    }
  }

  /** The widgets the removal loop detaches: those stored, right now, under
      an identity of `oldIds` that `newIds` does not hold. */
  function StaleNodes(pl: map<string, Option<NodeId>>, oldIds: set<string>, newIds: seq<string>): set<NodeId> {
    set id | id in oldIds && id !in newIds && id in pl && pl[id].Some? :: pl[id].value
  }

  /** `t` with every node of `x` detached. */
  function PruneAll(t: Tree, x: set<NodeId>): (r: Tree)
    ensures PrunedFrom(r, t, x)
  {
    Tree(map q | q in t.kids :: Without(t.kids[q], x), t.parent - x)
  }

  /** The removal loop `for (const id of oldPropList)`, which runs after
      every entry of the plan. */
  function Sweep(s: Diy, oldIds: set<string>, newIds: seq<string>): (r: Diy)
    ensures OnlyAdds(s, r) && r.propList == s.propList && r.nextId == s.nextId
    ensures r.tree.parent == s.tree.parent - StaleNodes(s.propList, oldIds, newIds)
    ensures Dom.Valid(s.tree) ==> Dom.Valid(r.tree)
  {
    var x := StaleNodes(s.propList, oldIds, newIds);
    assert Dom.Valid(s.tree) ==> Dom.Valid(PruneAll(s.tree, x)) by {
      if Dom.Valid(s.tree) { PruneValid(s.tree, x); }
    }
    s.(tree := PruneAll(s.tree, x))
  }

  /** The loop `for (const prop of visiblePropList)` from the entries
      `plan` on; `newIds` holds the identities pushed so far. */
  function RunPlan(s: Diy, oldIds: set<string>, newIds: seq<string>, plan: seq<Entry>): (o: Outcome<()>)
    requires Section in s.tree.kids
    ensures OnlyAdds(s, o.s)
    ensures Dom.Valid(s.tree) ==> Dom.Valid(o.s.tree)
    decreases |plan|
  {
    if plan == [] then Outcome(s, Ok(()))
    else
      var ids := newIds + [EntryId(plan[0])];
      var o1 := EnsureWidget(s, EntryId(plan[0]), plan[0]);
      if o1.r.Err? then o1 else RunPlan(Sweep(o1.s, oldIds, ids), oldIds, ids, plan[1..])
  }

  /** `value[key].visible`, kept in enumeration order. */
  function Visible(ps: seq<Prop>): (r: seq<Prop>)
    ensures forall p :: p in r <==> p in ps && p.visible
    ensures |r| <= |ps|
  {
    if ps == [] then []
    else if ps[0].visible then [ps[0]] + Visible(ps[1..])
    else Visible(ps[1..])
  }

  /** The visible filter keeps the enumeration order and every repeat:
      the visible properties of `a + b` are those of `a`, then those of
      `b`, and one property is kept exactly when it is visible. */
  lemma {:induction false} VisibleKeepsOrder(a: seq<Prop>, b: seq<Prop>)
    ensures Visible(a + b) == Visible(a) + Visible(b)
    ensures |a| == 1 ==> Visible(a) == (if a[0].visible then a else [])
  {
    VisibleAppend(a, b);
    if |a| == 1 {
      assert a[1..] == [];
    }
  }

  lemma {:induction false} VisibleAppend(a: seq<Prop>, b: seq<Prop>)
    ensures Visible(a + b) == Visible(a) + Visible(b)
  {
    if a == [] {
      assert a + b == b;
    } else {
      assert (a + b)[1..] == a[1..] + b;
      VisibleAppend(a[1..], b);
    }
  }

  /** `update(dump)`: nothing when no property is visible; otherwise one
      pass over the formatted plan against the identities registered
      before it. */
  function UpdatePass(s: Diy, dump: ComponentDump): (o: Outcome<()>)
    requires Section in s.tree.kids
    ensures OnlyAdds(s, o.s)
    ensures Dom.Valid(s.tree) ==> Dom.Valid(o.s.tree)
    ensures (forall i :: 0 <= i < |dump.value| ==> !dump.value[i].visible) ==> o == Outcome(s, Ok(()))
  {
    var visible := Visible(dump.value);
    if visible == [] then Outcome(s, Ok(()))
    else RunPlan(s, s.propList.Keys, [], FormatPlan(visible))
  }

  /** `close`: every tab group `$groups` holds is removed, and `$groups`
      becomes `undefined`. */
  function Closed(s: Diy): (r: Diy)
    ensures r.groups.None? && r.propList == s.propList
    ensures r.tree.parent == s.tree.parent - ClassInspector.CachedGroups(s.groups)
    ensures Dom.Valid(s.tree) ==> Dom.Valid(r.tree)
  {
    var x := ClassInspector.CachedGroups(s.groups);
    assert Dom.Valid(s.tree) ==> Dom.Valid(PruneAll(s.tree, x)) by {
      if Dom.Valid(s.tree) { PruneValid(s.tree, x); }
    }
    s.(groups := None, tree := PruneAll(s.tree, x))
  }

  /** The `diy-class.js` panel: the fields the listed functions read and
      write, updated in place. */
  class DiyPanel {
    var propList: map<string, Option<NodeId>>
    var groups: Option<map<string, NodeId>>
    var tree: Tree
    var widgets: map<NodeId, WidgetSpec>
    var headers: map<NodeId, seq<string>>
    var nextId: nat

    function State(): Diy
      reads this
    {
      Diy(propList, groups, tree, widgets, headers, nextId)
    }

    /** The panel as `ready` leaves it, on an empty section. */
    constructor ()
      ensures State() == Diy(map[], Some(map[]), Empty(), map[], map[], 0)
    {
      propList := map[];
      groups := Some(map[]);
      tree := Empty();
      widgets := map[];
      headers := map[];
      nextId := 0;
    }

    /** `ready`: fresh, empty `$propList` and `$groups`. */
    method Ready()
      modifies this
      ensures State() == old(State()).(propList := map[], groups := Some(map[]))
    {
      propList := map[];
      groups := Some(map[]);
    }

    /** `close`. */
    method Close()
      requires Dom.Valid(tree)
      modifies this
      ensures State() == Closed(old(State()))
    {
      var t0 := tree;
      if groups.Some? {
        tree := ClassInspector.DetachGroups(tree, groups.value);
      } else {
        PrunedNone(tree);
      }
      PrunedIsPruneAll(tree, t0, ClassInspector.CachedGroups(groups));
      groups := None;
    }

    /** One pass of the inner loop of `createPropGroup`. */
    method AppendMember(at: Place, p: Prop) returns (r: Result<()>)
      requires at in tree.kids
      modifies this
      ensures Outcome(State(), r) == AddMember(old(State()), at, p)
    {
      var id := GeneratePropId(p);
      var made := CreateByType(p);
      if made.Err? {
        return Err(made.fault);
      }
      if made.value.None? {
        propList := propList[id := None];
        return Err(NullWidget);
      }
      AddMemberIs(State(), at, p, made.value.value);
      var n := nextId;
      propList := propList[id := Some(n)];
      widgets := widgets[n := made.value.value];
      nextId := n + 1;
      tree := AppendChild(tree, at, n);
      return Ok(());
    }

    /** The inner loop of `createPropGroup`, filling the tab content area
        `at` with the widgets of `ps`. */
    method AppendMembers(at: Place, ps: seq<Prop>) returns (r: Result<()>)
      requires at in tree.kids
      modifies this
      ensures Outcome(State(), r) == FillTab(old(State()), at, ps)
    {
      var j := 0;
      while j < |ps|
        invariant 0 <= j <= |ps| && at in tree.kids
        invariant FillTab(State(), at, ps[j..]) == FillTab(old(State()), at, ps)
      {
        FillTabStep(State(), at, ps, j);
        var done := AppendMember(at, ps[j]);
        if done.Err? {
          return done;
        }
        j := j + 1;
      }
      assert ps[j..] == [];
      return Ok(());
    }

    /** One pass of the outer loop of `createPropGroup`, for the group `g`. */
    method AppendBucket(g: NodeId, bucket: seq<Prop>) returns (r: Result<()>)
      requires g in headers
      modifies this
      ensures Outcome(State(), r) == AddBucket(old(State()), g, bucket)
    {
      if bucket == [] || bucket[0].group.NoGroup? {
        return Err(BucketWithoutGroup);
      }
      var base := bucket[0].group;
      var name := TabName(base);
      headers := headers[g := headers[g] + [name]];
      tree := EnsurePlace(tree, Tab(g, name));
      if groups.None? {
        return Err(GroupsMissing);
      }
      groups := Some(groups.value[GroupKey(base) := g]);
      r := AppendMembers(Tab(g, name), bucket);
    }

    /** `createPropGroup($panel, propGroup)`. */
    method CreatePropGroup(tabs: seq<seq<Prop>>) returns (r: Result<NodeId>)
      modifies this
      ensures Outcome(State(), r) == PropGroup(old(State()), tabs)
    {
      var g := nextId;
      headers := headers[g := []];
      nextId := g + 1;
      ghost var s1 := Opened(old(State()));
      assert State() == s1;
      var i := 0;
      while i < |tabs|
        invariant 0 <= i <= |tabs| && g in headers
        invariant AddBuckets(State(), g, tabs[i..]) == AddBuckets(s1, g, tabs)
      {
        AddBucketsStep(State(), g, tabs, i);
        var done := AppendBucket(g, tabs[i]);
        if done.Err? {
          assert AddBuckets(s1, g, tabs) == Outcome(State(), done);
          return Err(done.fault);
        }
        i := i + 1;
      }
      assert tabs[i..] == [];
      assert AddBuckets(s1, g, tabs) == Outcome(State(), Ok(()));
      return Ok(g);
    }

    /** `createPropElement($panel, propId, prop)`. */
    method CreatePropElement(propId: string, e: Entry) returns (r: Result<Option<NodeId>>)
      modifies this
      ensures Outcome(State(), r) == PropElement(old(State()), propId, e)
    {
      if e.Cluster? {
        var group := CreatePropGroup(e.tabs);
        if group.Err? {
          return Err(group.fault);
        }
        return Ok(Some(group.value));
      }
      var made: Result<Option<WidgetSpec>>;
      if e.p.isArray {
        var arr := CreateArrayProp(e.p);
        made := if arr.Err? then Err(arr.fault) else Ok(Some(arr.value));
      } else {
        made := CreateByType(e.p);
      }
      if made.Err? {
        return Err(made.fault);
      }
      if made.value.None? {
        propList := propList[propId := None];
        return Ok(None);
      }
      var n := nextId;
      propList := propList[propId := Some(n)];
      widgets := widgets[n := made.value.value];
      nextId := n + 1;
      return Ok(Some(n));
    }

    /** The removal loop of `update`, over the identities `oldIds`
        registered before the pass, in any order. */
    method RemoveStale(oldIds: set<string>, newIds: seq<string>)
      requires Dom.Valid(tree)
      modifies this
      ensures State() == Sweep(old(State()), oldIds, newIds)
    {
      tree := DetachStale(tree, propList, oldIds, newIds);
    }

    /** The `if (!$prop)` branch of `update` for the entry `e`. */
    method PlaceEntry(propId: string, e: Entry) returns (r: Result<()>)
      requires Dom.Valid(tree)
      modifies this
      ensures Outcome(State(), r) == EnsureWidget(old(State()), propId, e)
    {
      r := Ok(());
      if Missing(propList, propId) {
        ghost var s0 := State();
        ghost var o := PropElement(s0, propId, e);
        EnsureWidgetCreates(s0, propId, e);
        var made := CreatePropElement(propId, e);
        assert State() == o.s && made == o.r;
        if made.Err? {
          r := Err(made.fault);
        } else if made.value.None? {
          r := Err(NullWidget);
        } else {
          tree := AppendChild(tree, Section, made.value.value);
          assert State() == o.s.(tree := AppendChild(o.s.tree, Section, o.r.value.value));
        }
      }
    }

    /** `update(dump)`. */
    method Update(dump: ComponentDump) returns (r: Result<()>)
      requires Dom.Valid(tree)
      modifies this
      ensures Dom.Valid(tree)
      ensures Outcome(State(), r) == UpdatePass(old(State()), dump)
    {
      var oldIds := propList.Keys;
      var visible := Visible(dump.value);
      if |visible| == 0 {
        return Ok(());
      }
      var plan := FormatPropList(visible);
      var newIds: seq<string> := [];
      var i := 0;
      while i < |plan|
        invariant 0 <= i <= |plan| && Dom.Valid(tree)
        invariant RunPlan(State(), oldIds, newIds, plan[i..]) == RunPlan(old(State()), oldIds, [], plan)
      {
        RunPlanStep(State(), oldIds, newIds, plan, i);
        var propId := EntryId(plan[i]);
        newIds := newIds + [propId];
        var placed := PlaceEntry(propId, plan[i]);
        if placed.Err? {
          return placed;
        }
        RemoveStale(oldIds, newIds);
        i := i + 1;
      }
      assert plan[i..] == [];
      return Ok(());
    }
  }

  lemma AddMemberIs(s: Diy, at: Place, p: Prop, w: WidgetSpec)
    requires at in s.tree.kids && CreateByType(p) == Ok(Some(w))
    ensures AddMember(s, at, p).s
            == Diy(s.propList[GeneratePropId(p) := Some(s.nextId)], s.groups, AppendChild(s.tree, at, s.nextId),
                   s.widgets[s.nextId := w], s.headers, s.nextId + 1)
  {
  }

  lemma AddBucketsStep(s: Diy, g: NodeId, tabs: seq<seq<Prop>>, i: nat)
    requires i < |tabs| && g in s.headers
    ensures AddBuckets(s, g, tabs[i..])
            == var o := AddBucket(s, g, tabs[i]); if o.r.Err? then o else AddBuckets(o.s, g, tabs[i + 1..])
  {
    assert tabs[i..][1..] == tabs[i + 1..];
  }

  lemma RunPlanStep(s: Diy, oldIds: set<string>, newIds: seq<string>, plan: seq<Entry>, i: nat)
    requires i < |plan| && Section in s.tree.kids
    ensures RunPlan(s, oldIds, newIds, plan[i..])
            == var ids := newIds + [EntryId(plan[i])];
               var o := EnsureWidget(s, EntryId(plan[i]), plan[i]);
               if o.r.Err? then o else RunPlan(Sweep(o.s, oldIds, ids), oldIds, ids, plan[i + 1..])
  {
    assert plan[i..][1..] == plan[i + 1..];
  }

  lemma FillTabStep(s: Diy, at: Place, ps: seq<Prop>, j: nat)
    requires j < |ps| && at in s.tree.kids
    ensures FillTab(s, at, ps[j..])
            == var o := AddMember(s, at, ps[j]); if o.r.Err? then o else FillTab(o.s, at, ps[j + 1..])
  {
    assert ps[j..][1..] == ps[j + 1..];
  }

  /** The loop of `RemoveStale` on the tree: `$prop.parentElement.removeChild($prop)`
      for the widget of every identity of `oldIds` that `newIds` lacks. */
  method DetachStale(t: Tree, pl: map<string, Option<NodeId>>, oldIds: set<string>, newIds: seq<string>)
    returns (r: Tree)
    requires Dom.Valid(t)
    ensures r == PruneAll(t, StaleNodes(pl, oldIds, newIds))
  {
    r := t;
    ghost var x: set<NodeId> := {};
    PrunedNone(t);
    var rest := oldIds;
    while rest != {}
      invariant SweptSoFar(r, t, pl, oldIds, rest, newIds, x)
      decreases rest
    {
      var id :| id in rest;
      SweepOne(r, t, pl, oldIds, rest, newIds, x, id);
      if id !in newIds && id in pl && pl[id].Some? {
        var w := pl[id].value;
        if w in r.parent {
          r := Detach(r, w);
        }
        x := x + {w};
      }
      rest := rest - {id};
    }
    assert oldIds - rest == oldIds;
    PrunedIsPruneAll(r, t, x);
  }

  /** The branch that creates: as `createPropElement` leaves it, with the
      new widget appended to the section. */
  lemma EnsureWidgetCreates(s: Diy, propId: string, e: Entry)
    requires Section in s.tree.kids && Missing(s.propList, propId)
    ensures var o := PropElement(s, propId, e);
            EnsureWidget(s, propId, e)
            == if o.r.Err? then Outcome(o.s, Err(o.r.fault))
               else if o.r.value.None? then Outcome(o.s, Err(NullWidget))
               else Outcome(o.s.(tree := AppendChild(o.s.tree, Section, o.r.value.value)), Ok(()))
  {
  }

  /** The invariant of the removal loop: the identities handled so far are
      those of `oldIds` outside `rest`, and exactly their stale widgets `x`
      have been detached. */
  ghost predicate SweptSoFar(t: Tree, t0: Tree, pl: map<string, Option<NodeId>>, oldIds: set<string>,
                             rest: set<string>, newIds: seq<string>, x: set<NodeId>) {
    rest <= oldIds && Dom.Valid(t) && PrunedFrom(t, t0, x) && x == StaleNodes(pl, oldIds - rest, newIds)
  }

  /** One pass of the removal loop, for the identity `id`. */
  lemma SweepOne(t: Tree, t0: Tree, pl: map<string, Option<NodeId>>, oldIds: set<string>,
                 rest: set<string>, newIds: seq<string>, x: set<NodeId>, id: string)
    requires SweptSoFar(t, t0, pl, oldIds, rest, newIds, x) && id in rest
    ensures id !in newIds && id in pl && pl[id].Some? ==>
              var w := pl[id].value;
              SweptSoFar(if w in t.parent then Detach(t, w) else t, t0, pl, oldIds, rest - {id}, newIds, x + {w})
    ensures !(id !in newIds && id in pl && pl[id].Some?) ==>
              SweptSoFar(t, t0, pl, oldIds, rest - {id}, newIds, x)
  {
    StaleNodesStep(pl, oldIds - rest, id, newIds);
    DoneGrows(oldIds, rest, id);
    if id !in newIds && id in pl && pl[id].Some? {
      var w := pl[id].value;
      DetachKids(t, w);
      DetachValid(t, w);
      PrunedStep(t, t0, x, w);
    }
  }

  lemma DoneGrows(all: set<string>, rest: set<string>, id: string)
    requires id in rest && rest <= all
    ensures all - (rest - {id}) == (all - rest) + {id}
  {
  }

  /** One more identity of `oldIds` handled by the removal loop. */
  lemma StaleNodesStep(pl: map<string, Option<NodeId>>, done: set<string>, id: string, newIds: seq<string>)
    ensures StaleNodes(pl, done + {id}, newIds)
            == StaleNodes(pl, done, newIds)
               + (if id !in newIds && id in pl && pl[id].Some? then {pl[id].value} else {})
  {
  }

  // ---- what a pass does ----

  /** The reuse branch does nothing: a widget that is detached when the
      pass starts is not attached again by it, even when its identity is
      in the plan. */
  lemma DetachedStaysDetached(s: Diy, oldIds: set<string>, newIds: seq<string>, plan: seq<Entry>, w: NodeId)
    requires Section in s.tree.kids && w < s.nextId && w !in s.tree.parent
    ensures w !in RunPlan(s, oldIds, newIds, plan).s.tree.parent
  {
  }

  /** The removal loop runs after every entry, so after the first entry it
      detaches the widget of every identity the pass has not reached yet:
      once the first entry has its widget, found or created, the widget
      that any later entry `j` registered before the pass has at that point
      ends the pass detached (and, by `DetachedStaysDetached`, the next
      pass does not bring it back). */
  lemma {:induction false} LaterEntryDetached(s: Diy, plan: seq<Entry>, j: nat, w: NodeId)
    requires Section in s.tree.kids && 0 < j < |plan|
    requires EntryId(plan[j]) != EntryId(plan[0]) && EntryId(plan[j]) in s.propList
    requires EnsureWidget(s, EntryId(plan[0]), plan[0]).r.Ok?
    requires var s0 := EnsureWidget(s, EntryId(plan[0]), plan[0]).s;
             EntryId(plan[j]) in s0.propList && s0.propList[EntryId(plan[j])] == Some(w) && w < s0.nextId
    ensures w !in RunPlan(s, s.propList.Keys, [], plan).s.tree.parent
  {
    RunPlanFirst(s, s.propList.Keys, plan);
    GoneAfterFirst(EnsureWidget(s, EntryId(plan[0]), plan[0]).s, s.propList.Keys, EntryId(plan[0]),
                   plan[1..], EntryId(plan[j]), w);
  }

  /** A pass whose first entry gets its widget goes on with the removal
      loop after that entry. */
  lemma RunPlanFirst(s: Diy, oldIds: set<string>, plan: seq<Entry>)
    requires Section in s.tree.kids && plan != []
    ensures var o := EnsureWidget(s, EntryId(plan[0]), plan[0]);
            o.r.Ok? ==> Section in o.s.tree.kids
                        && RunPlan(s, oldIds, [], plan)
                           == RunPlan(Sweep(o.s, oldIds, [EntryId(plan[0])]), oldIds, [EntryId(plan[0])], plan[1..])
  {
    assert [] + [EntryId(plan[0])] == [EntryId(plan[0])];
  }

  /** After the removal loop of the first entry `id0`, the widget `w` of
      another identity registered before the pass is detached for good. */
  lemma GoneAfterFirst(s0: Diy, oldIds: set<string>, id0: string, rest: seq<Entry>, id: string, w: NodeId)
    requires Section in s0.tree.kids && id in oldIds && id != id0
    requires id in s0.propList && s0.propList[id] == Some(w) && w < s0.nextId
    ensures w !in RunPlan(Sweep(s0, oldIds, [id0]), oldIds, [id0], rest).s.tree.parent
  {
    assert w in StaleNodes(s0.propList, oldIds, [id0]);
    DetachedStaysDetached(Sweep(s0, oldIds, [id0]), oldIds, [id0], rest, w);
  }

  /** A tab group is never stored under its entry's identity, so every
      pass builds it again and appends the new group to the section; the
      members, whose identities the previous pass registered, are
      registered to the new widgets and then detached by the removal loop
      of the same entry. The rebuilt group is left with an empty tab. */
  lemma {:induction false} RebuiltGroupLosesMembers(s: Diy, p: Prop, w: WidgetSpec)
    requires Section in s.tree.kids && Allocated(s) && s.groups.Some?
    requires Missing(s.propList, ClusterId)
    requires !p.group.NoGroup? && CreateByType(p) == Ok(Some(w))
    requires GeneratePropId(p) in s.propList && GeneratePropId(p) != ClusterId
    ensures LostMembers(s, p, RunPlan(s, s.propList.Keys, [], [Cluster([[p]])]))
  {
    var keys := s.propList.Keys;
    RebuiltPlaced(s, p, w);
    var placed := EnsureWidget(s, ClusterId, Cluster([[p]]));
    SweptLoses(s, p, placed, keys);
    RunPlanSingle(s, keys, [Cluster([[p]])]);
  }

  /** The removal loop after the rebuilt group: the member's widget is
      stale, the group is not. */
  lemma SweptLoses(s: Diy, p: Prop, placed: Outcome<()>, keys: set<string>)
    requires Missing(s.propList, ClusterId)
    requires GeneratePropId(p) in keys && GeneratePropId(p) != ClusterId
    requires placed.r.Ok? && placed.s.propList == s.propList[GeneratePropId(p) := Some(s.nextId + 1)]
    requires placed.s.tree.parent == s.tree.parent[s.nextId + 1 := Tab(s.nextId, TabName(p.group))][s.nextId := Section]
    requires forall id :: id in placed.s.propList && placed.s.propList[id] == Some(s.nextId) ==> id in [ClusterId]
    ensures LostMembers(s, p, Outcome(Sweep(placed.s, keys, [ClusterId]), Ok(())))
  {
    var x := StaleNodes(placed.s.propList, keys, [ClusterId]);
    assert s.nextId + 1 in x by {
      assert GeneratePropId(p) !in [ClusterId];
    }
    NotStale(placed.s.propList, keys, [ClusterId], s.nextId);
  }

  /** A pass over a plan of one entry. */
  lemma RunPlanSingle(s: Diy, oldIds: set<string>, plan: seq<Entry>)
    requires Section in s.tree.kids && |plan| == 1
    ensures var o := EnsureWidget(s, EntryId(plan[0]), plan[0]);
            RunPlan(s, oldIds, [], plan) == if o.r.Err? then o else Outcome(Sweep(o.s, oldIds, [EntryId(plan[0])]), Ok(()))
  {
    RunPlanStep(s, oldIds, [], plan, 0);
    assert plan[0..] == plan && plan[1..] == [] && [] + [EntryId(plan[0])] == [EntryId(plan[0])];
  }

  /** The pass over one tab group with the member `p` succeeded; the new
      group `s.nextId` hangs in the section; `p`'s identity is registered
      to the new member widget, which is detached; and the group is still
      missing from `$propList`. */
  predicate LostMembers(s: Diy, p: Prop, o: Outcome<()>) {
    && o.r.Ok? && GeneratePropId(p) in o.s.propList
    && s.nextId in o.s.tree.parent && o.s.tree.parent[s.nextId] == Section
    && o.s.propList[GeneratePropId(p)] == Some(s.nextId + 1)
    && s.nextId + 1 !in o.s.tree.parent
    && Missing(o.s.propList, ClusterId)
  }

  /** The tab group of `RebuiltGroupLosesMembers`, appended to the section. */
  lemma RebuiltPlaced(s: Diy, p: Prop, w: WidgetSpec)
    requires Section in s.tree.kids && Allocated(s) && s.groups.Some?
    requires Missing(s.propList, ClusterId)
    requires !p.group.NoGroup? && CreateByType(p) == Ok(Some(w)) && GeneratePropId(p) != ClusterId
    ensures var o := EnsureWidget(s, ClusterId, Cluster([[p]]));
            && o.r.Ok?
            && o.s.propList == s.propList[GeneratePropId(p) := Some(s.nextId + 1)]
            && o.s.tree.parent == s.tree.parent[s.nextId + 1 := Tab(s.nextId, TabName(p.group))][s.nextId := Section]
            && forall id :: id in o.s.propList && o.s.propList[id] == Some(s.nextId) ==> id in [ClusterId]
  {
    GroupOfOne(s, p, w);
    EnsureWidgetCreates(s, ClusterId, Cluster([[p]]));
  }

  lemma NotStale(pl: map<string, Option<NodeId>>, oldIds: set<string>, newIds: seq<string>, n: NodeId)
    requires forall id :: id in pl && pl[id] == Some(n) ==> id in newIds
    ensures n !in StaleNodes(pl, oldIds, newIds)
  {
  }

  /** `createPropElement` on a plan entry of one bucket with one member. */
  lemma {:induction false} GroupOfOne(s: Diy, p: Prop, w: WidgetSpec)
    requires s.groups.Some? && !p.group.NoGroup? && CreateByType(p) == Ok(Some(w))
    ensures var o := PropElement(s, ClusterId, Cluster([[p]]));
            && o.r == Ok(Some(s.nextId))
            && o.s.propList == s.propList[GeneratePropId(p) := Some(s.nextId + 1)]
            && o.s.tree.parent == s.tree.parent[s.nextId + 1 := Tab(s.nextId, TabName(p.group))]
            && o.s.nextId == s.nextId + 2
  {
    var g := s.nextId;
    var at := Tab(g, TabName(p.group));
    var s0 := Opened(s);
    var s1 := s0.(tree := EnsurePlace(s0.tree, at), headers := s0.headers[g := s0.headers[g] + [TabName(p.group)]]);
    var s2 := s1.(groups := Some(s1.groups.value[GroupKey(p.group) := g]));
    var a := AddMember(s2, at, p);
    assert FillTab(s2, at, [p]) == a by {
      assert [p][1..] == [];
    }
    assert AddBucket(s0, g, [p]) == a;
    assert AddBuckets(s0, g, [[p]]) == a by {
      assert [[p]][1..] == [];
    }
  }

  /** `close` detaches every tab group it knows of, which takes every
      widget in their tabs out of the document. */
  lemma ClosedDetachesGroups(s: Diy, n: NodeId)
    requires n in Closed(s).tree.parent && Closed(s).tree.parent[n].Tab?
    requires Closed(s).tree.parent[n].group in ClassInspector.CachedGroups(s.groups)
    ensures !Connected(Closed(s).tree, n)
  {
  }

  // ---- pruning ----

  /** Detaching a set of nodes keeps the forest valid. */
  lemma PruneValid(t: Tree, x: set<NodeId>)
    requires Dom.Valid(t)
    ensures Dom.Valid(PruneAll(t, x))
  {
    PrunedValid(PruneAll(t, x), t, x);
  }

  lemma PrunedValid(r: Tree, t: Tree, x: set<NodeId>)
    requires Dom.Valid(t) && PrunedFrom(r, t, x)
    ensures Section in r.kids
    ensures forall n :: n in r.parent ==> r.parent[n] in r.kids && n in r.kids[r.parent[n]]
    ensures forall p :: p in r.kids ==> Distinct(r.kids[p])
    ensures forall p, n :: p in r.kids && n in r.kids[p] ==> n in r.parent && r.parent[n] == p
  {
    forall q | q in t.kids
      ensures Distinct(r.kids[q]) && forall n :: n in r.kids[q] <==> n in t.kids[q] && n !in x
    {
      WithoutMembers(t.kids[q], x);
    }
    assert Section in r.kids;
    assert forall p :: p in r.kids ==> Distinct(r.kids[p]);
    forall n | n in r.parent ensures r.parent[n] in r.kids && n in r.kids[r.parent[n]] {
      assert n in t.kids[t.parent[n]] && n !in x;
    }
    forall p, n | p in r.kids && n in r.kids[p] ensures n in r.parent && r.parent[n] == p {
      assert n in t.kids[p] && n !in x;
    }
  }

  /** A pruned tree is determined by what was pruned. */
  lemma PrunedIsPruneAll(t: Tree, t0: Tree, x: set<NodeId>)
    requires PrunedFrom(t, t0, x)
    ensures t == PruneAll(t0, x)
  {
    var r := PruneAll(t0, x);
    assert t.kids == r.kids;
  }
}
