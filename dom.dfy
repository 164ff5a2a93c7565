/** The part of the DOM the panels touch, as a value: the ordered children of
    every place a widget or a group can be put in, and the parent relation.
    A place is the panel's root `<section>` or one tab content area of a
    tab group. A node without an entry in `parent` is detached. */
module Dom {
  import opened Dump

  type NodeId = nat

  datatype Place = Section | Tab(group: NodeId, name: string)

  datatype Tree = Tree(kids: map<Place, seq<NodeId>>, parent: map<NodeId, Place>)

  predicate Distinct(s: seq<NodeId>) {
    forall i, j :: 0 <= i < j < |s| ==> s[i] != s[j]
  }

  /** `parent` and the children lists describe the same forest, and no
      list holds a node twice. */
  predicate Valid(t: Tree) {
    Section in t.kids
    && (forall n :: n in t.parent ==> t.parent[n] in t.kids && n in t.kids[t.parent[n]])
    && (forall p :: p in t.kids ==> Distinct(t.kids[p]))
    && (forall p, n :: p in t.kids && n in t.kids[p] ==> n in t.parent && t.parent[n] == p)
  }

  /** The empty `<section>` of a freshly mounted panel. */
  function Empty(): (t: Tree)
    ensures Valid(t) && t.parent == map[] && t.kids[Section] == []
  {
    Tree(map[Section := []], map[])
  }

  /** `Node.isConnected`, for a panel whose section is in the document:
      the node hangs in the section, or in a tab of a group that does. */
  predicate Connected(t: Tree, n: NodeId) {
    n in t.parent &&
    (t.parent[n].Section? ||
     (t.parent[n].group in t.parent && t.parent[t.parent[n].group].Section?))
  }

  /** `s` without the members of `x`, the rest in order. */
  function Without(s: seq<NodeId>, x: set<NodeId>): (r: seq<NodeId>)
    ensures |r| <= |s|
  {
    if s == [] then []
    else if s[0] in x then Without(s[1..], x)
    else [s[0]] + Without(s[1..], x)
  }

  /** `Without` keeps the remaining order: the list of `a + b` without `x`
      is that of `a`, then that of `b`, and one node stays exactly when it
      is outside `x`. */
  lemma {:induction false} WithoutKeepsOrder(a: seq<NodeId>, b: seq<NodeId>, x: set<NodeId>)
    ensures Without(a + b, x) == Without(a, x) + Without(b, x)
    ensures |a| == 1 ==> Without(a, x) == (if a[0] in x then [] else a)
  {
    WithoutAppend(a, b, x);
    if |a| == 1 {
      assert a[1..] == [];
    }
  }

  lemma {:induction false} WithoutAppend(a: seq<NodeId>, b: seq<NodeId>, x: set<NodeId>)
    ensures Without(a + b, x) == Without(a, x) + Without(b, x)
  {
    if a == [] {
      assert a + b == b;
    } else {
      assert (a + b)[1..] == a[1..] + b;
      WithoutAppend(a[1..], b, x);
    }
  }

  /** `Without` keeps exactly the members outside `x`, and keeps a list
      free of repeats. */
  lemma {:induction false} WithoutMembers(s: seq<NodeId>, x: set<NodeId>)
    ensures forall n :: n in Without(s, x) <==> n in s && n !in x
    ensures Distinct(s) ==> Distinct(Without(s, x))
  {
    if s != [] {
      WithoutMembers(s[1..], x);
      assert forall n :: n in s <==> n == s[0] || n in s[1..];
      if Distinct(s) {
        assert Distinct(s[1..]);
      }
    }
  }

  lemma {:induction false} WithoutNoop(s: seq<NodeId>, x: set<NodeId>)
    requires forall n :: n in s ==> n !in x
    ensures Without(s, x) == s
  {
    if s != [] {
      WithoutNoop(s[1..], x);
    }
  }

  lemma {:induction false} WithoutTwice(s: seq<NodeId>, a: set<NodeId>, b: set<NodeId>)
    ensures Without(Without(s, a), b) == Without(s, a + b)
  {
    if s != [] {
      WithoutTwice(s[1..], a, b);
      if s[0] !in a {
        assert ([s[0]] + Without(s[1..], a))[1..] == Without(s[1..], a);
      }
    }
  }

  lemma {:induction false} WithoutSplice(s: seq<NodeId>, i: nat, n: NodeId)
    requires i <= |s| && n !in s
    ensures Without(s[..i] + [n] + s[i..], {n}) == s
  {
    if i == 0 {
      assert (s[..i] + [n] + s[i..])[1..] == s;
      WithoutNoop(s, {n});
    } else {
      var u := s[..i] + [n] + s[i..];
      assert u[0] == s[0];
      assert u[1..] == s[1..][..i - 1] + [n] + s[1..][i - 1..];
      WithoutSplice(s[1..], i - 1, n);
    }
  }

  /** `parent.removeChild(n)`, or nothing when `n` has no parent. */
  function Detach(t: Tree, n: NodeId): (r: Tree)
    ensures r.kids.Keys == t.kids.Keys
    ensures r.parent == t.parent - {n}
    ensures n !in t.parent ==> r == t
  {
    if n in t.parent && t.parent[n] in t.kids then
      var p := t.parent[n];
      Tree(t.kids[p := Without(t.kids[p], {n})], t.parent - {n})
    else
      assert n !in t.parent ==> t.parent - {n} == t.parent;
      Tree(t.kids, t.parent - {n})
  }

  /** Detaching clears `n` out of every children list. */
  lemma DetachKids(t: Tree, n: NodeId)
    requires Valid(t)
    ensures forall q :: q in t.kids ==> Detach(t, n).kids[q] == Without(t.kids[q], {n})
  {
    forall q | q in t.kids ensures Detach(t, n).kids[q] == Without(t.kids[q], {n}) {
      if !(n in t.parent && t.parent[n] == q) {
        assert n !in t.kids[q];
        WithoutNoop(t.kids[q], {n});
      }
    }
  }

  lemma DetachParents(t: Tree, n: NodeId)
    requires Valid(t)
    ensures var r := Detach(t, n);
            forall m :: m in r.parent ==> r.parent[m] in r.kids && m in r.kids[r.parent[m]]
  {
    var r := Detach(t, n);
    forall m | m in r.parent ensures r.parent[m] in r.kids && m in r.kids[r.parent[m]] {
      var q := t.parent[m];
      if n in t.parent && t.parent[n] == q {
        assert r.kids[q] == Without(t.kids[q], {n});
        WithoutMembers(t.kids[q], {n});
      } else {
        assert r.kids[q] == t.kids[q];
      }
    }
  }

  lemma DetachDistinct(t: Tree, n: NodeId)
    requires Valid(t)
    ensures var r := Detach(t, n);
            forall q :: q in r.kids ==> Distinct(r.kids[q])
  {
    var r := Detach(t, n);
    forall q | q in r.kids ensures Distinct(r.kids[q]) {
      if n in t.parent && t.parent[n] == q {
        assert r.kids[q] == Without(t.kids[q], {n});
        WithoutMembers(t.kids[q], {n});
      } else {
        assert r.kids[q] == t.kids[q];
      }
    }
  }

  lemma DetachChildren(t: Tree, n: NodeId)
    requires Valid(t)
    ensures var r := Detach(t, n);
            forall q, m :: q in r.kids && m in r.kids[q] ==> m in r.parent && r.parent[m] == q
  {
    var r := Detach(t, n);
    forall q, m | q in r.kids && m in r.kids[q] ensures m in r.parent && r.parent[m] == q {
      if n in t.parent && t.parent[n] == q {
        assert r.kids[q] == Without(t.kids[q], {n});
        WithoutMembers(t.kids[q], {n});
      } else {
        assert r.kids[q] == t.kids[q];
      }
    }
  }

  /** Detaching keeps the forest valid. */
  lemma DetachValid(t: Tree, n: NodeId)
    requires Valid(t)
    ensures Valid(Detach(t, n))
  {
    DetachParents(t, n);
    DetachDistinct(t, n);
    DetachChildren(t, n);
  }

  /** `t` is `t0` with every node of `x` detached. */
  predicate PrunedFrom(t: Tree, t0: Tree, x: set<NodeId>) {
    t.kids.Keys == t0.kids.Keys
    && (forall q :: q in t0.kids ==> t.kids[q] == Without(t0.kids[q], x))
    && t.parent == t0.parent - x
  }

  /** Detaching one more node extends the pruned set by it. */
  lemma PrunedStep(t: Tree, t0: Tree, x: set<NodeId>, n: NodeId)
    requires PrunedFrom(t, t0, x)
    requires forall q :: q in t.kids ==> Detach(t, n).kids[q] == Without(t.kids[q], {n})
    ensures PrunedFrom(Detach(t, n), t0, x + {n})
  {
    forall q | q in t0.kids ensures Detach(t, n).kids[q] == Without(t0.kids[q], x + {n}) {
      WithoutTwice(t0.kids[q], x, {n});
    }
  }

  lemma PrunedNone(t: Tree)
    requires Valid(t)
    ensures PrunedFrom(t, t, {})
  {
    forall q | q in t.kids ensures t.kids[q] == Without(t.kids[q], {}) {
      WithoutNoop(t.kids[q], {});
    }
  }

  /** `n` put at position `i` of the children of `p`. */
  function InsertAt(t: Tree, p: Place, i: nat, n: NodeId): (r: Tree)
    requires p in t.kids && i <= |t.kids[p]|
    ensures r.kids.Keys == t.kids.Keys
    ensures r.kids[p] == t.kids[p][..i] + [n] + t.kids[p][i..]
  {
    Tree(t.kids[p := t.kids[p][..i] + [n] + t.kids[p][i..]], t.parent[n := p])
  }

  /** Splicing a new node into a list keeps it free of repeats, and adds
      exactly that node. */
  lemma SpliceMembers(s: seq<NodeId>, i: nat, n: NodeId)
    requires i <= |s| && n !in s
    ensures forall m :: m in s[..i] + [n] + s[i..] <==> m == n || m in s
    ensures Distinct(s) ==> Distinct(s[..i] + [n] + s[i..])
  {
    var s' := s[..i] + [n] + s[i..];
    assert s == s[..i] + s[i..];
    if Distinct(s) {
      forall a, b | 0 <= a < b < |s'| ensures s'[a] != s'[b] {
        if a < i && b > i {
          assert s'[b] == s[b - 1];
        } else if a > i {
          assert s'[a] == s[a - 1] && s'[b] == s[b - 1];
        }
      }
    }
  }

  lemma InsertValid(t: Tree, p: Place, i: nat, n: NodeId)
    requires Valid(t) && p in t.kids && i <= |t.kids[p]| && n !in t.parent
    ensures Valid(InsertAt(t, p, i, n))
  {
    assert n !in t.kids[p];
    SpliceMembers(t.kids[p], i, n);
  }

  /** `parent.appendChild(n)`: `n` leaves its old parent and becomes the
      last child of `p`. */
  function AppendChild(t: Tree, p: Place, n: NodeId): (r: Tree)
    requires p in t.kids
    ensures r.kids.Keys == t.kids.Keys
    ensures r.kids[p] == Detach(t, n).kids[p] + [n]
    ensures r.parent == t.parent[n := p]
  {
    var d := Detach(t, n);
    assert d.kids[p][..|d.kids[p]|] == d.kids[p];
    InsertAt(d, p, |d.kids[p]|, n)
  }

  /** Appending keeps the forest valid, and only `p` gains `n`; every list
      loses it. */
  /** Appending a node that had no parent changes no other list. */
  lemma AppendChildFresh(t: Tree, p: Place, n: NodeId)
    requires p in t.kids && n !in t.parent
    ensures AppendChild(t, p, n).kids[p] == t.kids[p] + [n]
    ensures forall q :: q in t.kids && q != p ==> AppendChild(t, p, n).kids[q] == t.kids[q]
  {
  }

  lemma AppendChildValid(t: Tree, p: Place, n: NodeId)
    requires Valid(t) && p in t.kids
    ensures Valid(AppendChild(t, p, n))
    ensures AppendChild(t, p, n).kids[p] == Without(t.kids[p], {n}) + [n]
    ensures forall q :: q in t.kids && q != p ==> AppendChild(t, p, n).kids[q] == Without(t.kids[q], {n})
  {
    var d := Detach(t, n);
    DetachValid(t, n);
    DetachKids(t, n);
    InsertValid(d, p, |d.kids[p]|, n);
  }

  /** A new, empty tab content area. */
  function AddPlace(t: Tree, p: Place): (r: Tree)
    requires Valid(t) && p !in t.kids
    ensures Valid(r) && r.parent == t.parent
    ensures r.kids == t.kids[p := []]
  {
    Tree(t.kids[p := []], t.parent)
  }

  // ---- appendChildByDisplayOrder ----

  /** A child the insertion point search stops at: it has a `.dump` whose
      display order is strictly greater than `d`. */
  predicate After(order: map<NodeId, Option<int>>, n: NodeId, d: int) {
    n in order && order[n].Some? && order[n].value > d
  }

  /** `children.find(child => child.dump && child.dump.displayOrder > d)`,
      as an index; |kids| when no child qualifies. */
  function InsertIndex(kids: seq<NodeId>, order: map<NodeId, Option<int>>, d: int): (i: nat)
    ensures i <= |kids|
    ensures forall j :: 0 <= j < i ==> !After(order, kids[j], d)
    ensures i < |kids| ==> After(order, kids[i], d)
  {
    if kids == [] then 0
    else if After(order, kids[0], d) then 0
    else 1 + InsertIndex(kids[1..], order, d)
  }

  /** `appendChildByDisplayOrder(p, n, d)`: `n` goes immediately before the
      first child of `p` that sorts after `d`, or last. */
  function InsertByOrder(t: Tree, p: Place, n: NodeId, order: map<NodeId, Option<int>>, d: int): (r: Tree)
    requires p in t.kids
    ensures r.kids.Keys == t.kids.Keys
    ensures r.parent == t.parent[n := p]
  {
    var t' := Detach(t, n);
    InsertAt(t', p, InsertIndex(t'.kids[p], order, d), n)
  }

  /** Where `n` is not yet a child of `p`, the insertion index can be
      searched for in the children as they are. */
  lemma InsertByOrderAt(t: Tree, p: Place, n: NodeId, order: map<NodeId, Option<int>>, d: int, i: nat)
    requires Valid(t) && p in t.kids && n !in t.kids[p]
    requires i == InsertIndex(t.kids[p], order, d)
    ensures i <= |Detach(t, n).kids[p]|
    ensures InsertByOrder(t, p, n, order, d) == InsertAt(Detach(t, n), p, i, n)
  {
    DetachKids(t, n);
    WithoutNoop(t.kids[p], {n});
  }

  lemma InsertByOrderValid(t: Tree, p: Place, n: NodeId, order: map<NodeId, Option<int>>, d: int)
    requires Valid(t) && p in t.kids
    ensures Valid(InsertByOrder(t, p, n, order, d))
  {
    var t' := Detach(t, n);
    DetachValid(t, n);
    InsertValid(t', p, InsertIndex(t'.kids[p], order, d), n);
  }

  /** The insertion leaves the other children of `p` in their order, adds
      `n` once, puts it after every child that does not sort after `d`,
      and right before the first one that does; a child without a dump is
      never that one. Every other place only loses `n`. */
  lemma InsertByOrderPlacement(t: Tree, p: Place, n: NodeId, order: map<NodeId, Option<int>>, d: int)
    requires Valid(t) && p in t.kids
    ensures var r := InsertByOrder(t, p, n, order, d);
            var old' := Without(t.kids[p], {n});
            var i := InsertIndex(old', order, d);
            |r.kids[p]| == |old'| + 1
            && r.kids[p] == old'[..i] + [n] + old'[i..]
            && Without(r.kids[p], {n}) == old'
            && (forall j :: 0 <= j < i ==> !After(order, r.kids[p][j], d))
            && (i + 1 < |r.kids[p]| ==> r.kids[p][i + 1] in order && After(order, r.kids[p][i + 1], d))
  {
    DetachKids(t, n);
    WithoutMembers(t.kids[p], {n});
    var old' := Without(t.kids[p], {n});
    var i := InsertIndex(old', order, d);
    assert InsertByOrder(t, p, n, order, d).kids[p] == old'[..i] + [n] + old'[i..];
    SpliceAtIndex(old', order, d, n);
  }

  /** Splicing `n` into `s` at the insertion index of `d`. */
  lemma SpliceAtIndex(s: seq<NodeId>, order: map<NodeId, Option<int>>, d: int, n: NodeId)
    requires n !in s
    ensures var i := InsertIndex(s, order, d);
            var u := s[..i] + [n] + s[i..];
            |u| == |s| + 1 && Without(u, {n}) == s
            && (forall j :: 0 <= j < i ==> !After(order, u[j], d))
            && (i + 1 < |u| ==> u[i + 1] in order && After(order, u[i + 1], d))
  {
    var i := InsertIndex(s, order, d);
    var u := s[..i] + [n] + s[i..];
    WithoutSplice(s, i, n);
    assert forall j :: 0 <= j < i ==> u[j] == s[j];
    assert i + 1 < |u| ==> u[i + 1] == s[i];
  }

  /** Inserting a detached node changes no list but the target's. */
  lemma InsertByOrderFresh(t: Tree, p: Place, n: NodeId, order: map<NodeId, Option<int>>, d: int)
    requires p in t.kids && n !in t.parent
    ensures forall q :: q in t.kids && q != p ==> InsertByOrder(t, p, n, order, d).kids[q] == t.kids[q]
  {
  }

  lemma InsertByOrderElsewhere(t: Tree, p: Place, n: NodeId, order: map<NodeId, Option<int>>, d: int)
    requires Valid(t) && p in t.kids
    ensures forall q :: q in t.kids && q != p ==>
              InsertByOrder(t, p, n, order, d).kids[q] == Without(t.kids[q], {n})
  {
    DetachKids(t, n);
  }
}
