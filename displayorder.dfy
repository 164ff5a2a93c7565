/** `displayOrderCompare` and the stable sort the formatter hands it to.
    A missing display order stands for +Infinity, so it sorts last. */
module DisplayOrder {
  import opened Dump

  /** A JavaScript number as the comparator can produce it. */
  datatype JsNum = NegInf | Fin(v: int) | PosInf

  predicate Negative(r: JsNum) { r.NegInf? || (r.Fin? && r.v < 0) }
  predicate Positive(r: JsNum) { r.PosInf? || (r.Fin? && r.v > 0) }

  /** `a` sorts strictly before `b`: a defined order precedes every larger
      one and every undefined one. */
  predicate Before(a: Option<int>, b: Option<int>) {
    a.Some? && (b.None? || a.value < b.value)
  }

  /** `aDisplayOrder - bDisplayOrder`, with undefined read as Infinity and
      the NaN of Infinity - Infinity read as 0. */
  function DisplayOrderCompare(a: Option<int>, b: Option<int>): (r: JsNum)
    ensures Negative(r) <==> Before(a, b)
    ensures Positive(r) <==> Before(b, a)
    ensures r == Fin(0) <==> a == b
  {
    match (a, b)
    case (None, None) => Fin(0)
    case (None, Some(_)) => PosInf
    case (Some(_), None) => NegInf
    case (Some(x), Some(y)) => Fin(x - y)
  }

  /** The comparator is antisymmetric: swapping its arguments swaps the sign. */
  lemma CompareAntisymmetric(a: Option<int>, b: Option<int>)
    ensures Negative(DisplayOrderCompare(a, b)) <==> Positive(DisplayOrderCompare(b, a))
  {
  }

  /** The comparator's order is transitive. */
  lemma BeforeTransitive(a: Option<int>, b: Option<int>, c: Option<int>)
    requires Before(a, b) && Before(b, c)
    ensures Before(a, c)
  {
  }

  /** `s` is ordered by the comparator: no later element sorts strictly
      before an earlier one. */
  ghost predicate SortedBy<T>(s: seq<T>, key: T -> Option<int>) {
    forall i, j :: 0 <= i < j < |s| ==> !Before(key(s[j]), key(s[i]))
  }

  /** The members of `s` whose order is `k`, in their order in `s`. */
  function WithOrder<T>(s: seq<T>, key: T -> Option<int>, k: Option<int>): (r: seq<T>)
    ensures |r| <= |s|
    ensures forall i :: 0 <= i < |r| ==> r[i] in s && key(r[i]) == k
    ensures forall i :: 0 <= i < |s| && key(s[i]) == k ==> s[i] in r
  {
    if s == [] then []
    else if key(s[0]) == k then [s[0]] + WithOrder(s[1..], key, k)
    else WithOrder(s[1..], key, k)
  }

  /** Places `x` in front of the first member that does not sort strictly
      before it. */
  function Insert<T>(x: T, t: seq<T>, key: T -> Option<int>): (r: seq<T>)
    ensures multiset(r) == multiset([x] + t)
  {
    if t == [] then [x]
    else if Before(key(t[0]), key(x)) then
      assert t == [t[0]] + t[1..];
      [t[0]] + Insert(x, t[1..], key)
    else
      [x] + t
  }

  lemma {:induction false} InsertSorted<T>(x: T, t: seq<T>, key: T -> Option<int>)
    requires SortedBy(t, key)
    ensures SortedBy(Insert(x, t, key), key)
  {
    if t != [] && Before(key(t[0]), key(x)) {
      var rest := Insert(x, t[1..], key);
      assert SortedBy(t[1..], key) by {
        forall i, j | 0 <= i < j < |t[1..]| ensures !Before(key(t[1..][j]), key(t[1..][i])) {
          assert t[1..][i] == t[i + 1] && t[1..][j] == t[j + 1];
        }
      }
      InsertSorted(x, t[1..], key);
      var r := [t[0]] + rest;
      forall i, j | 0 <= i < j < |r| ensures !Before(key(r[j]), key(r[i])) {
        if i == 0 {
          var e := rest[j - 1];
          assert e in multiset(rest);
          assert e == x || e in t[1..];
        } else {
          assert r[i] == rest[i - 1] && r[j] == rest[j - 1];
        }
      }
    }
  }

  /** What `Array.prototype.sort(displayOrderCompare)` computes: a stable
      sort by display order. */
  function StableSort<T>(s: seq<T>, key: T -> Option<int>): (r: seq<T>)
    ensures multiset(r) == multiset(s)
    ensures SortedBy(r, key)
  {
    if s == [] then []
    else
      assert s == [s[0]] + s[1..];
      var t := StableSort(s[1..], key);
      InsertSorted(s[0], t, key);
      Insert(s[0], t, key)
  }

  lemma WithOrderCons<T>(h: T, s: seq<T>, key: T -> Option<int>, k: Option<int>)
    ensures WithOrder([h] + s, key, k) == if key(h) == k then [h] + WithOrder(s, key, k) else WithOrder(s, key, k)
  {
    assert ([h] + s)[0] == h && ([h] + s)[1..] == s;
  }

  lemma {:induction false} InsertWithOrder<T>(x: T, t: seq<T>, key: T -> Option<int>, k: Option<int>)
    ensures WithOrder(Insert(x, t, key), key, k) ==
            if key(x) == k then [x] + WithOrder(t, key, k) else WithOrder(t, key, k)
  {
    if t == [] {
      WithOrderCons(x, t, key, k);
    } else if Before(key(t[0]), key(x)) {
      var rest := Insert(x, t[1..], key);
      assert Insert(x, t, key) == [t[0]] + rest;
      InsertWithOrder(x, t[1..], key, k);
      PassFront(x, t, rest, key, k);
    } else {
      WithOrderCons(x, t, key, k);
    }
  }

  /** The step of `InsertWithOrder` where `x` passes the front of `t`:
      the front cannot share `x`'s order, as it sorts strictly before it. */
  lemma PassFront<T>(x: T, t: seq<T>, rest: seq<T>, key: T -> Option<int>, k: Option<int>)
    requires t != [] && Before(key(t[0]), key(x))
    requires WithOrder(rest, key, k) == if key(x) == k then [x] + WithOrder(t[1..], key, k) else WithOrder(t[1..], key, k)
    ensures WithOrder([t[0]] + rest, key, k) == if key(x) == k then [x] + WithOrder(t, key, k) else WithOrder(t, key, k)
  {
    WithOrderCons(t[0], rest, key, k);
    WithOrderCons(t[0], t[1..], key, k);
    assert t == [t[0]] + t[1..];
    assert key(x) == k ==> key(t[0]) != k;
  }

  /** Stability: members with the same display order keep their input
      order (and none is lost or duplicated). */
  lemma {:induction false} StableSortKeepsTies<T>(s: seq<T>, key: T -> Option<int>, k: Option<int>)
    ensures WithOrder(StableSort(s, key), key, k) == WithOrder(s, key, k)
  {
    if s != [] {
      StableSortKeepsTies(s[1..], key, k);
      InsertWithOrder(s[0], StableSort(s[1..], key), key, k);
    }
  }

  /** A sequence already in order is left as it is. */
  lemma {:induction false} StableSortOfSorted<T>(s: seq<T>, key: T -> Option<int>)
    requires SortedBy(s, key)
    ensures StableSort(s, key) == s
  {
    if s != [] {
      assert SortedBy(s[1..], key) by {
        forall i, j | 0 <= i < j < |s[1..]| ensures !Before(key(s[1..][j]), key(s[1..][i])) {
          assert s[1..][i] == s[i + 1] && s[1..][j] == s[j + 1];
        }
      }
      StableSortOfSorted(s[1..], key);
      var t := s[1..];
      if t != [] {
        assert !Before(key(t[0]), key(s[0]));
      }
    }
  }
}
