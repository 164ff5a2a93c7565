/** `groupBy(arr, f)`: buckets a list by key, buckets in the order their key
    first occurs, members in input order. The source keys its buckets by
    `JSON.stringify(f(o))`; for the string keys it is used with, that is
    one-to-one and never yields an integer-like property name, so bucket
    identity is key equality and `Object.keys` order is insertion order. */
module Grouping {

  /** The distinct keys of `s`, in the order they first occur. */
  function FirstKeys<T, K(==)>(s: seq<T>, f: T -> K): (ks: seq<K>)
    ensures forall i, j :: 0 <= i < j < |ks| ==> ks[i] != ks[j]
  {
    if s == [] then []
    else
      var ks := FirstKeys(s[..|s| - 1], f);
      if f(s[|s| - 1]) in ks then ks else ks + [f(s[|s| - 1])]
  }

  /** The members of `s` whose key is `k`, in input order. */
  function Members<T, K(==)>(s: seq<T>, f: T -> K, k: K): (r: seq<T>)
    ensures forall i :: 0 <= i < |r| ==> f(r[i]) == k
    ensures multiset(r) <= multiset(s)
  {
    if s == [] then []
    else if f(s[|s| - 1]) == k then
      assert s == s[..|s| - 1] + [s[|s| - 1]];
      Members(s[..|s| - 1], f, k) + [s[|s| - 1]]
    else
      assert s == s[..|s| - 1] + [s[|s| - 1]];
      Members(s[..|s| - 1], f, k)
  }

  /** The value `groupBy` returns. */
  function Groups<T, K(==)>(s: seq<T>, f: T -> K): (g: seq<seq<T>>)
    ensures |g| == |FirstKeys(s, f)|
  {
    var ks := FirstKeys(s, f);
    seq(|ks|, i requires 0 <= i < |ks| => Members(s, f, ks[i]))
  }

  function Flatten<T>(g: seq<seq<T>>): seq<T> {
    if g == [] then [] else Flatten(g[..|g| - 1]) + g[|g| - 1]
  }

  /** The loop of `groupBy`: one pass filling the buckets, one pass reading
      them out in key order. */
  method GroupBy<T, K(==)>(arr: seq<T>, f: T -> K) returns (g: seq<seq<T>>)
    ensures g == Groups(arr, f)
    ensures forall i :: 0 <= i < |g| ==> g[i] != []
    ensures forall i, x, y :: 0 <= i < |g| && 0 <= x < |g[i]| && 0 <= y < |g[i]| ==> f(g[i][x]) == f(g[i][y])
  {
    var keys: seq<K> := [];
    var buckets: map<K, seq<T>> := map[];
    var i := 0;
    while i < |arr|
      invariant 0 <= i <= |arr|
      invariant keys == FirstKeys(arr[..i], f)
      invariant buckets.Keys == set k | k in keys
      invariant forall k :: k in buckets ==> buckets[k] == Members(arr[..i], f, k)
    {
      var key := f(arr[i]);
      assert arr[..i + 1][..i] == arr[..i] && arr[..i + 1][i] == arr[i];
      if key in buckets {
        buckets := buckets[key := buckets[key] + [arr[i]]];
      } else {
        keys := keys + [key];
        buckets := buckets[key := [arr[i]]];
        assert Members(arr[..i], f, key) == [] by {
          MembersEmptyIffAbsent(arr[..i], f, key);
        }
      }
      i := i + 1;
    }
    assert arr[..i] == arr;
    g := [];
    var j := 0;
    while j < |keys|
      invariant 0 <= j <= |keys|
      invariant |g| == j
      invariant forall m :: 0 <= m < j ==> g[m] == Members(arr, f, keys[m])
    {
      g := g + [buckets[keys[j]]];
      j := j + 1;
    }
    forall m | 0 <= m < |g| ensures g[m] != [] {
      MembersEmptyIffAbsent(arr, f, keys[m]);
    }
  }

  /** A key has members exactly when it is one of the discovered keys. */
  lemma {:induction false} MembersEmptyIffAbsent<T, K>(s: seq<T>, f: T -> K, k: K)
    ensures Members(s, f, k) == [] <==> k !in FirstKeys(s, f)
  {
    if s != [] {
      MembersEmptyIffAbsent(s[..|s| - 1], f, k);
    }
  }

  /** Every group is non-empty. */
  lemma GroupsNonEmpty<T, K>(s: seq<T>, f: T -> K)
    ensures forall i :: 0 <= i < |Groups(s, f)| ==> Groups(s, f)[i] != []
  {
    var ks := FirstKeys(s, f);
    forall i | 0 <= i < |ks| ensures Groups(s, f)[i] != [] {
      MembersEmptyIffAbsent(s, f, ks[i]);
    }
  }

  lemma FlattenAppend<T>(g: seq<seq<T>>, h: seq<T>)
    ensures Flatten(g + [h]) == Flatten(g) + h
  {
    assert (g + [h])[..|g|] == g;
  }

  /** Appending `x` to one bucket adds exactly `x` to the flattened multiset. */
  lemma {:induction false} FlattenGrowOne<T>(g: seq<seq<T>>, i: nat, x: T)
    requires i < |g|
    ensures multiset(Flatten(g[i := g[i] + [x]])) == multiset(Flatten(g)) + multiset{x}
  {
    var g' := g[i := g[i] + [x]];
    var n := |g| - 1;
    var pre, pre' := g[..n], g'[..n];
    assert g == pre + [g[n]];
    assert g' == pre' + [g'[n]];
    FlattenAppend(pre, g[n]);
    FlattenAppend(pre', g'[n]);
    if i == n {
      assert pre' == pre;
      assert g'[n] == g[n] + [x];
      calc {
        multiset(Flatten(g'));
        multiset(Flatten(pre) + (g[n] + [x]));
        multiset(Flatten(pre)) + multiset(g[n]) + multiset{x};
        multiset(Flatten(g)) + multiset{x};
      }
    } else {
      assert pre' == pre[i := pre[i] + [x]];
      FlattenGrowOne(pre, i, x);
      assert g'[n] == g[n];
      calc {
        multiset(Flatten(g'));
        multiset(Flatten(pre') + g[n]);
        multiset(Flatten(pre')) + multiset(g[n]);
        multiset(Flatten(pre)) + multiset{x} + multiset(g[n]);
        multiset(Flatten(g)) + multiset{x};
      }
    }
  }

  lemma IndexOf<K>(ks: seq<K>, k: K) returns (i: nat)
    requires k in ks
    ensures i < |ks| && ks[i] == k
  {
    i :| i < |ks| && ks[i] == k;
  }

  /** Concatenating the groups gives back the input, up to order. */
  lemma {:induction false} GroupsArePermutation<T, K>(s: seq<T>, f: T -> K)
    ensures multiset(Flatten(Groups(s, f))) == multiset(s)
  {
    if s == [] {
      assert Groups(s, f) == [];
    } else {
      var n := |s| - 1;
      var p, x := s[..n], s[n];
      assert s == p + [x];
      GroupsArePermutation(p, f);
      GroupsStep(p, x, f);
    }
  }

  /** Appending one element to the input adds exactly it to the groups. */
  lemma GroupsStep<T, K>(p: seq<T>, x: T, f: T -> K)
    ensures multiset(Flatten(Groups(p + [x], f))) == multiset(Flatten(Groups(p, f))) + multiset{x}
  {
    var s := p + [x];
    assert s[..|s| - 1] == p && s[|s| - 1] == x;
    var ks := FirstKeys(p, f);
    var g, g' := Groups(p, f), Groups(s, f);
    if f(x) in ks {
      var i := IndexOf(ks, f(x));
      assert FirstKeys(s, f) == ks;
      forall m | 0 <= m < |ks| ensures g'[m] == g[i := g[i] + [x]][m] {
        assert g'[m] == Members(s, f, ks[m]);
      }
      assert g' == g[i := g[i] + [x]];
      FlattenGrowOne(g, i, x);
    } else {
      assert FirstKeys(s, f) == ks + [f(x)];
      MembersEmptyIffAbsent(p, f, f(x));
      assert g'[|ks|] == [x];
      forall m | 0 <= m < |ks| ensures g'[m] == g[m] {
        assert g'[m] == Members(s, f, ks[m]);
      }
      assert g' == g + [[x]];
      FlattenAppend(g, [x]);
    }
  }

  /** Position in `s` of the first member with key `k`. */
  function FirstIndex<T, K(==)>(s: seq<T>, f: T -> K, k: K): (i: nat)
    requires k in FirstKeys(s, f)
    ensures i < |s| && f(s[i]) == k
    ensures forall j :: 0 <= j < i ==> f(s[j]) != k
  {
    FirstIndexExists(s, f, k);
    var i :| 0 <= i < |s| && f(s[i]) == k && forall j :: 0 <= j < i ==> f(s[j]) != k;
    i
  }

  lemma {:induction false} FirstIndexExists<T, K>(s: seq<T>, f: T -> K, k: K)
    requires k in FirstKeys(s, f)
    ensures exists i :: 0 <= i < |s| && f(s[i]) == k && forall j :: 0 <= j < i ==> f(s[j]) != k
  {
    var n := |s| - 1;
    var p := s[..n];
    if k in FirstKeys(p, f) {
      FirstIndexExists(p, f, k);
      var i :| 0 <= i < |p| && f(p[i]) == k && forall j :: 0 <= j < i ==> f(p[j]) != k;
      assert f(s[i]) == k;
      assert forall j :: 0 <= j < i ==> f(s[j]) == f(p[j]);
    } else {
      MembersEmptyIffAbsent(p, f, k);
      forall j | 0 <= j < n ensures f(s[j]) != k {
        MemberWitness(p, f, j);
      }
      assert f(s[n]) == k;
    }
  }

  lemma {:induction false} MemberWitness<T, K>(s: seq<T>, f: T -> K, j: nat)
    requires j < |s|
    ensures Members(s, f, f(s[j])) != []
  {
    var n := |s| - 1;
    if j < n {
      MemberWitness(s[..n], f, j);
    }
  }

  /** Buckets appear in the order of their key's first occurrence. */
  lemma {:induction false} KeysInFirstOccurrenceOrder<T, K>(s: seq<T>, f: T -> K, i: nat, j: nat)
    requires i < j < |FirstKeys(s, f)|
    ensures FirstIndex(s, f, FirstKeys(s, f)[i]) < FirstIndex(s, f, FirstKeys(s, f)[j])
  {
    var ks := FirstKeys(s, f);
    var n := |s| - 1;
    var p := s[..n];
    var kp := FirstKeys(p, f);
    var a, b := ks[i], ks[j];
    if j < |kp| {
      assert ks[..|kp|] == kp;
      KeysInFirstOccurrenceOrder(p, f, i, j);
      FirstIndexPrefix(s, f, a);
      FirstIndexPrefix(s, f, b);
    } else {
      assert b == f(s[n]) && b !in kp;
      assert a in kp;
      FirstIndexPrefix(s, f, a);
      MembersEmptyIffAbsent(p, f, b);
      forall m | 0 <= m < n ensures f(s[m]) != b {
        MemberWitness(p, f, m);
      }
    }
  }

  /** A key already found in the prefix keeps its first position. */
  lemma FirstIndexPrefix<T, K>(s: seq<T>, f: T -> K, k: K)
    requires s != [] && k in FirstKeys(s[..|s| - 1], f)
    ensures k in FirstKeys(s, f)
    ensures FirstIndex(s, f, k) == FirstIndex(s[..|s| - 1], f, k)
  {
    var p := s[..|s| - 1];
    var a, b := FirstIndex(s, f, k), FirstIndex(p, f, k);
    assert f(s[b]) == k;
    assert a <= b;
    assert f(p[a]) == k;
  }
}
