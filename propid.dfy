/** The property identity key, `(type || name) + ":" + path`, which matches
    the widget of one update pass with the widget of the next. */
module PropId {
  import opened Dump

  /** `type || name`: the kind tag, or the name when the tag is falsy. */
  function KindOrName(p: Prop): string {
    if p.kind != "" then p.kind else p.name
  }

  function GeneratePropId(p: Prop): (id: string)
    ensures |id| == |KindOrName(p)| + 1 + |p.path|
    ensures id[..|KindOrName(p)|] == KindOrName(p) && id[|KindOrName(p)|] == ':'
    ensures id[|KindOrName(p)| + 1..] == p.path
  {
    KindOrName(p) + ":" + p.path
  }

  /** Index of the first ':' in `s`, or |s| when there is none. */
  function FirstColon(s: string): (k: nat)
    ensures k <= |s|
    ensures forall i :: 0 <= i < k ==> s[i] != ':'
    ensures k < |s| ==> s[k] == ':'
  {
    if s == [] then 0
    else if s[0] == ':' then 0
    else 1 + FirstColon(s[1..])
  }

  /** Reads a key back into its kind and path, splitting at the first ':'. */
  function SplitPropId(id: string): (r: Option<(string, string)>)
    ensures r.Some? <==> ':' in id
    ensures r.Some? ==> id == r.value.0 + ":" + r.value.1 && ':' !in r.value.0
  {
    var k := FirstColon(id);
    if k == |id| then
      assert forall i :: 0 <= i < |id| ==> id[i] != ':';
      None
    else
      assert id == id[..k] + ":" + id[k + 1..];
      Some((id[..k], id[k + 1..]))
  }

  /** A kind tag without ':' is recovered exactly from the key. */
  lemma SplitGenerated(p: Prop)
    requires ':' !in KindOrName(p)
    ensures SplitPropId(GeneratePropId(p)) == Some((KindOrName(p), p.path))
  {
    var id := GeneratePropId(p);
    var n := |KindOrName(p)|;
    assert forall i :: 0 <= i < n ==> id[i] == KindOrName(p)[i];
    FirstColonAt(id, n);
  }

  lemma FirstColonAt(s: string, n: nat)
    requires n < |s| && s[n] == ':'
    requires forall i :: 0 <= i < n ==> s[i] != ':'
    ensures FirstColon(s) == n
  {
  }

  /** Two properties whose kind tags contain no ':' share a key exactly
      when they share both the kind (or name) and the path. */
  lemma SameIdIff(p: Prop, q: Prop)
    requires ':' !in KindOrName(p) && ':' !in KindOrName(q)
    ensures GeneratePropId(p) == GeneratePropId(q) <==>
            KindOrName(p) == KindOrName(q) && p.path == q.path
  {
    if GeneratePropId(p) == GeneratePropId(q) {
      SplitGenerated(p);
      SplitGenerated(q);
    }
  }

  /** A ':' inside a name lets two distinct (name, path) pairs share a key. */
  lemma ColonInNameCollides(p: Prop, q: Prop)
    requires p.kind == "" && q.kind == ""
    requires p.name == "a:b" && p.path == "c"
    requires q.name == "a" && q.path == "b:c"
    ensures GeneratePropId(p) == GeneratePropId(q)
    ensures KindOrName(p) != KindOrName(q)
  {
  }

  /** The name only matters when the type tag is falsy. */
  lemma NameIgnoredWhenTyped(p: Prop, q: Prop)
    requires p.kind != "" && p.kind == q.kind && p.path == q.path
    ensures GeneratePropId(p) == GeneratePropId(q)
  {
  }
}
