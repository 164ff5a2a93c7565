/** The widget factory: what `createByType` builds for one property dump.
    A widget is described by a `WidgetSpec` value (its kind, label, seed
    values, options, disabled flag and children) instead of an HTML element. */
module PropRenderer {
  import opened Dump

  // ---- label text ----

  /** JavaScript's `\w`: ASCII letters, digits and '_'. */
  predicate IsWordChar(c: char) {
    ('a' <= c <= 'z') || ('A' <= c <= 'Z') || ('0' <= c <= '9') || c == '_'
  }

  /** `toUpperCase` on a word character. */
  function Upper(c: char): (u: char)
    ensures IsWordChar(c) <==> IsWordChar(u)
    ensures 'a' <= c <= 'z' ==> 'A' <= u <= 'Z'
    ensures !('a' <= c <= 'z') ==> u == c
  {
    if 'a' <= c <= 'z' then (c as int - 32) as char else c
  }

  /** Position `i` of `s` begins a word: `\b` followed by `\w`. */
  predicate StartsWord(s: string, i: nat)
    requires i < |s|
  {
    IsWordChar(s[i]) && (i == 0 || !IsWordChar(s[i - 1]))
  }

  function CapitalizeFrom(s: string, afterWord: bool): (r: string)
    ensures |r| == |s|
  {
    if s == [] then []
    else
      [if IsWordChar(s[0]) && !afterWord then Upper(s[0]) else s[0]]
      + CapitalizeFrom(s[1..], IsWordChar(s[0]))
  }

  /** `str.replace(/\b(\w)(\w*)/g, ($0, $1, $2) => $1.toUpperCase() + $2)` */
  function Capitalize(s: string): (r: string)
    ensures |r| == |s|
  {
    CapitalizeFrom(s, false)
  }

  lemma {:induction false} CapitalizeFromAt(s: string, afterWord: bool, i: nat)
    requires i < |s|
    ensures CapitalizeFrom(s, afterWord)[i] ==
            if IsWordChar(s[i]) && (if i == 0 then !afterWord else !IsWordChar(s[i - 1]))
            then Upper(s[i]) else s[i]
  {
    if i > 0 {
      CapitalizeFromAt(s[1..], IsWordChar(s[0]), i - 1);
    }
  }

  /** Capitalize upper-cases exactly the characters that start a word and
      leaves every other character as it is. */
  lemma CapitalizeAt(s: string, i: nat)
    requires i < |s|
    ensures Capitalize(s)[i] == if StartsWord(s, i) then Upper(s[i]) else s[i]
  {
    CapitalizeFromAt(s, false, i);
  }

  /** Capitalizing twice changes nothing more. */
  lemma CapitalizeIdempotent(s: string)
    ensures Capitalize(Capitalize(s)) == Capitalize(s)
  {
    var c := Capitalize(s);
    forall i | 0 <= i < |s| ensures Capitalize(c)[i] == c[i] {
      CapitalizeAt(s, i);
      CapitalizeAt(c, i);
      if i > 0 {
        CapitalizeAt(s, i - 1);
      }
    }
  }

  /** `prop.displayName ? prop.displayName : prop.name` */
  function LabelSource(p: Prop): string {
    if p.displayName != "" then p.displayName else p.name
  }

  /** One leading '_' removed. */
  function StripUnderscore(d: string): (r: string)
    ensures |d| > 0 && d[0] == '_' ==> r == d[1..]
    ensures !(|d| > 0 && d[0] == '_') ==> r == d
  {
    if |d| > 0 && d[0] == '_' then d[1..] else d
  }

  /** The `value` of the label `createLabelElement` makes. */
  function LabelText(p: Prop): string {
    Capitalize(StripUnderscore(LabelSource(p)))
  }

  /** The label text is the display name (or the name) with one leading '_'
      dropped and each word's first character upper-cased. */
  lemma LabelTextAt(p: Prop, i: nat)
    requires i < |StripUnderscore(LabelSource(p))|
    ensures |LabelText(p)| == |StripUnderscore(LabelSource(p))|
    ensures var d := StripUnderscore(LabelSource(p));
            LabelText(p)[i] == if StartsWord(d, i) then Upper(d[i]) else d[i]
  {
    CapitalizeAt(StripUnderscore(LabelSource(p)), i);
  }

  lemma LabelExample(p: Prop)
    requires p.displayName == "" && p.name == "_max speed_x"
    ensures LabelText(p) == "Max Speed_x"
  {
    var d := StripUnderscore(LabelSource(p));
    assert d == "max speed_x";
    forall i | 0 <= i < |d| ensures LabelText(p)[i] == "Max Speed_x"[i] {
      CapitalizeAt(d, i);
    }
  }

  // ---- widgets ----

  datatype Label = Label(text: string, tooltip: Option<string>)

  datatype SelectOption = SelectOption(value: Value, text: string)

  /** The `slot="content"` element of a field, by kind. */
  datatype Content =
    | AssetPicker(uuid: Value, placeholder: string, droppable: string)   // ui-asset
    | NodePicker(droppable: string, placeholder: string)                  // ui-node
    | Select(value: Value, options: seq<SelectOption>)                    // ui-select
    | TextInput(value: Value)                                             // ui-input
    | NumInput(defaultValue: Value, value: Value)                         // ui-num-input
    | Slider(defaultValue: Value, value: Value, max: Option<int>, min: Option<int>)  // ui-slider
    | Checkbox(defaultValue: Value, value: Value)                         // ui-checkbox

  datatype WidgetSpec =
    /** A `ui-prop` with a label and one content element. */
    | Field(dumpType: string, readonly: bool, caption: Label, content: Content, disabled: bool)
    /** `createArrayProp`'s composite: a header with the name and the
        element count, and one row per element. */
    | ArrayField(cacheExpand: string, headerLabel: string, count: Option<nat>, items: seq<WidgetSpec>)

  /** The kind tags that build a node picker. */
  predicate IsNodeType(t: string) {
    t in ["cc.Label", "cc.Sprite", "cc.Node", "cc.Material", "cc.Mesh"]
  }

  /** The kind tags `createByType` handles. */
  predicate IsHandledType(t: string) {
    t == "cc.Script" || IsNodeType(t) || t in ["Enum", "String", "Number", "Float", "Boolean"]
  }

  function LabelFor(p: Prop): Label {
    Label(LabelText(p), if p.tooltip != "" then Some(p.tooltip) else None)
  }

  /** `prop.default ? prop.default : prop.value` */
  function Seed(p: Prop): (v: Value)
    ensures Truthy(p.defaultValue) ==> v == p.defaultValue
    ensures !Truthy(p.defaultValue) ==> v == p.value
  {
    if Truthy(p.defaultValue) then p.defaultValue else p.value
  }

  /** The number JavaScript's `<` compares a value as, where it is one of
      the values modelled (undefined and the rest compare false). */
  function AsNumber(v: Value): Option<int> {
    match v
    case Num(n) => Some(n)
    case Bool(b) => Some(if b then 1 else 0)
    case Null => Some(0)
    case _ => None
  }

  /** `prop.default < prop.min ? prop.min : prop.default` */
  function SliderSeed(p: Prop): (v: Value)
    ensures v == p.defaultValue || (p.min.Some? && v == Num(p.min.value))
  {
    var d := AsNumber(p.defaultValue);
    if d.Some? && p.min.Some? && d.value < p.min.value then Num(p.min.value) else p.defaultValue
  }

  /** A numeric default is never seeded below `min`, and one at or above it
      is kept. */
  lemma SliderClampsToMin(p: Prop)
    requires p.defaultValue.Num? && p.min.Some?
    ensures SliderSeed(p).Num? && SliderSeed(p).n >= p.min.value
    ensures p.defaultValue.n >= p.min.value ==> SliderSeed(p) == p.defaultValue
  {
  }

  /** `value.uuid`; undefined and null throw, other non-objects give
      undefined. */
  function UuidOf(v: Value): Result<Value> {
    match v
    case Undef => Err(ScriptValueNotObject)
    case Null => Err(ScriptValueNotObject)
    case Obj(u) => Ok(if u.Some? then Str(u.value) else Undef)
    case _ => Ok(Undef)
  }

  /** One `<option>` per enum entry, in list order. */
  function EnumOptions(list: seq<EnumItem>): (r: seq<SelectOption>)
    ensures |r| == |list|
    ensures forall i :: 0 <= i < |list| ==> r[i].value == list[i].value && r[i].text == list[i].name
  {
    seq(|list|, i requires 0 <= i < |list| => SelectOption(list[i].value, list[i].name))
  }

  /** The loop of `createEnumProp`, appending one option per entry. */
  method CreateEnumOptions(list: seq<EnumItem>) returns (opts: seq<SelectOption>)
    ensures opts == EnumOptions(list)
  {
    opts := [];
    var i := 0;
    while i < |list|
      invariant 0 <= i <= |list|
      invariant opts == EnumOptions(list[..i])
    {
      opts := opts + [SelectOption(list[i].value, list[i].name)];
      i := i + 1;
    }
    assert list[..i] == list;
  }

  function FieldOf(p: Prop, c: Content): WidgetSpec {
    Field(p.kind, p.readonly, LabelFor(p), c, p.readonly)
  }

  /** The content element `createByType` picks for `p.type`: None for a
      type it does not handle (the null it returns). */
  function ContentFor(p: Prop): Result<Option<Content>> {
    if p.kind == "cc.Script" then
      match UuidOf(p.value)
      case Err(e) => Err(e)
      case Ok(u) => Ok(Some(AssetPicker(u, "cc.Script", "cc.Script")))
    else if IsNodeType(p.kind) then Ok(Some(NodePicker(p.kind, p.kind)))
    else if p.kind == "Enum" then
      if p.enumList.None? then Err(EnumListMissing)
      else Ok(Some(Select(p.defaultValue, EnumOptions(p.enumList.value))))
    else if p.kind == "String" then Ok(Some(TextInput(Seed(p))))
    else if p.kind == "Number" || p.kind == "Float" then
      if p.slide then Ok(Some(Slider(SliderSeed(p), SliderSeed(p), p.max, p.min)))
      else Ok(Some(NumInput(Seed(p), Seed(p))))
    else if p.kind == "Boolean" then Ok(Some(Checkbox(p.defaultValue, p.value)))
    else Ok(None)
  }

  /** `createByType(prop)`. */
  function CreateByType(p: Prop): (r: Result<Option<WidgetSpec>>)
    ensures r == Ok(None) <==> !IsHandledType(p.kind)
    ensures r.Err? <==> (p.kind == "cc.Script" && p.value in {Undef, Null}) || (p.kind == "Enum" && p.enumList.None?)
    ensures r.Err? ==> r.fault == ScriptValueNotObject || r.fault == EnumListMissing
    ensures r.Ok? && r.value.Some? ==>
              var w := r.value.value;
              w.Field? && w.dumpType == p.kind && w.caption.text == LabelText(p)
              && w.readonly == p.readonly && w.disabled == p.readonly
  {
    match ContentFor(p)
    case Err(e) => Err(e)
    case Ok(None) => Ok(None)
    case Ok(Some(c)) => Ok(Some(FieldOf(p, c)))
  }

  /** The dispatch table: which content each handled type gets. */
  lemma DispatchByType(p: Prop)
    requires CreateByType(p).Ok? && CreateByType(p).value.Some?
    ensures var c := CreateByType(p).value.value.content;
            (p.kind == "cc.Script" <==> c.AssetPicker?)
            && (IsNodeType(p.kind) <==> c.NodePicker?)
            && (IsNodeType(p.kind) ==> c == NodePicker(p.kind, p.kind))
            && (p.kind == "Enum" <==> c.Select?)
            && (p.kind == "String" <==> c.TextInput?)
            && ((p.kind == "Number" || p.kind == "Float") && p.slide <==> c.Slider?)
            && ((p.kind == "Number" || p.kind == "Float") && !p.slide <==> c.NumInput?)
            && (p.kind == "Boolean" <==> c.Checkbox?)
  {
  }

  /** String and numeric-input seeds are `default` when it is truthy and
      `value` otherwise; a slider's are clamped to `min`. */
  lemma SeedsByType(p: Prop)
    requires CreateByType(p).Ok? && CreateByType(p).value.Some?
    ensures var c := CreateByType(p).value.value.content;
            (c.TextInput? ==> c.value == Seed(p))
            && (c.NumInput? ==> c.defaultValue == Seed(p) && c.value == Seed(p))
            && (c.Slider? ==> c.defaultValue == SliderSeed(p) && c.value == SliderSeed(p))
  {
  }

  /** An enum select offers exactly one option per `enumList` entry, in
      list order. */
  lemma EnumSelectOptions(p: Prop)
    requires p.kind == "Enum" && p.enumList.Some?
    ensures CreateByType(p).Ok? && CreateByType(p).value.Some?
    ensures var c := CreateByType(p).value.value.content;
            c.Select? && |c.options| == |p.enumList.value|
            && forall i :: 0 <= i < |c.options| ==>
                 c.options[i] == SelectOption(p.enumList.value[i].value, p.enumList.value[i].name)
  {
  }

  /** What `createByType` gives each element of an array value, in order. */
  function Builds(items: seq<Prop>): seq<Result<Option<WidgetSpec>>> {
    seq(|items|, i requires 0 <= i < |items| => CreateByType(items[i]))
  }

  /** The rows of `createArrayProp` after the rows `acc` already built,
      from what `createByType` gave each remaining element: the fault of
      the first element without a widget, else all the widgets. (The
      factory is pure, so building every element up front gives the same
      result as the source's element-by-element loop.) */
  function ArrayRows(bs: seq<Result<Option<WidgetSpec>>>, acc: seq<WidgetSpec>): Result<seq<WidgetSpec>>
    decreases |bs|
  {
    if bs == [] then Ok(acc)
    else match bs[0]
      case Err(e) => Err(e)
      case Ok(None) => Err(NullArrayElement)
      case Ok(Some(w)) => ArrayRows(bs[1..], acc + [w])
  }

  /** The rows exist exactly when every element has a widget, and then
      they are `acc` followed by those widgets, in order. */
  lemma {:induction false} ArrayRowsSpec(bs: seq<Result<Option<WidgetSpec>>>, acc: seq<WidgetSpec>)
    ensures ArrayRows(bs, acc).Ok? <==> forall i :: 0 <= i < |bs| ==> bs[i].Ok? && bs[i].value.Some?
    ensures ArrayRows(bs, acc).Ok? ==>
              var rows := ArrayRows(bs, acc).value;
              |rows| == |acc| + |bs| && rows[..|acc|] == acc
              && forall i :: 0 <= i < |bs| ==> bs[i] == Ok(Some(rows[|acc| + i]))
    decreases |bs|
  {
    if bs != [] && bs[0].Ok? && bs[0].value.Some? {
      var w := bs[0].value.value;
      ArrayRowsSpec(bs[1..], acc + [w]);
      assert forall i :: 1 <= i < |bs| ==> bs[i] == bs[1..][i - 1];
      var r := ArrayRows(bs, acc);
      if r.Ok? {
        assert r.value[..|acc|] == r.value[..|acc| + 1][..|acc|];
      }
    }
  }

  /** What `createArrayProp(prop)` returns or throws, as a value. */
  function ArrayProp(p: Prop): Result<WidgetSpec> {
    var cache := "root-" + p.path;
    match p.value
    case Undef => Err(ArrayValueNotArray)
    case Null => Err(ArrayValueNotArray)
    case Str(s) => if s == [] then Ok(ArrayField(cache, p.name, Some(0), [])) else Err(NullArrayElement)
    case Arr(props) =>
      (match ArrayRows(Builds(props), [])
       case Ok(rows) => Ok(ArrayField(cache, p.name, Some(|props|), rows))
       case Err(e) => Err(e))
    case _ => Ok(ArrayField(cache, p.name, None, []))
  }

  /** `createArrayProp(prop)`: the header shows `String(prop.value.length)`
      (None for the "undefined" of a value without a length), and each
      element gets a row built by `createByType`; an element `createByType`
      gives null for makes the row's `$prop.style` throw. A string value is
      walked character by character, and a character has no `type`. */
  method CreateArrayProp(p: Prop) returns (r: Result<WidgetSpec>)
    ensures r == ArrayProp(p)
  {
    var cache := "root-" + p.path;
    match p.value {
      case Undef => return Err(ArrayValueNotArray);
      case Null => return Err(ArrayValueNotArray);
      case Str(s) =>
        if s == [] {
          return Ok(ArrayField(cache, p.name, Some(0), []));
        }
        return Err(NullArrayElement);
      case Arr(props) =>
        var rows := CreateArrayRows(props);
        if rows.Err? {
          return Err(rows.fault);
        }
        return Ok(ArrayField(cache, p.name, Some(|props|), rows.value));
      case _ => return Ok(ArrayField(cache, p.name, None, []));
    }
  }

  /** A value that is not an array: `undefined` and `null` throw on
      `.length`; a string counts its characters and throws on the first
      (a character has no `type`); any other value has no length and no
      rows. */
  lemma ArrayPropCases(p: Prop)
    requires !p.value.Arr?
    ensures p.value.Undef? || p.value.Null? ==> ArrayProp(p) == Err(ArrayValueNotArray)
    ensures p.value.Str? ==>
              ArrayProp(p) == if p.value.s == [] then Ok(ArrayField("root-" + p.path, p.name, Some(0), []))
                              else Err(NullArrayElement)
    ensures p.value.Num? || p.value.Bool? || p.value.Obj? ==>
              ArrayProp(p) == Ok(ArrayField("root-" + p.path, p.name, None, []))
  {
  }

  /** An array value gets a widget exactly when `createByType` gives every
      element one; otherwise the first element without one throws. */
  lemma ArrayPropOk(p: Prop)
    requires p.value.Arr?
    ensures ArrayProp(p).Ok? <==> forall i :: 0 <= i < |p.value.items| ==>
                                    CreateByType(p.value.items[i]).Ok? && CreateByType(p.value.items[i]).value.Some?
  {
    var items := p.value.items;
    var bs := Builds(items);
    ArrayRowsSpec(bs, []);
    assert ArrayProp(p).Ok? <==> ArrayRows(bs, []).Ok?;
    if ArrayRows(bs, []).Ok? {
      forall i | 0 <= i < |items|
        ensures CreateByType(items[i]).Ok? && CreateByType(items[i]).value.Some?
      {
        assert bs[i] == CreateByType(items[i]);
      }
    } else {
      var i :| 0 <= i < |bs| && !(bs[i].Ok? && bs[i].value.Some?);
      assert bs[i] == CreateByType(items[i]);
    }
  }

  /** The widget of an array value shows the name and the length, and has
      one row per element, the widget `createByType` gives it, in order. */
  lemma ArrayPropRows(p: Prop)
    requires p.value.Arr? && ArrayProp(p).Ok?
    ensures var w := ArrayProp(p).value;
            w == ArrayField("root-" + p.path, p.name, Some(|p.value.items|), w.items)
            && |w.items| == |p.value.items|
            && forall i :: 0 <= i < |p.value.items| ==> CreateByType(p.value.items[i]) == Ok(Some(w.items[i]))
  {
    var items := p.value.items;
    var bs := Builds(items);
    ArrayRowsSpec(bs, []);
    var w := ArrayProp(p).value;
    assert w == ArrayField("root-" + p.path, p.name, Some(|items|), ArrayRows(bs, []).value);
    forall i | 0 <= i < |items|
      ensures CreateByType(items[i]) == Ok(Some(w.items[i]))
    {
      assert bs[i] == CreateByType(items[i]);
    }
  }

  /** The `for` loop of `createArrayProp` over the elements: one row per
      element, built by `createByType`, or the fault of the first element
      that has none. */
  method CreateArrayRows(props: seq<Prop>) returns (r: Result<seq<WidgetSpec>>)
    ensures r == ArrayRows(Builds(props), [])
  {
    ghost var bs := Builds(props);
    var rows: seq<WidgetSpec> := [];
    var i := 0;
    while i < |props|
      invariant 0 <= i <= |props|
      invariant |rows| == i
      invariant ArrayRows(bs[i..], rows) == ArrayRows(bs, [])
    {
      assert bs[i..][1..] == bs[i + 1..];
      var built := CreateByType(props[i]);
      assert bs[i] == built;
      if built.Err? {
        return Err(built.fault);
      }
      if built.value.None? {
        return Err(NullArrayElement);
      }
      rows := rows + [built.value.value];
      i := i + 1;
    }
    assert bs[i..] == [];
    return Ok(rows);
  }
}
