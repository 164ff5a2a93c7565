/** The inspector's input: the property dump an object hands to the panel.
    JavaScript's optional fields become `Option`s, and the empty string stands
    for an absent or falsy string field (`type` (here `kind`), `name`, `displayName`, `id`).
    An absent field therefore never shows as `undefined`: not in an identity
    key, and not as the label's throw on a property without any name. */
module Dump {

  datatype Option<+T> = None | Some(value: T)

  /** A failure that the JavaScript would raise as a thrown TypeError. */
  datatype Fault =
    | ScriptValueNotObject      // `value.uuid` on undefined or null
    | EnumListMissing           // `enumList.length` on undefined
    | ArrayValueNotArray        // `value.length` on undefined or null
    | NullArrayElement          // `$prop.style` on the null of an unhandled element type
    | NullWidget                // `appendChild(null)`
    | GroupsMissing             // `$panel.$groups[key]` after `close`
    | GroupDescMissing          // `dump.groups[key].style` when the dump lacks that group
    | ContainerMissing          // `$groups[key].tabs` when no container is cached
    | TabMissing                // `.children` of an absent tab content area
    | BucketWithoutGroup        // `props[0].group.name` on an empty bucket or a member without a group

  datatype Result<+T> = Ok(value: T) | Err(fault: Fault)

  /** A JavaScript value as the dump carries it. `Obj` is any plain object;
      its `uuid` field is all the factory reads of it. `Arr` is an array of
      element property dumps. */
  datatype Value =
    | Undef
    | Null
    | Bool(b: bool)
    | Num(n: int)
    | Str(s: string)
    | Obj(uuid: Option<string>)
    | Arr(items: seq<Prop>)

  /** `prop.group`: absent, the empty object `{}`, or a real group. */
  datatype GroupRef =
    | NoGroup
    | EmptyGroup
    | InGroup(id: string, name: string, displayOrder: Option<int>)

  datatype EnumItem = EnumItem(name: string, value: Value)

  /** One entry of `dump.value`. */
  datatype Prop = Prop(
    name: string,
    kind: string,        // the dump's `type` field
    path: string,
    displayName: string,
    tooltip: string,
    defaultValue: Value, // the dump's `default` field
    value: Value,
    readonly: bool,
    visible: bool,
    group: GroupRef,
    displayOrder: Option<int>,
    min: Option<int>,
    max: Option<int>,
    slide: bool,
    isArray: bool,
    enumList: Option<seq<EnumItem>>)

  /** One entry of `dump.groups`. */
  datatype GroupDesc = GroupDesc(displayOrder: Option<int>, style: string)

  /** The component dump handed to `update`: the visible-or-not properties
      in the order `for … in` / `Reflect.ownKeys` enumerates them, and the
      optional group table. */
  datatype ComponentDump = ComponentDump(value: seq<Prop>, groups: Option<map<string, GroupDesc>>)

  /** JavaScript truthiness. */
  predicate Truthy(v: Value) {
    match v
    case Undef => false
    case Null => false
    case Bool(b) => b
    case Num(n) => n != 0
    case Str(s) => s != ""
    case Obj(_) => true
    case Arr(_) => true
  }

  /** `item.group && Object.keys(item.group).length !== 0` */
  predicate HasGroup(p: Prop) {
    p.group.InGroup?
  }

  /** `prop.group.id || 'default'`; a `{}` group has no id either. */
  function GroupKey(g: GroupRef): (k: string)
    ensures k != ""
    ensures g.InGroup? && g.id != "" ==> k == g.id
  {
    if g.InGroup? && g.id != "" then g.id else "default"
  }

  /** `prop.group.name` used as an object key: an absent name reads as the
      key "undefined", which is what JavaScript coerces `undefined` to. */
  function TabName(g: GroupRef): string {
    if g.InGroup? then g.name else "undefined"
  }

  /** An optional number read with a default of 0: `x || 0`, or a
      parameter declared `= 0`. */
  function OrZero(o: Option<int>): int {
    if o.Some? then o.value else 0
  }

  /** All members of `s` satisfy `HasGroup`. */
  predicate AllGrouped(s: seq<Prop>) {
    forall i :: 0 <= i < |s| ==> HasGroup(s[i])
  }
}
