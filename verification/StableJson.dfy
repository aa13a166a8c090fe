/**
 The ICP-enabled JSON serialisation behind `StableBTreeMap`: `JSON.stringify` with
 `jsonReplacer` (top down) and `JSON.parse` with `jsonReviver` (bottom up).

 The walk that the two built-ins make is the one of section 25.5 of ECMA-262:
 `SerializeJSONProperty` recurses into whatever the replacer returned, and
 `InternalizeJSONProperty` revives the children of a node before the node itself,
 deleting a property (or leaving an array hole) where a child revives to `undefined`.
 */
module StableJson {
  import opened Wrappers

  datatype ArrayKind =
    | Int8 | Int16 | Int32 | BigInt64
    | Uint8 | Uint16 | Uint32 | BigUint64
    | Float32 | Float64

  /** A property name: one that the serialiser treats specially, or any other string. */
  datatype Name =
    | UndefinedTag | BigIntTag | PrincipalTag
    | NanTag | InfinityTag | NegInfinityTag | NegZeroTag
    | KindTag(kind: ArrayKind) | MapTag | SetTag
    | IsPrincipalFlag
    | Index(i: nat)
    | Other(s: string)
  {
    predicate IsTag() {
      !IsPrincipalFlag? && !Index? && !Other?
    }
  }

  /** How the reserved tags are spelled. */
  function Spelling(tag: Name): string
    requires tag.IsTag()
  {
    match tag
    case UndefinedTag => "__undefined__"
    case BigIntTag => "__bigint__"
    case PrincipalTag => "__principal__"
    case NanTag => "__nan__"
    case InfinityTag => "__infinity__"
    case NegInfinityTag => "__negative_infinity__"
    case NegZeroTag => "__negative_zero__"
    case MapTag => "__map__"
    case SetTag => "__set__"
    case KindTag(kind) =>
      match kind
      case Int8 => "__int8array__"
      case Int16 => "__int16array__"
      case Int32 => "__int32array__"
      case BigInt64 => "__bigint64array__"
      case Uint8 => "__uint8array__"
      case Uint16 => "__uint16array__"
      case Uint32 => "__uint32array__"
      case BigUint64 => "__biguint64array__"
      case Float32 => "__float32array__"
      case Float64 => "__float64array__"
  }

  // The order in which the reviver looks for the typed-array tags.
  const KINDS := [Int8, Int16, Int32, BigInt64, Uint8, Uint16, Uint32, BigUint64, Float32, Float64]

  /** A JavaScript value. `Hole` is a missing array slot and only occurs directly inside `Arr`.
      `Finite(0.0)` is positive zero. Properties are listed in own-property order. */
  datatype Value =
    | Undefined
    | Hole
    | Null
    | Bool(b: bool)
    | Finite(x: real)
    | NaN
    | PosInfinity
    | NegInfinity
    | NegZero
    | Str(s: string)
    | BigInt(i: int)
    | Principal(id: seq<bv8>)
    | Typed(kind: ArrayKind, elems: seq<Value>)
    | MapOf(entries: seq<Entry>)
    | SetOf(items: seq<Value>)
    | Arr(slots: seq<Value>)
    | Obj(props: seq<Prop>)
  {
    predicate IsObject() {
      Principal? || Typed? || MapOf? || SetOf? || Arr? || Obj?
    }
  }

  datatype Entry = Entry(key: Value, value: Value)

  datatype Prop = Prop(name: Name, value: Value)

  /** A JSON text, as a tree. */
  datatype Json =
    | JNull
    | JBool(b: bool)
    | JNum(x: real)
    | JStr(s: string)
    | JArr(items: seq<Json>)
    | JObj(members: seq<Member>)

  datatype Member = Member(name: Name, value: Json)

  datatype Error = SyntaxError | TypeError

  /** The parts of the JavaScript host that the serialiser calls and does not define. */
  datatype Host = Host(
    bigIntToText: int -> string,
    textToBigInt: string -> Option<int>,
    principalToText: seq<bv8> -> string,
    textToPrincipal: string -> Option<seq<bv8>>,
    isDouble: real -> bool,
    isFloat32: real -> bool,
    toElement: (ArrayKind, Value) -> Option<Value>,
    write: Json -> seq<bv8>,
    read: seq<bv8> -> Option<Json>)
  {
    /** What is assumed of it: printing is inverted by parsing, and converting a value to the
        element type of a typed array leaves the values of that type alone. */
    ghost predicate Valid() {
      && (forall i :: textToBigInt(bigIntToText(i)) == Some(i))
      && (forall p :: textToPrincipal(principalToText(p)) == Some(p))
      && (forall k, v :: IsElement(this, k, v) ==> toElement(k, v) == Some(v))
    }

    /** The JSON text printed for this value, as UTF-8 bytes, parses back to the printed tree. */
    predicate ReadsBack(v: Value) {
      read(write(Stringify(this, v))) == Some(Stringify(this, v))
    }
  }

  // A finite number, which is one that a double can hold.
  predicate IsNumber(h: Host, v: Value) {
    v.Finite? && h.isDouble(v.x)
  }

  predicate IsInteger(h: Host, v: Value, lo: int, hi: int) {
    IsNumber(h, v) && v.x == v.x.Floor as real && lo <= v.x.Floor < hi
  }

  predicate IsElement(h: Host, kind: ArrayKind, v: Value) {
    match kind
    case Int8 => IsInteger(h, v, -0x80, 0x80)
    case Int16 => IsInteger(h, v, -0x8000, 0x8000)
    case Int32 => IsInteger(h, v, -0x8000_0000, 0x8000_0000)
    case BigInt64 => v.BigInt? && -0x8000_0000_0000_0000 <= v.i < 0x8000_0000_0000_0000
    case Uint8 => IsInteger(h, v, 0, 0x100)
    case Uint16 => IsInteger(h, v, 0, 0x1_0000)
    case Uint32 => IsInteger(h, v, 0, 0x1_0000_0000)
    case BigUint64 => v.BigInt? && 0 <= v.i < 0x1_0000_0000_0000_0000
    case Float32 => v.NaN? || v.PosInfinity? || v.NegInfinity? || v.NegZero? || (IsNumber(h, v) && h.isFloat32(v.x))
    case Float64 => v.NaN? || v.PosInfinity? || v.NegInfinity? || v.NegZero? || IsNumber(h, v)
  }

  // SameValueZero, which never identifies two objects here: each is a different reference.
  predicate SameKey(a: Value, b: Value) {
    !a.IsObject() && a == b
  }

  predicate Distinct(keys: seq<Value>) {
    forall i, j :: 0 <= i < j < |keys| ==> !SameKey(keys[i], keys[j])
  }

  predicate DistinctNames(props: seq<Prop>) {
    forall i, j :: 0 <= i < j < |props| ==> props[i].name != props[j].name
  }

  function Keys(entries: seq<Entry>): seq<Value> {
    seq(|entries|, i requires 0 <= i < |entries| => entries[i].key)
  }

  /** The invariants JavaScript itself keeps: numbers are doubles, own names differ, the keys of a Map
      and the items of a Set differ and are never -0, and a typed array holds elements of its type. */
  predicate WellFormed(h: Host, v: Value) {
    match v
    case Finite(x) => h.isDouble(x)
    case Typed(kind, elems) => forall e <- elems :: IsElement(h, kind, e)
    case MapOf(entries) =>
      && Distinct(Keys(entries))
      && (forall e <- entries :: e.key != NegZero && e.key != Hole && e.value != Hole)
      && (forall e <- entries :: WellFormed(h, e.key) && WellFormed(h, e.value))
    case SetOf(items) =>
      && Distinct(items)
      && (forall x <- items :: x != NegZero && x != Hole)
      && (forall x <- items :: WellFormed(h, x))
    case Arr(slots) => forall x <- slots :: WellFormed(h, x)
    case Obj(props) =>
      && DistinctNames(props)
      && (forall p <- props :: p.value != Hole)
      && (forall p <- props :: WellFormed(h, p.value))
    case _ => true
  }

  // ---------- jsonReplacer and JSON.stringify ----------

  function Lookup(props: seq<Prop>, name: Name): Option<Value> {
    if props == [] then None
    else if props[0].name == name then Some(props[0].value)
    else Lookup(props[1..], name)
  }

  // Array.from(map.entries())
  function EntryArrays(entries: seq<Entry>): seq<Value> {
    if entries == [] then []
    else [Arr([entries[0].key, entries[0].value])] + EntryArrays(entries[1..])
  }

  function Tagged1(tag: Name, v: Value): Value {
    Obj([Prop(tag, v)])
  }

  /** `jsonReplacer`. A plain object whose `_isPrincipal` is `true` is taken for a principal. */
  function Replace(h: Host, v: Value): Value {
    match v
    case Undefined => Tagged1(UndefinedTag, Str(Spelling(UndefinedTag)))
    case Hole => Tagged1(UndefinedTag, Str(Spelling(UndefinedTag)))
    case BigInt(i) => Tagged1(BigIntTag, Str(h.bigIntToText(i)))
    case Principal(id) => Tagged1(PrincipalTag, Str(h.principalToText(id)))
    case NaN => Tagged1(NanTag, Str(Spelling(NanTag)))
    case PosInfinity => Tagged1(InfinityTag, Str(Spelling(InfinityTag)))
    case NegInfinity => Tagged1(NegInfinityTag, Str(Spelling(NegInfinityTag)))
    case NegZero => Tagged1(NegZeroTag, Str(Spelling(NegZeroTag)))
    case Typed(kind, elems) => Tagged1(KindTag(kind), Arr(elems))
    case MapOf(entries) => Tagged1(MapTag, Arr(EntryArrays(entries)))
    case SetOf(items) => Tagged1(SetTag, Arr(items))
    case Obj(props) =>
      if Lookup(props, IsPrincipalFlag) == Some(Bool(true))
      then Tagged1(PrincipalTag, Str("[object Object]"))
      else v
    case _ => v
  }

  /** The measure by which `JSON.stringify` terminates although every tag object that the replacer
      returns is walked again. */
  function Rank(v: Value): nat {
    match v
    case Null | Bool(_) | Finite(_) | Str(_) => 0
    case Typed(_, elems) => 3 + RankAll(elems)
    case MapOf(entries) => 3 + RankEntries(entries)
    case SetOf(items) => 3 + RankAll(items)
    case Arr(slots) => 1 + RankAll(slots)
    case Obj(props) => 1 + RankProps(props)
    case _ => 2
  }

  function RankAll(vs: seq<Value>): nat {
    if vs == [] then 0 else 1 + Rank(vs[0]) + RankAll(vs[1..])
  }

  function RankEntries(entries: seq<Entry>): nat {
    if entries == [] then 0
    else RankEntry(entries[0]) + RankEntries(entries[1..])
  }

  function RankEntry(e: Entry): nat {
    4 + Rank(e.key) + Rank(e.value)
  }

  function RankProps(props: seq<Prop>): nat {
    if props == [] then 0 else RankProp(props[0]) + RankProps(props[1..])
  }

  function RankProp(p: Prop): nat {
    1 + Rank(p.value)
  }

  lemma {:induction false} EntryArraysRank(entries: seq<Entry>)
    ensures RankAll(EntryArrays(entries)) == RankEntries(entries)
  {
    if entries != [] {
      var k, v := entries[0].key, entries[0].value;
      assert [k, v][1..] == [v];
      assert RankAll([v]) == 1 + Rank(v) + RankAll([]);
      assert RankAll([k, v]) == 2 + Rank(k) + Rank(v);
      assert EntryArrays(entries)[1..] == EntryArrays(entries[1..]);
      EntryArraysRank(entries[1..]);
    }
  }

  /** Whatever the replacer returns, its parts are smaller than the value it was given. */
  lemma {:induction false} ReplaceShrinks(h: Host, v: Value)
    ensures Replace(h, v).Arr? ==> RankAll(Replace(h, v).slots) < Rank(v)
    ensures Replace(h, v).Obj? ==> RankProps(Replace(h, v).props) < Rank(v)
  {
    var r := Replace(h, v);
    if r.Obj? && v != r {
      assert RankProps(r.props) == RankProp(r.props[0]) + RankProps([]);
      assert RankProp(r.props[0]) == 1 + Rank(r.props[0].value);
      if v.MapOf? {
        EntryArraysRank(v.entries);
      } else if v.Obj? {
        assert RankProps(v.props) == RankProp(v.props[0]) + RankProps(v.props[1..]);
        assert RankProp(v.props[0]) == 1 + Rank(v.props[0].value);
      }
    }
  }

  /** `JSON.stringify(v, jsonReplacer)`, up to the printing of the tree. */
  function Stringify(h: Host, v: Value): Json
    decreases Rank(v)
  {
    ReplaceShrinks(h, v);
    match Replace(h, v)
    case Null => JNull
    case Bool(b) => JBool(b)
    case Finite(x) => JNum(x)
    case Str(s) => JStr(s)
    case Arr(slots) => JArr(StringifyAll(h, slots))
    case Obj(props) => JObj(StringifyProps(h, props))
    // JSON.stringify prints other numbers as null; the replacer returns none of the rest.
    case _ => JNull
  }

  function StringifyAll(h: Host, vs: seq<Value>): seq<Json>
    decreases RankAll(vs)
  {
    if vs == [] then [] else [Stringify(h, vs[0])] + StringifyAll(h, vs[1..])
  }

  function StringifyProps(h: Host, props: seq<Prop>): seq<Member>
    decreases RankProps(props)
  {
    if props == [] then []
    else
      assert RankProp(props[0]) == 1 + Rank(props[0].value);
      [Member(props[0].name, Stringify(h, props[0].value))] + StringifyProps(h, props[1..])
  }

  // ---------- jsonReviver and JSON.parse ----------

  // Reading a missing slot yields undefined.
  function Read(slot: Value): Value {
    if slot == Hole then Undefined else slot
  }

  // What InternalizeJSONProperty leaves in an array slot.
  function Slot(v: Value): Value {
    if v == Undefined then Hole else v
  }

  function GetName(props: seq<Prop>, name: Name): Value {
    var r := Lookup(props, name);
    if r.Some? then r.value else Undefined
  }

  // v[0] and v[1] of an object v
  function GetIndex(v: Value, i: nat): Value
    requires i < 2
  {
    match v
    case Arr(slots) => if i < |slots| then Read(slots[i]) else Undefined
    case Typed(_, elems) => if i < |elems| && !elems[i].IsObject() then elems[i] else Undefined
    case Obj(props) => GetName(props, Index(i))
    case _ => Undefined
  }

  // Map and Set store -0 as +0.
  function CanonicalKey(v: Value): Value {
    if v == NegZero then Finite(0.0) else v
  }

  function MapSet(entries: seq<Entry>, key: Value, value: Value): seq<Entry> {
    if entries == [] then [Entry(key, value)]
    else if SameKey(entries[0].key, key) then [Entry(entries[0].key, value)] + entries[1..]
    else [entries[0]] + MapSet(entries[1..], key, value)
  }

  // new Map(array), continuing from `acc`
  function MapFrom(slots: seq<Value>, acc: seq<Entry>): Result<seq<Entry>, Error> {
    if slots == [] then Ok(acc)
    else
      var item := Read(slots[0]);
      if !item.IsObject() then Err(TypeError)
      else MapFrom(slots[1..], MapSet(acc, CanonicalKey(GetIndex(item, 0)), GetIndex(item, 1)))
  }

  function SetAdd(items: seq<Value>, item: Value): seq<Value> {
    if exists x <- items :: SameKey(x, item) then items else items + [item]
  }

  // new Set(array), continuing from `acc`
  function SetFrom(slots: seq<Value>, acc: seq<Value>): seq<Value> {
    if slots == [] then acc
    else SetFrom(slots[1..], SetAdd(acc, CanonicalKey(Read(slots[0]))))
  }

  // TypedArray.from(array)
  function ElementsFrom(h: Host, kind: ArrayKind, slots: seq<Value>): Result<seq<Value>, Error> {
    if slots == [] then Ok([])
    else
      var first := h.toElement(kind, Read(slots[0]));
      if first.None? then Err(TypeError)
      else
        var rest := ElementsFrom(h, kind, slots[1..]);
        if rest.Err? then rest else Ok([first.value] + rest.value)
  }

  predicate HasString(props: seq<Prop>, name: Name) {
    GetName(props, name).Str?
  }

  predicate HasArray(props: seq<Prop>, name: Name) {
    GetName(props, name).Arr?
  }

  // Only the tags whose value must be the tag's own name.
  predicate HasMark(props: seq<Prop>, tag: Name)
    requires tag.IsTag()
  {
    GetName(props, tag) == Str(Spelling(tag))
  }

  function FirstKind(props: seq<Prop>, kinds: seq<ArrayKind>): (r: Option<ArrayKind>)
    ensures r.Some? ==> HasArray(props, KindTag(r.value))
  {
    if kinds == [] then None
    else if HasArray(props, KindTag(kinds[0])) then Some(kinds[0])
    else FirstKind(props, kinds[1..])
  }

  // The tags that stand for a single value, in the order the reviver tries them.
  function ReviveScalar(h: Host, props: seq<Prop>): Option<Result<Value, Error>> {
    if HasString(props, UndefinedTag) then Some(Ok(Undefined))
    else if HasString(props, BigIntTag) then
      match h.textToBigInt(GetName(props, BigIntTag).s) {
        case Some(i) => Some(Ok(BigInt(i)))
        case None => Some(Err(SyntaxError))
      }
    else if HasString(props, PrincipalTag) then
      match h.textToPrincipal(GetName(props, PrincipalTag).s) {
        case Some(p) => Some(Ok(Principal(p)))
        case None => Some(Err(SyntaxError))
      }
    else if HasMark(props, NanTag) then Some(Ok(NaN))
    else if HasMark(props, InfinityTag) then Some(Ok(PosInfinity))
    else if HasMark(props, NegInfinityTag) then Some(Ok(NegInfinity))
    else if HasMark(props, NegZeroTag) then Some(Ok(NegZero))
    else None
  }

  // The tags that hold an array, tried after the scalar ones.
  function ReviveCollection(h: Host, props: seq<Prop>): Result<Value, Error> {
    match FirstKind(props, KINDS)
    case Some(kind) =>
      var elems := ElementsFrom(h, kind, GetName(props, KindTag(kind)).slots);
      if elems.Err? then Err(elems.error) else Ok(Typed(kind, elems.value))
    case None =>
      if HasArray(props, MapTag) then
        var entries := MapFrom(GetName(props, MapTag).slots, []);
        if entries.Err? then Err(entries.error) else Ok(MapOf(entries.value))
      else if HasArray(props, SetTag) then Ok(SetOf(SetFrom(GetName(props, SetTag).slots, [])))
      else Ok(Obj(props))
  }

  /** `jsonReviver` on an object whose properties have been revived. */
  function ReviveObject(h: Host, props: seq<Prop>): Result<Value, Error> {
    match ReviveScalar(h, props)
    case Some(r) => r
    case None => ReviveCollection(h, props)
  }

  /** `JSON.parse(j, jsonReviver)`, from the parsed tree on. */
  function Parse(h: Host, j: Json): Result<Value, Error> {
    match j
    case JNull => Ok(Null)
    case JBool(b) => Ok(Bool(b))
    case JNum(x) => Ok(Finite(x))
    case JStr(s) => Ok(Str(s))
    case JArr(items) =>
      var slots := ParseAll(h, items);
      if slots.Err? then Err(slots.error) else Ok(Arr(slots.value))
    case JObj(members) =>
      var props := ParseMembers(h, members);
      if props.Err? then Err(props.error) else ReviveObject(h, props.value)
  }

  function ParseAll(h: Host, items: seq<Json>): Result<seq<Value>, Error> {
    if items == [] then Ok([])
    else
      var first := Parse(h, items[0]);
      if first.Err? then Err(first.error)
      else
        var rest := ParseAll(h, items[1..]);
        if rest.Err? then rest else Ok([Slot(first.value)] + rest.value)
  }

  function ParseMembers(h: Host, members: seq<Member>): Result<seq<Prop>, Error> {
    if members == [] then Ok([])
    else
      var first := ParseMember(h, members[0]);
      if first.Err? then Err(first.error)
      else
        var rest := ParseMembers(h, members[1..]);
        if rest.Err? then rest
        else if first.value == Undefined then rest
        else Ok([Prop(members[0].name, first.value)] + rest.value)
  }

  function ParseMember(h: Host, member: Member): Result<Value, Error> {
    Parse(h, member.value)
  }

  // ---------- What comes back ----------

  /** A value up to the normalisation of the reviver: properties that are `undefined` are gone and
      array slots that are `undefined` are holes (which still read as `undefined`). */
  function Norm(v: Value): Value {
    match v
    case Hole => Undefined
    case MapOf(entries) => MapOf(NormEntries(entries))
    case SetOf(items) => SetOf(NormAll(items))
    case Arr(slots) => Arr(NormSlots(slots))
    case Obj(props) => Obj(NormProps(props))
    case _ => v
  }

  function NormAll(vs: seq<Value>): seq<Value> {
    if vs == [] then [] else [Norm(vs[0])] + NormAll(vs[1..])
  }

  function NormSlots(vs: seq<Value>): seq<Value> {
    if vs == [] then [] else [Slot(Norm(vs[0]))] + NormSlots(vs[1..])
  }

  function NormEntries(entries: seq<Entry>): seq<Entry> {
    if entries == [] then []
    else [NormEntry(entries[0])] + NormEntries(entries[1..])
  }

  function NormEntry(e: Entry): Entry {
    Entry(Norm(e.key), Norm(e.value))
  }

  function NormProps(props: seq<Prop>): seq<Prop> {
    if props == [] then []
    else
      var rest := NormProps(props[1..]);
      var p := NormProp(props[0]);
      if p.value == Undefined then rest else [p] + rest
  }

  function NormProp(p: Prop): Prop {
    Prop(p.name, Norm(p.value))
  }

  /** An object that the reviver would take for one of its own tags. */
  ghost predicate Tagged(props: seq<Prop>) {
    || HasString(props, UndefinedTag) || HasString(props, BigIntTag) || HasString(props, PrincipalTag)
    || HasMark(props, NanTag) || HasMark(props, InfinityTag)
    || HasMark(props, NegInfinityTag) || HasMark(props, NegZeroTag)
    || (exists k: ArrayKind :: HasArray(props, KindTag(k)))
    || HasArray(props, MapTag) || HasArray(props, SetTag)
  }

  /** No plain object anywhere in the value carries a reserved tag. */
  ghost predicate Clean(v: Value) {
    match v
    case MapOf(entries) => CleanEntries(entries)
    case SetOf(items) => CleanAll(items)
    case Arr(slots) => CleanAll(slots)
    case Obj(props) =>
      && Lookup(props, IsPrincipalFlag) != Some(Bool(true))
      && !Tagged(NormProps(props))
      && CleanProps(props)
    case _ => true
  }

  ghost predicate CleanAll(vs: seq<Value>) {
    vs == [] || (Clean(vs[0]) && CleanAll(vs[1..]))
  }

  ghost predicate CleanEntries(entries: seq<Entry>) {
    entries == [] || (CleanEntry(entries[0]) && CleanEntries(entries[1..]))
  }

  ghost predicate CleanEntry(e: Entry) {
    Clean(e.key) && Clean(e.value)
  }

  ghost predicate CleanProps(props: seq<Prop>) {
    props == [] || (CleanProp(props[0]) && CleanProps(props[1..]))
  }

  ghost predicate CleanProp(p: Prop) {
    Clean(p.value)
  }
}
