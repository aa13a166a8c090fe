/**
 The law of the ICP-enabled JSON serialisation: a value comes back, up to the normalisation of
 `undefined`, exactly when no plain object in it carries a reserved tag.
 */
module StableJsonTheorems {
  import opened Wrappers
  import opened StableJson

  // ---------- Tag objects ----------

  /** No two reserved tags are spelled alike. */
  lemma SpellingIsInjective(a: Name, b: Name)
    requires a.IsTag() && b.IsTag() && Spelling(a) == Spelling(b)
    ensures a == b
  {
    var s, t := Spelling(a), Spelling(b);
    assert |s| == |t| && s[2] == t[2] && s[3] == t[3] && s[5] == t[5] && s[6] == t[6] && s[|s| - 4] == t[|t| - 4];
    if a.KindTag? && b.KindTag? {
      assert s[7] == t[7];
    }
  }

  lemma {:induction false} FirstKindOfOne(kind: ArrayKind, v: Value, kinds: seq<ArrayKind>)
    requires kind in kinds && v.Arr?
    ensures FirstKind([Prop(KindTag(kind), v)], kinds) == Some(kind)
  {
    var props := [Prop(KindTag(kind), v)];
    assert Lookup(props[1..], KindTag(kinds[0])) == None;
    if kind != kinds[0] {
      FirstKindOfOne(kind, v, kinds[1..]);
    }
  }

  lemma EveryKindIsTried(kind: ArrayKind)
    ensures kind in KINDS
  {
    assert KINDS[0] == Int8 && KINDS[1] == Int16 && KINDS[2] == Int32 && KINDS[3] == BigInt64 && KINDS[4] == Uint8;
    assert KINDS[5] == Uint16 && KINDS[6] == Uint32 && KINDS[7] == BigUint64 && KINDS[8] == Float32;
    assert KINDS[9] == Float64;
  }

  // The kind found is the first in the list whose tag is there.
  lemma {:induction false} FirstKindIsFirst(props: seq<Prop>, kinds: seq<ArrayKind>, k: ArrayKind)
    requires k in kinds && FirstKind(props, kinds) == None
    ensures !HasArray(props, KindTag(k))
  {
    if k != kinds[0] {
      FirstKindIsFirst(props, kinds[1..], k);
    }
  }

  lemma NoKind(props: seq<Prop>)
    ensures FirstKind(props, KINDS) == None <==> forall k: ArrayKind :: !HasArray(props, KindTag(k))
  {
    if FirstKind(props, KINDS) == None {
      forall k: ArrayKind ensures !HasArray(props, KindTag(k)) {
        EveryKindIsTried(k);
        FirstKindIsFirst(props, KINDS, k);
      }
    }
  }

  lemma GetOne(tag: Name, v: Value)
    ensures forall name :: GetName([Prop(tag, v)], name) == if name == tag then v else Undefined
  {
    var props := [Prop(tag, v)];
    forall name ensures GetName(props, name) == if name == tag then v else Undefined {
      assert Lookup(props[1..], name) == None;
    }
  }

  // How the reviver treats an object that only carries an array under one of its tags.
  lemma RevivesArrayTag(h: Host, tag: Name, v: Value)
    requires v.Arr?
    ensures ReviveObject(h, [Prop(tag, v)]) == ReviveCollection(h, [Prop(tag, v)])
    ensures GetName([Prop(tag, v)], tag) == v
  {
    GetOne(tag, v);
  }

  lemma NoKindNamed(tag: Name, v: Value)
    requires !tag.KindTag?
    ensures FirstKind([Prop(tag, v)], KINDS) == None
  {
    GetOne(tag, v);
    NoKind([Prop(tag, v)]);
  }

  // A value that the replacer wraps is printed as a one-member object around what it holds.
  lemma StringifyTagged(h: Host, v: Value, tag: Name, inner: Value)
    requires Replace(h, v) == Tagged1(tag, inner)
    ensures Rank(inner) < Rank(v)
    ensures Stringify(h, v) == JObj([Member(tag, Stringify(h, inner))])
  {
    ReplaceShrinks(h, v);
    var props := [Prop(tag, inner)];
    assert RankProps(props) == RankProp(props[0]) + RankProps(props[1..]);
    assert RankProp(props[0]) == 1 + Rank(inner);
    assert StringifyProps(h, props[1..]) == [];
    assert StringifyProps(h, props) == [Member(tag, Stringify(h, inner))];
  }

  /** A tree of one member: what the tag is spelled as, and what it holds. */
  predicate IsTree(j: Json, tag: string, held: Json) {
    && j.JObj? && |j.members| == 1
    && j.members[0].name.IsTag() && Spelling(j.members[0].name) == tag
    && j.members[0].value == held
  }

  lemma MarkTree(h: Host, v: Value, tag: Name, text: string)
    requires tag.IsTag() && Spelling(tag) == text && Replace(h, v) == Tagged1(tag, Str(text))
    ensures IsTree(Stringify(h, v), text, JStr(text))
  {
    StringifyTagged(h, v, tag, Str(text));
  }

  lemma UndefinedTree(h: Host)
    ensures IsTree(Stringify(h, Undefined), "__undefined__", JStr("__undefined__"))
    ensures Stringify(h, Hole) == Stringify(h, Undefined)
  {
    MarkTree(h, Undefined, UndefinedTag, "__undefined__");
    StringifyTagged(h, Undefined, UndefinedTag, Str("__undefined__"));
    StringifyTagged(h, Hole, UndefinedTag, Str("__undefined__"));
  }

  lemma NanTree(h: Host)
    ensures IsTree(Stringify(h, NaN), "__nan__", JStr("__nan__"))
    ensures IsTree(Stringify(h, NegZero), "__negative_zero__", JStr("__negative_zero__"))
  {
    MarkTree(h, NaN, NanTag, "__nan__");
    MarkTree(h, NegZero, NegZeroTag, "__negative_zero__");
  }

  lemma InfinityTrees(h: Host)
    ensures IsTree(Stringify(h, PosInfinity), "__infinity__", JStr("__infinity__"))
    ensures IsTree(Stringify(h, NegInfinity), "__negative_infinity__", JStr("__negative_infinity__"))
  {
    MarkTree(h, PosInfinity, InfinityTag, "__infinity__");
    MarkTree(h, NegInfinity, NegInfinityTag, "__negative_infinity__");
  }

  lemma TextTrees(h: Host, i: int, id: seq<bv8>)
    ensures IsTree(Stringify(h, BigInt(i)), "__bigint__", JStr(h.bigIntToText(i)))
    ensures IsTree(Stringify(h, Principal(id)), "__principal__", JStr(h.principalToText(id)))
  {
    StringifyTagged(h, BigInt(i), BigIntTag, Str(h.bigIntToText(i)));
    StringifyTagged(h, Principal(id), PrincipalTag, Str(h.principalToText(id)));
  }

  /** What is printed for the values that JSON does not have: an object with one member, whose name, and
      for a mark also whose text, is the tag. A hole is printed as `undefined`. */
  lemma ScalarTrees(h: Host, i: int, id: seq<bv8>)
    ensures IsTree(Stringify(h, Undefined), "__undefined__", JStr("__undefined__"))
    ensures Stringify(h, Hole) == Stringify(h, Undefined)
    ensures IsTree(Stringify(h, NaN), "__nan__", JStr("__nan__"))
    ensures IsTree(Stringify(h, PosInfinity), "__infinity__", JStr("__infinity__"))
    ensures IsTree(Stringify(h, NegInfinity), "__negative_infinity__", JStr("__negative_infinity__"))
    ensures IsTree(Stringify(h, NegZero), "__negative_zero__", JStr("__negative_zero__"))
    ensures IsTree(Stringify(h, BigInt(i)), "__bigint__", JStr(h.bigIntToText(i)))
    ensures IsTree(Stringify(h, Principal(id)), "__principal__", JStr(h.principalToText(id)))
  {
    UndefinedTree(h);
    NanTree(h);
    InfinityTrees(h);
    TextTrees(h, i, id);
  }

  /** A map is printed as its entries, each a pair of key and value. */
  lemma MapTree(h: Host, entries: seq<Entry>)
    ensures IsTree(Stringify(h, MapOf(entries)), "__map__", JArr(seq(|entries|, i requires 0 <= i < |entries| =>
                   JArr([Stringify(h, entries[i].key), Stringify(h, entries[i].value)]))))
  {
    StringifyTagged(h, MapOf(entries), MapTag, Arr(EntryArrays(entries)));
    EntriesPrinted(h, entries);
  }

  /** A set is printed as its items. */
  lemma SetTree(h: Host, items: seq<Value>)
    ensures IsTree(Stringify(h, SetOf(items)), "__set__", JArr(seq(|items|, i requires 0 <= i < |items| => Stringify(h, items[i]))))
  {
    StringifyTagged(h, SetOf(items), SetTag, Arr(items));
    ItemsPrinted(h, items);
  }

  lemma {:induction false} ItemsPrinted(h: Host, items: seq<Value>)
    ensures StringifyAll(h, items) == seq(|items|, i requires 0 <= i < |items| => Stringify(h, items[i]))
  {
    if items != [] {
      ItemsPrinted(h, items[1..]);
    }
  }

  lemma PairPrinted(h: Host, k: Value, v: Value)
    ensures Stringify(h, Arr([k, v])) == JArr([Stringify(h, k), Stringify(h, v)])
  {
    assert Replace(h, Arr([k, v])) == Arr([k, v]);
    ItemsPrinted(h, [k, v]);
  }

  lemma {:induction false} EntriesPrinted(h: Host, entries: seq<Entry>)
    ensures StringifyAll(h, EntryArrays(entries)) == seq(|entries|, i requires 0 <= i < |entries| =>
              JArr([Stringify(h, entries[i].key), Stringify(h, entries[i].value)]))
  {
    if entries != [] {
      PairPrinted(h, entries[0].key, entries[0].value);
      EntriesPrinted(h, entries[1..]);
      assert EntryArrays(entries)[1..] == EntryArrays(entries[1..]);
    }
  }

  /** The tag of each kind of typed array. */
  function ArrayTag(kind: ArrayKind): string {
    match kind
    case Int8 => "__int8array__"
    case Int16 => "__int16array__"
    case Int32 => "__int32array__"
    case BigInt64 => "__bigint64array__"
    case Uint8 => "__uint8array__"
    case Uint16 => "__uint16array__"
    case Uint32 => "__uint32array__"
    case BigUint64 => "__biguint64array__"
    case Float32 => "__float32array__"
    case Float64 => "__float64array__"
  }

  /** A typed array is printed as its elements under the tag of its kind. */
  lemma TypedTree(h: Host, kind: ArrayKind, elems: seq<Value>)
    ensures IsTree(Stringify(h, Typed(kind, elems)), ArrayTag(kind),
                   JArr(seq(|elems|, i requires 0 <= i < |elems| => Stringify(h, elems[i]))))
  {
    StringifyTagged(h, Typed(kind, elems), KindTag(kind), Arr(elems));
    ItemsPrinted(h, elems);
  }

  lemma ParseTagged(h: Host, tag: Name, j: Json)
    ensures var w := Parse(h, j);
            Parse(h, JObj([Member(tag, j)])) ==
            if w.Err? then Err(w.error)
            else ReviveObject(h, if w.value == Undefined then [] else [Prop(tag, w.value)])
  {
    var members := [Member(tag, j)];
    assert ParseMembers(h, members[1..]) == Ok([]);
    var w := ParseMember(h, members[0]);
    if w.Ok? && w.value != Undefined {
      assert [Prop(tag, w.value)] + [] == [Prop(tag, w.value)];
    }
  }

  lemma PairFacts(k: Value, v: Value)
    ensures CleanAll([k, v]) == (Clean(k) && Clean(v))
    ensures NormSlots([k, v]) == [Slot(Norm(k)), Slot(Norm(v))]
  {
    assert [k, v][1..] == [v] && [v][1..] == [];
    assert CleanAll([v]) == Clean(v);
    assert NormSlots([v]) == [Slot(Norm(v))] + NormSlots([]);
  }

  // ---------- Clean values come back ----------

  lemma {:induction false} NormLeaves(vs: seq<Value>)
    requires forall v <- vs :: v.Finite? || v.BigInt? || v.NaN? || v.PosInfinity? || v.NegInfinity? || v.NegZero?
    ensures NormSlots(vs) == vs && CleanAll(vs)
  {
    if vs != [] {
      NormLeaves(vs[1..]);
      assert Slot(Norm(vs[0])) == vs[0] && Clean(vs[0]);
      assert [vs[0]] + vs[1..] == vs;
    }
  }

  lemma {:induction false} ElementsComeBack(h: Host, kind: ArrayKind, elems: seq<Value>)
    requires h.Valid()
    requires forall e <- elems :: IsElement(h, kind, e)
    ensures ElementsFrom(h, kind, elems) == Ok(elems)
  {
    if elems != [] {
      assert IsElement(h, kind, elems[0]);
      assert elems[0] != Hole;
      assert [elems[0]] + elems[1..] == elems;
      ElementsComeBack(h, kind, elems[1..]);
    }
  }

  lemma {:induction false} NormEntriesAt(entries: seq<Entry>, i: nat)
    requires i < |entries|
    ensures |NormEntries(entries)| == |entries| && NormEntries(entries)[i] == NormEntry(entries[i])
  {
    if |entries| > 1 {
      NormEntriesAt(entries[1..], if i == 0 then 0 else i - 1);
    }
  }

  lemma {:induction false} NormAllAt(vs: seq<Value>, i: nat)
    requires i < |vs|
    ensures |NormAll(vs)| == |vs| && NormAll(vs)[i] == Norm(vs[i])
  {
    if |vs| > 1 {
      NormAllAt(vs[1..], if i == 0 then 0 else i - 1);
    }
  }

  lemma NormKeepsKeysApart(entries: seq<Entry>)
    requires Distinct(Keys(entries)) && forall e <- entries :: e.key != Hole
    ensures Distinct(Keys(NormEntries(entries)))
  {
    if entries != [] {
      NormEntriesAt(entries, 0);
    }
    var keys := Keys(NormEntries(entries));
    forall i, j | 0 <= i < j < |keys| ensures !SameKey(keys[i], keys[j]) {
      NormEntriesAt(entries, i);
      NormEntriesAt(entries, j);
      assert !SameKey(Keys(entries)[i], Keys(entries)[j]);
    }
  }

  lemma NormKeepsItemsApart(items: seq<Value>)
    requires Distinct(items) && forall x <- items :: x != Hole
    ensures Distinct(NormAll(items))
  {
    if items != [] {
      NormAllAt(items, 0);
    }
    forall i, j | 0 <= i < j < |NormAll(items)| ensures !SameKey(NormAll(items)[i], NormAll(items)[j]) {
      NormAllAt(items, i);
      NormAllAt(items, j);
      assert items[i] in items && items[j] in items && !SameKey(items[i], items[j]);
    }
  }

  lemma {:induction false} MapSetFresh(entries: seq<Entry>, key: Value, value: Value)
    requires forall e <- entries :: !SameKey(e.key, key)
    ensures MapSet(entries, key, value) == entries + [Entry(key, value)]
  {
    if entries != [] {
      MapSetFresh(entries[1..], key, value);
    }
  }

  /** The numbers and bigints that a typed array of integers can hold. */
  lemma ElementRanges(h: Host, n: int)
    requires h.isDouble(n as real)
    ensures IsElement(h, Int8, Finite(n as real)) <==> -128 <= n <= 127
    ensures IsElement(h, Uint8, Finite(n as real)) <==> 0 <= n <= 255
    ensures IsElement(h, Int16, Finite(n as real)) <==> -32_768 <= n <= 32_767
    ensures IsElement(h, Uint16, Finite(n as real)) <==> 0 <= n <= 65_535
    ensures IsElement(h, Int32, Finite(n as real)) <==> -2_147_483_648 <= n <= 2_147_483_647
    ensures IsElement(h, Uint32, Finite(n as real)) <==> 0 <= n <= 4_294_967_295
    ensures IsElement(h, BigInt64, BigInt(n)) <==> -9_223_372_036_854_775_808 <= n <= 9_223_372_036_854_775_807
    ensures IsElement(h, BigUint64, BigInt(n)) <==> 0 <= n <= 18_446_744_073_709_551_615
  {
    assert (n as real).Floor == n;
  }

  /** The keys of a Map and the items of a Set are apart if only objects occur among them more than once:
      two objects are never the same key. */
  lemma DistinctExactly(keys: seq<Value>)
    ensures Distinct(keys) <==> forall i, j :: 0 <= i < j < |keys| && keys[i] == keys[j] ==> keys[i].IsObject()
  {
    forall i, j | 0 <= i < j < |keys| ensures !SameKey(keys[i], keys[j]) <==> (keys[i] == keys[j] ==> keys[i].IsObject()) {
    }
  }

  /** A primitive key that is there keeps its place and gets the new value. */
  lemma {:induction false} MapSetFound(entries: seq<Entry>, i: nat, key: Value, value: Value)
    requires i < |entries| && entries[i].key == key && !key.IsObject()
    requires forall j :: 0 <= j < i ==> entries[j].key != key
    ensures MapSet(entries, key, value) == entries[i := Entry(key, value)]
  {
    if i > 0 {
      assert entries[0].key != key;
      MapSetFound(entries[1..], i - 1, key, value);
    }
  }

  lemma NormSlotsCons(v: Value, vs: seq<Value>)
    ensures NormSlots([v] + vs) == [Slot(Norm(v))] + NormSlots(vs)
  {
    assert ([v] + vs)[1..] == vs;
  }

  lemma FirstEntrySlots(e: Entry, rest: seq<Entry>)
    ensures NormSlots(EntryArrays([e] + rest)) ==
            [Arr([Slot(Norm(e.key)), Slot(Norm(e.value))])] + NormSlots(EntryArrays(rest))
  {
    assert ([e] + rest)[1..] == rest;
    PairFacts(e.key, e.value);
    NormSlotsCons(Arr([e.key, e.value]), EntryArrays(rest));
  }

  lemma MapStep(e: Entry, rest: seq<Entry>, acc: seq<Entry>)
    requires e.key != NegZero && e.key != Hole && e.value != Hole
    requires forall a <- acc :: !SameKey(a.key, Norm(e.key))
    ensures MapFrom(NormSlots(EntryArrays([e] + rest)), acc) == MapFrom(NormSlots(EntryArrays(rest)), acc + [NormEntry(e)])
  {
    FirstEntrySlots(e, rest);
    MapSetFresh(acc, Norm(e.key), Norm(e.value));
    var item := Arr([Slot(Norm(e.key)), Slot(Norm(e.value))]);
    assert GetIndex(item, 0) == Norm(e.key) && GetIndex(item, 1) == Norm(e.value);
    var slots := [item] + NormSlots(EntryArrays(rest));
    assert slots[1..] == NormSlots(EntryArrays(rest));
  }

  lemma KeyIsFresh(acc: seq<Entry>, first: Entry, rest: seq<Entry>)
    requires Distinct(Keys(acc + ([first] + rest)))
    ensures forall a <- acc :: !SameKey(a.key, first.key)
  {
    var all := acc + ([first] + rest);
    forall a | a in acc ensures !SameKey(a.key, first.key) {
      var i :| 0 <= i < |acc| && acc[i] == a;
      assert !SameKey(Keys(all)[i], Keys(all)[|acc|]);
    }
  }

  lemma MoveFirst(acc: seq<Entry>, first: Entry, rest: seq<Entry>)
    ensures acc + ([first] + rest) == (acc + [first]) + rest
    ensures acc + [] == acc
  {
  }

  // new Map of the revived entry arrays: nothing is merged.
  lemma {:induction false} MapComesBack(entries: seq<Entry>, acc: seq<Entry>)
    requires Distinct(Keys(acc + NormEntries(entries)))
    requires forall e <- entries :: e.key != NegZero && e.key != Hole && e.value != Hole
    ensures MapFrom(NormSlots(EntryArrays(entries)), acc) == Ok(acc + NormEntries(entries))
  {
    if entries == [] {
      assert acc + NormEntries(entries) == acc;
    } else {
      var first, rest := NormEntry(entries[0]), NormEntries(entries[1..]);
      KeyIsFresh(acc, first, rest);
      MoveFirst(acc, first, rest);
      assert entries == [entries[0]] + entries[1..];
      MapStep(entries[0], entries[1..], acc);
      MapComesBack(entries[1..], acc + [first]);
    }
  }

  lemma {:induction false} SetComesBack(items: seq<Value>, acc: seq<Value>)
    requires Distinct(acc + NormAll(items))
    requires forall x <- items :: x != NegZero && x != Hole
    ensures SetFrom(NormSlots(items), acc) == acc + NormAll(items)
  {
    if items == [] {
      assert acc + NormAll(items) == acc;
    } else {
      var all := acc + NormAll(items);
      forall x | x in acc ensures !SameKey(x, Norm(items[0])) {
        var i :| 0 <= i < |acc| && acc[i] == x;
        assert !SameKey(all[i], all[|acc|]);
      }
      assert all == (acc + [Norm(items[0])]) + NormAll(items[1..]);
      assert items[0] in items && forall x <- items[1..] :: x in items;
      SetComesBack(items[1..], acc + [Norm(items[0])]);
    }
  }

  lemma {:induction false} EntryArraysFacts(h: Host, entries: seq<Entry>)
    requires forall e <- entries :: WellFormed(h, e.key) && WellFormed(h, e.value)
    ensures forall v <- EntryArrays(entries) :: WellFormed(h, v)
    ensures CleanAll(EntryArrays(entries)) == CleanEntries(entries)
  {
    if entries != [] {
      PairFacts(entries[0].key, entries[0].value);
      assert EntryArrays(entries)[1..] == EntryArrays(entries[1..]);
      EntryArraysFacts(h, entries[1..]);
    }
  }

  lemma TypedFromArray(h: Host, v: Value)
    requires h.Valid() && WellFormed(h, v) && v.Typed?
    requires Parse(h, Stringify(h, Arr(v.elems))) == Ok(Norm(Arr(v.elems)))
    ensures Parse(h, Stringify(h, v)) == Ok(v)
  {
    var inner := Arr(v.elems);
    StringifyTagged(h, v, KindTag(v.kind), inner);
    NormLeaves(v.elems);
    ElementsComeBack(h, v.kind, v.elems);
    EveryKindIsTried(v.kind);
    FirstKindOfOne(v.kind, inner, KINDS);
    RevivesArrayTag(h, KindTag(v.kind), inner);
    ParseTagged(h, KindTag(v.kind), Stringify(h, inner));
  }

  lemma MapOfFromArray(h: Host, v: Value)
    requires WellFormed(h, v) && v.MapOf?
    requires var inner := Arr(EntryArrays(v.entries)); Parse(h, Stringify(h, inner)) == Ok(Norm(inner))
    ensures Parse(h, Stringify(h, v)) == Ok(Norm(v))
  {
    var inner := Arr(EntryArrays(v.entries));
    StringifyTagged(h, v, MapTag, inner);
    NormKeepsKeysApart(v.entries);
    assert [] + NormEntries(v.entries) == NormEntries(v.entries);
    MapComesBack(v.entries, []);
    RevivesArrayTag(h, MapTag, Norm(inner));
    NoKindNamed(MapTag, Norm(inner));
    ParseTagged(h, MapTag, Stringify(h, inner));
  }

  lemma SetOfFromArray(h: Host, v: Value)
    requires WellFormed(h, v) && v.SetOf?
    requires Parse(h, Stringify(h, Arr(v.items))) == Ok(Norm(Arr(v.items)))
    ensures Parse(h, Stringify(h, v)) == Ok(Norm(v))
  {
    var inner := Arr(v.items);
    StringifyTagged(h, v, SetTag, inner);
    NormKeepsItemsApart(v.items);
    assert [] + NormAll(v.items) == NormAll(v.items);
    SetComesBack(v.items, []);
    RevivesArrayTag(h, SetTag, Norm(inner));
    NoKindNamed(SetTag, Norm(inner));
    GetOne(SetTag, Norm(inner));
    ParseTagged(h, SetTag, Stringify(h, inner));
  }

  // A tag that holds a text.
  lemma TextComesBack(h: Host, v: Value, tag: Name, s: string)
    requires Replace(h, v) == Tagged1(tag, Str(s))
    ensures Parse(h, Stringify(h, v)) == ReviveObject(h, [Prop(tag, Str(s))])
    ensures forall name :: GetName([Prop(tag, Str(s))], name) == if name == tag then Str(s) else Undefined
  {
    StringifyTagged(h, v, tag, Str(s));
    ParseTagged(h, tag, JStr(s));
    GetOne(tag, Str(s));
  }

  // A tag object with a text that stands for a single value.
  lemma TaggedScalarComesBack(h: Host, v: Value)
    requires h.Valid() && Replace(h, v).Obj? && (v.Undefined? || v.Hole? || v.BigInt? || v.Principal?)
    ensures Parse(h, Stringify(h, v)) == Ok(Norm(v))
  {
    var r := Replace(h, v);
    TextComesBack(h, v, r.props[0].name, r.props[0].value.s);
  }

  // A mark is revived as what it stands for.
  lemma MarkRevives(h: Host, tag: Name, v: Value)
    requires (tag, v) in {(NanTag, NaN), (InfinityTag, PosInfinity), (NegInfinityTag, NegInfinity), (NegZeroTag, NegZero)}
    ensures ReviveObject(h, [Prop(tag, Str(Spelling(tag)))]) == Ok(v)
  {
    GetOne(tag, Str(Spelling(tag)));
  }

  function MarkOf(v: Value): Name
    requires v.NaN? || v.PosInfinity? || v.NegInfinity? || v.NegZero?
  {
    if v.NaN? then NanTag else if v.PosInfinity? then InfinityTag else if v.NegInfinity? then NegInfinityTag else NegZeroTag
  }

  // A tag object that holds its own tag.
  lemma MarkedScalarComesBack(h: Host, v: Value)
    requires v.NaN? || v.PosInfinity? || v.NegInfinity? || v.NegZero?
    ensures Parse(h, Stringify(h, v)) == Ok(v)
  {
    TextComesBack(h, v, MarkOf(v), Spelling(MarkOf(v)));
    MarkRevives(h, MarkOf(v), v);
  }

  lemma ScalarComesBack(h: Host, v: Value)
    requires h.Valid() && !v.Typed? && !v.MapOf? && !v.SetOf? && !v.Arr? && !v.Obj?
    ensures Parse(h, Stringify(h, v)) == Ok(Norm(v))
  {
    if v.NaN? || v.PosInfinity? || v.NegInfinity? || v.NegZero? {
      MarkedScalarComesBack(h, v);
    } else if v.Undefined? || v.Hole? || v.BigInt? || v.Principal? {
      TaggedScalarComesBack(h, v);
    }
  }

  lemma ArrComesBack(h: Host, slots: seq<Value>)
    requires ParseAll(h, StringifyAll(h, slots)) == Ok(NormSlots(slots))
    ensures Parse(h, Stringify(h, Arr(slots))) == Ok(Norm(Arr(slots)))
  {}

  lemma ObjComesBack(h: Host, props: seq<Prop>, revived: seq<Prop>)
    requires Lookup(props, IsPrincipalFlag) != Some(Bool(true))
    requires ParseMembers(h, StringifyProps(h, props)) == Ok(revived) && ReviveObject(h, revived) == Ok(Obj(revived))
    ensures Parse(h, Stringify(h, Obj(props))) == Ok(Obj(revived))
  {
    PlainStringifies(h, props);
  }

  lemma PlainStringifies(h: Host, props: seq<Prop>)
    requires Lookup(props, IsPrincipalFlag) != Some(Bool(true))
    ensures Stringify(h, Obj(props)) == JObj(StringifyProps(h, props))
  {
  }

  lemma PlainRevives(h: Host, props: seq<Prop>)
    requires !Tagged(props)
    ensures ReviveObject(h, props) == Ok(Obj(props))
  {
    NoKind(props);
  }

  /** Every typed array comes back, with its kind and its elements. */
  lemma {:induction false} TypedComesBack(h: Host, v: Value)
    requires h.Valid() && WellFormed(h, v) && v.Typed?
    ensures Parse(h, Stringify(h, v)) == Ok(v)
    decreases Rank(v), 0
  {
    StringifyTagged(h, v, KindTag(v.kind), Arr(v.elems));
    ElementsAreClean(h, v);
    CleanComesBack(h, Arr(v.elems));
    TypedFromArray(h, v);
  }

  lemma ElementsAreLeaves(h: Host, v: Value)
    requires WellFormed(h, v) && v.Typed?
    ensures forall x <- v.elems ::
              WellFormed(h, x) && (x.Finite? || x.BigInt? || x.NaN? || x.PosInfinity? || x.NegInfinity? || x.NegZero?)
  {
  }

  lemma ElementsAreClean(h: Host, v: Value)
    requires WellFormed(h, v) && v.Typed?
    ensures WellFormed(h, Arr(v.elems)) && Clean(Arr(v.elems)) && Norm(Arr(v.elems)) == Arr(v.elems)
  {
    ElementsAreLeaves(h, v);
    NormLeaves(v.elems);
  }

  /** Every map of clean keys and values comes back, with its entries in order. */
  lemma {:induction false} MapOfComesBack(h: Host, v: Value)
    requires h.Valid() && WellFormed(h, v) && v.MapOf? && CleanEntries(v.entries)
    ensures Parse(h, Stringify(h, v)) == Ok(MapOf(NormEntries(v.entries)))
    decreases Rank(v), 0
  {
    StringifyTagged(h, v, MapTag, Arr(EntryArrays(v.entries)));
    EntryArraysFacts(h, v.entries);
    CleanComesBack(h, Arr(EntryArrays(v.entries)));
    MapOfFromArray(h, v);
  }

  /** Every set of clean items comes back, with its items in order. */
  lemma {:induction false} SetOfComesBack(h: Host, v: Value)
    requires h.Valid() && WellFormed(h, v) && v.SetOf? && CleanAll(v.items)
    ensures Parse(h, Stringify(h, v)) == Ok(SetOf(NormAll(v.items)))
    decreases Rank(v), 0
  {
    StringifyTagged(h, v, SetTag, Arr(v.items));
    CleanComesBack(h, Arr(v.items));
    SetOfFromArray(h, v);
  }

  /** Bottom-up revival of the top-down replaced tree returns a clean value. */
  lemma {:induction false} CleanComesBack(h: Host, v: Value)
    requires h.Valid() && WellFormed(h, v) && Clean(v)
    ensures Parse(h, Stringify(h, v)) == Ok(Norm(v))
    decreases Rank(v), 1
  {
    match v {
      case Typed(_, _) => TypedComesBack(h, v);
      case MapOf(_) => MapOfComesBack(h, v);
      case SetOf(_) => SetOfComesBack(h, v);
      case Arr(slots) =>
        SlotsComeBack(h, slots);
        ArrComesBack(h, slots);
      case Obj(props) =>
        PropsComeBack(h, props);
        PlainRevives(h, NormProps(props));
        ObjComesBack(h, props, NormProps(props));
      case _ => ScalarComesBack(h, v);
    }
  }

  lemma {:induction false} SlotsComeBack(h: Host, vs: seq<Value>)
    requires h.Valid() && (forall v <- vs :: WellFormed(h, v)) && CleanAll(vs)
    ensures ParseAll(h, StringifyAll(h, vs)) == Ok(NormSlots(vs))
    decreases RankAll(vs)
  {
    if vs != [] {
      CleanComesBack(h, vs[0]);
      SlotsComeBack(h, vs[1..]);
    }
  }

  lemma {:induction false} PropsComeBack(h: Host, props: seq<Prop>)
    requires h.Valid() && (forall p <- props :: WellFormed(h, p.value)) && CleanProps(props)
    ensures ParseMembers(h, StringifyProps(h, props)) == Ok(NormProps(props))
    decreases RankProps(props)
  {
    if props != [] {
      assert props[0] in props && RankProp(props[0]) == 1 + Rank(props[0].value);
      CleanComesBack(h, props[0].value);
      PropsComeBack(h, props[1..]);
    }
  }

  // ---------- Values that are not clean do not come back ----------

  /** How many plain objects a value holds. Each collision with a tag loses one for good. */
  function Objs(v: Value): nat {
    match v
    case MapOf(entries) => ObjsEntries(entries)
    case SetOf(items) => ObjsAll(items)
    case Arr(slots) => ObjsAll(slots)
    case Obj(props) => 1 + ObjsProps(props)
    case _ => 0
  }

  function ObjsAll(vs: seq<Value>): nat {
    if vs == [] then 0 else Objs(vs[0]) + ObjsAll(vs[1..])
  }

  function ObjsEntries(entries: seq<Entry>): nat {
    if entries == [] then 0 else ObjsEntry(entries[0]) + ObjsEntries(entries[1..])
  }

  function ObjsEntry(e: Entry): nat {
    Objs(e.key) + Objs(e.value)
  }

  function ObjsProps(props: seq<Prop>): nat {
    if props == [] then 0 else ObjsProp(props[0]) + ObjsProps(props[1..])
  }

  function ObjsProp(p: Prop): nat {
    Objs(p.value)
  }

  lemma {:induction false} ObjsOfProperty(props: seq<Prop>, name: Name)
    ensures Objs(GetName(props, name)) <= ObjsProps(props)
  {
    if props != [] {
      assert ObjsProp(props[0]) == Objs(props[0].value);
      ObjsOfProperty(props[1..], name);
    }
  }

  lemma {:induction false} ObjsOfTwoProperties(props: seq<Prop>)
    ensures Objs(GetName(props, Index(0))) + Objs(GetName(props, Index(1))) <= ObjsProps(props)
  {
    if props != [] {
      assert ObjsProp(props[0]) == Objs(props[0].value);
      ObjsOfProperty(props[1..], Index(0));
      ObjsOfProperty(props[1..], Index(1));
      ObjsOfTwoProperties(props[1..]);
    }
  }

  lemma ObjsOfPair(item: Value)
    ensures Objs(GetIndex(item, 0)) + Objs(GetIndex(item, 1)) <= Objs(item)
  {
    match item {
      case Obj(props) => ObjsOfTwoProperties(props);
      case Arr(slots) =>
        if |slots| >= 2 {
          assert ObjsAll(slots) == Objs(slots[0]) + (Objs(slots[1..][0]) + ObjsAll(slots[1..][1..]));
        }
      case _ =>
    }
  }

  lemma {:induction false} ObjsMapSet(entries: seq<Entry>, key: Value, value: Value)
    ensures ObjsEntries(MapSet(entries, key, value)) <= ObjsEntries(entries) + Objs(key) + Objs(value)
  {
    if entries == [] {
      assert [Entry(key, value)][1..] == [];
    } else if !SameKey(entries[0].key, key) {
      ObjsMapSet(entries[1..], key, value);
    }
  }

  lemma {:induction false} ObjsMapFrom(slots: seq<Value>, acc: seq<Entry>)
    ensures var r := MapFrom(slots, acc); r.Ok? ==> ObjsEntries(r.value) <= ObjsEntries(acc) + ObjsAll(slots)
  {
    if slots != [] && Read(slots[0]).IsObject() {
      var k, v := CanonicalKey(GetIndex(slots[0], 0)), GetIndex(slots[0], 1);
      ObjsOfPair(slots[0]);
      ObjsMapSet(acc, k, v);
      ObjsMapFrom(slots[1..], MapSet(acc, k, v));
    }
  }

  lemma {:induction false} ObjsAppend(items: seq<Value>, item: Value)
    ensures ObjsAll(items + [item]) == ObjsAll(items) + Objs(item)
  {
    if items == [] {
      assert [item][1..] == [] && [] + [item] == [item];
    } else {
      assert (items + [item])[1..] == items[1..] + [item];
      ObjsAppend(items[1..], item);
    }
  }

  lemma {:induction false} ObjsSetFrom(slots: seq<Value>, acc: seq<Value>)
    ensures ObjsAll(SetFrom(slots, acc)) <= ObjsAll(acc) + ObjsAll(slots)
  {
    if slots != [] {
      ObjsAppend(acc, CanonicalKey(Read(slots[0])));
      ObjsSetFrom(slots[1..], SetAdd(acc, CanonicalKey(Read(slots[0]))));
    }
  }

  lemma MapObjs(slots: seq<Value>)
    ensures var r := MapFrom(slots, []); r.Ok? ==> Objs(MapOf(r.value)) <= Objs(Arr(slots))
  {
    ObjsMapFrom(slots, []);
  }

  lemma RevivedMap(h: Host, props: seq<Prop>)
    requires FirstKind(props, KINDS) == None && HasArray(props, MapTag)
    ensures var r := MapFrom(GetName(props, MapTag).slots, []);
            ReviveCollection(h, props) == if r.Ok? then Ok(MapOf(r.value)) else Err(r.error)
  {
  }

  lemma RevivedMapObjs(h: Host, props: seq<Prop>)
    requires FirstKind(props, KINDS) == None && HasArray(props, MapTag)
    ensures var r := ReviveCollection(h, props); r.Ok? ==> Objs(r.value) <= ObjsProps(props)
  {
    RevivedMap(h, props);
    ObjsOfProperty(props, MapTag);
    MapObjs(GetName(props, MapTag).slots);
  }

  lemma SetObjs(slots: seq<Value>)
    ensures Objs(SetOf(SetFrom(slots, []))) <= Objs(Arr(slots))
  {
    ObjsSetFrom(slots, []);
  }

  lemma RevivedSet(h: Host, props: seq<Prop>)
    requires FirstKind(props, KINDS) == None && !HasArray(props, MapTag) && HasArray(props, SetTag)
    ensures ReviveCollection(h, props) == Ok(SetOf(SetFrom(GetName(props, SetTag).slots, [])))
  {
  }

  lemma RevivedSetObjs(h: Host, props: seq<Prop>)
    requires FirstKind(props, KINDS) == None && !HasArray(props, MapTag) && HasArray(props, SetTag)
    ensures var r := ReviveCollection(h, props); r.Ok? && Objs(r.value) <= ObjsProps(props)
  {
    RevivedSet(h, props);
    ObjsOfProperty(props, SetTag);
    SetObjs(GetName(props, SetTag).slots);
  }

  lemma RevivedTypedObjs(h: Host, props: seq<Prop>)
    requires FirstKind(props, KINDS).Some?
    ensures var r := ReviveCollection(h, props); r.Ok? ==> Objs(r.value) == 0
  {
  }

  lemma CollectionLosesObject(h: Host, props: seq<Prop>)
    ensures var r := ReviveCollection(h, props);
            r.Ok? ==> r.value == Obj(props) || Objs(r.value) <= ObjsProps(props)
  {
    if FirstKind(props, KINDS).Some? {
      RevivedTypedObjs(h, props);
    } else if HasArray(props, MapTag) {
      RevivedMapObjs(h, props);
    } else if HasArray(props, SetTag) {
      RevivedSetObjs(h, props);
    }
  }

  lemma CollectionKeepsUntagged(h: Host, props: seq<Prop>)
    ensures ReviveCollection(h, props) == Ok(Obj(props)) <==>
            !HasArray(props, MapTag) && !HasArray(props, SetTag) &&
            forall k: ArrayKind :: !HasArray(props, KindTag(k))
  {
    NoKind(props);
  }

  lemma RevivedScalarObjs(h: Host, props: seq<Prop>)
    ensures var r := ReviveScalar(h, props); r.Some? && r.value.Ok? ==> Objs(r.value.value) == 0
  {
  }

  lemma TaggedIsRevived(h: Host, props: seq<Prop>)
    requires Tagged(props) && ReviveScalar(h, props) == None
    ensures ReviveCollection(h, props) != Ok(Obj(props))
  {
    CollectionKeepsUntagged(h, props);
  }

  /** An object survives its own revival unless it carries a tag; then it is no longer an object. */
  lemma RevivalLosesTagged(h: Host, props: seq<Prop>)
    ensures !Tagged(props) ==> ReviveObject(h, props) == Ok(Obj(props))
    ensures Tagged(props) && ReviveObject(h, props).Ok? ==> Objs(ReviveObject(h, props).value) <= ObjsProps(props)
  {
    if Tagged(props) {
      RevivedScalarObjs(h, props);
      if ReviveScalar(h, props) == None {
        TaggedIsRevived(h, props);
        CollectionLosesObject(h, props);
      }
    } else {
      PlainRevives(h, props);
    }
  }

  lemma {:induction false} EntryArraysObjs(entries: seq<Entry>)
    ensures ObjsAll(EntryArrays(entries)) == ObjsEntries(entries)
  {
    if entries != [] {
      var k, v := entries[0].key, entries[0].value;
      assert [k, v][1..] == [v] && [v][1..] == [];
      assert ObjsAll([v]) == Objs(v) && ObjsAll([k, v]) == Objs(k) + ObjsAll([v]);
      assert ObjsEntry(entries[0]) == Objs(k) + Objs(v);
      assert EntryArrays(entries)[1..] == EntryArrays(entries[1..]);
      EntryArraysObjs(entries[1..]);
    }
  }

  // The same number of objects, and one fewer where there was a collision.
  ghost predicate Survives(before: nat, clean: bool, r: Result<Value, Error>) {
    r.Ok? ==> Objs(r.value) <= before && (!clean ==> Objs(r.value) < before)
  }

  ghost predicate PropsSurvive(props: seq<Prop>, r: Result<seq<Prop>, Error>) {
    r.Ok? ==> ObjsProps(r.value) <= ObjsProps(props) && (!CleanProps(props) ==> ObjsProps(r.value) < ObjsProps(props))
  }

  ghost predicate ObjectsSurvive(h: Host, v: Value) {
    Survives(Objs(v), Clean(v), Parse(h, Stringify(h, v)))
  }

  /** Revival never adds an object, and every collision costs at least one. */
  lemma {:induction false} CollisionsLoseObjects(h: Host, v: Value)
    requires h.Valid() && WellFormed(h, v)
    ensures ObjectsSurvive(h, v)
    decreases Rank(v)
  {
    match v {
      case MapOf(entries) =>
        StringifyTagged(h, v, MapTag, Arr(EntryArrays(entries)));
        EntryArraysFacts(h, entries);
        CollisionsLoseObjects(h, Arr(EntryArrays(entries)));
        MapLosesObjects(h, v);
      case SetOf(items) =>
        StringifyTagged(h, v, SetTag, Arr(items));
        CollisionsLoseObjects(h, Arr(items));
        SetLosesObjects(h, v);
      case Arr(slots) => SlotsLoseObjects(h, slots);
      case Obj(props) =>
        PropsLoseObjects(h, props);
        ObjectLoses(h, v);
      case _ => CleanComesBack(h, v);
    }
  }

  // A map holds what its array of entries holds.
  lemma MapIsItsArray(h: Host, v: Value)
    requires v.MapOf? && WellFormed(h, v)
    ensures var inner := Arr(EntryArrays(v.entries)); Objs(inner) == Objs(v) && Clean(inner) == Clean(v)
  {
    EntryArraysFacts(h, v.entries);
    EntryArraysObjs(v.entries);
  }

  lemma MapLosesObjects(h: Host, v: Value)
    requires v.MapOf? && WellFormed(h, v) && ObjectsSurvive(h, Arr(EntryArrays(v.entries)))
    ensures ObjectsSurvive(h, v)
  {
    MapIsItsArray(h, v);
    TagLosesNothing(h, v, MapTag, Arr(EntryArrays(v.entries)));
  }

  lemma SetLosesObjects(h: Host, v: Value)
    requires v.SetOf? && ObjectsSurvive(h, Arr(v.items))
    ensures ObjectsSurvive(h, v)
  {
    TagLosesNothing(h, v, SetTag, Arr(v.items));
  }

  lemma ObjectLoses(h: Host, v: Value)
    requires h.Valid() && WellFormed(h, v) && v.Obj?
    requires PropsSurvive(v.props, ParseMembers(h, StringifyProps(h, v.props)))
    ensures Survives(Objs(v), Clean(v), Parse(h, Stringify(h, v)))
  {
    if Lookup(v.props, IsPrincipalFlag) == Some(Bool(true)) {
      FlaggedObjectLoses(h, v);
    } else {
      PlainObjectLoses(h, v);
    }
  }

  // The replacer takes the object for a principal.
  lemma FlaggedObjectLoses(h: Host, v: Value)
    requires v.Obj? && Lookup(v.props, IsPrincipalFlag) == Some(Bool(true))
    ensures Survives(Objs(v), Clean(v), Parse(h, Stringify(h, v)))
  {
    var props := [Prop(PrincipalTag, Str("[object Object]"))];
    TextComesBack(h, v, PrincipalTag, "[object Object]");
    RevivalLosesTagged(h, props);
    assert Tagged(props);
    assert props[1..] == [] && ObjsProps(props) == ObjsProp(props[0]);
  }

  lemma PlainObjectLoses(h: Host, v: Value)
    requires h.Valid() && WellFormed(h, v) && v.Obj? && Lookup(v.props, IsPrincipalFlag) != Some(Bool(true))
    requires PropsSurvive(v.props, ParseMembers(h, StringifyProps(h, v.props)))
    ensures Survives(Objs(v), Clean(v), Parse(h, Stringify(h, v)))
  {
    if CleanProps(v.props) {
      PropsComeBack(h, v.props);
    }
    PlainStringifies(h, v.props);
    var r := ParseMembers(h, StringifyProps(h, v.props));
    if r.Ok? {
      RevivalSurvives(h, v.props, r.value);
    }
  }

  lemma RevivalSurvives(h: Host, props: seq<Prop>, revived: seq<Prop>)
    requires PropsSurvive(props, Ok(revived)) && (CleanProps(props) ==> revived == NormProps(props))
    requires Lookup(props, IsPrincipalFlag) != Some(Bool(true))
    ensures Survives(Objs(Obj(props)), Clean(Obj(props)), ReviveObject(h, revived))
  {
    RevivalLosesTagged(h, revived);
  }

  // Wrapping an array under a collection tag and reviving it keeps the bound.
  lemma TagLosesNothing(h: Host, v: Value, tag: Name, inner: Value)
    requires Replace(h, v) == Tagged1(tag, inner) && inner.Arr? && (tag == MapTag || tag == SetTag)
    requires Survives(Objs(inner), Clean(inner), Parse(h, Stringify(h, inner)))
    ensures Survives(Objs(inner), Clean(inner), Parse(h, Stringify(h, v)))
  {
    StringifyTagged(h, v, tag, inner);
    ParseTagged(h, tag, Stringify(h, inner));
    var w := Parse(h, Stringify(h, inner));
    if w.Ok? {
      TagRevivalLosesNothing(h, tag, w.value.slots);
    }
  }

  lemma TagRevivalLosesNothing(h: Host, tag: Name, slots: seq<Value>)
    requires tag == MapTag || tag == SetTag
    ensures var r := ReviveObject(h, [Prop(tag, Arr(slots))]); r.Ok? ==> Objs(r.value) <= Objs(Arr(slots))
  {
    var props := [Prop(tag, Arr(slots))];
    GetOne(tag, Arr(slots));
    RevivalLosesTagged(h, props);
    assert ObjsProps(props) == ObjsProp(props[0]) + ObjsProps([]);
    assert ObjsProp(props[0]) == Objs(Arr(slots));
    assert Tagged(props);
  }

  lemma {:induction false} SlotsLoseObjects(h: Host, vs: seq<Value>)
    requires h.Valid() && (forall v <- vs :: WellFormed(h, v))
    ensures var r := ParseAll(h, StringifyAll(h, vs));
            r.Ok? ==> ObjsAll(r.value) <= ObjsAll(vs) && (!CleanAll(vs) ==> ObjsAll(r.value) < ObjsAll(vs))
    decreases RankAll(vs)
  {
    if vs != [] {
      CollisionsLoseObjects(h, vs[0]);
      SlotsLoseObjects(h, vs[1..]);
    }
  }

  lemma {:induction false} PropsLoseObjects(h: Host, props: seq<Prop>)
    requires h.Valid() && (forall p <- props :: WellFormed(h, p.value))
    ensures PropsSurvive(props, ParseMembers(h, StringifyProps(h, props)))
    decreases RankProps(props)
  {
    if props != [] {
      assert props[0] in props && RankProp(props[0]) == 1 + Rank(props[0].value);
      assert ObjsProp(props[0]) == Objs(props[0].value) && CleanProp(props[0]) == Clean(props[0].value);
      CollisionsLoseObjects(h, props[0].value);
      PropsLoseObjects(h, props[1..]);
      var first := Parse(h, Stringify(h, props[0].value));
      if first.Ok? {
        var p := Prop(props[0].name, first.value);
        assert ObjsProp(p) == Objs(first.value);
      }
    }
  }

  lemma {:induction false} NormKeepsObjects(v: Value)
    ensures Objs(Norm(v)) == Objs(v)
  {
    match v {
      case MapOf(entries) => NormKeepsEntryObjects(entries);
      case SetOf(items) => NormKeepsItemObjects(items);
      case Arr(slots) => NormKeepsItemObjects(slots);
      case Obj(props) => NormKeepsPropObjects(props);
      case _ =>
    }
  }

  lemma {:induction false} NormKeepsItemObjects(vs: seq<Value>)
    ensures ObjsAll(NormAll(vs)) == ObjsAll(vs) && ObjsAll(NormSlots(vs)) == ObjsAll(vs)
  {
    if vs != [] {
      NormKeepsObjects(vs[0]);
      NormKeepsItemObjects(vs[1..]);
    }
  }

  lemma {:induction false} NormKeepsEntryObjects(entries: seq<Entry>)
    ensures ObjsEntries(NormEntries(entries)) == ObjsEntries(entries)
  {
    if entries != [] {
      NormKeepsEntryObject(entries[0]);
      NormKeepsEntryObjects(entries[1..]);
    }
  }

  lemma {:induction false} NormKeepsEntryObject(e: Entry)
    ensures ObjsEntry(NormEntry(e)) == ObjsEntry(e)
  {
    NormKeepsObjects(e.key);
    NormKeepsObjects(e.value);
  }

  lemma {:induction false} NormKeepsPropObjects(props: seq<Prop>)
    ensures ObjsProps(NormProps(props)) == ObjsProps(props)
  {
    if props != [] {
      NormKeepsPropObject(props[0]);
      NormKeepsPropObjects(props[1..]);
    }
  }

  lemma {:induction false} NormKeepsPropObject(p: Prop)
    ensures ObjsProp(NormProp(p)) == ObjsProp(p) == Objs(NormProp(p).value)
  {
    NormKeepsObjects(p.value);
  }

  // ---------- Main results ----------

  /** The revived value is the value, up to normalisation. */
  ghost predicate ComesBack(h: Host, v: Value) {
    Parse(h, Stringify(h, v)) == Ok(Norm(v))
  }

  /** A value comes back, up to normalisation, exactly when it is clean. */
  lemma {:induction false} RoundTrip(h: Host, v: Value)
    requires h.Valid() && WellFormed(h, v)
    ensures ComesBack(h, v) <==> Clean(v)
  {
    if Clean(v) {
      CleanComesBack(h, v);
    } else {
      CollisionsLoseObjects(h, v);
      NormKeepsObjects(v);
    }
  }

  /** `stableJson.toBytes` */
  function ToBytes(h: Host, v: Value): seq<bv8> {
    h.write(Stringify(h, v))
  }

  /** `stableJson.fromBytes` */
  function FromBytes(h: Host, bytes: seq<bv8>): Result<Value, Error> {
    match h.read(bytes)
    case None => Err(SyntaxError)
    case Some(j) => Parse(h, j)
  }

  /** The same law for the `Serializable` that every `StableBTreeMap` uses by default. */
  lemma BytesRoundTrip(h: Host, v: Value)
    requires h.Valid() && WellFormed(h, v) && h.ReadsBack(v)
    ensures FromBytes(h, ToBytes(h, v)) == Ok(Norm(v)) <==> Clean(v)
  {
    RoundTrip(h, v);
  }

  /** The very value is read back exactly when it is clean and in normal form. */
  lemma BytesReturnValue(h: Host, v: Value)
    requires h.Valid() && WellFormed(h, v) && h.ReadsBack(v)
    ensures FromBytes(h, ToBytes(h, v)) == Ok(v) <==> Clean(v) && Norm(v) == v
  {
    BytesRoundTrip(h, v);
    if !Clean(v) {
      CollisionsLoseObjects(h, v);
    }
  }

  /** Two clean keys stored under the same bytes read back as the same value. */
  lemma {:induction false} EqualBytesMeanEqualValues(h: Host, v: Value, w: Value)
    requires h.Valid() && WellFormed(h, v) && h.ReadsBack(v) && WellFormed(h, w) && h.ReadsBack(w)
    requires Clean(v) && Clean(w) && ToBytes(h, v) == ToBytes(h, w)
    ensures Norm(v) == Norm(w)
  {
    BytesRoundTrip(h, v);
    BytesRoundTrip(h, w);
  }

  /** Values whose printed trees differ are stored under different bytes. */
  lemma BytesDifferWithTrees(h: Host, v: Value, w: Value)
    requires h.ReadsBack(v) && h.ReadsBack(w)
    ensures ToBytes(h, v) == ToBytes(h, w) <==> Stringify(h, v) == Stringify(h, w)
  {
  }

  /** The converse fails: `{a: undefined}` and `{}` read back as the same value and are stored
      under different bytes, so they are two keys of a map. */
  lemma EqualValuesMayDifferInBytes(h: Host, a: string)
    requires h.ReadsBack(Obj([Prop(Other(a), Undefined)])) && h.ReadsBack(Obj([]))
    ensures var v, w := Obj([Prop(Other(a), Undefined)]), Obj([]);
            WellFormed(h, v) && WellFormed(h, w) && Clean(v) && Clean(w) &&
            Norm(v) == Norm(w) && ToBytes(h, v) != ToBytes(h, w)
  {
    var props := [Prop(Other(a), Undefined)];
    UndefinedPropertyIsClean(h, a);
    assert |StringifyProps(h, props)| == 1;
    assert Stringify(h, Obj(props)) != Stringify(h, Obj([]));
  }

  lemma UndefinedPropertyIsClean(h: Host, a: string)
    ensures var v, w := Obj([Prop(Other(a), Undefined)]), Obj([]);
            WellFormed(h, v) && WellFormed(h, w) && Clean(v) && Clean(w) && Norm(v) == w && Norm(w) == w
  {
    var props := [Prop(Other(a), Undefined)];
    assert props[1..] == [] && NormProps(props[1..]) == [];
    assert NormProp(props[0]).value == Undefined && CleanProp(props[0]);
    assert NormProps(props) == [] && CleanProps(props);
  }
}
