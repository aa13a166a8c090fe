/**
 The text of a value and the text of its normal form: what a key of a `StableBTreeMap` is stored under,
 and what the value read back from there would be stored under.
 */
module StableJsonKeys {
  import opened Wrappers
  import opened StableJson
  import opened StableJsonTheorems

  /** No property anywhere in the value is `undefined`. */
  predicate KeepsProperties(v: Value) {
    match v
    case MapOf(entries) => KeepsInEntries(entries)
    case SetOf(items) => KeepsInAll(items)
    case Arr(slots) => KeepsInAll(slots)
    case Obj(props) => KeepsInProps(props)
    case _ => true
  }

  predicate KeepsInAll(vs: seq<Value>) {
    vs == [] || (KeepsProperties(vs[0]) && KeepsInAll(vs[1..]))
  }

  predicate KeepsInEntries(entries: seq<Entry>) {
    entries == [] || (KeepsInEntry(entries[0]) && KeepsInEntries(entries[1..]))
  }

  predicate KeepsInEntry(e: Entry) {
    KeepsProperties(e.key) && KeepsProperties(e.value)
  }

  predicate KeepsInProps(props: seq<Prop>) {
    props == [] || (KeepsInProp(props[0]) && KeepsInProps(props[1..]))
  }

  predicate KeepsInProp(p: Prop) {
    p.value != Undefined && KeepsProperties(p.value)
  }

  /** The number of object members in a tree. */
  function Members(j: Json): nat {
    match j
    case JArr(items) => MembersOfAll(items)
    case JObj(members) => MembersOfObject(members)
    case _ => 0
  }

  function MembersOfAll(items: seq<Json>): nat {
    if items == [] then 0 else Members(items[0]) + MembersOfAll(items[1..])
  }

  function MembersOfObject(members: seq<Member>): nat {
    if members == [] then 0 else 1 + MembersOfMember(members[0]) + MembersOfObject(members[1..])
  }

  function MembersOfMember(m: Member): nat {
    Members(m.value)
  }

  /** The same tree, or one with fewer members. */
  predicate Same(j: Json, j': Json, same: bool) {
    if same then j' == j else Members(j') < Members(j)
  }

  predicate SameAll(js: seq<Json>, js': seq<Json>, same: bool) {
    if same then js' == js else MembersOfAll(js') < MembersOfAll(js)
  }

  lemma SlotPrintsAlike(h: Host, v: Value)
    ensures Stringify(h, Slot(v)) == Stringify(h, v)
  {
  }

  lemma SameCons(j: Json, j': Json, rest: seq<Json>, rest': seq<Json>, sameHead: bool, sameRest: bool)
    requires Same(j, j', sameHead) && SameAll(rest, rest', sameRest)
    ensures SameAll([j] + rest, [j'] + rest', sameHead && sameRest)
  {
    assert ([j] + rest)[1..] == rest && ([j'] + rest')[1..] == rest';
  }

  lemma SameTagged(tag: Name, items: seq<Json>, items': seq<Json>, same: bool)
    requires SameAll(items, items', same)
    ensures Same(JArr(items), JArr(items'), same)
    ensures Same(JObj([Member(tag, JArr(items))]), JObj([Member(tag, JArr(items'))]), same)
  {
    OneMember(tag, JArr(items));
    OneMember(tag, JArr(items'));
  }

  lemma OneMember(tag: Name, j: Json)
    ensures Members(JObj([Member(tag, j)])) == 1 + Members(j)
  {
    var members := [Member(tag, j)];
    assert members[1..] == [] && MembersOfObject(members) == 1 + MembersOfMember(members[0]) + MembersOfObject([]);
  }

  // ---------- The text of the normal form ----------

  lemma NormLeaf(v: Value)
    ensures v != Hole ==> (Norm(v) == Undefined <==> v == Undefined)
    ensures Norm(v) == Bool(true) <==> v == Bool(true)
  {
  }

  lemma LookupCons(p: Prop, rest: seq<Prop>, name: Name)
    ensures Lookup([p] + rest, name) == if p.name == name then Some(p.value) else Lookup(rest, name)
  {
    assert ([p] + rest)[1..] == rest;
  }

  lemma NormPropsCons(p: Prop, rest: seq<Prop>)
    ensures NormProps([p] + rest) == if Norm(p.value) == Undefined then NormProps(rest) else [NormProp(p)] + NormProps(rest)
  {
    assert ([p] + rest)[1..] == rest;
  }

  lemma {:induction false} NormHasNoFlag(props: seq<Prop>, name: Name)
    requires DistinctNames(props)
    ensures Lookup(NormProps(props), name).Some? ==> Lookup(props, name).Some?
    ensures Lookup(NormProps(props), name) == Some(Bool(true)) ==> Lookup(props, name) == Some(Bool(true))
  {
    if props != [] {
      var p, rest := props[0], props[1..];
      assert props == [p] + rest;
      DistinctRest(props);
      NormHasNoFlag(rest, name);
      NormLeaf(p.value);
      NormPropsCons(p, rest);
      LookupCons(p, rest, name);
      LookupCons(NormProp(p), NormProps(rest), name);
      if p.name == name {
        AbsentRest(props, rest);
      }
    }
  }

  lemma DistinctRest(props: seq<Prop>)
    requires DistinctNames(props) && props != []
    ensures DistinctNames(props[1..])
    ensures forall p <- props[1..] :: p.name != props[0].name
  {
  }

  lemma {:induction false} AbsentRest(props: seq<Prop>, rest: seq<Prop>)
    requires props != [] && forall p <- rest :: p.name != props[0].name
    ensures Lookup(rest, props[0].name) == None
  {
    if rest != [] {
      AbsentRest(props, rest[1..]);
    }
  }

  ghost predicate TextKept(h: Host, v: Value) {
    Same(Stringify(h, v), Stringify(h, Norm(v)), KeepsProperties(v))
  }

  // What is printed for a value that is wrapped with an array.
  lemma WrappedText(h: Host, v: Value, tag: Name, slots: seq<Value>)
    requires Replace(h, v) == Tagged1(tag, Arr(slots))
    ensures Stringify(h, v) == JObj([Member(tag, JArr(StringifyAll(h, slots)))])
  {
    StringifyTagged(h, v, tag, Arr(slots));
  }

  lemma MapText(h: Host, v: Value)
    requires v.MapOf?
    requires SameAll(StringifyAll(h, EntryArrays(v.entries)), StringifyAll(h, EntryArrays(NormEntries(v.entries))),
                     KeepsInEntries(v.entries))
    ensures TextKept(h, v)
  {
    var slots, slots' := EntryArrays(v.entries), EntryArrays(NormEntries(v.entries));
    WrappedText(h, v, MapTag, slots);
    WrappedText(h, Norm(v), MapTag, slots');
    SameTagged(MapTag, StringifyAll(h, slots), StringifyAll(h, slots'), KeepsInEntries(v.entries));
  }

  lemma SetText(h: Host, v: Value)
    requires v.SetOf? && SameAll(StringifyAll(h, v.items), StringifyAll(h, NormAll(v.items)), KeepsInAll(v.items))
    ensures TextKept(h, v)
  {
    WrappedText(h, v, SetTag, v.items);
    WrappedText(h, Norm(v), SetTag, NormAll(v.items));
    SameTagged(SetTag, StringifyAll(h, v.items), StringifyAll(h, NormAll(v.items)), KeepsInAll(v.items));
  }

  lemma ArrText(h: Host, v: Value)
    requires v.Arr? && SameAll(StringifyAll(h, v.slots), StringifyAll(h, NormSlots(v.slots)), KeepsInAll(v.slots))
    ensures TextKept(h, v)
  {
    SameTagged(SetTag, StringifyAll(h, v.slots), StringifyAll(h, NormSlots(v.slots)), KeepsInAll(v.slots));
  }

  lemma ObjText(h: Host, v: Value)
    requires v.Obj? && PropsText(h, v.props) && DistinctNames(v.props)
    requires Lookup(v.props, IsPrincipalFlag) != Some(Bool(true))
    ensures TextKept(h, v)
  {
    NormHasNoFlag(v.props, IsPrincipalFlag);
    PlainStringifies(h, v.props);
    PlainStringifies(h, NormProps(v.props));
  }

  lemma LeafText(h: Host, v: Value)
    requires !v.MapOf? && !v.SetOf? && !v.Arr? && !v.Obj?
    ensures TextKept(h, v)
  {
  }

  /** The normal form of a clean value has the same text if no property anywhere is `undefined`, and a
      text with fewer members otherwise. */
  lemma {:induction false} NormText(h: Host, v: Value)
    requires WellFormed(h, v) && Clean(v)
    ensures TextKept(h, v)
    decreases v, 1
  {
    if v.MapOf? {
      NormEntriesText(h, v.entries);
      MapText(h, v);
    } else if v.SetOf? {
      NormAllText(h, v.items);
      SetText(h, v);
    } else if v.Arr? {
      NormAllText(h, v.slots);
      ArrText(h, v);
    } else if v.Obj? {
      NormPropsText(h, v.props);
      ObjText(h, v);
    } else {
      LeafText(h, v);
    }
  }

  lemma {:induction false} NormAllText(h: Host, vs: seq<Value>)
    requires (forall v <- vs :: WellFormed(h, v)) && CleanAll(vs)
    ensures StringifyAll(h, NormSlots(vs)) == StringifyAll(h, NormAll(vs))
    ensures SameAll(StringifyAll(h, vs), StringifyAll(h, NormAll(vs)), KeepsInAll(vs))
    decreases vs, 0
  {
    if vs != [] {
      NormText(h, vs[0]);
      NormAllText(h, vs[1..]);
      SlotPrintsAlike(h, Norm(vs[0]));
      StringifyCons(h, Norm(vs[0]), NormAll(vs[1..]));
      StringifyCons(h, Slot(Norm(vs[0])), NormSlots(vs[1..]));
      SameCons(Stringify(h, vs[0]), Stringify(h, Norm(vs[0])), StringifyAll(h, vs[1..]), StringifyAll(h, NormAll(vs[1..])),
               KeepsProperties(vs[0]), KeepsInAll(vs[1..]));
    }
  }

  lemma StringifyCons(h: Host, v: Value, rest: seq<Value>)
    ensures StringifyAll(h, [v] + rest) == [Stringify(h, v)] + StringifyAll(h, rest)
  {
    assert ([v] + rest)[1..] == rest;
  }

  lemma StringifyPair(h: Host, k: Value, v: Value)
    ensures Stringify(h, Arr([k, v])) == JArr([Stringify(h, k)] + ([Stringify(h, v)] + []))
  {
    assert [k, v] == [k] + [v] && [v] == [v] + [];
    StringifyCons(h, k, [v]);
    StringifyCons(h, v, []);
  }

  lemma {:induction false} NormEntryText(h: Host, e: Entry)
    requires WellFormed(h, e.key) && WellFormed(h, e.value) && CleanEntry(e)
    ensures Same(Stringify(h, Arr([e.key, e.value])), Stringify(h, Arr([Norm(e.key), Norm(e.value)])), KeepsInEntry(e))
    decreases e, 2
  {
    NormText(h, e.key);
    NormText(h, e.value);
    var k, k', v, v' := Stringify(h, e.key), Stringify(h, Norm(e.key)), Stringify(h, e.value), Stringify(h, Norm(e.value));
    StringifyPair(h, e.key, e.value);
    StringifyPair(h, Norm(e.key), Norm(e.value));
    SameCons(v, v', [], [], KeepsProperties(e.value), true);
    SameCons(k, k', [v] + [], [v'] + [], KeepsProperties(e.key), KeepsProperties(e.value));
  }

  lemma {:induction false} NormEntriesText(h: Host, entries: seq<Entry>)
    requires forall e <- entries :: WellFormed(h, e.key) && WellFormed(h, e.value)
    requires CleanEntries(entries)
    ensures SameAll(StringifyAll(h, EntryArrays(entries)), StringifyAll(h, EntryArrays(NormEntries(entries))), KeepsInEntries(entries))
    decreases entries, 0
  {
    if entries != [] {
      var e, e' := entries[0], NormEntry(entries[0]);
      NormEntryText(h, e);
      NormEntriesText(h, entries[1..]);
      EntryArraysCons(e', NormEntries(entries[1..]));
      StringifyCons(h, Arr([e.key, e.value]), EntryArrays(entries[1..]));
      StringifyCons(h, Arr([e'.key, e'.value]), EntryArrays(NormEntries(entries[1..])));
      SameCons(Stringify(h, Arr([e.key, e.value])), Stringify(h, Arr([e'.key, e'.value])),
               StringifyAll(h, EntryArrays(entries[1..])), StringifyAll(h, EntryArrays(NormEntries(entries[1..]))),
               KeepsInEntry(e), KeepsInEntries(entries[1..]));
    }
  }

  lemma EntryArraysCons(e: Entry, rest: seq<Entry>)
    ensures EntryArrays([e] + rest) == [Arr([e.key, e.value])] + EntryArrays(rest)
  {
    assert ([e] + rest)[1..] == rest;
  }

  predicate SameProps(ms: seq<Member>, ms': seq<Member>, same: bool) {
    if same then ms' == ms else MembersOfObject(ms') < MembersOfObject(ms)
  }

  lemma SamePropsCons(m: Member, m': Member, rest: seq<Member>, rest': seq<Member>, sameHead: bool, sameRest: bool)
    requires m.name == m'.name && Same(m.value, m'.value, sameHead) && SameProps(rest, rest', sameRest)
    ensures SameProps([m] + rest, [m'] + rest', sameHead && sameRest)
  {
    assert ([m] + rest)[1..] == rest && ([m'] + rest')[1..] == rest';
  }

  lemma DroppedMember(m: Member, rest: seq<Member>, rest': seq<Member>, same: bool)
    requires SameProps(rest, rest', same)
    ensures SameProps([m] + rest, rest', false)
  {
    assert ([m] + rest)[1..] == rest;
  }

  lemma StringifyPropsCons(h: Host, p: Prop, rest: seq<Prop>)
    ensures StringifyProps(h, [p] + rest) == [Member(p.name, Stringify(h, p.value))] + StringifyProps(h, rest)
  {
    assert ([p] + rest)[1..] == rest;
  }

  lemma {:induction false} NormPropText(h: Host, p: Prop)
    requires WellFormed(h, p.value) && CleanProp(p)
    ensures TextKept(h, p.value)
    decreases p, 2
  {
    NormText(h, p.value);
  }

  ghost predicate PropsText(h: Host, props: seq<Prop>) {
    SameProps(StringifyProps(h, props), StringifyProps(h, NormProps(props)), KeepsInProps(props))
  }

  lemma KeepsInPropsCons(p: Prop, rest: seq<Prop>)
    ensures KeepsInProps([p] + rest) == (KeepsInProp(p) && KeepsInProps(rest))
  {
    assert ([p] + rest)[1..] == rest;
  }

  lemma DroppedPropText(h: Host, p: Prop, rest: seq<Prop>)
    requires p.value == Undefined && PropsText(h, rest)
    ensures PropsText(h, [p] + rest)
  {
    StringifyPropsCons(h, p, rest);
    NormPropsCons(p, rest);
    KeepsInPropsCons(p, rest);
    DroppedMember(Member(p.name, Stringify(h, p.value)), StringifyProps(h, rest), StringifyProps(h, NormProps(rest)),
                  KeepsInProps(rest));
  }

  lemma KeptPropText(h: Host, p: Prop, rest: seq<Prop>)
    requires p.value != Undefined && p.value != Hole && PropsText(h, rest)
    requires TextKept(h, p.value)
    ensures PropsText(h, [p] + rest)
  {
    NormLeaf(p.value);
    StringifyPropsCons(h, p, rest);
    NormPropsCons(p, rest);
    KeepsInPropsCons(p, rest);
    StringifyPropsCons(h, NormProp(p), NormProps(rest));
    SamePropsCons(Member(p.name, Stringify(h, p.value)), Member(p.name, Stringify(h, Norm(p.value))),
                  StringifyProps(h, rest), StringifyProps(h, NormProps(rest)), KeepsProperties(p.value), KeepsInProps(rest));
  }

  lemma {:induction false} NormPropsText(h: Host, props: seq<Prop>)
    requires forall p <- props :: p.value != Hole && WellFormed(h, p.value)
    requires CleanProps(props)
    ensures PropsText(h, props)
    decreases props, 0
  {
    if props != [] {
      NormPropsText(h, props[1..]);
      assert props == [props[0]] + props[1..];
      if props[0].value == Undefined {
        DroppedPropText(h, props[0], props[1..]);
      } else {
        NormPropText(h, props[0]);
        KeptPropText(h, props[0], props[1..]);
      }
    }
  }

  /** A clean value and its normal form are printed alike exactly when no property anywhere is
      `undefined`. */
  lemma NormPrintsAlike(h: Host, v: Value)
    requires WellFormed(h, v) && Clean(v)
    ensures Stringify(h, Norm(v)) == Stringify(h, v) <==> KeepsProperties(v)
  {
    NormText(h, v);
  }
}
