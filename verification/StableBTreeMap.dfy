/**
 `StableBTreeMap`: keys and values pass through serializers into the byte-keyed ordered map of
 `ByteStore`. What a caller sees is a finite map, exactly when the serializers round-trip.
 */
module StableBTreeMaps {
  import opened Wrappers
  import opened ByteStore

  datatype Serializer<!T> = Serializer(toBytes: T -> Bytes, fromBytes: Bytes -> T) {
    ghost predicate RoundTrips(x: T) {
      fromBytes(toBytes(x)) == x
    }
  }

  datatype Codec<!K, !V> = Codec(keys: Serializer<K>, values: Serializer<V>)

  // The most entries that a map may hold, and the greatest `startIndex` and `length`.
  const LIMIT: nat := 0xFFFF_FFFF

  datatype Op<K, V> =
    | Get(key: K)
    | ContainsKey(key: K)
    | Insert(key: K, value: V)
    | Remove(key: K)
    | Len
    | IsEmpty
    | Items(start: Option<int>, length: Option<int>)
    | Keys(start: Option<int>, length: Option<int>)
    | Values(start: Option<int>, length: Option<int>)

  datatype Answer<K, V> =
    | Found(value: Option<V>)
    | Flag(b: bool)
    | Count(n: nat)
    | ItemPage(items: seq<(K, V)>)
    | KeyPage(keys: seq<K>)
    | ValuePage(values: seq<V>)
    | Thrown

  predicate Unsigned32(n: Option<int>) {
    n.Some? ==> 0 <= n.value <= LIMIT
  }

  /** How many of the first entries `skip(start)` passes over. */
  function From(count: nat, start: Option<int>): (from: nat)
    requires Unsigned32(start)
    ensures from <= count
  {
    if start.GetOr(0) <= count then start.GetOr(0) else count
  }

  function To(count: nat, start: Option<int>, length: Option<int>): (to: nat)
    requires Unsigned32(start) && Unsigned32(length)
    ensures From(count, start) <= to <= count
  {
    var left := count - From(count, start);
    From(count, start) + if length.GetOr(count) <= left then length.GetOr(count) else left
  }

  /** `iter().skip(start).take(length)` */
  function Page<T>(all: seq<T>, start: Option<int>, length: Option<int>): seq<T>
    requires Unsigned32(start) && Unsigned32(length)
  {
    all[From(|all|, start)..To(|all|, start, length)]
  }

  function DecodedKeys<K, V>(c: Codec<K, V>, entries: seq<Entry>): seq<K> {
    seq(|entries|, i requires 0 <= i < |entries| => c.keys.fromBytes(entries[i].key))
  }

  function DecodedValues<K, V>(c: Codec<K, V>, entries: seq<Entry>): seq<V> {
    seq(|entries|, i requires 0 <= i < |entries| => c.values.fromBytes(entries[i].value))
  }

  function Decoded<K, V>(c: Codec<K, V>, entries: seq<Entry>): seq<(K, V)> {
    seq(|entries|, i requires 0 <= i < |entries| =>
      (c.keys.fromBytes(entries[i].key), c.values.fromBytes(entries[i].value)))
  }

  function DecodedFound<K, V>(c: Codec<K, V>, found: Option<Bytes>): Answer<K, V> {
    Found(if found.Some? then Some(c.values.fromBytes(found.value)) else None)
  }

  function NextEntries<K, V>(c: Codec<K, V>, entries: seq<Entry>, op: Op<K, V>): seq<Entry> {
    match op
    case Insert(key, value) =>
      var bytes := c.keys.toBytes(key);
      if Find(entries, bytes).None? && |entries| >= LIMIT then entries
      else Put(entries, bytes, c.values.toBytes(value))
    case Remove(key) => Drop(entries, c.keys.toBytes(key))
    case _ => entries
  }

  function Answered<K, V>(c: Codec<K, V>, entries: seq<Entry>, op: Op<K, V>): Answer<K, V> {
    match op
    case Get(key) => DecodedFound(c, Find(entries, c.keys.toBytes(key)))
    case ContainsKey(key) => Flag(Find(entries, c.keys.toBytes(key)).Some?)
    case Insert(key, _) =>
      var found := Find(entries, c.keys.toBytes(key));
      if found.None? && |entries| >= LIMIT then Thrown else DecodedFound(c, found)
    case Remove(key) => DecodedFound(c, Find(entries, c.keys.toBytes(key)))
    case Len => Count(|entries|)
    case IsEmpty => Flag(entries == [])
    case Items(start, length) =>
      if Unsigned32(start) && Unsigned32(length) then ItemPage(Decoded(c, Page(entries, start, length))) else Thrown
    case Keys(start, length) =>
      if Unsigned32(start) && Unsigned32(length) then KeyPage(DecodedKeys(c, Page(entries, start, length))) else Thrown
    case Values(start, length) =>
      if Unsigned32(start) && Unsigned32(length) then ValuePage(DecodedValues(c, Page(entries, start, length))) else Thrown
  }

  function Answers<K, V>(c: Codec<K, V>, entries: seq<Entry>, ops: seq<Op<K, V>>): seq<Answer<K, V>>
    decreases |ops|
  {
    if ops == [] then []
    else [Answered(c, entries, ops[0])] + Answers(c, NextEntries(c, entries, ops[0]), ops[1..])
  }

  // ---------- The class ----------

  class StableBTreeMap<K, V> {
    const codec: Codec<K, V>
    var entries: seq<Entry>

    constructor (codec: Codec<K, V>, entries: seq<Entry>)
      ensures this.codec == codec && this.entries == entries
    {
      this.codec, this.entries := codec, entries;
    }

    method ContainsKey(key: K) returns (present: bool)
      ensures Flag(present) == Answered(codec, entries, Op.ContainsKey(key))
    {
      present := Find(entries, codec.keys.toBytes(key)).Some?;
    }

    method Get(key: K) returns (value: Option<V>)
      ensures Found(value) == Answered(codec, entries, Op.Get(key))
    {
      var found := Find(entries, codec.keys.toBytes(key));
      value := if found.Some? then Some(codec.values.fromBytes(found.value)) else None;
    }

    method Insert(key: K, value: V) returns (previous: Result<Option<V>, ()>)
      modifies this
      ensures entries == NextEntries(codec, old(entries), Op.Insert(key, value))
      ensures Answered(codec, old(entries), Op.Insert(key, value)) == if previous.Ok? then Found(previous.value) else Thrown
    {
      var encodedKey, encodedValue := codec.keys.toBytes(key), codec.values.toBytes(value);
      var found := Find(entries, encodedKey);
      if found.None? && |entries| >= LIMIT {
        return Err(());
      }
      entries := Put(entries, encodedKey, encodedValue);
      previous := Ok(if found.Some? then Some(codec.values.fromBytes(found.value)) else None);
    }

    method Remove(key: K) returns (previous: Option<V>)
      modifies this
      ensures entries == NextEntries(codec, old(entries), Op.Remove(key))
      ensures Found(previous) == Answered(codec, old(entries), Op.Remove(key))
    {
      previous := Get(key);
      entries := Drop(entries, codec.keys.toBytes(key));
    }

    method Items(start: Option<int>, length: Option<int>) returns (page: Result<seq<(K, V)>, ()>)
      ensures Answered(codec, entries, Op.Items(start, length)) == if page.Ok? then ItemPage(page.value) else Thrown
    {
      if !Unsigned32(start) || !Unsigned32(length) {
        return Err(());
      }
      page := Ok(Decoded(codec, Page(entries, start, length)));
    }

    method Keys(start: Option<int>, length: Option<int>) returns (page: Result<seq<K>, ()>)
      ensures Answered(codec, entries, Op.Keys(start, length)) == if page.Ok? then KeyPage(page.value) else Thrown
    {
      if !Unsigned32(start) || !Unsigned32(length) {
        return Err(());
      }
      page := Ok(DecodedKeys(codec, Page(entries, start, length)));
    }

    method Values(start: Option<int>, length: Option<int>) returns (page: Result<seq<V>, ()>)
      ensures Answered(codec, entries, Op.Values(start, length)) == if page.Ok? then ValuePage(page.value) else Thrown
    {
      if !Unsigned32(start) || !Unsigned32(length) {
        return Err(());
      }
      page := Ok(DecodedValues(codec, Page(entries, start, length)));
    }

    method Len() returns (n: nat)
      ensures Count(n) == Answered(codec, entries, Op.Len)
    {
      n := |entries|;
    }

    method IsEmpty() returns (empty: bool)
      ensures Flag(empty) == Answered(codec, entries, Op.IsEmpty)
    {
      empty := |entries| == 0;
    }
  }

  // ---------- A finite map ----------

  function Lookup<K(==), V>(m: map<K, V>, key: K): Option<V> {
    if key in m then Some(m[key]) else None
  }

  /** The items of a map in the order of their encoded keys. */
  ghost predicate IsListing<K, V>(c: Codec<K, V>, m: map<K, V>, items: seq<(K, V)>) {
    && (forall i, j :: 0 <= i < j < |items| ==> Less(c.keys.toBytes(items[i].0), c.keys.toBytes(items[j].0)))
    && (forall i :: 0 <= i < |items| ==> items[i].0 in m && m[items[i].0] == items[i].1)
    && (forall k :: k in m ==> exists i :: 0 <= i < |items| && items[i].0 == k)
  }

  function Firsts<K, V>(items: seq<(K, V)>): seq<K> {
    seq(|items|, i requires 0 <= i < |items| => items[i].0)
  }

  function Seconds<K, V>(items: seq<(K, V)>): seq<V> {
    seq(|items|, i requires 0 <= i < |items| => items[i].1)
  }

  /** The map holds 2^32 - 1 entries. */
  predicate Full<K, V>(m: map<K, V>) {
    |m| >= 0xFFFF_FFFF
  }

  function NextMap<K(==), V>(m: map<K, V>, op: Op<K, V>): map<K, V> {
    match op
    case Insert(key, value) => if key !in m && Full(m) then m else m[key := value]
    case Remove(key) => m - {key}
    case _ => m
  }

  /** The answer a finite map gives. */
  ghost predicate Meets<K(!new), V(!new)>(c: Codec<K, V>, m: map<K, V>, op: Op<K, V>, answer: Answer<K, V>) {
    match op
    case Get(key) => answer == Found(Lookup(m, key))
    case ContainsKey(key) => answer == Flag(key in m)
    case Insert(key, _) => answer == if key !in m && Full(m) then Thrown else Found(Lookup(m, key))
    case Remove(key) => answer == Found(Lookup(m, key))
    case Len => answer == Count(|m|)
    case IsEmpty => answer == Flag(m == map[])
    case Items(start, length) => MeetsPage(c, m, op, answer)
    case Keys(start, length) => MeetsPage(c, m, op, answer)
    case Values(start, length) => MeetsPage(c, m, op, answer)
  }

  /** A number of 32 bits, or none. */
  predicate Fits32(n: Option<int>) {
    n.None? || 0 <= n.value < 0x1_0000_0000
  }

  /** What is listed from `start` on, and at most `length` of it: without a start from the first on, without
      a length up to the last. */
  ghost predicate IsPage<T>(all: seq<T>, start: Option<int>, length: Option<int>, page: seq<T>)
    requires Fits32(start) && Fits32(length)
  {
    var first := if start.Some? then start.value else 0;
    && |page| == (if |all| <= first then 0
                  else if length.Some? && length.value < |all| - first then length.value
                  else |all| - first)
    && forall i :: 0 <= i < |page| ==> page[i] == all[first + i]
  }

  ghost predicate IsPageOf<K, V>(items: seq<(K, V)>, op: Op<K, V>, answer: Answer<K, V>)
    requires op.Items? || op.Keys? || op.Values?
    requires Fits32(op.start) && Fits32(op.length)
  {
    match op
    case Items(start, length) => answer.ItemPage? && IsPage(items, start, length, answer.items)
    case Keys(start, length) => answer.KeyPage? && IsPage(Firsts(items), start, length, answer.keys)
    case Values(start, length) => answer.ValuePage? && IsPage(Seconds(items), start, length, answer.values)
  }

  ghost predicate MeetsPage<K(!new), V(!new)>(c: Codec<K, V>, m: map<K, V>, op: Op<K, V>, answer: Answer<K, V>)
    requires op.Items? || op.Keys? || op.Values?
  {
    if Fits32(op.start) && Fits32(op.length)
    then exists items :: IsListing(c, m, items) && IsPageOf(items, op, answer)
    else answer == Thrown
  }

  ghost predicate AllMeet<K(!new), V(!new)>(c: Codec<K, V>, m: map<K, V>, ops: seq<Op<K, V>>, answers: seq<Answer<K, V>>)
    decreases |ops|
  {
    if ops == [] then answers == []
    else
      && answers != []
      && Meets(c, m, ops[0], answers[0])
      && AllMeet(c, NextMap(m, ops[0]), ops[1..], answers[1..])
  }

  // ---------- Listings ----------

  lemma ListingTail<K, V>(c: Codec<K, V>, m: map<K, V>, items: seq<(K, V)>)
    requires IsListing(c, m, items) && items != []
    ensures IsListing(c, m - {items[0].0}, items[1..])
  {
    var m', tail := m - {items[0].0}, items[1..];
    forall i | 0 <= i < |tail| ensures tail[i].0 in m' {
      assert tail[i] == items[i + 1];
      LessIsStrict(c.keys.toBytes(items[0].0));
    }
    forall k | k in m' ensures exists i :: 0 <= i < |tail| && tail[i].0 == k {
      var i :| 0 <= i < |items| && items[i].0 == k;
      assert tail[i - 1].0 == k;
    }
  }

  lemma {:induction false} ListingCount<K, V>(c: Codec<K, V>, m: map<K, V>, items: seq<(K, V)>)
    requires IsListing(c, m, items)
    ensures |items| == |m|
    decreases |items|
  {
    if items == [] {
      assert m == map[];
    } else {
      ListingTail(c, m, items);
      ListingCount(c, m - {items[0].0}, items[1..]);
      assert m.Keys == (m - {items[0].0}).Keys + {items[0].0};
    }
  }

  lemma FirstIsLeast<K, V>(c: Codec<K, V>, m: map<K, V>, items: seq<(K, V)>, other: seq<(K, V)>)
    requires IsListing(c, m, items) && IsListing(c, m, other) && items != [] && other != []
    ensures items[0] == other[0]
  {
    var i :| 0 <= i < |items| && items[i].0 == other[0].0;
    var j :| 0 <= j < |other| && other[j].0 == items[0].0;
    if i > 0 && j > 0 {
      LessTransitive(c.keys.toBytes(items[0].0), c.keys.toBytes(other[0].0), c.keys.toBytes(items[0].0));
      LessIsStrict(c.keys.toBytes(items[0].0));
    }
  }

  /** A map has at most one listing: the pages are determined. */
  lemma {:induction false} ListingUnique<K, V>(c: Codec<K, V>, m: map<K, V>, items: seq<(K, V)>, other: seq<(K, V)>)
    requires IsListing(c, m, items) && IsListing(c, m, other)
    ensures items == other
    decreases |items|
  {
    ListingCount(c, m, items);
    ListingCount(c, m, other);
    if items != [] {
      FirstIsLeast(c, m, items, other);
      ListingTail(c, m, items);
      ListingTail(c, m, other);
      ListingUnique(c, m - {items[0].0}, items[1..], other[1..]);
      assert items == [items[0]] + items[1..] && other == [other[0]] + other[1..];
    }
  }

  // ---------- The entries represent a map ----------

  ghost predicate Represents<K, V>(c: Codec<K, V>, entries: seq<Entry>, m: map<K, V>) {
    && Sorted(entries)
    && (forall k :: k in m ==>
          && c.keys.RoundTrips(k) && c.values.RoundTrips(m[k])
          && c.keys.toBytes(k) in Stored(entries) && Stored(entries)[c.keys.toBytes(k)] == c.values.toBytes(m[k]))
    && (forall b :: b in Stored(entries) ==> exists k :: k in m && c.keys.toBytes(k) == b)
  }

  ghost predicate OpRoundTrips<K, V>(c: Codec<K, V>, op: Op<K, V>) {
    && (op.Get? || op.ContainsKey? || op.Insert? || op.Remove? ==> c.keys.RoundTrips(op.key))
    && (op.Insert? ==> c.values.RoundTrips(op.value))
  }

  lemma FindMeets<K, V>(c: Codec<K, V>, entries: seq<Entry>, m: map<K, V>, key: K)
    requires Represents(c, entries, m) && c.keys.RoundTrips(key)
    ensures key in m <==> Find(entries, c.keys.toBytes(key)).Some?
    ensures key in m ==> Find(entries, c.keys.toBytes(key)) == Some(c.values.toBytes(m[key]))
    ensures key in m <==> c.keys.toBytes(key) in Stored(entries)
  {
    FindIsLookup(entries, c.keys.toBytes(key));
    if c.keys.toBytes(key) in Stored(entries) {
      var k :| k in m && c.keys.toBytes(k) == c.keys.toBytes(key);
    }
  }

  lemma ListsItems<K, V>(c: Codec<K, V>, entries: seq<Entry>, m: map<K, V>)
    requires Represents(c, entries, m)
    ensures IsListing(c, m, Decoded(c, entries))
  {
    var items := Decoded(c, entries);
    forall i | 0 <= i < |items|
      ensures items[i].0 in m && m[items[i].0] == items[i].1 && c.keys.toBytes(items[i].0) == entries[i].key
    {
      StoredAt(entries, i);
      var k :| k in m && c.keys.toBytes(k) == entries[i].key;
      assert c.keys.RoundTrips(k) && c.values.RoundTrips(m[k]);
    }
    forall i, j | 0 <= i < j < |items| ensures Less(c.keys.toBytes(items[i].0), c.keys.toBytes(items[j].0)) {
      SortedAt(entries, i, j);
    }
    forall k | k in m ensures exists i :: 0 <= i < |items| && items[i].0 == k {
      var i := StoredSomewhere(entries, c.keys.toBytes(k));
      assert c.keys.RoundTrips(k) && items[i].0 == k;
    }
  }

  lemma PutRepresents<K, V>(c: Codec<K, V>, entries: seq<Entry>, m: map<K, V>, key: K, value: V)
    requires Represents(c, entries, m) && c.keys.RoundTrips(key) && c.values.RoundTrips(value)
    ensures Represents(c, Put(entries, c.keys.toBytes(key), c.values.toBytes(value)), m[key := value])
  {
    var bytes := c.keys.toBytes(key);
    var entries' := Put(entries, bytes, c.values.toBytes(value));
    PutStores(entries, bytes, c.values.toBytes(value));
    forall b | b in Stored(entries') ensures exists k :: k in m[key := value] && c.keys.toBytes(k) == b {
      if b == bytes {
        assert key in m[key := value];
      } else {
        var k :| k in m && c.keys.toBytes(k) == b;
        assert k in m[key := value];
      }
    }
  }

  lemma DropRepresents<K, V>(c: Codec<K, V>, entries: seq<Entry>, m: map<K, V>, key: K)
    requires Represents(c, entries, m) && c.keys.RoundTrips(key)
    ensures Represents(c, Drop(entries, c.keys.toBytes(key)), m - {key})
  {
    var bytes := c.keys.toBytes(key);
    DropRemoves(entries, bytes);
    forall b | b in Stored(Drop(entries, bytes)) ensures exists k :: k in m - {key} && c.keys.toBytes(k) == b {
      var k :| k in m && c.keys.toBytes(k) == b;
      assert k in m - {key};
    }
  }

  lemma SameSize<K, V>(c: Codec<K, V>, entries: seq<Entry>, m: map<K, V>)
    requires Represents(c, entries, m)
    ensures |entries| == |m|
  {
    ListsItems(c, entries, m);
    ListingCount(c, m, Decoded(c, entries));
  }

  lemma NextRepresents<K, V>(c: Codec<K, V>, entries: seq<Entry>, m: map<K, V>, op: Op<K, V>)
    requires Represents(c, entries, m) && OpRoundTrips(c, op)
    ensures Represents(c, NextEntries(c, entries, op), NextMap(m, op))
  {
    SameSize(c, entries, m);
    if op.Insert? {
      FindMeets(c, entries, m, op.key);
      PutRepresents(c, entries, m, op.key, op.value);
    } else if op.Remove? {
      DropRepresents(c, entries, m, op.key);
    }
  }

  lemma DecodedSlices<K, V>(c: Codec<K, V>, entries: seq<Entry>, i: nat, j: nat)
    requires i <= j <= |entries|
    ensures Decoded(c, entries[i..j]) == Decoded(c, entries)[i..j]
    ensures DecodedKeys(c, entries[i..j]) == Firsts(Decoded(c, entries))[i..j]
    ensures DecodedValues(c, entries[i..j]) == Seconds(Decoded(c, entries))[i..j]
  {
  }

  /** Skipping and taking cut out the page. */
  lemma PageIsPage<T>(all: seq<T>, start: Option<int>, length: Option<int>)
    requires Unsigned32(start) && Unsigned32(length)
    ensures IsPage(all, start, length, all[From(|all|, start)..To(|all|, start, length)])
  {
  }

  /** The pages of the stored entries are those of the decoded entries, and only a number of more than 32
      bits is refused. */
  lemma PagesExact<K, V>(c: Codec<K, V>, entries: seq<Entry>, op: Op<K, V>)
    requires op.Items? || op.Keys? || op.Values?
    ensures Answered(c, entries, op).Thrown? <==> !Fits32(op.start) || !Fits32(op.length)
    ensures Fits32(op.start) && Fits32(op.length) ==> IsPageOf(Decoded(c, entries), op, Answered(c, entries, op))
  {
    if Fits32(op.start) && Fits32(op.length) {
      var items := Decoded(c, entries);
      DecodedSlices(c, entries, From(|entries|, op.start), To(|entries|, op.start, op.length));
      PageIsPage(items, op.start, op.length);
      PageIsPage(Firsts(items), op.start, op.length);
      PageIsPage(Seconds(items), op.start, op.length);
    }
  }

  lemma PageMeets<K(!new), V(!new)>(c: Codec<K, V>, entries: seq<Entry>, m: map<K, V>, op: Op<K, V>)
    requires Represents(c, entries, m) && (op.Items? || op.Keys? || op.Values?)
    ensures MeetsPage(c, m, op, Answered(c, entries, op))
  {
    ListsItems(c, entries, m);
    PagesExact(c, entries, op);
  }

  lemma AnswerMeets<K(!new), V(!new)>(c: Codec<K, V>, entries: seq<Entry>, m: map<K, V>, op: Op<K, V>)
    requires Represents(c, entries, m) && OpRoundTrips(c, op)
    ensures Meets(c, m, op, Answered(c, entries, op))
  {
    SameSize(c, entries, m);
    if op.Items? || op.Keys? || op.Values? {
      PageMeets(c, entries, m, op);
    } else if !op.Len? && !op.IsEmpty? {
      FindMeets(c, entries, m, op.key);
      if op.key in m {
        assert c.values.RoundTrips(m[op.key]);
      }
    }
  }

  // ---------- Main results ----------

  /** Over keys and values that round-trip, every run of operations answers as a finite map does. */
  lemma {:induction false} RunRefines<K(!new), V(!new)>(c: Codec<K, V>, entries: seq<Entry>, m: map<K, V>, ops: seq<Op<K, V>>)
    requires Represents(c, entries, m) && forall i :: 0 <= i < |ops| ==> OpRoundTrips(c, ops[i])
    ensures AllMeet(c, m, ops, Answers(c, entries, ops))
    decreases |ops|
  {
    if ops != [] {
      AnswerMeets(c, entries, m, ops[0]);
      NextRepresents(c, entries, m, ops[0]);
      RunRefines(c, NextEntries(c, entries, ops[0]), NextMap(m, ops[0]), ops[1..]);
      var rest := Answers(c, NextEntries(c, entries, ops[0]), ops[1..]);
      assert ([Answered(c, entries, ops[0])] + rest)[1..] == rest;
    }
  }

  lemma SecondMeets<K(!new), V(!new)>(c: Codec<K, V>, m: map<K, V>, ops: seq<Op<K, V>>, answers: seq<Answer<K, V>>)
    requires |ops| == 2 && AllMeet(c, m, ops, answers)
    ensures |answers| >= 2 && Meets(c, NextMap(m, ops[0]), ops[1], answers[1])
  {
    assert ops[1..][0] == ops[1] && answers[1..][0] == answers[1];
  }

  lemma SecondAnswer<K, V>(c: Codec<K, V>, entries: seq<Entry>, ops: seq<Op<K, V>>)
    requires |ops| == 2
    ensures |Answers(c, entries, ops)| == 2
    ensures Answers(c, entries, ops)[1] == Answered(c, NextEntries(c, entries, ops[0]), ops[1])
  {
    var entries' := NextEntries(c, entries, ops[0]);
    assert Answers(c, entries', ops[1..]) == [Answered(c, entries', ops[1])] + Answers(c, NextEntries(c, entries', ops[1]), ops[1..][1..]);
  }

  /** The listing of a single entry is right only if its key and value round-trip. */
  lemma OneItemShows<K(!new), V(!new)>(c: Codec<K, V>, key: K, value: V)
    requires var entries := [Entry(c.keys.toBytes(key), c.values.toBytes(value))];
             MeetsPage(c, map[key := value], Items(None, None), Answered(c, entries, Items(None, None)))
    ensures c.keys.RoundTrips(key) && c.values.RoundTrips(value)
  {
    var entries := [Entry(c.keys.toBytes(key), c.values.toBytes(value))];
    var op: Op<K, V> := Items(None, None);
    var items :| IsListing(c, map[key := value], items) && IsPageOf(items, op, Answered(c, entries, op));
    OneListing(c, key, value);
    ListingUnique(c, map[key := value], items, [(key, value)]);
    assert Page(entries, None, None) == entries;
    assert items[0] == Decoded(c, entries)[0];
  }

  /** Inserting one entry and listing the items already shows whether its key and value round-trip. */
  lemma InsertThenItems<K(!new), V(!new)>(c: Codec<K, V>, key: K, value: V)
    ensures var ops := [Insert(key, value), Items(None, None)];
            AllMeet(c, map[], ops, Answers(c, [], ops)) <==> c.keys.RoundTrips(key) && c.values.RoundTrips(value)
  {
    var ops := [Insert(key, value), Items(None, None)];
    if c.keys.RoundTrips(key) && c.values.RoundTrips(value) {
      RunRefines(c, [], map[], ops);
    } else if AllMeet(c, map[], ops, Answers(c, [], ops)) {
      SecondMeets(c, map[], ops, Answers(c, [], ops));
      SecondAnswer(c, [], ops);
      assert NextMap(map[], ops[0]) == map[key := value];
      assert NextEntries(c, [], ops[0]) == [Entry(c.keys.toBytes(key), c.values.toBytes(value))];
      assert MeetsPage(c, map[key := value], ops[1], Answered(c, NextEntries(c, [], ops[0]), ops[1]));
      OneItemShows(c, key, value);
    }
  }

  lemma OneListing<K, V>(c: Codec<K, V>, key: K, value: V)
    ensures IsListing(c, map[key := value], [(key, value)])
  {
    assert [(key, value)][0].0 == key;
  }

  ghost predicate ActsAsMap<K(!new), V(!new)>(c: Codec<K, V>, ops: seq<Op<K, V>>) {
    AllMeet(c, map[], ops, Answers(c, [], ops))
  }

  /** A fresh `StableBTreeMap` is a finite map, whatever is done to it, if and only if both serializers
      round-trip everywhere. */
  lemma FiniteMapIffRoundTrips<K(!new), V(!new)>(c: Codec<K, V>, someKey: K, someValue: V)
    ensures (forall ops :: ActsAsMap(c, ops)) <==>
            (forall k :: c.keys.RoundTrips(k)) && (forall v :: c.values.RoundTrips(v))
  {
    if (forall k :: c.keys.RoundTrips(k)) && (forall v :: c.values.RoundTrips(v)) {
      forall ops ensures ActsAsMap(c, ops) {
        RunRefines(c, [], map[], ops);
      }
    } else if forall ops :: ActsAsMap(c, ops) {
      forall k ensures c.keys.RoundTrips(k) {
        assert ActsAsMap(c, [Insert(k, someValue), Items(None, None)]);
        InsertThenItems(c, k, someValue);
      }
      forall v ensures c.values.RoundTrips(v) {
        assert ActsAsMap(c, [Insert(someKey, v), Items(None, None)]);
        InsertThenItems(c, someKey, v);
      }
    }
  }

  /** An inserted key is listed as what it reads back as, which is then found exactly if it is stored
      under the same bytes. */
  lemma ListedKey<K, V>(c: Codec<K, V>, key: K, value: V, other: K)
    requires c.keys.fromBytes(c.keys.toBytes(key)) == other
    ensures var entries := NextEntries(c, [], Insert(key, value));
            && DecodedKeys(c, entries) == [other]
            && Answered(c, entries, ContainsKey(key)) == Flag(true)
            && Answered(c, entries, ContainsKey(other)) == Flag(c.keys.toBytes(other) == c.keys.toBytes(key))
  {
    var entries := [Entry(c.keys.toBytes(key), c.values.toBytes(value))];
    assert NextEntries(c, [], Insert(key, value)) == entries;
    assert entries[1..] == [] && Find(entries[1..], c.keys.toBytes(other)).None?;
  }

  /** `items` is the zip of `keys` and `values`, page by page. */
  lemma ItemsZip<K, V>(c: Codec<K, V>, entries: seq<Entry>, start: Option<int>, length: Option<int>)
    requires Unsigned32(start) && Unsigned32(length)
    ensures var items := Answered(c, entries, Items(start, length)).items;
            && Firsts(items) == Answered(c, entries, Keys(start, length)).keys
            && Seconds(items) == Answered(c, entries, Values(start, length)).values
  {
  }

  /** Two consecutive pages are one longer page, and pages without bounds are everything. */
  lemma PagesJoin<K, V>(c: Codec<K, V>, entries: seq<Entry>, start: nat, first: nat, second: nat)
    requires start + first <= LIMIT && first + second <= LIMIT
    ensures Answered(c, entries, Items(Some(start), Some(first + second))).items ==
            Answered(c, entries, Items(Some(start), Some(first))).items +
            Answered(c, entries, Items(Some(start + first), Some(second))).items
    ensures Answered(c, entries, Items(None, None)).items == Decoded(c, entries)
  {
    var all := Decoded(c, entries);
    DecodedSlices(c, entries, From(|entries|, Some(start)), To(|entries|, Some(start), Some(first)));
    DecodedSlices(c, entries, From(|entries|, Some(start + first)), To(|entries|, Some(start + first), Some(second)));
    DecodedSlices(c, entries, From(|entries|, Some(start)), To(|entries|, Some(start), Some(first + second)));
    assert Page(entries, None, None) == entries;
  }
}
