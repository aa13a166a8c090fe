/** A `StableBTreeMap` with the serializers it has by default. */
module DefaultStableMap {
  import opened Wrappers
  import opened StableJson
  import opened StableJsonKeys
  import T = StableJsonTheorems
  import B = StableBTreeMaps

  /** `stableJson` as a serializer. What it throws on is never stored: `DefaultRoundTrips`. */
  function JsonSerializer(h: Host): B.Serializer<Value> {
    B.Serializer(v => T.ToBytes(h, v), bytes => var r := T.FromBytes(h, bytes); if r.Ok? then r.value else Undefined)
  }

  function DefaultCodec(h: Host): B.Codec<Value, Value> {
    B.Codec(JsonSerializer(h), JsonSerializer(h))
  }

  /** A JavaScript value whose text reads back. */
  predicate Supported(h: Host, v: Value) {
    WellFormed(h, v) && h.ReadsBack(v)
  }

  /** A value without a reserved tag, a property that is undefined, or an undefined array slot. */
  ghost predicate Storable(v: Value) {
    Clean(v) && Norm(v) == v
  }

  lemma DefaultRoundTrips(h: Host, v: Value)
    requires h.Valid() && Supported(h, v)
    ensures JsonSerializer(h).RoundTrips(v) <==> Storable(v)
  {
    T.BytesReturnValue(h, v);
    if v == Undefined {
      assert Storable(v);
    }
  }

  ghost predicate OpStorable(h: Host, op: B.Op<Value, Value>) {
    && (op.Get? || op.ContainsKey? || op.Insert? || op.Remove? ==> Supported(h, op.key) && Storable(op.key))
    && (op.Insert? ==> Supported(h, op.value) && Storable(op.value))
  }

  /** Over storable keys and values, a default map is a finite map in every run. */
  lemma DefaultMapIsFiniteMap(h: Host, ops: seq<B.Op<Value, Value>>)
    requires h.Valid()
    requires forall i :: 0 <= i < |ops| ==> OpStorable(h, ops[i])
    ensures B.ActsAsMap(DefaultCodec(h), ops)
  {
    forall i | 0 <= i < |ops| ensures B.OpRoundTrips(DefaultCodec(h), ops[i]) {
      assert OpStorable(h, ops[i]);
      if ops[i].Get? || ops[i].ContainsKey? || ops[i].Insert? || ops[i].Remove? {
        DefaultRoundTrips(h, ops[i].key);
      }
      if ops[i].Insert? {
        DefaultRoundTrips(h, ops[i].value);
      }
    }
    B.RunRefines(DefaultCodec(h), [], map[], ops);
  }

  /** For any other key or value, inserting it and listing the items already shows that it is none. */
  lemma DefaultMapExactly(h: Host, key: Value, value: Value)
    requires h.Valid() && Supported(h, key) && Supported(h, value)
    ensures B.ActsAsMap(DefaultCodec(h), [B.Insert(key, value), B.Items(None, None)]) <==> Storable(key) && Storable(value)
  {
    DefaultRoundTrips(h, key);
    DefaultRoundTrips(h, value);
    B.InsertThenItems(DefaultCodec(h), key, value);
  }

  /** Every clean key is listed as its normal form, and that is found exactly if no property anywhere in
      the key is `undefined`. */
  lemma NormalFormIsListed(h: Host, key: Value, value: Value)
    requires h.Valid() && Supported(h, key) && Clean(key) && h.ReadsBack(Norm(key))
    ensures var c := DefaultCodec(h);
            var entries := B.NextEntries(c, [], B.Insert(key, value));
            && B.DecodedKeys(c, entries) == [Norm(key)]
            && B.Answered(c, entries, B.ContainsKey(key)) == B.Flag(true)
            && B.Answered(c, entries, B.ContainsKey(Norm(key))) == B.Flag(KeepsProperties(key))
  {
    T.BytesRoundTrip(h, key);
    T.BytesDifferWithTrees(h, Norm(key), key);
    NormPrintsAlike(h, key);
    B.ListedKey(DefaultCodec(h), key, value, Norm(key));
  }
}
