/**
 What `StableBTreeMap` assumes of the canister's stable memory: a map from byte strings to byte
 strings that lists its entries in the lexicographic order of the keys.
 */
module ByteStore {
  import opened Wrappers

  type Bytes = seq<bv8>

  datatype Entry = Entry(key: Bytes, value: Bytes)

  predicate Less(a: Bytes, b: Bytes) {
    b != [] && (a == [] || a[0] < b[0] || (a[0] == b[0] && Less(a[1..], b[1..])))
  }

  lemma {:induction false} LessIsStrict(a: Bytes)
    ensures !Less(a, a)
  {
    if a != [] {
      LessIsStrict(a[1..]);
    }
  }

  lemma {:induction false} LessTransitive(a: Bytes, b: Bytes, c: Bytes)
    requires Less(a, b) && Less(b, c)
    ensures Less(a, c)
  {
    if a != [] && a[0] == b[0] && b[0] == c[0] {
      LessTransitive(a[1..], b[1..], c[1..]);
    }
  }

  lemma {:induction false} LessTotal(a: Bytes, b: Bytes)
    ensures Less(a, b) || a == b || Less(b, a)
  {
    if a != [] && b != [] && a[0] == b[0] {
      LessTotal(a[1..], b[1..]);
      assert a == [a[0]] + a[1..] && b == [b[0]] + b[1..];
    }
  }

  /** The two agree up to `i`, where the first one ends or has the smaller byte. */
  ghost predicate DifferAt(a: Bytes, b: Bytes, i: nat) {
    i <= |a| && i < |b| && a[..i] == b[..i] && (i < |a| ==> a[i] < b[i])
  }

  lemma SameStart(a: Bytes, b: Bytes, i: nat)
    requires i <= |a| && i <= |b| && a[..i] == b[..i]
    ensures i > 0 ==> a[0] == b[0]
  {
    if i > 0 {
      assert a[..i][0] == b[..i][0];
    }
  }

  /** The first byte in which they differ decides; a proper prefix comes first. */
  lemma {:induction false} LessExactly(a: Bytes, b: Bytes)
    ensures Less(a, b) <==> exists i: nat :: DifferAt(a, b, i)
  {
    if a == [] || b == [] || a[0] != b[0] {
      if Less(a, b) {
        assert DifferAt(a, b, 0);
      }
      if i: nat :| DifferAt(a, b, i) {
        SameStart(a, b, i);
      }
    } else {
      LessExactly(a[1..], b[1..]);
      if i: nat :| DifferAt(a[1..], b[1..], i) {
        assert a[..i + 1] == [a[0]] + a[1..][..i] && b[..i + 1] == [b[0]] + b[1..][..i];
        assert DifferAt(a, b, i + 1);
      }
      if i: nat :| DifferAt(a, b, i) {
        assert a[1..][..i - 1] == a[..i][1..] && b[1..][..i - 1] == b[..i][1..];
        assert DifferAt(a[1..], b[1..], i - 1);
      }
    }
  }

  predicate Above(key: Bytes, entries: seq<Entry>) {
    entries == [] || (Less(key, entries[0].key) && Above(key, entries[1..]))
  }

  predicate Sorted(entries: seq<Entry>) {
    entries == [] || (Above(entries[0].key, entries[1..]) && Sorted(entries[1..]))
  }

  function Find(entries: seq<Entry>, key: Bytes): Option<Bytes> {
    if entries == [] then None
    else if entries[0].key == key then Some(entries[0].value)
    else Find(entries[1..], key)
  }

  function Put(entries: seq<Entry>, key: Bytes, value: Bytes): seq<Entry> {
    if entries == [] || Less(key, entries[0].key) then [Entry(key, value)] + entries
    else if entries[0].key == key then [Entry(key, value)] + entries[1..]
    else [entries[0]] + Put(entries[1..], key, value)
  }

  function Drop(entries: seq<Entry>, key: Bytes): seq<Entry> {
    if entries == [] then []
    else if entries[0].key == key then entries[1..]
    else [entries[0]] + Drop(entries[1..], key)
  }

  /** The entries as a map. */
  function Stored(entries: seq<Entry>): map<Bytes, Bytes> {
    if entries == [] then map[] else Stored(entries[1..])[entries[0].key := entries[0].value]
  }

  lemma {:induction false} AboveIsAbsent(key: Bytes, entries: seq<Entry>)
    requires Above(key, entries)
    ensures key !in Stored(entries)
  {
    if entries != [] {
      AboveIsAbsent(key, entries[1..]);
      LessIsStrict(key);
    }
  }

  lemma {:induction false} AboveLess(low: Bytes, high: Bytes, entries: seq<Entry>)
    requires Less(low, high) && Above(high, entries)
    ensures Above(low, entries)
  {
    if entries != [] {
      LessTransitive(low, high, entries[0].key);
      AboveLess(low, high, entries[1..]);
    }
  }

  lemma {:induction false} FindIsLookup(entries: seq<Entry>, key: Bytes)
    ensures Find(entries, key) == if key in Stored(entries) then Some(Stored(entries)[key]) else None
  {
    if entries != [] {
      FindIsLookup(entries[1..], key);
    }
  }

  lemma AboveCons(low: Bytes, e: Entry, rest: seq<Entry>)
    ensures Above(low, [e] + rest) <==> Less(low, e.key) && Above(low, rest)
  {
    assert ([e] + rest)[1..] == rest;
  }

  lemma SortedCons(e: Entry, rest: seq<Entry>)
    ensures Sorted([e] + rest) <==> Above(e.key, rest) && Sorted(rest)
    ensures Stored([e] + rest) == Stored(rest)[e.key := e.value]
  {
    assert ([e] + rest)[1..] == rest;
  }

  lemma {:induction false} AbovePut(low: Bytes, entries: seq<Entry>, key: Bytes, value: Bytes)
    requires Above(low, entries) && Less(low, key)
    ensures Above(low, Put(entries, key, value))
  {
    if entries == [] || Less(key, entries[0].key) {
      AboveCons(low, Entry(key, value), entries);
    } else if entries[0].key == key {
      AboveCons(low, Entry(key, value), entries[1..]);
    } else {
      AbovePut(low, entries[1..], key, value);
      AboveCons(low, entries[0], Put(entries[1..], key, value));
    }
  }

  lemma {:induction false} PutStores(entries: seq<Entry>, key: Bytes, value: Bytes)
    requires Sorted(entries)
    ensures Sorted(Put(entries, key, value)) && Stored(Put(entries, key, value)) == Stored(entries)[key := value]
  {
    if entries == [] || Less(key, entries[0].key) {
      if entries != [] {
        AboveLess(key, entries[0].key, entries[1..]);
      }
      SortedCons(Entry(key, value), entries);
    } else if entries[0].key == key {
      SortedCons(Entry(key, value), entries[1..]);
    } else {
      LessTotal(key, entries[0].key);
      PutStores(entries[1..], key, value);
      AbovePut(entries[0].key, entries[1..], key, value);
      SortedCons(entries[0], Put(entries[1..], key, value));
    }
  }

  lemma {:induction false} AboveDrop(low: Bytes, entries: seq<Entry>, key: Bytes)
    requires Above(low, entries)
    ensures Above(low, Drop(entries, key))
  {
    if entries != [] && entries[0].key != key {
      AboveDrop(low, entries[1..], key);
      AboveCons(low, entries[0], Drop(entries[1..], key));
    }
  }

  lemma {:induction false} DropRemoves(entries: seq<Entry>, key: Bytes)
    requires Sorted(entries)
    ensures Sorted(Drop(entries, key)) && Stored(Drop(entries, key)) == Stored(entries) - {key}
  {
    if entries != [] {
      if entries[0].key == key {
        AboveIsAbsent(key, entries[1..]);
      } else {
        DropRemoves(entries[1..], key);
        AboveDrop(entries[0].key, entries[1..], key);
        SortedCons(entries[0], Drop(entries[1..], key));
      }
    }
  }

  lemma {:induction false} StoredCount(entries: seq<Entry>)
    requires Sorted(entries)
    ensures |Stored(entries)| == |entries|
  {
    if entries != [] {
      StoredCount(entries[1..]);
      AboveIsAbsent(entries[0].key, entries[1..]);
    }
  }

  lemma {:induction false} AboveAt(low: Bytes, entries: seq<Entry>, i: nat)
    requires Above(low, entries) && i < |entries|
    ensures Less(low, entries[i].key)
  {
    if i > 0 {
      AboveAt(low, entries[1..], i - 1);
    }
  }

  lemma {:induction false} SortedAt(entries: seq<Entry>, i: nat, j: nat)
    requires Sorted(entries) && i < j < |entries|
    ensures Less(entries[i].key, entries[j].key)
  {
    if i == 0 {
      AboveAt(entries[0].key, entries[1..], j - 1);
    } else {
      SortedAt(entries[1..], i - 1, j - 1);
    }
  }

  lemma {:induction false} StoredAt(entries: seq<Entry>, i: nat)
    requires Sorted(entries) && i < |entries|
    ensures entries[i].key in Stored(entries) && Stored(entries)[entries[i].key] == entries[i].value
  {
    if i > 0 {
      StoredAt(entries[1..], i - 1);
      AboveAt(entries[0].key, entries[1..], i - 1);
      LessIsStrict(entries[0].key);
    }
  }

  lemma {:induction false} StoredSomewhere(entries: seq<Entry>, key: Bytes) returns (i: nat)
    requires key in Stored(entries)
    ensures i < |entries| && entries[i].key == key
  {
    if entries[0].key == key {
      i := 0;
    } else {
      i := StoredSomewhere(entries[1..], key);
      i := i + 1;
    }
  }
}
