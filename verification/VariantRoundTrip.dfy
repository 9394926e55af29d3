/** Reading what was written: the same values, the same sharing, and nothing more than was written. */
module VariantRoundTrip {
  import opened Basics
  import opened VariantBytes
  import opened VariantFormat

  // ----- pointers by their keys -----

  /** The value with its pointers named by their keys. */
  function Rename(v: Value, keys: map<nat, nat>): Value {
    match v
    case Ptr(p) => Ptr(if p in keys then keys[p] else 0)
    case Seq(et, items) => Seq(et, RenameItems(items, keys))
    case Map(et, entries) => Map(et, RenameEntries(entries, keys))
    case _ => v
  }

  function RenameItems(items: seq<Value>, keys: map<nat, nat>): (r: seq<Value>)
    ensures |r| == |items|
  {
    if items == [] then [] else [Rename(items[0], keys)] + RenameItems(items[1..], keys)
  }

  function RenameEntries(entries: seq<Entry>, keys: map<nat, nat>): (r: seq<Entry>)
    ensures |r| == |entries| && forall i :: 0 <= i < |r| ==> r[i].key == entries[i].key
  {
    if entries == [] then [] else [RenameEntry(entries[0], keys)] + RenameEntries(entries[1..], keys)
  }

  /** There are no pointers in keys. */
  function RenameEntry(e: Entry, keys: map<nat, nat>): Entry {
    Entry(e.key, Rename(e.value, keys))
  }

  predicate Extends<T(==)>(keys: map<nat, T>, keys2: map<nat, T>) {
    forall p :: p in keys ==> p in keys2 && keys2[p] == keys[p]
  }

  /** More keys change nothing once all pointers of the value have theirs. */
  lemma {:induction false} RenameStable(v: Value, keys: map<nat, nat>, keys2: map<nat, nat>)
    requires Ok(v, keys.Keys) && Extends(keys, keys2) && 0 !in keys2
    ensures Rename(v, keys2) == Rename(v, keys)
    decreases v
  {
    match v
    case Seq(_, items) => RenameItemsStable(items, keys, keys2);
    case Map(_, entries) => RenameEntriesStable(entries, keys, keys2);
    case _ =>
  }

  lemma {:induction false} RenameItemsStable(items: seq<Value>, keys: map<nat, nat>, keys2: map<nat, nat>)
    requires (forall i :: 0 <= i < |items| ==> Ok(items[i], keys.Keys)) && Extends(keys, keys2) && 0 !in keys2
    ensures RenameItems(items, keys2) == RenameItems(items, keys)
    decreases items
  {
    if items != [] {
      RenameStable(items[0], keys, keys2);
      RenameItemsStable(items[1..], keys, keys2);
    }
  }

  lemma {:induction false} RenameEntriesStable(entries: seq<Entry>, keys: map<nat, nat>, keys2: map<nat, nat>)
    requires (forall i :: 0 <= i < |entries| ==> Ok(entries[i].value, keys.Keys)) && Extends(keys, keys2) && 0 !in keys2
    ensures RenameEntries(entries, keys2) == RenameEntries(entries, keys)
    decreases entries
  {
    if entries != [] {
      RenameEntryStable(entries[0], keys, keys2);
      RenameEntriesStable(entries[1..], keys, keys2);
    }
  }

  lemma {:induction false} RenameEntryStable(e: Entry, keys: map<nat, nat>, keys2: map<nat, nat>)
    requires Ok(e.value, keys.Keys) && Extends(keys, keys2) && 0 !in keys2
    ensures RenameEntry(e, keys2) == RenameEntry(e, keys)
    decreases e
  {
    RenameStable(e.value, keys, keys2);
  }

  lemma {:induction false} OkGrows(v: Value, names: set<nat>, names2: set<nat>)
    requires Ok(v, names) && names <= names2
    ensures Ok(v, names2)
    decreases v
  {
    match v
    case Seq(_, items) => forall i | 0 <= i < |items| ensures Ok(items[i], names2) { OkGrows(items[i], names, names2); }
    case Map(_, entries) =>
      forall i | 0 <= i < |entries| ensures Ok(entries[i].key, names2) && Ok(entries[i].value, names2) {
        OkGrows(entries[i].key, names, names2);
        OkGrows(entries[i].value, names, names2);
      }
    case _ =>
  }

  // ----- leaves -----

  lemma LeafBack(lib: Library, v: Value, rest: seq<byte>, known: map<nat, Value>)
    requires IsLeaf(v) && LeafOk(v) && Held(lib, v)
    ensures ReadLeaf(lib, Type(v), LeafBytes(v) + rest, known) == Done(v, rest, known)
  {
    match v
    case Flat(et, fields) =>
      LayoutTypes(et);
      FlatBack(et, Layout(et), fields, rest, known);
    case Datetime(d, us) => DatetimeBack(lib, d, us, rest, known);
    case Bitset(bits) => BitsetBack(lib, bits, rest, known);
    case _ => SimpleBack(lib, v, rest, known);
  }

  lemma LayoutTypes(et: nat)
    requires Layout(et) != []
    ensures et !in {0, 1, 2, 13, 14, 15, 16, 17, 18, 30, 31, 32, 33, 34, 35, 36, 39} && Bits(et) == 0 && (et == 38 ==> |Layout(et)| == 16)
  {
  }

  lemma SimpleBack(lib: Library, v: Value, rest: seq<byte>, known: map<nat, Value>)
    requires (v.Bool? || v.Date? || v.Str? || v.VectorChar?) && LeafOk(v) && Held(lib, v)
    ensures ReadLeaf(lib, Type(v), LeafBytes(v) + rest, known) == Done(v, rest, known)
  {
    match v
    case Bool(b) => TakeFieldBack(if b then 1 else 0, S1, rest);
    case Date(d) =>
      DateRoundTrip(d);
      TakeFieldBack(DateNumber(d), U4, rest);
    case Str(chars) => TakeStringBack(lib.most(2), chars, rest);
    case VectorChar(chars) => TakeStringBack(lib.most(13), chars, rest);
  }

  lemma FlatBack(et: nat, layout: seq<Field>, fields: seq<int>, rest: seq<byte>, known: map<nat, Value>)
    requires layout != [] && |fields| == |layout|
    requires forall i :: 0 <= i < |fields| ==> layout[i].width > 0 && InField(fields[i], layout[i])
    ensures ReadFlat(et, layout, FieldsBytes(fields, layout) + rest, known) == Done(Flat(et, fields), rest, known)
  {
    FieldsLength(fields, layout);
    TakeFieldsBack(fields, layout, [], rest);
    assert [] + fields == fields;
  }

  lemma BitsetBack(lib: Library, bits: seq<bool>, rest: seq<byte>, known: map<nat, Value>)
    requires BitsetType(|bits|) > 0
    ensures ReadLeaf(lib, BitsetType(|bits|), BitsetBytes(bits) + rest, known) == Done(Bitset(bits), rest, known)
  {
    BitsetRoundTrip(bits);
    var s := BitsetBytes(bits) + rest;
    assert Bits(BitsetType(|bits|)) == |bits|;
    assert s[..|bits| / 8] == BitsetBytes(bits) && s[|bits| / 8..] == rest;
  }

  lemma DatetimeBack(lib: Library, d: Ymd, us: int, rest: seq<byte>, known: map<nat, Value>)
    requires LeafOk(Datetime(d, us))
    ensures ReadLeaf(lib, 15, LeafBytes(Datetime(d, us)) + rest, known) == Done(Datetime(d, us), rest, known)
  {
    DateRoundTrip(d);
    assert InField(us, S8) by { assert Power(256, 8) == 0x1_0000_0000_0000_0000 by { assert Power(256, 4) == 0x1_0000_0000; } }
    var ns, layout := [DateNumber(d), us], [U4, S8];
    assert FieldsBytes(ns, layout) == FieldBytes(ns[0], U4) + FieldBytes(us, S8) by {
      assert FieldsBytes(ns[1..], layout[1..]) == FieldBytes(us, S8) + FieldsBytes(ns[2..], layout[2..]);
    }
    TakeFieldsBack(ns, layout, [], rest);
    assert [] + ns == ns;
  }

  lemma TypeBack(v: Value, names: set<nat>, rest: seq<byte>)
    requires Ok(v, names)
    ensures ReadType(TypeBytes(v, names) + rest) == Got(if v.Null? then -(Type(v) as int) else Type(v), rest)
  {
    TypeFits(v, names);
    TakeFieldBack(if v.Null? then -(Type(v) as int) else Type(v), S2, rest);
  }

  // ----- what a piece of writing and the reading of it do to the keys -----

  /** Keys 1 to n are given out, each to one pointee. */
  ghost predicate Numbered(h: Heap, keys: map<nat, nat>) {
    && keys.Keys <= h.Keys
    && (forall p :: p in keys ==> 1 <= keys[p] <= |keys|)
    && (forall p, q :: p in keys && q in keys && keys[p] == keys[q] ==> p == q)
  }

  /** The reader knows exactly the keys that the writer has given out. */
  ghost predicate KnowsKeys(known: map<nat, Value>, n: nat) {
    forall k :: k in known <==> 1 <= k <= n
  }

  /** The pointees met between `keys` and `keys2` are all read between `known` and `known2`, with their pointers renamed. */
  ghost predicate Rebuilt(h: Heap, keys: map<nat, nat>, known: map<nat, Value>, keys2: map<nat, nat>, known2: map<nat, Value>) {
    && Numbered(h, keys2) && Extends(keys, keys2) && KnowsKeys(known2, |keys2|) && Extends(known, known2)
    && forall q {:trigger keys2[q]} :: q in keys2 && q !in keys ==>
         Ok(h[q], keys2.Keys) && known2[keys2[q]] == Rename(h[q], keys2)
  }

  lemma RebuiltTransitive(h: Heap, keys: map<nat, nat>, known: map<nat, Value>, keys1: map<nat, nat>, known1: map<nat, Value>,
                          keys2: map<nat, nat>, known2: map<nat, Value>)
    requires HeapOk(h) && Rebuilt(h, keys, known, keys1, known1) && Rebuilt(h, keys1, known1, keys2, known2)
    ensures Rebuilt(h, keys, known, keys2, known2)
  {
    forall q {:trigger keys2[q]} | q in keys2 && q !in keys
      ensures Ok(h[q], keys2.Keys) && known2[keys2[q]] == Rename(h[q], keys2)
    {
      if q in keys1 {
        assert keys2[q] == keys1[q];
        OkGrows(h[q], keys1.Keys, keys2.Keys);
        RenameStable(h[q], keys1, keys2);
      }
    }
  }

  /** A pointee that is met for the first time gets the next key. */
  lemma NextKey(h: Heap, keys: map<nat, nat>, known: map<nat, Value>, p: nat)
    requires HeapOk(h) && Numbered(h, keys) && KnowsKeys(known, |keys|) && p in h && p !in keys
    ensures var key := |keys| + 1;
            && FitsSize(key) && key !in known
            && Numbered(h, keys[p := key]) && KnowsKeys(known[key := Null(1)], key)
  {
    var keys1 := keys[p := |keys| + 1];
    assert |keys1| == |keys| + 1;
    SizeOfSubset(keys1.Keys, h.Keys);
    assert |keys1.Keys| == |keys1| && |h.Keys| == |h|;
  }

  lemma ExtendsPast<T>(known: map<nat, T>, known2: map<nat, T>, key: nat, v: T, w: T)
    requires key !in known && Extends(known[key := v], known2)
    ensures Extends(known, known2[key := w])
  {
    forall k | k in known ensures k in known2[key := w] && known2[key := w][k] == known[k] {
      assert known[key := v][k] == known[k];
    }
  }

  /** Its value is entered when it has been read. */
  lemma PointeeRebuilt(h: Heap, keys: map<nat, nat>, known: map<nat, Value>, p: nat, keys2: map<nat, nat>, known2: map<nat, Value>)
    requires HeapOk(h) && Numbered(h, keys) && KnowsKeys(known, |keys|) && p in h && p !in keys
    requires var key := |keys| + 1; Rebuilt(h, keys[p := key], known[key := Null(1)], keys2, known2)
    requires Ok(h[p], keys2.Keys)
    ensures Rebuilt(h, keys, known, keys2, known2[|keys| + 1 := Rename(h[p], keys2)])
  {
    var key := |keys| + 1;
    var known3 := known2[key := Rename(h[p], keys2)];
    assert keys2[p] == key;
    forall q {:trigger keys2[q]} | q in keys2 && q !in keys
      ensures Ok(h[q], keys2.Keys) && known3[keys2[q]] == Rename(h[q], keys2)
    {
      assert q != p ==> keys2[q] != keys2[p];
    }
    ExtendsPast(known, known2, key, Null(1), Rename(h[p], keys2));
  }

  // ----- the round trip -----

  /** Reading o gives the value with its pointers renamed, leaves `rest`, and rebuilds the pointees written on the way. */
  ghost predicate Back(h: Heap, v: Value, keys: map<nat, nat>, known: map<nat, Value>, keys2: map<nat, nat>,
                       o: Outcome<Value>, rest: seq<byte>)
  {
    && o.Done? && o.value == Rename(v, keys2) && o.rest == rest
    && Ok(v, keys2.Keys) && Rebuilt(h, keys, known, keys2, o.known)
  }

  ghost predicate Ready(lib: Library, h: Heap, keys: map<nat, nat>, known: map<nat, Value>) {
    lib.StrictWeak() && HeapOk(h) && HeapHeld(lib, h) && Numbered(h, keys) && KnowsKeys(known, |keys|)
  }

  lemma {:induction false} ValueBack(lib: Library, h: Heap, v: Value, keys: map<nat, nat>, known: map<nat, Value>, rest: seq<byte>)
    requires Ready(lib, h, keys, known) && Ok(v, h.Keys) && Held(lib, v)
    ensures Back(h, v, keys, known, Write(h, v, keys).1, Read(lib, Write(h, v, keys).0 + rest, known), rest)
    decreases h.Keys - keys.Keys, v, 2
  {
    var (bytes, keys2) := WriteBody(h, v, keys);
    Associate(TypeBytes(v, h.Keys), bytes, rest);
    TypeBack(v, h.Keys, bytes + rest);
    TypeFits(v, h.Keys);
    if v.Null? {
      assert bytes + rest == rest;
    } else {
      BodyBack(lib, h, v, keys, known, rest);
    }
  }

  lemma {:induction false} BodyBack(lib: Library, h: Heap, v: Value, keys: map<nat, nat>, known: map<nat, Value>, rest: seq<byte>)
    requires Ready(lib, h, keys, known) && Ok(v, h.Keys) && Held(lib, v) && !v.Null?
    ensures Back(h, v, keys, known, WriteBody(h, v, keys).1, ReadBody(lib, Type(v), WriteBody(h, v, keys).0 + rest, known), rest)
    decreases h.Keys - keys.Keys, v, 1
  {
    match v
    case Seq(et, items) =>
      ItemsBack(lib, h, items, keys, known, [], rest);
      SeqBody(lib, h, et, items, keys, known, rest);
    case Map(et, entries) =>
      assert [] + entries == entries;
      assert EntriesOk(et, entries, h.Keys);
      EntriesBack(lib, h, et, entries, keys, known, [], rest);
      MapBody(lib, h, et, entries, keys, known, rest);
    case Ptr(p) =>
      if p == 0 || p in keys {
        OldPointerBack(lib, h, p, keys, known, rest);
      } else {
        NewPointerBack(lib, h, p, keys, known, rest);
      }
    case _ => LeafBody(lib, h, v, keys, known, rest);
  }

  lemma LeafBody(lib: Library, h: Heap, v: Value, keys: map<nat, nat>, known: map<nat, Value>, rest: seq<byte>)
    requires Ready(lib, h, keys, known) && Ok(v, h.Keys) && Held(lib, v) && IsLeaf(v)
    ensures Back(h, v, keys, known, WriteBody(h, v, keys).1, ReadBody(lib, Type(v), WriteBody(h, v, keys).0 + rest, known), rest)
  {
    LeafBack(lib, v, rest, known);
    LeafTypes(v);
    assert WriteBody(h, v, keys) == (LeafBytes(v), keys);
    assert ReadBody(lib, Type(v), LeafBytes(v) + rest, known) == Done(v, rest, known);
  }

  lemma SeqBody(lib: Library, h: Heap, et: nat, items: seq<Value>, keys: map<nat, nat>, known: map<nat, Value>, rest: seq<byte>)
    requires HeapOk(h) && Ok(Seq(et, items), h.Keys) && Held(lib, Seq(et, items))
    requires RowBack(h, items, keys, known, [], WriteItems(h, items, keys).1,
                     ReadItems(lib, WriteItems(h, items, keys).0 + rest, |items|, [], known), rest)
    ensures var r := WriteBody(h, Seq(et, items), keys);
            Back(h, Seq(et, items), keys, known, r.1, ReadBody(lib, et, r.0 + rest, known), rest)
  {
    var (bytes, keys2) := WriteItems(h, items, keys);
    var o := ReadItems(lib, bytes + rest, |items|, [], known);
    Associate(FieldBytes(|items|, SIZE), bytes, rest);
    TakeFieldBack(|items|, SIZE, bytes + rest);
    SeqValue(et, items, keys2);
    assert WriteBody(h, Seq(et, items), keys) == (FieldBytes(|items|, SIZE) + bytes, keys2);
    assert ReadBody(lib, et, FieldBytes(|items|, SIZE) + bytes + rest, known) == Done(Seq(et, o.value), rest, o.known);
  }

  lemma ReadMapBody(lib: Library, et: nat, n: nat, s: seq<byte>, known: map<nat, Value>)
    requires IsMapType(et) && FitsSize(n) && ReadEntries(lib, s, n, et, [], known).Done?
    ensures var o := ReadEntries(lib, s, n, et, [], known);
            ReadBody(lib, et, FieldBytes(n, SIZE) + s, known) == Done(Map(et, o.value), o.rest, o.known)
  {
    TakeFieldBack(n, SIZE, s);
  }

  lemma MapBody(lib: Library, h: Heap, et: nat, entries: seq<Entry>, keys: map<nat, nat>, known: map<nat, Value>, rest: seq<byte>)
    requires HeapOk(h) && Ok(Map(et, entries), h.Keys)
    requires EntriesOk(et, entries, h.Keys) && EntriesCome(lib, h, et, entries, keys, known, [], rest)
    ensures var r := WriteBody(h, Map(et, entries), keys);
            Back(h, Map(et, entries), keys, known, r.1, ReadBody(lib, et, r.0 + rest, known), rest)
  {
    var (bytes, keys2) := WriteEntries(h, et, entries, keys);
    var o := ReadEntries(lib, bytes + rest, |entries|, et, [], known);
    Associate(FieldBytes(|entries|, SIZE), bytes, rest);
    ReadMapBody(lib, et, |entries|, bytes + rest, known);
    MapValue(et, entries, keys2);
    MapOk(et, entries, h.Keys, keys2.Keys);
    assert WriteBody(h, Map(et, entries), keys) == (FieldBytes(|entries|, SIZE) + bytes, keys2);
  }

  lemma SeqValue(et: nat, items: seq<Value>, keys: map<nat, nat>)
    ensures Seq(et, [] + RenameItems(items, keys)) == Rename(Seq(et, items), keys)
  {
  }

  /** A value without pointers does not care for names. */
  lemma {:induction false} OkAnywhere(v: Value, names: set<nat>, names2: set<nat>)
    requires Ok(v, names) && PointerFree(v)
    ensures Ok(v, names2)
    decreases v
  {
    match v
    case Seq(_, items) => forall i | 0 <= i < |items| ensures Ok(items[i], names2) { OkAnywhere(items[i], names, names2); }
    case Map(_, entries) =>
      forall i | 0 <= i < |entries| ensures Ok(entries[i].key, names2) && Ok(entries[i].value, names2) {
        OkAnywhere(entries[i].key, names, names2);
        OkAnywhere(entries[i].value, names, names2);
      }
    case _ =>
  }

  lemma MapOk(et: nat, entries: seq<Entry>, names: set<nat>, names2: set<nat>)
    requires Ok(Map(et, entries), names) && forall i :: 0 <= i < |entries| ==> Ok(entries[i].value, names2)
    ensures Ok(Map(et, entries), names2)
  {
    forall i | 0 <= i < |entries| ensures KeyOk(et, entries[i].key) && Ok(entries[i].key, names2) {
      OkAnywhere(entries[i].key, names, names2);
    }
  }

  lemma MapValue(et: nat, entries: seq<Entry>, keys: map<nat, nat>)
    ensures Map(et, [] + RenameEntries(entries, keys)) == Rename(Map(et, entries), keys)
  {
  }

  lemma OldPointerBack(lib: Library, h: Heap, p: nat, keys: map<nat, nat>, known: map<nat, Value>, rest: seq<byte>)
    requires Ready(lib, h, keys, known) && (p == 0 || p in keys)
    ensures WriteBody(h, Ptr(p), keys).1 == keys
    ensures Back(h, Ptr(p), keys, known, keys, ReadBody(lib, 39, WriteBody(h, Ptr(p), keys).0 + rest, known), rest)
  {
    var key := if p == 0 then 0 else keys[p];
    if p != 0 { KeyFits(h, keys, p); }
    KeyBack(key, rest);
    assert WriteBody(h, Ptr(p), keys) == (KeyBytes(key), keys);
  }

  lemma {:induction false} NewPointerBack(lib: Library, h: Heap, p: nat, keys: map<nat, nat>, known: map<nat, Value>, rest: seq<byte>)
    requires Ready(lib, h, keys, known) && p in h && p !in keys
    ensures Back(h, Ptr(p), keys, known, WriteBody(h, Ptr(p), keys).1, ReadBody(lib, 39, WriteBody(h, Ptr(p), keys).0 + rest, known), rest)
    decreases h.Keys - keys.Keys, Ptr(p), 0
  {
    var key := |keys| + 1;
    NextKey(h, keys, known, p);
    assert p in h.Keys - keys.Keys && p !in h.Keys - keys[p := key].Keys;
    var (bytes, keys2) := Write(h, h[p], keys[p := key]);
    ValueBack(lib, h, h[p], keys[p := key], known[key := Null(1)], rest);
    NewPointerBody(lib, h, p, keys, known, rest);
  }

  lemma NewPointerBody(lib: Library, h: Heap, p: nat, keys: map<nat, nat>, known: map<nat, Value>, rest: seq<byte>)
    requires Ready(lib, h, keys, known) && p in h && p !in keys
    requires var key := |keys| + 1; var r := Write(h, h[p], keys[p := key]);
             Back(h, h[p], keys[p := key], known[key := Null(1)], r.1, Read(lib, r.0 + rest, known[key := Null(1)]), rest)
    ensures Back(h, Ptr(p), keys, known, WriteBody(h, Ptr(p), keys).1, ReadBody(lib, 39, WriteBody(h, Ptr(p), keys).0 + rest, known), rest)
  {
    var key := |keys| + 1;
    NextKey(h, keys, known, p);
    var (bytes, keys2) := Write(h, h[p], keys[p := key]);
    var o := Read(lib, bytes + rest, known[key := Null(1)]);
    PointeeRebuilt(h, keys, known, p, keys2, o.known);
    ReadNewPointer(lib, key, bytes + rest, known);
    Associate(KeyBytes(key), bytes, rest);
    assert WriteBody(h, Ptr(p), keys) == (KeyBytes(key) + bytes, keys2);
    assert ReadBody(lib, 39, KeyBytes(key) + bytes + rest, known) == Done(Ptr(key), rest, o.known[key := o.value]);
    assert Rename(Ptr(p), keys2) == Ptr(key);
  }

  lemma ReadNewPointer(lib: Library, key: nat, s: seq<byte>, known: map<nat, Value>)
    requires key > 0 && FitsSize(key) && key !in known
    ensures ReadBody(lib, 39, KeyBytes(key) + s, known) == ReadPointee(lib, key, s, known)
  {
    KeyBack(key, s);
  }

  /** The same for a row of values behind those in acc. */
  ghost predicate RowBack(h: Heap, items: seq<Value>, keys: map<nat, nat>, known: map<nat, Value>, acc: seq<Value>,
                          keys2: map<nat, nat>, o: Outcome<seq<Value>>, rest: seq<byte>)
  {
    && o.Done? && o.value == acc + RenameItems(items, keys2) && o.rest == rest
    && (forall i :: 0 <= i < |items| ==> Ok(items[i], keys2.Keys)) && Rebuilt(h, keys, known, keys2, o.known)
  }

  lemma RowJoin(h: Heap, items: seq<Value>, keys: map<nat, nat>, known: map<nat, Value>, keys1: map<nat, nat>, o1: Outcome<Value>,
                rest1: seq<byte>, acc: seq<Value>, keys2: map<nat, nat>, o: Outcome<seq<Value>>, rest: seq<byte>)
    requires HeapOk(h) && items != [] && Back(h, items[0], keys, known, keys1, o1, rest1)
    requires RowBack(h, items[1..], keys1, o1.known, acc + [o1.value], keys2, o, rest)
    ensures RowBack(h, items, keys, known, acc, keys2, o, rest)
  {
    RebuiltTransitive(h, keys, known, keys1, o1.known, keys2, o.known);
    OkGrows(items[0], keys1.Keys, keys2.Keys);
    RenameStable(items[0], keys1, keys2);
    Associate(acc, [o1.value], RenameItems(items[1..], keys2));
    forall i | 0 <= i < |items| ensures Ok(items[i], keys2.Keys) {
      assert i > 0 ==> items[i] == items[1..][i - 1];
    }
  }

  lemma {:induction false} ItemsBack(lib: Library, h: Heap, items: seq<Value>, keys: map<nat, nat>, known: map<nat, Value>,
                                     acc: seq<Value>, rest: seq<byte>)
    requires Ready(lib, h, keys, known) && forall i :: 0 <= i < |items| ==> Ok(items[i], h.Keys) && Held(lib, items[i])
    ensures RowBack(h, items, keys, known, acc, WriteItems(h, items, keys).1,
                    ReadItems(lib, WriteItems(h, items, keys).0 + rest, |items|, acc, known), rest)
    decreases h.Keys - keys.Keys, items
  {
    if items == [] {
      assert [] + rest == rest && acc + RenameItems(items, keys) == acc;
    } else {
      var (first, keys1) := Write(h, items[0], keys);
      var (more, keys2) := WriteItems(h, items[1..], keys1);
      Associate(first, more, rest);
      ValueBack(lib, h, items[0], keys, known, more + rest);
      var o1 := Read(lib, first + (more + rest), known);
      ItemsBack(lib, h, items[1..], keys1, o1.known, acc + [o1.value], rest);
      var o2 := ReadItems(lib, more + rest, |items| - 1, acc + [o1.value], o1.known);
      RowJoin(h, items, keys, known, keys1, o1, more + rest, acc, keys2, o2, rest);
    }
  }

  /** The same for the entries of a map. */
  ghost predicate TableBack(h: Heap, entries: seq<Entry>, keys: map<nat, nat>, known: map<nat, Value>, acc: seq<Entry>,
                            keys2: map<nat, nat>, o: Outcome<seq<Entry>>, rest: seq<byte>)
  {
    && o.Done? && o.value == acc + RenameEntries(entries, keys2) && o.rest == rest
    && (forall i :: 0 <= i < |entries| ==> Ok(entries[i].value, keys2.Keys)) && Rebuilt(h, keys, known, keys2, o.known)
  }

  lemma TableJoin(h: Heap, entries: seq<Entry>, keys: map<nat, nat>, known: map<nat, Value>, keys1: map<nat, nat>, o1: Outcome<Value>,
                  rest1: seq<byte>, acc: seq<Entry>, keys2: map<nat, nat>, o: Outcome<seq<Entry>>, rest: seq<byte>)
    requires HeapOk(h) && entries != [] && Back(h, entries[0].value, keys, known, keys1, o1, rest1)
    requires TableBack(h, entries[1..], keys1, o1.known, acc + [Entry(entries[0].key, o1.value)], keys2, o, rest)
    ensures TableBack(h, entries, keys, known, acc, keys2, o, rest)
  {
    RebuiltTransitive(h, keys, known, keys1, o1.known, keys2, o.known);
    OkGrows(entries[0].value, keys1.Keys, keys2.Keys);
    RenameStable(entries[0].value, keys1, keys2);
    Associate(acc, [Entry(entries[0].key, o1.value)], RenameEntries(entries[1..], keys2));
    forall i | 0 <= i < |entries| ensures Ok(entries[i].value, keys2.Keys) {
      assert i > 0 ==> entries[i] == entries[1..][i - 1];
    }
  }

  lemma SameKnown(h: Heap, keys: map<nat, nat>, known: map<nat, Value>, known2: map<nat, Value>)
    requires Rebuilt(h, keys, known, keys, known2) && KnowsKeys(known, |keys|)
    ensures known2 == known
  {
  }

  /** A key comes back as it was, and no pointee is met on the way. */
  lemma {:induction false} EntryKeyBack(lib: Library, h: Heap, et: nat, key: Value, keys: map<nat, nat>, known: map<nat, Value>,
                                        rest: seq<byte>)
    requires Ready(lib, h, keys, known) && KeyOk(et, key) && Ok(key, h.Keys) && Held(lib, key)
    ensures WriteKey(h, et, key, keys).1 == keys
    ensures ReadKey(lib, et, WriteKey(h, et, key, keys).0 + rest, known) == Done(key, rest, known)
    decreases h.Keys - keys.Keys, key, 3
  {
    if HasStringKeys(et) {
      TakeStringBack(lib.most(2), key.chars, rest);
    } else {
      NoKeys(h, key, keys);
      ValueBack(lib, h, key, keys, known, rest);
      RenamePointerFree(key, keys);
      SameKnown(h, keys, known, Read(lib, Write(h, key, keys).0 + rest, known).known);
    }
  }

  /** Reading gives back an entry: its key, and its value, read as o, as any value. */
  ghost predicate EntryComes(lib: Library, h: Heap, et: nat, e: Entry, keys: map<nat, nat>, known: map<nat, Value>,
                             rest: seq<byte>, o: Outcome<Value>)
    requires HeapOk(h) && EntryOk(et, e, h.Keys)
  {
    var (bytes, keys1) := WriteEntry(h, et, e, keys);
    && Back(h, e.value, keys, known, keys1, o, rest)
    && ReadEntry(lib, et, bytes + rest, known) == Done(Entry(e.key, o.value), o.rest, o.known)
  }

  lemma {:induction false} EntryBack(lib: Library, h: Heap, et: nat, e: Entry, keys: map<nat, nat>, known: map<nat, Value>,
                                     rest: seq<byte>) returns (o: Outcome<Value>)
    requires Ready(lib, h, keys, known) && EntryOk(et, e, h.Keys) && Held(lib, e.key) && Held(lib, e.value)
    ensures EntryComes(lib, h, et, e, keys, known, rest, o)
    decreases h.Keys - keys.Keys, e
  {
    var (kb, keys1) := WriteKey(h, et, e.key, keys);
    var (vb, keys2) := Write(h, e.value, keys1);
    EntryKeyBack(lib, h, et, e.key, keys, known, vb + rest);
    ValueBack(lib, h, e.value, keys, known, rest);
    o := Read(lib, vb + rest, known);
    Associate(kb, vb, rest);
  }

  /** Reading gives back all entries, behind those in acc. */
  ghost predicate EntriesCome(lib: Library, h: Heap, et: nat, entries: seq<Entry>, keys: map<nat, nat>, known: map<nat, Value>,
                              acc: seq<Entry>, rest: seq<byte>)
    requires HeapOk(h) && EntriesOk(et, entries, h.Keys)
  {
    var (bytes, keys2) := WriteEntries(h, et, entries, keys);
    TableBack(h, entries, keys, known, acc, keys2, ReadEntries(lib, bytes + rest, |entries|, et, acc, known), rest)
  }

  lemma {:induction false} EntriesBack(lib: Library, h: Heap, et: nat, entries: seq<Entry>, keys: map<nat, nat>,
                                       known: map<nat, Value>, acc: seq<Entry>, rest: seq<byte>)
    requires Ready(lib, h, keys, known) && EntriesOk(et, entries, h.Keys) && Ordered(lib, et, acc + entries)
    requires forall i :: 0 <= i < |entries| ==> Held(lib, entries[i].key) && Held(lib, entries[i].value)
    ensures EntriesCome(lib, h, et, entries, keys, known, acc, rest)
    decreases h.Keys - keys.Keys, entries
  {
    if entries == [] {
      assert [] + rest == rest && acc + RenameEntries(entries, keys) == acc;
    } else {
      var keys1 := WriteEntry(h, et, entries[0], keys).1;
      var more := WriteEntries(h, et, entries[1..], keys1).0;
      var o := EntryBack(lib, h, et, entries[0], keys, known, more + rest);
      var e := Entry(entries[0].key, o.value);
      InsertNext(lib, et, acc, entries, e);
      EntriesBack(lib, h, et, entries[1..], keys1, o.known, acc + [e], rest);
      FirstThenRest(lib, h, et, entries, keys, known, acc, rest, o);
    }
  }

  lemma FirstThenRest(lib: Library, h: Heap, et: nat, entries: seq<Entry>, keys: map<nat, nat>, known: map<nat, Value>,
                      acc: seq<Entry>, rest: seq<byte>, o: Outcome<Value>)
    requires HeapOk(h) && entries != [] && EntriesOk(et, entries, h.Keys) && o.Done?
    requires var keys1 := WriteEntry(h, et, entries[0], keys).1;
             EntryComes(lib, h, et, entries[0], keys, known, WriteEntries(h, et, entries[1..], keys1).0 + rest, o)
    requires Insert(lib, et, acc, Entry(entries[0].key, o.value)) == acc + [Entry(entries[0].key, o.value)]
    requires EntriesCome(lib, h, et, entries[1..], WriteEntry(h, et, entries[0], keys).1, o.known,
                         acc + [Entry(entries[0].key, o.value)], rest)
    ensures EntriesCome(lib, h, et, entries, keys, known, acc, rest)
  {
    var e := Entry(entries[0].key, o.value);
    var (first, keys1) := WriteEntry(h, et, entries[0], keys);
    var (more, keys2) := WriteEntries(h, et, entries[1..], keys1);
    var o2 := ReadEntries(lib, more + rest, |entries| - 1, et, acc + [e], o.known);
    Associate(first, more, rest);
    FirstEntryRead(lib, first + (more + rest), |entries|, et, acc, known, Done(e, more + rest, o.known));
    TableJoin(h, entries, keys, known, keys1, o, more + rest, acc, keys2, o2, rest);
  }

  lemma FirstEntryRead(lib: Library, s: seq<byte>, n: nat, et: nat, acc: seq<Entry>, known: map<nat, Value>, o: Outcome<Entry>)
    requires n > 0 && o.Done? && ReadEntry(lib, et, s, known) == o && Insert(lib, et, acc, o.value) == acc + [o.value]
    ensures ReadEntries(lib, s, n, et, acc, known) == ReadEntries(lib, o.rest, n - 1, et, acc + [o.value], o.known)
  {
  }

  /** The entries come back in order, so each one is inserted at the end. */
  lemma InsertNext(lib: Library, et: nat, acc: seq<Entry>, entries: seq<Entry>, e: Entry)
    requires lib.StrictWeak() && entries != [] && e.key == entries[0].key && Ordered(lib, et, acc + entries)
    ensures Insert(lib, et, acc, e) == acc + [e] && Ordered(lib, et, acc + [e] + entries[1..])
  {
    var all, next := acc + entries, acc + [e] + entries[1..];
    assert forall i :: 0 <= i < |all| ==> next[i].key == all[i].key;
    assert Ordered(lib, et, acc + [e]) by {
      assert forall i :: 0 <= i < |acc| + 1 ==> (acc + [e])[i].key == all[i].key;
    }
    InsertOrderedLast(lib, et, acc, e);
  }

  /** Without pointers no key is given out. */
  lemma {:induction false} NoKeys(h: Heap, v: Value, keys: map<nat, nat>)
    requires HeapOk(h) && Ok(v, h.Keys) && PointerFree(v)
    ensures Write(h, v, keys).1 == keys
    decreases v
  {
    match v
    case Seq(_, items) => NoKeysInItems(h, items, keys);
    case Map(et, entries) =>
      assert EntriesOk(et, entries, h.Keys);
      NoKeysInEntries(h, et, entries, keys);
    case _ =>
  }

  lemma {:induction false} NoKeysInItems(h: Heap, items: seq<Value>, keys: map<nat, nat>)
    requires HeapOk(h) && forall i :: 0 <= i < |items| ==> Ok(items[i], h.Keys) && PointerFree(items[i])
    ensures WriteItems(h, items, keys).1 == keys
    decreases items
  {
    if items != [] {
      NoKeys(h, items[0], keys);
      NoKeysInItems(h, items[1..], keys);
    }
  }

  lemma {:induction false} NoKeysInEntry(h: Heap, et: nat, e: Entry, keys: map<nat, nat>)
    requires HeapOk(h) && EntryOk(et, e, h.Keys) && PointerFree(e.value)
    ensures WriteEntry(h, et, e, keys).1 == keys
    decreases e
  {
    NoKeys(h, e.key, keys);
    NoKeys(h, e.value, keys);
  }

  lemma {:induction false} NoKeysInEntries(h: Heap, et: nat, entries: seq<Entry>, keys: map<nat, nat>)
    requires HeapOk(h)
    requires EntriesOk(et, entries, h.Keys) && forall i :: 0 <= i < |entries| ==> PointerFree(entries[i].value)
    ensures WriteEntries(h, et, entries, keys).1 == keys
    decreases entries
  {
    if entries != [] {
      NoKeysInEntry(h, et, entries[0], keys);
      NoKeysInEntries(h, et, entries[1..], keys);
    }
  }

  lemma KeyFits(h: Heap, keys: map<nat, nat>, p: nat)
    requires HeapOk(h) && Numbered(h, keys) && p in keys
    ensures FitsSize(keys[p])
  {
    SizeOfSubset(keys.Keys, h.Keys);
    assert |keys.Keys| == |keys| && |h.Keys| == |h|;
  }

  lemma KeyBack(key: nat, rest: seq<byte>)
    requires FitsSize(key)
    ensures TakeField(KeyBytes(key) + rest, U8) == Got(key, rest)
  {
    assert KeyBytes(key) == FieldBytes(key, U8);
    TakeFieldBack(key, U8, rest);
  }

  lemma LeafTypes(v: Value)
    requires IsLeaf(v) && LeafOk(v)
    ensures Type(v) !in {16, 17, 30, 31, 32, 33, 34, 35, 36, 39}
  {
  }

  // ----- whole graphs -----

  /**
    A whole graph, shared or cyclic: what is read is the same graph with its pointees renamed one to one, and exactly the bytes
    behind it are left.
  */
  lemma GraphRoundTrip(lib: Library, h: Heap, v: Value, rest: seq<byte>)
    requires lib.StrictWeak() && HeapOk(h) && HeapHeld(lib, h) && Ok(v, h.Keys) && Held(lib, v)
    ensures var (bytes, keys) := Write(h, v, map[]);
            var o := Read(lib, bytes + rest, map[]);
            && o.Done? && o.rest == rest && o.value == Rename(v, keys)
            && keys.Keys <= h.Keys && Ok(v, keys.Keys)
            && (forall p, q :: p in keys && q in keys && keys[p] == keys[q] ==> p == q)
            && (forall k :: k in o.known <==> 1 <= k <= |keys|)
            && (forall p :: p in keys ==>
                  Ok(h[p], keys.Keys) && 1 <= keys[p] <= |keys| && o.known[keys[p]] == Rename(h[p], keys))
  {
    var none: map<nat, nat>, nothing: map<nat, Value> := map[], map[];
    ValueBack(lib, h, v, none, nothing, rest);
    var (bytes, keys) := Write(h, v, none);
    var o := Read(lib, bytes + rest, nothing);
    forall p | p in keys ensures Ok(h[p], keys.Keys) && 1 <= keys[p] <= |keys| && o.known[keys[p]] == Rename(h[p], keys) {
      assert p !in none;
    }
  }

  ghost predicate Injective(keys: map<nat, nat>) {
    && (forall p :: p in keys ==> keys[p] > 0)
    && forall p, q :: p in keys && q in keys && keys[p] == keys[q] ==> p == q
  }

  /** Renaming loses nothing: values that look alike after it were alike, down to which pointers are shared. */
  lemma {:induction false} RenameInjective(v: Value, w: Value, keys: map<nat, nat>)
    requires Ok(v, keys.Keys) && Ok(w, keys.Keys) && Injective(keys) && 0 !in keys && Rename(v, keys) == Rename(w, keys)
    ensures v == w
    decreases v
  {
    match v
    case Seq(_, items) =>
      RowInjective(items, w.items, keys);
    case Map(_, entries) =>
      TableInjective(entries, w.entries, keys);
    case _ =>
  }

  lemma {:induction false} RowInjective(a: seq<Value>, b: seq<Value>, keys: map<nat, nat>)
    requires (forall i :: 0 <= i < |a| ==> Ok(a[i], keys.Keys)) && (forall i :: 0 <= i < |b| ==> Ok(b[i], keys.Keys))
    requires Injective(keys) && 0 !in keys && RenameItems(a, keys) == RenameItems(b, keys)
    ensures a == b
    decreases a
  {
    if a != [] {
      assert RenameItems(a, keys)[0] == Rename(a[0], keys) && RenameItems(b, keys)[0] == Rename(b[0], keys);
      RenameInjective(a[0], b[0], keys);
      assert RenameItems(a, keys)[1..] == RenameItems(a[1..], keys) && RenameItems(b, keys)[1..] == RenameItems(b[1..], keys);
      RowInjective(a[1..], b[1..], keys);
      assert a == [a[0]] + a[1..] && b == [b[0]] + b[1..];
    }
  }

  lemma {:induction false} EntryInjective(a: Entry, b: Entry, keys: map<nat, nat>)
    requires Ok(a.value, keys.Keys) && Ok(b.value, keys.Keys)
    requires Injective(keys) && 0 !in keys && RenameEntry(a, keys) == RenameEntry(b, keys)
    ensures a == b
    decreases a
  {
    RenameInjective(a.value, b.value, keys);
  }

  lemma {:induction false} TableInjective(a: seq<Entry>, b: seq<Entry>, keys: map<nat, nat>)
    requires forall i :: 0 <= i < |a| ==> Ok(a[i].value, keys.Keys)
    requires forall i :: 0 <= i < |b| ==> Ok(b[i].value, keys.Keys)
    requires Injective(keys) && 0 !in keys && RenameEntries(a, keys) == RenameEntries(b, keys)
    ensures a == b
    decreases a
  {
    if a != [] {
      var ra, rb := RenameEntries(a, keys), RenameEntries(b, keys);
      assert ra[0] == RenameEntry(a[0], keys) && rb[0] == RenameEntry(b[0], keys);
      EntryInjective(a[0], b[0], keys);
      assert ra[1..] == RenameEntries(a[1..], keys) && rb[1..] == RenameEntries(b[1..], keys);
      TableInjective(a[1..], b[1..], keys);
      assert a == [a[0]] + a[1..] && b == [b[0]] + b[1..];
    }
  }

  // ----- values without pointers -----

  lemma {:induction false} RenamePointerFree(v: Value, keys: map<nat, nat>)
    requires PointerFree(v)
    ensures Rename(v, keys) == v
    decreases v
  {
    match v
    case Seq(_, items) => RenamePointerFreeItems(items, keys);
    case Map(_, entries) => RenamePointerFreeEntries(entries, keys);
    case _ =>
  }

  lemma {:induction false} RenamePointerFreeItems(items: seq<Value>, keys: map<nat, nat>)
    requires forall i :: 0 <= i < |items| ==> PointerFree(items[i])
    ensures RenameItems(items, keys) == items
    decreases items
  {
    if items != [] {
      RenamePointerFree(items[0], keys);
      RenamePointerFreeItems(items[1..], keys);
    }
  }

  lemma {:induction false} RenamePointerFreeEntries(entries: seq<Entry>, keys: map<nat, nat>)
    requires forall i :: 0 <= i < |entries| ==> PointerFree(entries[i].value)
    ensures RenameEntries(entries, keys) == entries
    decreases entries
  {
    if entries != [] {
      RenamePointerFreeEntry(entries[0], keys);
      RenamePointerFreeEntries(entries[1..], keys);
    }
  }

  lemma {:induction false} RenamePointerFreeEntry(e: Entry, keys: map<nat, nat>)
    requires PointerFree(e.value)
    ensures RenameEntry(e, keys) == e
    decreases e
  {
    RenamePointerFree(e.value, keys);
  }

  /** A value without pointers comes back as it was. */
  lemma TreeRoundTrip(lib: Library, v: Value, rest: seq<byte>)
    requires lib.StrictWeak() && Ok(v, {}) && PointerFree(v) && Held(lib, v)
    ensures var bytes := Write(map[], v, map[]).0;
            Read(lib, bytes + rest, map[]) == Done(v, rest, map[])
  {
    GraphRoundTrip(lib, map[], v, rest);
    var (bytes, keys) := Write(map[], v, map[]);
    var o := Read(lib, bytes + rest, map[]);
    RenamePointerFree(v, keys);
    assert keys == map[];
    assert o.known == map[] by { assert forall k :: k !in o.known; }
  }
}
