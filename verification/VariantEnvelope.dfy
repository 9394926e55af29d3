/** The size that is reckoned before writing, and the header around the written bytes (variantSerialization.cpp). */
module VariantEnvelope {
  import opened Basics
  import opened VariantBytes
  import opened VariantFormat
  import opened VariantRoundTrip

  // ----- calcSize -----

  /** The size of a type that is a row of fields, as `calcSize` lists it. */
  function FlatSize(et: nat): nat {
    match et
    case 3 => 4
    case 4 => 8
    case 5 => 1
    case 6 => 2
    case 7 => 4
    case 8 => 8
    case 9 => 1
    case 10 => 2
    case 11 => 4
    case 12 => 8
    case 19 => 36
    case 27 => 4
    case 28 => 8
    case 29 => 12
    case 37 => 1
    case 38 => 16
    case _ => 0
  }

  function LeafSize(v: Value): nat {
    match v
    case Flat(et, _) => FlatSize(et)
    case Bool(_) => 1
    case Date(_) => 4
    case Datetime(_, _) => 12
    case Bitset(bits) => |bits| / 8
    case Str(chars) => 8 + |chars|
    case VectorChar(chars) => 8 + |chars|
    case _ => 0
  }

  datatype Sizes = Sizes(size: nat, pointers: nat, keys: map<nat, nat>)

  /** `calcSize`: the size, how many pointers were met, and the keys given out. A pointer counts 4 bytes. */
  function CalcSize(h: Heap, v: Value, keys: map<nat, nat>): (r: Sizes)
    requires HeapOk(h) && Ok(v, h.Keys)
    ensures keys.Keys <= r.keys.Keys
    decreases h.Keys - keys.Keys, v, 0
  {
    match v
    case Null(_) => Sizes(2, 0, keys)
    case Seq(_, items) =>
      var s := CalcItems(h, items, keys);
      s.(size := 2 + 8 + s.size)
    case Map(et, entries) =>
      var s := CalcEntries(h, et, entries, keys);
      s.(size := 2 + 8 + s.size)
    case Ptr(p) =>
      if p == 0 || p in keys then Sizes(2 + 4, 1, keys)
      else
        var keys1 := keys[p := |keys| + 1];
        assert p in h.Keys - keys.Keys && p !in h.Keys - keys1.Keys;
        var s := CalcSize(h, h[p], keys1);
        Sizes(2 + 4 + s.size, 1 + s.pointers, s.keys)
    case _ => Sizes(2 + LeafSize(v), 0, keys)
  }

  function CalcItems(h: Heap, items: seq<Value>, keys: map<nat, nat>): (r: Sizes)
    requires HeapOk(h) && forall i :: 0 <= i < |items| ==> Ok(items[i], h.Keys)
    ensures keys.Keys <= r.keys.Keys
    decreases h.Keys - keys.Keys, items
  {
    if items == [] then Sizes(0, 0, keys)
    else
      var a := CalcSize(h, items[0], keys);
      var b := CalcItems(h, items[1..], a.keys);
      Sizes(a.size + b.size, a.pointers + b.pointers, b.keys)
  }

  function CalcKey(h: Heap, et: nat, key: Value, keys: map<nat, nat>): (r: Sizes)
    requires HeapOk(h) && KeyOk(et, key) && Ok(key, h.Keys)
    ensures keys.Keys <= r.keys.Keys
    decreases h.Keys - keys.Keys, key, 1
  {
    if HasStringKeys(et) then Sizes(8 + |key.chars|, 0, keys) else CalcSize(h, key, keys)
  }

  function CalcEntry(h: Heap, et: nat, e: Entry, keys: map<nat, nat>): (r: Sizes)
    requires HeapOk(h) && EntryOk(et, e, h.Keys)
    ensures keys.Keys <= r.keys.Keys
    decreases h.Keys - keys.Keys, e
  {
    var a := CalcKey(h, et, e.key, keys);
    var b := CalcSize(h, e.value, a.keys);
    Sizes(a.size + b.size, a.pointers + b.pointers, b.keys)
  }

  function CalcEntries(h: Heap, et: nat, entries: seq<Entry>, keys: map<nat, nat>): (r: Sizes)
    requires HeapOk(h) && EntriesOk(et, entries, h.Keys)
    ensures keys.Keys <= r.keys.Keys
    decreases h.Keys - keys.Keys, entries
  {
    if entries == [] then Sizes(0, 0, keys)
    else
      var a := CalcEntry(h, et, entries[0], keys);
      var b := CalcEntries(h, et, entries[1..], a.keys);
      Sizes(a.size + b.size, a.pointers + b.pointers, b.keys)
  }

  function TotalWidth(layout: seq<Field>): nat {
    if layout == [] then 0 else layout[0].width + TotalWidth(layout[1..])
  }

  lemma {:induction false} FieldsWidth(ns: seq<int>, layout: seq<Field>)
    requires |ns| == |layout| && forall i :: 0 <= i < |ns| ==> InField(ns[i], layout[i])
    ensures |FieldsBytes(ns, layout)| == TotalWidth(layout)
  {
    if ns != [] { FieldsWidth(ns[1..], layout[1..]); }
  }

  /** A row of n fields of the same width. */
  lemma {:induction false} SameWidths(layout: seq<Field>, w: nat)
    requires forall i :: 0 <= i < |layout| ==> layout[i].width == w
    ensures TotalWidth(layout) == |layout| * w
  {
    if layout != [] { SameWidths(layout[1..], w); }
  }

  lemma LayoutWidth(et: nat)
    requires Layout(et) != []
    ensures TotalWidth(Layout(et)) == FlatSize(et)
  {
    var layout := Layout(et);
    if et == 29 {
      assert layout[1..] == [S8] && TotalWidth([S8]) == 8;
    } else {
      SameWidths(layout, layout[0].width);
    }
  }

  lemma LeafSizeIsWritten(v: Value)
    requires IsLeaf(v) && LeafOk(v)
    ensures |LeafBytes(v)| == LeafSize(v)
  {
    if v.Flat? {
      FieldsWidth(v.fields, Layout(v.et));
      LayoutWidth(v.et);
    }
  }

  /** What is written is longer than reckoned by 4 bytes for every pointer met, because a key takes 8 bytes and counts 4. */
  lemma {:induction false} WrittenSize(h: Heap, v: Value, keys: map<nat, nat>)
    requires HeapOk(h) && Ok(v, h.Keys)
    ensures var s := CalcSize(h, v, keys); var w := Write(h, v, keys);
            s.keys == w.1 && |w.0| == s.size + 4 * s.pointers
    decreases h.Keys - keys.Keys, v
  {
    assert |TypeBytes(v, h.Keys)| == 2;
    match v
    case Null(_) =>
    case Seq(_, items) => WrittenItemsSize(h, items, keys);
    case Map(et, entries) =>
      assert EntriesOk(et, entries, h.Keys);
      WrittenEntriesSize(h, et, entries, keys);
    case Ptr(p) =>
      if p != 0 && p !in keys {
        assert p in h.Keys - keys.Keys && p !in h.Keys - keys[p := |keys| + 1].Keys;
        WrittenSize(h, h[p], keys[p := |keys| + 1]);
      }
    case _ =>
      LeafSizeIsWritten(v);
      assert WriteBody(h, v, keys) == (LeafBytes(v), keys);
  }

  lemma {:induction false} WrittenItemsSize(h: Heap, items: seq<Value>, keys: map<nat, nat>)
    requires HeapOk(h) && forall i :: 0 <= i < |items| ==> Ok(items[i], h.Keys)
    ensures var s := CalcItems(h, items, keys); var w := WriteItems(h, items, keys);
            s.keys == w.1 && |w.0| == s.size + 4 * s.pointers
    decreases h.Keys - keys.Keys, items
  {
    if items != [] {
      WrittenSize(h, items[0], keys);
      WrittenItemsSize(h, items[1..], Write(h, items[0], keys).1);
    }
  }

  lemma {:induction false} WrittenEntrySize(h: Heap, et: nat, e: Entry, keys: map<nat, nat>)
    requires HeapOk(h) && EntryOk(et, e, h.Keys)
    ensures var s := CalcEntry(h, et, e, keys); var w := WriteEntry(h, et, e, keys);
            s.keys == w.1 && |w.0| == s.size + 4 * s.pointers
    decreases h.Keys - keys.Keys, e
  {
    if !HasStringKeys(et) { WrittenSize(h, e.key, keys); }
    WrittenSize(h, e.value, WriteKey(h, et, e.key, keys).1);
  }

  lemma {:induction false} WrittenEntriesSize(h: Heap, et: nat, entries: seq<Entry>, keys: map<nat, nat>)
    requires HeapOk(h) && EntriesOk(et, entries, h.Keys)
    ensures var s := CalcEntries(h, et, entries, keys); var w := WriteEntries(h, et, entries, keys);
            s.keys == w.1 && |w.0| == s.size + 4 * s.pointers
    decreases h.Keys - keys.Keys, entries
  {
    if entries != [] {
      WrittenEntrySize(h, et, entries[0], keys);
      WrittenEntriesSize(h, et, entries[1..], WriteEntry(h, et, entries[0], keys).1);
    }
  }

  lemma {:induction false} PointersMet(h: Heap, v: Value, keys: map<nat, nat>)
    requires HeapOk(h) && Ok(v, h.Keys)
    ensures CalcSize(h, v, keys).pointers == 0 <==> PointerFree(v)
    decreases v
  {
    match v
    case Seq(_, items) => PointersMetInItems(h, items, keys);
    case Map(et, entries) =>
      assert EntriesOk(et, entries, h.Keys);
      PointersMetInEntries(h, et, entries, keys);
    case _ =>
  }

  lemma {:induction false} PointersMetInItems(h: Heap, items: seq<Value>, keys: map<nat, nat>)
    requires HeapOk(h) && forall i :: 0 <= i < |items| ==> Ok(items[i], h.Keys)
    ensures CalcItems(h, items, keys).pointers == 0 <==> forall i :: 0 <= i < |items| ==> PointerFree(items[i])
    decreases items
  {
    if items != [] {
      PointersMet(h, items[0], keys);
      PointersMetInItems(h, items[1..], CalcSize(h, items[0], keys).keys);
      assert forall i :: 1 <= i < |items| ==> items[i] == items[1..][i - 1];
    }
  }

  lemma {:induction false} PointersMetInEntry(h: Heap, et: nat, e: Entry, keys: map<nat, nat>)
    requires HeapOk(h) && EntryOk(et, e, h.Keys)
    ensures CalcEntry(h, et, e, keys).pointers == 0 <==> PointerFree(e.value)
    decreases e
  {
    if !HasStringKeys(et) { PointersMet(h, e.key, keys); }
    PointersMet(h, e.value, CalcKey(h, et, e.key, keys).keys);
  }

  lemma {:induction false} PointersMetInEntries(h: Heap, et: nat, entries: seq<Entry>, keys: map<nat, nat>)
    requires HeapOk(h) && EntriesOk(et, entries, h.Keys)
    ensures CalcEntries(h, et, entries, keys).pointers == 0 <==> forall i :: 0 <= i < |entries| ==> PointerFree(entries[i].value)
    decreases entries
  {
    if entries != [] {
      PointersMetInEntry(h, et, entries[0], keys);
      PointersMetInEntries(h, et, entries[1..], CalcEntry(h, et, entries[0], keys).keys);
      assert forall i :: 1 <= i < |entries| ==> entries[i] == entries[1..][i - 1];
    }
  }

  /** The reckoned size is the written one exactly for values without pointers. */
  lemma CalcSizeIsExact(h: Heap, v: Value)
    requires HeapOk(h) && Ok(v, h.Keys)
    ensures |Write(h, v, map[]).0| == CalcSize(h, v, map[]).size <==> PointerFree(v)
  {
    WrittenSize(h, v, map[]);
    PointersMet(h, v, map[]);
  }

  // ----- the header -----

  type word = n: nat | n < 65536

  const SIGNATURE: nat := 0x472e
  const HEADER: nat := 12

  /** The part that the checksum covers: the size and the data without its last four bytes. */
  function Covered(message: seq<byte>): seq<byte>
    requires |message| >= HEADER
  {
    message[4..|message| - 4]
  }

  function Message(data: seq<byte>, crc: seq<byte> -> word): (r: seq<byte>)
    ensures |r| == HEADER + |data|
  {
    var size := Little(|data|, 8);
    Little(SIGNATURE, 2) + Little(crc(Covered(Little(0, 4) + size + data)), 2) + size + data
  }

  /** `serialize`; None is a write beyond the end of the buffer, whose size was reckoned before. */
  function Serialize(h: Heap, v: Value, crc: seq<byte> -> word): Option<seq<byte>>
    requires HeapOk(h) && Ok(v, h.Keys)
  {
    var data := Write(h, v, map[]).0;
    if |data| > CalcSize(h, v, map[]).size then None else Some(Message(data, crc))
  }

  predicate HeaderOk(message: seq<byte>, crc: seq<byte> -> word) {
    && |message| >= HEADER + 2
    && LittleValue(message[..2]) == SIGNATURE
    && LittleValue(message[4..12]) == |message| - HEADER
    && LittleValue(message[2..4]) == crc(Covered(message))
  }

  /**
    `deserialize`: whether the reading itself has failed does not count, only whether it ended at the end. A reading that runs
    behind the buffer, or that throws, has no place to end at.
  */
  function Deserialize(lib: Library, message: seq<byte>, crc: seq<byte> -> word): Option<Outcome<Value>> {
    if !HeaderOk(message, crc) then None
    else
      var o := Read(lib, message[HEADER..], map[]);
      if (o.Done? || o.Failed?) && o.rest != [] then None else Some(o)
  }

  lemma MessageParts(data: seq<byte>, crc: seq<byte> -> word)
    requires FitsSize(|data|) && |data| >= 2
    ensures HeaderOk(Message(data, crc), crc) && Message(data, crc)[HEADER..] == data
  {
    var message, size := Message(data, crc), Little(|data|, 8);
    var zeroed := Little(0, 4) + size + data;
    assert message[4..] == size + data == zeroed[4..];
    assert Covered(message) == Covered(zeroed) by {
      assert message[4..][..|data| + 4] == Covered(message) && zeroed[4..][..|data| + 4] == Covered(zeroed);
    }
    assert message[..2] == Little(SIGNATURE, 2) && message[4..12] == size;
    assert message[2..4] == Little(crc(Covered(zeroed)), 2);
    assert Power(256, 2) == 65536;
    LittleRoundTrip(SIGNATURE, 2);
    LittleRoundTrip(crc(Covered(zeroed)), 2);
    LittleRoundTrip(|data|, 8);
  }

  /** Serialized values without pointers are deserialized to themselves; those with pointers do not fit the buffer. */
  lemma MessageRoundTrip(lib: Library, h: Heap, v: Value, crc: seq<byte> -> word)
    requires lib.StrictWeak() && HeapOk(h) && HeapHeld(lib, h) && Ok(v, h.Keys) && Held(lib, v)
    requires FitsSize(|Write(h, v, map[]).0|)
    ensures var m := Serialize(h, v, crc);
            && (m.Some? <==> PointerFree(v))
            && (m.Some? ==> Deserialize(lib, m.value, crc) == Some(Done(v, [], map[])))
  {
    var (data, keys) := Write(h, v, map[]);
    WrittenSize(h, v, map[]);
    PointersMet(h, v, map[]);
    if PointerFree(v) {
      DataBack(lib, h, v);
      MessageParts(data, crc);
    }
  }

  lemma DataBack(lib: Library, h: Heap, v: Value)
    requires lib.StrictWeak() && HeapOk(h) && HeapHeld(lib, h) && Ok(v, h.Keys) && Held(lib, v) && PointerFree(v)
    ensures var data := Write(h, v, map[]).0; |data| >= 2 && Read(lib, data, map[]) == Done(v, [], map[])
  {
    var (data, keys) := Write(h, v, map[]);
    GraphRoundTrip(lib, h, v, []);
    RenamePointerFree(v, keys);
    NoKeys(h, v, map[]);
    assert data + [] == data && |TypeBytes(v, h.Keys)| == 2;
    assert Read(lib, data, map[]).known == map[];
  }

  lemma StartSlices(message: seq<byte>, a: seq<byte>)
    requires |a| >= HEADER && a <= message
    ensures message[..2] == a[..2] && message[2..4] == a[2..4] && message[4..12] == a[4..12]
  {
  }

  /** Contrary to the comment on the header, the checksum does not see the last four bytes of the data. */
  lemma LastFourUnchecked(message: seq<byte>, other: seq<byte>, crc: seq<byte> -> word)
    requires |message| == |other| >= HEADER + 4 && message[..|message| - 4] == other[..|other| - 4]
    ensures HeaderOk(message, crc) == HeaderOk(other, crc)
  {
    var a := message[..|message| - 4];
    assert Covered(message) == a[4..] && Covered(other) == a[4..];
    StartSlices(message, a);
    StartSlices(other, a);
  }

  /** The type number at the front of data. */
  lemma TypeRead(et: nat, rest: seq<byte>)
    requires et < 32768
    ensures ReadType(Little(et, 2) + rest) == Got(et, rest)
  {
    assert Power(256, 2) == 65536;
    assert FieldBytes(et, S2) == Little(et, 2);
    TakeFieldBack(et, S2, rest);
  }

  /** A reading that fails exactly at the end is accepted: here the data is the unknown type 0. */
  lemma FailureAtEndAccepted(lib: Library, crc: seq<byte> -> word)
    ensures Deserialize(lib, Message(Little(0, 2), crc), crc) == Some(Failed([]))
  {
    MessageParts(Little(0, 2), crc);
    TypeRead(0, []);
    assert Little(0, 2) + [] == Little(0, 2);
    assert Read(lib, Little(0, 2), map[]) == ReadBody(lib, 0, [], map[]);
  }

  /**
    A length that the cast makes small makes the reading run behind the buffer: here a string, or a byte vector, of 2^31 or more
    bytes of which none is there.
  */
  lemma LargeLengthOverreads(lib: Library, et: nat, n: nat, crc: seq<byte> -> word)
    requires (et == 2 || et == 13) && 0 < n < 0x1_0000_0000_0000_0000 && Int32(n) <= 0 && n <= lib.most(et)
    ensures var data := Little(et, 2) + Little(n, 8);
            && Read(lib, data, map[]) == Overread && Deserialize(lib, Message(data, crc), crc) == Some(Overread)
  {
    var data := Little(et, 2) + Little(n, 8);
    assert FitsSize(10) && FitsSize(n) by { Power256To8(); }
    MessageParts(data, crc);
    TypeRead(et, Little(n, 8));
    assert FieldBytes(n, SIZE) == Little(n, 8) && Little(n, 8) + [] == Little(n, 8);
    TakeFieldBack(n, SIZE, []);
    assert TakeString(lib.most(et), Little(n, 8)) == Overrun;
    assert ReadBody(lib, et, Little(n, 8), map[]) == ReadLeaf(lib, et, Little(n, 8), map[]);
  }

  lemma Power256To8()
    ensures Power(256, 8) == 0x1_0000_0000_0000_0000
  {
    assert Power(256, 4) == 0x1_0000_0000;
  }
}
