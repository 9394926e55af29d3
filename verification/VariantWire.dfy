/** Which bytes a serialized variant consists of, type by type, and what the header says of them (variantSerialization.cpp). */
module VariantWire {
  import opened Basics
  import opened VariantBytes
  import opened VariantFormat
  import opened VariantEnvelope

  // ----- numbers -----

  lemma Powers()
    ensures Power(256, 1) == 0x100 && Power(256, 2) == 0x1_0000 && Power(256, 4) == 0x1_0000_0000
    ensures Power(256, 8) == 0x1_0000_0000_0000_0000
  {
  }

  lemma SmallLittle(n: nat)
    requires n < 256
    ensures Little(n, 2) == [n, 0] && Little(n, 1) == [n]
  {
    assert n % 256 == n && n / 256 == 0;
    assert Little(0, 1) == [0];
  }

  /** A negative number becomes what it is modulo the range. */
  lemma Modulo(n: int, p: nat)
    requires p > 0 && 0 <= n + p && n < p
    ensures n % p == if n < 0 then n + p else n
  {
    var q, r := n / p, n % p;
    assert n == p * q + r;
    if q >= 1 {
      MulMonotone(p, 1, q);
    } else if q <= -2 {
      MulMonotone(p, 2, -q);
      Negated(p, q);
    }
  }

  lemma Negated(p: int, q: int)
    ensures p * q == 0 - p * (0 - q)
  {
  }

  /** The bytes of a number are those of what it is modulo the range: negative numbers are in two's complement. */
  lemma FieldIsLittle(n: int, f: Field)
    requires f.width > 0 && InField(n, f)
    ensures FieldBytes(n, f) == Little(n % Power(256, f.width), f.width)
  {
    Modulo(n, Power(256, f.width));
  }

  /** Every value begins with the number of its type in two bytes, a null with its negative. */
  lemma TypeOnWire(h: Heap, v: Value, keys: map<nat, nat>)
    requires HeapOk(h) && Ok(v, h.Keys)
    ensures var bytes := Write(h, v, keys).0;
            |bytes| >= 2 && bytes[..2] == (if v.Null? then Little(65536 - v.et, 2) else [Type(v), 0])
    ensures v.Null? ==> |Write(h, v, keys).0| == 2
  {
    TypeFits(v, h.Keys);
    Powers();
    SmallLittle(Type(v));
    var et: int := if v.Null? then -(Type(v) as int) else Type(v);
    FieldIsLittle(et, S2);
    Modulo(et, 65536);
  }

  lemma BodyOnWire(h: Heap, v: Value, keys: map<nat, nat>)
    requires HeapOk(h) && Ok(v, h.Keys) && !v.Null?
    ensures Write(h, v, keys).0 == [Type(v), 0] + WriteBody(h, v, keys).0
  {
    TypeOnWire(h, v, keys);
  }

  /** A value without parts is the number of its type and its own bytes. */
  lemma LeafOnWire(h: Heap, v: Value, keys: map<nat, nat>)
    requires HeapOk(h) && Ok(v, h.Keys) && IsLeaf(v)
    ensures Write(h, v, keys).0 == [Type(v), 0] + LeafBytes(v)
  {
    BodyOnWire(h, v, keys);
    assert WriteBody(h, v, keys).0 == LeafBytes(v);
  }

  /** The types of the values that are not numbers; a set of 2^k bytes of bits has type 20 + k. */
  lemma TypeNumbers(v: Value)
    requires Ok(v, {})
    ensures v.Str? ==> Type(v) == 2
    ensures v.VectorChar? ==> Type(v) == 13
    ensures v.Date? ==> Type(v) == 14
    ensures v.Datetime? ==> Type(v) == 15
    ensures v.Bool? ==> Type(v) == 18
    ensures v.Bitset? ==> 20 <= Type(v) <= 26 && |v.bits| == 8 * Power(2, Type(v) - 20)
    ensures v.Seq? ==> Type(v) == 16 || Type(v) == 35 || Type(v) == 36
    ensures v.Map? ==> Type(v) == 17 || 30 <= Type(v) <= 32
    ensures v.Ptr? ==> Type(v) == 39
  {
    assert Power(2, 3) == 8 && Power(2, 6) == 64;
  }

  /** How many bytes the numbers of a type have. */
  function NumberWidth(et: nat): nat {
    if et in {5, 9, 37} then 1 else if et in {6, 10} then 2 else if et in {3, 7, 11, 27} then 4 else 8
  }

  /** The types that are one number, and which of them are signed. */
  lemma NumberRange(et: nat, n: int)
    requires 3 <= et <= 12 || et == 27 || et == 28 || et == 37
    ensures Ok(Flat(et, [n]), {}) <==>
              var range := Power(256, NumberWidth(et));
              if et in {5, 6, 7, 8, 27, 28, 37} then -(range / 2) <= n < range / 2 else 0 <= n < range
  {
    assert |Layout(et)| == 1 && Layout(et)[0].width == NumberWidth(et);
    assert Ok(Flat(et, [n]), {}) <==> InField(n, Layout(et)[0]);
  }

  // ----- which values there are -----

  /** How many fields the types have that are a row of fixed fields; 0 for all others. */
  function FieldCount(et: nat): nat {
    if 3 <= et <= 12 || et == 27 || et == 28 || et == 37 then 1
    else if et == 29 then 2 else if et == 19 then 9 else if et == 38 then 16 else 0
  }

  function WidthAt(et: nat, i: nat): nat {
    if et == 38 then 1 else if et == 19 || (et == 29 && i == 0) then 4 else NumberWidth(et)
  }

  /** Field i of type et can hold n. */
  predicate Fits(et: nat, i: nat, n: int) {
    var range := Power(256, WidthAt(et, i));
    if et in {5, 6, 7, 8, 19, 27, 28, 29, 37} then -(range / 2) <= n < range / 2 else 0 <= n < range
  }

  lemma FlatIs(et: nat, fields: seq<int>)
    ensures LeafOk(Flat(et, fields)) <==>
              FieldCount(et) > 0 && |fields| == FieldCount(et) && forall i :: 0 <= i < |fields| ==> Fits(et, i, fields[i])
  {
    LayoutIs(et);
    Powers();
    if |fields| == FieldCount(et) {
      forall i | 0 <= i < |fields| ensures Fits(et, i, fields[i]) == InField(fields[i], Layout(et)[i]) {
      }
    }
  }

  lemma LayoutIs(et: nat)
    ensures |Layout(et)| == FieldCount(et)
    ensures forall i :: 0 <= i < |Layout(et)| ==>
              Layout(et)[i].width == WidthAt(et, i) && Layout(et)[i].signed == (et in {5, 6, 7, 8, 19, 27, 28, 29, 37})
  {
  }

  /** The dates of the calendar library. */
  lemma DatesAre(d: Ymd)
    ensures ValidDate(d) <==>
              && 1400 <= d.y <= 9999 && 1 <= d.m <= 12
              && 1 <= d.d <= (if d.m in {4, 6, 9, 11} then 30 else if d.m != 2 then 31
                              else if d.y % 400 == 0 || (d.y % 4 == 0 && d.y % 100 != 0) then 29 else 28)
  {
  }

  /** Which types and sizes a value that can be written may have, and what may be inside. */
  lemma ValuesAre(v: Value, names: set<nat>)
    ensures Ok(v, names) <==>
              match v
              case Null(et) => 1 <= et <= 39
              case Flat(et, fields) =>
                FieldCount(et) > 0 && |fields| == FieldCount(et) && forall i :: 0 <= i < |fields| ==> Fits(et, i, fields[i])
              case Bool(_) => true
              case Date(d) => ValidDate(d)
              case Datetime(d, us) => ValidDate(d) && 0 <= us < 86_400_000_000
              case Bitset(bits) => |bits| in {8, 16, 32, 64, 128, 256, 512}
              case Str(chars) => |chars| < 0x1_0000_0000_0000_0000
              case VectorChar(chars) => |chars| < 0x1_0000_0000_0000_0000
              case Seq(et, items) =>
                et in {16, 35, 36} && |items| < 0x1_0000_0000_0000_0000 && forall i :: 0 <= i < |items| ==> Ok(items[i], names)
              case Map(et, entries) =>
                && et in {17, 30, 31, 32} && |entries| < 0x1_0000_0000_0000_0000
                && forall i :: 0 <= i < |entries| ==>
                     && Ok(entries[i].key, names) && Ok(entries[i].value, names) && PointerFree(entries[i].key)
                     && (et == 17 || et == 31 ==> entries[i].key.Str?)
              case Ptr(p) => p == 0 || p in names
  {
    match v
    case Flat(et, fields) => FlatIs(et, fields);
    case _ =>
  }

  /** What reading makes of the type numbers that are no type of values: a null for the negative of one, a failure for all others. */
  lemma OtherTypesRead(lib: Library, et: int, rest: seq<byte>, known: map<nat, Value>)
    requires -0x8000 <= et < 2 || 39 < et < 0x8000
    ensures Read(lib, FieldBytes(et, S2) + rest, known) == if -39 <= et < 0 then Done(Null(-et), rest, known) else Failed(rest)
  {
    Powers();
    TakeFieldBack(et, S2, rest);
  }

  lemma NumberOnWire(h: Heap, et: nat, n: int, keys: map<nat, nat>)
    requires HeapOk(h) && Ok(Flat(et, [n]), h.Keys)
    ensures var w := NumberWidth(et);
            Write(h, Flat(et, [n]), keys).0 == [et, 0] + Little(n % Power(256, w), w)
  {
    LeafOnWire(h, Flat(et, [n]), keys);
    FieldIsLittle(n, Layout(et)[0]);
    assert [n][1..] == [] && Layout(et)[1..] == [];
    assert FieldsBytes([n], Layout(et)) == FieldBytes(n, Layout(et)[0]) + [];
  }

  /** Numbers of w bytes each. */
  function Pieces(ns: seq<int>, w: nat): (r: seq<seq<byte>>)
    ensures |r| == |ns|
  {
    seq(|ns|, i requires 0 <= i < |ns| => Little(ns[i] % Power(256, w), w))
  }

  lemma {:induction false} RowOfFields(ns: seq<int>, layout: seq<Field>, f: Field)
    requires |ns| == |layout| && f.width > 0 && forall k :: 0 <= k < |ns| ==> layout[k] == f && InField(ns[k], f)
    ensures FieldsBytes(ns, layout) == Flatten(Pieces(ns, f.width))
  {
    if ns != [] {
      RowOfFields(ns[1..], layout[1..], f);
      FieldIsLittle(ns[0], f);
      assert Pieces(ns, f.width)[1..] == Pieces(ns[1..], f.width);
    }
  }

  lemma RowFields(et: nat, ns: seq<int>)
    requires LeafOk(Flat(et, ns)) && (et == 19 || et == 38)
    ensures |ns| == |Layout(et)| == (if et == 19 then 9 else 16)
    ensures forall k :: 0 <= k < |ns| ==> Layout(et)[k] == (if et == 19 then S4 else U1) && InField(ns[k], Layout(et)[k])
    ensures forall k :: 0 <= k < |ns| ==> if et == 19 then -0x8000_0000 <= ns[k] < 0x8000_0000 else 0 <= ns[k] < 256
  {
    Powers();
  }

  /** A broken-down time is nine signed numbers of four bytes in the order of the structure; a Uuid is its sixteen bytes. */
  lemma RowOnWire(h: Heap, et: nat, ns: seq<int>, keys: map<nat, nat>)
    requires HeapOk(h) && Ok(Flat(et, ns), h.Keys) && (et == 19 || et == 38)
    ensures Write(h, Flat(et, ns), keys).0 == [et, 0] + Flatten(Pieces(ns, if et == 19 then 4 else 1))
    ensures |ns| == if et == 19 then 9 else 16
    ensures forall k :: 0 <= k < |ns| ==> if et == 19 then -0x8000_0000 <= ns[k] < 0x8000_0000 else 0 <= ns[k] < 256
  {
    RowFields(et, ns);
    RowOfFields(ns, Layout(et), if et == 19 then S4 else U1);
    LeafOnWire(h, Flat(et, ns), keys);
  }

  /** A duration of days and time is the days in four bytes, then the microseconds in eight. */
  lemma DurationOnWire(h: Heap, days: int, us: int, keys: map<nat, nat>)
    requires HeapOk(h) && Ok(Flat(29, [days, us]), h.Keys)
    ensures Write(h, Flat(29, [days, us]), keys).0 ==
              [29, 0] + Little(days % Power(256, 4), 4) + Little(us % Power(256, 8), 8)
    ensures -0x8000_0000 <= days < 0x8000_0000
  {
    DurationFields(days, us);
    LeafOnWire(h, Flat(29, [days, us]), keys);
    Associate([29, 0], Little(days % Power(256, 4), 4), Little(us % Power(256, 8), 8));
  }

  lemma TwoFields(days: int, us: int)
    requires InField(days, S4) && InField(us, S8)
    ensures FieldsBytes([days, us], [S4, S8]) == FieldBytes(days, S4) + FieldBytes(us, S8)
  {
    var none: seq<int>, no: seq<Field> := [], [];
    assert [days, us][1..] == [us] && [S4, S8][1..] == [S8] && [us][1..] == none && [S8][1..] == no;
    assert FieldsBytes([us], [S8]) == FieldBytes(us, S8) + FieldsBytes(none, no);
  }

  lemma DurationFields(days: int, us: int)
    requires LeafOk(Flat(29, [days, us]))
    ensures FieldsBytes([days, us], Layout(29)) == Little(days % Power(256, 4), 4) + Little(us % Power(256, 8), 8)
    ensures -0x8000_0000 <= days < 0x8000_0000
  {
    Powers();
    var ns, layout := [days, us], Layout(29);
    assert InField(ns[0], layout[0]) && InField(ns[1], layout[1]);
    FieldIsLittle(days, S4);
    FieldIsLittle(us, S8);
    TwoFields(days, us);
  }

  // ----- the other values without parts -----

  lemma StringOnWire(h: Heap, chars: seq<byte>, keys: map<nat, nat>)
    requires HeapOk(h) && FitsSize(|chars|)
    ensures Write(h, Str(chars), keys).0 == [2, 0] + Little(|chars|, 8) + chars
    ensures Write(h, VectorChar(chars), keys).0 == [13, 0] + Little(|chars|, 8) + chars
  {
    LeafOnWire(h, Str(chars), keys);
    LeafOnWire(h, VectorChar(chars), keys);
  }

  lemma BoolOnWire(h: Heap, b: bool, keys: map<nat, nat>)
    requires HeapOk(h)
    ensures Write(h, Bool(b), keys).0 == [18, 0, if b then 1 else 0]
  {
    LeafOnWire(h, Bool(b), keys);
    Powers();
    SmallLittle(if b then 1 else 0);
  }

  /** A date is its decimal digits as one number; a date with a time has the microseconds of the day behind it. */
  lemma DateOnWire(h: Heap, d: Ymd, us: int, keys: map<nat, nat>)
    requires HeapOk(h) && ValidDate(d) && 0 <= us < 86_400_000_000
    ensures var digits := d.y * 10000 + d.m * 100 + d.d;
            && Write(h, Date(d), keys).0 == [14, 0] + Little(digits, 4)
            && Write(h, Datetime(d, us), keys).0 == [15, 0] + Little(digits, 4) + Little(us, 8)
  {
    DateBytes(d, us);
    LeafOnWire(h, Date(d), keys);
    LeafOnWire(h, Datetime(d, us), keys);
    Associate([15, 0], Little(d.y * 10000 + d.m * 100 + d.d, 4), Little(us, 8));
  }

  lemma DateBytes(d: Ymd, us: int)
    requires ValidDate(d) && 0 <= us < 86_400_000_000
    ensures var digits := d.y * 10000 + d.m * 100 + d.d;
            && LeafBytes(Date(d)) == Little(digits, 4) && LeafBytes(Datetime(d, us)) == Little(digits, 4) + Little(us, 8)
  {
  }

  /** The year that is read goes through 16 bits, so that larger numbers are read as the same dates. */
  lemma YearWraps(d: Ymd, k: nat)
    requires ValidDate(d)
    ensures NumberDate(d.y * 10000 + d.m * 100 + d.d + k * 655_360_000) == d
  {
    var b := d.m * 100 + d.d;
    DateDigits(d.y + k * 65536, b, d.m, d.d);
    assert (d.y + k * 65536) % 65536 == d.y;
    assert d.y * 10000 + d.m * 100 + d.d + k * 655_360_000 == (d.y + k * 65536) * 10000 + b;
  }

  /** Bit i of a bit set is bit i % 8 of byte i / 8. */
  lemma BitsetOnWire(h: Heap, bits: seq<bool>, keys: map<nat, nat>, i: nat)
    requires HeapOk(h) && Ok(VariantFormat.Bitset(bits), h.Keys) && i < |bits|
    ensures var bytes := Write(h, VariantFormat.Bitset(bits), keys).0;
            && |bits| % 8 == 0 && |bytes| == 2 + |bits| / 8
            && bits[i] == (bytes[2 + i / 8] / Power(2, i % 8) % 2 == 1)
  {
    LeafOnWire(h, VariantFormat.Bitset(bits), keys);
    BitsetRoundTrip(bits);
    BitIs(BitsetBytes(bits)[i / 8], i % 8);
  }

  // ----- values with parts -----

  /** A sequence is its type, the number of its items, and the items in their order. */
  lemma SeqOnWire(h: Heap, et: nat, items: seq<Value>, keys: map<nat, nat>)
    requires HeapOk(h) && Ok(Seq(et, items), h.Keys)
    ensures Write(h, Seq(et, items), keys).0 == [et, 0] + Little(|items|, 8) + WriteItems(h, items, keys).0
    ensures items == [] ==> WriteItems(h, items, keys).0 == []
  {
    BodyOnWire(h, Seq(et, items), keys);
    assert WriteBody(h, Seq(et, items), keys).0 == Little(|items|, 8) + WriteItems(h, items, keys).0;
    Associate([et, 0], Little(|items|, 8), WriteItems(h, items, keys).0);
  }

  /** What is written of the items before one of them stands before what is written of it. */
  lemma {:induction false} ItemsInOrder(h: Heap, items: seq<Value>, keys: map<nat, nat>, i: nat)
    requires HeapOk(h) && i < |items| && forall k :: 0 <= k < |items| ==> Ok(items[k], h.Keys)
    ensures var (before, keys1) := WriteItems(h, items[..i], keys);
            WriteItems(h, items[..i + 1], keys) == (before + Write(h, items[i], keys1).0, Write(h, items[i], keys1).1)
    decreases |items|
  {
    if i == 0 {
      assert items[..1][1..] == [] && items[..1][0] == items[0];
      var first := Write(h, items[0], keys).0;
      assert [] + first == first && first + [] == first;
    } else {
      var (first, keys1) := Write(h, items[0], keys);
      var (before, keys2) := WriteItems(h, items[1..][..i - 1], keys1);
      ItemsInOrder(h, items[1..], keys1, i - 1);
      assert items[..i][0] == items[0] && items[..i][1..] == items[1..][..i - 1];
      assert items[..i + 1][0] == items[0] && items[..i + 1][1..] == items[1..][..i];
      Associate(first, before, Write(h, items[i], keys2).0);
    }
  }

  /** A map is its type, the number of its entries, and the entries in their order, each with its key before its value. */
  lemma MapOnWire(h: Heap, et: nat, entries: seq<Entry>, keys: map<nat, nat>)
    requires HeapOk(h) && Ok(Map(et, entries), h.Keys)
    ensures Write(h, Map(et, entries), keys).0 == [et, 0] + Little(|entries|, 8) + WriteEntries(h, et, entries, keys).0
  {
    BodyOnWire(h, Map(et, entries), keys);
    assert WriteBody(h, Map(et, entries), keys).0 == Little(|entries|, 8) + WriteEntries(h, et, entries, keys).0;
    Associate([et, 0], Little(|entries|, 8), WriteEntries(h, et, entries, keys).0);
  }

  /** The key of types 17 and 31 is a string without a type, that of types 30 and 32 a variant. */
  lemma EntryOnWire(h: Heap, et: nat, e: Entry, keys: map<nat, nat>)
    requires HeapOk(h) && EntryOk(et, e, h.Keys) && (et == 17 || 30 <= et <= 32)
    ensures var (bytes, after) := WriteEntry(h, et, e, keys);
            if et == 17 || et == 31 then
              e.key.Str? && bytes == Little(|e.key.chars|, 8) + e.key.chars + Write(h, e.value, keys).0
            else
              bytes == Write(h, e.key, keys).0 + Write(h, e.value, Write(h, e.key, keys).1).0
  {
    Powers();
  }

  /** What is written of the entries before one of them stands before what is written of it. */
  lemma {:induction false} EntriesInOrder(h: Heap, et: nat, entries: seq<Entry>, keys: map<nat, nat>, i: nat)
    requires HeapOk(h) && i < |entries| && EntriesOk(et, entries, h.Keys)
    ensures var (before, keys1) := WriteEntries(h, et, entries[..i], keys);
            WriteEntries(h, et, entries[..i + 1], keys) ==
              (before + WriteEntry(h, et, entries[i], keys1).0, WriteEntry(h, et, entries[i], keys1).1)
    decreases |entries|
  {
    var (first, keys1) := WriteEntry(h, et, entries[0], keys);
    assert entries[..i + 1][0] == entries[0] && entries[..i + 1][1..] == entries[1..][..i];
    if i == 0 {
      assert [] + first == first && first + [] == first;
    } else {
      assert entries[..i][0] == entries[0] && entries[..i][1..] == entries[1..][..i - 1];
      var (before, keys2) := WriteEntries(h, et, entries[1..][..i - 1], keys1);
      EntriesInOrder(h, et, entries[1..], keys1, i - 1);
      Associate(first, before, WriteEntry(h, et, entries[i], keys2).0);
    }
  }

  /** A pointer is a key of eight bytes: 0, the one that it was given, or the next one, with the pointee behind it. */
  lemma PointerOnWire(h: Heap, p: nat, keys: map<nat, nat>)
    requires HeapOk(h) && Ok(Ptr(p), h.Keys)
    ensures var bytes := Write(h, Ptr(p), keys).0;
            && (p == 0 ==> bytes == [39, 0] + Little(0, 8))
            && (p != 0 && p in keys ==> bytes == [39, 0] + Little(keys[p], 8))
            && (p != 0 && p !in keys ==>
                  bytes == [39, 0] + Little(|keys| + 1, 8) + Write(h, h[p], keys[p := |keys| + 1]).0)
  {
    BodyOnWire(h, Ptr(p), keys);
  }

  // ----- reading what was not written -----

  /** Every byte but 0 is read as true. */
  lemma BoolRead(lib: Library, b: byte, rest: seq<byte>, known: map<nat, Value>)
    ensures Read(lib, [18, 0, b] + rest, known) == Done(Bool(b != 0), rest, known)
  {
    var s := [18, 0, b] + rest;
    assert s[..2] == [18, 0] && s[2..] == [b] + rest;
    Powers();
    assert LittleValue([18, 0]) == 18 by { assert [18, 0][1..] == [0] && LittleValue([0]) == 0; }
    assert ([b] + rest)[..1] == [b] && ([b] + rest)[1..] == rest;
    assert LittleValue([b]) == b;
  }

  /** A stated size beyond what its container can have makes vectors and deques throw; a list fails for want of items. */
  lemma LargeCount(lib: Library, et: nat, n: nat)
    requires et in {16, 35, 36} && 0 < n < 0x1_0000_0000_0000_0000
    ensures var o := Read(lib, [et, 0] + Little(n, 8), map[]);
            if et != 36 && n > lib.most(et) then o == Throws else o == Failed([])
  {
    Powers();
    SmallLittle(et);
    TypeRead(et, Little(n, 8));
    TakeFieldBack(n, SIZE, []);
    var none: map<nat, Value> := map[];
    assert FieldBytes(n, SIZE) == Little(n, 8) && Little(n, 8) + [] == Little(n, 8);
    assert Read(lib, [], none) == Failed([]);
    assert ReadItems(lib, [], n, [], none) == Failed([]);
    assert Read(lib, Little(et, 2) + Little(n, 8), none) == ReadBody(lib, et, Little(n, 8), none);
  }

  // ----- maps -----

  /** The order of strings: the first byte that differs decides, and a proper prefix comes first. */
  lemma {:induction false} LessIsLexicographic(a: seq<byte>, b: seq<byte>)
    ensures Less(a, b) <==> exists i: nat :: DecidesAt(a, b, i)
  {
    if b == [] || a == [] {
      if b != [] { assert DecidesAt(a, b, 0); }
    } else if a[0] != b[0] {
      if a[0] < b[0] { assert DecidesAt(a, b, 0); }
      forall i: nat | DecidesAt(a, b, i) ensures i == 0 { DecidesFirst(a, b, i); }
    } else {
      LessIsLexicographic(a[1..], b[1..]);
      forall i: nat ensures DecidesAt(a, b, i + 1) == DecidesAt(a[1..], b[1..], i) {
        DecidesLater(a, b, i);
      }
      if Less(a, b) {
        var i: nat :| DecidesAt(a[1..], b[1..], i);
        assert DecidesAt(a, b, i + 1);
      }
      if exists i: nat :: DecidesAt(a, b, i) {
        var i: nat :| DecidesAt(a, b, i);
        var k: nat := i - 1;
        assert DecidesAt(a, b, k + 1);
        assert DecidesAt(a[1..], b[1..], k);
      }
    }
  }

  predicate DecidesAt(a: seq<byte>, b: seq<byte>, i: nat) {
    i <= |a| && i < |b| && a[..i] == b[..i] && (i == |a| || a[i] < b[i])
  }

  lemma DecidesFirst(a: seq<byte>, b: seq<byte>, i: nat)
    requires DecidesAt(a, b, i)
    ensures i > 0 ==> a[0] == b[0]
  {
    if i > 0 { assert a[..i][0] == b[..i][0]; }
  }

  lemma DecidesLater(a: seq<byte>, b: seq<byte>, i: nat)
    requires a != [] && b != [] && a[0] == b[0]
    ensures DecidesAt(a, b, i + 1) == DecidesAt(a[1..], b[1..], i)
  {
    if i + 1 <= |a| && i + 1 < |b| {
      assert a[..i + 1] == [a[0]] + a[1..][..i] && b[..i + 1] == [b[0]] + b[1..][..i];
      if a[..i + 1] == b[..i + 1] { assert a[..i + 1][1..] == a[1..][..i] && b[..i + 1][1..] == b[1..][..i]; }
    }
  }

  /** Two keys between which the order does not decide. */
  predicate Equivalent(lib: Library, et: nat, a: Value, b: Value) {
    !KeyLess(lib, et, a, b) && !KeyLess(lib, et, b, a)
  }

  /** An entry with a key that is there already is dropped by the types 17 and 30, and only by them. */
  lemma {:induction false} RepeatedKey(lib: Library, et: nat, entries: seq<Entry>, e: Entry, i: nat)
    requires lib.StrictWeak() && Ordered(lib, et, entries) && i < |entries| && Equivalent(lib, et, entries[i].key, e.key)
    ensures Insert(lib, et, entries, e) == entries <==> et == 17 || et == 30
    ensures et != 17 && et != 30 ==> |Insert(lib, et, entries, e)| == |entries| + 1
  {
    if i > 0 {
      assert MayFollow(lib, et, entries[0].key, entries[i].key);
      if KeyLess(lib, et, entries[0].key, entries[i].key) { KeyLessAsymmetric(lib, et, entries[0].key, entries[i].key); }
      KeyLessNegative(lib, et, e.key, entries[i].key, entries[0].key);
      if HasUniqueKeys(et) && !KeyLess(lib, et, entries[0].key, e.key) {
        KeyLessNegative(lib, et, entries[0].key, e.key, entries[i].key);
      }
      assert Ordered(lib, et, entries[1..]);
      RepeatedKey(lib, et, entries[1..], e, i - 1);
      assert entries == [entries[0]] + entries[1..];
    } else if !HasUniqueKeys(et) {
      InsertLength(lib, et, entries, e);
    }
  }

  lemma {:induction false} InsertLength(lib: Library, et: nat, entries: seq<Entry>, e: Entry)
    requires !HasUniqueKeys(et)
    ensures |Insert(lib, et, entries, e)| == |entries| + 1
  {
    if entries != [] { InsertLength(lib, et, entries[1..], e); }
  }

  /** An entry with a new key is always kept. */
  lemma {:induction false} NewKey(lib: Library, et: nat, entries: seq<Entry>, e: Entry)
    requires forall i :: 0 <= i < |entries| ==> !Equivalent(lib, et, entries[i].key, e.key)
    ensures e in Insert(lib, et, entries, e) && |Insert(lib, et, entries, e)| == |entries| + 1
  {
    if entries != [] && !KeyLess(lib, et, e.key, entries[0].key) {
      assert !Equivalent(lib, et, entries[0].key, e.key);
      NewKey(lib, et, entries[1..], e);
    }
  }

  // ----- the header -----

  /** What the header of an acceptable message says, byte by byte. */
  lemma HeaderSays(message: seq<byte>, crc: seq<byte> -> word)
    ensures HeaderOk(message, crc) <==>
              && |message| >= 14 && message[0] == 0x2e && message[1] == 0x47
              && LittleValue(message[2..4]) == crc(message[4..|message| - 4])
              && LittleValue(message[4..12]) == |message| - 12
  {
    if |message| >= 14 {
      var m := message[..2];
      var low: int, high: int := message[0], message[1];
      assert m[1..][0] == message[1] && m[1..][1..] == [];
      assert LittleValue(m[1..]) == high;
      assert LittleValue(m) == low + 256 * high;
    }
  }

  /** Of two messages that differ behind the checksum, in the part that it covers, at most one is accepted, unless they collide. */
  lemma CorruptionIsSeen(a: seq<byte>, b: seq<byte>, crc: seq<byte> -> word)
    requires |a| == |b| >= 14 && a[..4] == b[..4] && crc(a[4..|a| - 4]) != crc(b[4..|b| - 4])
    ensures !(HeaderOk(a, crc) && HeaderOk(b, crc))
  {
    HeaderSays(a, crc);
    HeaderSays(b, crc);
    assert a[2..4] == a[..4][2..] && b[2..4] == b[..4][2..];
  }

  /** What `serialize` writes: the signature, the checksum, the size, and behind these the data. */
  lemma SerializedHeader(h: Heap, v: Value, crc: seq<byte> -> word)
    requires HeapOk(h) && Ok(v, h.Keys) && FitsSize(|Write(h, v, map[]).0|) && Serialize(h, v, crc).Some?
    ensures var m, data := Serialize(h, v, crc).value, Write(h, v, map[]).0;
            && |m| == 12 + |data| && m[12..] == data
            && m[0] == 0x2e && m[1] == 0x47
            && LittleValue(m[2..4]) == crc(m[4..|m| - 4])
            && LittleValue(m[4..12]) == |data|
  {
    var data := Write(h, v, map[]).0;
    TypeOnWire(h, v, map[]);
    MessageParts(data, crc);
    HeaderSays(Message(data, crc), crc);
  }
}
