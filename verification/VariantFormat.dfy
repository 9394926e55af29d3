/** Variants and their serialized form (variant.hpp, variantSerialization.cpp). */
module VariantFormat {
  import opened Basics
  import opened VariantBytes
  import opened Calendar

  datatype Ymd = Ymd(y: nat, m: nat, d: nat)

  /**
    A variant; `et` is the number of its type. Numbers, Tm, durations, Char and Uuid are a row of fixed fields, floating point
    numbers their bit patterns. A pointer is 0 or the name of a pointee in a heap.
  */
  datatype Value =
    | Null(et: nat)
    | Flat(et: nat, fields: seq<int>)
    | Bool(b: bool)
    | Date(date: Ymd)
    | Datetime(date: Ymd, us: int)
    | Bitset(bits: seq<bool>)
    | Str(chars: seq<byte>)
    | VectorChar(chars: seq<byte>)
    | Seq(et: nat, items: seq<Value>)
    | Map(et: nat, entries: seq<Entry>)
    | Ptr(p: nat)

  /** The key of a map with string keys is a string. */
  datatype Entry = Entry(key: Value, value: Value)

  type Heap = map<nat, Value>

  // ----- types -----

  const S1: Field := Field(1, true)
  const S2: Field := Field(2, true)
  const S4: Field := Field(4, true)
  const S8: Field := Field(8, true)
  const U1: Field := Field(1, false)
  const U2: Field := Field(2, false)
  const U4: Field := Field(4, false)
  const U8: Field := Field(8, false)

  /** The fields of the types that are a row of fixed fields; [] for all others. */
  function Layout(et: nat): (r: seq<Field>)
    ensures forall i :: 0 <= i < |r| ==> r[i].width > 0
  {
    match et
    case 3 => [U4]
    case 4 => [U8]
    case 5 => [S1]
    case 6 => [S2]
    case 7 => [S4]
    case 8 => [S8]
    case 9 => [U1]
    case 10 => [U2]
    case 11 => [U4]
    case 12 => [U8]
    case 19 => [S4, S4, S4, S4, S4, S4, S4, S4, S4]
    case 27 => [S4]
    case 28 => [S8]
    case 29 => [S4, S8]
    case 37 => [S1]
    case 38 => [U1, U1, U1, U1, U1, U1, U1, U1, U1, U1, U1, U1, U1, U1, U1, U1]
    case _ => []
  }

  /** The number of bits of a bit set type; 0 for all others. */
  function Bits(et: nat): (r: nat)
    ensures r % 8 == 0
  {
    match et
    case 20 => 8
    case 21 => 16
    case 22 => 32
    case 23 => 64
    case 24 => 128
    case 25 => 256
    case 26 => 512
    case _ => 0
  }

  function BitsetType(n: nat): nat {
    if n == 8 then 20 else if n == 16 then 21 else if n == 32 then 22 else if n == 64 then 23
    else if n == 128 then 24 else if n == 256 then 25 else if n == 512 then 26 else 0
  }

  /** `type()` */
  function Type(v: Value): nat {
    match v
    case Null(et) => et
    case Flat(et, _) => et
    case Bool(_) => 18
    case Date(_) => 14
    case Datetime(_, _) => 15
    case Bitset(bits) => BitsetType(|bits|)
    case Str(_) => 2
    case VectorChar(_) => 13
    case Seq(et, _) => et
    case Map(et, _) => et
    case Ptr(_) => 39
  }

  /** Vector, deque and list of variants. */
  predicate IsSeqType(et: int) {
    et == 16 || et == 35 || et == 36
  }

  /** Map and multimap from strings to variants. */
  predicate HasStringKeys(et: int) {
    et == 17 || et == 31
  }

  /** These, and map and multimap from variants to variants. */
  predicate IsMapType(et: int) {
    HasStringKeys(et) || et == 30 || et == 32
  }

  /** A map has each key once, a multimap any number of times. */
  predicate HasUniqueKeys(et: int) {
    et == 17 || et == 30
  }

  // ----- dates -----

  /** The dates of the calendar library; others make its constructor throw. */
  predicate ValidDate(d: Ymd) {
    1400 <= d.y <= 9999 && 1 <= d.m <= 12 && 1 <= d.d <= MonthDays(d.y, d.m)
  }

  const DAY_US: nat := 86_400_000_000

  function DateNumber(d: Ymd): nat {
    d.y * 10000 + d.m * 100 + d.d
  }

  /** The year goes through 16 bits. */
  function NumberDate(n: nat): Ymd {
    Ymd((n / 10000) % 65536, n % 10000 / 100, n % 100)
  }

  lemma DateDigits(y: nat, b: nat, m: nat, d: nat)
    requires d < 100 && b == m * 100 + d && b < 10000
    ensures (y * 10000 + b) / 10000 == y && (y * 10000 + b) % 10000 == b && b / 100 == m
    ensures (y * 10000 + b) % 100 == d
  {
    assert y * 10000 + b == (y * 100 + m) * 100 + d;
  }

  lemma DateRoundTrip(d: Ymd)
    requires ValidDate(d)
    ensures InField(DateNumber(d), U4) && NumberDate(DateNumber(d)) == d
  {
    assert Power(256, 4) == 0x1_0000_0000;
    assert DateNumber(d) == d.y * 10000 + (d.m * 100 + d.d);
    DateDigits(d.y, d.m * 100 + d.d, d.m, d.d);
  }

  // ----- map order -----

  /** The order of std::string: bytes compared one by one. */
  predicate Less(a: seq<byte>, b: seq<byte>) {
    b != [] && (a == [] || a[0] < b[0] || (a[0] == b[0] && Less(a[1..], b[1..])))
  }

  lemma {:induction false} LessTransitive(a: seq<byte>, b: seq<byte>, c: seq<byte>)
    requires Less(a, b) && Less(b, c)
    ensures Less(a, c)
  {
    if a != [] && a[0] == b[0] == c[0] { LessTransitive(a[1..], b[1..], c[1..]); }
  }

  lemma {:induction false} LessTotal(a: seq<byte>, b: seq<byte>)
    ensures if a == b then !Less(a, b) else Less(a, b) != Less(b, a)
  {
    if a != [] && b != [] {
      LessTotal(a[1..], b[1..]);
      assert a == [a[0]] + a[1..] && b == [b[0]] + b[1..];
    }
  }

  /**
    What the format takes from elsewhere: the order of variants, and how large a string (type 2), byte vector, vector or deque
    may become.
  */
  datatype Library = Library(less: (Value, Value) -> bool, most: nat -> nat) {
    /** The order that maps ask for. */
    ghost predicate StrictWeak() {
      && (forall a, b :: less(a, b) ==> !less(b, a))
      && (forall a, b, c :: !less(a, b) && !less(b, c) ==> !less(a, c))
    }
  }

  function Chars(v: Value): seq<byte> {
    if v.Str? then v.chars else []
  }

  predicate KeyLess(lib: Library, et: nat, a: Value, b: Value) {
    if HasStringKeys(et) then Less(Chars(a), Chars(b)) else lib.less(a, b)
  }

  lemma KeyLessAsymmetric(lib: Library, et: nat, a: Value, b: Value)
    requires lib.StrictWeak() && KeyLess(lib, et, a, b)
    ensures !KeyLess(lib, et, b, a)
  {
    if HasStringKeys(et) { LessTotal(Chars(a), Chars(b)); }
  }

  lemma KeyLessNegative(lib: Library, et: nat, a: Value, b: Value, c: Value)
    requires lib.StrictWeak() && !KeyLess(lib, et, a, b) && !KeyLess(lib, et, b, c)
    ensures !KeyLess(lib, et, a, c)
  {
    if HasStringKeys(et) { LessNegative(Chars(a), Chars(b), Chars(c)); }
  }

  lemma LessNegative(a: seq<byte>, b: seq<byte>, c: seq<byte>)
    requires !Less(a, b) && !Less(b, c)
    ensures !Less(a, c)
  {
    LessTotal(a, b);
    LessTotal(b, c);
    LessTotal(a, c);
    if a != b && b != c { LessTransitive(c, b, a); }
  }

  /** Two keys may follow each other: those of a map grow, those of a multimap may repeat. */
  predicate MayFollow(lib: Library, et: nat, a: Value, b: Value) {
    if HasUniqueKeys(et) then KeyLess(lib, et, a, b) else !KeyLess(lib, et, b, a)
  }

  predicate Ordered(lib: Library, et: nat, entries: seq<Entry>) {
    forall i, j :: 0 <= i < j < |entries| ==> MayFollow(lib, et, entries[i].key, entries[j].key)
  }

  /** `insert`: an entry stands behind those with smaller or equivalent keys; a map keeps the old entry of a key. */
  function Insert(lib: Library, et: nat, entries: seq<Entry>, e: Entry): seq<Entry> {
    if entries == [] then [e]
    else if KeyLess(lib, et, e.key, entries[0].key) then [e] + entries
    else if HasUniqueKeys(et) && !KeyLess(lib, et, entries[0].key, e.key) then entries
    else [entries[0]] + Insert(lib, et, entries[1..], e)
  }

  lemma {:induction false} InsertOrderedLast(lib: Library, et: nat, entries: seq<Entry>, e: Entry)
    requires lib.StrictWeak() && Ordered(lib, et, entries + [e])
    ensures Insert(lib, et, entries, e) == entries + [e]
  {
    if entries != [] {
      var all := entries + [e];
      assert all[0] == entries[0] && all[|entries|] == e;
      assert MayFollow(lib, et, all[0].key, all[|entries|].key);
      if KeyLess(lib, et, entries[0].key, e.key) { KeyLessAsymmetric(lib, et, entries[0].key, e.key); }
      assert all[1..] == entries[1..] + [e];
      assert Ordered(lib, et, all[1..]) by {
        assert forall i :: 0 <= i < |all| - 1 ==> all[1..][i] == all[i + 1];
      }
      InsertOrderedLast(lib, et, entries[1..], e);
    }
  }

  lemma MayFollowFirst(lib: Library, et: nat, a: Value, b: Value, c: Value)
    requires lib.StrictWeak() && MayFollow(lib, et, b, c)
    requires KeyLess(lib, et, a, b)
    ensures MayFollow(lib, et, a, b) && MayFollow(lib, et, a, c)
  {
    KeyLessAsymmetric(lib, et, a, b);
    if KeyLess(lib, et, b, c) { KeyLessAsymmetric(lib, et, b, c); }
    if !KeyLess(lib, et, a, c) { KeyLessNegative(lib, et, a, c, b); }
    if KeyLess(lib, et, a, c) { KeyLessAsymmetric(lib, et, a, c); }
  }

  /** What has been filled by insertions is in order, whatever was inserted. */
  lemma {:induction false} InsertKeepsOrdered(lib: Library, et: nat, entries: seq<Entry>, e: Entry)
    requires lib.StrictWeak() && Ordered(lib, et, entries)
    ensures Ordered(lib, et, Insert(lib, et, entries, e))
    ensures forall x :: x in Insert(lib, et, entries, e) ==> x in entries || x == e
  {
    if entries != [] {
      var head, tail := entries[0], entries[1..];
      if KeyLess(lib, et, e.key, head.key) {
        forall j | 0 < j < |entries| ensures MayFollow(lib, et, e.key, entries[j].key) {
          MayFollowFirst(lib, et, e.key, head.key, entries[j].key);
        }
        if |entries| == 1 { KeyLessAsymmetric(lib, et, e.key, head.key); }
        assert MayFollow(lib, et, e.key, head.key) by { KeyLessAsymmetric(lib, et, e.key, head.key); }
      } else if !(HasUniqueKeys(et) && !KeyLess(lib, et, head.key, e.key)) {
        InsertKeepsOrdered(lib, et, tail, e);
        var r := Insert(lib, et, tail, e);
        forall j | 0 <= j < |r| ensures MayFollow(lib, et, head.key, r[j].key) {
          if r[j] in tail {
            var i :| 0 <= i < |tail| && tail[i] == r[j];
            assert MayFollow(lib, et, entries[0].key, entries[i + 1].key);
          }
        }
      }
    }
  }

  // ----- values that can be written -----

  /** No map, sequence or pointer inside. */
  predicate IsLeaf(v: Value) {
    !v.Null? && !v.Seq? && !v.Map? && !v.Ptr?
  }

  predicate LeafOk(v: Value) {
    match v
    case Flat(et, fields) =>
      && Layout(et) != [] && |fields| == |Layout(et)|
      && forall i :: 0 <= i < |fields| ==> InField(fields[i], Layout(et)[i])
    case Date(d) => ValidDate(d)
    case Datetime(d, us) => ValidDate(d) && 0 <= us < DAY_US
    case Bitset(bits) => BitsetType(|bits|) > 0
    case Str(chars) => FitsSize(|chars|)
    case VectorChar(chars) => FitsSize(|chars|)
    case _ => true
  }

  /** No pointer inside, not even a null one; a null of the pointer type is none. */
  predicate PointerFree(v: Value) {
    match v
    case Seq(_, items) => forall i :: 0 <= i < |items| ==> PointerFree(items[i])
    case Map(_, entries) => forall i :: 0 <= i < |entries| ==> PointerFree(entries[i].key) && PointerFree(entries[i].value)
    case Ptr(_) => false
    case _ => true
  }

  /** What the types promise; pointers only lead to `names`, and there are none in keys. */
  predicate Ok(v: Value, names: set<nat>) {
    match v
    case Null(et) => 1 <= et <= 39
    case Seq(et, items) => IsSeqType(et) && FitsSize(|items|) && forall i :: 0 <= i < |items| ==> Ok(items[i], names)
    case Map(et, entries) =>
      && IsMapType(et) && FitsSize(|entries|)
      && forall i :: 0 <= i < |entries| ==>
           KeyOk(et, entries[i].key) && Ok(entries[i].key, names) && Ok(entries[i].value, names)
    case Ptr(p) => p == 0 || p in names
    case _ => LeafOk(v)
  }

  predicate KeyOk(et: nat, key: Value) {
    PointerFree(key) && (HasStringKeys(et) ==> key.Str?)
  }

  /** An entry that can be written. */
  predicate EntryOk(et: nat, e: Entry, names: set<nat>) {
    KeyOk(et, e.key) && Ok(e.key, names) && Ok(e.value, names)
  }

  predicate EntriesOk(et: nat, entries: seq<Entry>, names: set<nat>) {
    forall i :: 0 <= i < |entries| ==> EntryOk(et, entries[i], names)
  }

  /** What the containers promise: their keys are in order, and they are no larger than the library lets them be. */
  predicate Held(lib: Library, v: Value) {
    match v
    case Str(chars) => |chars| <= lib.most(2)
    case VectorChar(chars) => |chars| <= lib.most(13)
    case Seq(et, items) => (Resizes(et) ==> |items| <= lib.most(et)) && forall i :: 0 <= i < |items| ==> Held(lib, items[i])
    case Map(et, entries) =>
      && Ordered(lib, et, entries)
      && forall i :: 0 <= i < |entries| ==> Held(lib, entries[i].key) && Held(lib, entries[i].value)
    case _ => true
  }

  /** Vectors and deques are brought to their size before they are filled. */
  predicate Resizes(et: nat) {
    et == 16 || et == 35
  }

  predicate HeapOk(h: Heap) {
    0 !in h && FitsSize(|h|) && forall p :: p in h ==> Ok(h[p], h.Keys)
  }

  predicate HeapHeld(lib: Library, h: Heap) {
    forall p :: p in h ==> Held(lib, h[p])
  }

  // ----- writing -----

  function LeafBytes(v: Value): seq<byte>
    requires IsLeaf(v) && LeafOk(v)
  {
    match v
    case Flat(et, fields) => FieldsBytes(fields, Layout(et))
    case Bool(b) => FieldBytes(if b then 1 else 0, S1)
    case Date(d) => DateRoundTrip(d); FieldBytes(DateNumber(d), U4)
    case Datetime(d, us) =>
      DateRoundTrip(d);
      assert Power(256, 8) == 0x1_0000_0000_0000_0000 by { assert Power(256, 4) == 0x1_0000_0000; }
      FieldBytes(DateNumber(d), U4) + FieldBytes(us, S8)
    case Bitset(bits) => BitsetBytes(bits)
    case Str(chars) => StringBytes(chars)
    case VectorChar(chars) => StringBytes(chars)
  }

  /** The type number goes first, negated for a null of that type. */
  function TypeBytes(v: Value, names: set<nat>): seq<byte>
    requires Ok(v, names)
  {
    TypeFits(v, names);
    FieldBytes(if v.Null? then -(Type(v) as int) else Type(v), S2)
  }

  lemma TypeFits(v: Value, names: set<nat>)
    requires Ok(v, names)
    ensures 1 <= Type(v) <= 39
    ensures InField(Type(v), S2) && InField(-(Type(v) as int), S2)
  {
    assert Power(256, 2) == 65536;
  }

  /**
    `write`: the bytes, and the pointer keys given out so far. A pointee is written where it is met first, under the next key;
    later only its key is written, so cycles end.
  */
  function Write(h: Heap, v: Value, keys: map<nat, nat>): (r: (seq<byte>, map<nat, nat>))
    requires HeapOk(h) && Ok(v, h.Keys)
    ensures keys.Keys <= r.1.Keys
    decreases h.Keys - keys.Keys, v, 1
  {
    var (bytes, after) := WriteBody(h, v, keys);
    (TypeBytes(v, h.Keys) + bytes, after)
  }

  function WriteBody(h: Heap, v: Value, keys: map<nat, nat>): (r: (seq<byte>, map<nat, nat>))
    requires HeapOk(h) && Ok(v, h.Keys)
    ensures keys.Keys <= r.1.Keys
    decreases h.Keys - keys.Keys, v, 0
  {
    match v
    case Null(_) => ([], keys)
    case Seq(_, items) =>
      var (bytes, after) := WriteItems(h, items, keys);
      (FieldBytes(|items|, SIZE) + bytes, after)
    case Map(et, entries) =>
      var (bytes, after) := WriteEntries(h, et, entries, keys);
      (FieldBytes(|entries|, SIZE) + bytes, after)
    case Ptr(p) =>
      if p == 0 then (KeyBytes(0), keys)
      else if p in keys then (KeyBytes(keys[p]), keys)
      else
        var key := |keys| + 1;
        assert p in h.Keys - keys.Keys && p !in h.Keys - keys[p := key].Keys;
        var (bytes, after) := Write(h, h[p], keys[p := key]);
        (KeyBytes(key) + bytes, after)
    case _ => (LeafBytes(v), keys)
  }

  /** Keys are written as 64 bit numbers. */
  function KeyBytes(key: nat): seq<byte> {
    Little(key, 8)
  }

  function WriteItems(h: Heap, items: seq<Value>, keys: map<nat, nat>): (r: (seq<byte>, map<nat, nat>))
    requires HeapOk(h) && forall i :: 0 <= i < |items| ==> Ok(items[i], h.Keys)
    ensures keys.Keys <= r.1.Keys
    decreases h.Keys - keys.Keys, items
  {
    if items == [] then ([], keys)
    else
      var (first, keys1) := Write(h, items[0], keys);
      var (rest, after) := WriteItems(h, items[1..], keys1);
      (first + rest, after)
  }

  /** A string key has no type number. */
  function WriteKey(h: Heap, et: nat, key: Value, keys: map<nat, nat>): (r: (seq<byte>, map<nat, nat>))
    requires HeapOk(h) && KeyOk(et, key) && Ok(key, h.Keys)
    ensures keys.Keys <= r.1.Keys
    decreases h.Keys - keys.Keys, key, 2
  {
    if HasStringKeys(et) then (StringBytes(key.chars), keys) else Write(h, key, keys)
  }

  function WriteEntry(h: Heap, et: nat, e: Entry, keys: map<nat, nat>): (r: (seq<byte>, map<nat, nat>))
    requires HeapOk(h) && EntryOk(et, e, h.Keys)
    ensures keys.Keys <= r.1.Keys
    decreases h.Keys - keys.Keys, e
  {
    var (key, keys1) := WriteKey(h, et, e.key, keys);
    var (value, after) := Write(h, e.value, keys1);
    (key + value, after)
  }

  function WriteEntries(h: Heap, et: nat, entries: seq<Entry>, keys: map<nat, nat>): (r: (seq<byte>, map<nat, nat>))
    requires HeapOk(h) && EntriesOk(et, entries, h.Keys)
    ensures keys.Keys <= r.1.Keys
    decreases h.Keys - keys.Keys, entries
  {
    if entries == [] then ([], keys)
    else
      var (first, keys1) := WriteEntry(h, et, entries[0], keys);
      var (rest, after) := WriteEntries(h, et, entries[1..], keys1);
      (first + rest, after)
  }

  // ----- reading -----

  /**
    What reading comes to: `known` holds the pointees read so far by their keys; `rest` is what has not been read when reading
    ends. Reading may run behind the buffer, and a container may throw.
  */
  datatype Outcome<+T> =
    | Done(value: T, rest: seq<byte>, known: map<nat, Value>)
    | Failed(rest: seq<byte>)
    | Overread
    | Throws
    | LeftOut      // not modelled: sets, multisets, times of day beyond a day

  /** A reading that has come to no value. */
  function Stopped<T, U>(o: Outcome<T>): Outcome<U>
    requires !o.Done?
  {
    match o
    case Failed(rest) => Failed(rest)
    case Overread => Overread
    case Throws => Throws
    case LeftOut => LeftOut
  }

  function NotTaken<T, U>(t: Taken<T>): Outcome<U>
    requires !t.Got?
  {
    match t
    case Short(rest) => Failed(rest)
    case Overrun => Overread
    case TooLarge => Throws
  }

  /** The reading ends with what is left of s. */
  predicate EndsIn<T>(o: Outcome<T>, s: seq<byte>) {
    o.Done? || o.Failed? ==> |o.rest| <= |s|
  }

  function ReadDatetime(ns: seq<int>, rest: seq<byte>, known: map<nat, Value>): Outcome<Value>
    requires |ns| == 2
  {
    var date := NumberDate(if ns[0] < 0 then 0 else ns[0]);
    if !ValidDate(date) then Failed(rest)
    else if 0 <= ns[1] < DAY_US then Done(Datetime(date, ns[1]), rest, known)
    else LeftOut
  }

  function ReadLeaf(lib: Library, et: int, s: seq<byte>, known: map<nat, Value>): (r: Outcome<Value>)
    ensures EndsIn(r, s)
  {
    if et < 0 then Failed(s)
    else if et == 2 || et == 13 then
      var t := TakeString(lib.most(et), s);
      if t.Got? then Done(if et == 2 then Str(t.value) else VectorChar(t.value), t.rest, known) else NotTaken(t)
    else if et == 14 then
      match TakeField(s, U4)
      case Got(n, rest) => if ValidDate(NumberDate(n)) then Done(Date(NumberDate(n)), rest, known) else Failed(rest)
      case Short(rest) => Failed(rest)
    else if et == 15 then
      match TakeFields(s, [U4, S8], [])
      case Got(ns, rest) => ReadDatetime(ns, rest, known)
      case Short(rest) => Failed(rest)
    else if et == 18 then
      match TakeField(s, S1)
      case Got(n, rest) => Done(Bool(n != 0), rest, known)
      case Short(rest) => Failed(rest)
    else if Bits(et) > 0 then
      var t := TakeBinary(s, Bits(et) / 8);
      if t.Got? then Done(Bitset(BytesBitset(t.value)), t.rest, known) else NotTaken(t)
    else ReadFlat(et, Layout(et), s, known)
  }

  /** A Uuid is read in one piece. */
  function ReadFlat(et: nat, layout: seq<Field>, s: seq<byte>, known: map<nat, Value>): (r: Outcome<Value>)
    ensures EndsIn(r, s)
  {
    if layout == [] || (et == 38 && |s| < |layout|) then Failed(s)
    else
      match TakeFields(s, layout, [])
      case Got(ns, rest) => Done(Flat(et, ns), rest, known)
      case Short(rest) => Failed(rest)
  }

  function ReadType(s: seq<byte>): (r: Taken<int>)
    ensures r.Got? || r.Short?
  {
    TakeField(s, S2)
  }

  /** `read` */
  function Read(lib: Library, s: seq<byte>, known: map<nat, Value>): (r: Outcome<Value>)
    ensures EndsIn(r, s) && (r.Done? ==> |r.rest| + 2 <= |s|)
    decreases |s|, 0
  {
    match ReadType(s)
    case Short(rest) => Failed(rest)
    case Got(et, rest) =>
      if et < 0 then (if -et <= 39 then Done(Null(-et), rest, known) else Failed(rest))
      else ReadBody(lib, et, rest, known)
  }

  function ReadBody(lib: Library, et: nat, s: seq<byte>, known: map<nat, Value>): (r: Outcome<Value>)
    ensures EndsIn(r, s)
    decreases |s|, 4
  {
    if IsSeqType(et) then
      match TakeField(s, SIZE)
      case Short(rest) => Failed(rest)
      case Got(n, rest) =>
        if Resizes(et) && n > lib.most(et) then Throws
        else
          var o := ReadItems(lib, rest, n, [], known);
          if o.Done? then Done(Seq(et, o.value), o.rest, o.known) else Stopped(o)
    else if IsMapType(et) then
      match TakeField(s, SIZE)
      case Short(rest) => Failed(rest)
      case Got(n, rest) =>
        var o := ReadEntries(lib, rest, n, et, [], known);
        if o.Done? then Done(Map(et, o.value), o.rest, o.known) else Stopped(o)
    else if et == 39 then
      match TakeField(s, U8)
      case Short(rest) => Failed(rest)
      case Got(key, rest) => if key == 0 || key in known then Done(Ptr(key), rest, known) else ReadPointee(lib, key, rest, known)
    else if et == 33 || et == 34 then LeftOut
    else ReadLeaf(lib, et, s, known)
  }

  /** A new object is known under its key before its value is read, so its value may point to it. */
  function ReadPointee(lib: Library, key: nat, s: seq<byte>, known: map<nat, Value>): (r: Outcome<Value>)
    ensures EndsIn(r, s)
    decreases |s|, 1
  {
    var o := Read(lib, s, known[key := Null(1)]);
    if o.Done? then Done(Ptr(key), o.rest, o.known[key := o.value]) else Stopped(o)
  }

  function ReadItems(lib: Library, s: seq<byte>, n: nat, acc: seq<Value>, known: map<nat, Value>): (r: Outcome<seq<Value>>)
    ensures EndsIn(r, s)
    decreases |s|, 3, n
  {
    if n == 0 then Done(acc, s, known)
    else
      var o := Read(lib, s, known);
      if o.Done? then ReadItems(lib, o.rest, n - 1, acc + [o.value], o.known) else Stopped(o)
  }

  function ReadKey(lib: Library, et: nat, s: seq<byte>, known: map<nat, Value>): (r: Outcome<Value>)
    ensures EndsIn(r, s)
    decreases |s|, 1
  {
    if HasStringKeys(et) then
      var t := TakeString(lib.most(2), s);
      if t.Got? then Done(Str(t.value), t.rest, known) else NotTaken(t)
    else Read(lib, s, known)
  }

  function ReadEntry(lib: Library, et: nat, s: seq<byte>, known: map<nat, Value>): (r: Outcome<Entry>)
    ensures EndsIn(r, s) && (r.Done? ==> |r.rest| < |s|)
    decreases |s|, 2
  {
    var k := ReadKey(lib, et, s, known);
    if !k.Done? then Stopped(k)
    else
      var o := Read(lib, k.rest, k.known);
      if o.Done? then Done(Entry(k.value, o.value), o.rest, o.known) else Stopped(o)
  }

  function ReadEntries(lib: Library, s: seq<byte>, n: nat, et: nat, acc: seq<Entry>, known: map<nat, Value>): (r: Outcome<seq<Entry>>)
    ensures EndsIn(r, s)
    decreases |s|, 3, n
  {
    if n == 0 then Done(acc, s, known)
    else
      var o := ReadEntry(lib, et, s, known);
      if o.Done? then ReadEntries(lib, o.rest, n - 1, et, Insert(lib, et, acc, o.value), o.known) else Stopped(o)
  }
}
