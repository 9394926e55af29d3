/** The serializer as an object with a buffer and an iterator into it (variantSerialization.cpp). */
module VariantSerializer {
  import opened Basics
  import opened VariantBytes
  import opened VariantFormat

  class Writer {
    const buf: array<byte>
    var iter: nat                  // what is before it is written
    var ptrKey: map<nat, nat>      // the keys given to pointees

    predicate Placed()
      reads `iter
    {
      iter <= buf.Length
    }

    ghost function Written(): seq<byte>
      requires Placed()
      reads `iter, buf
    {
      buf[..iter]
    }

    constructor (buf: array<byte>, iter: nat)
      requires iter <= buf.Length
      ensures this.buf == buf && this.iter == iter && ptrKey == map[]
    {
      this.buf, this.iter, ptrKey := buf, iter, map[];
    }

    method WriteBinary(data: seq<byte>)
      requires iter + |data| <= buf.Length
      modifies `iter, buf
      ensures Placed() && iter == old(iter) + |data| && Written() == old(buf[..iter]) + data
    {
      forall k | 0 <= k < |data| {
        buf[iter + k] := data[k];
      }
      iter := iter + |data|;
    }

    method WriteIntegral(n: int, f: Field)
      requires InField(n, f) && iter + f.width <= buf.Length
      modifies `iter, buf
      ensures Placed() && iter == old(iter) + f.width && Written() == old(buf[..iter]) + FieldBytes(n, f)
    {
      WriteBinary(FieldBytes(n, f));
    }

    method WriteString(s: seq<byte>)
      requires FitsSize(|s|) && iter + |StringBytes(s)| <= buf.Length
      modifies `iter, buf
      ensures Placed() && iter == old(iter) + |StringBytes(s)| && Written() == old(buf[..iter]) + StringBytes(s)
    {
      WriteIntegral(|s|, SIZE);
      if |s| > 0 {
        WriteBinary(s);
      }
      Associate(old(buf[..iter]), FieldBytes(|s|, SIZE), s);
    }

    method WriteBitset(bits: seq<bool>)
      requires |bits| % 8 == 0 && iter + |bits| / 8 <= buf.Length
      modifies `iter, buf
      ensures Placed() && iter == old(iter) + |bits| / 8 && Written() == old(buf[..iter]) + BitsetBytes(bits)
    {
      var bytes := PackBits(bits);
      WriteBinary(bytes);
    }

    method WriteLeaf(v: Value)
      requires IsLeaf(v) && LeafOk(v) && iter + |LeafBytes(v)| <= buf.Length
      modifies `iter, buf
      ensures Placed() && iter == old(iter) + |LeafBytes(v)| && Written() == old(buf[..iter]) + LeafBytes(v)
    {
      match v
      case Flat(et, fields) => WriteFields(fields, Layout(et));
      case Bool(b) => WriteIntegral(if b then 1 else 0, S1);
      case Date(d) =>
        DateRoundTrip(d);
        WriteIntegral(d.y * 10000 + d.m * 100 + d.d, U4);
      case Datetime(d, us) =>
        DateRoundTrip(d);
        assert InField(us, S8) by { assert Power(256, 8) == 0x1_0000_0000_0000_0000 by { assert Power(256, 4) == 0x1_0000_0000; } }
        WriteIntegral(d.y * 10000 + d.m * 100 + d.d, U4);
        WriteIntegral(us, S8);
        Associate(old(buf[..iter]), FieldBytes(DateNumber(d), U4), FieldBytes(us, S8));
      case Bitset(bits) => WriteBitset(bits);
      case Str(chars) => WriteString(chars);
      case VectorChar(chars) => WriteString(chars);
    }

    /** The fields of a Tm, of a duration, or of a single number. */
    method WriteFields(ns: seq<int>, layout: seq<Field>)
      requires |ns| == |layout| && forall i :: 0 <= i < |ns| ==> InField(ns[i], layout[i])
      requires iter + |FieldsBytes(ns, layout)| <= buf.Length
      modifies `iter, buf
      ensures Placed() && iter == old(iter) + |FieldsBytes(ns, layout)|
      ensures Written() == old(buf[..iter]) + FieldsBytes(ns, layout)
    {
      ghost var done: seq<byte> := [];
      for i := 0 to |ns|
        invariant Placed() && Written() == old(buf[..iter]) + done
        invariant FieldsBytes(ns, layout) == done + FieldsBytes(ns[i..], layout[i..])
      {
        assert ns[i..][1..] == ns[i + 1..] && layout[i..][1..] == layout[i + 1..];
        Associate(done, FieldBytes(ns[i], layout[i]), FieldsBytes(ns[i + 1..], layout[i + 1..]));
        Associate(old(buf[..iter]), done, FieldBytes(ns[i], layout[i]));
        WriteIntegral(ns[i], layout[i]);
        done := done + FieldBytes(ns[i], layout[i]);
      }
      assert done + [] == done;
    }

    /** `write`: a pointee that has no key yet gets the next one before it is written. */
    method WriteVariant(h: Heap, v: Value)
      requires HeapOk(h) && Ok(v, h.Keys) && iter + |Write(h, v, ptrKey).0| <= buf.Length
      modifies `iter, `ptrKey, buf
      ensures Placed() && Written() == old(buf[..iter]) + old(Write(h, v, ptrKey).0) && ptrKey == old(Write(h, v, ptrKey).1)
      decreases h.Keys - ptrKey.Keys, v, 2
    {
      ghost var (bytes, after) := WriteBody(h, v, ptrKey);
      TypeFits(v, h.Keys);
      Associate(Written(), TypeBytes(v, h.Keys), bytes);
      WriteIntegral(if v.Null? then -(Type(v) as int) else Type(v), S2);
      WriteVariantBody(h, v);
    }

    method WriteVariantBody(h: Heap, v: Value)
      requires HeapOk(h) && Ok(v, h.Keys) && iter + |WriteBody(h, v, ptrKey).0| <= buf.Length
      modifies `iter, `ptrKey, buf
      ensures Placed() && Written() == old(buf[..iter]) + old(WriteBody(h, v, ptrKey).0) && ptrKey == old(WriteBody(h, v, ptrKey).1)
      decreases h.Keys - ptrKey.Keys, v, 1
    {
      match v
      case Null(_) => assert Written() + [] == Written();
      case Seq(_, items) =>
        WriteSeq(h, items);
      case Map(et, entries) =>
        assert EntriesOk(et, entries, h.Keys);
        WriteMap(h, et, entries);
      case Ptr(p) =>
        WritePointer(h, p);
      case _ => WriteLeaf(v);
    }

    method WritePointer(h: Heap, p: nat)
      requires HeapOk(h) && Ok(Ptr(p), h.Keys) && iter + |WriteBody(h, Ptr(p), ptrKey).0| <= buf.Length
      modifies `iter, `ptrKey, buf
      ensures Placed() && Written() == old(buf[..iter]) + old(WriteBody(h, Ptr(p), ptrKey).0)
      ensures ptrKey == old(WriteBody(h, Ptr(p), ptrKey).1)
      decreases h.Keys - ptrKey.Keys, Ptr(p), 0
    {
      if p == 0 {
        WriteBinary(KeyBytes(0));
      } else if p in ptrKey {
        WriteBinary(KeyBytes(ptrKey[p]));
      } else {
        var key := |ptrKey| + 1;
        assert p in h.Keys - ptrKey.Keys && p !in h.Keys - ptrKey[p := key].Keys;
        ptrKey := ptrKey[p := key];
        Associate(Written(), KeyBytes(key), Write(h, h[p], ptrKey).0);
        WriteBinary(KeyBytes(key));
        WriteVariant(h, h[p]);
      }
    }

    method WriteSeq(h: Heap, items: seq<Value>)
      requires HeapOk(h) && FitsSize(|items|) && forall i :: 0 <= i < |items| ==> Ok(items[i], h.Keys)
      requires iter + 8 + |WriteItems(h, items, ptrKey).0| <= buf.Length
      modifies `iter, `ptrKey, buf
      ensures Placed() && ptrKey == old(WriteItems(h, items, ptrKey).1)
      ensures Written() == old(buf[..iter]) + (FieldBytes(|items|, SIZE) + old(WriteItems(h, items, ptrKey).0))
      decreases h.Keys - ptrKey.Keys, items
    {
      ghost var all := WriteItems(h, items, ptrKey);
      Associate(Written(), FieldBytes(|items|, SIZE), all.0);
      WriteIntegral(|items|, SIZE);
      ghost var start, done := Written(), [];
      assert items[0..] == items && done + all.0 == all.0;
      for i := 0 to |items|
        invariant Placed() && Written() == start + done
        invariant h.Keys - ptrKey.Keys <= old(h.Keys - ptrKey.Keys)
        invariant var rest := WriteItems(h, items[i..], ptrKey);
                  all == (done + rest.0, rest.1) && iter + |rest.0| <= buf.Length
      {
        ghost var (first, keys1) := Write(h, items[i], ptrKey);
        assert items[i..][1..] == items[i + 1..];
        ghost var more := WriteItems(h, items[i + 1..], keys1).0;
        Associate(done, first, more);
        Associate(start, done, first);
        WriteVariant(h, items[i]);
        done := done + first;
      }
      assert done + [] == done;
    }

    /** `write` for a key: a string, or a variant with its type number. */
    method WriteEntryKey(h: Heap, et: nat, key: Value)
      requires HeapOk(h) && KeyOk(et, key) && Ok(key, h.Keys) && iter + |WriteKey(h, et, key, ptrKey).0| <= buf.Length
      modifies `iter, `ptrKey, buf
      ensures Placed() && Written() == old(buf[..iter]) + old(WriteKey(h, et, key, ptrKey).0)
      ensures ptrKey == old(WriteKey(h, et, key, ptrKey).1)
      decreases h.Keys - ptrKey.Keys, key, 3
    {
      if HasStringKeys(et) {
        WriteString(key.chars);
      } else {
        WriteVariant(h, key);
      }
    }

    method WriteMapEntry(h: Heap, et: nat, e: Entry)
      requires HeapOk(h) && EntryOk(et, e, h.Keys) && iter + |WriteEntry(h, et, e, ptrKey).0| <= buf.Length
      modifies `iter, `ptrKey, buf
      ensures Placed() && Written() == old(buf[..iter]) + old(WriteEntry(h, et, e, ptrKey).0)
      ensures ptrKey == old(WriteEntry(h, et, e, ptrKey).1)
      decreases h.Keys - ptrKey.Keys, e
    {
      ghost var (key, keys1) := WriteKey(h, et, e.key, ptrKey);
      Associate(Written(), key, Write(h, e.value, keys1).0);
      WriteEntryKey(h, et, e.key);
      WriteVariant(h, e.value);
    }

    method WriteMap(h: Heap, et: nat, entries: seq<Entry>)
      requires HeapOk(h) && FitsSize(|entries|)
      requires EntriesOk(et, entries, h.Keys)
      requires iter + 8 + |WriteEntries(h, et, entries, ptrKey).0| <= buf.Length
      modifies `iter, `ptrKey, buf
      ensures Placed() && ptrKey == old(WriteEntries(h, et, entries, ptrKey).1)
      ensures Written() == old(buf[..iter]) + (FieldBytes(|entries|, SIZE) + old(WriteEntries(h, et, entries, ptrKey).0))
      decreases h.Keys - ptrKey.Keys, entries
    {
      ghost var all := WriteEntries(h, et, entries, ptrKey);
      Associate(Written(), FieldBytes(|entries|, SIZE), all.0);
      WriteIntegral(|entries|, SIZE);
      ghost var start, done := Written(), [];
      assert entries[0..] == entries && done + all.0 == all.0;
      for i := 0 to |entries|
        invariant Placed() && Written() == start + done
        invariant h.Keys - ptrKey.Keys <= old(h.Keys - ptrKey.Keys)
        invariant var rest := WriteEntries(h, et, entries[i..], ptrKey);
                  all == (done + rest.0, rest.1) && iter + |rest.0| <= buf.Length
      {
        ghost var (first, keys1) := WriteEntry(h, et, entries[i], ptrKey);
        assert entries[i..][1..] == entries[i + 1..];
        Associate(done, first, WriteEntries(h, et, entries[i + 1..], keys1).0);
        Associate(start, done, first);
        WriteMapEntry(h, et, entries[i]);
        done := done + first;
      }
      assert done + [] == done;
    }
  }

  /** What `read...` comes to: a value, false, a read behind the buffer, an exception, or what is not modelled. */
  datatype Result<+T> = Good(value: T) | Bad | Outside | Thrown | Unmodelled

  function Not<T, U>(r: Result<T>): Result<U>
    requires !r.Good?
  {
    match r
    case Bad => Bad
    case Outside => Outside
    case Thrown => Thrown
    case Unmodelled => Unmodelled
  }

  /** The value and the place behind it, or false and the place where it gave up. */
  predicate Took<T(==)>(t: Taken<T>, r: Result<T>, rest: seq<byte>) {
    match t
    case Got(v, t_rest) => r == Good(v) && rest == t_rest
    case Short(t_rest) => r == Bad && rest == t_rest
    case Overrun => r == Outside
    case TooLarge => r == Thrown
  }

  predicate Came<T(==)>(o: Outcome<T>, r: Result<T>, rest: seq<byte>, known: map<nat, Value>) {
    match o
    case Done(v, o_rest, o_known) => r == Good(v) && rest == o_rest && known == o_known
    case Failed(o_rest) => r == Bad && rest == o_rest
    case Overread => r == Outside
    case Throws => r == Thrown
    case LeftOut => r == Unmodelled
  }

  class Reader {
    const buf: array<byte>
    const lib: Library
    var iter: nat                    // what is before it has been read
    var keyPtr: map<nat, Value>      // the pointees by their keys

    predicate Placed()
      reads `iter
    {
      iter <= buf.Length
    }

    ghost function Rest(): seq<byte>
      requires Placed()
      reads `iter, buf
    {
      buf[iter..]
    }

    constructor (buf: array<byte>, iter: nat, lib: Library)
      requires iter <= buf.Length
      ensures this.buf == buf && this.iter == iter && this.lib == lib && keyPtr == map[]
    {
      this.buf, this.iter, this.lib, keyPtr := buf, iter, lib, map[];
    }

    /** The size is cast before it is compared, and not when the bytes are copied. */
    method ReadBinary(n: nat) returns (r: Result<seq<byte>>)
      requires Placed()
      modifies `iter
      ensures Placed() && iter >= old(iter) && Took(TakeBinary(old(Rest()), n), r, Rest())
    {
      if buf.Length - iter < Int32(n) {
        return Bad;
      }
      if buf.Length - iter < n {
        return Outside;
      }
      r := Good(buf[iter..iter + n]);
      assert buf[iter..][..n] == buf[iter..iter + n] && buf[iter..][n..] == buf[iter + n..];
      iter := iter + n;
    }

    method ReadIntegral(f: Field) returns (r: Result<int>)
      requires Placed() && f.width < 0x8000_0000
      modifies `iter
      ensures Placed() && iter >= old(iter) && Took(TakeField(old(Rest()), f), r, Rest())
    {
      var bytes := ReadBinary(f.width);
      r := if bytes.Good? then Good(FieldValue(bytes.value, f.signed)) else Not(bytes);
    }

    method ReadSize() returns (r: Result<nat>)
      requires Placed()
      modifies `iter
      ensures Placed() && iter >= old(iter) && Rest() == TakeField(old(Rest()), SIZE).rest
      ensures r == match TakeField(old(Rest()), SIZE) case Got(n, _) => Good(n) case Short(_) => Bad
    {
      var n := ReadIntegral(SIZE);
      r := if n.Good? then Good(n.value) else Bad;
    }

    /** The string is brought to its size, which may throw, before its bytes are looked for. */
    method ReadString(most: nat) returns (r: Result<seq<byte>>)
      requires Placed()
      modifies `iter
      ensures Placed() && iter >= old(iter) && Took(TakeString(most, old(Rest())), r, Rest())
    {
      var size := ReadSize();
      if !size.Good? {
        return Not(size);
      }
      if size.value > most {
        return Thrown;
      }
      r := ReadBinary(size.value);
    }

    method ReadFields(layout: seq<Field>) returns (r: Result<seq<int>>)
      requires Placed() && forall i :: 0 <= i < |layout| ==> layout[i].width < 0x8000_0000
      modifies `iter
      ensures Placed() && iter >= old(iter) && Took(TakeFields(old(Rest()), layout, []), r, Rest())
    {
      var ns: seq<int> := [];
      assert layout[0..] == layout;
      for i := 0 to |layout|
        invariant Placed() && iter >= old(iter) && |ns| == i
        invariant TakeFields(old(Rest()), layout, []) == TakeFields(Rest(), layout[i..], ns)
      {
        assert layout[i..][1..] == layout[i + 1..];
        var n := ReadIntegral(layout[i]);
        if !n.Good? {
          return Not(n);
        }
        ns := ns + [n.value];
      }
      r := Good(ns);
    }

    method ReadChars(et: nat) returns (r: Result<Value>)
      requires Placed() && (et == 2 || et == 13)
      modifies `iter
      ensures Placed() && iter >= old(iter) && Came(VariantFormat.ReadLeaf(lib, et, old(Rest()), keyPtr), r, Rest(), keyPtr)
    {
      var chars := ReadString(lib.most(et));
      r := if !chars.Good? then Not(chars) else Good(if et == 2 then Str(chars.value) else VectorChar(chars.value));
    }

    method ReadDate() returns (r: Result<Value>)
      requires Placed()
      modifies `iter
      ensures Placed() && iter >= old(iter) && Came(VariantFormat.ReadLeaf(lib, 14, old(Rest()), keyPtr), r, Rest(), keyPtr)
    {
      var n := ReadIntegral(U4);
      r := if n.Good? && ValidDate(NumberDate(n.value)) then Good(Date(NumberDate(n.value))) else Bad;
    }

    method ReadDatetime() returns (r: Result<Value>)
      requires Placed()
      modifies `iter
      ensures Placed() && iter >= old(iter) && Came(VariantFormat.ReadLeaf(lib, 15, old(Rest()), keyPtr), r, Rest(), keyPtr)
    {
      var ns := ReadFields([U4, S8]);
      r := Bad;
      if ns.Good? {
        var date := NumberDate(if ns.value[0] < 0 then 0 else ns.value[0]);
        if ValidDate(date) {
          r := if 0 <= ns.value[1] < DAY_US then Good(Datetime(date, ns.value[1])) else Unmodelled;
        }
      }
    }

    method ReadBool() returns (r: Result<Value>)
      requires Placed()
      modifies `iter
      ensures Placed() && iter >= old(iter) && Came(VariantFormat.ReadLeaf(lib, 18, old(Rest()), keyPtr), r, Rest(), keyPtr)
    {
      var n := ReadIntegral(S1);
      r := if n.Good? then Good(Bool(n.value != 0)) else Bad;
    }

    method ReadBitset(et: nat) returns (r: Result<Value>)
      requires Placed() && Bits(et) > 0
      modifies `iter
      ensures Placed() && iter >= old(iter) && Came(VariantFormat.ReadLeaf(lib, et, old(Rest()), keyPtr), r, Rest(), keyPtr)
    {
      LeafOfBits(lib, et, Rest(), keyPtr);
      var bytes := ReadBinary(Bits(et) / 8);
      if !bytes.Good? {
        return Not(bytes);
      }
      var bits := UnpackBits(bytes.value);
      r := Good(Bitset(bits));
    }

    method ReadUuid() returns (r: Result<Value>)
      requires Placed()
      modifies `iter
      ensures Placed() && iter >= old(iter) && Came(ReadFlat(38, Layout(38), old(Rest()), keyPtr), r, Rest(), keyPtr)
    {
      ghost var s := Rest();
      UuidLayout();
      var bytes := ReadBinary(16);
      r := Bad;
      if bytes.Good? {
        TakeUuid(Layout(38), s);
        r := Good(Flat(38, bytes.value));
      }
    }

    method ReadRow(et: nat, layout: seq<Field>) returns (r: Result<Value>)
      requires Placed() && et != 38 && forall i :: 0 <= i < |layout| ==> layout[i].width < 0x8000_0000
      modifies `iter
      ensures Placed() && iter >= old(iter) && Came(ReadFlat(et, layout, old(Rest()), keyPtr), r, Rest(), keyPtr)
    {
      r := Bad;
      if layout != [] {
        var ns := ReadFields(layout);
        r := if ns.Good? then Good(Flat(et, ns.value)) else Not(ns);
      }
    }

    method ReadLeaf(et: nat) returns (r: Result<Value>)
      requires Placed()
      modifies `iter
      ensures Placed() && iter >= old(iter) && Came(VariantFormat.ReadLeaf(lib, et, old(Rest()), keyPtr), r, Rest(), keyPtr)
    {
      if et == 2 || et == 13 {
        r := ReadChars(et);
      } else if et == 14 {
        r := ReadDate();
      } else if et == 15 {
        r := ReadDatetime();
      } else if et == 18 {
        r := ReadBool();
      } else if Bits(et) > 0 {
        r := ReadBitset(et);
      } else if et == 38 {
        r := ReadUuid();
      } else {
        NarrowLayout(et);
        r := ReadRow(et, Layout(et));
      }
    }

    /** `read`; the pointees of a failed reading are not described. */
    method ReadVariant() returns (r: Result<Value>)
      requires Placed()
      modifies `iter, `keyPtr
      ensures Placed() && Came(Read(lib, old(Rest()), old(keyPtr)), r, Rest(), keyPtr)
      ensures r.Good? ==> iter >= old(iter) + 2
      decreases buf.Length - iter, 0
    {
      var et := ReadIntegral(S2);
      if !et.Good? {
        return Not(et);
      }
      if et.value < 0 {
        return if -et.value <= 39 then Good(Null(-et.value)) else Bad;
      }
      if IsSeqType(et.value) {
        r := ReadSeq(et.value);
      } else if IsMapType(et.value) {
        r := ReadMap(et.value);
      } else if et.value == 39 {
        r := ReadPointer();
      } else if et.value == 33 || et.value == 34 {
        r := Unmodelled;
      } else {
        r := ReadLeaf(et.value);
      }
    }

    method ReadPointer() returns (r: Result<Value>)
      requires Placed()
      modifies `iter, `keyPtr
      ensures Placed() && Came(ReadBody(lib, 39, old(Rest()), old(keyPtr)), r, Rest(), keyPtr)
      decreases buf.Length - iter, 4
    {
      var key := ReadIntegral(U8);
      if !key.Good? {
        return Not(key);
      }
      if key.value == 0 || key.value in keyPtr {
        return Good(Ptr(key.value));
      }
      r := ReadNewObject(key.value);
    }

    /** The object is entered before its value is read. */
    method ReadNewObject(key: nat) returns (r: Result<Value>)
      requires Placed()
      modifies `iter, `keyPtr
      ensures Placed() && Came(ReadPointee(lib, key, old(Rest()), old(keyPtr)), r, Rest(), keyPtr)
      decreases buf.Length - iter, 1
    {
      keyPtr := keyPtr[key := Null(1)];
      var v := ReadVariant();
      if !v.Good? {
        return Not(v);
      }
      keyPtr := keyPtr[key := v.value];
      r := Good(Ptr(key));
    }

    /** The loop over the items of a vector, deque or list. */
    method FillSeq(n: nat) returns (r: Result<seq<Value>>)
      requires Placed()
      modifies `iter, `keyPtr
      ensures Placed() && Came(ReadItems(lib, old(Rest()), n, [], old(keyPtr)), r, Rest(), keyPtr)
      decreases buf.Length - iter, 3
    {
      ghost var o := ReadItems(lib, Rest(), n, [], keyPtr);
      var items: seq<Value> := [];
      for i := 0 to n
        invariant Placed() && iter >= old(iter)
        invariant ReadItems(lib, Rest(), n - i, items, keyPtr) == o
      {
        var v := ReadVariant();
        if !v.Good? {
          return Not(v);
        }
        items := items + [v.value];
      }
      r := Good(items);
    }

    method ReadSeq(et: nat) returns (r: Result<Value>)
      requires Placed() && IsSeqType(et)
      modifies `iter, `keyPtr
      ensures Placed() && Came(ReadBody(lib, et, old(Rest()), old(keyPtr)), r, Rest(), keyPtr)
      decreases buf.Length - iter, 4
    {
      var size := ReadSize();
      if !size.Good? {
        return Not(size);
      }
      if Resizes(et) && size.value > lib.most(et) {
        return Thrown;
      }
      var items := FillSeq(size.value);
      r := if items.Good? then Good(Seq(et, items.value)) else Not(items);
    }

    method ReadEntryKey(et: nat) returns (r: Result<Value>)
      requires Placed()
      modifies `iter, `keyPtr
      ensures Placed() && Came(ReadKey(lib, et, old(Rest()), old(keyPtr)), r, Rest(), keyPtr)
      ensures r.Good? ==> iter >= old(iter)
      decreases buf.Length - iter, 1
    {
      if HasStringKeys(et) {
        var chars := ReadString(lib.most(2));
        r := if chars.Good? then Good(Str(chars.value)) else Not(chars);
      } else {
        r := ReadVariant();
      }
    }

    /** One round of the loop that fills a map. */
    method ReadMapEntry(et: nat) returns (r: Result<Entry>)
      requires Placed()
      modifies `iter, `keyPtr
      ensures Placed() && Came(ReadEntry(lib, et, old(Rest()), old(keyPtr)), r, Rest(), keyPtr)
      ensures r.Good? ==> iter >= old(iter)
      decreases buf.Length - iter, 2
    {
      var key := ReadEntryKey(et);
      if !key.Good? {
        return Not(key);
      }
      var v := ReadVariant();
      r := if v.Good? then Good(Entry(key.value, v.value)) else Not(v);
    }

    /** The loop of `readMap`. */
    method FillMap(n: nat, et: nat) returns (r: Result<seq<Entry>>)
      requires Placed()
      modifies `iter, `keyPtr
      ensures Placed() && Came(ReadEntries(lib, old(Rest()), n, et, [], old(keyPtr)), r, Rest(), keyPtr)
      decreases buf.Length - iter, 3
    {
      ghost var o := ReadEntries(lib, Rest(), n, et, [], keyPtr);
      var entries: seq<Entry> := [];
      for i := 0 to n
        invariant Placed() && iter >= old(iter) && ReadEntries(lib, Rest(), n - i, et, entries, keyPtr) == o
      {
        var e := ReadMapEntry(et);
        if !e.Good? {
          return Not(e);
        }
        entries := Insert(lib, et, entries, e.value);
      }
      r := Good(entries);
    }

    method ReadMap(et: nat) returns (r: Result<Value>)
      requires Placed() && IsMapType(et)
      modifies `iter, `keyPtr
      ensures Placed() && Came(ReadBody(lib, et, old(Rest()), old(keyPtr)), r, Rest(), keyPtr)
      decreases buf.Length - iter, 4
    {
      var size := ReadSize();
      if !size.Good? {
        return Not(size);
      }
      var entries := FillMap(size.value, et);
      r := if entries.Good? then Good(Map(et, entries.value)) else Not(entries);
    }
  }

  lemma LeafOfBits(lib: Library, et: nat, s: seq<byte>, known: map<nat, Value>)
    requires Bits(et) > 0
    ensures var t := TakeBinary(s, Bits(et) / 8);
            VariantFormat.ReadLeaf(lib, et, s, known) == if t.Got? then Done(Bitset(BytesBitset(t.value)), t.rest, known) else NotTaken(t)
  {
  }

  lemma NarrowLayout(et: nat)
    ensures forall i :: 0 <= i < |Layout(et)| ==> Layout(et)[i].width <= 8
  {
  }

  /** Bytes read one by one are the bytes read at once. */
  lemma {:induction false} TakeBytes(s: seq<byte>, layout: seq<Field>, acc: seq<int>)
    requires |layout| <= |s| && forall i :: 0 <= i < |layout| ==> layout[i] == U1
    ensures TakeFields(s, layout, acc) == Got(acc + s[..|layout|], s[|layout|..])
    decreases layout
  {
    if layout == [] {
      assert acc + s[..0] == acc;
    } else {
      assert LittleValue(s[..1]) == s[0] + 256 * LittleValue([]);
      TakeBytes(s[1..], layout[1..], acc + [s[0]]);
      var n := |layout| - 1;
      assert s[1..][n..] == s[|layout|..];
      assert acc + [s[0]] + s[1..][..n] == acc + s[..|layout|];
    }
  }

  lemma UuidLayout()
    ensures |Layout(38)| == 16 && forall i :: 0 <= i < 16 ==> Layout(38)[i] == U1
  {
  }

  lemma TakeUuid(layout: seq<Field>, s: seq<byte>)
    requires |layout| == 16 && (forall i :: 0 <= i < 16 ==> layout[i] == U1) && |s| >= 16
    ensures TakeFields(s, layout, []) == Got(s[..16], s[16..])
  {
    TakeBytes(s, layout, []);
    assert [] + s[..16] == s[..16];
  }

  method UnpackBits(bytes: seq<byte>) returns (bits: seq<bool>)
    ensures bits == BytesBitset(bytes)
  {
    bits := [];
    for i := 0 to 8 * |bytes|
      invariant |bits| == i && forall k :: 0 <= k < i ==> bits[k] == Bit(bytes[k / 8], k % 8)
    {
      bits := bits + [Bit(bytes[i / 8], i % 8)];
    }
  }

  /** Bit i goes into bit i % 8 of byte i / 8. */
  method PackBits(bits: seq<bool>) returns (bytes: seq<byte>)
    requires |bits| % 8 == 0
    ensures bytes == BitsetBytes(bits)
  {
    bytes := [];
    for k := 0 to |bits| / 8
      invariant |bytes| == k && forall i :: 0 <= i < k ==> bytes[i] == ByteOfBits(bits, i)
    {
      var b := PackByte(bits, k);
      bytes := bytes + [b];
    }
  }

  /** The eight rounds of the loop that fill byte k; or-ing a bit that is not set adds it. */
  method PackByte(bits: seq<bool>, k: nat) returns (b: byte)
    requires 8 * k + 8 <= |bits|
    ensures b == ByteOfBits(bits, k)
  {
    var n: nat := 0;
    for i := 0 to 8
      invariant n == BitsValue(bits[8 * k..8 * k + i])
    {
      BitsValueSnoc(bits[8 * k..8 * k + i], bits[8 * k + i]);
      assert bits[8 * k..8 * k + i] + [bits[8 * k + i]] == bits[8 * k..8 * k + i + 1];
      if bits[8 * k + i] {
        n := n + Power(2, i);
      }
    }
    assert n == ByteOfBits(bits, k);
    b := n;
  }

  lemma {:induction false} BitsValueSnoc(bits: seq<bool>, b: bool)
    ensures BitsValue(bits + [b]) == BitsValue(bits) + if b then Power(2, |bits|) else 0
  {
    if bits == [] {
      assert [b][1..] == [];
    } else {
      assert (bits + [b])[1..] == bits[1..] + [b];
      BitsValueSnoc(bits[1..], b);
    }
  }
}
