/**
  The serialized form seen as one field after another: what reading comes to on any data, whether it stays in its buffer, and
  which messages `deserialize` accepts although reading their data fails (variantSerialization.cpp).
*/
module VariantFields {
  import opened Basics
  import opened VariantBytes
  import opened VariantFormat
  import opened VariantEnvelope

  type pos = n: nat | n > 0 witness 1

  /** What the next field is to be. */
  datatype Expect =
    | Values(n: pos)        // the type number of the first of n values
    | Entries(n: pos)       // the length of the string that is the key of the first of n entries
    | Count(et: nat)        // how many items or entries a container of this type has
    | Length(et: nat)       // the length of a string or a byte vector
    | Plain(width: pos)
    | DateNumberOf          // the date of a Date
    | DayNumberOf           // the date of a Datetime
    | TimeAfter(date: Ymd)  // the time of a Datetime
    | Key                   // the key of a pointer

  function Width(e: Expect): pos {
    match e
    case Values(_) => 2
    case Plain(w) => w
    case DateNumberOf => 4
    case DayNumberOf => 4
    case _ => 8
  }

  /** What a field leads to: other fields, a failure, an exception, or a part of the format that is not modelled. */
  datatype Next = Go(todo: seq<Expect>, keys: set<nat>) | Wrong | TooLong | Foreign

  function Plains(layout: seq<Field>): seq<Expect>
    requires forall i :: 0 <= i < |layout| ==> layout[i].width > 0
  {
    if layout == [] then [] else [Plain(layout[0].width)] + Plains(layout[1..])
  }

  /** The fields behind a type number. */
  function Parts(et: nat, keys: set<nat>): Next {
    if IsSeqType(et) || IsMapType(et) then Go([Count(et)], keys)
    else if et == 39 then Go([Key], keys)
    else if et == 33 || et == 34 then Foreign
    else if et == 2 || et == 13 then Go([Length(et)], keys)
    else if et == 14 then Go([DateNumberOf], keys)
    else if et == 15 then Go([DayNumberOf], keys)
    else if et == 18 then Go([Plain(1)], keys)
    else if Bits(et) > 0 then Go([Plain(Bits(et) / 8)], keys)
    else if et == 38 then Go([Plain(16)], keys)
    else if Layout(et) != [] then Go(Plains(Layout(et)), keys)
    else Wrong
  }

  function ValuesOf(n: nat): seq<Expect> {
    if n == 0 then [] else [Values(n)]
  }

  function EntriesOf(n: nat): seq<Expect> {
    if n == 0 then [] else [Entries(n)]
  }

  function BytesOf(n: nat): seq<Expect> {
    if n == 0 then [] else [Plain(n)]
  }

  function Then(next: Next, more: seq<Expect>): Next {
    if next.Go? then Go(next.todo + more, next.keys) else next
  }

  function TypeNext(et: int, keys: set<nat>): Next {
    if et >= 0 then Parts(et, keys) else if -et <= 39 then Go([], keys) else Wrong
  }

  /** The fields of n bytes, of which there may be at most `most`. */
  function Bytes(most: nat, n: nat, more: seq<Expect>, keys: set<nat>): Next {
    if n > most then TooLong else Go(BytesOf(n) + more, keys)
  }

  /** The fields of a container; an entry with a variant as its key is two values. */
  function Contents(lib: Library, et: nat, n: nat, keys: set<nat>): Next {
    if Resizes(et) && n > lib.most(et) then TooLong
    else if HasStringKeys(et) then Go(EntriesOf(n), keys)
    else if IsMapType(et) then Go(ValuesOf(2 * n), keys)
    else Go(ValuesOf(n), keys)
  }

  /** What field f leads to where e was expected, when the keys of the pointees met so far are `keys`. */
  function After(lib: Library, e: Expect, f: seq<byte>, keys: set<nat>): Next {
    match e
    case Values(n) => Then(TypeNext(FieldValue(f, true), keys), ValuesOf(n - 1))
    case Entries(n) => Bytes(lib.most(2), FieldValue(f, false), [Values(1)] + EntriesOf(n - 1), keys)
    case Count(et) => Contents(lib, et, FieldValue(f, false), keys)
    case Length(et) => Bytes(lib.most(et), FieldValue(f, false), [], keys)
    case Plain(_) => Go([], keys)
    case DateNumberOf => if ValidDate(NumberDate(FieldValue(f, false))) then Go([], keys) else Wrong
    case DayNumberOf => Go([TimeAfter(NumberDate(FieldValue(f, false)))], keys)
    case TimeAfter(date) =>
      if !ValidDate(date) then Wrong else if 0 <= FieldValue(f, true) < DAY_US then Go([], keys) else Foreign
    case Key =>
      var key := FieldValue(f, false);
      if key == 0 || key in keys then Go([], keys) else Go([Values(1)], keys + {key})
  }

  // ----- reading field by field -----

  datatype Scanned = Whole(rest: seq<byte>) | Stuck(rest: seq<byte>) | Beyond | Threw | Unknown

  /** Fewer than w bytes are left: the test sees it, unless the cast makes w small enough. */
  function Lacking(s: seq<byte>, w: nat): Scanned {
    if |s| < Int32(w) then Stuck(s) else Beyond
  }

  function Halt(next: Next, rest: seq<byte>): Scanned {
    match next
    case TooLong => Threw
    case Foreign => Unknown
    case _ => Stuck(rest)
  }

  /** Takes field after field until nothing is expected. */
  function Scan(lib: Library, s: seq<byte>, todo: seq<Expect>, keys: set<nat>): Scanned
    decreases |s|
  {
    if todo == [] then Whole(s)
    else
      var w := Width(todo[0]);
      if |s| < w then Lacking(s, w)
      else
        var next := After(lib, todo[0], s[..w], keys);
        if next.Go? then Scan(lib, s[w..], next.todo + todo[1..], next.keys) else Halt(next, s[w..])
  }

  /** What comes of the rest when the fields before it have led to `next`. */
  function Proceed(lib: Library, next: Next, rest: seq<byte>, todo: seq<Expect>): Scanned {
    if next.Go? then Scan(lib, rest, next.todo + todo, next.keys) else Halt(next, rest)
  }

  /** A reading that is followed by what else is expected. */
  function Continue<T>(lib: Library, o: Outcome<T>, todo: seq<Expect>): Scanned {
    match o
    case Done(_, rest, known) => Scan(lib, rest, todo, known.Keys)
    case Failed(rest) => Stuck(rest)
    case Overread => Beyond
    case Throws => Threw
    case LeftOut => Unknown
  }

  function Taking<T>(lib: Library, t: Taken<T>, todo: seq<Expect>, keys: set<nat>): Scanned {
    match t
    case Got(_, rest) => Scan(lib, rest, todo, keys)
    case Short(rest) => Stuck(rest)
    case Overrun => Beyond
    case TooLarge => Threw
  }

  lemma ScanOne(lib: Library, s: seq<byte>, e: Expect, todo: seq<Expect>, keys: set<nat>)
    ensures Scan(lib, s, [e] + todo, keys) ==
              if |s| < Width(e) then Lacking(s, Width(e))
              else Proceed(lib, After(lib, e, s[..Width(e)], keys), s[Width(e)..], todo)
  {
    assert ([e] + todo)[1..] == todo;
  }

  lemma {:induction false} ScanPlains(lib: Library, s: seq<byte>, layout: seq<Field>, acc: seq<int>, todo: seq<Expect>, keys: set<nat>)
    requires forall i :: 0 <= i < |layout| ==> 0 < layout[i].width < 0x8000_0000
    ensures Scan(lib, s, Plains(layout) + todo, keys) == Taking(lib, TakeFields(s, layout, acc), todo, keys)
    decreases layout
  {
    if layout == [] {
      assert [] + todo == todo;
    } else {
      var e := Plain(layout[0].width);
      Associate([e], Plains(layout[1..]), todo);
      ScanOne(lib, s, e, Plains(layout[1..]) + todo, keys);
      if |s| >= layout[0].width {
        assert [] + (Plains(layout[1..]) + todo) == Plains(layout[1..]) + todo;
        ScanPlains(lib, s[layout[0].width..], layout[1..], acc + [FieldValue(s[..layout[0].width], layout[0].signed)], todo, keys);
      }
    }
  }

  lemma ScanBytes(lib: Library, s: seq<byte>, n: nat, todo: seq<Expect>, keys: set<nat>)
    ensures Scan(lib, s, BytesOf(n) + todo, keys) == Taking(lib, TakeBinary(s, n), todo, keys)
  {
    if n == 0 {
      assert [] + todo == todo && s[0..] == s;
    } else {
      ScanOne(lib, s, Plain(n), todo, keys);
      assert [] + todo == todo;
    }
  }

  /** A length field and its bytes. */
  lemma ScanString(lib: Library, s: seq<byte>, e: Expect, most: nat, more: seq<Expect>, todo: seq<Expect>, keys: set<nat>)
    requires Width(e) == 8 && forall f :: After(lib, e, f, keys) == Bytes(most, FieldValue(f, false), more, keys)
    ensures Scan(lib, s, [e] + todo, keys) == Taking(lib, TakeString(most, s), more + todo, keys)
  {
    ScanOne(lib, s, e, todo, keys);
    if |s| >= 8 {
      var n := FieldValue(s[..8], false);
      if n <= most {
        Associate(BytesOf(n), more, todo);
        ScanBytes(lib, s[8..], n, more + todo, keys);
      }
    }
  }

  lemma TakeStep(s: seq<byte>, f: Field, layout: seq<Field>, acc: seq<int>)
    ensures TakeFields(s, [f] + layout, acc) ==
              if |s| < f.width then Short(s) else TakeFields(s[f.width..], layout, acc + [FieldValue(s[..f.width], f.signed)])
  {
    assert ([f] + layout)[1..] == layout;
  }

  lemma TakeTwo(s: seq<byte>, a: Field, b: Field)
    ensures TakeFields(s, [a, b], []) ==
              if |s| < a.width then Short(s)
              else if |s| < a.width + b.width then Short(s[a.width..])
              else Got([FieldValue(s[..a.width], a.signed), FieldValue(s[a.width..][..b.width], b.signed)], s[a.width..][b.width..])
  {
    assert [a, b] == [a] + [b];
    TakeStep(s, a, [b], []);
    if |s| >= a.width {
      var s1, n := s[a.width..], FieldValue(s[..a.width], a.signed);
      assert [b] == [b] + [] && [] + [n] == [n];
      TakeStep(s1, b, [], [n]);
      if |s1| >= b.width {
        var m := FieldValue(s1[..b.width], b.signed);
        assert [n] + [m] == [n, m];
      }
    }
  }

  lemma LeafOfDatetime(lib: Library, s: seq<byte>, known: map<nat, Value>)
    ensures ReadLeaf(lib, 15, s, known) ==
              if |s| < 4 then Failed(s) else if |s| < 12 then Failed(s[4..])
              else ReadDatetime([FieldValue(s[..4], false), FieldValue(s[4..][..8], true)], s[4..][8..], known)
  {
    TakeTwo(s, U4, S8);
  }

  lemma ScanOfDatetime(lib: Library, s: seq<byte>, todo: seq<Expect>, keys: set<nat>)
    ensures Scan(lib, s, [DayNumberOf] + todo, keys) ==
              if |s| < 4 then Stuck(s) else if |s| < 12 then Stuck(s[4..])
              else Proceed(lib, After(lib, TimeAfter(NumberDate(FieldValue(s[..4], false))), s[4..][..8], keys), s[4..][8..], todo)
  {
    ScanOne(lib, s, DayNumberOf, todo, keys);
    if |s| >= 4 { ScanOne(lib, s[4..], TimeAfter(NumberDate(FieldValue(s[..4], false))), todo, keys); }
  }

  lemma ScanDatetime(lib: Library, s: seq<byte>, todo: seq<Expect>, known: map<nat, Value>)
    ensures Scan(lib, s, [DayNumberOf] + todo, known.Keys) == Continue(lib, ReadLeaf(lib, 15, s, known), todo)
  {
    ScanOfDatetime(lib, s, todo, known.Keys);
    LeafOfDatetime(lib, s, known);
    assert [] + todo == todo;
  }

  lemma {:induction false} TakeAll(s: seq<byte>, layout: seq<Field>, acc: seq<int>)
    requires (forall i :: 0 <= i < |layout| ==> layout[i].width == 1) && |layout| <= |s|
    ensures TakeFields(s, layout, acc).Got? && TakeFields(s, layout, acc).rest == s[|layout|..]
    decreases layout
  {
    if layout != [] {
      TakeAll(s[1..], layout[1..], acc + [FieldValue(s[..1], layout[0].signed)]);
      assert s[1..][|layout| - 1..] == s[|layout|..];
    }
  }

  /** A Uuid is one field. */
  lemma ScanUuid(lib: Library, layout: seq<Field>, s: seq<byte>, todo: seq<Expect>, known: map<nat, Value>)
    requires |layout| == 16 && forall i :: 0 <= i < |layout| ==> layout[i].width == 1
    ensures Scan(lib, s, [Plain(16)] + todo, known.Keys) == Continue(lib, ReadFlat(38, layout, s, known), todo)
  {
    ScanOne(lib, s, Plain(16), todo, known.Keys);
    if |s| >= 16 {
      assert [] + todo == todo;
      TakeAll(s, layout, []);
    }
  }

  lemma ScanFlat(lib: Library, et: nat, layout: seq<Field>, s: seq<byte>, todo: seq<Expect>, known: map<nat, Value>)
    requires layout != [] && et != 38 && forall i :: 0 <= i < |layout| ==> 0 < layout[i].width < 0x8000_0000
    ensures Scan(lib, s, Plains(layout) + todo, known.Keys) == Continue(lib, ReadFlat(et, layout, s, known), todo)
  {
    ScanPlains(lib, s, layout, [], todo, known.Keys);
  }

  predicate IsLeafType(et: nat) {
    !IsSeqType(et) && !IsMapType(et) && et != 39 && et != 33 && et != 34
  }

  lemma ScanChars(lib: Library, et: nat, s: seq<byte>, todo: seq<Expect>, known: map<nat, Value>)
    requires et == 2 || et == 13
    ensures Continue(lib, ReadLeaf(lib, et, s, known), todo) == Scan(lib, s, [Length(et)] + todo, known.Keys)
  {
    ScanString(lib, s, Length(et), lib.most(et), [], todo, known.Keys);
    assert [] + todo == todo;
  }

  lemma ScanLeaf(lib: Library, et: nat, s: seq<byte>, todo: seq<Expect>, known: map<nat, Value>)
    requires IsLeafType(et)
    ensures Continue(lib, ReadLeaf(lib, et, s, known), todo) == Proceed(lib, Parts(et, known.Keys), s, todo)
  {
    if et == 2 || et == 13 {
      ScanChars(lib, et, s, todo, known);
    } else if et == 14 {
      ScanOne(lib, s, DateNumberOf, todo, known.Keys);
      assert [] + todo == todo;
    } else if et == 15 {
      ScanDatetime(lib, s, todo, known);
    } else if et == 18 {
      ScanOne(lib, s, Plain(1), todo, known.Keys);
      assert [] + todo == todo;
    } else if Bits(et) > 0 {
      ScanOne(lib, s, Plain(Bits(et) / 8), todo, known.Keys);
      assert [] + todo == todo;
    } else if et == 38 {
      ScanUuid(lib, Layout(38), s, todo, known);
    } else if Layout(et) != [] {
      LayoutNarrow(et);
      ScanFlat(lib, et, Layout(et), s, todo, known);
    }
  }

  lemma LayoutNarrow(et: nat)
    ensures forall i :: 0 <= i < |Layout(et)| ==> Layout(et)[i].width <= 8
  {
  }

  /** The first of n values is one value, followed by the others. */
  lemma ScanFirst(lib: Library, s: seq<byte>, n: pos, todo: seq<Expect>, keys: set<nat>)
    ensures Scan(lib, s, [Values(n)] + todo, keys) == Scan(lib, s, [Values(1)] + (ValuesOf(n - 1) + todo), keys)
  {
    var more := ValuesOf(n - 1);
    ScanOne(lib, s, Values(n), todo, keys);
    ScanOne(lib, s, Values(1), more + todo, keys);
    if |s| >= 2 {
      var t := TypeNext(FieldValue(s[..2], true), keys);
      if t.Go? {
        Associate(t.todo, more, todo);
        assert t.todo + [] == t.todo;
      }
    }
  }

  /** What is known stays known. */
  predicate Grows<T>(known: map<nat, Value>, o: Outcome<T>) {
    o.Done? ==> known.Keys <= o.known.Keys
  }

  lemma {:induction false} KnownGrows(lib: Library, s: seq<byte>, known: map<nat, Value>)
    ensures Grows(known, Read(lib, s, known))
    decreases |s|, 0
  {
    if |s| >= 2 && FieldValue(s[..2], true) >= 0 { KnownGrowsInBody(lib, FieldValue(s[..2], true), s[2..], known); }
  }

  lemma {:induction false} KnownGrowsInBody(lib: Library, et: nat, s: seq<byte>, known: map<nat, Value>)
    ensures Grows(known, ReadBody(lib, et, s, known))
    decreases |s|, 3
  {
    if |s| >= 8 {
      var n := FieldValue(s[..8], false);
      if IsSeqType(et) {
        KnownGrowsInItems(lib, s[8..], n, [], known);
      } else if IsMapType(et) {
        KnownGrowsInEntries(lib, s[8..], n, et, [], known);
      } else if et == 39 && n != 0 && n !in known {
        KnownGrows(lib, s[8..], known[n := Null(1)]);
      }
    }
  }

  lemma {:induction false} KnownGrowsInItems(lib: Library, s: seq<byte>, n: nat, acc: seq<Value>, known: map<nat, Value>)
    ensures Grows(known, ReadItems(lib, s, n, acc, known))
    decreases |s|, 2, n
  {
    if n > 0 {
      KnownGrows(lib, s, known);
      var o := Read(lib, s, known);
      if o.Done? { KnownGrowsInItems(lib, o.rest, n - 1, acc + [o.value], o.known); }
    }
  }

  lemma {:induction false} KnownGrowsInEntry(lib: Library, et: nat, s: seq<byte>, known: map<nat, Value>)
    ensures Grows(known, ReadEntry(lib, et, s, known))
    decreases |s|, 1
  {
    if !HasStringKeys(et) { KnownGrows(lib, s, known); }
    var k := ReadKey(lib, et, s, known);
    if k.Done? { KnownGrows(lib, k.rest, k.known); }
  }

  lemma {:induction false} KnownGrowsInEntries(lib: Library, s: seq<byte>, n: nat, et: nat, acc: seq<Entry>, known: map<nat, Value>)
    ensures Grows(known, ReadEntries(lib, s, n, et, acc, known))
    decreases |s|, 2, n
  {
    if n > 0 {
      KnownGrowsInEntry(lib, et, s, known);
      var o := ReadEntry(lib, et, s, known);
      if o.Done? { KnownGrowsInEntries(lib, o.rest, n - 1, et, Insert(lib, et, acc, o.value), o.known); }
    }
  }

  /** Reading a value takes the fields that are expected of a value. */
  lemma {:induction false} ReadIsScan(lib: Library, s: seq<byte>, known: map<nat, Value>, todo: seq<Expect>)
    ensures Scan(lib, s, [Values(1)] + todo, known.Keys) == Continue(lib, Read(lib, s, known), todo)
    decreases |s|, 0
  {
    ScanOne(lib, s, Values(1), todo, known.Keys);
    if |s| >= 2 {
      var et, rest := FieldValue(s[..2], true), s[2..];
      var t := TypeNext(et, known.Keys);
      assert t.Go? ==> t.todo + [] == t.todo;
      if et >= 0 {
        ReadBodyIsScan(lib, et, rest, known, todo);
      } else {
        assert [] + todo == todo;
      }
    }
  }

  lemma {:induction false} ReadBodyIsScan(lib: Library, et: nat, s: seq<byte>, known: map<nat, Value>, todo: seq<Expect>)
    ensures Continue(lib, ReadBody(lib, et, s, known), todo) == Proceed(lib, Parts(et, known.Keys), s, todo)
    decreases |s|, 4
  {
    if IsSeqType(et) || IsMapType(et) {
      ReadContentsIsScan(lib, et, s, known, todo);
    } else if et == 39 {
      ScanOne(lib, s, Key, todo, known.Keys);
      if |s| >= 8 {
        var key := FieldValue(s[..8], false);
        if key == 0 || key in known {
          assert [] + todo == todo;
        } else {
          ReadPointeeIsScan(lib, key, s[8..], known, todo);
        }
      }
    } else if IsLeafType(et) {
      ScanLeaf(lib, et, s, todo, known);
    }
  }

  lemma {:induction false} ReadContentsIsScan(lib: Library, et: nat, s: seq<byte>, known: map<nat, Value>, todo: seq<Expect>)
    requires IsSeqType(et) || IsMapType(et)
    ensures Continue(lib, ReadBody(lib, et, s, known), todo) == Scan(lib, s, [Count(et)] + todo, known.Keys)
    decreases |s|, 3
  {
    ScanOne(lib, s, Count(et), todo, known.Keys);
    if |s| >= 8 {
      var n := FieldValue(s[..8], false);
      if IsSeqType(et) {
        ReadItemsIsScan(lib, s[8..], n, [], known, todo);
        SeqBehind(lib, et, n, s, known, todo);
      } else {
        ReadEntriesIsScan(lib, s[8..], n, et, [], known, todo);
        MapBehind(lib, et, n, s, known, todo);
      }
    }
  }

  lemma SeqBehind(lib: Library, et: nat, n: nat, s: seq<byte>, known: map<nat, Value>, todo: seq<Expect>)
    requires IsSeqType(et) && |s| >= 8 && n == FieldValue(s[..8], false)
    ensures Continue(lib, ReadBody(lib, et, s, known), todo) ==
              if Resizes(et) && n > lib.most(et) then Threw else Continue(lib, ReadItems(lib, s[8..], n, [], known), todo)
  {
  }

  lemma MapBehind(lib: Library, et: nat, n: nat, s: seq<byte>, known: map<nat, Value>, todo: seq<Expect>)
    requires IsMapType(et) && |s| >= 8 && n == FieldValue(s[..8], false)
    ensures Continue(lib, ReadBody(lib, et, s, known), todo) == Continue(lib, ReadEntries(lib, s[8..], n, et, [], known), todo)
  {
  }

  lemma {:induction false} ReadPointeeIsScan(lib: Library, key: nat, s: seq<byte>, known: map<nat, Value>, todo: seq<Expect>)
    ensures Scan(lib, s, [Values(1)] + todo, known.Keys + {key}) == Continue(lib, ReadPointee(lib, key, s, known), todo)
    decreases |s|, 1
  {
    var known1 := known[key := Null(1)];
    assert known1.Keys == known.Keys + {key};
    ReadIsScan(lib, s, known1, todo);
    var o := Read(lib, s, known1);
    KnownGrows(lib, s, known1);
    if o.Done? { assert o.known[key := o.value].Keys == o.known.Keys; }
  }

  lemma {:induction false} ReadItemsIsScan(lib: Library, s: seq<byte>, n: nat, acc: seq<Value>, known: map<nat, Value>, todo: seq<Expect>)
    ensures Scan(lib, s, ValuesOf(n) + todo, known.Keys) == Continue(lib, ReadItems(lib, s, n, acc, known), todo)
    decreases |s|, 2, n
  {
    if n == 0 {
      assert [] + todo == todo;
    } else {
      ScanFirst(lib, s, n, todo, known.Keys);
      ReadIsScan(lib, s, known, ValuesOf(n - 1) + todo);
      ItemsBehindIsScan(lib, Read(lib, s, known), n, acc, todo, |s|);
    }
  }

  /** The other items, when the first of n has been read as o. */
  function ItemsBehind(lib: Library, o: Outcome<Value>, n: pos, acc: seq<Value>): Outcome<seq<Value>> {
    if o.Done? then ReadItems(lib, o.rest, n - 1, acc + [o.value], o.known) else Stopped(o)
  }

  lemma {:induction false} ItemsBehindIsScan(lib: Library, o: Outcome<Value>, n: pos, acc: seq<Value>, todo: seq<Expect>, bound: nat)
    requires o.Done? ==> |o.rest| < bound
    ensures Continue(lib, ItemsBehind(lib, o, n, acc), todo) == Continue(lib, o, ValuesOf(n - 1) + todo)
    decreases bound, 0, 0
  {
    if o.Done? { ReadItemsIsScan(lib, o.rest, n - 1, acc + [o.value], o.known, todo); }
  }

  /** The fields of n entries. */
  function EntryFields(et: nat, n: nat): seq<Expect> {
    if HasStringKeys(et) then EntriesOf(n) else ValuesOf(2 * n)
  }

  /** The entry whose key has been read as k. */
  function EntryBehind(lib: Library, k: Outcome<Value>): Outcome<Entry> {
    if !k.Done? then Stopped(k)
    else
      var o := Read(lib, k.rest, k.known);
      if o.Done? then Done(Entry(k.value, o.value), o.rest, o.known) else Stopped(o)
  }

  lemma {:induction false} EntryBehindIsScan(lib: Library, k: Outcome<Value>, more: seq<Expect>, bound: nat)
    requires k.Done? ==> |k.rest| <= bound
    ensures Continue(lib, EntryBehind(lib, k), more) == Continue(lib, k, [Values(1)] + more)
    decreases bound, 1
  {
    if k.Done? { ReadIsScan(lib, k.rest, k.known, more); }
  }

  lemma StringKeyIsScan(lib: Library, s: seq<byte>, n: pos, et: nat, known: map<nat, Value>, todo: seq<Expect>)
    requires HasStringKeys(et)
    ensures Scan(lib, s, [Entries(n)] + todo, known.Keys) ==
              Continue(lib, ReadKey(lib, et, s, known), [Values(1)] + (EntriesOf(n - 1) + todo))
  {
    ScanString(lib, s, Entries(n), lib.most(2), [Values(1)] + EntriesOf(n - 1), todo, known.Keys);
    Associate([Values(1)], EntriesOf(n - 1), todo);
  }

  lemma ContinueFirst(lib: Library, k: Outcome<Value>, n: pos, todo: seq<Expect>)
    ensures Continue(lib, k, ValuesOf(n) + todo) == Continue(lib, k, [Values(1)] + (ValuesOf(n - 1) + todo))
  {
    if k.Done? { ScanFirst(lib, k.rest, n, todo, k.known.Keys); }
  }

  lemma {:induction false} ValueKeyIsScan(lib: Library, s: seq<byte>, n: pos, et: nat, known: map<nat, Value>, todo: seq<Expect>)
    requires !HasStringKeys(et)
    ensures Scan(lib, s, [Values(2 * n)] + todo, known.Keys) ==
              Continue(lib, ReadKey(lib, et, s, known), [Values(1)] + (ValuesOf(2 * n - 2) + todo))
    decreases |s|, 1
  {
    var k := Read(lib, s, known);
    ScanFirst(lib, s, 2 * n, todo, known.Keys);
    ReadIsScan(lib, s, known, ValuesOf(2 * n - 1) + todo);
    ContinueFirst(lib, k, 2 * n - 1, todo);
  }

  /** The first of n entries is a key and a value, followed by the others. */
  lemma {:induction false} ReadEntryIsScan(lib: Library, s: seq<byte>, n: pos, et: nat, known: map<nat, Value>, todo: seq<Expect>)
    ensures Scan(lib, s, EntryFields(et, n) + todo, known.Keys) ==
              Continue(lib, EntryBehind(lib, ReadKey(lib, et, s, known)), EntryFields(et, n - 1) + todo)
    decreases |s|, 2
  {
    EntryBehindIsScan(lib, ReadKey(lib, et, s, known), EntryFields(et, n - 1) + todo, |s|);
    if HasStringKeys(et) {
      StringKeyIsScan(lib, s, n, et, known, todo);
    } else {
      ValueKeyIsScan(lib, s, n, et, known, todo);
    }
  }

  /** The other entries, when the first of n has been read as e. */
  function EntriesBehind(lib: Library, e: Outcome<Entry>, n: pos, et: nat, acc: seq<Entry>): Outcome<seq<Entry>> {
    if e.Done? then ReadEntries(lib, e.rest, n - 1, et, Insert(lib, et, acc, e.value), e.known) else Stopped(e)
  }

  lemma {:induction false} EntriesBehindIsScan(lib: Library, e: Outcome<Entry>, n: pos, et: nat, acc: seq<Entry>, todo: seq<Expect>, bound: nat)
    requires e.Done? ==> |e.rest| < bound
    ensures Continue(lib, EntriesBehind(lib, e, n, et, acc), todo) == Continue(lib, e, EntryFields(et, n - 1) + todo)
    decreases bound, 0, 0
  {
    if e.Done? { ReadEntriesIsScan(lib, e.rest, n - 1, et, Insert(lib, et, acc, e.value), e.known, todo); }
  }

  lemma EntryIsBehind(lib: Library, s: seq<byte>, et: nat, known: map<nat, Value>)
    ensures ReadEntry(lib, et, s, known) == EntryBehind(lib, ReadKey(lib, et, s, known))
  {
  }

  lemma {:induction false} ReadEntriesIsScan(lib: Library, s: seq<byte>, n: nat, et: nat, acc: seq<Entry>, known: map<nat, Value>,
                                             todo: seq<Expect>)
    ensures Scan(lib, s, EntryFields(et, n) + todo, known.Keys) == Continue(lib, ReadEntries(lib, s, n, et, acc, known), todo)
    decreases |s|, 3, n
  {
    if n == 0 {
      assert [] + todo == todo;
    } else {
      ReadEntryIsScan(lib, s, n, et, known, todo);
      EntryIsBehind(lib, s, et, known);
      EntriesBehindIsScan(lib, ReadEntry(lib, et, s, known), n, et, acc, todo, |s|);
    }
  }

  // ----- data as a row of fields -----

  /** What is expected behind the given fields, unless the last of them ends the reading. */
  datatype Walked = Expects(todo: seq<Expect>) | Ended(next: Next) | Misfit

  function Walk(lib: Library, fields: seq<seq<byte>>, todo: seq<Expect>, keys: set<nat>): Walked {
    if fields == [] then Expects(todo)
    else if todo == [] || |fields[0]| != Width(todo[0]) then Misfit
    else
      var next := After(lib, todo[0], fields[0], keys);
      if next.Go? then Walk(lib, fields[1..], next.todo + todo[1..], next.keys)
      else if |fields| == 1 then Ended(next)
      else Misfit
  }

  /** Nothing more can be taken, of the tail that is left. */
  predicate Final(w: Walked, tail: seq<byte>) {
    w.Ended? || (w.Expects? && (w.todo == [] || |tail| < Width(w.todo[0])))
  }

  function AtEnd(w: Walked, tail: seq<byte>): Scanned
    requires Final(w, tail)
  {
    if w.Ended? then Halt(w.next, tail) else if w.todo == [] then Whole(tail) else Lacking(tail, Width(w.todo[0]))
  }

  lemma {:induction false} ScanOfWalk(lib: Library, fields: seq<seq<byte>>, tail: seq<byte>, todo: seq<Expect>, keys: set<nat>)
    requires Final(Walk(lib, fields, todo, keys), tail)
    ensures Scan(lib, Flatten(fields) + tail, todo, keys) == AtEnd(Walk(lib, fields, todo, keys), tail)
  {
    if fields == [] {
      assert Flatten(fields) + tail == tail;
    } else {
      var s := Flatten(fields) + tail;
      Associate(fields[0], Flatten(fields[1..]), tail);
      assert s[..|fields[0]|] == fields[0] && s[|fields[0]|..] == Flatten(fields[1..]) + tail;
      var next := After(lib, todo[0], fields[0], keys);
      if next.Go? {
        ScanOfWalk(lib, fields[1..], tail, next.todo + todo[1..], next.keys);
      } else {
        assert fields[1..] == [] && Flatten(fields[1..]) + tail == tail;
      }
    }
  }

  /** The fields that a scan takes, and what it leaves. */
  lemma {:induction false} WalkOfScan(lib: Library, s: seq<byte>, todo: seq<Expect>, keys: set<nat>)
    returns (fields: seq<seq<byte>>, tail: seq<byte>)
    ensures Flatten(fields) + tail == s && Final(Walk(lib, fields, todo, keys), tail)
    decreases |s|
  {
    if todo == [] || |s| < Width(todo[0]) {
      assert Flatten<byte>([]) + s == s;
      return [], s;
    }
    var w := Width(todo[0]);
    var next := After(lib, todo[0], s[..w], keys);
    assert s == s[..w] + s[w..];
    if next.Go? {
      var rest, left := WalkOfScan(lib, s[w..], next.todo + todo[1..], next.keys);
      fields, tail := [s[..w]] + rest, left;
      Associate(s[..w], Flatten(rest), left);
      assert fields[1..] == rest;
    } else {
      fields, tail := [s[..w]], s[w..];
      FlattenOne(s[..w]);
    }
  }

  /** The data begins with this row of complete fields, behind which it has this tail. */
  predicate IsRow(lib: Library, data: seq<byte>, fields: seq<seq<byte>>, tail: seq<byte>, w: Walked) {
    Flatten(fields) + tail == data && Walk(lib, fields, [Values(1)], {}) == w
  }

  /** Complete fields that make up one value. */
  ghost predicate IsWhole(lib: Library, data: seq<byte>, tail: seq<byte>) {
    exists fields: seq<seq<byte>> :: IsRow(lib, data, fields, tail, Expects([]))
  }

  /** Complete fields, behind which a further one is expected that is longer than what is left, and is seen to be. */
  ghost predicate IsCutShort(lib: Library, data: seq<byte>, tail: seq<byte>) {
    exists fields: seq<seq<byte>>, e: Expect, todo: seq<Expect> ::
      IsRow(lib, data, fields, tail, Expects([e] + todo)) && |tail| < Int32(Width(e))
  }

  /** Complete fields, of which the last one is no type number, or ends what is no date. */
  ghost predicate EndsWrong(lib: Library, data: seq<byte>, tail: seq<byte>) {
    exists fields: seq<seq<byte>> :: IsRow(lib, data, fields, tail, Ended(Wrong))
  }

  /** Complete fields, behind which so long a string is expected that the cast makes its length look small enough. */
  ghost predicate HasLargeLength(lib: Library, data: seq<byte>) {
    exists fields: seq<seq<byte>>, tail: seq<byte>, e: Expect, todo: seq<Expect> ::
      IsRow(lib, data, fields, tail, Expects([e] + todo)) && Int32(Width(e)) <= |tail| < Width(e)
  }

  /** Complete fields, of which the last one is a length or a count that is too large for its container. */
  ghost predicate HasTooLong(lib: Library, data: seq<byte>) {
    exists fields: seq<seq<byte>>, tail: seq<byte> :: IsRow(lib, data, fields, tail, Ended(TooLong))
  }

  /** Complete fields, of which the last one begins a set or a multiset, or is a time of day beyond a day. */
  ghost predicate HasForeign(lib: Library, data: seq<byte>) {
    exists fields: seq<seq<byte>>, tail: seq<byte> :: IsRow(lib, data, fields, tail, Ended(Foreign))
  }

  /** What reading comes to, in terms of a row of fields. */
  predicate Matches(o: Outcome<Value>, c: Scanned) {
    match o
    case Done(_, rest, _) => c == Whole(rest)
    case Failed(rest) => c == Stuck(rest)
    case Overread => c == Beyond
    case Throws => c == Threw
    case LeftOut => c == Unknown
  }

  lemma RowMatches(lib: Library, data: seq<byte>, fields: seq<seq<byte>>, tail: seq<byte>, w: Walked)
    requires IsRow(lib, data, fields, tail, w) && Final(w, tail)
    ensures Matches(Read(lib, data, map[]), AtEnd(w, tail))
  {
    var keys: set<nat> := {};
    var known: map<nat, Value> := map[];
    var start := [Values(1)];
    assert known.Keys == keys && start + [] == start;
    ReadIsScan(lib, data, known, []);
    ScanOfWalk(lib, fields, tail, start, keys);
  }

  lemma SomeRow(lib: Library, data: seq<byte>) returns (fields: seq<seq<byte>>, tail: seq<byte>, w: Walked)
    ensures IsRow(lib, data, fields, tail, w) && Final(w, tail) && Matches(Read(lib, data, map[]), AtEnd(w, tail))
    ensures w.Expects? && w.todo != [] ==> w.todo == [w.todo[0]] + w.todo[1..]
    ensures w.Ended? ==> !w.next.Go?
  {
    var keys: set<nat> := {};
    fields, tail := WalkOfScan(lib, data, [Values(1)], keys);
    w := Walk(lib, fields, [Values(1)], keys);
    EndedStops(lib, fields, [Values(1)], keys);
    RowMatches(lib, data, fields, tail, w);
  }

  lemma {:induction false} EndedStops(lib: Library, fields: seq<seq<byte>>, todo: seq<Expect>, keys: set<nat>)
    ensures Walk(lib, fields, todo, keys).Ended? ==> !Walk(lib, fields, todo, keys).next.Go?
  {
    if fields != [] && todo != [] && |fields[0]| == Width(todo[0]) {
      var next := After(lib, todo[0], fields[0], keys);
      if next.Go? { EndedStops(lib, fields[1..], next.todo + todo[1..], next.keys); }
    }
  }

  /** Reading any data stays in the buffer if and only if it meets no length that the cast makes small. */
  lemma StaysInBufferIff(lib: Library, data: seq<byte>)
    ensures Read(lib, data, map[]) != Overread <==> !HasLargeLength(lib, data)
  {
    forall fields: seq<seq<byte>>, tail: seq<byte>, e: Expect, todo: seq<Expect> |
      IsRow(lib, data, fields, tail, Expects([e] + todo)) && Int32(Width(e)) <= |tail| < Width(e)
      ensures Read(lib, data, map[]) == Overread
    {
      RowMatches(lib, data, fields, tail, Expects([e] + todo));
    }
    var fields, tail, w := SomeRow(lib, data);
    if Read(lib, data, map[]) == Overread {
      assert IsRow(lib, data, fields, tail, Expects([w.todo[0]] + w.todo[1..]));
    }
  }

  predicate Narrow(todo: seq<Expect>) {
    forall i :: 0 <= i < |todo| ==> Width(todo[i]) < 0x8000_0000
  }

  lemma {:induction false} PlainsNarrow(layout: seq<Field>)
    requires forall i :: 0 <= i < |layout| ==> 0 < layout[i].width <= 8
    ensures Narrow(Plains(layout))
  {
    if layout != [] { PlainsNarrow(layout[1..]); }
  }

  lemma PartsNarrow(et: nat, keys: set<nat>)
    ensures Parts(et, keys).Go? ==> Narrow(Parts(et, keys).todo)
  {
    LayoutNarrow(et);
    PlainsNarrow(Layout(et));
  }

  lemma AfterNarrow(lib: Library, e: Expect, f: seq<byte>, keys: set<nat>)
    requires lib.most(2) < 0x8000_0000 && lib.most(13) < 0x8000_0000 && (e.Length? ==> e.et == 2 || e.et == 13)
    ensures After(lib, e, f, keys).Go? ==> Narrow(After(lib, e, f, keys).todo)
  {
    if e.Values? && FieldValue(f, true) >= 0 { PartsNarrow(FieldValue(f, true), keys); }
  }

  /** Lengths are expected of strings and byte vectors only. */
  predicate Lengths(todo: seq<Expect>) {
    forall i :: 0 <= i < |todo| && todo[i].Length? ==> todo[i].et == 2 || todo[i].et == 13
  }

  lemma {:induction false} PlainsLengths(layout: seq<Field>)
    requires forall i :: 0 <= i < |layout| ==> layout[i].width > 0
    ensures Lengths(Plains(layout))
  {
    if layout != [] { PlainsLengths(layout[1..]); }
  }

  lemma AfterLengths(lib: Library, e: Expect, f: seq<byte>, keys: set<nat>)
    ensures After(lib, e, f, keys).Go? ==> Lengths(After(lib, e, f, keys).todo)
  {
    if e.Values? && FieldValue(f, true) >= 0 { PlainsLengths(Layout(FieldValue(f, true))); }
  }

  lemma {:induction false} WalkNarrow(lib: Library, fields: seq<seq<byte>>, todo: seq<Expect>, keys: set<nat>)
    requires lib.most(2) < 0x8000_0000 && lib.most(13) < 0x8000_0000 && Narrow(todo) && Lengths(todo)
    ensures Walk(lib, fields, todo, keys).Expects? ==> Narrow(Walk(lib, fields, todo, keys).todo)
  {
    if fields != [] && todo != [] && |fields[0]| == Width(todo[0]) {
      AfterNarrow(lib, todo[0], fields[0], keys);
      AfterLengths(lib, todo[0], fields[0], keys);
      var next := After(lib, todo[0], fields[0], keys);
      if next.Go? { WalkNarrow(lib, fields[1..], next.todo + todo[1..], next.keys); }
    }
  }

  /** It stays there when no string or byte vector can be that long. */
  lemma ShortStringsStayInBuffer(lib: Library, data: seq<byte>)
    requires lib.most(2) < 0x8000_0000 && lib.most(13) < 0x8000_0000
    ensures Read(lib, data, map[]) != Overread
  {
    var fields, tail, w := SomeRow(lib, data);
    WalkNarrow(lib, fields, [Values(1)], {});
  }

  /** What reading any data comes to otherwise. */
  lemma ReadOutcomeIff(lib: Library, data: seq<byte>, tail: seq<byte>)
    ensures Read(lib, data, map[]).Done? && Read(lib, data, map[]).rest == tail <==> IsWhole(lib, data, tail)
    ensures Read(lib, data, map[]) == Failed(tail) <==> IsCutShort(lib, data, tail) || EndsWrong(lib, data, tail)
  {
    forall fields: seq<seq<byte>>, w: Walked | IsRow(lib, data, fields, tail, w) && Final(w, tail)
      ensures Matches(Read(lib, data, map[]), AtEnd(w, tail))
    {
      RowMatches(lib, data, fields, tail, w);
    }
    forall fields: seq<seq<byte>>, e: Expect, todo: seq<Expect> |
      IsRow(lib, data, fields, tail, Expects([e] + todo)) && |tail| < Int32(Width(e))
      ensures Read(lib, data, map[]) == Failed(tail)
    {
      RowMatches(lib, data, fields, tail, Expects([e] + todo));
    }
    var fields, left, w := SomeRow(lib, data);
    if w.Expects? && w.todo != [] {
      assert IsRow(lib, data, fields, left, Expects([w.todo[0]] + w.todo[1..]));
    }
  }

  lemma ReadThrowsIff(lib: Library, data: seq<byte>)
    ensures Read(lib, data, map[]) == Throws <==> HasTooLong(lib, data)
    ensures Read(lib, data, map[]) == LeftOut <==> HasForeign(lib, data)
  {
    forall fields: seq<seq<byte>>, tail: seq<byte>, w: Walked | IsRow(lib, data, fields, tail, w) && Final(w, tail)
      ensures Matches(Read(lib, data, map[]), AtEnd(w, tail))
    {
      RowMatches(lib, data, fields, tail, w);
    }
    var fields, tail, w := SomeRow(lib, data);
  }

  /**
    A message is accepted although reading it has failed if and only if its data ends at the end of a field too early, or right
    behind a type number or a date that there is not. It is accepted with a value if and only if its data is that value.
  */
  lemma FailureAcceptedIff(lib: Library, message: seq<byte>, crc: seq<byte> -> word)
    ensures (exists rest :: Deserialize(lib, message, crc) == Some(Failed(rest))) <==>
              HeaderOk(message, crc) && (IsCutShort(lib, message[HEADER..], []) || EndsWrong(lib, message[HEADER..], []))
    ensures (Deserialize(lib, message, crc).Some? && Deserialize(lib, message, crc).value.Done?) <==>
              HeaderOk(message, crc) && IsWhole(lib, message[HEADER..], [])
    ensures Deserialize(lib, message, crc) == Some(Overread) <==> HeaderOk(message, crc) && HasLargeLength(lib, message[HEADER..])
  {
    if HeaderOk(message, crc) {
      var data := message[HEADER..];
      ReadOutcomeIff(lib, data, []);
      StaysInBufferIff(lib, data);
      assert Read(lib, data, map[]) == Failed([]) ==> Deserialize(lib, message, crc) == Some(Failed([]));
    }
  }

  // ----- what has been read, whatever the data -----

  ghost predicate HeldEntries(lib: Library, entries: seq<Entry>) {
    forall i :: 0 <= i < |entries| ==> Held(lib, entries[i].key) && Held(lib, entries[i].value)
  }

  lemma InsertKeepsHeld(lib: Library, et: nat, entries: seq<Entry>, e: Entry)
    requires lib.StrictWeak() && Ordered(lib, et, entries) && HeldEntries(lib, entries) && Held(lib, e.key) && Held(lib, e.value)
    ensures Ordered(lib, et, Insert(lib, et, entries, e)) && HeldEntries(lib, Insert(lib, et, entries, e))
  {
    InsertKeepsOrdered(lib, et, entries, e);
    var r := Insert(lib, et, entries, e);
    forall i | 0 <= i < |r| ensures Held(lib, r[i].key) && Held(lib, r[i].value) {
      assert r[i] in r;
    }
  }

  /** On any data: the maps of what has been read are in order, and no container is larger than it may be. */
  lemma {:induction false} ReadIsHeld(lib: Library, s: seq<byte>, known: map<nat, Value>)
    requires lib.StrictWeak()
    ensures Read(lib, s, known).Done? ==> Held(lib, Read(lib, s, known).value)
    decreases |s|, 0
  {
    if |s| >= 2 && FieldValue(s[..2], true) >= 0 { ReadBodyIsHeld(lib, FieldValue(s[..2], true), s[2..], known); }
  }

  lemma LeafIsHeld(lib: Library, et: nat, s: seq<byte>, known: map<nat, Value>)
    ensures ReadLeaf(lib, et, s, known).Done? ==> Held(lib, ReadLeaf(lib, et, s, known).value)
  {
  }

  lemma {:induction false} ReadBodyIsHeld(lib: Library, et: nat, s: seq<byte>, known: map<nat, Value>)
    requires lib.StrictWeak()
    ensures ReadBody(lib, et, s, known).Done? ==> Held(lib, ReadBody(lib, et, s, known).value)
    decreases |s|, 4
  {
    if IsLeafType(et) {
      LeafIsHeld(lib, et, s, known);
    } else if |s| >= 8 {
      var n := FieldValue(s[..8], false);
      if IsSeqType(et) {
        ReadItemsIsHeld(lib, s[8..], n, [], known);
      } else if IsMapType(et) {
        ReadEntriesIsHeld(lib, s[8..], n, et, [], known);
      }
    }
  }

  lemma {:induction false} ReadItemsIsHeld(lib: Library, s: seq<byte>, n: nat, acc: seq<Value>, known: map<nat, Value>)
    requires lib.StrictWeak() && forall i :: 0 <= i < |acc| ==> Held(lib, acc[i])
    ensures var o := ReadItems(lib, s, n, acc, known);
            o.Done? ==> |o.value| == |acc| + n && forall i :: 0 <= i < |o.value| ==> Held(lib, o.value[i])
    decreases |s|, 3, n
  {
    if n > 0 {
      ReadIsHeld(lib, s, known);
      var o := Read(lib, s, known);
      if o.Done? { ReadItemsIsHeld(lib, o.rest, n - 1, acc + [o.value], o.known); }
    }
  }

  lemma {:induction false} ReadEntryIsHeld(lib: Library, et: nat, s: seq<byte>, known: map<nat, Value>)
    requires lib.StrictWeak()
    ensures var o := ReadEntry(lib, et, s, known); o.Done? ==> Held(lib, o.value.key) && Held(lib, o.value.value)
    decreases |s|, 2
  {
    if !HasStringKeys(et) { ReadIsHeld(lib, s, known); }
    var k := ReadKey(lib, et, s, known);
    if k.Done? { ReadIsHeld(lib, k.rest, k.known); }
  }

  lemma {:induction false} ReadEntriesIsHeld(lib: Library, s: seq<byte>, n: nat, et: nat, acc: seq<Entry>, known: map<nat, Value>)
    requires lib.StrictWeak() && Ordered(lib, et, acc) && HeldEntries(lib, acc)
    ensures var o := ReadEntries(lib, s, n, et, acc, known); o.Done? ==> Ordered(lib, et, o.value) && HeldEntries(lib, o.value)
    decreases |s|, 3, n
  {
    if n > 0 {
      ReadEntryIsHeld(lib, et, s, known);
      var o := ReadEntry(lib, et, s, known);
      if o.Done? {
        InsertKeepsHeld(lib, et, acc, o.value);
        ReadEntriesIsHeld(lib, o.rest, n - 1, et, Insert(lib, et, acc, o.value), o.known);
      }
    }
  }
}
