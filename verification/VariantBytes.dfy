/** How numbers and bit sets lie in the bytes of a serialized variant (variantSerialization.cpp). */
module VariantBytes {
  import opened Basics

  function Power(b: nat, n: nat): (r: nat)
    ensures b > 0 ==> r > 0
  {
    if n == 0 then 1 else b * Power(b, n - 1)
  }

  /** The number's w low bytes, the lowest first. */
  function Little(n: nat, w: nat): (r: seq<byte>)
    ensures |r| == w
  {
    if w == 0 then [] else [n % 256] + Little(n / 256, w - 1)
  }

  function LittleValue(s: seq<byte>): nat {
    if s == [] then 0 else s[0] + 256 * LittleValue(s[1..])
  }

  lemma {:induction false} LittleRoundTrip(n: nat, w: nat)
    requires n < Power(256, w)
    ensures LittleValue(Little(n, w)) == n
  {
    if w > 0 {
      LittleRoundTrip(n / 256, w - 1);
      assert Little(n, w)[1..] == Little(n / 256, w - 1);
    }
  }

  /** Byte i counts 256^i. */
  lemma {:induction false} LittleAt(n: nat, w: nat, i: nat)
    requires i < w
    ensures Little(n, w)[i] == n / Power(256, i) % 256
  {
    if i > 0 {
      LittleAt(n / 256, w - 1, i - 1);
      DivideTwice(n, 256, Power(256, i - 1));
    }
  }

  /** Every row of bytes is that of its value. */
  lemma {:induction false} LittleOfValue(s: seq<byte>)
    ensures Little(LittleValue(s), |s|) == s
  {
    if s != [] {
      LittleOfValue(s[1..]);
      assert s == [s[0]] + s[1..];
    }
  }

  lemma {:induction false} Power256Even(w: nat)
    requires w > 0
    ensures Power(256, w) % 2 == 0
  {
    if w > 1 { Power256Even(w - 1); }
  }

  // ----- fields of a fixed width -----

  datatype Field = Field(width: nat, signed: bool)

  predicate InField(n: int, f: Field) {
    if f.signed then -(Power(256, f.width) / 2) <= n < Power(256, f.width) / 2 else 0 <= n < Power(256, f.width)
  }

  function FieldBytes(n: int, f: Field): (r: seq<byte>)
    requires InField(n, f)
    ensures |r| == f.width
  {
    Little(if n < 0 then n + Power(256, f.width) else n, f.width)
  }

  function FieldValue(s: seq<byte>, signed: bool): (r: int)
    ensures !signed ==> r >= 0
  {
    var n := LittleValue(s);
    if signed && n >= Power(256, |s|) / 2 then n - Power(256, |s|) else n
  }

  lemma FieldRoundTrip(n: int, f: Field)
    requires f.width > 0 && InField(n, f)
    ensures FieldValue(FieldBytes(n, f), f.signed) == n
  {
    Power256Even(f.width);
    LittleRoundTrip(if n < 0 then n + Power(256, f.width) else n, f.width);
  }

  /** Negative numbers are written in two's complement. */
  lemma FieldIsComplement(n: int, f: Field)
    requires f.width > 0 && InField(n, f)
    ensures LittleValue(FieldBytes(n, f)) == if n < 0 then n + Power(256, f.width) else n
  {
    Power256Even(f.width);
    LittleRoundTrip(if n < 0 then n + Power(256, f.width) else n, f.width);
  }

  function FieldsBytes(ns: seq<int>, layout: seq<Field>): seq<byte>
    requires |ns| == |layout| && forall i :: 0 <= i < |ns| ==> InField(ns[i], layout[i])
  {
    if ns == [] then [] else FieldBytes(ns[0], layout[0]) + FieldsBytes(ns[1..], layout[1..])
  }

  /** What taking from the buffer comes to; `Overrun` is a read behind its end, `TooLarge` the exception of a container. */
  datatype Taken<+T> = Got(value: T, rest: seq<byte>) | Short(rest: seq<byte>) | Overrun | TooLarge

  /** `readIntegral` */
  function TakeField(s: seq<byte>, f: Field): (r: Taken<int>)
    ensures r.Got? && !f.signed ==> r.value >= 0
    ensures r.Got? || r.Short?
  {
    if |s| < f.width then Short(s) else Got(FieldValue(s[..f.width], f.signed), s[f.width..])
  }

  function TakeFields(s: seq<byte>, layout: seq<Field>, acc: seq<int>): (r: Taken<seq<int>>)
    ensures (r.Got? || r.Short?) && |r.rest| <= |s| && (r.Got? ==> |r.value| == |acc| + |layout|)
    decreases layout
  {
    if layout == [] then Got(acc, s)
    else
      match TakeField(s, layout[0])
      case Got(n, rest) => TakeFields(rest, layout[1..], acc + [n])
      case Short(rest) => Short(rest)
  }

  lemma {:induction false} FieldsLength(ns: seq<int>, layout: seq<Field>)
    requires |ns| == |layout| && forall i :: 0 <= i < |ns| ==> layout[i].width > 0 && InField(ns[i], layout[i])
    ensures |FieldsBytes(ns, layout)| >= |layout|
  {
    if ns != [] { FieldsLength(ns[1..], layout[1..]); }
  }

  lemma TakeFieldBack(n: int, f: Field, rest: seq<byte>)
    requires f.width > 0 && InField(n, f)
    ensures TakeField(FieldBytes(n, f) + rest, f) == Got(n, rest)
  {
    FieldRoundTrip(n, f);
    var s := FieldBytes(n, f) + rest;
    assert s[..f.width] == FieldBytes(n, f) && s[f.width..] == rest;
  }

  lemma {:induction false} TakeFieldsBack(ns: seq<int>, layout: seq<Field>, acc: seq<int>, rest: seq<byte>)
    requires |ns| == |layout| && forall i :: 0 <= i < |ns| ==> layout[i].width > 0 && InField(ns[i], layout[i])
    ensures TakeFields(FieldsBytes(ns, layout) + rest, layout, acc) == Got(acc + ns, rest)
    decreases |ns|
  {
    if ns == [] {
      assert acc + ns == acc && FieldsBytes(ns, layout) + rest == rest;
    } else {
      var more := FieldsBytes(ns[1..], layout[1..]) + rest;
      Associate(FieldBytes(ns[0], layout[0]), FieldsBytes(ns[1..], layout[1..]), rest);
      TakeFieldBack(ns[0], layout[0], more);
      TakeFieldsBack(ns[1..], layout[1..], acc + [ns[0]], rest);
      Associate(acc, [ns[0]], ns[1..]);
      assert [ns[0]] + ns[1..] == ns;
    }
  }

  // ----- strings -----

  const SIZE: Field := Field(8, false)

  predicate FitsSize(n: nat) {
    n < Power(256, 8)
  }

  function StringBytes(s: seq<byte>): seq<byte>
    requires FitsSize(|s|)
  {
    FieldBytes(|s|, SIZE) + s
  }

  /** The cast of a size to int. */
  function Int32(n: nat): (r: int)
    ensures r <= n && (n < 0x8000_0000 ==> r == n)
  {
    (n + 0x8000_0000) % 0x1_0000_0000 - 0x8000_0000
  }

  /** The cast keeps the low 32 bits, the highest of which is the sign. */
  lemma Int32Is(n: nat)
    ensures Int32(n) % 0x1_0000_0000 == n % 0x1_0000_0000 && -0x8000_0000 <= Int32(n) < 0x8000_0000
  {
  }

  /** `readBinary`; a size that is larger than what is left passes the test when the cast makes it small. */
  function TakeBinary(s: seq<byte>, n: nat): (r: Taken<seq<byte>>)
    ensures n <= |s| ==> r == Got(s[..n], s[n..])
    ensures !r.TooLarge?
  {
    if |s| < Int32(n) then Short(s) else if |s| < n then Overrun else Got(s[..n], s[n..])
  }

  /** A string or a byte vector, which takes at most `most` bytes. */
  function TakeString(most: nat, s: seq<byte>): (r: Taken<seq<byte>>)
    ensures r.Got? || r.Short? ==> |r.rest| <= |s|
  {
    match TakeField(s, SIZE)
    case Short(rest) => Short(rest)
    case Got(n, rest) => if n > most then TooLarge else TakeBinary(rest, n)
  }

  lemma TakeStringBack(most: nat, s: seq<byte>, rest: seq<byte>)
    requires FitsSize(|s|) && |s| <= most
    ensures TakeString(most, StringBytes(s) + rest) == Got(s, rest)
  {
    assert StringBytes(s) + rest == FieldBytes(|s|, SIZE) + (s + rest);
    TakeFieldBack(|s|, SIZE, s + rest);
    assert (s + rest)[..|s|] == s && (s + rest)[|s|..] == rest;
  }

  // ----- bit sets -----

  /** The number whose binary digits are the bits, the lowest first. */
  function BitsValue(bits: seq<bool>): nat {
    if bits == [] then 0 else (if bits[0] then 1 else 0) + 2 * BitsValue(bits[1..])
  }

  lemma {:induction false} BitsValueBound(bits: seq<bool>)
    ensures BitsValue(bits) < Power(2, |bits|)
  {
    if bits != [] { BitsValueBound(bits[1..]); }
  }

  /** `n & (1 << i)` */
  predicate Bit(n: nat, i: nat) {
    if i == 0 then n % 2 == 1 else Bit(n / 2, i - 1)
  }

  lemma {:induction false} BitIs(n: nat, i: nat)
    ensures Bit(n, i) <==> n / Power(2, i) % 2 == 1
  {
    if i > 0 {
      BitIs(n / 2, i - 1);
      DivideTwice(n, 2, Power(2, i - 1));
    } else {
      Quotient(n, 1, n, 0);
    }
  }

  lemma {:induction false} BitOfBits(bits: seq<bool>, i: nat)
    requires i < |bits|
    ensures Bit(BitsValue(bits), i) == bits[i]
  {
    if i > 0 {
      assert BitsValue(bits) / 2 == BitsValue(bits[1..]);
      BitOfBits(bits[1..], i - 1);
    }
  }

  /** Byte k of a bit set. */
  function ByteOfBits(bits: seq<bool>, k: nat): byte
    requires 8 * k + 8 <= |bits|
  {
    BitsValueBound(bits[8 * k..8 * k + 8]);
    assert Power(2, 4) == 16 && Power(2, 8) == 256;
    BitsValue(bits[8 * k..8 * k + 8])
  }

  function BitsetBytes(bits: seq<bool>): (r: seq<byte>)
    requires |bits| % 8 == 0
    ensures |r| == |bits| / 8
  {
    seq(|bits| / 8, k requires 0 <= k < |bits| / 8 => ByteOfBits(bits, k))
  }

  function BytesBitset(s: seq<byte>): (r: seq<bool>)
    ensures |r| == 8 * |s|
  {
    seq(8 * |s|, i requires 0 <= i < 8 * |s| => Bit(s[i / 8], i % 8))
  }

  lemma BitsetRoundTrip(bits: seq<bool>)
    requires |bits| % 8 == 0
    ensures BytesBitset(BitsetBytes(bits)) == bits
    ensures forall i :: 0 <= i < |bits| ==> Bit(BitsetBytes(bits)[i / 8], i % 8) == bits[i]
  {
    forall i | 0 <= i < |bits| ensures Bit(BitsetBytes(bits)[i / 8], i % 8) == bits[i] {
      var k := i / 8;
      BitOfBits(bits[8 * k..8 * k + 8], i % 8);
    }
  }
}
