/** The encodings and the normal newlines, told apart from the code that makes them (section 3 of RFC 3629; utf8proc.cpp). */
module Utf8Standard {
  import opened Basics
  import opened Utf8Codec

  // ----- encodings -----

  /** The code points are the numbers below 0x110000 without the surrogates and without the 66 that are no characters. */
  lemma ValidIs(uc: int)
    ensures Valid(uc) <==>
              && 0 <= uc <= 0x10FFFF && !(0xD800 <= uc <= 0xDFFF) && !(0xFDD0 <= uc <= 0xFDEF)
              && forall plane :: 0 <= plane <= 16 ==> uc != plane * 0x10000 + 0xFFFE && uc != plane * 0x10000 + 0xFFFF
  {
    if 0 <= uc <= 0x10FFFF && uc % 0x10000 >= 0xFFFE {
      var plane := uc / 0x10000;
      assert uc == plane * 0x10000 + 0xFFFE || uc == plane * 0x10000 + 0xFFFF;
    }
  }

  /** The first byte of an encoding of n bytes, with the bits that it carries. */
  predicate Leads(b: byte, n: nat, bits: int) {
    match n
    case 1 => b == bits && 0 <= bits < 0x80
    case 2 => b == 0xC0 + bits && 0 <= bits < 0x20
    case 3 => b == 0xE0 + bits && 0 <= bits < 0x10
    case 4 => b == 0xF0 + bits && 0 <= bits < 0x08
    case _ => false
  }

  predicate Follows(b: byte, bits: int) {
    b == 0x80 + bits && 0 <= bits < 0x40
  }

  /** s is the encoding of uc: as short as can be, six bits in every byte behind the first. */
  ghost predicate IsEncoding(s: seq<byte>, uc: int) {
    || (|s| == 1 && 0 <= uc < 0x80 && Leads(s[0], 1, uc))
    || (|s| == 2 && 0x80 <= uc < 0x800 && exists a, b :: Leads(s[0], 2, a) && Follows(s[1], b) && uc == a * 64 + b)
    || (|s| == 3 && 0x800 <= uc < 0x10000
        && exists a, b, c :: Leads(s[0], 3, a) && Follows(s[1], b) && Follows(s[2], c) && uc == (a * 64 + b) * 64 + c)
    || (|s| == 4 && 0x10000 <= uc < 0x110000
        && exists a, b, c, d ::
             Leads(s[0], 4, a) && Follows(s[1], b) && Follows(s[2], c) && Follows(s[3], d) && uc == ((a * 64 + b) * 64 + c) * 64 + d)
  }

  /** `utf8proc_encode_char` gives the standard encoding of every code point, and one byte, or none, for numbers that are none. */
  lemma EncodeCharIs(uc: int)
    ensures 0 <= uc < 0x110000 && uc != 0xFFFE && uc != 0xFFFF ==> IsEncoding(EncodeChar(uc), uc)
    ensures EncodeChar(0xFFFE) == [0xFE] && EncodeChar(0xFFFF) == [0xFF]
    ensures uc < 0 || uc >= 0x110000 ==> EncodeChar(uc) == []
  {
    if 0 <= uc < 0x110000 && uc != 0xFFFE && uc != 0xFFFF {
      var s := EncodeChar(uc);
      Digits64(uc);
      if 0x80 <= uc < 0x800 {
        assert Leads(s[0], 2, uc / 64) && Follows(s[1], uc % 64);
      } else if 0x800 <= uc < 0x10000 {
        assert Leads(s[0], 3, uc / 4096) && Follows(s[1], uc / 64 % 64) && Follows(s[2], uc % 64);
        assert uc == (uc / 4096 * 64 + uc / 64 % 64) * 64 + uc % 64;
      } else if 0x10000 <= uc {
        var a, b, c, d := uc / 262144, uc / 4096 % 64, uc / 64 % 64, uc % 64;
        assert Leads(s[0], 4, a) && Follows(s[1], b) && Follows(s[2], c) && Follows(s[3], d);
        assert uc == ((a * 64 + b) * 64 + c) * 64 + d;
      }
    }
  }

  /** A word is its four bytes, the lowest first, as a signed number. */
  lemma WordIs(b0: byte, b1: byte, b2: byte, b3: byte)
    ensures -0x8000_0000 <= Word(b0, b1, b2, b3) < 0x8000_0000
    ensures var n: int := b0 as int + 0x100 * (b1 as int) + 0x1_0000 * (b2 as int) + 0x100_0000 * (b3 as int);
            Word(b0, b1, b2, b3) == n || Word(b0, b1, b2, b3) == n - 0x1_0000_0000
  {
  }

  /** No encoding of a code point begins here. */
  ghost predicate NoneBegins(s: seq<byte>) {
    forall uc: int :: Valid(uc) ==> !(EncodeChar(uc) <= s)
  }

  /**
    How a text is taken apart: an encoding that stands in front is taken whole; a byte at which none begins is passed alone, or, where
    invalid bytes are not to be skipped, makes the text fail.
  */
  lemma TakenApart(s: seq<byte>, skipInvalid: bool)
    ensures DecodeAll([], skipInvalid) == Some([])
    ensures forall uc: int :: Valid(uc) && EncodeChar(uc) <= s ==>
              DecodeAll(s, skipInvalid) == Behind([uc], DecodeAll(s[|EncodeChar(uc)|..], skipInvalid))
    ensures s != [] && NoneBegins(s) ==> DecodeAll(s, true) == DecodeAll(s[1..], true) && DecodeAll(s, false).None?
  {
    IterateAcceptsEncodings(s);
    forall uc: int | Valid(uc) && EncodeChar(uc) <= s
      ensures DecodeAll(s, skipInvalid) == Behind([uc], DecodeAll(s[|EncodeChar(uc)|..], skipInvalid))
    {
      var n := |EncodeChar(uc)|;
      assert s == EncodeChar(uc) + s[n..];
      EncodeThenIterate(uc, s[n..]);
    }
  }

  // ----- newlines -----

  /** Behind a, b does not go on with a newline that a has begun. */
  predicate Apart(a: seq<int>, b: seq<int>) {
    a == [] || b == [] || a[|a| - 1] != 0x0D || b[0] != 0x0A
  }

  /** What lies apart is normalized apart. */
  lemma {:induction false} NewlinesApart(a: seq<int>, b: seq<int>, o: NewlineOptions)
    requires Apart(a, b)
    ensures Newlines(a + b, o) == Newlines(a, o) + Newlines(b, o)
    decreases |a|
  {
    if a == [] {
      assert a + b == b;
    } else {
      var k := Skip(a);
      assert (a + b)[0] == a[0] && (|a| > 1 ==> (a + b)[1] == a[1]);
      assert Skip(a + b) == k;
      assert (a + b)[k..] == a[k..] + b;
      assert k < |a| ==> a[k..][|a[k..]| - 1] == a[|a| - 1];
      NewlinesApart(a[k..], b, o);
      Associate(NewlineStep(a[0], o), Newlines(a[k..], o), Newlines(b, o));
    }
  }

  /** The code point that a newline becomes. */
  lemma NewlineIs(o: NewlineOptions)
    ensures !o.nlf2ls && !o.nlf2ps ==> Newline(o) == 0x20
    ensures o.nlf2ls && !o.nlf2ps ==> Newline(o) == 0x2028
    ensures !o.nlf2ls && o.nlf2ps ==> Newline(o) == 0x2029
    ensures o.nlf2ls && o.nlf2ps ==> Newline(o) == 0x0A
  {
  }

  /** LF, CR, CR LF and NEL are one newline each, and, where controls are stripped, so are VT and FF. */
  lemma NewlineBecomes(o: NewlineOptions)
    ensures Newlines([0x0A], o) == Newlines([0x0D], o) == Newlines([0x0D, 0x0A], o) == Newlines([0x85], o) == [Newline(o)]
    ensures o.stripCc ==> Newlines([0x0B], o) == Newlines([0x0C], o) == [Newline(o)]
  {
    forall uc, s: seq<int> | s == [uc] ensures Newlines(s, o) == NewlineStep(uc, o) { OneBecomes(uc, o); }
    assert [0x0D, 0x0A][2..] == [];
    assert Newlines([0x0D, 0x0A], o) == NewlineStep(0x0D, o) + Newlines([], o);
  }

  lemma OneBecomes(uc: int, o: NewlineOptions)
    ensures Newlines([uc], o) == NewlineStep(uc, o)
  {
    assert [uc][1..] == [];
    assert NewlineStep(uc, o) + [] == NewlineStep(uc, o);
  }

  /** Where controls are stripped a tab becomes a space, and the other controls go; every other code point stays. */
  lemma OthersBecome(uc: int, o: NewlineOptions)
    requires uc !in {0x0A, 0x0D, 0x85} && (o.stripCc ==> uc != 0x0B && uc != 0x0C)
    ensures Newlines([uc], o) ==
              if !o.stripCc || 0x20 <= uc < 0x7F || uc >= 0xA0 then [uc] else if uc == 0x09 then [0x20] else []
  {
    OneBecomes(uc, o);
  }

  /** So a text without newlines and controls stays as it is. */
  lemma {:induction false} PlainTextStays(s: seq<int>, o: NewlineOptions)
    requires forall i :: 0 <= i < |s| ==> s[i] !in {0x0A, 0x0D, 0x85} && (0x20 <= s[i] < 0x7F || s[i] >= 0xA0)
    ensures Newlines(s, o) == s
  {
    if s != [] {
      assert s == [s[0]] + s[1..];
      NewlinesApart([s[0]], s[1..], o);
      OthersBecome(s[0], o);
      PlainTextStays(s[1..], o);
    }
  }
}
