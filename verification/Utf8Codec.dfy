/** UTF-8 in both directions, and re-encoding in place (utf8proc.cpp): section 3 of RFC 3629. */
module Utf8Codec {
  import opened Basics

  /** `utf8proc_codepoint_valid`: no surrogates and no noncharacters. */
  predicate Valid(uc: int) {
    && 0 <= uc < 0x110000 && uc % 0x10000 < 0xFFFE
    && !(0xD800 <= uc < 0xE000) && !(0xFDD0 <= uc < 0xFDF0)
  }

  /** `utf8proc_encode_char`; numbers that are no code points have no bytes, and two noncharacters have one byte each. */
  function EncodeChar(uc: int): (r: seq<byte>)
    ensures |r| <= 4
  {
    if uc < 0 then []
    else if uc < 0x80 then [uc]
    else if uc < 0x800 then [0xC0 + uc / 64, 0x80 + uc % 64]
    else if uc == 0xFFFF then [0xFF]
    else if uc == 0xFFFE then [0xFE]
    else if uc < 0x10000 then [0xE0 + uc / 4096, 0x80 + uc / 64 % 64, 0x80 + uc % 64]
    else if uc < 0x110000 then [0xF0 + uc / 262144, 0x80 + uc / 4096 % 64, 0x80 + uc / 64 % 64, 0x80 + uc % 64]
    else []
  }

  function Encodings(cs: seq<int>): seq<seq<byte>> {
    seq(|cs|, i requires 0 <= i < |cs| => EncodeChar(cs[i]))
  }

  function EncodeAll(cs: seq<int>): seq<byte> {
    Flatten(Encodings(cs))
  }

  /** `utf8proc_utf8class`: the length that the first byte announces, 0 for one that cannot be first. */
  function Utf8Class(b: byte): (n: nat)
    ensures n <= 4
  {
    if b < 0x80 then 1 else if b < 0xC0 then 0 else if b < 0xE0 then 2 else if b < 0xF0 then 3 else if b < 0xF8 then 4 else 0
  }

  predicate Continuation(b: byte) {
    b / 64 == 2
  }

  /** What the bits of n bytes come to, if they may. */
  function Assemble(s: seq<byte>): (uc: int)
    requires 1 <= |s| <= 4
  {
    if |s| == 1 then s[0] else if |s| == 2 then Assemble2(s[0], s[1])
    else if |s| == 3 then Assemble3(s[0], s[1], s[2]) else Assemble4(s[0], s[1], s[2], s[3])
  }

  function Assemble2(b0: int, b1: int): int {
    var uc := b0 % 32 * 64 + b1 % 64;
    if uc < 0x80 then -1 else uc
  }

  function Assemble3(b0: int, b1: int, b2: int): int {
    var uc := b0 % 16 * 4096 + b1 % 64 * 64 + b2 % 64;
    if uc < 0x800 || 0xD800 <= uc < 0xE000 || 0xFDD0 <= uc < 0xFDF0 then -1 else uc
  }

  function Assemble4(b0: int, b1: int, b2: int, b3: int): int {
    var uc := b0 % 8 * 262144 + b1 % 64 * 4096 + b2 % 64 * 64 + b3 % 64;
    if uc < 0x10000 || uc >= 0x110000 then -1 else uc
  }

  /** What one character comes to; `Outside` is a read beyond the memory there is. */
  datatype Iterated = AtEnd | Invalid | Outside | Char(uc: int, length: nat)

  /** `utf8proc_iterate` on a buffer of a given length */
  function Iterate(s: seq<byte>): (r: Iterated)
    ensures r.Char? ==> 1 <= r.length <= |s|
  {
    if s == [] then AtEnd
    else
      var n := Utf8Class(s[0]);
      if n == 0 || n > |s| || exists i :: 1 <= i < n && !Continuation(s[i]) then Invalid
      else
        var uc := Assemble(s[..n]);
        if uc < 0 || uc % 0x10000 >= 0xFFFE then Invalid else Char(uc, n)
  }

  /** `utf8proc_iterate` with a negative length, in the memory m from the character on: nothing stops it but the bytes themselves. */
  function IterateOpen(m: seq<byte>): (r: Iterated)
    ensures r.Char? ==> 1 <= r.length <= |m|
    ensures !r.AtEnd?
  {
    if m == [] then Outside
    else
      var n := Utf8Class(m[0]);
      if n == 0 || exists i :: 1 <= i < n && i < |m| && !Continuation(m[i]) then Invalid
      else if n > |m| then Outside
      else
        var uc := Assemble(m[..n]);
        if uc < 0 || uc % 0x10000 >= 0xFFFE then Invalid else Char(uc, n)
  }

  lemma Digits64(n: nat)
    ensures n == n / 64 * 64 + n % 64
    ensures n / 4096 == n / 64 / 64 && n / 262144 == n / 4096 / 64
    ensures n == n / 4096 * 4096 + n / 64 % 64 * 64 + n % 64
    ensures n == n / 262144 * 262144 + n / 4096 % 64 * 4096 + n / 64 % 64 * 64 + n % 64
  {
  }

  lemma Quotients(n: nat)
    ensures n / 4096 == n / 64 / 64 && n / 262144 == n / 64 / 64 / 64
  {
  }

  /** The marker bits go away again. */
  lemma Markers(b: nat)
    ensures b < 32 ==> (0xC0 + b) % 32 == b && Utf8Class(0xC0 + b) == 2
    ensures b < 16 ==> (0xE0 + b) % 16 == b && Utf8Class(0xE0 + b) == 3
    ensures b < 8 ==> (0xF0 + b) % 8 == b && Utf8Class(0xF0 + b) == 4
    ensures b < 64 ==> (0x80 + b) % 64 == b && Continuation(0x80 + b)
  {
  }

  lemma AssembleEncoded2(uc: int)
    requires Valid(uc) && 0x80 <= uc < 0x800
    ensures Assemble2(0xC0 + uc / 64, 0x80 + uc % 64) == uc
  {
    Digits64(uc);
    Markers(uc / 64);
    Markers(uc % 64);
  }

  lemma AssembleEncoded3(uc: int)
    requires Valid(uc) && 0x800 <= uc < 0x10000
    ensures Assemble3(0xE0 + uc / 4096, 0x80 + uc / 64 % 64, 0x80 + uc % 64) == uc
  {
    Digits64(uc);
    Markers(uc / 4096);
    Markers(uc / 64 % 64);
    Markers(uc % 64);
  }

  lemma AssembleEncoded4(uc: int)
    requires Valid(uc) && 0x10000 <= uc
    ensures Assemble4(0xF0 + uc / 262144, 0x80 + uc / 4096 % 64, 0x80 + uc / 64 % 64, 0x80 + uc % 64) == uc
  {
    Digits64(uc);
    Markers(uc / 262144);
    Markers(uc / 4096 % 64);
    Markers(uc / 64 % 64);
    Markers(uc % 64);
  }

  /** The shape of an encoding: its first byte announces its length, and the others are continuation bytes. */
  lemma EncodedShape(uc: int)
    requires Valid(uc)
    ensures var s := EncodeChar(uc);
            s != [] && Utf8Class(s[0]) == |s| && forall i :: 1 <= i < |s| ==> Continuation(s[i])
  {
    Markers(uc % 64);
    Markers(uc / 64 % 64);
    Markers(uc / 4096 % 64);
  }

  lemma AssembleEncoded(uc: int)
    requires Valid(uc)
    ensures EncodeChar(uc) != [] && Assemble(EncodeChar(uc)) == uc
  {
    if 0x80 <= uc < 0x800 {
      AssembleEncoded2(uc);
    } else if 0x800 <= uc < 0x10000 {
      AssembleEncoded3(uc);
    } else if 0x10000 <= uc {
      AssembleEncoded4(uc);
    }
  }

  /** The encoding of a valid code point is taken back, whatever stands behind it. */
  lemma EncodeThenIterate(uc: int, rest: seq<byte>)
    requires Valid(uc)
    ensures Iterate(EncodeChar(uc) + rest) == Char(uc, |EncodeChar(uc)|)
  {
    var s := EncodeChar(uc) + rest;
    AssembleEncoded(uc);
    EncodedShape(uc);
    assert s[..|EncodeChar(uc)|] == EncodeChar(uc);
    assert forall i :: 0 <= i < |EncodeChar(uc)| ==> s[i] == EncodeChar(uc)[i];
  }

  lemma DivMod64(h: nat, l: nat)
    requires l < 64
    ensures (h * 64 + l) / 64 == h && (h * 64 + l) % 64 == l
  {
  }

  /** The digits of a number in base 64. */
  lemma ThreeDigits(a: nat, b: nat, c: nat)
    requires b < 64 && c < 64
    ensures var n := a * 4096 + b * 64 + c; n / 4096 == a && n / 64 % 64 == b && n % 64 == c
  {
    var n := (a * 64 + b) * 64 + c;
    DivMod64(a * 64 + b, c);
    DivMod64(a, b);
    Quotients(n);
    assert n == a * 4096 + b * 64 + c;
  }

  lemma FourDigits(a: nat, b: nat, c: nat, d: nat)
    requires b < 64 && c < 64 && d < 64
    ensures var n := a * 262144 + b * 4096 + c * 64 + d;
            n / 262144 == a && n / 4096 % 64 == b && n / 64 % 64 == c && n % 64 == d
  {
    var n := (a * 4096 + b * 64 + c) * 64 + d;
    DivMod64(a * 4096 + b * 64 + c, d);
    ThreeDigits(a, b, c);
    DivMod64(a, b);
    assert a * 4096 + b * 64 + c == (a * 64 + b) * 64 + c;
    DivMod64(a * 64 + b, c);
    Quotients(n);
    assert n == a * 262144 + b * 4096 + c * 64 + d;
  }

  lemma EncodeAssembled2(b0: byte, b1: byte)
    requires Utf8Class(b0) == 2 && Continuation(b1) && Assemble2(b0, b1) >= 0
    ensures Valid(Assemble2(b0, b1)) && EncodeChar(Assemble2(b0, b1)) == [b0, b1]
  {
    DivMod64(b0 - 0xC0, b1 - 0x80);
  }

  lemma EncodeAssembled3(b0: byte, b1: byte, b2: byte)
    requires Utf8Class(b0) == 3 && Continuation(b1) && Continuation(b2)
    requires Assemble3(b0, b1, b2) >= 0 && Assemble3(b0, b1, b2) % 0x10000 < 0xFFFE
    ensures Valid(Assemble3(b0, b1, b2)) && EncodeChar(Assemble3(b0, b1, b2)) == [b0, b1, b2]
  {
    ThreeDigits(b0 - 0xE0, b1 - 0x80, b2 - 0x80);
    assert Assemble3(b0, b1, b2) == (b0 - 0xE0) * 4096 + (b1 - 0x80) * 64 + (b2 - 0x80);
  }

  lemma EncodeDigits4(a: nat, b: nat, c: nat, d: nat)
    requires a < 8 && b < 64 && c < 64 && d < 64
    requires 0x10000 <= a * 262144 + b * 4096 + c * 64 + d < 0x110000
    ensures EncodeChar(a * 262144 + b * 4096 + c * 64 + d) == [0xF0 + a, 0x80 + b, 0x80 + c, 0x80 + d]
  {
    FourDigits(a, b, c, d);
  }

  lemma AssembledDigits4(b0: byte, b1: byte, b2: byte, b3: byte)
    requires Utf8Class(b0) == 4 && Continuation(b1) && Continuation(b2) && Continuation(b3)
    ensures b0 % 8 == b0 - 0xF0 && b1 % 64 == b1 - 0x80 && b2 % 64 == b2 - 0x80 && b3 % 64 == b3 - 0x80
  {
  }

  lemma EncodeAssembled4(b0: byte, b1: byte, b2: byte, b3: byte)
    requires Utf8Class(b0) == 4 && Continuation(b1) && Continuation(b2) && Continuation(b3)
    requires Assemble4(b0, b1, b2, b3) >= 0 && Assemble4(b0, b1, b2, b3) % 0x10000 < 0xFFFE
    ensures Valid(Assemble4(b0, b1, b2, b3)) && EncodeChar(Assemble4(b0, b1, b2, b3)) == [b0, b1, b2, b3]
  {
    AssembledDigits4(b0, b1, b2, b3);
    EncodeDigits4(b0 - 0xF0, b1 - 0x80, b2 - 0x80, b3 - 0x80);
  }

  /** What is accepted is the encoding of a valid code point: nothing overlong, no surrogate, no noncharacter. */
  lemma IterateThenEncode(s: seq<byte>)
    requires Iterate(s).Char?
    ensures Valid(Iterate(s).uc) && s[..Iterate(s).length] == EncodeChar(Iterate(s).uc)
  {
    var n := Iterate(s).length;
    if n == 1 {
      assert s[..1] == [s[0]];
    } else if n == 2 {
      assert s[..2] == [s[0], s[1]] && Continuation(s[1]);
      EncodeAssembled2(s[0], s[1]);
    } else if n == 3 {
      assert s[..3] == [s[0], s[1], s[2]] && Continuation(s[1]) && Continuation(s[2]);
      EncodeAssembled3(s[0], s[1], s[2]);
    } else {
      assert s[..4] == [s[0], s[1], s[2], s[3]] && Continuation(s[1]) && Continuation(s[2]) && Continuation(s[3]);
      EncodeAssembled4(s[0], s[1], s[2], s[3]);
    }
  }

  /** Iterating accepts exactly what begins with the encoding of a valid code point. */
  lemma IterateAcceptsEncodings(s: seq<byte>)
    ensures Iterate(s).Char? <==> exists uc :: Valid(uc) && EncodeChar(uc) <= s
  {
    if Iterate(s).Char? {
      IterateThenEncode(s);
    }
    forall uc | Valid(uc) && EncodeChar(uc) <= s ensures Iterate(s).Char? {
      assert s == EncodeChar(uc) + s[|EncodeChar(uc)|..];
      EncodeThenIterate(uc, s[|EncodeChar(uc)|..]);
    }
  }

  // ----- whole texts -----

  /** Code points read before the rest. */
  function Behind(cs: seq<int>, rest: Option<seq<int>>): Option<seq<int>> {
    if rest.None? then None else Some(cs + rest.value)
  }

  /** A text taken apart: an invalid byte is skipped or makes it fail. */
  function DecodeAll(s: seq<byte>, skipInvalid: bool): Option<seq<int>> {
    match Iterate(s)
    case Invalid => if skipInvalid then DecodeAll(s[1..], skipInvalid) else None
    case Char(uc, n) => Behind([uc], DecodeAll(s[n..], skipInvalid))
    case _ => Some([])
  }

  predicate AllValid(cs: seq<int>) {
    forall i :: 0 <= i < |cs| ==> Valid(cs[i])
  }

  lemma EncodeAllCons(c: int, cs: seq<int>)
    ensures EncodeAll([c] + cs) == EncodeChar(c) + EncodeAll(cs)
  {
    var ps := Encodings([c] + cs);
    assert ps[0] == EncodeChar(c) && ps[1..] == Encodings(cs);
  }

  lemma EncodeAllSnoc(cs: seq<int>, c: int)
    ensures EncodeAll(cs + [c]) == EncodeAll(cs) + EncodeChar(c)
  {
    assert Encodings(cs + [c]) == Encodings(cs) + [EncodeChar(c)];
    FlattenAppend(Encodings(cs), [EncodeChar(c)]);
    FlattenOne(EncodeChar(c));
  }

  lemma DecodeNext(bytes: seq<byte>, rest: seq<byte>, c: int, skipInvalid: bool)
    requires Iterate(bytes + rest) == Char(c, |bytes|) && DecodeAll(rest, skipInvalid).Some?
    ensures DecodeAll(bytes + rest, skipInvalid) == Some([c] + DecodeAll(rest, skipInvalid).value)
  {
    assert (bytes + rest)[|bytes|..] == rest;
  }

  lemma {:induction false} TextRoundTrip(cs: seq<int>, skipInvalid: bool)
    requires AllValid(cs)
    ensures DecodeAll(EncodeAll(cs), skipInvalid) == Some(cs)
  {
    if cs != [] {
      var c, rest := cs[0], cs[1..];
      assert cs == [c] + rest;
      EncodeAllCons(c, rest);
      EncodeThenIterate(c, EncodeAll(rest));
      TextRoundTrip(rest, skipInvalid);
      DecodeNext(EncodeChar(c), EncodeAll(rest), c, skipInvalid);
    }
  }

  lemma EncodedJoin(s: seq<byte>, n: nat, c: int, cs: seq<int>)
    requires n <= |s| && s[..n] == EncodeChar(c) && EncodeAll(cs) == s[n..] && Valid(c) && AllValid(cs)
    ensures EncodeAll([c] + cs) == s && AllValid([c] + cs)
  {
    EncodeAllCons(c, cs);
    assert s == s[..n] + s[n..];
  }

  /** A text is decoded without an error only when it encodes valid code points, and these are the result. */
  lemma {:induction false} DecodeAllEncodes(s: seq<byte>)
    ensures DecodeAll(s, false).Some? ==> AllValid(DecodeAll(s, false).value) && EncodeAll(DecodeAll(s, false).value) == s
  {
    if Iterate(s).Char? {
      var c, n := Iterate(s).uc, Iterate(s).length;
      var rest := DecodeAll(s[n..], false);
      DecodeAllEncodes(s[n..]);
      if rest.Some? {
        IterateThenEncode(s);
        EncodedJoin(s, n, c, rest.value);
        assert DecodeAll(s, false) == Some([c] + rest.value);
      }
    }
  }

  // ----- the reading loop, which does not tell `utf8proc_iterate` where the text ends -----

  datatype Decoded = Text(cs: seq<int>) | Error | Overread

  function Before(uc: int, d: Decoded): Decoded {
    if d.Text? then Text([uc] + d.cs) else d
  }

  /** Characters lie in the memory they have been read from. */
  predicate Proper(its: seq<Iterated>) {
    forall p :: 0 <= p < |its| ==> !its[p].AtEnd? && (its[p].Char? ==> 1 <= its[p].length <= |its| - p)
  }

  /** The loop of `utf8proc_decompose` over a text of n bytes, from position p on, when its[q] is what is read at position q. */
  function DecodeReads(its: seq<Iterated>, n: nat, p: nat, skipInvalid: bool): Decoded
    requires Proper(its) && n <= |its|
    decreases |its| - p
  {
    if p >= n then Text([])
    else
      match its[p]
      case Invalid => if skipInvalid then DecodeReads(its, n, p + 1, skipInvalid) else Error
      case Char(uc, k) => Before(uc, DecodeReads(its, n, p + k, skipInvalid))
      case _ => Overread
  }

  /** What `it` reads at each position. */
  function Reads(it: seq<byte> -> Iterated, m: seq<byte>): (r: seq<Iterated>)
    ensures |r| == |m|
  {
    if m == [] then [] else [it(m)] + Reads(it, m[1..])
  }

  lemma {:induction false} ReadAt(it: seq<byte> -> Iterated, m: seq<byte>, p: nat)
    requires p < |m|
    ensures Reads(it, m)[p] == it(m[p..])
  {
    if p == 0 {
      assert m[0..] == m;
    } else {
      ReadAt(it, m[1..], p - 1);
      assert m[1..][p - 1..] == m[p..];
    }
  }

  function OpenReads(m: seq<byte>): (r: seq<Iterated>)
    ensures |r| == |m|
  {
    Reads(IterateOpen, m)
  }

  lemma OpenReadsProper(m: seq<byte>)
    ensures Proper(OpenReads(m))
  {
    forall p | 0 <= p < |m| ensures OpenReads(m)[p] == IterateOpen(m[p..]) { ReadAt(IterateOpen, m, p); }
  }

  /** The loop over a text of n bytes at the start of memory m. */
  function DecodeMemory(m: seq<byte>, n: nat, skipInvalid: bool): Decoded
    requires n <= |m|
  {
    OpenReadsProper(m);
    DecodeReads(OpenReads(m), n, 0, skipInvalid)
  }

  /** What the loop should come to. */
  function Expected(d: Option<seq<int>>): Decoded {
    if d.Some? then Text(d.value) else Error
  }

  /** The character at position q of a text of n bytes is read on into what lies behind the text. */
  predicate ReadsOn(its: seq<Iterated>, n: nat, q: nat) {
    q < n <= |its| && (its[q].Outside? || (its[q].Char? && q + its[q].length > n))
  }

  /** From position p the loop comes to such a character. */
  ghost predicate Overruns(its: seq<Iterated>, n: nat, p: nat, skipInvalid: bool)
    requires Proper(its)
  {
    exists q: nat {:trigger ReadsOn(its, n, q)} ::
      p <= q && ReadsOn(its, n, q) && (skipInvalid || DecodeReads(its, q, p, false).Text?)
  }

  /** The same text when its length is known: a character that would be read on is invalid, and so is what follows of it. */
  ghost predicate CutOff(its: seq<Iterated>, closed: seq<Iterated>, n: nat) {
    && |closed| == n <= |its| && Proper(its)
    && (forall q: nat :: q < n && !ReadsOn(its, n, q) ==> closed[q] == its[q])
    && (forall q: nat, r: nat :: ReadsOn(its, n, q) && q <= r < n ==> closed[r] == Invalid)
  }

  /** Inside a character none begins. */
  ghost predicate Separate(its: seq<Iterated>, n: nat) {
    forall p: nat, q: nat :: p < q < |its| && its[p].Char? && q < p + its[p].length ==> !ReadsOn(its, n, q)
  }

  lemma CutOffProper(its: seq<Iterated>, closed: seq<Iterated>, n: nat)
    requires CutOff(its, closed, n)
    ensures Proper(closed)
  {
    forall p: nat | p < n ensures closed[p] == (if ReadsOn(its, n, p) then Invalid else its[p]) { }
  }

  lemma {:induction false} InvalidRest(closed: seq<Iterated>, p: nat)
    requires Proper(closed) && p <= |closed| && forall r :: p <= r < |closed| ==> closed[r] == Invalid
    ensures DecodeReads(closed, |closed|, p, true) == Text([])
    decreases |closed| - p
  {
    if p < |closed| { InvalidRest(closed, p + 1); }
  }

  lemma OverrunsStep(its: seq<Iterated>, n: nat, p: nat, skipInvalid: bool)
    requires Proper(its) && Separate(its, n) && p < n <= |its| && !ReadsOn(its, n, p)
    ensures its[p].Char? ==> (Overruns(its, n, p, skipInvalid) <==> Overruns(its, n, p + its[p].length, skipInvalid))
    ensures its[p].Invalid? && skipInvalid ==> (Overruns(its, n, p, true) <==> Overruns(its, n, p + 1, true))
    ensures its[p].Invalid? && !skipInvalid ==> !Overruns(its, n, p, false)
  {
    if its[p].Char? {
      forall q: nat | p <= q && ReadsOn(its, n, q)
        ensures p + its[p].length <= q
        ensures DecodeReads(its, q, p, false).Text? <==> DecodeReads(its, q, p + its[p].length, false).Text?
      {
      }
    }
  }

  lemma BeforeInjective(uc: int, d: Decoded, e: Decoded)
    ensures Before(uc, d) == Before(uc, e) <==> d == e
  {
    if d.Text? && e.Text? {
      assert ([uc] + d.cs)[1..] == d.cs && ([uc] + e.cs)[1..] == e.cs;
    }
  }

  lemma {:induction false} OverrunsIff(its: seq<Iterated>, closed: seq<Iterated>, n: nat, p: nat, skipInvalid: bool)
    requires CutOff(its, closed, n) && Separate(its, n) && Proper(closed) && p <= n
    ensures DecodeReads(its, n, p, skipInvalid) == DecodeReads(closed, n, p, skipInvalid) <==> !Overruns(its, n, p, skipInvalid)
    decreases n - p
  {
    if ReadsOn(its, n, p) {
      assert closed[p] == Invalid;
      InvalidRest(closed, p);
      assert DecodeReads(its, p, p, false).Text?;
    } else if p < n {
      assert closed[p] == its[p];
      OverrunsStep(its, n, p, skipInvalid);
      match its[p]
      case Char(uc, k) =>
        OverrunsIff(its, closed, n, p + k, skipInvalid);
        BeforeInjective(uc, DecodeReads(its, n, p + k, skipInvalid), DecodeReads(closed, n, p + k, skipInvalid));
      case Invalid =>
        if skipInvalid { OverrunsIff(its, closed, n, p + 1, skipInvalid); }
      case _ =>
    }
  }

  function ClosedReads(s: seq<byte>): (r: seq<Iterated>)
    ensures |r| == |s|
  {
    Reads(Iterate, s)
  }

  lemma ExpectedBehind(uc: int, d: Option<seq<int>>)
    ensures Before(uc, Expected(d)) == Expected(Behind([uc], d))
  {
  }

  /** Taking a text apart is the same loop over reads that know its length. */
  lemma {:induction false} DecodeAllIsLoop(s: seq<byte>, p: nat, skipInvalid: bool)
    requires p <= |s| && Proper(ClosedReads(s))
    ensures DecodeReads(ClosedReads(s), |s|, p, skipInvalid) == Expected(DecodeAll(s[p..], skipInvalid))
    decreases |s| - p
  {
    if p < |s| {
      var it := Iterate(s[p..]);
      ReadAt(Iterate, s, p);
      if it.Char? {
        DecodeAllIsLoop(s, p + it.length, skipInvalid);
        assert s[p..][it.length..] == s[p + it.length..];
        ExpectedBehind(it.uc, DecodeAll(s[p + it.length..], skipInvalid));
      } else if skipInvalid {
        DecodeAllIsLoop(s, p + 1, skipInvalid);
        assert s[p..][1..] == s[p + 1..];
      }
    }
  }

  /** Away from the end of the text the length makes no difference. */
  lemma OpenIsClosed(open: seq<byte>, k: nat)
    requires 0 < k <= |open| && !IterateOpen(open).Outside? && (IterateOpen(open).Char? ==> IterateOpen(open).length <= k)
    ensures Iterate(open[..k]) == IterateOpen(open)
  {
    var n := Utf8Class(open[0]);
    if n <= k { assert open[..k][..n] == open[..n]; }
  }

  /** A character that is read on has only continuation bytes behind its first one. */
  lemma OpenShape(open: seq<byte>, k: nat)
    requires 0 < k <= |open| && (IterateOpen(open).Outside? || (IterateOpen(open).Char? && IterateOpen(open).length > k))
    ensures Utf8Class(open[0]) > k && forall i :: 1 <= i <= k && i < |open| ==> Continuation(open[i])
  {
  }

  lemma ReadOnShape(m: seq<byte>, n: nat, q: nat)
    requires n <= |m| && ReadsOn(OpenReads(m), n, q)
    ensures Utf8Class(m[q]) > n - q && forall i :: q < i <= n && i < |m| ==> Continuation(m[i])
  {
    ReadAt(IterateOpen, m, q);
    OpenShape(m[q..], n - q);
    forall i | q < i <= n && i < |m| ensures Continuation(m[i]) { assert m[q..][i - q] == m[i]; }
  }

  lemma ContinuationIsInvalid(s: seq<byte>)
    requires s != [] && Continuation(s[0])
    ensures Iterate(s) == Invalid && IterateOpen(s) == Invalid
  {
  }

  /** `closed` is `open` with the end of the text known. */
  ghost predicate Cuts(open: seq<byte> -> Iterated, closed: seq<byte> -> Iterated) {
    forall s: seq<byte>, k: nat {:trigger Cut(open, closed, s, k)} :: 0 < k <= |s| ==> Cut(open, closed, s, k)
  }

  ghost predicate Cut(open: seq<byte> -> Iterated, closed: seq<byte> -> Iterated, s: seq<byte>, k: nat)
    requires 0 < k <= |s|
  {
    if open(s).Outside? || (open(s).Char? && open(s).length > k) then forall r :: 0 <= r < k ==> closed(s[..k][r..]) == Invalid
    else closed(s[..k]) == open(s)
  }

  lemma CutAt(open: seq<byte> -> Iterated, closed: seq<byte> -> Iterated, m: seq<byte>, n: nat, q: nat)
    requires Cuts(open, closed) && q < n <= |m|
    ensures if ReadsOn(Reads(open, m), n, q) then forall r :: q <= r < n ==> Reads(closed, m[..n])[r] == Invalid
            else Reads(closed, m[..n])[q] == Reads(open, m)[q]
  {
    var s, k := m[q..], n - q;
    assert Cut(open, closed, s, k);
    ReadAt(open, m, q);
    forall r | q <= r < n ensures Reads(closed, m[..n])[r] == closed(s[..k][r - q..]) {
      ReadAt(closed, m[..n], r);
      assert m[..n][r..] == s[..k][r - q..];
    }
    assert s[..k][0..] == s[..k];
  }

  lemma ReadsAreCutOff(open: seq<byte> -> Iterated, closed: seq<byte> -> Iterated, m: seq<byte>, n: nat)
    requires Cuts(open, closed) && n <= |m| && Proper(Reads(open, m))
    ensures CutOff(Reads(open, m), Reads(closed, m[..n]), n)
  {
    var its, cut := Reads(open, m), Reads(closed, m[..n]);
    forall q: nat | q < n && !ReadsOn(its, n, q) ensures cut[q] == its[q] { CutAt(open, closed, m, n, q); }
    forall q: nat, r: nat | ReadsOn(its, n, q) && q <= r < n ensures cut[r] == Invalid { CutAt(open, closed, m, n, q); }
  }

  lemma IterateCuts()
    ensures Cuts(IterateOpen, Iterate)
  {
    forall s: seq<byte>, k: nat | 0 < k <= |s| ensures Cut(IterateOpen, Iterate, s, k) {
      if IterateOpen(s).Outside? || (IterateOpen(s).Char? && IterateOpen(s).length > k) {
        OpenShape(s, k);
        forall r | 0 <= r < k ensures Iterate(s[..k][r..]) == Invalid {
          assert s[..k][r..][0] == s[r];
          if r > 0 { ContinuationIsInvalid(s[..k][r..]); }
        }
      } else {
        OpenIsClosed(s, k);
      }
    }
  }

  lemma MemoryIsCutOff(m: seq<byte>, n: nat)
    requires n <= |m|
    ensures CutOff(OpenReads(m), ClosedReads(m[..n]), n)
  {
    OpenReadsProper(m);
    IterateCuts();
    ReadsAreCutOff(IterateOpen, Iterate, m, n);
  }

  lemma InsideIsInvalid(s: seq<byte>, r: nat)
    requires IterateOpen(s).Char? && 0 < r < IterateOpen(s).length
    ensures IterateOpen(s[r..]) == Invalid
  {
    assert s[r..][0] == s[r];
    ContinuationIsInvalid(s[r..]);
  }

  lemma MemoryIsSeparate(m: seq<byte>, n: nat)
    ensures Separate(OpenReads(m), n)
  {
    var its := OpenReads(m);
    forall p: nat, q: nat | p < q < |its| && its[p].Char? && q < p + its[p].length ensures !ReadsOn(its, n, q) {
      ReadAt(IterateOpen, m, p);
      ReadAt(IterateOpen, m, q);
      InsideIsInvalid(m[p..], q - p);
      assert m[p..][q - p..] == m[q..];
    }
  }

  ghost predicate MemoryOverruns(m: seq<byte>, n: nat, skipInvalid: bool) {
    OpenReadsProper(m);
    Overruns(OpenReads(m), n, 0, skipInvalid)
  }

  /**
    The loop takes the text apart as it should if and only if it comes to no character that begins in the text and is completed
    by the bytes behind it, or by bytes that do not exist.
  */
  lemma DecodeMemoryIff(m: seq<byte>, n: nat, skipInvalid: bool)
    requires n <= |m|
    ensures DecodeMemory(m, n, skipInvalid) == Expected(DecodeAll(m[..n], skipInvalid)) <==>
              !MemoryOverruns(m, n, skipInvalid)
  {
    MemoryIsCutOff(m, n);
    MemoryIsSeparate(m, n);
    CutOffProper(OpenReads(m), ClosedReads(m[..n]), n);
    OverrunsIff(OpenReads(m), ClosedReads(m[..n]), n, 0, skipInvalid);
    DecodeAllIsLoop(m[..n], 0, skipInvalid);
    assert m[..n][0..] == m[..n];
  }

  /** It is enough that the byte behind the text is there and continues no character, like a terminator. */
  lemma TerminatedIsDecoded(m: seq<byte>, n: nat, skipInvalid: bool)
    requires n < |m| && !Continuation(m[n])
    ensures DecodeMemory(m, n, skipInvalid) == Expected(DecodeAll(m[..n], skipInvalid))
  {
    NothingReadsOn(m, n);
    DecodeMemoryIff(m, n, skipInvalid);
  }

  lemma NothingReadsOn(m: seq<byte>, n: nat)
    requires n < |m| && !Continuation(m[n])
    ensures forall q: nat :: !ReadsOn(OpenReads(m), n, q)
  {
    forall q: nat ensures !ReadsOn(OpenReads(m), n, q) {
      if ReadsOn(OpenReads(m), n, q) { ReadOnShape(m, n, q); }
    }
  }

  /** Without it a truncated character is completed: a text of one byte is read as two. */
  lemma TruncatedIsCompleted(skipInvalid: bool)
    ensures DecodeMemory([0xC3, 0xA9], 1, skipInvalid) == Text([0xE9])
    ensures DecodeAll([0xC3], skipInvalid) == (if skipInvalid then Some([]) else None)
  {
    var m: seq<byte> := [0xC3, 0xA9];
    assert m[0..] == m && Continuation(m[1]) && Utf8Class(m[0]) == 2;
    assert m[..2] == m && Assemble(m) == 0xE9;
    assert IterateOpen(m) == Char(0xE9, 2);
    ReadAt(IterateOpen, m, 0);
    OpenReadsProper(m);
    assert DecodeReads(OpenReads(m), 1, 2, skipInvalid) == Text([]);
    var s: seq<byte> := [0xC3];
    assert Iterate(s).Invalid? && s[1..] == [];
    assert DecodeAll([], skipInvalid) == Some([]);
  }

  // What follows does not depend on what the encodings are, only on the reads recognizing them.

  function EncodeWith(enc: int -> seq<byte>, cs: seq<int>): seq<byte> {
    if cs == [] then [] else enc(cs[0]) + EncodeWith(enc, cs[1..])
  }

  lemma {:induction false} EncodeAllWith(cs: seq<int>)
    ensures EncodeAll(cs) == EncodeWith(EncodeChar, cs)
  {
    if cs != [] {
      assert cs == [cs[0]] + cs[1..];
      EncodeAllCons(cs[0], cs[1..]);
      EncodeAllWith(cs[1..]);
    }
  }

  /** Characters are encodings of code points that `ok` admits. */
  ghost predicate AreEncodings(enc: int -> seq<byte>, ok: int -> bool, its: seq<Iterated>, m: seq<byte>) {
    && |its| == |m| && Proper(its)
    && forall p {:trigger its[p]} :: 0 <= p < |its| && its[p].Char? ==>
         ok(its[p].uc) && its[p].length <= 4 && m[p..p + its[p].length] == enc(its[p].uc)
  }

  /** What has been read encodes code points, up to the end of the text or of a character that was read on. */
  ghost predicate Took(enc: int -> seq<byte>, ok: int -> bool, its: seq<Iterated>, m: seq<byte>, n: nat, p: nat, cs: seq<int>)
    requires Proper(its)
  {
    var end := p + |EncodeWith(enc, cs)|;
    && (forall i :: 0 <= i < |cs| ==> ok(cs[i]))
    && n <= end <= n + 3 && end <= |m| && EncodeWith(enc, cs) == m[p..end]
    && (end == n <==> !Overruns(its, n, p, false))
  }

  lemma TookChar(enc: int -> seq<byte>, ok: int -> bool, its: seq<Iterated>, m: seq<byte>, n: nat, p: nat, cs: seq<int>)
    requires AreEncodings(enc, ok, its, m) && Separate(its, n) && p < n <= |m| && its[p].Char? && p + its[p].length <= n
    requires Took(enc, ok, its, m, n, p + its[p].length, cs)
    ensures Took(enc, ok, its, m, n, p, [its[p].uc] + cs)
  {
    var k, all := its[p].length, [its[p].uc] + cs;
    var end := p + k + |EncodeWith(enc, cs)|;
    OverrunsStep(its, n, p, false);
    assert all[1..] == cs;
    assert m[p..end] == m[p..p + k] + m[p + k..end];
  }

  lemma TookLast(enc: int -> seq<byte>, ok: int -> bool, its: seq<Iterated>, m: seq<byte>, n: nat, p: nat)
    requires AreEncodings(enc, ok, its, m) && p < n <= |m| && its[p].Char? && p + its[p].length > n
    ensures Took(enc, ok, its, m, n, p, [its[p].uc])
  {
    assert ReadsOn(its, n, p) && DecodeReads(its, p, p, false).Text?;
    assert EncodeWith(enc, [its[p].uc]) == enc(its[p].uc) + EncodeWith(enc, []);
  }

  lemma {:induction false} DecodedReadsEncode(enc: int -> seq<byte>, ok: int -> bool, its: seq<Iterated>, m: seq<byte>, n: nat, p: nat)
    requires AreEncodings(enc, ok, its, m) && Separate(its, n) && p <= n <= |m| && DecodeReads(its, n, p, false).Text?
    ensures Took(enc, ok, its, m, n, p, DecodeReads(its, n, p, false).cs)
    decreases n - p
  {
    if p < n {
      var k := its[p].length;
      var cs := DecodeReads(its, n, p + k, false).cs;
      assert DecodeReads(its, n, p, false).cs == [its[p].uc] + cs;
      if p + k <= n {
        DecodedReadsEncode(enc, ok, its, m, n, p + k);
        TookChar(enc, ok, its, m, n, p, cs);
      } else {
        TookLast(enc, ok, its, m, n, p);
        assert [its[p].uc] + cs == [its[p].uc];
      }
    }
  }

  predicate Stands(enc: int -> seq<byte>, c: int, m: seq<byte>, p: nat) {
    p < |m| && enc(c) <= m[p..]
  }

  /** Encodings are recognized where they stand. */
  ghost predicate Recognizes(enc: int -> seq<byte>, ok: int -> bool, its: seq<Iterated>, m: seq<byte>) {
    && |its| == |m| && Proper(its)
    && forall p: nat, c {:trigger Stands(enc, c, m, p)} :: Stands(enc, c, m, p) && ok(c) ==> enc(c) != [] && its[p] == Char(c, |enc(c)|)
  }

  lemma FirstIsRead(enc: int -> seq<byte>, ok: int -> bool, its: seq<Iterated>, m: seq<byte>, n: nat, p: nat, c: int, rest: seq<int>)
    requires Recognizes(enc, ok, its, m) && ok(c) && enc(c) != []
    requires p <= n <= |m| && m[p..n] == enc(c) + EncodeWith(enc, rest)
    ensures p + |enc(c)| <= n && its[p] == Char(c, |enc(c)|) && m[p + |enc(c)|..n] == EncodeWith(enc, rest)
  {
    var k := |enc(c)|;
    assert m[p..][..k] == m[p..n][..k] == enc(c);
    assert Stands(enc, c, m, p);
    assert m[p + k..n] == m[p..n][k..] == EncodeWith(enc, rest);
  }

  lemma {:induction false} EncodingsAreRead(enc: int -> seq<byte>, ok: int -> bool, its: seq<Iterated>, m: seq<byte>, n: nat, p: nat,
                                            cs: seq<int>, skipInvalid: bool)
    requires Recognizes(enc, ok, its, m) && (forall i :: 0 <= i < |cs| ==> ok(cs[i]) && enc(cs[i]) != [])
    requires p <= n <= |m| && m[p..n] == EncodeWith(enc, cs)
    ensures DecodeReads(its, n, p, skipInvalid) == Text(cs)
    decreases |cs|
  {
    if cs != [] {
      var c, rest := cs[0], cs[1..];
      FirstIsRead(enc, ok, its, m, n, p, c, rest);
      EncodingsAreRead(enc, ok, its, m, n, p + |enc(c)|, rest, skipInvalid);
      assert cs == [c] + rest;
    }
  }

  // Now for the encodings that there are.

  lemma ReadsAreEncodings(m: seq<byte>)
    ensures AreEncodings(EncodeChar, Valid, OpenReads(m), m)
  {
    var its := OpenReads(m);
    OpenReadsProper(m);
    forall p {:trigger its[p]} | 0 <= p < |its| && its[p].Char?
      ensures Valid(its[p].uc) && its[p].length <= 4 && m[p..p + its[p].length] == EncodeChar(its[p].uc)
    {
      ReadAt(IterateOpen, m, p);
      OpenThenEncode(m[p..]);
      assert m[p..][..its[p].length] == m[p..p + its[p].length];
    }
  }

  lemma OpenThenEncode(m: seq<byte>)
    requires IterateOpen(m).Char?
    ensures Valid(IterateOpen(m).uc) && m[..IterateOpen(m).length] == EncodeChar(IterateOpen(m).uc)
    ensures IterateOpen(m).length <= 4
  {
    assert Iterate(m) == IterateOpen(m);
    IterateThenEncode(m);
  }

  lemma EncodedIsRead(s: seq<byte>, c: int)
    requires Valid(c) && EncodeChar(c) <= s
    ensures EncodeChar(c) != [] && IterateOpen(s) == Char(c, |EncodeChar(c)|)
  {
    EncodedShape(c);
    assert s == EncodeChar(c) + s[|EncodeChar(c)|..];
    EncodeThenIterate(c, s[|EncodeChar(c)|..]);
    assert IterateOpen(s) == Iterate(s);
  }

  lemma EncodingsAreRecognized(m: seq<byte>)
    ensures Recognizes(EncodeChar, Valid, OpenReads(m), m)
  {
    OpenReadsProper(m);
    forall p: nat, c {:trigger Stands(EncodeChar, c, m, p)} | Stands(EncodeChar, c, m, p) && Valid(c)
      ensures EncodeChar(c) != [] && OpenReads(m)[p] == Char(c, |EncodeChar(c)|)
    {
      ReadAt(IterateOpen, m, p);
      EncodedIsRead(m[p..], c);
    }
  }

  /**
    What the loop has read without an error encodes its result, valid code points. This is the text, or up to three bytes more
    when the last character is completed by what lies behind.
  */
  lemma DecodedTextEncodes(m: seq<byte>, n: nat)
    requires n <= |m| && DecodeMemory(m, n, false).Text?
    ensures var cs := DecodeMemory(m, n, false).cs; var end := |EncodeAll(cs)|;
            && AllValid(cs) && n <= end <= n + 3 && end <= |m| && EncodeAll(cs) == m[..end]
            && (end == n <==> !MemoryOverruns(m, n, false))
  {
    ReadsAreEncodings(m);
    MemoryIsSeparate(m, n);
    DecodedReadsEncode(EncodeChar, Valid, OpenReads(m), m, n, 0);
    EncodeAllWith(DecodeMemory(m, n, false).cs);
  }

  /** The encoding of any valid code points is taken back, whatever lies behind it in memory. */
  lemma MemoryRoundTrip(cs: seq<int>, behind: seq<byte>, skipInvalid: bool)
    requires AllValid(cs)
    ensures DecodeMemory(EncodeAll(cs) + behind, |EncodeAll(cs)|, skipInvalid) == Text(cs)
  {
    var m := EncodeAll(cs) + behind;
    EncodeAllWith(cs);
    EncodingsAreRecognized(m);
    assert m[0..|EncodeAll(cs)|] == EncodeWith(EncodeChar, cs);
    forall i | 0 <= i < |cs| ensures EncodeChar(cs[i]) != [] { EncodedShape(cs[i]); }
    EncodingsAreRead(EncodeChar, Valid, OpenReads(m), m, |EncodeAll(cs)|, 0, cs, skipInvalid);
  }

  /** The same loop for a text that ends at the first zero. */
  function DecodeToZero(its: seq<Iterated>, p: nat, skipInvalid: bool): Decoded
    requires Proper(its)
    decreases |its| - p
  {
    if p >= |its| then Overread
    else
      match its[p]
      case Invalid => if skipInvalid then DecodeToZero(its, p + 1, skipInvalid) else Error
      case Char(uc, k) => if uc == 0 then Text([]) else Before(uc, DecodeToZero(its, p + k, skipInvalid))
      case _ => Overread
  }

  lemma {:induction false} ZeroEndsReads(its: seq<Iterated>, n: nat, p: nat, skipInvalid: bool)
    requires Proper(its) && p <= n < |its| && its[n] == Char(0, 1)
    requires forall q: nat :: q < n ==> !ReadsOn(its, n, q) && its[q] != Char(0, 1) && (its[q].Char? && its[q].uc == 0 ==> its[q].length == 1)
    ensures DecodeToZero(its, p, skipInvalid) == DecodeReads(its, n, p, skipInvalid)
    decreases n - p
  {
    if p < n {
      assert !ReadsOn(its, n, p);
      match its[p]
      case Char(uc, k) => ZeroEndsReads(its, n, p + k, skipInvalid);
      case Invalid => ZeroEndsReads(its, n, p + 1, skipInvalid);
      case _ =>
    }
  }

  /** A text that ends at the first zero is always taken apart as it should. */
  lemma ZeroEndsText(m: seq<byte>, n: nat, skipInvalid: bool)
    requires n < |m| && m[n] == 0 && forall i :: 0 <= i < n ==> m[i] != 0
    ensures Proper(OpenReads(m)) && DecodeToZero(OpenReads(m), 0, skipInvalid) == Expected(DecodeAll(m[..n], skipInvalid))
  {
    var its := OpenReads(m);
    NothingReadsOn(m, n);
    ReadsAreEncodings(m);
    assert its[n] == Char(0, 1) by {
      ReadAt(IterateOpen, m, n);
      assert m[n..][..1] == [0];
    }
    forall q: nat | q < n && its[q].Char? ensures its[q].uc != 0 {
      assert m[q..q + its[q].length][0] == m[q];
    }
    ZeroEndsReads(its, n, 0, skipInvalid);
    TerminatedIsDecoded(m, n, skipInvalid);
  }

  /** `utf8proc_iterate` with its loop over the continuation bytes; `str` is the memory from the character on */
  method IterateLoop(str: seq<byte>, strlen: int) returns (r: Iterated)
    requires strlen <= |str|
    ensures r == if strlen >= 0 then Iterate(str[..strlen]) else IterateOpen(str)
  {
    if strlen == 0 {
      return AtEnd;
    }
    if str == [] {
      return Outside;
    }
    var length := Utf8Class(str[0]);
    if length == 0 {
      return Invalid;
    }
    if strlen >= 0 && length > strlen {
      return Invalid;
    }
    for i := 1 to length
      invariant i <= |str| && forall k :: 1 <= k < i ==> Continuation(str[k])
    {
      if i >= |str| {
        return Outside;
      }
      if !Continuation(str[i]) {
        assert strlen >= 0 ==> str[..strlen][i] == str[i];
        return Invalid;
      }
    }
    assert strlen >= 0 ==> str[..strlen][..length] == str[..length];
    var uc := Assemble(str[..length]);
    r := if uc < 0 || uc % 0x10000 >= 0xFFFE then Invalid else Char(uc, length);
  }

  /** Code points that have been read before the rest. */
  function AfterReading(cs: seq<int>, d: Decoded): Decoded {
    if d.Text? then Text(cs + d.cs) else d
  }

  lemma AfterOneMore(cs: seq<int>, c: int, d: Decoded)
    ensures AfterReading(cs, Before(c, d)) == AfterReading(cs + [c], d)
  {
    if d.Text? { Associate(cs, [c], d.cs); }
  }

  /** The reading loop, as a loop. */
  method DecodeLoop(str: seq<byte>, strlen: nat, skipInvalid: bool) returns (r: Decoded)
    requires strlen <= |str|
    ensures r == DecodeMemory(str, strlen, skipInvalid)
  {
    ghost var its := OpenReads(str);
    OpenReadsProper(str);
    var rpos := 0;
    var cs: seq<int> := [];
    assert forall xs: seq<int> :: [] + xs == xs;
    while rpos < strlen
      invariant rpos <= |str|
      invariant DecodeReads(its, strlen, 0, skipInvalid) == AfterReading(cs, DecodeReads(its, strlen, rpos, skipInvalid))
      decreases |str| - rpos
    {
      var it := IterateLoop(str[rpos..], -1);
      ReadAt(IterateOpen, str, rpos);
      match it
      case Invalid =>
        if !skipInvalid {
          return Error;
        }
        rpos := rpos + 1;
      case Char(uc, n) =>
        AfterOneMore(cs, uc, DecodeReads(its, strlen, rpos + n, skipInvalid));
        rpos := rpos + n;
        cs := cs + [uc];
      case _ =>
        return Overread;
    }
    assert cs + [] == cs;
    r := Text(cs);
  }

  // ----- re-encoding in place -----

  /** A 32 bit word, the lowest byte first. */
  function Word(b0: byte, b1: byte, b2: byte, b3: byte): int {
    var n: int := b0 as int + 256 * (b1 as int) + 65536 * (b2 as int) + 16777216 * (b3 as int);
    if n < 0x8000_0000 then n else n - 0x1_0000_0000
  }

  function Words(m: seq<byte>, n: nat): (r: seq<int>)
    requires 4 * n <= |m|
    ensures |r| == n
  {
    seq(n, i requires 0 <= i < n => Word(m[4 * i], m[4 * i + 1], m[4 * i + 2], m[4 * i + 3]))
  }

  /** `utf8proc_encode_char` into memory */
  method EncodeAt(mem: array<byte>, wpos: nat, uc: int) returns (n: nat)
    requires wpos + 4 <= mem.Length
    modifies mem
    ensures n == |EncodeChar(uc)|
    ensures mem[..wpos + n] == old(mem[..wpos]) + EncodeChar(uc) && mem[wpos + n..] == old(mem[wpos + n..])
  {
    var bytes := EncodeChar(uc);
    n := |bytes|;
    forall k | 0 <= k < n {
      mem[wpos + k] := bytes[k];
    }
  }

  /**
    The last loop of `utf8proc_reencode`: the words of a buffer become bytes in the same memory. What is written never reaches a
    word that has not been read, and the terminator fits into the one spare byte.
  */
  method Reencode(mem: array<byte>, length: nat) returns (wpos: nat)
    requires mem.Length == 4 * length + 1
    modifies mem
    ensures wpos <= 4 * length && mem[..wpos] == EncodeAll(Words(old(mem[..]), length)) && mem[wpos] == 0
  {
    ghost var was := mem[..];
    ghost var words := Words(was, length);
    wpos := 0;
    for rpos := 0 to length
      invariant wpos <= 4 * rpos && mem[..wpos] == EncodeAll(words[..rpos])
      invariant mem[4 * rpos..] == was[4 * rpos..]
    {
      var uc := Word(mem[4 * rpos], mem[4 * rpos + 1], mem[4 * rpos + 2], mem[4 * rpos + 3]);
      UnreadWord(mem[..], was, rpos, length);
      EncodeAllSnoc(words[..rpos], uc);
      assert words[..rpos + 1] == words[..rpos] + [uc];
      ghost var before := mem[..];
      var n := EncodeAt(mem, wpos, uc);
      UnreadRest(mem[..], before, wpos + n, 4 * (rpos + 1));
      UnreadRest(before, was, 4 * rpos, 4 * (rpos + 1));
      wpos := wpos + n;
    }
    assert words[..length] == words;
    mem[wpos] := 0;
  }

  lemma UnreadWord(m: seq<byte>, was: seq<byte>, i: nat, n: nat)
    requires i < n && 4 * n <= |m| == |was| && m[4 * i..] == was[4 * i..]
    ensures Word(m[4 * i], m[4 * i + 1], m[4 * i + 2], m[4 * i + 3]) == Words(was, n)[i]
  {
    assert forall k :: 0 <= k < 4 ==> m[4 * i..][k] == m[4 * i + k] && was[4 * i..][k] == was[4 * i + k];
    assert m[4 * i..][0] == m[4 * i] && m[4 * i..][1] == m[4 * i + 1] && m[4 * i..][2] == m[4 * i + 2] && m[4 * i..][3] == m[4 * i + 3];
  }

  lemma UnreadRest<T>(m: seq<T>, was: seq<T>, i: nat, j: nat)
    requires i <= j <= |m| == |was| && m[i..] == was[i..]
    ensures m[j..] == was[j..]
  {
    assert m[j..] == m[i..][j - i..] && was[j..] == was[i..][j - i..];
  }

  // ----- newlines and control characters -----

  datatype NewlineOptions = NewlineOptions(nlf2ls: bool, nlf2ps: bool, stripCc: bool)

  function Newline(o: NewlineOptions): int {
    if o.nlf2ls then (if o.nlf2ps then 0x0A else 0x2028) else if o.nlf2ps then 0x2029 else 0x20
  }

  predicate IsNewline(uc: int, o: NewlineOptions) {
    uc == 0x0A || uc == 0x0D || uc == 0x85 || (o.stripCc && (uc == 0x0B || uc == 0x0C))
  }

  predicate IsControl(uc: int) {
    uc < 0x20 || 0x7F <= uc < 0xA0
  }

  /** What one code point becomes. */
  function NewlineStep(uc: int, o: NewlineOptions): seq<int> {
    if IsNewline(uc, o) then [Newline(o)]
    else if o.stripCc && IsControl(uc) then (if uc == 9 then [0x20] else [])
    else [uc]
  }

  /** CR LF is one newline. */
  function Skip(s: seq<int>): nat
    requires s != []
  {
    if s[0] == 0x0D && |s| > 1 && s[1] == 0x0A then 2 else 1
  }

  function Newlines(s: seq<int>, o: NewlineOptions): seq<int> {
    if s == [] then [] else NewlineStep(s[0], o) + Newlines(s[Skip(s)..], o)
  }

  method WriteNewlineStep(buffer: array<int>, at: nat, uc: int, o: NewlineOptions) returns (wpos: nat)
    requires at < buffer.Length
    modifies buffer
    ensures at <= wpos <= at + 1 && buffer[..wpos] == old(buffer[..at]) + NewlineStep(uc, o)
    ensures buffer[at + 1..] == old(buffer[at + 1..])
  {
    wpos := at;
    if IsNewline(uc, o) {
      buffer[wpos] := Newline(o);
      wpos := wpos + 1;
    } else if o.stripCc && IsControl(uc) {
      if uc == 9 {
        buffer[wpos] := 0x20;
        wpos := wpos + 1;
      }
    } else {
      buffer[wpos] := uc;
      wpos := wpos + 1;
    }
  }

  /** The first loop of `utf8proc_reencode`, in place. */
  method NormalizeNewlines(buffer: array<int>, length: nat, o: NewlineOptions) returns (wpos: nat)
    requires length <= buffer.Length
    modifies buffer
    ensures wpos <= length && buffer[..wpos] == Newlines(old(buffer[..length]), o)
    ensures buffer[length..] == old(buffer[length..])
  {
    ghost var was := buffer[..length];
    var rpos := 0;
    wpos := 0;
    while rpos < length
      invariant wpos <= rpos <= length
      invariant buffer[rpos..] == old(buffer[..])[rpos..]
      invariant Newlines(was, o) == buffer[..wpos] + Newlines(was[rpos..], o)
      decreases length - rpos
    {
      ghost var done, rest, before, start := buffer[..wpos], was[rpos..], buffer[..], rpos;
      var uc := buffer[rpos];
      assert uc == was[rpos] && (rpos + 1 < length ==> buffer[rpos + 1] == was[rpos + 1]);
      if uc == 0x0D && rpos < length - 1 && buffer[rpos + 1] == 0x0A {
        rpos := rpos + 1;
      }
      rpos := rpos + 1;
      assert rest[Skip(rest)..] == was[rpos..];
      Associate(done, NewlineStep(uc, o), Newlines(was[rpos..], o));
      ghost var at := wpos;
      wpos := WriteNewlineStep(buffer, wpos, uc, o);
      UnreadRest(buffer[..], before, at + 1, rpos);
      UnreadRest(before, old(buffer[..]), start, rpos);
    }
    assert buffer[..wpos] + [] == buffer[..wpos];
  }

  /** A code point that newline normalization can leave: no other newline, and with `stripCc` no control character. */
  predicate IsNormal(uc: int, o: NewlineOptions) {
    uc == Newline(o) || (!IsNewline(uc, o) && (o.stripCc ==> !IsControl(uc)))
  }

  lemma NewlineStepNormal(uc: int, o: NewlineOptions)
    ensures |NewlineStep(uc, o)| <= 1
    ensures NewlineStep(uc, o) != [] ==> IsNormal(NewlineStep(uc, o)[0], o)
    ensures IsNormal(uc, o) ==> NewlineStep(uc, o) == [uc] && uc != 0x0D
  {
  }

  /** Newline normalization leaves only such code points, and so nothing to do a second time. */
  lemma {:induction false} NewlinesAreNormal(s: seq<int>, o: NewlineOptions)
    ensures forall i :: 0 <= i < |Newlines(s, o)| ==> IsNormal(Newlines(s, o)[i], o)
    ensures Newlines(Newlines(s, o), o) == Newlines(s, o)
  {
    if s != [] {
      NewlinesAreNormal(s[Skip(s)..], o);
      var step, rest := NewlineStep(s[0], o), Newlines(s[Skip(s)..], o);
      NewlineStepNormal(s[0], o);
      if step == [] {
        assert step + rest == rest;
      } else {
        var t := step + rest;
        NewlineStepNormal(step[0], o);
        assert t[0] == step[0] && t[1..] == rest && Skip(t) == 1;
        assert step == [step[0]];
      }
    }
  }
}
