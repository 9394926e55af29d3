/** The chunked transfer coding on the wire: section 7.1 of RFC 9112. */
module ChunkFormat {
  import opened Basics
  import opened Packets

  const LAST_CHUNK: seq<byte> := [48, CR, LF, CR, LF]
  const SIZE_LIMIT: nat := 0x1_0000_0000_0000_0000

  // ----- hexadecimal numbers -----

  function HexDigit(d: nat): byte
    requires d < 16
  {
    if d < 10 then 48 + d else 87 + d
  }

  /** Decimal digits and letters of either case. */
  function DigitValue(b: byte): Option<nat> {
    if 48 <= b <= 57 then Some(b - 48)
    else if 97 <= b <= 102 then Some(b - 87)
    else if 65 <= b <= 70 then Some(b - 55)
    else None
  }

  predicate IsHex(b: byte) {
    DigitValue(b).Some?
  }

  /** What the header of a chunk prints for its size. */
  function Hex(n: nat): (r: seq<byte>)
    ensures r != []
    ensures forall i :: 0 <= i < |r| ==> IsHex(r[i])
  {
    if n < 16 then [HexDigit(n)] else Hex(n / 16) + [HexDigit(n % 16)]
  }

  function HexValue(s: seq<byte>): nat
    requires forall i :: 0 <= i < |s| ==> IsHex(s[i])
  {
    if s == [] then 0
    else
      assert IsHex(s[|s| - 1]);
      16 * HexValue(s[..|s| - 1]) + DigitValue(s[|s| - 1]).value
  }

  /** The digits that are printed, and those that are read. */
  lemma HexDigits(d: nat, b: byte)
    requires d < 16
    ensures HexDigit(d) as char == "0123456789abcdef"[d]
    ensures DigitValue(b) == Some(d) <==> b as char == "0123456789abcdef"[d] || b as char == "0123456789ABCDEF"[d]
  {
  }

  /** The number of leading bytes that are hexadecimal digits. */
  function HexPrefix(s: seq<byte>): (k: nat)
    ensures k <= |s| && forall i :: 0 <= i < k ==> IsHex(s[i])
    ensures k < |s| ==> !IsHex(s[k])
  {
    if s == [] || !IsHex(s[0]) then 0 else 1 + HexPrefix(s[1..])
  }

  lemma {:induction false} HexRoundTrip(n: nat)
    ensures HexValue(Hex(n)) == n
  {
    if n >= 16 {
      HexRoundTrip(n / 16);
      assert Hex(n)[..|Hex(n)| - 1] == Hex(n / 16);
    }
  }

  function Power16(k: nat): nat {
    if k == 0 then 1 else 16 * Power16(k - 1)
  }

  lemma {:induction false} HexLength(n: nat, k: nat)
    requires n < Power16(k) && k > 0
    ensures |Hex(n)| <= k
  {
    if n >= 16 {
      HexLength(n / 16, k - 1);
    }
  }

  /** A size_t prints into at most 16 digits, so a chunk header fits its buffer of 34 characters. */
  lemma SizeFitsHeader(n: nat)
    requires n < 0x1_0000_0000_0000_0000
    ensures |Hex(n)| <= 16 && n < SIZE_LIMIT
  {
    assert Power16(16) == SIZE_LIMIT by {
      assert Power16(4) == 65536;
      assert Power16(8) == 0x1_0000_0000;
      assert Power16(12) == 0x1_0000_0000_0000;
    }
    HexLength(n, 16);
  }

  /** A digit run that is followed by something else is read as a whole. */
  lemma {:induction false} HexPrefixStops(a: seq<byte>, b: seq<byte>)
    requires forall i :: 0 <= i < |a| ==> IsHex(a[i])
    requires b == [] || !IsHex(b[0])
    ensures HexPrefix(a + b) == |a|
  {
    if a == [] {
      assert a + b == b;
    } else {
      assert (a + b)[1..] == a[1..] + b;
      HexPrefixStops(a[1..], b);
    }
  }

  /** A place counts sixteen times as much as the one behind it. */
  lemma {:induction false} HexIsPositional(a: seq<byte>, b: seq<byte>)
    requires forall i :: 0 <= i < |a| ==> IsHex(a[i])
    requires forall i :: 0 <= i < |b| ==> IsHex(b[i])
    ensures HexValue(a + b) == HexValue(a) * Power16(|b|) + HexValue(b)
    decreases |b|
  {
    if b == [] {
      assert a + b == a;
    } else {
      var front, last := b[..|b| - 1], b[|b| - 1];
      assert IsHex(last) && (a + b)[..|a + b| - 1] == a + front;
      HexIsPositional(a, front);
      Shift(HexValue(a), Power16(|front|), HexValue(front), DigitValue(last).value, HexValue(a + front));
    }
  }

  lemma Shift(v: nat, p: nat, w: nat, d: nat, u: nat)
    requires u == v * p + w
    ensures 16 * u + d == v * (16 * p) + (16 * w + d)
  {
    assert v * (16 * p) == 16 * (v * p);
  }

  lemma {:induction false} HexValueOfPrefix(s: seq<byte>, k: nat)
    requires k <= |s| && forall i :: 0 <= i < |s| ==> IsHex(s[i])
    ensures HexValue(s[..k]) <= HexValue(s)
  {
    if k == |s| {
      assert s[..k] == s;
    } else {
      assert s[..k] == s[..|s| - 1][..k];
      HexValueOfPrefix(s[..|s| - 1], k);
      assert IsHex(s[|s| - 1]);
    }
  }

  // ----- the grammars that read a chunk -----

  predicate StartsWithCrLf(s: seq<byte>) {
    |s| >= 2 && s[0] == CR && s[1] == LF
  }

  /** The number of leading bytes that are not CR. */
  function UntilCr(s: seq<byte>): (k: nat)
    ensures k <= |s| && forall i :: 0 <= i < k ==> s[i] != CR
    ensures k < |s| ==> s[k] == CR
  {
    if s == [] || s[0] == CR then 0 else 1 + UntilCr(s[1..])
  }

  /** Bytes kept back while a line is not complete. */
  const MAX_LINE: nat := 1024

  datatype Parsed<T> = NeedMore | Bad | Match(value: T, length: nat)

  function NoMatch<T>(size: nat, error: bool): Parsed<T> {
    if error || size > MAX_LINE then Bad else NeedMore
  }

  /** A number too big for size_t is not read at all. */
  function ParseSize(s: seq<byte>): (r: Option<nat>)
    ensures r.Some? ==> r.value < SIZE_LIMIT && HexPrefix(s) > 0
  {
    var k := HexPrefix(s);
    if k == 0 || HexValue(s[..k]) >= SIZE_LIMIT then None else Some(HexValue(s[..k]))
  }

  /** The size line of a chunk, behind i bytes already matched: without digits it is wrong, unless nothing is there. */
  function ParseSizeLine(s: seq<byte>, i: nat): (r: Parsed<nat>)
    ensures r.Match? ==> i < r.length <= i + |s| && r.value < SIZE_LIMIT
  {
    var size := ParseSize(s);
    if size.None? then NoMatch(i + |s|, s != [])
    else
      var j := HexPrefix(s);
      var k := j + UntilCr(s[j..]);
      if StartsWithCrLf(s[k..]) then Match(size.value, i + k + 2) else NoMatch(i + |s|, false)
  }

  /** The end of the data before, which the first chunk does not have, then the size line. */
  function ParseCaption(s: seq<byte>): (r: Parsed<nat>)
    ensures r.Match? ==> 0 < r.length <= |s| && r.value < SIZE_LIMIT
  {
    if StartsWithCrLf(s) then ParseSizeLine(s[2..], 2) else ParseSizeLine(s, 0)
  }

  /** One line of the trailer; the value tells whether it is a header or the empty last line. */
  function ParseTrailer(s: seq<byte>): (r: Parsed<bool>)
    ensures r.Match? ==> 0 < r.length <= |s|
  {
    var k := UntilCr(s);
    if StartsWithCrLf(s[k..]) then Match(k > 0, k + 2) else NoMatch(|s|, false)
  }

  // ----- the wire -----

  /** The line that says the size of a chunk, without its end: digits, and an extension that is not read. */
  datatype SizeLine = SizeLine(digits: seq<byte>, extension: seq<byte>) {
    function Bytes(): seq<byte> {
      digits + extension
    }

    predicate Says(n: nat) {
      && n < SIZE_LIMIT && digits != []
      && (forall i :: 0 <= i < |digits| ==> IsHex(digits[i])) && HexValue(digits) == n
      && CR !in extension && (extension != [] ==> !IsHex(extension[0]))
    }
  }

  datatype Chunk = Chunk(line: SizeLine, data: Packet)

  /** The chunk of size 0, and the fields of the trailer. */
  datatype End = End(line: SizeLine, trailer: seq<seq<byte>>)

  predicate ChunksOk(cs: seq<Chunk>) {
    forall i :: 0 <= i < |cs| ==> cs[i].data != [] && cs[i].line.Says(|cs[i].data|)
  }

  predicate TrailerOk(lines: seq<seq<byte>>) {
    forall i :: 0 <= i < |lines| ==> lines[i] != [] && CR !in lines[i]
  }

  predicate EndOk(end: End) {
    end.line.Says(0) && TrailerOk(end.trailer)
  }

  function Datas(cs: seq<Chunk>): (r: seq<Packet>)
    ensures |r| == |cs|
  {
    seq(|cs|, i requires 0 <= i < |cs| => cs[i].data)
  }

  /** What a reader of a chunked body is in the middle of. */
  datatype Stage =
    | AtCaption(sep: bool, cs: seq<Chunk>, end: End)        // sep: the CRLF that ends the data before is still to come
    | InBody(rest: seq<byte>, cs: seq<Chunk>, end: End)
    | AtTrailer(lines: seq<seq<byte>>)
    | AtTail
  {
    function Remaining(): nat {
      match this
      case AtCaption(_, cs, end) => |end.trailer| + 2 + 2 * |cs|
      case InBody(_, cs, end) => |end.trailer| + 3 + 2 * |cs|
      case AtTrailer(lines) => |lines| + 1
      case AtTail => 0
    }
  }

  function Separator(sep: bool): seq<byte> {
    if sep then CRLF else []
  }

  /** The line that says the size of the next chunk. */
  function NextLine(cs: seq<Chunk>, end: End): SizeLine {
    if cs == [] then end.line else cs[0].line
  }

  /** A size line and the line end of the data before it. */
  function Header(sep: bool, line: SizeLine): seq<byte> {
    Separator(sep) + (line.Bytes() + CRLF)
  }

  /** What stands behind a caption. */
  function AfterCaption(cs: seq<Chunk>, end: End): Stage {
    if cs == [] then AtTrailer(end.trailer) else InBody(cs[0].data, cs[1..], end)
  }

  /** The bytes that a stage still expects. */
  function Wire(st: Stage): seq<byte>
    decreases st.Remaining(), if st.AtCaption? then 1 else 0
  {
    match st
    case AtCaption(sep, cs, end) =>
      Header(sep, NextLine(cs, end)) + (if cs == [] then Wire(AtTrailer(end.trailer)) else cs[0].data + Wire(AtCaption(true, cs[1..], end)))
    case InBody(rest, cs, end) => rest + Wire(AtCaption(true, cs, end))
    case AtTrailer(lines) => if lines == [] then CRLF else (lines[0] + CRLF) + Wire(AtTrailer(lines[1..]))
    case AtTail => []
  }

  /** The body bytes among them. */
  function Payload(st: Stage): seq<byte> {
    match st
    case AtCaption(_, cs, _) => Flatten(Datas(cs))
    case InBody(rest, cs, _) => rest + Flatten(Datas(cs))
    case _ => []
  }

  /**
    A reader that has the first k bytes of the wire takes them for an error: they end between the CR and the LF behind the data
    of a chunk, or inside a line of which more than MAX_LINE bytes are there.
  */
  predicate BadCut(st: Stage, k: int)
    decreases st.Remaining(), if st.AtCaption? then 1 else 0
  {
    match st
    case AtCaption(sep, cs, end) =>
      var n := |Header(sep, NextLine(cs, end))|;
      || (sep && k == 1)
      || MAX_LINE < k < n
      || (if cs == [] then BadCut(AtTrailer(end.trailer), k - n) else BadCut(AtCaption(true, cs[1..], end), k - (n + |cs[0].data|)))
    case InBody(rest, cs, end) => BadCut(AtCaption(true, cs, end), k - |rest|)
    case AtTrailer(lines) =>
      lines != [] && (MAX_LINE < k < |lines[0]| + 2 || BadCut(AtTrailer(lines[1..]), k - (|lines[0]| + 2)))
    case AtTail => false
  }

  lemma {:induction false} BadCutIsInside(st: Stage, k: int)
    requires BadCut(st, k)
    ensures 0 < k < |Wire(st)|
    decreases st.Remaining(), if st.AtCaption? then 1 else 0
  {
    match st
    case AtCaption(sep, cs, end) =>
      var n := |Header(sep, NextLine(cs, end))|;
      if !(sep && k == 1) && !(MAX_LINE < k < n) {
        if cs == [] {
          BadCutIsInside(AtTrailer(end.trailer), k - n);
        } else {
          BadCutIsInside(AtCaption(true, cs[1..], end), k - (n + |cs[0].data|));
        }
      }
    case InBody(rest, cs, end) => BadCutIsInside(AtCaption(true, cs, end), k - |rest|);
    case AtTrailer(lines) =>
      if !(MAX_LINE < k < |lines[0]| + 2) { BadCutIsInside(AtTrailer(lines[1..]), k - (|lines[0]| + 2)); }
    case AtTail =>
  }

  function Frame(c: Chunk): seq<byte> {
    c.line.Bytes() + CRLF + c.data + CRLF
  }

  function Frames(cs: seq<Chunk>): seq<byte> {
    if cs == [] then [] else Frames(cs[..|cs| - 1]) + Frame(cs[|cs| - 1])
  }

  function TrailerBytes(lines: seq<seq<byte>>): seq<byte> {
    if lines == [] then [] else lines[0] + CRLF + TrailerBytes(lines[1..])
  }

  /** The last chunk, the trailer fields, and the empty line. */
  function EndBytes(end: End): seq<byte> {
    end.line.Bytes() + CRLF + TrailerBytes(end.trailer) + CRLF
  }

  lemma {:induction false} FramesCons(c: Chunk, cs: seq<Chunk>)
    ensures Frames([c] + cs) == Frame(c) + Frames(cs)
  {
    if cs == [] {
      assert [c] + cs == [c];
      assert [c][..0] == [];
    } else {
      var front, last := cs[..|cs| - 1], Frame(cs[|cs| - 1]);
      assert ([c] + cs)[..|cs|] == [c] + front;
      FramesCons(c, front);
      assert (Frame(c) + Frames(front)) + last == Frame(c) + (Frames(front) + last);
    }
  }

  lemma FramesSnoc(cs: seq<Chunk>, c: Chunk)
    ensures Frames(cs + [c]) == Frames(cs) + Frame(c)
  {
    assert (cs + [c])[..|cs|] == cs;
  }

  lemma {:induction false} TrailerIsWire(lines: seq<seq<byte>>)
    ensures Wire(AtTrailer(lines)) == TrailerBytes(lines) + CRLF
  {
    if lines == [] {
      assert TrailerBytes(lines) + CRLF == CRLF;
    } else {
      TrailerIsWire(lines[1..]);
      Associate(lines[0] + CRLF, TrailerBytes(lines[1..]), CRLF);
    }
  }

  lemma EndIsWire(sep: bool, end: End)
    ensures Wire(AtCaption(sep, [], end)) == Separator(sep) + EndBytes(end)
  {
    TrailerIsWire(end.trailer);
    Associate(end.line.Bytes() + CRLF, TrailerBytes(end.trailer), CRLF);
    Associate(Separator(sep), end.line.Bytes() + CRLF, TrailerBytes(end.trailer) + CRLF);
  }

  /** Chunks and their end are what a reader at its first caption expects. */
  lemma {:induction false} FramesAreWire(cs: seq<Chunk>, end: End, sep: bool)
    ensures Wire(AtCaption(sep, cs, end)) == Separator(sep) + Frames(cs) + EndBytes(end)
    decreases |cs|
  {
    if cs == [] {
      EndIsWire(sep, end);
      assert Separator(sep) + [] == Separator(sep);
    } else {
      FramesAreWire(cs[1..], end, true);
      assert cs == [cs[0]] + cs[1..];
      FramesCons(cs[0], cs[1..]);
      var line, data, later := cs[0].line.Bytes() + CRLF, cs[0].data, Frames(cs[1..]) + EndBytes(end);
      FrameThenRest(Separator(sep), line, data, Frames(cs[1..]), EndBytes(end));
    }
  }

  lemma FrameThenRest(sep: seq<byte>, line: seq<byte>, data: seq<byte>, frames: seq<byte>, end: seq<byte>)
    ensures (sep + line) + (data + (CRLF + frames + end)) == sep + (line + data + CRLF + frames) + end
  {
  }

  /** A chunk as the encoder writes it. */
  function Plain(data: Packet): Chunk {
    Chunk(SizeLine(Hex(|data|), []), data)
  }

  function Plains(datas: seq<Packet>): (r: seq<Chunk>)
    ensures |r| == |datas|
  {
    seq(|datas|, i requires 0 <= i < |datas| => Plain(datas[i]))
  }

  const PLAIN_END: End := End(SizeLine([48], []), [])

  lemma PlainSays(n: nat)
    requires n < SIZE_LIMIT
    ensures SizeLine(Hex(n), []).Says(n) && EndOk(PLAIN_END) && EndBytes(PLAIN_END) == LAST_CHUNK
  {
    HexRoundTrip(n);
    HexRoundTrip(0);
    assert Hex(0) == [48];
    assert EndBytes(PLAIN_END) == [48] + [] + CRLF + [] + CRLF;
  }

  /** A chunk that is written, byte by byte, and the end that is written. */
  lemma PlainIs(data: Packet)
    ensures Frame(Plain(data)) == Hex(|data|) + [13, 10] + data + [13, 10]
    ensures EndBytes(PLAIN_END) == [48, 13, 10, 13, 10] == LAST_CHUNK
  {
    assert Hex(|data|) + [] == Hex(|data|);
    assert EndBytes(PLAIN_END) == [48] + [] + CRLF + [] + CRLF;
  }

  lemma PlainsSnoc(datas: seq<Packet>, data: Packet)
    ensures Frames(Plains(datas + [data])) == Frames(Plains(datas)) + Frame(Plain(data))
  {
    assert Plains(datas + [data]) == Plains(datas) + [Plain(data)];
    FramesSnoc(Plains(datas), Plain(data));
  }

  /** The parts of one more frame. */
  lemma FrameSent(sent: seq<Packet>, c: Packet)
    ensures Frames(Plains(sent)) + (Hex(|c|) + CRLF) + c + CRLF == Frames(Plains(sent + [c]))
  {
    var before := Frames(Plains(sent));
    assert Hex(|c|) + [] == Hex(|c|);
    Associate(before, Hex(|c|) + CRLF, c);
    Associate(before, Hex(|c|) + CRLF + c, CRLF);
    PlainsSnoc(sent, c);
  }

  // ----- the encoder -----

  /** The chunks made of the pushes: a chunk leaves when at least `granula` bytes are pending, the last one at the end. */
  function EncodedChunks(granula: nat, pushes: seq<Packet>, pending: seq<byte>): seq<Packet>
    decreases |pushes|
  {
    if pushes == [] then (if pending == [] then [] else [pending])
    else if |pending + pushes[0]| >= granula then [pending + pushes[0]] + EncodedChunks(granula, pushes[1..], [])
    else EncodedChunks(granula, pushes[1..], pending + pushes[0])
  }

  lemma {:induction false} EncodedChunksKeepBytes(granula: nat, pushes: seq<Packet>, pending: seq<byte>)
    requires NonEmpty(pushes)
    ensures NonEmpty(EncodedChunks(granula, pushes, pending))
    ensures Flatten(EncodedChunks(granula, pushes, pending)) == pending + Flatten(pushes)
    ensures forall i :: 0 <= i < |EncodedChunks(granula, pushes, pending)| - 1 ==> |EncodedChunks(granula, pushes, pending)[i]| >= granula
    decreases |pushes|
  {
    if pushes == [] {
      FlattenOne(pending);
    } else {
      var all := pending + pushes[0];
      EncodedChunksKeepBytes(granula, pushes[1..], if |all| >= granula then [] else all);
      assert all + Flatten(pushes[1..]) == pending + Flatten(pushes);
      var rest := EncodedChunks(granula, pushes[1..], []);
      assert ([all] + rest)[1..] == rest;
    }
  }

  /** contentEncoderChunked.cpp; `upstream` collects what it pushes on. */
  class ContentEncoderChunked {
    const granula: nat
    var chunks: seq<Packet>
    var size: nat
    var upstream: seq<Packet>
    ghost var sent: seq<Packet>      // the chunks written so far
    ghost var pushed: seq<byte>      // all bytes ever pushed

    ghost predicate Valid()
      reads this
    {
      && NonEmpty(chunks) && NonEmpty(upstream) && NonEmpty(sent)
      && size == |Flatten(chunks)|
      && Flatten(upstream) == Frames(Plains(sent))
      && Flatten(sent) + Flatten(chunks) == pushed
    }

    constructor (granula: nat)
      ensures Valid() && this.granula == granula && upstream == [] && sent == [] && pushed == []
    {
      this.granula := granula;
      chunks, size, upstream, sent, pushed := [], 0, [], [], [];
    }

    method Push(packet: Packet)
      requires Valid() && packet != []
      modifies this
      ensures Valid() && pushed == old(pushed) + packet
      ensures var c := old(Flatten(chunks)) + packet;
              if |c| >= granula then chunks == [] && sent == old(sent) + [c] else Flatten(chunks) == c && sent == old(sent)
    {
      FlattenSnoc(chunks, packet);
      chunks := chunks + [packet];
      size := size + |packet|;
      pushed := pushed + packet;
      if size >= granula {
        Push2Upstream();
      }
    }

    /** The pending packets leave as one chunk; nothing is written when nothing is pending. */
    method Push2Upstream()
      requires Valid()
      modifies this
      ensures Valid() && pushed == old(pushed) && chunks == []
      ensures sent == old(sent) + (if old(chunks) == [] then [] else [old(Flatten(chunks))])
    {
      FlattenIsEmpty(chunks);
      if size > 0 {
        ghost var c := Flatten(chunks);
        PushFrame();
        FrameSent(sent, c);
        FlattenSnoc(sent, c);
        sent := sent + [c];
        size := 0;
      }
    }

    /** The size line, the data, and the line end behind it. */
    method PushFrame()
      requires NonEmpty(chunks) && NonEmpty(upstream)
      modifies `chunks, `upstream
      ensures NonEmpty(upstream) && chunks == []
      ensures Flatten(upstream) == old(Flatten(upstream)) + (Hex(size) + CRLF) + old(Flatten(chunks)) + CRLF
    {
      FlattenSnoc(upstream, Hex(size) + CRLF);
      upstream := upstream + [Hex(size) + CRLF];
      PushChunks();
      FlattenSnoc(upstream, CRLF);
      upstream := upstream + [CRLF];
    }

    /** The data of a chunk is passed on packet by packet. */
    method PushChunks()
      requires NonEmpty(chunks) && NonEmpty(upstream)
      modifies `chunks, `upstream
      ensures NonEmpty(upstream) && chunks == []
      ensures Flatten(upstream) == old(Flatten(upstream)) + old(Flatten(chunks))
    {
      for i := 0 to |chunks|
        invariant chunks == old(chunks) && NonEmpty(upstream)
        invariant Flatten(upstream) == old(Flatten(upstream)) + Flatten(chunks[..i])
      {
        FlattenSnoc(upstream, chunks[i]);
        FlattenStep(chunks, i);
        upstream := upstream + [chunks[i]];
      }
      assert chunks[..|chunks|] == chunks;
      chunks := [];
    }

    /** What the upstream has received in the end is the whole chunked body. */
    method Flush()
      requires Valid()
      modifies this
      ensures NonEmpty(upstream) && NonEmpty(sent) && Flatten(sent) == pushed == old(pushed)
      ensures sent == old(sent) + (if old(chunks) == [] then [] else [old(Flatten(chunks))])
      ensures Flatten(upstream) == Frames(Plains(sent)) + LAST_CHUNK
    {
      Push2Upstream();
      assert Flatten(sent) + Flatten(chunks) == Flatten(sent);
      FlattenSnoc(upstream, LAST_CHUNK);
      upstream := upstream + [LAST_CHUNK];
    }
  }

  /** A message body from its first push to its flush. */
  method Encode(granula: nat, pushes: seq<Packet>) returns (out: seq<Packet>)
    requires NonEmpty(pushes)
    ensures NonEmpty(out) && Flatten(out) == Frames(Plains(EncodedChunks(granula, pushes, []))) + LAST_CHUNK
  {
    var encoder := new ContentEncoderChunked(granula);
    for i := 0 to |pushes|
      invariant fresh(encoder) && encoder.Valid() && encoder.granula == granula
      invariant EncodedChunks(granula, pushes, []) == encoder.sent + EncodedChunks(granula, pushes[i..], Flatten(encoder.chunks))
    {
      ghost var rest := EncodedChunks(granula, pushes[i + 1..], []);
      assert pushes[i..][1..] == pushes[i + 1..];
      ghost var sent := encoder.sent;
      ghost var c := Flatten(encoder.chunks) + pushes[i];
      assert sent + ([c] + rest) == (sent + [c]) + rest;
      encoder.Push(pushes[i]);
    }
    FlattenIsEmpty(encoder.chunks);
    encoder.Flush();
    out := encoder.upstream;
  }

  lemma {:induction false} FlattenIsEmpty(ps: seq<Packet>)
    requires NonEmpty(ps)
    ensures |Flatten(ps)| == 0 <==> ps == []
  {
  }
}
