/** The chunked reader takes back what the chunked encoder wrote, however the bytes are cut into packets. */
module ChunkedRoundTrip {
  import opened Basics
  import opened Packets
  import opened ChunkFormat
  import opened BodyReader

  // ----- the grammars on whole and on incomplete lines -----

  lemma {:induction false} UntilCrStops(a: seq<byte>, b: seq<byte>)
    requires forall i :: 0 <= i < |a| ==> a[i] != CR
    requires b == [] || b[0] == CR
    ensures UntilCr(a + b) == |a|
  {
    if a == [] {
      assert a + b == b;
    } else {
      assert (a + b)[1..] == a[1..] + b;
      UntilCrStops(a[1..], b);
    }
  }

  /** The digits of a size line and its extension, cut off behind k bytes of the line and its end. */
  lemma LinePrefix(line: SizeLine, n: nat, k: nat)
    requires line.Says(n) && k <= |line.Bytes()| + 2
    ensures var s := (line.Bytes() + CRLF)[..k];
            && HexPrefix(s) == (if k < |line.digits| then k else |line.digits|)
            && s[..HexPrefix(s)] == line.digits[..HexPrefix(s)]
            && s[HexPrefix(s)..] == (line.extension + CRLF)[..k - HexPrefix(s)]
            && HexValue(s[..HexPrefix(s)]) <= n
  {
    var all := line.Bytes() + CRLF;
    var s := all[..k];
    assert all == line.digits + (line.extension + CRLF);
    if k < |line.digits| {
      assert s == line.digits[..k] + [];
      HexPrefixStops(line.digits[..k], []);
      assert s[k..] == [];
      HexValueOfPrefix(line.digits, k);
    } else {
      var m := |line.digits|;
      assert s == line.digits + (line.extension + CRLF)[..k - m];
      HexPrefixStops(line.digits, (line.extension + CRLF)[..k - m]);
      assert s[..m] == line.digits && line.digits[..m] == line.digits;
    }
  }

  /** Up to which byte a line without CR goes. */
  lemma UntilCrOfPrefix(line: seq<byte>, k: nat)
    requires CR !in line && k <= |line| + 2
    ensures UntilCr((line + CRLF)[..k]) == if k < |line| then k else |line|
    ensures StartsWithCrLf((line + CRLF)[..k][UntilCr((line + CRLF)[..k])..]) <==> k == |line| + 2
  {
    var s := (line + CRLF)[..k];
    if k <= |line| {
      assert s == line[..k] + [];
      UntilCrStops(line[..k], []);
    } else {
      assert s == line + CRLF[..k - |line|];
      UntilCrStops(line, CRLF[..k - |line|]);
      assert s[|line|..] == CRLF[..k - |line|];
    }
  }

  lemma UntilCrOfLine(line: seq<byte>, more: seq<byte>)
    requires CR !in line
    ensures UntilCr(line + CRLF + more) == |line| && StartsWithCrLf((line + CRLF + more)[|line|..])
  {
    assert line + CRLF + more == line + (CRLF + more);
    UntilCrStops(line, CRLF + more);
  }

  lemma LineEndAt(s: seq<byte>, i: nat, j: nat, u: nat)
    requires 0 < j == HexPrefix(s) && HexValue(s[..j]) < SIZE_LIMIT && u == UntilCr(s[j..]) && StartsWithCrLf(s[j..][u..])
    ensures ParseSizeLine(s, i) == Match(HexValue(s[..j]), i + j + u + 2)
  {
    assert s[j..][u..] == s[j + u..];
    assert ParseSize(s) == Some(HexValue(s[..j]));
  }

  /** A whole size line apart: the digits, and the rest with its end. */
  lemma SizeLineParts(line: SizeLine, rest: seq<byte>)
    requires line.digits != [] && (forall i :: 0 <= i < |line.digits| ==> IsHex(line.digits[i])) && rest != [] && !IsHex(rest[0])
    ensures var s := line.digits + rest; HexPrefix(s) == |line.digits| && s[..|line.digits|] == line.digits && s[|line.digits|..] == rest
  {
    HexPrefixStops(line.digits, rest);
  }

  lemma BytesOfLine(line: SizeLine, more: seq<byte>)
    ensures line.Bytes() + CRLF + more == line.digits + (line.extension + CRLF + more)
  {
    Associate(line.digits, line.extension, CRLF);
    Associate(line.digits, line.extension + CRLF, more);
  }

  /** A whole size line is read up to its end. */
  lemma WholeSizeLine(line: SizeLine, n: nat, more: seq<byte>, i: nat)
    requires line.Says(n)
    ensures ParseSizeLine(line.Bytes() + CRLF + more, i) == Match(n, i + |line.Bytes()| + 2)
  {
    var rest := line.extension + CRLF + more;
    BytesOfLine(line, more);
    UntilCrOfLine(line.extension, more);
    SizeLineParts(line, rest);
    LineEndAt(line.digits + rest, i, |line.digits|, |line.extension|);
  }

  lemma NoLineEnd(s: seq<byte>, i: nat, j: nat, u: nat)
    requires s == [] || (0 < j == HexPrefix(s) && HexValue(s[..j]) < SIZE_LIMIT && u == UntilCr(s[j..]) && !StartsWithCrLf(s[j..][u..]))
    ensures ParseSizeLine(s, i) == if i + |s| > MAX_LINE then Bad else NeedMore
  {
    if s != [] {
      assert s[j..][u..] == s[j + u..];
      assert ParseSize(s) == Some(HexValue(s[..j]));
    }
  }

  /** A part of it is kept for later, up to a limit. */
  lemma PartOfSizeLine(line: SizeLine, n: nat, k: nat, i: nat)
    requires line.Says(n) && k < |line.Bytes()| + 2
    ensures ParseSizeLine((line.Bytes() + CRLF)[..k], i) == if i + k > MAX_LINE then Bad else NeedMore
  {
    var s := (line.Bytes() + CRLF)[..k];
    LinePrefix(line, n, k);
    UntilCrOfPrefix(line.extension, k - HexPrefix(s));
    NoLineEnd(s, i, HexPrefix(s), UntilCr(s[HexPrefix(s)..]));
  }

  lemma CaptionBehind(sep: bool, line: seq<byte>)
    requires if line == [] then sep else line[0] != CR
    ensures ParseCaption(Separator(sep) + line) == ParseSizeLine(line, |Separator(sep)|)
  {
    if sep {
      assert (CRLF + line)[2..] == line;
    } else {
      assert Separator(sep) + line == line;
    }
  }

  lemma WholeCaption(sep: bool, line: SizeLine, n: nat, more: seq<byte>)
    requires line.Says(n)
    ensures ParseCaption(Header(sep, line) + more) == Match(n, |Header(sep, line)|)
  {
    var bytes := line.Bytes() + CRLF + more;
    assert Header(sep, line) + more == Separator(sep) + bytes;
    assert IsHex(line.digits[0]) && bytes[0] == line.digits[0];
    CaptionBehind(sep, bytes);
    WholeSizeLine(line, n, more, |Separator(sep)|);
  }

  lemma HeaderPrefix(sep: bool, line: SizeLine, k: nat)
    requires line.digits != [] && IsHex(line.digits[0]) && |Separator(sep)| <= k < |Header(sep, line)|
    ensures var bytes := (line.Bytes() + CRLF)[..k - |Separator(sep)|];
            && Header(sep, line)[..k] == Separator(sep) + bytes
            && (bytes != [] ==> bytes[0] != CR)
  {
    assert (line.Bytes() + CRLF)[0] == line.digits[0];
  }

  /** An incomplete caption is kept for later, up to a limit; but a lone CR before the size line is taken for an error. */
  lemma PartOfCaption(sep: bool, line: SizeLine, n: nat, k: nat)
    requires line.Says(n) && 0 < k < |Header(sep, line)|
    ensures ParseCaption(Header(sep, line)[..k]) == if (sep && k == 1) || k > MAX_LINE then Bad else NeedMore
  {
    if sep && k == 1 {
      assert Header(sep, line)[..k] == [CR];
      LoneCr();
    } else {
      assert IsHex(line.digits[0]);
      HeaderPrefix(sep, line, k);
      CaptionBehind(sep, (line.Bytes() + CRLF)[..k - |Separator(sep)|]);
      PartOfSizeLine(line, n, k - |Separator(sep)|, |Separator(sep)|);
    }
  }

  lemma LoneCr()
    ensures ParseCaption([CR]) == Bad
  {
  }

  /** A line of the trailer is read up to its end, and only the empty one ends the trailer. */
  lemma TrailerLine(line: seq<byte>, more: seq<byte>)
    requires CR !in line
    ensures ParseTrailer(line + CRLF + more) == Match(line != [], |line| + 2)
  {
    UntilCrOfLine(line, more);
  }

  /** A part of it is kept for later, up to a limit. */
  lemma PartOfTrailerLine(line: seq<byte>, k: nat)
    requires CR !in line && k < |line| + 2
    ensures ParseTrailer((line + CRLF)[..k]) == if k > MAX_LINE then Bad else NeedMore
  {
    UntilCrOfPrefix(line, k);
  }

  // ----- any bytes at all -----

  /** The first line of s has k bytes in front of its end. */
  predicate FirstLine(s: seq<byte>, k: nat) {
    k + 2 <= |s| && 13 !in s[..k] && s[k] == 13 && s[k + 1] == 10
  }

  lemma {:induction false} FirstCr(s: seq<byte>, k: nat)
    requires FirstLine(s, k)
    ensures UntilCr(s) == k
  {
    if k > 0 {
      assert s[0] in s[..k] && s[1..][..k - 1] == s[..k][1..];
      FirstCr(s[1..], k - 1);
    }
  }

  lemma FirstLineIs(s: seq<byte>)
    ensures forall k: nat :: FirstLine(s, k) <==> k == UntilCr(s) && StartsWithCrLf(s[k..])
  {
    forall k: nat | FirstLine(s, k) ensures k == UntilCr(s) { FirstCr(s, k); }
  }

  /** What should be a size is none, or does not fit 64 bits. */
  predicate WrongSize(s: seq<byte>) {
    s != [] && (!IsHex(s[0]) || HexValue(s[..HexPrefix(s)]) >= 0x1_0000_0000_0000_0000)
  }

  lemma {:induction false} UntilCrBehind(s: seq<byte>, j: nat)
    requires j <= UntilCr(s)
    ensures UntilCr(s) == j + UntilCr(s[j..])
  {
    if j > 0 {
      UntilCrBehind(s[1..], j - 1);
      assert s[1..][j - 1..] == s[j..];
    }
  }

  /** The line end of the data before, if it is there, is not part of the size line. */
  function BehindLineEnd(s: seq<byte>): seq<byte> {
    if |s| >= 2 && s[0] == 13 && s[1] == 10 then s[2..] else s
  }

  /**
    Whatever bytes the reader finds where a size line is due: it fails at once when they begin with no size, or with one that is too
    large; it goes on behind the first line end when there is one; and when there is none it waits, up to 1024 bytes.
  */
  lemma CaptionOnAnyBytes(s: seq<byte>)
    ensures var t := BehindLineEnd(s);
            && (WrongSize(t) ==> ParseCaption(s) == Bad)
            && (!WrongSize(t) ==> forall k: nat :: FirstLine(t, k) && k > 0 ==>
                  ParseCaption(s) == Match(HexValue(t[..HexPrefix(t)]), |s| - |t| + k + 2))
            && (!WrongSize(t) && (forall k: nat :: k > 0 ==> !FirstLine(t, k)) ==> ParseCaption(s) == if |s| > 1024 then Bad else NeedMore)
  {
    var t := BehindLineEnd(s);
    FirstLineIs(t);
    var j := HexPrefix(t);
    assert forall i :: 0 <= i < j ==> IsHex(t[i]) && t[i] != CR;
    if t != [] && IsHex(t[0]) {
      HexBeforeCr(t, j);
      UntilCrBehind(t, j);
    }
  }

  lemma {:induction false} HexBeforeCr(s: seq<byte>, j: nat)
    requires j <= |s| && forall i :: 0 <= i < j ==> s[i] != CR
    ensures j <= UntilCr(s)
  {
    if j > 0 { HexBeforeCr(s[1..], j - 1); }
  }

  /** Whatever bytes it finds where a line of the trailer is due. */
  lemma TrailerOnAnyBytes(s: seq<byte>)
    ensures forall k: nat :: FirstLine(s, k) ==> ParseTrailer(s) == Match(k > 0, k + 2)
    ensures (forall k: nat :: !FirstLine(s, k)) ==> ParseTrailer(s) == if |s| > 1024 then Bad else NeedMore
  {
    FirstLineIs(s);
  }

  // ----- one step of the reader -----

  /** The reader is in the state that belongs to the stage. */
  predicate Agrees(r: Reader, st: Stage) {
    && r.kind == Chunked && NonEmpty(r.stream)
    && match st
       case AtCaption(_, cs, end) => r.es == Caption && ChunksOk(cs) && EndOk(end)
       case InBody(rest, cs, end) => r.es == Body && ChunksOk(cs) && EndOk(end) && rest != [] && r.bodySize == |rest|
       case AtTrailer(lines) => r.es == TrailerHeader && TrailerOk(lines)
       case AtTail => r.es == Done
  }

  /** What the reader holds and what is still on its way make up the rest of the body and a tail. */
  ghost predicate Expects(r: Reader, st: Stage, tail: seq<byte>, more: seq<byte>) {
    Agrees(r, st) && Flatten(r.stream) + more == Wire(st) + tail
  }

  /** From offset l on, st2 knows the same bad cuts as st, which lies n bytes before it. */
  ghost predicate SameCuts(st: Stage, st2: Stage, n: nat, l: nat) {
    forall k {:trigger BadCut(st, k)} :: k >= l ==> BadCut(st, k) == BadCut(st2, k - n)
  }

  /** From (r, st, tail) to (r2, st2, tail2) nothing is lost. */
  ghost predicate Progress(r: Reader, st: Stage, tail: seq<byte>, r2: Reader, st2: Stage, tail2: seq<byte>) {
    && r2.body + Payload(st2) == r.body + Payload(st)
    && r2.tail + tail2 == r.tail + tail
    && |Flatten(r2.stream)| <= |Flatten(r.stream)|
    && SameCuts(st, st2, |Flatten(r.stream)| - |Flatten(r2.stream)|, |Flatten(r.stream)|)
  }

  /** A line is incomplete, so more of the body must come. */
  predicate Waits(r: Reader, st: Stage) {
    (st.AtCaption? || st.AtTrailer?) && |Flatten(r.stream)| < |Wire(st)|
  }

  lemma Prefixes<T>(a: seq<T>, more: seq<T>, h: seq<T>, x: seq<T>)
    requires a + more == h + x
    ensures |a| >= |h| ==> a == h + a[|h|..] && a[|h|..] + more == x
    ensures |a| < |h| ==> a == h[..|a|]
  {
    if |a| >= |h| {
      assert (a + more)[..|h|] == a[..|h|];
      assert (h + x)[..|h|] == h;
      assert (a + more)[|h|..] == a[|h|..] + more;
      assert (h + x)[|h|..] == x;
    } else {
      assert (a + more)[..|a|] == a;
      assert (h + x)[..|a|] == h[..|a|];
    }
  }

  function HeadSize(cs: seq<Chunk>): nat {
    if cs == [] then 0 else |cs[0].data|
  }

  lemma CaptionThenRest(sep: bool, cs: seq<Chunk>, end: End)
    ensures Wire(AtCaption(sep, cs, end)) == Header(sep, NextLine(cs, end)) + Wire(AfterCaption(cs, end))
  {
  }

  /** The bad cuts of a caption, and those behind it. */
  lemma CaptionCuts(sep: bool, cs: seq<Chunk>, end: End)
    ensures var n := |Header(sep, NextLine(cs, end))|;
            && (forall k {:trigger BadCut(AtCaption(sep, cs, end), k)} :: 0 < k < n ==>
                  BadCut(AtCaption(sep, cs, end), k) == ((sep && k == 1) || k > MAX_LINE))
            && SameCuts(AtCaption(sep, cs, end), AfterCaption(cs, end), n, n)
  {
    var n := |Header(sep, NextLine(cs, end))|;
    var later := if cs == [] then AtTrailer(end.trailer) else AtCaption(true, cs[1..], end);
    var l := n + HeadSize(cs);
    forall k {:trigger BadCut(AtCaption(sep, cs, end), k)} | 0 < k < n
      ensures BadCut(AtCaption(sep, cs, end), k) == ((sep && k == 1) || k > MAX_LINE)
    {
      if BadCut(later, k - l) { BadCutIsInside(later, k - l); }
    }
  }

  /** What the grammar says of the bytes at hand. */
  lemma CaptionParse(bytes: seq<byte>, sep: bool, cs: seq<Chunk>, end: End, tail: seq<byte>, more: seq<byte>)
    requires ChunksOk(cs) && EndOk(end) && bytes != [] && bytes + more == Wire(AtCaption(sep, cs, end)) + tail
    ensures var header := Header(sep, NextLine(cs, end));
            if |bytes| >= |header| then
              && ParseCaption(bytes) == Match(HeadSize(cs), |header|)
              && bytes[|header|..] + more == Wire(AfterCaption(cs, end)) + tail
            else
              && ParseCaption(bytes) == (if (sep && |bytes| == 1) || |bytes| > MAX_LINE then Bad else NeedMore)
              && |bytes| < |Wire(AtCaption(sep, cs, end))|
  {
    var n, line := HeadSize(cs), NextLine(cs, end);
    var header, rest := Header(sep, line), Wire(AfterCaption(cs, end));
    CaptionThenRest(sep, cs, end);
    assert bytes + more == header + (rest + tail);
    Prefixes(bytes, more, header, rest + tail);
    if |bytes| >= |header| {
      WholeCaption(sep, line, n, bytes[|header|..]);
    } else {
      PartOfCaption(sep, line, n, |bytes|);
    }
  }

  lemma CaptionStep(r: Reader, st: Stage, tail: seq<byte>, more: seq<byte>)
    requires Expects(r, st, tail, more) && r.stream != [] && st.AtCaption?
    ensures r.Step().1 == Ok ==>
              && Expects(r.Step().0, AfterCaption(st.cs, st.end), tail, more)
              && Progress(r, st, tail, r.Step().0, AfterCaption(st.cs, st.end), tail)
    ensures r.Step().1 == NeedMoreData ==> r.Step().0 == r && Waits(r, st) && !BadCut(st, |Flatten(r.stream)|)
    ensures r.Step().1 !in {Ok, NeedMoreData} ==> r.Step().1 == BadMessage && BadCut(st, |Flatten(r.stream)|)
  {
    FlattenIsEmpty(r.stream);
    CaptionParse(Flatten(r.stream), st.sep, st.cs, st.end, tail, more);
    CaptionCuts(st.sep, st.cs, st.end);
    if r.Step().1 == Ok {
      DropBytesIsSuffix(r.stream, |Header(st.sep, NextLine(st.cs, st.end))|);
      CaptionProgress(r, st, tail);
    }
  }

  lemma PayloadBehindCaption(sep: bool, cs: seq<Chunk>, end: End)
    ensures Payload(AfterCaption(cs, end)) == Payload(AtCaption(sep, cs, end))
  {
    assert cs != [] ==> Datas(cs)[1..] == Datas(cs[1..]);
  }

  lemma CaptionAgrees(r: Reader, st: Stage)
    requires Agrees(r, st) && st.AtCaption?
    requires var header := Header(st.sep, NextLine(st.cs, st.end));
             ParseCaption(Flatten(r.stream)) == Match(HeadSize(st.cs), |header|) && |header| <= |Flatten(r.stream)|
    ensures Agrees(r.ProcessCaption().0, AfterCaption(st.cs, st.end))
    ensures var r2 := r.ProcessCaption().0;
            && r2.body == r.body && r2.tail == r.tail
            && |Flatten(r2.stream)| == |Flatten(r.stream)| - |Header(st.sep, NextLine(st.cs, st.end))|
  {
    DropBytesIsSuffix(r.stream, |Header(st.sep, NextLine(st.cs, st.end))|);
  }

  lemma CaptionProgress(r: Reader, st: Stage, tail: seq<byte>)
    requires Agrees(r, st) && st.AtCaption?
    requires var header := Header(st.sep, NextLine(st.cs, st.end));
             ParseCaption(Flatten(r.stream)) == Match(HeadSize(st.cs), |header|) && |header| <= |Flatten(r.stream)|
    ensures Agrees(r.ProcessCaption().0, AfterCaption(st.cs, st.end))
    ensures Progress(r, st, tail, r.ProcessCaption().0, AfterCaption(st.cs, st.end), tail)
  {
    var n, st2 := |Header(st.sep, NextLine(st.cs, st.end))|, AfterCaption(st.cs, st.end);
    CaptionAgrees(r, st);
    CaptionCuts(st.sep, st.cs, st.end);
    PayloadBehindCaption(st.sep, st.cs, st.end);
    CutsFurtherOn(st, st2, n, |Flatten(r.stream)|);
  }

  lemma CutsFurtherOn(st: Stage, st2: Stage, n: nat, l: nat)
    requires SameCuts(st, st2, n, n) && l >= n
    ensures SameCuts(st, st2, n, l)
  {
  }

  /** The stage after a step that succeeds. */
  function NextStage(r: Reader, st: Stage): Stage
    requires r.stream != []
  {
    match st
    case AtCaption(_, cs, end) => AfterCaption(cs, end)
    case InBody(rest, cs, end) =>
      if |r.stream[0]| < |rest| then InBody(rest[|r.stream[0]|..], cs, end) else AtCaption(true, cs, end)
    case AtTrailer(lines) => if lines == [] then AtTail else AtTrailer(lines[1..])
    case AtTail => AtTail
  }

  function NextTail(r: Reader, st: Stage, tail: seq<byte>): seq<byte>
    requires r.stream != []
  {
    if st.AtTail? && |r.stream[0]| <= |tail| then tail[|r.stream[0]|..] else tail
  }

  lemma FirstPacket(ps: seq<Packet>, n: nat)
    requires NonEmpty(ps) && ps != [] && n <= |ps[0]|
    ensures n <= |Flatten(ps)| && ps[0][..n] == Flatten(ps)[..n]
    ensures NonEmpty(DropBytes(ps, n)) && Flatten(DropBytes(ps, n)) == Flatten(ps)[n..]
  {
    assert Flatten(ps) == ps[0] + Flatten(ps[1..]);
    DropBytesIsSuffix(ps, n);
  }

  lemma CommonStart<T>(a: seq<T>, more: seq<T>, rest: seq<T>, x: seq<T>, n: nat)
    requires a + more == rest + x && n <= |a| && n <= |rest|
    ensures a[..n] == rest[..n] && a[n..] + more == rest[n..] + x
  {
    assert (a + more)[..n] == a[..n] && (rest + x)[..n] == rest[..n];
    assert (a + more)[n..] == a[n..] + more && (rest + x)[n..] == rest[n..] + x;
  }

  lemma BodyPayload(st: Stage, st2: Stage, n: nat)
    requires st.InBody? && n <= |st.rest|
    requires st2 == if n < |st.rest| then InBody(st.rest[n..], st.cs, st.end) else AtCaption(true, st.cs, st.end)
    ensures Payload(st) == st.rest[..n] + Payload(st2)
  {
    assert st.rest == st.rest[..n] + st.rest[n..];
    if n < |st.rest| { Associate(st.rest[..n], st.rest[n..], Flatten(Datas(st.cs))); }
  }

  lemma BodyCuts(st: Stage, st2: Stage, n: nat, l: nat)
    requires st.InBody? && n <= |st.rest|
    requires st2 == if n < |st.rest| then InBody(st.rest[n..], st.cs, st.end) else AtCaption(true, st.cs, st.end)
    ensures SameCuts(st, st2, n, l)
  {
    forall k {:trigger BadCut(st, k)} | k >= l ensures BadCut(st, k) == BadCut(st2, k - n) {
      assert k - n - (|st.rest| - n) == k - |st.rest|;
    }
  }

  lemma BodyProgress(r: Reader, st: Stage, tail: seq<byte>, r2: Reader, st2: Stage, n: nat)
    requires st.InBody? && n <= |st.rest| && n <= |Flatten(r.stream)|
    requires st2 == if n < |st.rest| then InBody(st.rest[n..], st.cs, st.end) else AtCaption(true, st.cs, st.end)
    requires r2.body == r.body + st.rest[..n] && r2.tail == r.tail && Flatten(r2.stream) == Flatten(r.stream)[n..]
    ensures Progress(r, st, tail, r2, st2, tail)
  {
    BodyPayload(st, st2, n);
    Associate(r.body, st.rest[..n], Payload(st2));
    BodyCuts(st, st2, n, |Flatten(r.stream)|);
  }

  lemma BodyStep(r: Reader, st: Stage, tail: seq<byte>, more: seq<byte>)
    requires Expects(r, st, tail, more) && r.stream != [] && st.InBody?
    ensures r.Step().1 == Ok && Expects(r.Step().0, NextStage(r, st), tail, more)
    ensures Progress(r, st, tail, r.Step().0, NextStage(r, st), tail)
  {
    var n := if |r.stream[0]| <= |st.rest| then |r.stream[0]| else |st.rest|;
    var after := Wire(AtCaption(true, st.cs, st.end));
    FirstPacket(r.stream, n);
    assert (st.rest + after) + tail == st.rest + (after + tail);
    CommonStart(Flatten(r.stream), more, st.rest, after + tail, n);
    assert n == |st.rest| ==> st.rest[n..] + (after + tail) == after + tail;
    assert st.rest[n..] + (after + tail) == (st.rest[n..] + after) + tail;
    BodyProgress(r, st, tail, r.Step().0, NextStage(r, st), n);
  }

  /** What the grammar says of the bytes at hand. */
  lemma TrailerParse(bytes: seq<byte>, lines: seq<seq<byte>>, tail: seq<byte>, more: seq<byte>)
    requires TrailerOk(lines) && bytes + more == Wire(AtTrailer(lines)) + tail
    ensures var line := if lines == [] then [] else lines[0];
            var rest := if lines == [] then [] else Wire(AtTrailer(lines[1..]));
            if |bytes| >= |line| + 2 then
              && ParseTrailer(bytes) == Match(lines != [], |line| + 2)
              && bytes[|line| + 2..] + more == rest + tail
            else
              && ParseTrailer(bytes) == (if |bytes| > MAX_LINE then Bad else NeedMore)
              && |bytes| < |Wire(AtTrailer(lines))|
  {
    var line := if lines == [] then [] else lines[0];
    var rest := if lines == [] then [] else Wire(AtTrailer(lines[1..]));
    assert [] + CRLF == CRLF && CRLF + [] == CRLF;
    assert Wire(AtTrailer(lines)) == (line + CRLF) + rest;
    Associate(line + CRLF, rest, tail);
    Prefixes(bytes, more, line + CRLF, rest + tail);
    if |bytes| >= |line| + 2 {
      TrailerLine(line, bytes[|line| + 2..]);
    } else {
      PartOfTrailerLine(line, |bytes|);
    }
  }

  /** The bad cuts of a line of the trailer, and those behind it. */
  lemma TrailerCuts(lines: seq<seq<byte>>)
    requires lines != []
    ensures var n := |lines[0]| + 2;
            && (forall k {:trigger BadCut(AtTrailer(lines), k)} :: 0 < k < n ==> BadCut(AtTrailer(lines), k) == (k > MAX_LINE))
            && SameCuts(AtTrailer(lines), AtTrailer(lines[1..]), n, n)
  {
    var n := |lines[0]| + 2;
    forall k {:trigger BadCut(AtTrailer(lines), k)} | 0 < k < n ensures BadCut(AtTrailer(lines), k) == (k > MAX_LINE) {
      if BadCut(AtTrailer(lines[1..]), k - n) { BadCutIsInside(AtTrailer(lines[1..]), k - n); }
    }
  }

  lemma TrailerStep(r: Reader, st: Stage, tail: seq<byte>, more: seq<byte>)
    requires Expects(r, st, tail, more) && r.stream != [] && st.AtTrailer?
    ensures r.Step().1 == Ok ==>
              && Expects(r.Step().0, NextStage(r, st), tail, more)
              && Progress(r, st, tail, r.Step().0, NextStage(r, st), tail)
    ensures r.Step().1 == NeedMoreData ==> r.Step().0 == r && Waits(r, st) && !BadCut(st, |Flatten(r.stream)|)
    ensures r.Step().1 !in {Ok, NeedMoreData} ==> r.Step().1 == BadMessage && BadCut(st, |Flatten(r.stream)|)
  {
    FlattenIsEmpty(r.stream);
    TrailerParse(Flatten(r.stream), st.lines, tail, more);
    if st.lines != [] { TrailerCuts(st.lines); }
    if r.Step().1 == Ok {
      DropBytesIsSuffix(r.stream, if st.lines == [] then 2 else |st.lines[0]| + 2);
      assert st.lines == [] ==> [] + tail == tail;
    }
  }

  lemma TailStep(r: Reader, st: Stage, tail: seq<byte>, more: seq<byte>)
    requires Expects(r, st, tail, more) && r.stream != [] && st.AtTail?
    ensures r.Step().1 == Ok && Expects(r.Step().0, AtTail, NextTail(r, st, tail), more)
    ensures Progress(r, st, tail, r.Step().0, AtTail, NextTail(r, st, tail))
  {
    var n := |r.stream[0]|;
    FirstPacket(r.stream, n);
    assert tail == Flatten(r.stream) + more;
    assert tail[..n] == r.stream[0] && tail == tail[..n] + tail[n..];
  }

  lemma StepAgrees(r: Reader, st: Stage, tail: seq<byte>, more: seq<byte>)
    requires Expects(r, st, tail, more) && r.stream != []
    ensures r.Step().1 == Ok ==>
              && Expects(r.Step().0, NextStage(r, st), NextTail(r, st, tail), more)
              && Progress(r, st, tail, r.Step().0, NextStage(r, st), NextTail(r, st, tail))
    ensures r.Step().1 == NeedMoreData ==> r.Step().0 == r && Waits(r, st) && !BadCut(st, |Flatten(r.stream)|)
    ensures r.Step().1 !in {Ok, NeedMoreData} ==> r.Step().1 == BadMessage && BadCut(st, |Flatten(r.stream)|)
  {
    match st
    case AtCaption(_, _, _) => CaptionStep(r, st, tail, more);
    case InBody(_, _, _) => BodyStep(r, st, tail, more);
    case AtTrailer(_) => TrailerStep(r, st, tail, more);
    case AtTail => TailStep(r, st, tail, more);
  }

  // ----- whole runs -----

  lemma ProgressIsTransitive(r0: Reader, st0: Stage, t0: seq<byte>, r1: Reader, st1: Stage, t1: seq<byte>,
                             r2: Reader, st2: Stage, t2: seq<byte>)
    requires Progress(r0, st0, t0, r1, st1, t1) && Progress(r1, st1, t1, r2, st2, t2)
    ensures Progress(r0, st0, t0, r2, st2, t2)
  {
    var l0, l1, l2 := |Flatten(r0.stream)|, |Flatten(r1.stream)|, |Flatten(r2.stream)|;
    forall k {:trigger BadCut(st0, k)} | k >= l0 ensures BadCut(st0, k) == BadCut(st2, k - (l0 - l2)) {
      assert BadCut(st0, k) == BadCut(st1, k - (l0 - l1));
    }
  }

  /** Nothing is held back except an incomplete line. */
  predicate AtRest(r: Reader, st: Stage) {
    r.stream == [] || Waits(r, st)
  }

  /** Processing a batch fails exactly when it ends at a bad cut. */
  lemma {:induction false} RunAgrees(r: Reader, st: Stage, tail: seq<byte>, more: seq<byte>) returns (st2: Stage, tail2: seq<byte>)
    requires r.Valid() && Expects(r, st, tail, more)
    ensures r.Run().1 == (if BadCut(st, |Flatten(r.stream)|) then BadMessage else Ok)
    ensures r.Run().1 == Ok ==>
              && Expects(r.Run().0, st2, tail2, more) && AtRest(r.Run().0, st2)
              && Progress(r, st, tail, r.Run().0, st2, tail2)
    decreases |Flatten(r.stream)|
  {
    st2, tail2 := st, tail;
    if r.stream == [] {
      assert Flatten(r.stream) == [];
      NoCutAtStart(st);
    } else {
      r.StepShrinks();
      StepAgrees(r, st, tail, more);
      var (r1, code) := r.Step();
      if code == Ok {
        var st1, tail1 := NextStage(r, st), NextTail(r, st, tail);
        st2, tail2 := RunAgrees(r1, st1, tail1, more);
        if r1.Run().1 == Ok {
          ProgressIsTransitive(r, st, tail, r1, st1, tail1, r1.Run().0, st2, tail2);
        }
      }
    }
  }

  lemma NoCutAtStart(st: Stage)
    ensures !BadCut(st, 0)
  {
    if BadCut(st, 0) { BadCutIsInside(st, 0); }
  }

  /** Some batch ends at a bad cut: the one at offset l, or a later one. */
  predicate BadBatch(st: Stage, l: nat, packets: seq<Packet>)
    decreases |packets|
  {
    BadCut(st, l) || (packets != [] && BadBatch(st, l + |packets[0]|, packets[1..]))
  }

  lemma {:induction false} BadBatchMoves(st: Stage, st2: Stage, n: nat, l0: nat, l: nat, packets: seq<Packet>)
    requires SameCuts(st, st2, n, l0) && l >= l0 && l >= n
    ensures BadBatch(st, l, packets) == BadBatch(st2, l - n, packets)
    decreases |packets|
  {
    assert BadCut(st, l) == BadCut(st2, l - n);
    if packets != [] {
      BadBatchMoves(st, st2, n, l0, l + |packets[0]|, packets[1..]);
    }
  }

  lemma {:induction false} NoBadBatchInTail(l: nat, packets: seq<Packet>)
    ensures !BadBatch(AtTail, l, packets)
    decreases |packets|
  {
    if packets != [] { NoBadBatchInTail(l + |packets[0]|, packets[1..]); }
  }

  /** The reader has worked off all it could, without an error. */
  ghost predicate Rests(r: Reader, st: Stage, tail: seq<byte>, more: seq<byte>) {
    r.Valid() && Expects(r, st, tail, more) && AtRest(r, st) && !BadCut(st, |Flatten(r.stream)|)
  }

  /** While the body is not complete, there is something left to read. */
  lemma NotDoneNeedsMore(r: Reader, st: Stage, tail: seq<byte>, more: seq<byte>)
    requires Rests(r, st, tail, more)
    ensures if r.IsDone() then st == AtTail && r.stream == [] && tail == more else more != []
  {
    if r.IsDone() {
      assert Flatten(r.stream) + more == more && Wire(st) + tail == tail;
    }
  }

  lemma SameBatches(r: Reader, st: Stage, tail: seq<byte>, r2: Reader, st2: Stage, tail2: seq<byte>, rest: seq<Packet>)
    requires Progress(r, st, tail, r2, st2, tail2)
    ensures BadCut(st2, |Flatten(r2.stream)|) == BadCut(st, |Flatten(r.stream)|)
    ensures BadBatch(st2, |Flatten(r2.stream)|, rest) == BadBatch(st, |Flatten(r.stream)|, rest)
  {
    var l := |Flatten(r.stream)|;
    var n := l - |Flatten(r2.stream)|;
    assert BadCut(st, l) == BadCut(st2, l - n);
    BadBatchMoves(st, st2, n, l, l, rest);
  }

  /** One batch: either the reader fails, at a bad cut, or it rests again and the later bad cuts stay where they were. */
  lemma BatchAgrees(r: Reader, st: Stage, tail: seq<byte>, rest: seq<Packet>, r2: Reader, code: Code)
    returns (st2: Stage, tail2: seq<byte>)
    requires r.Valid() && Expects(r, st, tail, Flatten(rest)) && (r2, code) == r.Run()
    ensures code == if BadCut(st, |Flatten(r.stream)|) then BadMessage else Ok
    ensures code == Ok ==>
              && Rests(r2, st2, tail2, Flatten(rest))
              && r2.body + Payload(st2) == r.body + Payload(st) && r2.tail + tail2 == r.tail + tail
              && BadBatch(st2, |Flatten(r2.stream)|, rest) == BadBatch(st, |Flatten(r.stream)|, rest)
  {
    r.RunKeeps();
    st2, tail2 := RunAgrees(r, st, tail, Flatten(rest));
    if code == Ok { SameBatches(r, st, tail, r2, st2, tail2, rest); }
  }

  /** What the whole run comes to. */
  predicate ReadResult(r: Reader, st: Stage, tail: seq<byte>, bad: bool, r2: Reader, code: Code, unread: seq<Packet>) {
    && code == (if bad then BadMessage else Ok)
    && (code == Ok ==>
          r2.IsDone() && r2.stream == [] && r2.body == r.body + Payload(st) && r2.tail + Flatten(unread) == r.tail + tail)
  }

  lemma PushExpects(r: Reader, st: Stage, tail: seq<byte>, packets: seq<Packet>)
    requires Rests(r, st, tail, Flatten(packets)) && NonEmpty(packets) && packets != []
    ensures var pushed := r.(stream := r.stream + [packets[0]]);
            && pushed.Valid() && Expects(pushed, st, tail, Flatten(packets[1..]))
            && BadBatch(st, |Flatten(r.stream)|, packets) == BadBatch(st, |Flatten(pushed.stream)|, packets[1..])
  {
    FlattenSnoc(r.stream, packets[0]);
    Associate(Flatten(r.stream), packets[0], Flatten(packets[1..]));
  }

  lemma ReadUnfolds(r: Reader, packets: seq<Packet>)
    requires r.Valid() && !r.IsDone() && NonEmpty(packets) && packets != []
    ensures var pushed := r.(stream := r.stream + [packets[0]]);
            && pushed.Valid() && pushed.Run().0.Valid()
            && r.Read(packets) == if pushed.Run().1 == Ok then pushed.Run().0.Read(packets[1..])
                                  else (pushed.Run().0, pushed.Run().1, packets[1..])
  {
    r.(stream := r.stream + [packets[0]]).RunKeeps();
  }

  lemma {:induction false} ReadAgrees(r: Reader, st: Stage, tail: seq<byte>, packets: seq<Packet>)
    requires NonEmpty(packets) && Rests(r, st, tail, Flatten(packets))
    ensures var (r2, code, unread) := r.Read(packets);
            ReadResult(r, st, tail, BadBatch(st, |Flatten(r.stream)|, packets), r2, code, unread)
    decreases |packets|
  {
    NotDoneNeedsMore(r, st, tail, Flatten(packets));
    if r.IsDone() {
      NoBadBatchInTail(|Flatten(r.stream)|, packets);
    } else {
      var rest := packets[1..];
      var pushed := r.(stream := r.stream + [packets[0]]);
      PushExpects(r, st, tail, packets);
      ReadUnfolds(r, packets);
      var (r2, code) := pushed.Run();
      var st2, tail2 := BatchAgrees(pushed, st, tail, rest, r2, code);
      if code == Ok {
        ReadAgrees(r2, st2, tail2, rest);
      }
    }
  }

  /** From the first batch on. */
  lemma MessageAgrees(cs: seq<Chunk>, end: End, tail: seq<byte>, first: seq<Packet>, packets: seq<Packet>)
    requires ChunksOk(cs) && EndOk(end) && NonEmpty(first) && NonEmpty(packets)
    requires Flatten(first) + Flatten(packets) == Wire(AtCaption(false, cs, end)) + tail
    ensures var (r, code, unread) := ReadMessage(ChunkedReader(), first, packets);
            var st := AtCaption(false, cs, end);
            ReadResult(ChunkedReader(), st, tail, BadBatch(st, |Flatten(first)|, packets), r, code, unread)
  {
    var st := AtCaption(false, cs, end);
    var pushed := ChunkedReader().(stream := first);
    pushed.RunKeeps();
    var (r2, code) := pushed.Run();
    var st2, tail2 := BatchAgrees(pushed, st, tail, packets, r2, code);
    if code == Ok {
      ReadAgrees(r2, st2, tail2, packets);
    }
  }

  // ----- where the bad cuts are -----

  /** Offset k is one byte before the end of the frame of chunk j - 1. */
  predicate EndsFrame(cs: seq<Chunk>, j: nat, k: int) {
    0 < j <= |cs| && k == |Frames(cs[..j])| - 1
  }

  ghost predicate EndsSomeFrame(cs: seq<Chunk>, k: int) {
    exists j: nat :: EndsFrame(cs, j, k)
  }

  lemma FramesAfterFirst(cs: seq<Chunk>, j: nat)
    requires cs != [] && j < |cs|
    ensures Frames(cs[..j + 1]) == Frame(cs[0]) + Frames(cs[1..][..j])
  {
    assert cs[..j + 1] == [cs[0]] + cs[1..][..j];
    FramesCons(cs[0], cs[1..][..j]);
  }

  lemma FirstFrameOrLater(cs: seq<Chunk>, k: int)
    requires cs != []
    ensures EndsSomeFrame(cs, k) <==> k == |Frame(cs[0])| - 1 || EndsSomeFrame(cs[1..], k - |Frame(cs[0])|)
  {
    var n, rest := |Frame(cs[0])|, cs[1..];
    FramesAfterFirst(cs, 0);
    if k == n - 1 {
      assert EndsFrame(cs, 1, k);
    } else if EndsSomeFrame(rest, k - n) {
      var j: nat :| EndsFrame(rest, j, k - n);
      FramesAfterFirst(cs, j);
      assert EndsFrame(cs, j + 1, k);
    } else if EndsSomeFrame(cs, k) {
      var j: nat :| EndsFrame(cs, j, k);
      FramesAfterFirst(cs, j - 1);
      assert j > 1 ==> EndsFrame(rest, j - 1, k - n);
    }
  }

  /** From where to where a line goes that the reader wants to see whole. */
  datatype Span = Span(begin: int, end: int)

  /** The lines of a trailer that begins at offset `at`, with their ends; the empty line is short. */
  function TrailerSpans(lines: seq<seq<byte>>, at: int): seq<Span> {
    if lines == [] then []
    else [Span(at, at + |lines[0]| + 2)] + TrailerSpans(lines[1..], at + |lines[0]| + 2)
  }

  /** The size lines of chunks from offset `at` on, with the line end of the data before, and the lines of the trailer. */
  function Spans(cs: seq<Chunk>, end: End, sep: bool, at: int): seq<Span>
    decreases |cs|
  {
    var e := at + |Separator(sep)| + |NextLine(cs, end).Bytes()| + 2;
    [Span(at, e)] + (if cs == [] then TrailerSpans(end.trailer, e) else Spans(cs[1..], end, true, e + |cs[0].data|))
  }

  /** Offset k lies in a line, more than 1024 bytes behind its beginning. */
  predicate InLongLine(spans: seq<Span>, k: int) {
    exists i :: 0 <= i < |spans| && spans[i].begin + 1024 < k < spans[i].end
  }

  lemma InLongLineCons(span: Span, spans: seq<Span>, k: int)
    ensures InLongLine([span] + spans, k) <==> span.begin + 1024 < k < span.end || InLongLine(spans, k)
  {
    var all := [span] + spans;
    if span.begin + 1024 < k < span.end { assert all[0] == span; }
    if InLongLine(spans, k) {
      var i :| 0 <= i < |spans| && spans[i].begin + 1024 < k < spans[i].end;
      assert all[i + 1] == spans[i];
    }
    if InLongLine(all, k) {
      var i :| 0 <= i < |all| && all[i].begin + 1024 < k < all[i].end;
      assert i > 0 ==> all[i] == spans[i - 1];
    }
  }

  lemma {:induction false} TrailerCutsAre(lines: seq<seq<byte>>, at: int, k: int)
    ensures BadCut(AtTrailer(lines), k - at) <==> InLongLine(TrailerSpans(lines, at), k)
  {
    if lines != [] {
      var e := at + |lines[0]| + 2;
      TrailerCutsAre(lines[1..], e, k);
      InLongLineCons(Span(at, e), TrailerSpans(lines[1..], e), k);
    }
  }

  lemma CutsOfCaption(cs: seq<Chunk>, end: End, sep: bool, at: int, k: int)
    ensures var e := at + |Header(sep, NextLine(cs, end))|;
            BadCut(AtCaption(sep, cs, end), k - at) <==>
              || (sep && k == at + 1)
              || at + 1024 < k < e
              || (if cs == [] then BadCut(AtTrailer(end.trailer), k - e)
                  else BadCut(AtCaption(true, cs[1..], end), k - (e + |cs[0].data|)))
  {
    var n := |Header(sep, NextLine(cs, end))|;
    assert k - at - n == k - (at + n);
    assert cs != [] ==> k - at - (n + |cs[0].data|) == k - (at + n + |cs[0].data|);
  }

  /** Between the CR and the LF behind a chunk, or far inside a long line. */
  ghost predicate CutAt(cs: seq<Chunk>, end: End, sep: bool, at: int, k: int) {
    || (sep && k == at + 1)
    || EndsSomeFrame(cs, k - at - |Separator(sep)|)
    || InLongLine(Spans(cs, end, sep, at), k)
  }

  lemma CutAtFirst(cs: seq<Chunk>, end: End, sep: bool, at: int, k: int)
    requires cs != []
    ensures var e := at + |Header(sep, NextLine(cs, end))|;
            CutAt(cs, end, sep, at, k) <==>
              || (sep && k == at + 1)
              || at + 1024 < k < e
              || CutAt(cs[1..], end, true, e + |cs[0].data|, k)
  {
    var e := at + |Separator(sep)| + |NextLine(cs, end).Bytes()| + 2;
    var later := e + |cs[0].data|;
    var i, n := k - at - |Separator(sep)|, |Frame(cs[0])|;
    FirstFrameOrLater(cs, i);
    assert n == |cs[0].line.Bytes()| + 2 + |cs[0].data| + 2;
    assert i - n == k - later - 2 && (i == n - 1 <==> k == later + 1);
    InLongLineCons(Span(at, e), Spans(cs[1..], end, true, later), k);
  }

  /** The bad cuts are these. */
  lemma {:induction false} BadCutsAre(cs: seq<Chunk>, end: End, sep: bool, at: int, k: int)
    ensures BadCut(AtCaption(sep, cs, end), k - at) <==> CutAt(cs, end, sep, at, k)
    decreases |cs|
  {
    var e := at + |Separator(sep)| + |NextLine(cs, end).Bytes()| + 2;
    CutsOfCaption(cs, end, sep, at, k);
    if cs == [] {
      TrailerCutsAre(end.trailer, e, k);
      InLongLineCons(Span(at, e), TrailerSpans(end.trailer, e), k);
    } else {
      BadCutsAre(cs[1..], end, true, e + |cs[0].data|, k);
      CutAtFirst(cs, end, sep, at, k);
    }
  }

  /** Where the batch ends that takes i packets after the first l bytes. */
  function BatchEnd(l: nat, packets: seq<Packet>, i: nat): nat
    requires i <= |packets|
  {
    l + |Flatten(packets[..i])|
  }

  lemma {:induction false} BadBatchAt(st: Stage, l: nat, packets: seq<Packet>)
    ensures BadBatch(st, l, packets) <==> exists i: nat :: i <= |packets| && BadCut(st, BatchEnd(l, packets, i))
    decreases |packets|
  {
    assert packets[..0] == [] && BatchEnd(l, packets, 0) == l;
    if packets != [] {
      var l1, rest := l + |packets[0]|, packets[1..];
      BadBatchAt(st, l1, rest);
      forall i: nat | i < |packets| ensures BatchEnd(l, packets, i + 1) == BatchEnd(l1, rest, i) {
        assert packets[..i + 1][1..] == rest[..i];
      }
      forall i: nat | 0 < i <= |packets| ensures BatchEnd(l, packets, i) == BatchEnd(l1, rest, i - 1) {
        assert i == (i - 1) + 1;
      }
    }
  }

  /** The reader gets a batch that ends between the CR and the LF behind the data of a chunk. */
  ghost predicate CutInsideLineEnd(cs: seq<Chunk>, first: seq<Packet>, packets: seq<Packet>) {
    exists i: nat :: i <= |packets| && EndsSomeFrame(cs, BatchEnd(|Flatten(first)|, packets, i))
  }

  /** It gets a batch that ends inside a size line or a line of the trailer, more than 1024 bytes behind its beginning. */
  ghost predicate CutInLongLine(cs: seq<Chunk>, end: End, first: seq<Packet>, packets: seq<Packet>) {
    exists i: nat :: i <= |packets| && InLongLine(Spans(cs, end, false, 0), BatchEnd(|Flatten(first)|, packets, i))
  }

  lemma BadBatchesAre(cs: seq<Chunk>, end: End, first: seq<Packet>, packets: seq<Packet>)
    ensures BadBatch(AtCaption(false, cs, end), |Flatten(first)|, packets) <==>
              CutInsideLineEnd(cs, first, packets) || CutInLongLine(cs, end, first, packets)
  {
    var l, st := |Flatten(first)|, AtCaption(false, cs, end);
    BadBatchAt(st, l, packets);
    forall i: nat | i <= |packets|
      ensures BadCut(st, BatchEnd(l, packets, i)) <==>
                || EndsSomeFrame(cs, BatchEnd(l, packets, i))
                || InLongLine(Spans(cs, end, false, 0), BatchEnd(l, packets, i))
    {
      var k := BatchEnd(l, packets, i);
      BadCutsAre(cs, end, false, 0, k);
      assert k - 0 == k && k - 0 - |Separator(false)| == k;
    }
  }

  /**
    A chunked body, with whatever extensions and trailer fields, and whatever follows it, cut into packets in any way, are taken
    apart again: the body is the data of the chunks, all lines of the trailer are taken, and the rest is passed on or left
    unread. A bad message is found exactly when a batch ends inside the line end behind the data of a chunk, or far inside a
    long line.
  */
  lemma ReaderTakesChunksApart(cs: seq<Chunk>, end: End, tail: seq<byte>, first: seq<Packet>, packets: seq<Packet>)
    requires ChunksOk(cs) && EndOk(end) && NonEmpty(first) && NonEmpty(packets)
    requires Flatten(first) + Flatten(packets) == Frames(cs) + EndBytes(end) + tail
    ensures var (r, code, unread) := ReadMessage(ChunkedReader(), first, packets);
            && code == (if CutInsideLineEnd(cs, first, packets) || CutInLongLine(cs, end, first, packets) then BadMessage else Ok)
            && (code == Ok ==> r.body == Flatten(Datas(cs)) && r.tail + Flatten(unread) == tail && r.IsDone() && r.stream == [])
  {
    FramesAreWire(cs, end, false);
    assert Separator(false) + Frames(cs) == Frames(cs);
    MessageAgrees(cs, end, tail, first, packets);
    BadBatchesAre(cs, end, first, packets);
    var (r, code, unread) := ReadMessage(ChunkedReader(), first, packets);
    assert code == Ok ==> r.tail + Flatten(unread) == [] + tail;
  }

  /** Every line, with its end and the line end before it, has at most 1025 bytes. */
  predicate ShortLines(cs: seq<Chunk>, end: End) {
    && (forall i :: 0 <= i < |cs| ==> |cs[i].line.Bytes()| + 4 <= 1025)
    && |end.line.Bytes()| + 4 <= 1025
    && (forall i :: 0 <= i < |end.trailer| ==> |end.trailer[i]| + 2 <= 1025)
  }

  lemma {:induction false} ShortTrailer(lines: seq<seq<byte>>, at: int, k: int)
    requires forall i :: 0 <= i < |lines| ==> |lines[i]| + 2 <= 1025
    ensures !InLongLine(TrailerSpans(lines, at), k)
  {
    if lines != [] {
      var e := at + |lines[0]| + 2;
      ShortTrailer(lines[1..], e, k);
      InLongLineCons(Span(at, e), TrailerSpans(lines[1..], e), k);
    }
  }

  lemma ShortFirst(cs: seq<Chunk>, end: End)
    requires ShortLines(cs, end)
    ensures |NextLine(cs, end).Bytes()| + 4 <= 1025
    ensures cs != [] ==> ShortLines(cs[1..], end)
  {
  }

  lemma {:induction false} ShortSpans(cs: seq<Chunk>, end: End, sep: bool, at: int, k: int)
    requires ShortLines(cs, end)
    ensures !InLongLine(Spans(cs, end, sep, at), k)
    decreases |cs|
  {
    ShortFirst(cs, end);
    var e := at + |Separator(sep)| + |NextLine(cs, end).Bytes()| + 2;
    var later := if cs == [] then TrailerSpans(end.trailer, e) else Spans(cs[1..], end, true, e + |cs[0].data|);
    if cs == [] {
      ShortTrailer(end.trailer, e, k);
    } else {
      ShortSpans(cs[1..], end, true, e + |cs[0].data|, k);
    }
    assert Spans(cs, end, sep, at) == [Span(at, e)] + later;
    InLongLineCons(Span(at, e), later, k);
  }

  /** With short lines only a batch that ends inside the line end behind the data of a chunk is taken for a bad message. */
  lemma ShortLinesAreKept(cs: seq<Chunk>, end: End, first: seq<Packet>, packets: seq<Packet>)
    requires ShortLines(cs, end)
    ensures !CutInLongLine(cs, end, first, packets)
  {
    forall i: nat | i <= |packets| ensures !InLongLine(Spans(cs, end, false, 0), BatchEnd(|Flatten(first)|, packets, i)) {
      ShortSpans(cs, end, false, 0, BatchEnd(|Flatten(first)|, packets, i));
    }
  }

  /** What the encoder writes. */
  lemma PlainsOk(datas: seq<Packet>)
    requires forall i :: 0 <= i < |datas| ==> 0 < |datas[i]| < SIZE_LIMIT
    ensures ChunksOk(Plains(datas)) && EndOk(PLAIN_END) && ShortLines(Plains(datas), PLAIN_END)
    ensures Datas(Plains(datas)) == datas && EndBytes(PLAIN_END) == LAST_CHUNK
  {
    PlainSays(0);
    forall i | 0 <= i < |datas| ensures SizeLine(Hex(|datas[i]|), []).Says(|datas[i]|) && |Hex(|datas[i]|)| <= 16 {
      PlainSays(|datas[i]|);
      SizeFitsHeader(|datas[i]|);
    }
  }

  /** Any pushes, through an encoder of any granularity, then a reader: the body is what was pushed. */
  lemma EncodedBodyIsRead(granula: nat, pushes: seq<Packet>, tail: seq<byte>, first: seq<Packet>, packets: seq<Packet>)
    requires NonEmpty(pushes) && |Flatten(pushes)| < SIZE_LIMIT && NonEmpty(first) && NonEmpty(packets)
    requires Flatten(first) + Flatten(packets) == Frames(Plains(EncodedChunks(granula, pushes, []))) + LAST_CHUNK + tail
    ensures var (r, code, unread) := ReadMessage(ChunkedReader(), first, packets);
            && code == (if CutInsideLineEnd(Plains(EncodedChunks(granula, pushes, [])), first, packets) then BadMessage else Ok)
            && (code == Ok ==> r.body == Flatten(pushes) && r.tail + Flatten(unread) == tail)
  {
    var cs := EncodedChunks(granula, pushes, []);
    EncodedChunksKeepBytes(granula, pushes, []);
    assert [] + Flatten(pushes) == Flatten(pushes);
    forall i | 0 <= i < |cs| ensures 0 < |cs[i]| < SIZE_LIMIT {
      FlattenSplit(cs, i);
      assert Flatten(cs[i..]) == cs[i] + Flatten(cs[i..][1..]);
    }
    PlainsOk(cs);
    ReaderTakesChunksApart(Plains(cs), PLAIN_END, tail, first, packets);
    ShortLinesAreKept(Plains(cs), PLAIN_END, first, packets);
  }
}
