/**
  The headers the writer settles on (outputMessage.cpp) and the extractor the reader picks from them (inputMessage.cpp):
  section 6.3 of RFC 9112.
*/
module Framing {
  import opened Basics
  import opened Packets
  import opened ChunkFormat
  import opened BodyReader
  import opened ChunkedRoundTrip

  // ----- bodies without chunks -----

  function Min(a: nat, b: nat): nat {
    if a <= b then a else b
  }

  lemma SplitTake(a: seq<byte>, b: seq<byte>, n: nat)
    ensures (a + b)[..Min(n, |a| + |b|)] == a[..Min(n, |a|)] + b[..Min(n - Min(n, |a|), |b|)]
    ensures (a + b)[Min(n, |a| + |b|)..] == a[Min(n, |a|)..] + b[Min(n - Min(n, |a|), |b|)..]
  {
  }

  /** From r to r2, n bytes have gone to the body and the others behind it. */
  predicate Sorted(r: Reader, r2: Reader, bytes: seq<byte>, n: nat) {
    n <= |bytes| && r2.body == r.body + bytes[..n] && r2.tail == r.tail + bytes[n..]
  }

  lemma SortedStep(size: nat, a: seq<byte>, b: seq<byte>, r: Reader, r1: Reader, r2: Reader)
    requires Sorted(r, r1, a, Min(size, |a|)) && Sorted(r1, r2, b, Min(size - Min(size, |a|), |b|))
    ensures Sorted(r, r2, a + b, Min(size, |a| + |b|))
  {
    SplitTake(a, b, size);
  }

  lemma SizedStep(r: Reader, k: nat)
    requires r.Valid() && r.kind == Sized && r.stream != []
    requires k == if r.bodySize > 0 then Min(r.bodySize, |r.stream[0]|) else |r.stream[0]|
    ensures k <= |Flatten(r.stream)| && Flatten(r.Step().0.stream) == Flatten(r.stream)[k..]
    ensures Sorted(r, r.Step().0, Flatten(r.stream)[..k], Min(r.bodySize, k))
    ensures r.Step().0.bodySize == r.bodySize - Min(r.bodySize, k) && r.Step().1 == Ok
  {
    FirstPacket(r.stream, k);
    var bytes := Flatten(r.stream)[..k];
    assert r.bodySize > 0 ==> bytes[..k] == bytes && bytes[k..] == [];
  }

  lemma RunUnfolds(r: Reader)
    requires r.Valid() && r.stream != [] && r.Step().1 == Ok
    ensures r.Step().0.Valid() && r.Step().0.kind == r.kind && |Flatten(r.Step().0.stream)| < |Flatten(r.stream)|
    ensures r.Run() == r.Step().0.Run()
  {
    r.StepShrinks();
  }

  /** All that came in has gone to the body or behind it. */
  predicate SizedDone(r: Reader, r2: Reader, code: Code) {
    var n := Min(r.bodySize, |Flatten(r.stream)|);
    code == Ok && r2.kind == Sized && r2.stream == [] && Sorted(r, r2, Flatten(r.stream), n) && r2.bodySize == r.bodySize - n
  }

  lemma SizedStepDone(r: Reader, k: nat, r1: Reader, r2: Reader, code: Code)
    requires k <= |Flatten(r.stream)| && Flatten(r1.stream) == Flatten(r.stream)[k..]
    requires Sorted(r, r1, Flatten(r.stream)[..k], Min(r.bodySize, k)) && r1.bodySize == r.bodySize - Min(r.bodySize, k)
    requires SizedDone(r1, r2, code)
    ensures SizedDone(r, r2, code)
  {
    var bytes := Flatten(r.stream);
    assert bytes == bytes[..k] + bytes[k..];
    SortedStep(r.bodySize, bytes[..k], bytes[k..], r, r1, r2);
  }

  /** A sized reader in the middle of its work. */
  lemma {:induction false} SizedRun(r: Reader)
    requires r.Valid() && r.kind == Sized
    ensures SizedDone(r, r.Run().0, r.Run().1)
    decreases |Flatten(r.stream)|
  {
    if r.stream != [] {
      var k := if r.bodySize > 0 then Min(r.bodySize, |r.stream[0]|) else |r.stream[0]|;
      SizedStep(r, k);
      RunUnfolds(r);
      SizedRun(r.Step().0);
      SizedStepDone(r, k, r.Step().0, r.Run().0, r.Run().1);
    }
  }

  /** The body is the first `size` bytes, the others are behind it. */
  predicate TookSize(size: nat, bytes: seq<byte>, r: Reader, r2: Reader, code: Code, unread: seq<Packet>) {
    && code == (if size <= |bytes| then Ok else Eof)
    && (code == Ok ==> r2.body == r.body + bytes[..size] && r2.tail + Flatten(unread) == r.tail + bytes[size..]
                       && r2.IsDone() && r2.stream == [])
  }

  lemma TookSizeStep(size: nat, a: seq<byte>, b: seq<byte>, r: Reader, r1: Reader, r2: Reader, code: Code, unread: seq<Packet>)
    requires Sorted(r, r1, a, Min(size, |a|)) && TookSize(size - Min(size, |a|), b, r1, r2, code, unread)
    ensures TookSize(size, a + b, r, r2, code, unread)
  {
    SplitTake(a, b, size);
  }

  lemma {:induction false} SizedRead(r: Reader, packets: seq<Packet>)
    requires r.Valid() && r.kind == Sized && r.stream == [] && NonEmpty(packets)
    ensures var (r2, code, unread) := r.Read(packets);
            TookSize(r.bodySize, Flatten(packets), r, r2, code, unread)
    decreases |packets|
  {
    if r.bodySize > 0 && packets != [] {
      var p, rest := packets[0], packets[1..];
      var pushed := r.(stream := [p]);
      assert r.stream + [p] == [p];
      FlattenOne(p);
      SizedRun(pushed);
      ReadUnfolds(r, packets);
      SizedRead(pushed.Run().0, rest);
      var (r2, code, unread) := r.Read(packets);
      TookSizeStep(r.bodySize, p, Flatten(rest), r, pushed.Run().0, r2, code, unread);
    }
  }

  /** A reader of a known size takes exactly that many bytes, or reports that the other side stopped too early. */
  lemma SizedReaderTakesSize(size: nat, first: seq<Packet>, packets: seq<Packet>)
    requires NonEmpty(first) && NonEmpty(packets)
    ensures var (r, code, unread) := ReadMessage(SizedReader(size), first, packets);
            TookSize(size, Flatten(first) + Flatten(packets), SizedReader(size), r, code, unread)
  {
    var pushed := SizedReader(size).(stream := first);
    SizedRun(pushed);
    var r1 := pushed.Run().0;
    SizedRead(r1, packets);
    var (r, code, unread) := ReadMessage(SizedReader(size), first, packets);
    TookSizeStep(size, Flatten(first), Flatten(packets), SizedReader(size), r1, r, code, unread);
  }

  lemma JoinAt(before: seq<byte>, bytes: seq<byte>, n: nat)
    requires n <= |bytes|
    ensures before + bytes[..n] + bytes[n..] == before + bytes
  {
  }

  lemma {:induction false} UntilCloseRun(r: Reader)
    requires r.Valid() && r.kind == UntilClose
    ensures var (r2, code) := r.Run();
            code == Ok && r2.kind == UntilClose && r2.stream == [] && r2.body == r.body + Flatten(r.stream) && r2.tail == r.tail
    decreases |Flatten(r.stream)|
  {
    if r.stream != [] {
      var bytes, n := Flatten(r.stream), Min(SIZE_LIMIT - 1, |r.stream[0]|);
      FirstPacket(r.stream, n);
      RunUnfolds(r);
      UntilCloseRun(r.Step().0);
      JoinAt(r.body, bytes, n);
    }
  }

  lemma {:induction false} UntilCloseRead(r: Reader, packets: seq<Packet>)
    requires r.Valid() && r.kind == UntilClose && r.stream == [] && NonEmpty(packets)
    ensures var (r2, code, unread) := r.Read(packets);
            code == Ok && unread == [] && r2.stream == [] && r2.body == r.body + Flatten(packets) && r2.tail == r.tail
    decreases |packets|
  {
    if packets != [] {
      var pushed := r.(stream := [packets[0]]);
      assert r.stream + [packets[0]] == [packets[0]];
      FlattenOne(packets[0]);
      UntilCloseRun(pushed);
      ReadUnfolds(r, packets);
      UntilCloseRead(pushed.Run().0, packets[1..]);
      assert Flatten(packets) == packets[0] + Flatten(packets[1..]);
    }
  }

  /** Reading until the other side closes takes everything, and the end of the stream is no error. */
  lemma UntilCloseReaderTakesAll(first: seq<Packet>, packets: seq<Packet>)
    requires NonEmpty(first) && NonEmpty(packets)
    ensures var (r, code, unread) := ReadMessage(UntilCloseReader(), first, packets);
            code == Ok && r.body == Flatten(first) + Flatten(packets) && r.tail == [] && unread == [] && r.stream == []
  {
    var pushed := UntilCloseReader().(stream := first);
    UntilCloseRun(pushed);
    UntilCloseRead(pushed.Run().0, packets);
  }

  // ----- the writer's headers -----

  datatype Coding = Identity | Deflate | Gzip

  datatype Connection = Unknown | KeepAlive | Close

  /** What the user of a message has set, and what is left of it when the headers are written. */
  datatype Settings = Settings(contentLength: Option<nat>, chunked: bool, keepAlive: Connection, coding: Coding, level: int)

  /** The system headers of a message: absent ones are None, false, Identity and Unknown. */
  datatype Headers = Headers(contentLength: Option<nat>, chunked: bool, coding: Coding, connection: Connection)

  /**
    The settings that are left: a known length that is empty or not to be compressed turns coding off, coding makes the length
    unknown, chunks are only used when it is, and without length or chunks the connection cannot be kept.
  */
  function Settled(s: Settings): Settings {
    var coding := if s.contentLength.Some? && (s.contentLength.value == 0 || s.level == 0) then Identity else s.coding;
    var length := if coding == Identity then s.contentLength else None;
    var chunked := s.chunked && length.None?;
    var keepAlive := if length.None? && !chunked && s.keepAlive == KeepAlive then Close else s.keepAlive;
    Settings(length, chunked, keepAlive, coding, s.level)
  }

  function HeadersOf(s: Settings): Headers {
    Headers(s.contentLength, s.chunked, s.coding, s.keepAlive)
  }

  /** The framing fields of a message that is written. */
  class OutputFraming {
    var contentLength: Option<nat>
    var chunked: bool
    var keepAlive: Connection
    var contentEncoding: Coding
    var compressLevel: int

    function View(): Settings
      reads this
    {
      Settings(contentLength, chunked, keepAlive, contentEncoding, compressLevel)
    }

    constructor (s: Settings)
      ensures View() == s
    {
      contentLength, chunked, keepAlive, contentEncoding, compressLevel :=
        s.contentLength, s.chunked, s.keepAlive, s.coding, s.level;
    }

    method WriteSystemHeaders() returns (h: Headers)
      modifies this
      ensures View() == Settled(old(View())) && h == HeadersOf(View())
      ensures h.contentLength == contentLength && h.chunked == chunked && h.coding == contentEncoding && h.connection == keepAlive
    {
      if contentLength.Some? {
        if contentLength.value != 0 {
          if compressLevel != 0 {
            if contentEncoding != Identity {
              contentLength := None;
              if !chunked && keepAlive == KeepAlive {
                keepAlive := Close;
              }
            } else if chunked {
              chunked := false;
            }
          } else {
            contentEncoding := Identity;
          }
        } else {
          contentEncoding := Identity;
          chunked := false;
        }
      } else if !chunked && keepAlive == KeepAlive {
        keepAlive := Close;
      }
      if chunked && contentLength.Some? {
        chunked := false;
      }
      h := Headers(contentLength, chunked, contentEncoding, keepAlive);
    }
  }

  // ----- the reader's choice -----

  /** The extractor and what its body decoder undoes. */
  datatype Extractor = Extractor(reader: Reader, coding: Coding)

  /**
    `prepareBodyExtractor`; None is a bad message. When there is no Connection header, the code of a version before 1.1 looks at
    a value that was never set: `stray`.
  */
  function PrepareBodyExtractor(h: Headers, before11: bool, stray: Connection): Option<Extractor> {
    if h.contentLength.Some? then Some(Extractor(SizedReader(h.contentLength.value), h.coding))
    else if h.chunked then Some(Extractor(ChunkedReader(), h.coding))
    else if h.connection == Close || (h.connection == Unknown && before11 && stray == Close) then
      Some(Extractor(UntilCloseReader(), h.coding))
    else None
  }

  /** What the message's encoders put on the wire for the pushes that reach the chunk encoder or the writer. */
  function WireBody(s: Settings, granula: nat, pushes: seq<Packet>): seq<byte> {
    if s.chunked then Frames(Plains(EncodedChunks(granula, pushes, []))) + LAST_CHUNK else Flatten(pushes)
  }

  /** The bytes behind this body can be told from it. */
  predicate Delimited(s: Settings) {
    s.contentLength.Some? || s.chunked
  }

  /**
    What becomes of the settings. The coding asked for is kept, unless a length is declared and is 0 or compression is switched off;
    a declared length is kept unless the body is coded, chunks unless a length is left, and keep-alive unless neither is left.
  */
  lemma WhatIsSettled(s: Settings)
    ensures var t := Settled(s);
            && (if s.contentLength.Some? && (s.contentLength.value == 0 || s.level == 0) then t.coding == Identity
                else t.coding == s.coding)
            && (t.contentLength.Some? <==> s.contentLength.Some? && t.coding == Identity)
            && (t.contentLength.Some? ==> t.contentLength == s.contentLength)
            && (t.chunked <==> s.chunked && t.contentLength.None?)
            && (t.keepAlive != s.keepAlive <==> s.keepAlive == KeepAlive && !Delimited(t))
            && (t.keepAlive != s.keepAlive ==> t.keepAlive == Close)
            && t.level == s.level
  {
  }

  /** Settling twice is settling once. */
  lemma SettledStays(s: Settings)
    ensures Settled(Settled(s)) == Settled(s)
  {
  }

  /**
    Which extractor is picked from any headers: a length goes before chunks, chunks before the end of the connection; the coding
    is always the one named.
  */
  lemma ReaderChooses(h: Headers, before11: bool, stray: Connection)
    ensures var chosen := PrepareBodyExtractor(h, before11, stray);
            && (chosen.None? <==> h.contentLength.None? && !h.chunked && h.connection != Close
                                  && !(h.connection == Unknown && before11 && stray == Close))
            && (chosen.Some? ==>
                  && chosen.value.coding == h.coding
                  && (chosen.value.reader.kind == Sized <==> h.contentLength.Some?)
                  && (chosen.value.reader.kind == Chunked <==> h.contentLength.None? && h.chunked))
            && (h.contentLength.Some? ==> chosen.Some? && chosen.value.reader.bodySize == h.contentLength.value)
  {
  }

  /**
    When the reader is at a loss. The writer was not told whether to keep the connection, the body is not delimited, and the value
    that an old reader looks at although it was never set does not happen to be the one for closing.
  */
  lemma ReaderAtALoss(s: Settings, before11: bool, stray: Connection)
    ensures PrepareBodyExtractor(HeadersOf(Settled(s)), before11, stray).None? <==>
              && s.keepAlive == Unknown && !s.chunked && (s.contentLength.None? || Settled(s).coding != Identity)
              && !(before11 && stray == Close)
    ensures Settled(s).contentLength.Some? ==> Settled(s).coding == Identity && !Settled(s).chunked
    ensures Settled(s).contentLength.Some? ==> Settled(s).contentLength == s.contentLength
    ensures Settled(s).keepAlive == KeepAlive ==> Delimited(Settled(s))
  {
  }

  /**
    The reader's extractor recovers what went into the framing, and undoes the coding that was applied before it. Nothing may
    follow a body that only ends with the connection.
  */
  lemma FramingAgrees(s: Settings, granula: nat, pushes: seq<Packet>, tail: seq<byte>,
                      first: seq<Packet>, packets: seq<Packet>, before11: bool, stray: Connection)
    requires s.keepAlive != Unknown && NonEmpty(pushes) && |Flatten(pushes)| < SIZE_LIMIT
    requires s.contentLength.Some? && Settled(s).coding == Identity ==> s.contentLength.value == |Flatten(pushes)|
    requires !Delimited(Settled(s)) ==> tail == []
    requires NonEmpty(first) && NonEmpty(packets)
    requires Flatten(first) + Flatten(packets) == WireBody(Settled(s), granula, pushes) + tail
    ensures var chosen := PrepareBodyExtractor(HeadersOf(Settled(s)), before11, stray);
            && chosen.Some? && chosen.value.coding == Settled(s).coding
            && chosen.value.reader.stream == []
            && var (r, code, unread) := ReadMessage(chosen.value.reader, first, packets);
            && code == (if Settled(s).chunked && CutInsideLineEnd(Plains(EncodedChunks(granula, pushes, [])), first, packets)
                        then BadMessage else Ok)
            && (code == Ok ==> r.body == Flatten(pushes) && r.tail + Flatten(unread) == tail)
  {
    var t := Settled(s);
    var bytes := Flatten(first) + Flatten(packets);
    if t.contentLength.Some? {
      SizedReaderTakesSize(t.contentLength.value, first, packets);
      assert bytes[..|Flatten(pushes)|] == Flatten(pushes) && bytes[|Flatten(pushes)|..] == tail;
    } else if t.chunked {
      EncodedBodyIsRead(granula, pushes, tail, first, packets);
    } else {
      UntilCloseReaderTakesAll(first, packets);
      assert Flatten(pushes) + [] == Flatten(pushes);
    }
  }
}
