/**
  The write buffer of an outgoing message (outputMessage.cpp): bytes collect in a buffer of `granula` bytes, of which slices
  are handed to the encoder while later bytes still go into the same buffer.
*/
module OutputBuffer {
  import opened Basics
  import opened Packets

  datatype Mode = FirstLine | HeaderLines | BodyData

  function Rank(m: Mode): nat {
    match m case FirstLine => 0 case HeaderLines => 1 case BodyData => 2
  }

  /** What is written on the way from one mode to a later one; what `writeSystemHeaders` prints is a parameter. */
  function Passed(m: Mode, em: Mode, systemHeaders: seq<byte>): seq<byte> {
    (if m == FirstLine && em != FirstLine then CRLF else []) + (if m != BodyData && em == BodyData then systemHeaders + CRLF else [])
  }

  lemma PassedParts(before: seq<byte>, m: Mode, em: Mode, systemHeaders: seq<byte>)
    requires Rank(m) <= Rank(em)
    ensures m == em ==> before + Passed(m, em, systemHeaders) == before
    ensures m == FirstLine && em == HeaderLines ==> before + Passed(m, em, systemHeaders) == before + CRLF
    ensures m == FirstLine && em == BodyData ==>
              before + Passed(m, em, systemHeaders) == (before + CRLF) + systemHeaders + CRLF
    ensures m == HeaderLines && em == BodyData ==> before + Passed(m, em, systemHeaders) == before + systemHeaders + CRLF
  {
  }

  lemma NextPart(before: seq<byte>, data: seq<byte>, i: nat, n: nat)
    requires i + n <= |data|
    ensures before + data[..i] + data[i..][..n] == before + data[..i + n]
    ensures before + data[..|data|] == before + data
  {
    assert data[..i] + data[i..][..n] == data[..i + n];
    assert data[..|data|] == data;
  }

  datatype Filter = Chunks | Compression

  /** What the settled headers ask for. */
  datatype Asked = Asked(chunked: bool, coded: bool)

  /** Compression is put around the chunks, so that the body is compressed first. */
  function BodyFilters(asked: Asked): seq<Filter> {
    (if asked.chunked then [Chunks] else []) + (if asked.coded then [Compression] else [])
  }

  /** Compression, when asked for, is the last filter, so that the data meets it first; each filter is there when asked for, once. */
  lemma BodyFiltersAre(asked: Asked)
    ensures Chunks in BodyFilters(asked) <==> asked.chunked
    ensures Compression in BodyFilters(asked) <==> asked.coded
    ensures asked.coded ==> BodyFilters(asked)[|BodyFilters(asked)| - 1] == Compression
    ensures NoDup(BodyFilters(asked))
  {
  }

  /** The lines of a head, each with its end. */
  function Lines(lines: seq<seq<byte>>): seq<byte> {
    if lines == [] then [] else Lines(lines[..|lines| - 1]) + lines[|lines| - 1] + CRLF
  }

  lemma LinesSnoc(before: seq<byte>, lines: seq<seq<byte>>, i: nat)
    requires i < |lines|
    ensures before + Lines(lines[..i]) + lines[i] + CRLF == before + Lines(lines[..i + 1])
  {
    assert lines[..i + 1][..i] == lines[..i];
    Associate(before, Lines(lines[..i]), lines[i]);
    Associate(before, Lines(lines[..i]) + lines[i], CRLF);
  }

  lemma SameBehind(a: seq<byte>, b: seq<byte>, c: seq<byte>)
    requires a + b == a + c
    ensures b == c
  {
    assert (a + b)[|a|..] == b && (a + c)[|a|..] == c;
  }

  /** A part of a buffer that an encoder holds. */
  datatype Slice = Slice(data: array<byte>, begin: nat, end: nat)

  method Memcpy(a: array<byte>, at: nat, data: seq<byte>)
    requires at + |data| <= a.Length
    modifies a
    ensures a[..] == old(a[..at]) + data + old(a[at + |data|..])
  {
    forall k | 0 <= k < |data| {
      a[at + k] := data[k];
    }
  }

  class OutputMessage {
    const granula: nat
    var buffer: array?<byte>
    var writeBegin: nat
    var writePosition: nat
    var writeEnd: nat
    var mode: Mode
    var slices: seq<Slice>                  // what the encoders have been given
    var filters: seq<Filter>                // the filters around the raw writer; the last one gets the data first
    ghost var through: seq<seq<Filter>>     // those that each slice went through
    ghost var messageFrom: nat              // the slices before this one belong to earlier messages
    ghost var filtersFrom: nat              // those before this one went out before the filters of this message were set up
    ghost var headFilters: seq<Filter>      // those that there were when this message began
    ghost var arrays: set<array<byte>>      // the buffers that slices belong to
    ghost var given: seq<Packet>            // what the slices showed when they were given
    ghost var written: seq<byte>            // all bytes ever written
    ghost var head: seq<byte>               // those before the body

    ghost predicate Placed()
      reads `buffer, `writeBegin, `writePosition, `writeEnd
    {
      && granula > 0
      && if buffer == null then writeBegin == writePosition == writeEnd == 0
         else writeEnd == buffer.Length == granula && writeBegin <= writePosition <= writeEnd
    }

    /** The bytes that are in the buffer and not given yet. */
    ghost function Pending(): seq<byte>
      requires Placed()
      reads `buffer, `writeBegin, `writePosition, `writeEnd, buffer
    {
      if buffer == null then [] else buffer[writeBegin..writePosition]
    }

    /** Every slice still shows what it showed when it was given. */
    ghost predicate SlicesHold()
      reads `slices, `through, `given, `arrays, arrays
    {
      && |given| == |slices| == |through|
      && forall i {:trigger slices[i]} {:trigger given[i]} :: 0 <= i < |slices| ==>
           && slices[i].data in arrays && slices[i].begin < slices[i].end <= slices[i].data.Length
           && slices[i].data[slices[i].begin..slices[i].end] == given[i]
    }

    /** The rest of the buffer is behind all slices. */
    ghost predicate SlicesBefore()
      reads `buffer, `writeBegin, `slices
    {
      forall i {:trigger slices[i]} :: 0 <= i < |slices| && slices[i].data == buffer ==> slices[i].end <= writeBegin
    }

    ghost predicate Valid()
      reads `buffer, `writeBegin, `writePosition, `writeEnd, `slices, `through, `given, `arrays, `written, buffer, arrays
    {
      Placed() && SlicesHold() && SlicesBefore() && Flatten(given) + Pending() == written
    }

    /** Between two operations the buffer is never full. */
    ghost predicate Steady()
      reads `buffer, `writeBegin, `writePosition, `writeEnd, `slices, `through, `given, `arrays, `written, buffer, arrays
    {
      Valid() && (buffer != null ==> writePosition < writeEnd)
    }

    /** All slices from this one on, up to the other, went through the same filters. */
    ghost predicate WentThrough(from: nat, to: nat, f: seq<Filter>)
      reads `through
    {
      to <= |through| && forall i :: from <= i < to ==> through[i] == f
    }

    /** What has been given away since then went through the filters that there are. */
    ghost predicate Sent(before: seq<seq<Filter>>)
      reads `through, `filters
    {
      before <= through && WentThrough(|before|, |through|, filters)
    }

    /**
      A message that has begun has a buffer. Its head went out before its body filters were set up, but through those that
      earlier messages have left.
    */
    ghost predicate Framed()
      reads this
    {
      && |given| == |through| && messageFrom <= |through|
      && (mode != FirstLine ==> buffer != null)
      && (mode != BodyData ==> filters == headFilters && WentThrough(messageFrom, |through|, headFilters))
      && (mode == BodyData ==>
            && messageFrom <= filtersFrom <= |given| && Flatten(given[..filtersFrom]) == head
            && WentThrough(messageFrom, filtersFrom, headFilters) && WentThrough(filtersFrom, |through|, filters))
    }

    constructor (granula: nat)
      requires granula > 0
      ensures Steady() && Framed() && this.granula == granula && written == [] && slices == [] && mode == FirstLine && buffer == null
      ensures filters == headFilters == []
    {
      this.granula := granula;
      buffer, writeBegin, writePosition, writeEnd := null, 0, 0, 0;
      mode, slices, arrays, given, written, head := FirstLine, [], {}, [], [], [];
      filters, through, messageFrom, filtersFrom, headFilters := [], [], 0, 0, [];
    }

    method BufferEnsure()
      requires Steady()
      modifies `buffer, `writeBegin, `writePosition, `writeEnd
      ensures Steady() && buffer != null && (buffer == old(buffer) || fresh(buffer)) && Pending() == old(Pending())
    {
      if buffer == null {
        var data := new byte[granula];
        assert forall i :: 0 <= i < |slices| ==> slices[i].data != data;
        buffer := data;
        writeBegin := 0;
        writePosition := writeBegin;
        writeEnd := writeBegin + granula;
      }
    }

    /** The encoder is given what is pending. */
    method PushSlice()
      requires Valid() && buffer != null && writeBegin < writePosition
      modifies `writeBegin, `slices, `through, `given, `arrays
      ensures Valid() && Pending() == []
      ensures slices == old(slices) + [Slice(buffer, old(writeBegin), writePosition)] && given == old(given) + [old(Pending())]
      ensures arrays == old(arrays) + {buffer} && through == old(through) + [filters]
    {
      ghost var p := Pending();
      FlattenSnoc(given, p);
      slices, given := slices + [Slice(buffer, writeBegin, writePosition)], given + [p];
      arrays, through := arrays + {buffer}, through + [filters];
      writeBegin := writePosition;
    }

    /** A full buffer is let go; the slices keep it. */
    method Release()
      requires Valid() && buffer != null && Pending() == []
      modifies `buffer, `writeBegin, `writePosition, `writeEnd
      ensures Valid() && buffer == null && Pending() == []
    {
      assert Flatten(given) == written by { assert Flatten(given) + [] == Flatten(given); }
      buffer := null;
      writeBegin, writePosition, writeEnd := 0, 0, 0;
      forall i | 0 <= i < |slices| ensures slices[i].data != buffer { }
      assert Flatten(given) + [] == written;
    }

    /** What is pending, if anything, is given away. */
    method PushPending()
      requires Valid() && buffer != null
      modifies `writeBegin, `slices, `through, `given, `arrays
      ensures Valid() && Pending() == [] && old(slices) <= slices && Sent(old(through))
      ensures given == old(given) + (if old(Pending()) == [] then [] else [old(Pending())])
    {
      if writePosition > writeBegin {
        PushSlice();
      }
    }

    /** What is pending goes to the encoder; a full buffer is let go. */
    method BufferFlush()
      requires Valid() && buffer != null
      modifies `buffer, `writeBegin, `writePosition, `writeEnd, `slices, `through, `given, `arrays
      ensures Steady() && Pending() == [] && buffer == if old(writePosition == writeEnd) then null else old(buffer)
      ensures given == old(given) + (if old(Pending()) == [] then [] else [old(Pending())])
      ensures old(slices) <= slices && Sent(old(through))
    {
      PushPending();
      if writePosition == writeEnd {
        Release();
      }
    }

    method BufferNext()
      requires Valid() && buffer != null
      modifies `buffer, `writeBegin, `writePosition, `writeEnd, `slices, `through, `given, `arrays
      ensures Steady() && Pending() == [] && buffer != null && (buffer == old(buffer) || fresh(buffer))
      ensures given == old(given) + (if old(Pending()) == [] then [] else [old(Pending())])
      ensures old(slices) <= slices && Sent(old(through))
    {
      BufferFlush();
      BufferEnsure();
    }

    /** The place for the next bytes and how many of `size` fit there. */
    method BufferGet(size: nat) returns (avail: nat)
      requires Steady()
      modifies `buffer, `writeBegin, `writePosition, `writeEnd
      ensures Steady() && buffer != null && (buffer == old(buffer) || fresh(buffer))
      ensures writePosition + avail <= writeEnd
      ensures avail == size || (avail < size && writePosition + avail == writeEnd)
      ensures size > 0 ==> avail > 0
    {
      BufferEnsure();
      avail := writeEnd - writePosition;
      if size < avail {
        avail := size;
      }
    }

    lemma PendingGrows(size: nat)
      requires Placed() && buffer != null && writePosition + size <= writeEnd
      ensures buffer[writeBegin..writePosition + size] == Pending() + buffer[writePosition..writePosition + size]
    {
    }

    /** The caller has filled the next `size` bytes with `data`. */
    method BufferInc(size: nat, ghost data: seq<byte>)
      requires Steady() && buffer != null && writePosition + size <= writeEnd
      requires buffer[writePosition..writePosition + size] == data
      modifies `buffer, `writeBegin, `writePosition, `writeEnd, `slices, `through, `given, `arrays, `written
      ensures Steady() && buffer != null && (buffer == old(buffer) || fresh(buffer))
      ensures written == old(written) + data && old(slices) <= slices && old(given) <= given && Sent(old(through))
    {
      PendingGrows(size);
      Associate(Flatten(given), Pending(), data);
      writePosition := writePosition + size;
      written := written + data;
      if writePosition == writeEnd {
        BufferNext();
      }
    }

    /** The memcpy of `write`: no slice that an encoder holds is touched. */
    method Copy(data: seq<byte>)
      requires Steady() && buffer != null && writePosition + |data| <= writeEnd
      modifies buffer
      ensures Steady() && buffer[writePosition..writePosition + |data|] == data
    {
      ghost var before := buffer[..];
      Memcpy(buffer, writePosition, data);
      assert Pending() == before[writeBegin..writePosition];
      forall i | 0 <= i < |slices| ensures slices[i].data[slices[i].begin..slices[i].end] == given[i] {
        if slices[i].data == buffer {
          assert buffer[..][slices[i].begin..slices[i].end] == before[slices[i].begin..slices[i].end];
        }
      }
    }

    /** The bytes go to the next place, which has room for them. */
    method Fill(part: seq<byte>)
      requires Steady() && buffer != null && writePosition + |part| <= writeEnd
      modifies `buffer, `writeBegin, `writePosition, `writeEnd, `slices, `through, `given, `arrays, `written, buffer
      ensures Steady() && buffer != null && (buffer == old(buffer) || fresh(buffer))
      ensures written == old(written) + part && old(slices) <= slices && old(given) <= given && Sent(old(through))
    {
      Copy(part);
      BufferInc(|part|, part);
    }

    /** One round of the loop of `write`. */
    method WritePart(data: seq<byte>) returns (n: nat)
      requires Steady() && data != []
      modifies `buffer, `writeBegin, `writePosition, `writeEnd, `slices, `through, `given, `arrays, `written, buffer
      ensures Steady() && buffer != null && (buffer == old(buffer) || fresh(buffer))
      ensures 0 < n <= |data| && written == old(written) + data[..n] && old(slices) <= slices && old(given) <= given && Sent(old(through))
    {
      n := BufferGet(|data|);
      Fill(data[..n]);
    }

    method Write(data: seq<byte>)
      requires Steady()
      modifies `buffer, `writeBegin, `writePosition, `writeEnd, `slices, `through, `given, `arrays, `written, buffer
      ensures Steady() && (buffer == old(buffer) || fresh(buffer)) && (data != [] || old(buffer) != null ==> buffer != null)
      ensures written == old(written) + data && old(slices) <= slices && old(given) <= given && Sent(old(through))
    {
      ghost var before := written;
      var done := 0;
      while done < |data|
        invariant done <= |data| && Steady() && (buffer == old(buffer) || fresh(buffer))
        invariant done > 0 || old(buffer) != null ==> buffer != null
        invariant written == before + data[..done]
        invariant old(slices) <= slices && old(given) <= given && Sent(old(through))
      {
        var n := WritePart(data[done..]);
        NextPart(before, data, done, n);
        done := done + n;
      }
      NextPart(before, data, 0, 0);
    }

    method WriteTwo(a: seq<byte>, b: seq<byte>)
      requires Steady() && buffer != null
      modifies `buffer, `writeBegin, `writePosition, `writeEnd, `slices, `through, `given, `arrays, `written, buffer
      ensures Steady() && (buffer == old(buffer) || fresh(buffer)) && buffer != null
      ensures written == old(written) + a + b && old(slices) <= slices && old(given) <= given && Sent(old(through))
    {
      Write(a);
      Write(b);
    }

    /** `*it = b; ++it` */
    method Put(b: byte)
      requires Steady() && buffer != null
      modifies `buffer, `writeBegin, `writePosition, `writeEnd, `slices, `through, `given, `arrays, `written, buffer
      ensures Steady() && buffer != null && (buffer == old(buffer) || fresh(buffer))
      ensures written == old(written) + [b] && old(slices) <= slices && old(given) <= given && Sent(old(through))
    {
      Fill([b]);
    }

    /** `bufferFlush` between operations: the buffer stays, and the encoders have everything. */
    method FlushAll()
      requires Steady() && buffer != null
      modifies `buffer, `writeBegin, `writePosition, `writeEnd, `slices, `through, `given, `arrays
      ensures Steady() && Pending() == [] && buffer == old(buffer)
      ensures Flatten(given) == written && given[..|given|] == given && |given| == |slices|
      ensures old(slices) <= slices && old(given) <= given && Sent(old(through))
    {
      BufferFlush();
      assert Flatten(given) + [] == Flatten(given);
    }

    method WriteThrough(a: seq<byte>, b: seq<byte>)
      requires Steady() && buffer != null
      modifies `buffer, `writeBegin, `writePosition, `writeEnd, `slices, `through, `given, `arrays, `written, buffer
      ensures Steady() && Pending() == [] && (buffer == old(buffer) || fresh(buffer)) && buffer != null
      ensures written == old(written) + a + b && Flatten(given) == written && given[..|given|] == given && |given| == |slices|
      ensures old(slices) <= slices && Sent(old(through))
    {
      WriteTwo(a, b);
      FlushAll();
    }

    lemma GivenPrefix(before: seq<Packet>)
      requires before <= given && filtersFrom <= |before|
      ensures given[..filtersFrom] == before[..filtersFrom]
    {
    }

    ghost predicate SameMessage(from: nat, f: seq<Filter>)
      reads `messageFrom, `headFilters
    {
      messageFrom == from && headFilters == f
    }

    /**
      From the headers to the body: the line that ends the headers is written, and all of it goes out before the filters. `asked`
      says which filters the settled headers ask for.
    */
    method EndHeaders(systemHeaders: seq<byte>, asked: Asked)
      requires Steady() && Framed() && mode == HeaderLines
      modifies this, buffer
      ensures Steady() && Framed() && mode == BodyData && (buffer == old(buffer) || fresh(buffer))
      ensures written == old(written) + systemHeaders + CRLF == head && filtersFrom == |slices| && Pending() == []
      ensures old(slices) <= slices && SameMessage(old(messageFrom), old(headFilters))
      ensures filters == old(filters) + BodyFilters(asked)
    {
      WriteThrough(systemHeaders, CRLF);
      SetupBodyFilters(asked);
    }

    /** `setupBodyFilters`, when the head has gone out. */
    method SetupBodyFilters(asked: Asked)
      requires Framed() && mode == HeaderLines && Flatten(given) == written && given[..|given|] == given && |given| == |slices|
      modifies `head, `filtersFrom, `filters, `mode
      ensures Framed() && mode == BodyData && head == written && filtersFrom == |slices|
      ensures filters == old(filters) + BodyFilters(asked)
    {
      head := written;
      filtersFrom := |slices|;
      if asked.chunked {
        filters := filters + [Chunks];
      }
      if asked.coded {
        filters := filters + [Compression];
      }
      mode := BodyData;
    }

    method EndFirstLine()
      requires Steady() && Framed() && mode == FirstLine
      modifies `buffer, `writeBegin, `writePosition, `writeEnd, `slices, `through, `given, `arrays, `written, `mode, buffer
      ensures Steady() && Framed() && mode == HeaderLines && (buffer == old(buffer) || fresh(buffer))
      ensures written == old(written) + CRLF && old(slices) <= slices
    {
      Write(CRLF);
      mode := HeaderLines;
    }

    /** `ensureMode` */
    method EnsureMode(em: Mode, systemHeaders: seq<byte>, asked: Asked)
      requires Steady() && Framed() && Rank(mode) <= Rank(em)
      modifies this, buffer
      ensures Steady() && Framed() && mode == em && (buffer == old(buffer) || fresh(buffer)) && old(slices) <= slices
      ensures written == old(written) + Passed(old(mode), em, systemHeaders)
      ensures if old(mode) != em && em == BodyData then written == head && filtersFrom == |slices| && Pending() == []
              else head == old(head) && filtersFrom == old(filtersFrom)
      ensures SameMessage(old(messageFrom), old(headFilters))
      ensures filters == old(filters) + (if old(mode) != em && em == BodyData then BodyFilters(asked) else [])
    {
      PassedParts(written, mode, em, systemHeaders);
      if mode != em {
        if mode == FirstLine {
          EndFirstLine();
        }
        if em == BodyData {
          EndHeaders(systemHeaders, asked);
        }
      }
    }

    method Header(line: seq<byte>)
      requires Steady() && Framed() && mode != BodyData
      modifies this, buffer
      ensures Steady() && Framed() && mode == HeaderLines && (buffer == old(buffer) || fresh(buffer)) && old(slices) <= slices
      ensures written == old(written) + Passed(old(mode), HeaderLines, []) + line + CRLF
      ensures SameMessage(old(messageFrom), old(headFilters)) && filters == old(filters)
    {
      EnsureMode(HeaderLines, [], Asked(false, false));
      WriteTwo(line, CRLF);
    }

    method Body(data: seq<byte>, systemHeaders: seq<byte>, asked: Asked)
      requires Steady() && Framed()
      modifies this, buffer
      ensures Steady() && Framed() && mode == BodyData && (buffer == old(buffer) || fresh(buffer)) && old(slices) <= slices
      ensures written == old(written) + Passed(old(mode), BodyData, systemHeaders) + data
      ensures if old(mode) == BodyData then head == old(head) && filtersFrom == old(filtersFrom) else written == head + data
      ensures SameMessage(old(messageFrom), old(headFilters))
      ensures filters == old(filters) + (if old(mode) != BodyData then BodyFilters(asked) else [])
    {
      EnsureMode(BodyData, systemHeaders, asked);
      ghost var before := given;
      Write(data);
      GivenPrefix(before);
    }

    /** The encoders get the rest of the body. */
    method FlushBody()
      requires Steady() && Framed() && mode == BodyData
      modifies `buffer, `writeBegin, `writePosition, `writeEnd, `slices, `through, `given, `arrays, `mode, `messageFrom, `headFilters
      ensures Steady() && Framed() && mode == FirstLine && Pending() == [] && old(slices) <= slices
      ensures filtersFrom <= |given| && Flatten(given[..filtersFrom]) == head && written == head + Flatten(given[filtersFrom..])
      ensures WentThrough(old(messageFrom), filtersFrom, old(headFilters)) && WentThrough(filtersFrom, |slices|, filters)
      ensures SameMessage(|slices|, filters)
    {
      ghost var before := given;
      FlushAll();
      GivenPrefix(before);
      FlattenSplit(given, filtersFrom);
      EndMessage();
    }

    /** What follows is another message; the filters stay. */
    method EndMessage()
      requires Framed() && |given| == |slices|
      modifies `mode, `messageFrom, `headFilters
      ensures Framed() && mode == FirstLine && SameMessage(|slices|, filters)
    {
      mode, messageFrom, headFilters := FirstLine, |slices|, filters;
    }

    /**
      At the end the encoders have all bytes. The head went through the filters that were there when the message began, which are
      none for a first message, and the body through those and the message's own.
    */
    method BodyFlush(systemHeaders: seq<byte>, asked: Asked)
      requires Steady() && Framed()
      modifies this, buffer
      ensures Steady() && Framed() && mode == FirstLine && Pending() == [] && old(slices) <= slices
      ensures written == old(written) + Passed(old(mode), BodyData, systemHeaders)
      ensures filtersFrom <= |given| && Flatten(given[..filtersFrom]) == head && written == head + Flatten(given[filtersFrom..])
      ensures old(mode) == BodyData ==> head == old(head) && filtersFrom == old(filtersFrom)
      ensures WentThrough(old(messageFrom), filtersFrom, old(headFilters)) && WentThrough(filtersFrom, |slices|, filters)
      ensures filters == old(filters) + (if old(mode) != BodyData then BodyFilters(asked) else []) && SameMessage(|slices|, filters)
    {
      EnsureMode(BodyData, systemHeaders, asked);
      FlushBody();
    }

    /** `firstLine` */
    method StartLine(data: seq<byte>)
      requires Steady() && Framed() && mode == FirstLine
      modifies this, buffer
      ensures Steady() && Framed() && mode == FirstLine && (buffer == old(buffer) || fresh(buffer)) && old(slices) <= slices
      ensures written == old(written) + data && SameMessage(old(messageFrom), old(headFilters)) && filters == old(filters)
    {
      Write(data);
    }

    /** The header lines, one after the other. */
    method HeaderRows(lines: seq<seq<byte>>)
      requires Steady() && Framed() && mode == HeaderLines
      modifies this, buffer
      ensures Steady() && Framed() && mode == HeaderLines && (buffer == old(buffer) || fresh(buffer)) && old(slices) <= slices
      ensures written == old(written) + Lines(lines) && SameMessage(old(messageFrom), old(headFilters)) && filters == old(filters)
    {
      ghost var before := written;
      for i := 0 to |lines|
        invariant Steady() && Framed() && mode == HeaderLines && (buffer == old(buffer) || fresh(buffer)) && old(slices) <= slices
        invariant written == before + Lines(lines[..i])
        invariant SameMessage(old(messageFrom), old(headFilters)) && filters == old(filters)
      {
        LinesSnoc(before, lines, i);
        Header(lines[i]);
        assert before + Lines(lines[..i]) + Passed(HeaderLines, HeaderLines, []) == before + Lines(lines[..i]);
      }
      assert lines[..|lines|] == lines;
    }

    method WriteHead(line: seq<byte>, headers: seq<seq<byte>>, systemHeaders: seq<byte>, asked: Asked)
      requires Steady() && Framed() && mode == FirstLine
      modifies this, buffer
      ensures Steady() && Framed() && mode == BodyData && (buffer == old(buffer) || fresh(buffer)) && old(slices) <= slices
      ensures written == head == old(written) + line + CRLF + Lines(headers) + systemHeaders + CRLF
      ensures SameMessage(old(messageFrom), old(headFilters)) && filters == old(filters) + BodyFilters(asked)
    {
      StartLine(line);
      PassedParts(written, FirstLine, HeaderLines, []);
      EnsureMode(HeaderLines, [], Asked(false, false));
      HeaderRows(headers);
      PassedParts(written, HeaderLines, BodyData, systemHeaders);
      EnsureMode(BodyData, systemHeaders, asked);
    }

    /** The parts of a body, one after the other. */
    method BodyParts(parts: seq<seq<byte>>)
      requires Steady() && Framed() && mode == BodyData
      modifies this, buffer
      ensures Steady() && Framed() && mode == BodyData && (buffer == old(buffer) || fresh(buffer)) && old(slices) <= slices
      ensures written == old(written) + Flatten(parts) && head == old(head) && filtersFrom == old(filtersFrom)
      ensures SameMessage(old(messageFrom), old(headFilters)) && filters == old(filters)
    {
      ghost var before := written;
      for i := 0 to |parts|
        invariant Steady() && Framed() && mode == BodyData && (buffer == old(buffer) || fresh(buffer)) && old(slices) <= slices
        invariant written == before + Flatten(parts[..i]) && head == old(head) && filtersFrom == old(filtersFrom)
        invariant SameMessage(old(messageFrom), old(headFilters)) && filters == old(filters)
      {
        FlattenStep(parts, i);
        Associate(before, Flatten(parts[..i]), parts[i]);
        Body(parts[i], [], Asked(false, false));
        assert before + Flatten(parts[..i]) + Passed(BodyData, BodyData, []) == before + Flatten(parts[..i]);
      }
      assert parts[..|parts|] == parts;
    }

    /** The body and its end: what was written behind the head goes out through the filters that there are. */
    method WriteBody(parts: seq<seq<byte>>)
      requires Steady() && Framed() && mode == BodyData && written == head
      modifies this, buffer
      ensures Steady() && Framed() && mode == FirstLine && Pending() == [] && old(slices) <= slices
      ensures head == old(head) && written == head + Flatten(parts) && filters == old(filters)
      ensures filtersFrom <= |given| && Flatten(given[..filtersFrom]) == head && Flatten(given[filtersFrom..]) == Flatten(parts)
      ensures WentThrough(old(messageFrom), filtersFrom, old(headFilters)) && WentThrough(filtersFrom, |slices|, filters)
    {
      BodyParts(parts);
      FlushBody();
      SameBehind(head, Flatten(given[filtersFrom..]), Flatten(parts));
    }

    /**
      A whole message: its first line, its header lines, the system headers and the empty line go out as its head, through the
      filters that were there before; behind them the body goes through those and the filters asked for.
    */
    method WriteMessage(line: seq<byte>, headers: seq<seq<byte>>, systemHeaders: seq<byte>, parts: seq<seq<byte>>, asked: Asked)
      requires Steady() && Framed() && mode == FirstLine
      modifies this, buffer
      ensures Steady() && Framed() && mode == FirstLine && Pending() == [] && old(slices) <= slices
      ensures head == old(written) + line + CRLF + Lines(headers) + systemHeaders + CRLF && written == head + Flatten(parts)
      ensures filtersFrom <= |given| && Flatten(given[..filtersFrom]) == head && Flatten(given[filtersFrom..]) == Flatten(parts)
      ensures WentThrough(old(messageFrom), filtersFrom, old(filters)) && WentThrough(filtersFrom, |slices|, filters)
      ensures filters == old(filters) + BodyFilters(asked)
    {
      WriteHead(line, headers, systemHeaders, asked);
      WriteBody(parts);
    }
  }
}
