/**
  The extractors as objects that consume an accumulator (bodyExtractor.cpp and its three kinds): each method does what the
  functions of BodyReader say.
*/
module BodyExtractors {
  import opened Basics
  import opened Packets
  import opened ChunkFormat
  import opened BodyReader
  import opened Accumulator

  class BodyExtractor {
    const kind: Kind
    const stream: ContentDecoderAccumuler
    var es: Es
    var bodySize: nat
    var body: seq<byte>      // what the body decoder has received
    var tail: seq<byte>      // what the tail decoder has received

    ghost function View(): Reader
      reads this, stream
    {
      Reader(kind, es, bodySize, stream.packets, body, tail)
    }

    ghost predicate Valid()
      reads this, stream, stream.nodes
    {
      stream.Valid() && View().Valid()
    }

    constructor (r: Reader)
      requires r.Valid() && r.stream == []
      ensures Valid() && View() == r && fresh(stream) && stream.nodes == []
    {
      kind, es, bodySize, body, tail := r.kind, r.es, r.bodySize, r.body, r.tail;
      stream := new ContentDecoderAccumuler();
    }

    method FirstPacket() returns (packet: Packet)
      requires Valid() && stream.packets != []
      ensures packet == stream.packets[0]
    {
      var buf := stream.first;
      packet := buf.data[buf.begin..buf.end];
    }

    method ProcessBody(limit: nat) returns (left: nat)
      requires Valid() && stream.packets != []
      modifies `body, stream, stream.Nodes()
      ensures stream.Valid() && (View(), left) == old(View()).ToBody(limit)
      ensures stream.Nodes() <= old(stream.Nodes())
    {
      var packet := FirstPacket();
      Packets.FlattenSplit(stream.packets, 1);
      assert Flatten(stream.packets) == packet + Flatten(stream.packets[1..]);
      if |packet| <= limit {
        body := body + packet;
        stream.Consume(|packet|);
        left := limit - |packet|;
        assert packet[..|packet|] == packet;
      } else {
        body := body + packet[..limit];
        stream.Consume(limit);
        left := 0;
      }
    }

    method ProcessTail()
      requires Valid() && stream.packets != []
      modifies `tail, stream, stream.Nodes()
      ensures stream.Valid() && View() == old(View()).ToTail()
      ensures stream.Nodes() <= old(stream.Nodes())
    {
      var packet := FirstPacket();
      assert Flatten(stream.packets) == packet + Flatten(stream.packets[1..]);
      tail := tail + packet;
      stream.Consume(|packet|);
    }

    /** What a grammar has matched is taken off the stream. */
    method TakeLine(length: nat)
      requires stream.Valid() && stream.packets != [] && length <= |Flatten(stream.packets)|
      modifies stream, stream.Nodes()
      ensures stream.Valid() && View() == old(View()).Drop(length)
      ensures stream.Nodes() <= old(stream.Nodes())
    {
      stream.Consume(length);
    }

    method ProcessCaption() returns (code: Code)
      requires Valid() && stream.packets != []
      modifies `es, `bodySize, stream, stream.Nodes()
      ensures stream.Valid() && (View(), code) == old(View()).ProcessCaption()
      ensures stream.Nodes() <= old(stream.Nodes())
    {
      var bytes := stream.Bytes();
      match ParseCaption(bytes)
      case NeedMore =>
        code := NeedMoreData;
      case Bad =>
        es := Error;
        code := BadMessage;
      case Match(n, length) =>
        bodySize := n;
        if n == 0 {
          es := TrailerHeader;
        } else {
          es := Body;
        }
        TakeLine(length);
        code := Ok;
    }

    method ProcessTrailerHeader() returns (code: Code)
      requires Valid() && stream.packets != []
      modifies `es, stream, stream.Nodes()
      ensures stream.Valid() && (View(), code) == old(View()).ProcessTrailerHeader()
      ensures stream.Nodes() <= old(stream.Nodes())
    {
      var bytes := stream.Bytes();
      match ParseTrailer(bytes)
      case NeedMore =>
        code := NeedMoreData;
      case Bad =>
        es := Error;
        code := BadMessage;
      case Match(header, length) =>
        es := if header then TrailerHeader else Done;
        TakeLine(length);
        code := Ok;
    }

    method ProcessChunked() returns (code: Code)
      requires Valid() && stream.packets != []
      modifies `es, `bodySize, `body, `tail, stream, stream.Nodes()
      ensures stream.Valid() && (View(), code) == old(View()).ProcessChunked()
      ensures stream.Nodes() <= old(stream.Nodes())
    {
      code := Ok;
      match es
      case Caption => code := ProcessCaption();
      case Body =>
        bodySize := ProcessBody(bodySize);
        if bodySize == 0 {
          es := Caption;
        }
      case TrailerHeader => code := ProcessTrailerHeader();
      case Done => ProcessTail();
      case Error => code := Unexpected;
    }

    /** `process(data)` */
    method ProcessOnce() returns (code: Code)
      requires Valid() && stream.packets != []
      modifies `es, `bodySize, `body, `tail, stream, stream.Nodes()
      ensures Valid() && (View(), code) == old(View()).Step()
      ensures stream.Nodes() <= old(stream.Nodes())
    {
      View().StepShrinks();
      code := Ok;
      match kind
      case Sized =>
        if bodySize > 0 {
          bodySize := ProcessBody(bodySize);
        } else {
          ProcessTail();
        }
      case Chunked => code := ProcessChunked();
      case UntilClose =>
        var stub := ProcessBody(SIZE_LIMIT - 1);
    }

    /** `process()` */
    method Process() returns (code: Code)
      requires Valid()
      modifies `es, `bodySize, `body, `tail, stream, stream.Nodes()
      ensures Valid() && (View(), code) == old(View()).Run()
      ensures stream.Nodes() <= old(stream.Nodes())
    {
      while stream.size > 0
        invariant Valid() && View().Run() == old(View()).Run()
        invariant stream.Nodes() <= old(stream.Nodes())
        decreases stream.size
      {
        View().StepShrinks();
        code := ProcessOnce();
        if code != Ok {
          if code == NeedMoreData {
            code := Ok;
          }
          return;
        }
      }
      stream.ShowsNonEmpty();
      FlattenIsEmpty(stream.packets);
      code := Ok;
    }

    predicate IsDone()
      reads this
    {
      match kind
      case Sized => bodySize == 0
      case Chunked => es == Done
      case UntilClose => false
    }

    /** One packet more. */
    method Feed(packet: Packet) returns (code: Code)
      requires Valid() && packet != []
      modifies `es, `bodySize, `body, `tail, stream, stream.Nodes()
      ensures Valid() && (View(), code) == old(View().(stream := stream.packets + [packet])).Run()
      ensures fresh(stream.Nodes() - old(stream.Nodes()))
    {
      assert packet[0..] == packet;
      stream.Push(packet, 0);
      code := Process();
    }

    /** `read(channel)`: the channel delivers the given packets and then closes. */
    method Read(packets: seq<Packet>) returns (code: Code, unread: seq<Packet>)
      requires Valid() && NonEmpty(packets)
      modifies `es, `bodySize, `body, `tail, stream, stream.Nodes()
      ensures Valid() && (View(), code, unread) == old(View()).Read(packets)
      ensures fresh(stream.Nodes() - old(stream.Nodes()))
    {
      unread := packets;
      while !IsDone()
        invariant Valid() && NonEmpty(unread) && View().Read(unread) == old(View()).Read(packets)
        invariant fresh(stream.Nodes() - old(stream.Nodes()))
        decreases |unread|
      {
        if unread == [] {
          code := if kind == UntilClose then Ok else Eof;
          return;
        }
        View().(stream := stream.packets + [unread[0]]).RunKeeps();
        code := Feed(unread[0]);
        unread := unread[1..];
        if code != Ok {
          return;
        }
      }
      code := Ok;
    }

    /** `read(from, begin)`: what the accumulator of the headers still holds is processed first. */
    method ReadRest(first: seq<Packet>) returns (code: Code)
      requires Valid() && stream.packets == [] && NonEmpty(first)
      modifies `es, `bodySize, `body, `tail, stream, stream.Nodes()
      ensures Valid() && (View(), code) == old(View()).(stream := first).Run()
      ensures fresh(stream.Nodes() - old(stream.Nodes()))
    {
      for i := 0 to |first|
        invariant Valid() && View() == old(View()).(stream := first[..i])
        invariant fresh(stream.Nodes() - old(stream.Nodes()))
      {
        assert first[i][0..] == first[i] && first[..i] + [first[i]] == first[..i + 1];
        stream.Push(first[i], 0);
      }
      assert first[..|first|] == first;
      code := Process();
    }
  }

  /** How a message body is read: the rest of the header packets, then the channel. */
  method ReadBody(start: Reader, first: seq<Packet>, packets: seq<Packet>) returns (extractor: BodyExtractor, code: Code, unread: seq<Packet>)
    requires start.Valid() && start.stream == [] && NonEmpty(first) && NonEmpty(packets)
    ensures (extractor.View(), code, unread) == ReadMessage(start, first, packets)
  {
    extractor := new BodyExtractor(start);
    code := extractor.ReadRest(first);
    unread := packets;
    if code == Ok {
      code, unread := extractor.Read(packets);
    }
  }
}
