/**
  What the three body extractors do to a stream of packets, as functions over values
  (bodyExtractor.cpp, bodyExtractorSized.cpp, bodyExtractorChunked.cpp, bodyExtractorUntilClose.cpp).
*/
module BodyReader {
  import opened Basics
  import opened Packets
  import opened ChunkFormat

  datatype Kind = Sized | Chunked | UntilClose

  datatype Es = Caption | Body | TrailerHeader | Done | Error

  datatype Code = Ok | NeedMoreData | BadMessage | Unexpected | Eof

  /**
    An extractor: its state, the bytes of the current body still to come, the packets not consumed yet,
    and what its two decoders have received.
  */
  datatype Reader = Reader(kind: Kind, es: Es, bodySize: nat, stream: seq<Packet>, body: seq<byte>, tail: seq<byte>) {

    predicate Valid() {
      NonEmpty(stream) && (kind == Chunked && es == Body ==> bodySize > 0)
    }

    predicate IsDone() {
      match kind
      case Sized => bodySize == 0
      case Chunked => es == Done
      case UntilClose => false
    }

    function Drop(n: nat): Reader {
      this.(stream := DropBytes(stream, n))
    }

    /** `processBody`: at most the first packet, at most `limit` bytes of it. */
    function ToBody(limit: nat): (r: (Reader, nat))
      requires stream != []
      ensures r.1 <= limit
    {
      var n := if |stream[0]| <= limit then |stream[0]| else limit;
      (Drop(n).(body := body + stream[0][..n]), limit - n)
    }

    /** `processTail` */
    function ToTail(): Reader
      requires stream != []
    {
      Drop(|stream[0]|).(tail := tail + stream[0])
    }

    function ProcessCaption(): (Reader, Code) {
      match ParseCaption(Flatten(stream))
      case NeedMore => (this, NeedMoreData)
      case Bad => (this.(es := Error), BadMessage)
      case Match(n, length) => (Drop(length).(es := if n == 0 then TrailerHeader else Body, bodySize := n), Ok)
    }

    function ProcessTrailerHeader(): (Reader, Code) {
      match ParseTrailer(Flatten(stream))
      case NeedMore => (this, NeedMoreData)
      case Bad => (this.(es := Error), BadMessage)
      case Match(header, length) => (Drop(length).(es := if header then TrailerHeader else Done), Ok)
    }

    function ProcessChunked(): (Reader, Code)
      requires stream != []
    {
      match es
      case Caption => ProcessCaption()
      case Body =>
        var (r, left) := ToBody(bodySize);
        (r.(bodySize := left, es := if left == 0 then Caption else Body), Ok)
      case TrailerHeader => ProcessTrailerHeader()
      case Done => (ToTail(), Ok)
      case Error => (this, Unexpected)
    }

    /** `process(data)` of the three extractors. */
    function Step(): (Reader, Code)
      requires stream != []
    {
      match kind
      case Sized =>
        if bodySize > 0 then
          var (r, left) := ToBody(bodySize);
          (r.(bodySize := left), Ok)
        else
          (ToTail(), Ok)
      case Chunked => ProcessChunked()
      case UntilClose => (ToBody(SIZE_LIMIT - 1).0, Ok)
    }

    /** A step that succeeds takes bytes off the stream: what the source's own assertion says. */
    lemma StepShrinks()
      requires Valid() && stream != []
      ensures Step().0.Valid() && Step().0.kind == kind
      ensures Step().1 == Ok ==> |Flatten(Step().0.stream)| < |Flatten(stream)|
      ensures Step().1 != Ok ==> Step().0.stream == stream
    {
      var first := stream[0];
      assert Flatten(stream) == first + Flatten(stream[1..]);
      forall n: nat | 0 < n <= |Flatten(stream)|
        ensures NonEmpty(Drop(n).stream) && |Flatten(Drop(n).stream)| < |Flatten(stream)|
      {
        DropBytesIsSuffix(stream, n);
      }
    }

    /** Only a chunked reader fails, and after a bad line it fails for good. */
    lemma FailedStaysFailed()
      requires stream != []
      ensures Step().1 == BadMessage ==> kind == Chunked && Step().0 == this.(es := Error)
      ensures Step().1 == Unexpected <==> kind == Chunked && es == Error
      ensures Step().1 == Unexpected ==> Step().0 == this
      ensures Step().1 == NeedMoreData ==> Step().0 == this && kind == Chunked && (es == Caption || es == TrailerHeader)
    {
    }

    /** `process()`: until the stream is used up, a step fails, or one waits for more data. */
    function Run(): (Reader, Code)
      requires Valid()
      decreases |Flatten(stream)|
    {
      if stream == [] then (this, Ok)
      else
        StepShrinks();
        var (r, code) := Step();
        if code == NeedMoreData then (r, Ok)
        else if code != Ok then (r, code)
        else r.Run()
    }

    lemma {:induction false} RunKeeps()
      requires Valid()
      ensures Run().0.Valid() && Run().0.kind == kind && Run().1 in {Ok, BadMessage, Unexpected}
      decreases |Flatten(stream)|
    {
      if stream != [] {
        StepShrinks();
        if Step().1 == Ok { Step().0.RunKeeps(); }
      }
    }

    /** `read(channel)`: packets are taken until the body is done or the other side closes. */
    function Read(packets: seq<Packet>): (Reader, Code, seq<Packet>)
      requires Valid() && NonEmpty(packets)
      decreases |packets|
    {
      if IsDone() then (this, Ok, packets)
      else if packets == [] then (this, if kind == UntilClose then Ok else Eof, packets)
      else
        var pushed := this.(stream := stream + [packets[0]]);
        pushed.RunKeeps();
        var (r, code) := pushed.Run();
        if code != Ok then (r, code, packets[1..]) else r.Read(packets[1..])
    }
  }

  /** The bytes behind the headers go through the extractor first, then what the channel delivers. */
  function ReadMessage(start: Reader, first: seq<Packet>, packets: seq<Packet>): (Reader, Code, seq<Packet>)
    requires start.Valid() && start.stream == [] && NonEmpty(first) && NonEmpty(packets)
  {
    var pushed := start.(stream := first);
    pushed.RunKeeps();
    var (r, code) := pushed.Run();
    if code != Ok then (r, code, packets) else r.Read(packets)
  }

  function SizedReader(size: nat): Reader {
    Reader(Sized, Body, size, [], [], [])
  }

  function ChunkedReader(): Reader {
    Reader(Chunked, Caption, 0, [], [], [])
  }

  function UntilCloseReader(): Reader {
    Reader(UntilClose, Body, 0, [], [], [])
  }
}
