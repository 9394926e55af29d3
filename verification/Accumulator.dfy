/**
  The doubly linked packet accumulator and the byte iterator over it
  (contentDecoderAccumuler.cpp, inputMessageBuffer.cpp, inputMessage.cpp).
*/
module Accumulator {
  import opened Basics
  import opened Packets

  class Buffer {
    const data: seq<byte>
    var offset: nat
    var begin: nat
    var end: nat
    var next: Buffer?
    var prev: Buffer?

    constructor (offset: nat, data: seq<byte>, dataBegin: nat, dataEnd: nat)
      ensures this.offset == offset && this.data == data && begin == dataBegin && end == dataEnd
      ensures next == null && prev == null
    {
      this.offset, this.data, begin, end := offset, data, dataBegin, dataEnd;
      next, prev := null, null;
    }

    function Size(): int
      reads this
    {
      end - begin
    }
  }

  class ContentDecoderAccumuler {
    var first: Buffer?
    var last: Buffer?
    var size: nat
    ghost var nodes: seq<Buffer>      // the list
    ghost var packets: seq<Packet>    // what its buffers show: the accumulator's value

    /** The links agree in both directions along ns. */
    ghost predicate Linked(ns: seq<Buffer>)
      reads this, ns
    {
      && NoDup(ns)
      && first == (if ns == [] then null else ns[0])
      && last == (if ns == [] then null else ns[|ns| - 1])
      && (forall i {:trigger ns[i].next} :: 0 <= i < |ns| ==> ns[i].next == if i + 1 < |ns| then ns[i + 1] else null)
      && (forall i {:trigger ns[i].prev} :: 0 <= i < |ns| ==> ns[i].prev == if i > 0 then ns[i - 1] else null)
    }

    /** Node i shows packet i, and the size counts all bytes. */
    ghost predicate Shows()
      reads this, nodes
    {
      && |packets| == |nodes|
      && (forall i {:trigger nodes[i].begin} {:trigger packets[i]} :: 0 <= i < |nodes| ==>
            nodes[i].begin < nodes[i].end <= |nodes[i].data| && packets[i] == nodes[i].data[nodes[i].begin..nodes[i].end])
      && size == |Flatten(packets)|
    }

    /** Every buffer's offset counts the bytes before it. */
    ghost predicate Valid()
      reads this, nodes
    {
      && Linked(nodes) && Shows()
      && forall i {:trigger nodes[i].offset} :: 0 <= i < |nodes| ==> nodes[i].offset == |Flatten(packets[..i])|
    }

    ghost function Nodes(): set<Buffer>
      reads this
    {
      set n | n in nodes
    }

    constructor ()
      ensures Valid() && nodes == [] && packets == []
    {
      first, last, size, nodes, packets := null, null, 0, [], [];
    }

    /** The relinking inside `push`. */
    method Link(buf: Buffer)
      requires Linked(nodes) && buf !in nodes && buf.next == null && buf.prev == null
      modifies this`first, this`last, buf`prev, (set n | n in nodes)`next
      ensures Linked(nodes + [buf])
    {
      SnocMembers(nodes, buf);
      if last != null {
        buf.prev := last;
        last.next := buf;
        last := buf;
      } else {
        first := buf;
        last := first;
      }
    }

    /** `push` without the allocation of the node. */
    method Attach(buf: Buffer)
      requires Valid() && buf !in nodes && buf.next == null && buf.prev == null
      requires buf.begin < buf.end <= |buf.data| && buf.offset == size
      modifies this, buf`prev, (set n | n in nodes)`next
      ensures Valid() && nodes == old(nodes) + [buf]
      ensures packets == old(packets) + [buf.data[buf.begin..buf.end]]
    {
      Link(buf);
      Count(buf);
    }

    /** The node that has been linked is counted. */
    method Count(buf: Buffer)
      requires Shows() && Linked(nodes + [buf]) && buf.begin < buf.end <= |buf.data| && buf.offset == size
      requires forall i {:trigger nodes[i].offset} :: 0 <= i < |nodes| ==> nodes[i].offset == |Flatten(packets[..i])|
      modifies `size, `nodes, `packets
      ensures Valid() && nodes == old(nodes) + [buf]
      ensures packets == old(packets) + [buf.data[buf.begin..buf.end]]
    {
      ghost var p := buf.data[buf.begin..buf.end];
      FlattenSnoc(packets, p);
      assert forall i :: 0 <= i <= |packets| ==> (packets + [p])[..i] == packets[..i];
      size := size + buf.Size();
      nodes, packets := nodes + [buf], packets + [p];
    }

    method Push(data: seq<byte>, offset: nat)
      requires Valid() && offset < |data|
      modifies this, Nodes()`next
      ensures Valid() && fresh(Nodes() - old(Nodes()))
      ensures packets == old(packets) + [data[offset..]]
    {
      var buf := new Buffer(size, data, offset, |data|);
      assert data[offset..|data|] == data[offset..];
      Attach(buf);
    }

    /** Node i's offset plus a position in it is an index into the bytes of the stream. */
    ghost predicate At(bound: Buffer?, position: nat, i: nat)
      reads this, nodes
    {
      && |packets| == |nodes| && i < |nodes| && bound == nodes[i] && bound.begin <= position <= bound.end
    }

    /** The block that takes the first buffer off the list. */
    method DropFirst()
      requires Linked(nodes) && Shows() && nodes != []
      modifies this, (set n | n in nodes)`prev
      ensures nodes == old(nodes)[1..] && packets == old(packets)[1..]
      ensures Linked(nodes) && Shows()
    {
      TailMembers(nodes);
      assert packets[0] == first.data[first.begin..first.end];
      assert Flatten(packets) == packets[0] + Flatten(packets[1..]);
      size := size - first.Size();
      if first.next != null {
        first.next.prev := null;
        first := first.next;
      } else {
        first := null;
        last := null;
      }
      nodes, packets := nodes[1..], packets[1..];
    }

    /** The first buffer starts later: `setBegin`. */
    method CutFirst(position: nat)
      requires Linked(nodes) && Shows() && nodes != [] && nodes[0].begin <= position < nodes[0].end
      modifies this`size, this`packets, {nodes[0]}`begin
      ensures packets == [old(packets)[0][position - old(nodes[0].begin)..]] + old(packets)[1..]
      ensures Linked(nodes) && Shows()
    {
      ghost var k := position - first.begin;
      ghost var p := packets[0];
      assert p == first.data[first.begin..first.end];
      assert p[k..] == first.data[position..first.end];
      assert Flatten(packets) == p + Flatten(packets[1..]);
      size := size - (position - first.begin);
      first.begin := position;
      packets := [p[k..]] + packets[1..];
      assert packets[1..] == old(packets)[1..] && packets[0] == p[k..];
      assert Flatten(packets) == p[k..] + Flatten(packets[1..]);
      forall i {:trigger nodes[i].begin} {:trigger packets[i]} | 0 <= i < |nodes|
        ensures nodes[i].begin < nodes[i].end <= |nodes[i].data| && packets[i] == nodes[i].data[nodes[i].begin..nodes[i].end]
      {
        if i > 0 { assert packets[i] == old(packets)[i] && nodes[i] != nodes[0]; }
      }
    }

    /** The last loop of `dropFront`. */
    method Renumber()
      requires Linked(nodes) && Shows()
      modifies (set n | n in nodes)`offset
      ensures Valid()
    {
      var buffer := first;
      var offset := 0;
      ghost var j := 0;
      while buffer != null
        invariant 0 <= j <= |nodes| && buffer == (if j < |nodes| then nodes[j] else null)
        invariant offset == |Flatten(packets[..j])|
        invariant forall i {:trigger nodes[i].offset} :: 0 <= i < j ==> nodes[i].offset == |Flatten(packets[..i])|
        decreases |nodes| - j
      {
        FlattenStep(packets, j);
        buffer.offset := offset;
        offset := offset + buffer.Size();
        buffer := buffer.next;
        j := j + 1;
      }
      assert packets[..j] == packets;
      assert offset == size;
    }

    /** The loop that drops whole buffers. */
    method DropBefore(boundBuffer: Buffer, ghost i: nat)
      requires Linked(nodes) && Shows() && i < |nodes| && boundBuffer == nodes[i]
      modifies this, (set n | n in nodes)`prev
      ensures nodes == old(nodes)[i..] && packets == old(packets)[i..]
      ensures Linked(nodes) && Shows()
    {
      ghost var j := 0;
      while boundBuffer != first
        invariant j <= i && nodes == old(nodes)[j..] && packets == old(packets)[j..]
        invariant Linked(nodes) && Shows()
        decreases i - j
      {
        assert nodes[0] == old(nodes)[j] && old(nodes)[i] in nodes;
        DropFirst();
        j := j + 1;
      }
      assert nodes[i - j] == old(nodes)[i];
    }

    /** The bound buffer is first now: it goes, or starts later. */
    method DropHead(boundPosition: nat)
      requires Linked(nodes) && Shows() && nodes != [] && nodes[0].begin <= boundPosition <= nodes[0].end
      modifies this, (set n | n in nodes)`prev, {nodes[0]}`begin
      ensures Linked(nodes) && Shows()
      ensures boundPosition == old(nodes[0].end) ==> nodes == old(nodes)[1..] && packets == old(packets)[1..]
      ensures boundPosition != old(nodes[0].end) ==>
                nodes == old(nodes) && packets == [old(packets)[0][boundPosition - old(nodes[0].begin)..]] + old(packets)[1..]
    {
      if first.end == boundPosition {
        DropFirst();
      } else {
        CutFirst(boundPosition);
      }
    }

    /** Everything before `boundPosition` in `boundBuffer` is gone, and so is a buffer that is used up. */
    method DropFront(boundBuffer: Buffer, boundPosition: nat, ghost i: nat)
      requires Valid() && At(boundBuffer, boundPosition, i)
      modifies this, nodes
      ensures Valid() && nodes == old(nodes)[if boundPosition == old(boundBuffer.end) then i + 1 else i..]
      ensures packets == DropBytes(old(packets), old(boundBuffer.offset) + boundPosition - old(boundBuffer.begin))
    {
      ghost var ps, k := packets, boundPosition - boundBuffer.begin;
      ghost var rest := DropBytes(ps, boundBuffer.offset + k);
      assert |ps[i]| == boundBuffer.end - boundBuffer.begin;
      assert rest == if k < |ps[i]| then [ps[i][k..]] + ps[i + 1..] else ps[i + 1..] by {
        ShowsNonEmpty();
        DropBytesAt(ps, i, k);
      }
      DropBefore(boundBuffer, i);
      assert nodes[0] == boundBuffer && packets[0] == ps[i] && packets[1..] == ps[i + 1..];
      DropHead(boundPosition);
      assert packets == rest;
      Renumber();
    }

    /** Without bytes there is no position: the iterator has no buffer. */
    method Begin() returns (it: Iterator)
      requires Valid()
      ensures fresh(it) && it.acc == this && it.Absolute() == 0
      ensures if nodes == [] then it.buffer == null else it.Normal()
    {
      if first != null {
        it := new Iterator(first, first.begin, this, 0);
      } else {
        it := new Iterator.Nowhere(this);
      }
    }

    method End() returns (it: Iterator)
      requires Valid() && nodes != []
      ensures fresh(it) && it.acc == this && it.Normal() && it.Absolute() == size
    {
      it := new Iterator(last, last.end, this, |nodes| - 1);
      it.AbsoluteIsIndex();
    }

    /** How the extractors consume: `data.dropFront(data.begin() + n)`. */
    method Consume(n: nat)
      requires Valid() && nodes != [] && n <= size
      modifies this, Nodes()
      ensures Valid() && packets == DropBytes(old(packets), n)
      ensures NonEmpty(packets) && Flatten(packets) == old(Flatten(packets))[n..]
      ensures Nodes() <= old(Nodes())
    {
      ShowsNonEmpty();
      DropBytesIsSuffix(packets, n);
      var it := Begin();
      var moved := it.Advance(n);
      DropFront(it.buffer, it.position, it.index);
    }

    /** What a grammar sees that runs from `begin()` to `end()`. */
    method Bytes() returns (bytes: seq<byte>)
      requires Valid()
      ensures bytes == Flatten(packets)
    {
      bytes := [];
      if size > 0 {
        ShowsNonEmpty();
        var it := Begin();
        bytes := it.ReadThrough(size);
      }
    }

    lemma ShowsNonEmpty()
      requires Shows()
      ensures NonEmpty(packets)
    {
    }
  }

  /** A byte position in an accumulator: a buffer and a place in its data. */
  class Iterator {
    var buffer: Buffer?
    var position: nat
    ghost const acc: ContentDecoderAccumuler
    ghost var index: nat

    ghost predicate Valid()
      reads this, acc, acc.nodes
    {
      acc.Valid() && acc.At(buffer, position, index)
    }

    /** At a byte, or at the end of the whole stream; never at the end of an inner buffer. */
    ghost predicate Normal()
      reads this, acc, acc.nodes
    {
      Valid() && (position < buffer.end || index == |acc.nodes| - 1)
    }

    /** `absolutePosition` */
    function Absolute(): int
      reads this, buffer
    {
      if buffer == null then 0 else buffer.offset + position - buffer.begin
    }

    constructor (buffer: Buffer, position: nat, ghost acc: ContentDecoderAccumuler, ghost index: nat)
      requires acc.Valid() && acc.At(buffer, position, index)
      ensures this.acc == acc && this.index == index && this.buffer == buffer && this.position == position && Valid()
    {
      this.buffer, this.position, this.acc, this.index := buffer, position, acc, index;
    }

    constructor Nowhere(ghost acc: ContentDecoderAccumuler)
      ensures this.acc == acc && buffer == null
    {
      buffer, position, this.acc, index := null, 0, acc, 0;
    }

    /** The absolute position is an index into all the bytes, and the byte there is the one shown. */
    lemma AbsoluteIsIndex()
      requires Valid()
      ensures Absolute() == |Flatten(acc.packets[..index])| + position - buffer.begin
      ensures 0 <= Absolute() <= acc.size
      ensures position < buffer.end ==> Absolute() < acc.size && Flatten(acc.packets)[Absolute()] == buffer.data[position]
      ensures index == |acc.nodes| - 1 && position == buffer.end ==> Absolute() == acc.size
    {
      assert acc.packets[index] == buffer.data[buffer.begin..buffer.end];
      FlattenStep(acc.packets, index);
      FlattenTake(acc.packets, index + 1);
      assert acc.packets[..|acc.packets|] == acc.packets;
      if position < buffer.end { FlattenAt(acc.packets, index, position - buffer.begin); }
    }

    method Dereference() returns (b: byte)
      requires Valid() && position < buffer.end
      ensures Absolute() < |Flatten(acc.packets)| && b == Flatten(acc.packets)[Absolute()]
    {
      AbsoluteIsIndex();
      b := buffer.data[position];
    }

    /** The step to the next buffer that `normalize`, `increment` and `advance` share. */
    method ToNext()
      requires Valid() && buffer.end == position && index + 1 < |acc.nodes|
      modifies this
      ensures Normal() && position < buffer.end && index == old(index) + 1 && Absolute() == old(Absolute())
    {
      FlattenStep(acc.packets, index);
      assert acc.packets[index] == buffer.data[buffer.begin..buffer.end];
      buffer := buffer.next;
      index := index + 1;
      position := buffer.begin;
    }

    method Normalize()
      requires buffer == null || Valid()
      modifies this
      ensures Absolute() == old(Absolute()) && (buffer == null <==> old(buffer) == null)
      ensures buffer != null ==> Normal()
    {
      if buffer != null {
        if buffer.end == position && buffer.next != null {
          ToNext();
        }
      }
    }

    method Increment()
      requires Valid() && position < buffer.end
      modifies this
      ensures Normal() && Absolute() == old(Absolute()) + 1
    {
      position := position + 1;
      Normalize();
    }

    /** What a grammar does with an iterator that is not at the end. */
    method Next() returns (b: byte)
      requires Normal() && Absolute() < acc.size
      modifies this
      ensures Normal() && Absolute() == old(Absolute()) + 1
      ensures old(Absolute()) < |Flatten(acc.packets)| && b == Flatten(acc.packets)[old(Absolute())]
    {
      AbsoluteIsIndex();
      b := Dereference();
      Increment();
    }

    /** What a grammar does from the beginning to the end. */
    method ReadThrough(n: nat) returns (bytes: seq<byte>)
      requires Normal() && Absolute() == 0 && n == acc.size
      modifies this
      ensures bytes == Flatten(acc.packets)
    {
      ghost var all := Flatten(acc.packets);
      bytes := [];
      while |bytes| < n
        invariant |bytes| <= n && bytes == all[..|bytes|]
        invariant Normal() && Absolute() == |bytes|
      {
        var b := Next();
        assert all[..|bytes| + 1] == all[..|bytes|] + [b];
        bytes := bytes + [b];
      }
    }

    method Decrement()
      requires Valid() && Absolute() > 0
      modifies this
      ensures Normal() && position < buffer.end && Absolute() == old(Absolute()) - 1
    {
      if buffer.begin == position {
        FlattenStep(acc.packets, index - 1);
        assert acc.packets[index - 1] == acc.nodes[index - 1].data[acc.nodes[index - 1].begin..acc.nodes[index - 1].end];
        buffer := buffer.prev;
        index := index - 1;
        position := buffer.end - 1;
      } else {
        position := position - 1;
      }
    }

    /** One round of the loop of `advance`: the distance ends in this buffer, or the next one is entered. */
    method Leap(n: nat) returns (left: nat)
      requires Valid() && 0 < n && Absolute() + n <= acc.size
      modifies this
      ensures Normal() && Absolute() + left == old(Absolute()) + n
      ensures left <= n && index >= old(index) && (left > 0 ==> index > old(index))
    {
      AbsoluteIsIndex();
      var distInThisBuffer := buffer.end - position;
      if n < distInThisBuffer {
        position := position + n;
        left := 0;
      } else {
        position := position + distInThisBuffer;
        left := n - distInThisBuffer;
        if buffer.next != null {
          ToNext();
        } else {
          AbsoluteIsIndex();
        }
      }
    }

    /** One round of the loop that goes back: the distance ends in this buffer, or the last byte of the previous one is next. */
    method LeapBack(n: nat) returns (ok: bool, left: nat)
      requires Valid() && 0 < n
      modifies this
      ensures ok == (n <= old(position - buffer.begin) || old(index) > 0)
      ensures if ok then Valid() && position < buffer.end else index == old(index) == 0 && old(Absolute()) < n
      ensures n <= old(position - buffer.begin) ==> left == 0 && index == old(index) && Absolute() + n == old(Absolute())
      ensures ok && n > old(position - buffer.begin) ==>
                && left == n - old(position - buffer.begin) && index == old(index) - 1
                && Absolute() + old(position - buffer.begin) + 1 == old(Absolute())
    {
      var distInThisBuffer := position - buffer.begin;
      if n <= distInThisBuffer {
        position := position - n;
        return true, 0;
      }
      left := n - distInThisBuffer;
      if buffer.prev == null {
        assert acc.packets[..0] == [];
        return false, left;
      }
      FlattenStep(acc.packets, index - 1);
      assert acc.packets[index - 1] == acc.nodes[index - 1].data[acc.nodes[index - 1].begin..acc.nodes[index - 1].end];
      buffer := buffer.prev;
      index := index - 1;
      position := buffer.end - 1;
      ok := true;
    }

    /** The first loop of `advance`. */
    method Forward(distance: nat)
      requires Valid() && Absolute() + distance <= acc.size
      modifies this
      ensures Valid() && Absolute() == old(Absolute()) + distance
      ensures old(Normal()) || distance > 0 ==> Normal()
    {
      var n := distance;
      while n > 0
        invariant 0 <= n <= distance && Valid() && Absolute() == old(Absolute()) + distance - n
        invariant old(Normal()) || n < distance ==> Normal()
        decreases |acc.nodes| - index, n
      {
        n := Leap(n);
      }
    }

    /** The second loop. */
    method Backward(distance: nat) returns (ok: bool)
      requires Valid() && distance > 0
      modifies this
      ensures ok ==> Normal() && index <= old(index) && Absolute() + distance + (old(index) - index) == old(Absolute())
      ensures ok && index == old(index) <==> distance <= old(position - buffer.begin)
      ensures !ok ==> old(Absolute()) < distance + old(index)
    {
      var n := distance;
      while n > 0
        invariant 0 <= n <= distance && Valid() && index <= old(index)
        invariant Absolute() + distance + (old(index) - index) == old(Absolute()) + n
        invariant n < distance ==> position < buffer.end
        invariant index < old(index) ==> distance > old(position - buffer.begin)
        invariant index == old(index) && n > 0 ==> n == distance && position - buffer.begin == old(position - buffer.begin)
        invariant index == old(index) && n == 0 ==> distance <= old(position - buffer.begin)
        decreases index, n
      {
        ok, n := LeapBack(n);
        if !ok {
          return;
        }
      }
      ok := true;
    }

    /**
      `advance` by a distance that does not lead behind the stream. Forward it is exact. Backward it goes one byte too far for
      every buffer that it leaves, because the step to the last byte of a buffer is not counted, and may so run off the front;
      hence it is exact if and only if the distance ends in the buffer where it starts.
    */
    method Advance(distance: int) returns (ok: bool)
      requires Valid() && Absolute() + distance <= acc.size
      modifies this
      ensures distance >= 0 ==> ok && Absolute() == old(Absolute()) + distance
      ensures ok ==> Valid() && (old(Normal()) || distance != 0 ==> Normal())
      ensures distance < 0 && ok ==> index <= old(index) && Absolute() == old(Absolute()) + distance - (old(index) - index)
      ensures distance < 0 ==> (ok && Absolute() == old(Absolute()) + distance <==> -distance <= old(position - buffer.begin))
      ensures !ok ==> old(Absolute()) + distance < old(index)
    {
      if distance >= 0 {
        Forward(distance);
        return true;
      }
      ok := Backward(-distance);
    }
  }

  /** Normal positions are named by their absolute position alone. */
  lemma NormalIsUnique(a: Iterator, b: Iterator)
    requires a.Normal() && b.Normal() && a.acc == b.acc && a.Absolute() == b.Absolute()
    ensures a.buffer == b.buffer && a.position == b.position
  {
    a.AbsoluteIsIndex();
    b.AbsoluteIsIndex();
    if a.index < b.index {
      NormalIsMonotone(a, b);
    } else if b.index < a.index {
      NormalIsMonotone(b, a);
    }
  }

  lemma NormalIsMonotone(a: Iterator, b: Iterator)
    requires a.Normal() && b.Normal() && a.acc == b.acc && a.index < b.index
    ensures a.Absolute() < b.Absolute()
  {
    a.AbsoluteIsIndex();
    b.AbsoluteIsIndex();
    var ps := a.acc.packets;
    assert ps[a.index] == a.buffer.data[a.buffer.begin..a.buffer.end];
    FlattenStep(ps, a.index);
    assert ps[..b.index][..a.index + 1] == ps[..a.index + 1];
    FlattenTake(ps[..b.index], a.index + 1);
  }
}
