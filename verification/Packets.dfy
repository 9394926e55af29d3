/** Byte streams cut into packets, as values. */
module Packets {
  import opened Basics

  type Packet = seq<byte>

  const CR: byte := 13
  const LF: byte := 10
  const CRLF: seq<byte> := [CR, LF]

  /** Packets on the wire are never empty. */
  predicate NonEmpty(ps: seq<Packet>) {
    forall i :: 0 <= i < |ps| ==> ps[i] != []
  }

  /** What is left of the packets when the first n bytes are gone; no empty packet stays behind. */
  function DropBytes(ps: seq<Packet>, n: nat): (r: seq<Packet>)
  {
    if ps == [] then []
    else if n < |ps[0]| then [ps[0][n..]] + ps[1..]
    else DropBytes(ps[1..], n - |ps[0]|)
  }

  lemma {:induction false} DropBytesIsSuffix(ps: seq<Packet>, n: nat)
    requires NonEmpty(ps) && n <= |Flatten(ps)|
    ensures NonEmpty(DropBytes(ps, n))
    ensures Flatten(DropBytes(ps, n)) == Flatten(ps)[n..]
  {
    if ps == [] {
    } else if n < |ps[0]| {
      assert ([ps[0][n..]] + ps[1..])[1..] == ps[1..];
    } else {
      DropBytesIsSuffix(ps[1..], n - |ps[0]|);
    }
  }

  lemma {:induction false} FlattenSplit(ps: seq<Packet>, i: nat)
    requires i <= |ps|
    ensures Flatten(ps) == Flatten(ps[..i]) + Flatten(ps[i..])
  {
    assert ps == ps[..i] + ps[i..];
    FlattenAppend(ps[..i], ps[i..]);
  }

  /** Byte k of packet i stands behind the bytes of the packets before it. */
  lemma FlattenAt(ps: seq<Packet>, i: nat, k: nat)
    requires i < |ps| && k < |ps[i]|
    ensures |Flatten(ps[..i])| + k < |Flatten(ps)|
    ensures Flatten(ps)[|Flatten(ps[..i])| + k] == ps[i][k]
  {
    FlattenSplit(ps, i);
  }

  /** The bytes before packet i + 1. */
  lemma FlattenStep(ps: seq<Packet>, i: nat)
    requires i < |ps|
    ensures Flatten(ps[..i + 1]) == Flatten(ps[..i]) + ps[i]
  {
    assert ps[..i + 1] == ps[..i] + [ps[i]];
    FlattenAppend(ps[..i], [ps[i]]);
    FlattenOne(ps[i]);
  }

  lemma FlattenSnoc(ps: seq<Packet>, p: Packet)
    ensures Flatten(ps + [p]) == Flatten(ps) + p
    ensures forall i :: 0 <= i <= |ps| ==> (ps + [p])[..i] == ps[..i]
    ensures ps[..|ps|] == ps
  {
    FlattenAppend(ps, [p]);
    FlattenOne(p);
  }

  lemma FlattenTake(ps: seq<Packet>, i: nat)
    requires i <= |ps|
    ensures |Flatten(ps[..i])| <= |Flatten(ps)|
  {
    FlattenSplit(ps, i);
  }

  /** Dropping up to a place inside packet i, or at its end. */
  lemma {:induction false} DropBytesAt(ps: seq<Packet>, i: nat, k: nat)
    requires NonEmpty(ps) && i < |ps| && k <= |ps[i]|
    ensures DropBytes(ps, |Flatten(ps[..i])| + k) == if k < |ps[i]| then [ps[i][k..]] + ps[i + 1..] else ps[i + 1..]
  {
    if i == 0 {
      assert ps[..0] == [];
      if k == |ps[0]| && |ps| > 1 {
        assert ps[1][0..] == ps[1];
        assert [ps[1]] + ps[2..] == ps[1..];
      }
    } else {
      DropBytesAt(ps[1..], i - 1, k);
      assert ps[..i][1..] == ps[1..][..i - 1];
      assert ps[1..][i..] == ps[i + 1..];
    }
  }
}
