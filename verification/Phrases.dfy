/** Phrases of words that have several readings (phrase.hpp, phraseStreamer.hpp). */
module Phrases {
  import opened Basics

  type Bucket = seq<int>      // the words that a place of the text can be read as

  // ----- mixed radix numbers -----

  predicate NonEmptyBuckets(bs: seq<Bucket>) {
    forall i :: 0 <= i < |bs| ==> bs[i] != []
  }

  /** The number of combinations. */
  function Product(bs: seq<Bucket>): nat {
    if bs == [] then 1 else |bs[0]| * Product(bs[1..])
  }

  /** The number with the given digits, the first bucket's lowest. */
  function Rank(ds: seq<nat>, bs: seq<Bucket>): nat
    requires |ds| == |bs|
  {
    if ds == [] then 0 else ds[0] + |bs[0]| * Rank(ds[1..], bs[1..])
  }

  /** Each index leads into its bucket. */
  predicate InBuckets(ds: seq<nat>, bs: seq<Bucket>) {
    |ds| == |bs| && forall i :: 0 <= i < |ds| ==> ds[i] < |bs[i]|
  }

  lemma InBucketsTail(ds: seq<nat>, bs: seq<Bucket>)
    requires InBuckets(ds, bs) && ds != []
    ensures InBuckets(ds[1..], bs[1..])
  {
    assert forall i :: 0 <= i < |ds| - 1 ==> ds[1..][i] == ds[i + 1] && bs[1..][i] == bs[i + 1];
  }

  lemma {:induction false} RankBelowProduct(ds: seq<nat>, bs: seq<Bucket>)
    requires InBuckets(ds, bs)
    ensures Rank(ds, bs) < Product(bs)
  {
    if ds != [] {
      InBucketsTail(ds, bs);
      RankBelowProduct(ds[1..], bs[1..]);
      var n, r, p := |bs[0]|, Rank(ds[1..], bs[1..]), Product(bs[1..]);
      MulMonotone(n, r + 1, p);
      MulMonotone(n, r, p);
    }
  }

  /** When the last index has run out of its bucket, the rank has reached the product. */
  lemma {:induction false} RankAtEnd(ds: seq<nat>, bs: seq<Bucket>)
    requires |ds| == |bs| > 0 && ds[|ds| - 1] >= |bs[|ds| - 1]|
    ensures Rank(ds, bs) >= Product(bs)
  {
    if |ds| > 1 {
      RankAtEnd(ds[1..], bs[1..]);
      MulMonotone(|bs[0]|, Product(bs[1..]), Rank(ds[1..], bs[1..]));
    } else {
      assert Product(bs[1..]) == 1;
    }
  }

  /** Different choices have different ranks. */
  lemma {:induction false} RankInjective(a: seq<nat>, b: seq<nat>, bs: seq<Bucket>)
    requires InBuckets(a, bs) && InBuckets(b, bs) && Rank(a, bs) == Rank(b, bs)
    ensures a == b
  {
    if a != [] {
      InBucketsTail(a, bs);
      InBucketsTail(b, bs);
      var n, x, y := |bs[0]|, Rank(a[1..], bs[1..]), Rank(b[1..], bs[1..]);
      if x < y {
        MulMonotone(n, x + 1, y);
        MulMonotone(n, x, y);
      } else if y < x {
        MulMonotone(n, y + 1, x);
        MulMonotone(n, y, x);
      }
      RankInjective(a[1..], b[1..], bs[1..]);
      assert a == [a[0]] + a[1..] && b == [b[0]] + b[1..];
    }
  }

  /** The first place is the one that changes with every combination. */
  lemma RankFirst(ds: seq<nat>, bs: seq<Bucket>)
    requires InBuckets(ds, bs) && ds != []
    ensures ds[0] == Rank(ds, bs) % |bs[0]|
  {
    InBucketsTail(ds, bs);
    Quotient(Rank(ds, bs), |bs[0]|, Rank(ds[1..], bs[1..]), ds[0]);
  }

  function Carried(ds: seq<nat>, i: nat): seq<nat>
    requires i + 1 < |ds|
  {
    ds[i := 0][i + 1 := ds[i + 1] + 1]
  }

  /** A full digit is worth one of the next. */
  lemma {:induction false} CarryKeepsRank(ds: seq<nat>, bs: seq<Bucket>, i: nat)
    requires |ds| == |bs| && i + 1 < |ds| && ds[i] == |bs[i]|
    ensures Rank(Carried(ds, i), bs) == Rank(ds, bs)
  {
    var cs := Carried(ds, i);
    if i == 0 {
      var n, x, y := |bs[0]|, Rank(ds[1..], bs[1..]), Rank(cs[1..], bs[1..]);
      assert cs[1..][1..] == ds[1..][1..];
      assert y == x + 1;
      MulMonotone(n, x, y);
    } else {
      assert cs[1..] == Carried(ds[1..], i - 1);
      CarryKeepsRank(ds[1..], bs[1..], i - 1);
    }
  }

  lemma {:induction false} RankOfZeros(ds: seq<nat>, bs: seq<Bucket>)
    requires |ds| == |bs| && forall i :: 0 <= i < |ds| ==> ds[i] == 0
    ensures Rank(ds, bs) == 0
  {
    if ds != [] { RankOfZeros(ds[1..], bs[1..]); }
  }

  // ----- phrase.hpp -----

  /** The words that the indices choose. */
  function Pick(ds: seq<nat>, bs: seq<Bucket>): (r: seq<int>)
    requires InBuckets(ds, bs)
    ensures |r| == |bs|
  {
    seq(|bs|, i requires 0 <= i < |bs| => bs[i][ds[i]])
  }

  /** Every choice of one word from each bucket is picked by some indices. */
  lemma PickedBy(w: seq<int>, bs: seq<Bucket>) returns (ds: seq<nat>)
    requires |w| == |bs| && forall i :: 0 <= i < |bs| ==> w[i] in bs[i]
    ensures InBuckets(ds, bs) && Pick(ds, bs) == w
  {
    ds := [];
    while |ds| < |bs|
      invariant |ds| <= |bs| && forall i :: 0 <= i < |ds| ==> ds[i] < |bs[i]| && bs[i][ds[i]] == w[i]
    {
      var i := |ds|;
      var d: nat :| d < |bs[i]| && bs[i][d] == w[i];
      ds := ds + [d];
    }
  }

  /** No bucket holds a word twice. */
  predicate DistinctWords(bs: seq<Bucket>) {
    forall i :: 0 <= i < |bs| ==> NoDup(bs[i])
  }

  lemma PickInjective(a: seq<nat>, b: seq<nat>, bs: seq<Bucket>)
    requires InBuckets(a, bs) && InBuckets(b, bs) && DistinctWords(bs) && Pick(a, bs) == Pick(b, bs)
    ensures a == b
  {
    forall i | 0 <= i < |bs| ensures a[i] == b[i] {
      assert Pick(a, bs)[i] == bs[i][a[i]] && Pick(b, bs)[i] == bs[i][b[i]];
    }
  }

  class Phrase {
    var buckets: seq<Bucket>
    const wordIndices: array<nat>

    /** All indices but the last stay in their buckets. */
    ghost predicate Valid()
      reads this, wordIndices
    {
      && wordIndices.Length == |buckets| > 0 && NonEmptyBuckets(buckets)
      && (forall i :: 0 <= i < |buckets| - 1 ==> wordIndices[i] < |buckets[i]|)
      && wordIndices[|buckets| - 1] <= |buckets[|buckets| - 1]|
      && Rank(wordIndices[..], buckets) <= Product(buckets)
    }

    /** How many combinations have been returned. */
    ghost function Count(): nat
      requires wordIndices.Length == |buckets|
      reads this, wordIndices
    {
      Rank(wordIndices[..], buckets)
    }

    /** A phrase that has been reset and given a bucket for every place. */
    constructor (bs: seq<Bucket>)
      requires bs != [] && NonEmptyBuckets(bs)
      ensures Valid() && buckets == bs && Count() == 0 && fresh(wordIndices)
    {
      buckets := bs;
      wordIndices := new nat[|bs|](i => 0);
      new;
      RankOfZeros(wordIndices[..], buckets);
    }

    /** The carry loop: every full digit is set to zero and counts one in the next. */
    method Carry()
      requires wordIndices.Length == |buckets| > 0 && NonEmptyBuckets(buckets)
      requires forall i :: 1 <= i < |buckets| ==> wordIndices[i] < |buckets[i]|
      requires wordIndices[0] <= |buckets[0]|
      modifies wordIndices
      ensures forall i :: 0 <= i < |buckets| - 1 ==> wordIndices[i] < |buckets[i]|
      ensures wordIndices[|buckets| - 1] <= |buckets[|buckets| - 1]|
      ensures Rank(wordIndices[..], buckets) == old(Rank(wordIndices[..], buckets))
    {
      for i := 0 to |buckets| - 1
        invariant forall j :: i < j < |buckets| ==> wordIndices[j] < |buckets[j]|
        invariant forall j :: 0 <= j < i ==> wordIndices[j] < |buckets[j]|
        invariant wordIndices[i] <= |buckets[i]|
        invariant Rank(wordIndices[..], buckets) == old(Rank(wordIndices[..], buckets))
      {
        if wordIndices[i] >= |buckets[i]| {
          ghost var before := wordIndices[..];
          CarryKeepsRank(before, buckets, i);
          wordIndices[i] := 0;
          wordIndices[i + 1] := wordIndices[i + 1] + 1;
          assert wordIndices[..] == Carried(before, i);
        }
      }
    }

    /** Call number k returns the combination of rank k; when all have been returned, nothing changes any more. */
    method NextCombination() returns (ok: bool, words: seq<int>)
      requires Valid()
      modifies wordIndices
      ensures Valid() && ok == (old(Count()) < Product(buckets))
      ensures ok ==> InBuckets(old(wordIndices[..]), buckets) && words == Pick(old(wordIndices[..]), buckets) && Count() == old(Count()) + 1
      ensures ok ==> |words| == |buckets| && forall i :: 0 <= i < |buckets| ==> words[i] == buckets[i][old(wordIndices[i])]
      ensures !ok ==> wordIndices[..] == old(wordIndices[..])
    {
      ghost var ds := wordIndices[..];
      var volume := |buckets|;
      if wordIndices[volume - 1] >= |buckets[volume - 1]| {
        RankAtEnd(ds, buckets);
        return false, [];
      }
      assert InBuckets(ds, buckets);
      RankBelowProduct(ds, buckets);
      words := [];
      for i := 0 to volume
        invariant |words| == i && wordIndices[..] == ds
        invariant forall j :: 0 <= j < i ==> words[j] == Pick(ds, buckets)[j]
      {
        words := words + [buckets[i][wordIndices[i]]];
      }
      wordIndices[0] := wordIndices[0] + 1;
      assert wordIndices[..][1..] == ds[1..];
      Carry();
      ok := true;
    }
  }

  /** Asking until the answer is false gives each choice of indices exactly once, in the order of its rank. */
  method AllPicks(bs: seq<Bucket>) returns (all: seq<seq<int>>, ghost picks: seq<seq<nat>>)
    requires bs != [] && NonEmptyBuckets(bs)
    ensures |all| == |picks| == Product(bs)
    ensures forall k :: 0 <= k < |all| ==> InBuckets(picks[k], bs) && Rank(picks[k], bs) == k && all[k] == Pick(picks[k], bs)
    ensures forall ds :: InBuckets(ds, bs) ==> Rank(ds, bs) < |all| && all[Rank(ds, bs)] == Pick(ds, bs)
  {
    var phrase := new Phrase(bs);
    all, picks := [], [];
    var ok := true;
    while ok
      invariant fresh(phrase) && fresh(phrase.wordIndices) && phrase.Valid() && phrase.buckets == bs
      invariant |all| == |picks| == phrase.Count() <= Product(bs) && (!ok ==> |all| == Product(bs))
      invariant forall k :: 0 <= k < |all| ==> InBuckets(picks[k], bs) && Rank(picks[k], bs) == k && all[k] == Pick(picks[k], bs)
      decreases ok, Product(bs) - |all|
    {
      ghost var ds := phrase.wordIndices[..];
      var words;
      ok, words := phrase.NextCombination();
      if ok {
        all, picks := all + [words], picks + [ds];
      }
    }
    forall ds | InBuckets(ds, bs) ensures Rank(ds, bs) < |all| && all[Rank(ds, bs)] == Pick(ds, bs) {
      RankBelowProduct(ds, bs);
      RankInjective(ds, picks[Rank(ds, bs)], bs);
    }
  }

  /**
    So it gives every choice of one word from each bucket, as many answers as there are such choices of places, the first place
    changing from one to the next; and no answer twice, unless a bucket holds a word twice.
  */
  method AllCombinations(bs: seq<Bucket>) returns (all: seq<seq<int>>)
    requires bs != [] && NonEmptyBuckets(bs)
    ensures |all| == Product(bs)
    ensures forall k :: 0 <= k < |all| ==> |all[k]| == |bs| && forall i :: 0 <= i < |bs| ==> all[k][i] in bs[i]
    ensures forall k :: 0 <= k < |all| ==> all[k][0] == bs[0][k % |bs[0]|]
    ensures forall w: seq<int> :: |w| == |bs| && (forall i :: 0 <= i < |bs| ==> w[i] in bs[i]) ==> w in all
    ensures DistinctWords(bs) ==> NoDup(all)
  {
    ghost var picks;
    all, picks := AllPicks(bs);
    forall k | 0 <= k < |all| ensures all[k][0] == bs[0][k % |bs[0]|] {
      RankFirst(picks[k], bs);
    }
    forall w: seq<int> | |w| == |bs| && (forall i :: 0 <= i < |bs| ==> w[i] in bs[i]) ensures w in all {
      var ds := PickedBy(w, bs);
      assert all[Rank(ds, bs)] == w;
    }
    forall i, j | DistinctWords(bs) && 0 <= i < j < |all| ensures all[i] != all[j] {
      if all[i] == all[j] { PickInjective(picks[i], picks[j], bs); }
    }
  }

  // ----- phraseStreamer.hpp -----

  /** The distance from the first word of a window to word i, with the gaps between them. */
  function WordIndex(gaps: seq<nat>, i: nat): nat
    requires i <= |gaps|
  {
    if i == 0 then 0 else WordIndex(gaps, i - 1) + 1 + gaps[i - 1]
  }

  /** `areaSize`: the words of a window and its gaps. */
  function AreaSize(gaps: seq<nat>): nat {
    |gaps| + 1 + Sum(gaps)
  }

  function Sum(s: seq<nat>): nat {
    if s == [] then 0 else Sum(s[..|s| - 1]) + s[|s| - 1]
  }

  lemma {:induction false} WordIndexInArea(gaps: seq<nat>, i: nat)
    requires i <= |gaps|
    ensures WordIndex(gaps, i) < AreaSize(gaps) && (i == |gaps| ==> WordIndex(gaps, i) == AreaSize(gaps) - 1)
    ensures if i == 0 then WordIndex(gaps, i) == 0 else WordIndex(gaps, i) == WordIndex(gaps, i - 1) + 1 + gaps[i - 1]
  {
    if gaps != [] {
      var front := gaps[..|gaps| - 1];
      SameWordIndex(front, gaps, if i < |gaps| then i else i - 1);
      WordIndexInArea(front, if i < |gaps| then i else i - 1);
    }
  }

  lemma {:induction false} SameWordIndex(a: seq<nat>, b: seq<nat>, i: nat)
    requires a <= b && i <= |a|
    ensures WordIndex(a, i) == WordIndex(b, i)
  {
    if i > 0 { SameWordIndex(a, b, i - 1); }
  }

  /** The buckets of the window at pos. */
  function Window(text: seq<Bucket>, gaps: seq<nat>, pos: nat): (r: seq<Bucket>)
    requires pos + AreaSize(gaps) <= |text|
    ensures |r| == |gaps| + 1
  {
    seq(|gaps| + 1, i requires 0 <= i <= |gaps| => WordIndexInArea(gaps, i); text[pos + WordIndex(gaps, i)])
  }

  /** Word i of the phrase is the one at its distance from pos. */
  predicate IsWindow(text: seq<Bucket>, gaps: seq<nat>, pos: nat, phrase: seq<Bucket>) {
    |phrase| == |gaps| + 1
    && forall i :: 0 <= i <= |gaps| ==> pos + WordIndex(gaps, i) < |text| && phrase[i] == text[pos + WordIndex(gaps, i)]
  }

  lemma WindowShows(text: seq<Bucket>, gaps: seq<nat>, pos: nat)
    requires pos + AreaSize(gaps) <= |text|
    ensures IsWindow(text, gaps, pos, Window(text, gaps, pos))
  {
    forall i | 0 <= i <= |gaps| ensures WordIndex(gaps, i) < AreaSize(gaps) { WordIndexInArea(gaps, i); }
  }

  class PhraseStreamer {
    const text: seq<Bucket>
    const gaps: seq<nat>
    var pos: nat

    constructor (text: seq<Bucket>, gaps: seq<nat>)
      ensures this.text == text && this.gaps == gaps && pos == 0
    {
      this.text, this.gaps, pos := text, gaps, 0;
    }

    /** Call number k gives window k, as long as the window lies in the text; afterwards nothing changes any more. */
    method Next() returns (ok: bool, phrase: seq<Bucket>)
      modifies this
      ensures ok == (old(pos) + AreaSize(gaps) <= |text|)
      ensures ok ==> phrase == Window(text, gaps, old(pos)) && pos == old(pos) + 1
      ensures ok ==> IsWindow(text, gaps, old(pos), phrase)
      ensures !ok ==> pos == old(pos)
    {
      var areaSize := AreaSize(gaps);
      phrase := [];
      if |text| < areaSize {
        return false, [];
      }
      if pos > |text| - areaSize {
        return false, [];
      }
      for i := 0 to |gaps| + 1
        invariant |phrase| == i && pos == old(pos)
        invariant forall j :: 0 <= j < i ==> phrase[j] == Window(text, gaps, pos)[j]
      {
        WordIndexInArea(gaps, i);
        phrase := phrase + [text[pos + WordIndex(gaps, i)]];
      }
      assert phrase == Window(text, gaps, pos);
      WindowShows(text, gaps, pos);
      pos := pos + 1;
      ok := true;
    }
  }

  /** Asking until the answer is false gives every window of the text exactly once, from left to right. */
  method AllWindows(text: seq<Bucket>, gaps: seq<nat>) returns (windows: seq<seq<Bucket>>)
    ensures |windows| == if |text| < AreaSize(gaps) then 0 else |text| - AreaSize(gaps) + 1
    ensures forall k :: 0 <= k < |windows| ==> windows[k] == Window(text, gaps, k)
    ensures forall k :: 0 <= k < |windows| ==> IsWindow(text, gaps, k, windows[k])
  {
    var streamer := new PhraseStreamer(text, gaps);
    windows := [];
    var ok := true;
    while ok
      invariant fresh(streamer) && streamer.text == text && streamer.gaps == gaps && streamer.pos == |windows|
      invariant |windows| > 0 ==> |windows| - 1 + AreaSize(gaps) <= |text|
      invariant !ok ==> |windows| + AreaSize(gaps) > |text|
      invariant forall k :: 0 <= k < |windows| ==> windows[k] == Window(text, gaps, k)
      decreases ok, |text| - |windows|
    {
      var phrase;
      ok, phrase := streamer.Next();
      if ok {
        windows := windows + [phrase];
      }
    }
    forall k | 0 <= k < |windows| ensures IsWindow(text, gaps, k, windows[k]) {
      WindowShows(text, gaps, k);
    }
  }
}
