/** Chunking a linearization, src/cluster_linearize.h:425-462. */
module Chunking {
  import opened FeeFracs
  import opened Diagrams

  /** The combined fee and size of a list of transactions. */
  ghost function FeeSum(fr: seq<FeeFrac>, l: seq<nat>): FeeFrac
    requires InRange(fr, l)
  {
    if l == [] then EMPTY else Plus(FeeSum(fr, l[..|l| - 1]), fr[l[|l| - 1]])
  }

  ghost predicate InRange(fr: seq<FeeFrac>, l: seq<nat>) {
    forall i :: 0 <= i < |l| ==> l[i] < |fr| && fr[l[i]].size > 0
  }

  lemma InRangeConcat(fr: seq<FeeFrac>, k: seq<nat>, l: seq<nat>)
    requires InRange(fr, k) && InRange(fr, l)
    ensures InRange(fr, k + l)
  {
    forall i | 0 <= i < |k + l| ensures (k + l)[i] < |fr| && fr[(k + l)[i]].size > 0 {
      if i < |k| {
        assert (k + l)[i] == k[i];
      } else {
        assert (k + l)[i] == l[i - |k|];
      }
    }
  }

  lemma {:induction false} FeeSumConcat(fr: seq<FeeFrac>, k: seq<nat>, l: seq<nat>)
    requires InRange(fr, k) && InRange(fr, l)
    ensures InRange(fr, k + l)
    ensures FeeSum(fr, k + l) == Plus(FeeSum(fr, k), FeeSum(fr, l))
  {
    InRangeConcat(fr, k, l);
    if l == [] {
      assert k + l == k;
    } else {
      var n := |k + l| - 1;
      FeeSumConcat(fr, k, l[..|l| - 1]);
      assert (k + l)[..n] == k + l[..|l| - 1] && (k + l)[n] == l[|l| - 1];
      assert FeeSum(fr, k + l) == Plus(FeeSum(fr, (k + l)[..n]), fr[(k + l)[n]]);
    }
  }

  lemma {:induction false} FeeSumSize(fr: seq<FeeFrac>, l: seq<nat>)
    requires InRange(fr, l)
    ensures FeeSum(fr, l).size >= 0 && (l != [] ==> FeeSum(fr, l).size > 0)
  {
    if l != [] { FeeSumSize(fr, l[..|l| - 1]); }
  }

  ghost function Flatten(chunks: seq<seq<nat>>): seq<nat> {
    if chunks == [] then [] else chunks[0] + Flatten(chunks[1..])
  }

  lemma {:induction false} FlattenConcat(a: seq<seq<nat>>, b: seq<seq<nat>>)
    ensures Flatten(a + b) == Flatten(a) + Flatten(b)
  {
    if a == [] {
      assert a + b == b;
    } else {
      FlattenConcat(a[1..], b);
      assert (a + b)[1..] == a[1..] + b;
    }
  }

  lemma FlattenSnoc(a: seq<seq<nat>>, c: seq<nat>)
    ensures Flatten(a + [c]) == Flatten(a) + c
  {
    FlattenConcat(a, [c]);
    assert [c][1..] == [];
  }

  lemma FlattenLast(a: seq<seq<nat>>)
    requires a != []
    ensures Flatten(a) == Flatten(a[..|a| - 1]) + a[|a| - 1]
  {
    assert a == a[..|a| - 1] + [a[|a| - 1]];
    FlattenSnoc(a[..|a| - 1], a[|a| - 1]);
  }

  /** Every chunk is a nonempty list of known transactions. */
  ghost predicate Grouped(fr: seq<FeeFrac>, chunks: seq<seq<nat>>) {
    forall i :: 0 <= i < |chunks| ==> chunks[i] != [] && InRange(fr, chunks[i])
  }

  ghost function FeeSums(fr: seq<FeeFrac>, chunks: seq<seq<nat>>): (cs: seq<FeeFrac>)
    requires Grouped(fr, chunks)
    ensures |cs| == |chunks| && Sized(cs)
    ensures forall i :: 0 <= i < |cs| ==> cs[i] == FeeSum(fr, chunks[i])
  {
    var cs := seq(|chunks|, i requires 0 <= i < |chunks| => FeeSum(fr, chunks[i]));
    assert Sized(cs) by {
      forall i | 0 <= i < |cs| ensures cs[i].size > 0 { FeeSumSize(fr, chunks[i]); }
    }
    cs
  }

  /** No proper front part of the chunk has as high a feerate as the whole. */
  ghost predicate Solid(fr: seq<FeeFrac>, c: seq<nat>)
    requires InRange(fr, c)
  {
    forall j :: 0 < j < |c| ==> Higher(FeeSum(fr, c), FeeSum(fr, c[..j]))
  }

  /** What makes a decomposition of a linearization its chunking. */
  ghost predicate IsChunking(fr: seq<FeeFrac>, chunks: seq<seq<nat>>, l: seq<nat>) {
    && Grouped(fr, chunks)
    && Flatten(chunks) == l
    && (forall i :: 0 <= i < |chunks| ==> Solid(fr, chunks[i]))
    && NonIncreasing(FeeSums(fr, chunks))
  }

  lemma {:induction false} TotalIsFeeSum(fr: seq<FeeFrac>, chunks: seq<seq<nat>>)
    requires Grouped(fr, chunks)
    ensures InRange(fr, Flatten(chunks))
    ensures Total(FeeSums(fr, chunks)) == FeeSum(fr, Flatten(chunks))
  {
    if chunks != [] {
      TotalIsFeeSum(fr, chunks[1..]);
      assert FeeSums(fr, chunks)[1..] == FeeSums(fr, chunks[1..]);
      FeeSumConcat(fr, chunks[0], Flatten(chunks[1..]));
    }
  }

  /** A front part of a solid chunk has at most the chunk's positive excess over any feerate. */
  lemma FrontOfSolid(fr: seq<FeeFrac>, c: seq<nat>, j: nat, r: real)
    requires InRange(fr, c) && c != [] && Solid(fr, c) && j <= |c|
    ensures Excess(FeeSum(fr, c[..j]), r) <= Pos(Excess(FeeSum(fr, c), r))
  {
    if j == |c| {
      assert c[..j] == c;
    } else if j > 0 {
      var p, q := FeeSum(fr, c[..j]), FeeSum(fr, c);
      assert c == c[..j] + c[j..];
      FeeSumConcat(fr, c[..j], c[j..]);
      FeeSumSize(fr, c[..j]);
      FeeSumSize(fr, c[j..]);
      CompareIsRate(q, p);
      SmallerAndLower(p, q, r);
    }
  }

  /** Every prefix of the linearization is below every supporting line of its chunks. */
  lemma {:induction false} PrefixBelowChunks(fr: seq<FeeFrac>, chunks: seq<seq<nat>>, j: nat, r: real)
    requires Grouped(fr, chunks) && j <= |Flatten(chunks)|
    requires forall i :: 0 <= i < |chunks| ==> Solid(fr, chunks[i])
    ensures InRange(fr, Flatten(chunks)[..j])
    ensures Excess(FeeSum(fr, Flatten(chunks)[..j]), r) <= Support(FeeSums(fr, chunks), r)
  {
    TotalIsFeeSum(fr, chunks);
    if chunks != [] {
      var c, rest := chunks[0], chunks[1..];
      assert FeeSums(fr, chunks)[1..] == FeeSums(fr, rest);
      if j <= |c| {
        assert Flatten(chunks)[..j] == c[..j];
        FrontOfSolid(fr, c, j, r);
        SupportNonNegative(FeeSums(fr, rest), r);
      } else {
        PrefixBelowChunks(fr, rest, j - |c|, r);
        assert Flatten(chunks)[..j] == c + Flatten(rest)[..j - |c|];
        FeeSumConcat(fr, c, Flatten(rest)[..j - |c|]);
        ExcessPlus(FeeSum(fr, c), FeeSum(fr, Flatten(rest)[..j - |c|]), r);
      }
    }
  }

  /** Every supporting line of sorted groups touches a prefix of their concatenation. */
  lemma {:induction false} SupportIsPrefix(fr: seq<FeeFrac>, chunks: seq<seq<nat>>, r: real) returns (j: nat)
    requires Grouped(fr, chunks) && NonIncreasing(FeeSums(fr, chunks))
    ensures j <= |Flatten(chunks)| && InRange(fr, Flatten(chunks)[..j])
    ensures Excess(FeeSum(fr, Flatten(chunks)[..j]), r) == Support(FeeSums(fr, chunks), r)
  {
    TotalIsFeeSum(fr, chunks);
    var cs := FeeSums(fr, chunks);
    if chunks == [] || Rate(cs[0]) <= r {
      SupportZero(cs, r);
      j := 0;
    } else {
      var c, rest := chunks[0], chunks[1..];
      assert cs[1..] == FeeSums(fr, rest);
      assert NonIncreasing(FeeSums(fr, rest));
      var k := SupportIsPrefix(fr, rest, r);
      j := |c| + k;
      assert Flatten(chunks)[..j] == c + Flatten(rest)[..k];
      FeeSumConcat(fr, c, Flatten(rest)[..k]);
      ExcessPlus(FeeSum(fr, c), FeeSum(fr, Flatten(rest)[..k]), r);
      ExcessSign(cs[0], r);
    }
  }

  /** No prefix has a higher feerate than the first chunk. */
  lemma PrefixBelowFirst(fr: seq<FeeFrac>, chunks: seq<seq<nat>>, l: seq<nat>, j: nat)
    requires IsChunking(fr, chunks, l) && chunks != [] && j <= |l|
    ensures InRange(fr, l) && InRange(fr, l[..j])
    ensures Excess(FeeSum(fr, l[..j]), Rate(FeeSums(fr, chunks)[0])) <= 0.0
  {
    TotalIsFeeSum(fr, chunks);
    var cs := FeeSums(fr, chunks);
    PrefixBelowChunks(fr, chunks, j, Rate(cs[0]));
    SupportZero(cs, Rate(cs[0]));
  }

  /** A linearization has only one chunking. */
  lemma {:induction false} ChunkingUnique(fr: seq<FeeFrac>, a: seq<seq<nat>>, b: seq<seq<nat>>, l: seq<nat>)
    requires IsChunking(fr, a, l) && IsChunking(fr, b, l)
    ensures a == b
  {
    if a == [] || b == [] {
    } else {
      if |a[0]| < |b[0]| {
        FirstNotShorter(fr, a, b, l);
      } else if |b[0]| < |a[0]| {
        FirstNotShorter(fr, b, a, l);
      }
      assert a[0] == l[..|a[0]|] == b[0];
      assert l[|a[0]|..] == Flatten(a[1..]) == Flatten(b[1..]);
      ChunkingTail(fr, a, l);
      ChunkingTail(fr, b, l);
      ChunkingUnique(fr, a[1..], b[1..], l[|a[0]|..]);
    }
  }

  lemma ChunkingTail(fr: seq<FeeFrac>, a: seq<seq<nat>>, l: seq<nat>)
    requires IsChunking(fr, a, l) && a != []
    ensures IsChunking(fr, a[1..], Flatten(a[1..]))
  {
    assert FeeSums(fr, a)[1..] == FeeSums(fr, a[1..]);
    assert NonIncreasing(FeeSums(fr, a[1..]));
  }

  lemma FirstNotShorter(fr: seq<FeeFrac>, a: seq<seq<nat>>, b: seq<seq<nat>>, l: seq<nat>)
    requires IsChunking(fr, a, l) && IsChunking(fr, b, l) && a != [] && b != []
    ensures |a[0]| >= |b[0]|
  {
    if |a[0]| < |b[0]| {
      var j := |b[0]|;
      assert l[..j] == b[0] && b[0][..|a[0]|] == l[..|a[0]|] == a[0];
      PrefixBelowFirst(fr, a, l, j);
      var p, q := FeeSum(fr, a[0]), FeeSum(fr, b[0]);
      FeeSumSize(fr, a[0]);
      FeeSumSize(fr, b[0]);
      CompareIsRate(q, p);
      ExcessSign(q, Rate(p));
      assert false;
    }
  }

  /** Absorbing earlier chunks of lower feerate into a new last chunk. */
  ghost function Absorb(fr: seq<FeeFrac>, chunks: seq<seq<nat>>, c: seq<nat>): seq<seq<nat>>
    requires Grouped(fr, chunks) && c != [] && InRange(fr, c)
    decreases |chunks|
  {
    var n := |chunks| - 1;
    if chunks != [] && Higher(FeeSum(fr, c), FeeSum(fr, chunks[n]))
    then Absorb(fr, chunks[..n], chunks[n] + c)
    else chunks + [c]
  }

  /** Joining a solid chunk to a solid chunk of lower feerate before it gives a solid chunk. */
  lemma JoinSolid(fr: seq<FeeFrac>, p: seq<nat>, c: seq<nat>)
    requires InRange(fr, p) && InRange(fr, c) && p != [] && c != []
    requires Solid(fr, p) && Solid(fr, c) && Higher(FeeSum(fr, c), FeeSum(fr, p))
    ensures InRange(fr, p + c) && Solid(fr, p + c)
    ensures FeeSum(fr, p).size > 0 && FeeSum(fr, c).size > 0 && FeeSum(fr, p + c).size > 0
    ensures Rate(FeeSum(fr, p)) < Rate(FeeSum(fr, p + c)) < Rate(FeeSum(fr, c))
  {
    FeeSumConcat(fr, p, c);
    var fp, fc, f := FeeSum(fr, p), FeeSum(fr, c), FeeSum(fr, p + c);
    FeeSumSize(fr, p);
    FeeSumSize(fr, c);
    CompareIsRate(fc, fp);
    RateOfPlus(fp, fc);
    forall j | 0 < j < |p + c| ensures Higher(f, FeeSum(fr, (p + c)[..j])) {
      var front := (p + c)[..j];
      FeeSumSize(fr, front);
      CompareIsRate(f, FeeSum(fr, front));
      if j < |p| {
        assert front == p[..j];
        CompareIsRate(fp, FeeSum(fr, front));
      } else if j == |p| {
        assert front == p;
      } else {
        JoinSolidTail(fr, p, c, j - |p|);
        assert front == p + c[..j - |p|];
      }
    }
  }

  /** If a front is below the whole c, and p is too, then dropping the back of p + c lowers the feerate:
      the back is above c, hence above p + c. */
  lemma DropBack(p: FeeFrac, front: FeeFrac, back: FeeFrac)
    requires p.size > 0 && front.size > 0 && back.size > 0
    requires Rate(front) < Rate(Plus(front, back)) && Rate(p) < Rate(Plus(front, back))
    ensures Rate(Plus(p, front)) < Rate(Plus(Plus(p, front), back))
  {
    var c, f := Plus(front, back), Plus(Plus(p, front), back);
    if Rate(back) <= Rate(front) { RateOfPlus(back, front); } else { RateOfPlus(front, back); }
    assert Rate(c) < Rate(back);
    if Rate(back) <= Rate(Plus(p, front)) {
      RateOfPlus(back, Plus(p, front));
      assert Plus(p, c) == f && Plus(c, p) == f;
      RateOfPlus(p, c);
    } else {
      RateOfPlus(Plus(p, front), back);
    }
  }

  lemma JoinSolidTail(fr: seq<FeeFrac>, p: seq<nat>, c: seq<nat>, j: nat)
    requires InRange(fr, p) && InRange(fr, c) && InRange(fr, p + c) && p != [] && 0 < j < |c|
    requires Solid(fr, c) && Higher(FeeSum(fr, c), FeeSum(fr, p))
    ensures FeeSum(fr, p + c).size > 0 && FeeSum(fr, p + c[..j]).size > 0
    ensures Rate(FeeSum(fr, p + c[..j])) < Rate(FeeSum(fr, p + c))
  {
    var front, back := c[..j], c[j..];
    assert c == front + back;
    FeeSumConcat(fr, p, front);
    FeeSumConcat(fr, front, back);
    ConcatAssociates(p, front, back);
    FeeSumConcat(fr, p + front, back);
    FeeSumSize(fr, p); FeeSumSize(fr, front); FeeSumSize(fr, back); FeeSumSize(fr, c);
    CompareIsRate(FeeSum(fr, c), FeeSum(fr, p));
    CompareIsRate(FeeSum(fr, c), FeeSum(fr, front));
    DropBack(FeeSum(fr, p), FeeSum(fr, front), FeeSum(fr, back));
  }

  lemma AppendIsChunking(fr: seq<FeeFrac>, chunks: seq<seq<nat>>, c: seq<nat>)
    requires IsChunking(fr, chunks, Flatten(chunks)) && c != [] && InRange(fr, c) && Solid(fr, c)
    requires chunks == [] || !Higher(FeeSum(fr, c), FeeSum(fr, chunks[|chunks| - 1]))
    ensures IsChunking(fr, chunks + [c], Flatten(chunks) + c)
  {
    FlattenSnoc(chunks, c);
    FeeSumSize(fr, c);
    assert Grouped(fr, chunks + [c]);
    AppendToSorted(FeeSums(fr, chunks), FeeSum(fr, c));
    assert FeeSums(fr, chunks + [c]) == FeeSums(fr, chunks) + [FeeSum(fr, c)];
  }

  lemma DropLastChunk(fr: seq<FeeFrac>, chunks: seq<seq<nat>>)
    requires IsChunking(fr, chunks, Flatten(chunks)) && chunks != []
    ensures IsChunking(fr, chunks[..|chunks| - 1], Flatten(chunks[..|chunks| - 1]))
    ensures Flatten(chunks) == Flatten(chunks[..|chunks| - 1]) + chunks[|chunks| - 1]
  {
    var n := |chunks| - 1;
    var front := chunks[..n];
    FlattenLast(chunks);
    FrontFeeSums(fr, chunks, n);
    FrontOfSorted(FeeSums(fr, chunks), n);
  }

  lemma FrontFeeSums(fr: seq<FeeFrac>, chunks: seq<seq<nat>>, n: nat)
    requires Grouped(fr, chunks) && n <= |chunks|
    ensures Grouped(fr, chunks[..n]) && FeeSums(fr, chunks[..n]) == FeeSums(fr, chunks)[..n]
  {
  }

  lemma ConcatAssociates(a: seq<nat>, b: seq<nat>, c: seq<nat>)
    ensures (a + b) + c == a + (b + c)
  {
  }

  lemma {:induction false} AbsorbIsChunking(fr: seq<FeeFrac>, chunks: seq<seq<nat>>, c: seq<nat>)
    requires IsChunking(fr, chunks, Flatten(chunks)) && c != [] && InRange(fr, c) && Solid(fr, c)
    ensures IsChunking(fr, Absorb(fr, chunks, c), Flatten(chunks) + c)
    decreases |chunks|
  {
    var n := |chunks| - 1;
    if chunks == [] || !Higher(FeeSum(fr, c), FeeSum(fr, chunks[n])) {
      AppendIsChunking(fr, chunks, c);
    } else {
      var front, last := chunks[..n], chunks[n];
      DropLastChunk(fr, chunks);
      JoinSolid(fr, last, c);
      AbsorbIsChunking(fr, front, last + c);
      ConcatAssociates(Flatten(front), last, c);
    }
  }

  lemma AbsorbNext(fr: seq<FeeFrac>, l: seq<nat>, chunks: seq<seq<nat>>)
    requires InRange(fr, l) && l != [] && IsChunking(fr, chunks, l[..|l| - 1])
    ensures InRange(fr, [l[|l| - 1]]) && IsChunking(fr, Absorb(fr, chunks, [l[|l| - 1]]), l)
  {
    var n := |l| - 1;
    AbsorbIsChunking(fr, chunks, [l[n]]);
    assert l == l[..n] + [l[n]];
  }

  /** The chunks of a linearization, as lists of transactions. */
  ghost function Chunks(fr: seq<FeeFrac>, l: seq<nat>): (chunks: seq<seq<nat>>)
    requires InRange(fr, l)
    ensures IsChunking(fr, chunks, l)
  {
    if l == [] then []
    else
      var n := |l| - 1;
      var chunks := Chunks(fr, l[..n]);
      AbsorbNext(fr, l, chunks);
      Absorb(fr, chunks, [l[n]])
  }

  ghost function ChunkFeeRates(fr: seq<FeeFrac>, l: seq<nat>): (cs: seq<FeeFrac>)
    requires InRange(fr, l)
    ensures Sized(cs) && NonIncreasing(cs) && Total(cs) == FeeSum(fr, l)
  {
    TotalIsFeeSum(fr, Chunks(fr, l));
    FeeSums(fr, Chunks(fr, l))
  }

  /** The diagram of the chunks is on or above every prefix of the linearization. */
  lemma PrefixOnOrBelow(fr: seq<FeeFrac>, l: seq<nat>, j: nat)
    requires InRange(fr, l) && j <= |l|
    ensures Height(ChunkFeeRates(fr, l), FeeSum(fr, l[..j]).size as real) >= FeeSum(fr, l[..j]).fee as real
  {
    var cs := ChunkFeeRates(fr, l);
    forall r: real ensures Support(cs, r) >= Excess(FeeSum(fr, l[..j]), r) {
      PrefixBelowChunks(fr, Chunks(fr, l), j, r);
    }
    PrefixSize(fr, l, j);
    PointBelow(cs, FeeSum(fr, l[..j]));
  }

  /** A point on or below the diagram is below every supporting line. */
  lemma BelowSupport(ds: seq<FeeFrac>, p: FeeFrac, r: real)
    requires Sized(ds) && 0 <= p.size <= Total(ds).size
    requires Height(ds, p.size as real) >= p.fee as real
    ensures Support(ds, r) >= Excess(p, r)
  {
    HeightBelowSupport(ds, p.size as real, r);
  }

  lemma PrefixSize(fr: seq<FeeFrac>, l: seq<nat>, j: nat)
    requires InRange(fr, l) && j <= |l|
    ensures 0 <= FeeSum(fr, l[..j]).size <= FeeSum(fr, l).size
  {
    assert l == l[..j] + l[j..];
    FeeSumConcat(fr, l[..j], l[j..]);
    FeeSumSize(fr, l[..j]);
    FeeSumSize(fr, l[j..]);
  }

  /** The diagram of the chunks is the least one, among sorted lists of chunks of the same total, that
      is on or above every prefix. */
  lemma LeastMajorant(fr: seq<FeeFrac>, l: seq<nat>, ds: seq<FeeFrac>)
    requires InRange(fr, l) && Sized(ds) && NonIncreasing(ds) && Total(ds) == FeeSum(fr, l)
    requires forall j :: 0 <= j <= |l| ==>
      Height(ds, FeeSum(fr, l[..j]).size as real) >= FeeSum(fr, l[..j]).fee as real
    ensures AtLeastAsGood(ds, ChunkFeeRates(fr, l))
  {
    forall r: real ensures Support(ds, r) >= Support(ChunkFeeRates(fr, l), r) {
      var j := SupportIsPrefix(fr, Chunks(fr, l), r);
      PrefixSize(fr, l, j);
      BelowSupport(ds, FeeSum(fr, l[..j]), r);
    }
    DominatesBySupport(ds, ChunkFeeRates(fr, l));
  }
}
