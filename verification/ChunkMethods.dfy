/** The two loops that compute the chunks of a linearization, src/cluster_linearize.h:425-462. */
module ChunkMethods {
  import opened FeeFracs
  import opened Chunking
  import opened Forests
  import opened Orders

  /** What a loop that has absorbed into the new chunk c, leaving the chunks before, still has to do. */
  lemma AbsorbOne(fr: seq<FeeFrac>, before: seq<seq<nat>>, c: seq<nat>)
    requires Grouped(fr, before) && c != [] && InRange(fr, c) && before != []
    requires Higher(FeeSum(fr, c), FeeSum(fr, before[|before| - 1]))
    ensures Grouped(fr, before[..|before| - 1]) && InRange(fr, before[|before| - 1] + c)
    ensures Absorb(fr, before, c) == Absorb(fr, before[..|before| - 1], before[|before| - 1] + c)
    ensures FeeSum(fr, before[|before| - 1] + c) == Plus(FeeSum(fr, c), FeeSum(fr, before[|before| - 1]))
  {
    FeeSumConcat(fr, before[|before| - 1], c);
  }

  /** As long as the new chunk has a higher feerate than the last chunk so far, absorb it. */
  method AbsorbFeeRate(fr: seq<FeeFrac>, ret0: seq<FeeFrac>, new0: FeeFrac, ghost before0: seq<seq<nat>>,
                       ghost c0: seq<nat>)
    returns (ret: seq<FeeFrac>)
    requires Grouped(fr, before0) && c0 != [] && InRange(fr, c0) && ret0 == FeeSums(fr, before0)
             && new0 == FeeSum(fr, c0)
    ensures Grouped(fr, Absorb(fr, before0, c0)) && ret == FeeSums(fr, Absorb(fr, before0, c0))
  {
    var newChunk := new0;
    ret := ret0;
    ghost var before, c := before0, c0;
    while ret != [] && Higher(newChunk, ret[|ret| - 1])
      invariant Grouped(fr, before) && c != [] && InRange(fr, c) && Absorb(fr, before, c) == Absorb(fr, before0, c0)
      invariant ret == FeeSums(fr, before) && newChunk == FeeSum(fr, c)
      decreases |ret|
    {
      AbsorbOne(fr, before, c);
      newChunk := Plus(newChunk, ret[|ret| - 1]);
      c, before := before[|before| - 1] + c, before[..|before| - 1];
      ret := ret[..|ret| - 1];
    }
    ret := ret + [newChunk];
  }

  /** Compute the feerates of the chunks of a linearization. */
  method ChunkLinearization(fr: seq<FeeFrac>, l: seq<nat>) returns (ret: seq<FeeFrac>)
    requires InRange(fr, l)
    ensures ret == ChunkFeeRates(fr, l)
  {
    ret := [];
    for i := 0 to |l|
      invariant InRange(fr, l[..i]) && ret == FeeSums(fr, Chunks(fr, l[..i]))
    {
      ChunksNext(fr, l, i);
      ret := AbsorbFeeRate(fr, ret, fr[l[i]], Chunks(fr, l[..i]), [l[i]]);
    }
    assert l[..|l|] == l;
  }

  lemma ChunksNext(fr: seq<FeeFrac>, l: seq<nat>, i: nat)
    requires InRange(fr, l) && i < |l|
    ensures InRange(fr, l[..i]) && InRange(fr, l[..i + 1])
    ensures Chunks(fr, l[..i + 1]) == Absorb(fr, Chunks(fr, l[..i]), [l[i]]) && FeeSum(fr, [l[i]]) == fr[l[i]]
  {
    assert l[..i + 1][..i] == l[..i] && l[..i + 1][i] == l[i];
    assert [l[i]][..0] == [];
  }

  ghost predicate InfosOf(fr: seq<FeeFrac>, chunks: seq<seq<nat>>, infos: seq<SetInfo>) {
    && Grouped(fr, chunks) && |infos| == |chunks|
    && forall i :: 0 <= i < |infos| ==> infos[i] == SetInfo(Elems(chunks[i]), FeeSum(fr, chunks[i]))
  }

  /** The same, for chunks as sets with their feerates. */
  method AbsorbInfo(fr: seq<FeeFrac>, ret0: seq<SetInfo>, new0: SetInfo, ghost before0: seq<seq<nat>>,
                    ghost c0: seq<nat>)
    returns (ret: seq<SetInfo>)
    requires InfosOf(fr, before0, ret0) && c0 != [] && InRange(fr, c0) && new0 == SetInfo(Elems(c0), FeeSum(fr, c0))
    ensures InfosOf(fr, Absorb(fr, before0, c0), ret)
  {
    var newChunk := new0;
    ret := ret0;
    ghost var before, c := before0, c0;
    while ret != [] && Higher(newChunk.feerate, ret[|ret| - 1].feerate)
      invariant InfosOf(fr, before, ret) && c != [] && InRange(fr, c)
                && Absorb(fr, before, c) == Absorb(fr, before0, c0)
      invariant newChunk == SetInfo(Elems(c), FeeSum(fr, c))
      decreases |ret|
    {
      AbsorbOne(fr, before, c);
      ghost var last := before[|before| - 1];
      assert Elems(last + c) == Elems(c) + Elems(last);
      newChunk := Join(newChunk, ret[|ret| - 1]);
      c, before := last + c, before[..|before| - 1];
      ret := ret[..|ret| - 1];
    }
    ret := ret + [newChunk];
  }

  /** Compute the chunks of a linearization as sets with their feerates. */
  method ChunkLinearizationInfo(fr: seq<FeeFrac>, l: seq<nat>) returns (ret: seq<SetInfo>)
    requires InRange(fr, l)
    ensures InfosOf(fr, Chunks(fr, l), ret)
    ensures |ret| == |ChunkFeeRates(fr, l)| && forall i :: 0 <= i < |ret| ==> ret[i].feerate == ChunkFeeRates(fr, l)[i]
  {
    ret := [];
    for i := 0 to |l|
      invariant InRange(fr, l[..i]) && InfosOf(fr, Chunks(fr, l[..i]), ret)
    {
      ChunksNext(fr, l, i);
      assert Elems([l[i]]) == {l[i]};
      ret := AbsorbInfo(fr, ret, SetInfo({l[i]}, fr[l[i]]), Chunks(fr, l[..i]), [l[i]]);
    }
    assert l[..|l|] == l;
  }
}
