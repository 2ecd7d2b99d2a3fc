/** Building and searching the Huffman tables of a Vorbis codebook.

    A codebook has `entries` code lengths.  A sparse one keeps only its coded entries, first in entry
    order and, once sorted, in codeword order; what the decoder finds in it is then a position in that
    order, which `sorted_values` maps to the entry. */
module Codebook {
  import opened Codewords
  import opened BitReversal

  const FAST_LENGTH: nat := 10
  const FAST_SIZE: nat := 1024
  const FAST_MAX: nat := 32767
  const SENTINEL: nat := 0xffff_ffff

  /** The coded entries before entry `i`, in order. */
  function CodedEntries(lens: seq<nat>, i: nat): (r: seq<nat>)
    requires i <= |lens|
    ensures |r| <= i
    ensures forall k {:trigger r[k]} :: 0 <= k < |r| ==> r[k] < i && Coded(lens, r[k])
  {
    if i == 0 then []
    else CodedEntries(lens, i - 1) + if Coded(lens, i - 1) then [i - 1] else []
  }

  /** The entries before entry `i` that go into the sorted table. */
  function Included(sparse: bool, lens: seq<nat>, i: nat): (r: seq<nat>)
    requires i <= |lens|
    ensures |r| <= i
    ensures forall k {:trigger r[k]} :: 0 <= k < |r| ==> r[k] < i && InSort(sparse, lens, r[k])
  {
    if i == 0 then []
    else Included(sparse, lens, i - 1) + if InSort(sparse, lens, i - 1) then [i - 1] else []
  }

  predicate InSort(sparse: bool, lens: seq<nat>, i: nat)
    requires i < |lens|
  {
    Coded(lens, i) && (sparse || lens[i] > FAST_LENGTH)
  }

  lemma {:induction false} SparseIncluded(lens: seq<nat>, i: nat)
    requires i <= |lens|
    ensures Included(true, lens, i) == CodedEntries(lens, i)
  {
    if i > 0 { SparseIncluded(lens, i - 1); }
  }

  lemma {:induction false} IncludedAll(sparse: bool, lens: seq<nat>, i: nat, e: nat) returns (k: nat)
    requires e < i <= |lens| && InSort(sparse, lens, e)
    ensures k < |Included(sparse, lens, i)| && Included(sparse, lens, i)[k] == e
  {
    if e == i - 1 {
      k := |Included(sparse, lens, i - 1)|;
    } else {
      k := IncludedAll(sparse, lens, i - 1, e);
    }
  }

  lemma {:induction false} IncludedMono(sparse: bool, lens: seq<nat>, i: nat, j: nat)
    requires i <= j <= |lens|
    ensures Included(sparse, lens, i) <= Included(sparse, lens, j)
  {
    if i < j { IncludedMono(sparse, lens, i, j - 1); }
  }

  lemma {:induction false} CodedMono(lens: seq<nat>, i: nat, j: nat)
    requires i <= j <= |lens|
    ensures CodedEntries(lens, i) <= CodedEntries(lens, j)
  {
    if i < j { CodedMono(lens, i, j - 1); }
  }

  // ---- computing the codewords ----

  /** Codeword `k` of the list kept by the codebook belongs to entry `e`. */
  predicate Kept(cw: nat, w: seq<nat>, e: nat) {
    e < |w| && cw == BitReverse(w[e])
  }

  /** What has been recorded for the first `i` entries. */
  ghost predicate Recorded(sparse: bool, lens: seq<nat>, w: seq<nat>, i: nat,
                           cws: seq<nat>, clens: seq<nat>, values: seq<nat>)
    requires i <= |lens|
  {
    if sparse then
      && |CodedEntries(lens, i)| <= |cws| && |CodedEntries(lens, i)| <= |clens| && |CodedEntries(lens, i)| <= |values|
      && forall k {:trigger CodedEntries(lens, i)[k]} :: 0 <= k < |CodedEntries(lens, i)| ==>
           var e := CodedEntries(lens, i)[k]; Kept(cws[k], w, e) && clens[k] == lens[e] && values[k] == e
    else
      && i <= |cws|
      && forall e {:trigger cws[e]} :: 0 <= e < i && Coded(lens, e) ==> Kept(cws[e], w, e)
  }

  /** The three arrays a codebook under construction writes its codewords to.  A dense codebook keeps
      its code lengths as they were read; a sparse one lists those of its coded entries. */
  class Draft {
    const codewords: array<nat>
    const lengths: array<nat>
    const values: array<nat>

    constructor (sparse: bool, lens: seq<nat>)
      ensures fresh(codewords) && fresh(lengths) && fresh(values)
      ensures codewords != lengths && codewords != values && lengths != values
      ensures Fits(sparse, lens) && (!sparse ==> lengths[..] == lens)
    {
      var n := if sparse then |CodedEntries(lens, |lens|)| else |lens|;
      codewords := new nat[n](_ => 0);
      lengths := new nat[n](i requires 0 <= i < n => if sparse then 0 else lens[i]);
      values := new nat[n](_ => 0);
    }

    ghost predicate Fits(sparse: bool, lens: seq<nat>) {
      && codewords != lengths && codewords != values && lengths != values
      && var n := if sparse then |CodedEntries(lens, |lens|)| else |lens|;
         codewords.Length == n && lengths.Length == n && values.Length == n
    }

    /** Records the codeword `word` of entry `symbol`, the `count`-th coded one. */
    method AddEntry(sparse: bool, word: nat, symbol: nat, count: nat, len: nat)
      requires symbol < codewords.Length || sparse
      requires sparse ==> count < codewords.Length && count < lengths.Length && count < values.Length
      requires codewords != lengths && codewords != values && lengths != values
      modifies codewords, lengths, values
      ensures sparse ==>
        && codewords[..] == old(codewords[..])[count := word]
        && lengths[..] == old(lengths[..])[count := len]
        && values[..] == old(values[..])[count := symbol]
      ensures !sparse ==>
        && codewords[..] == old(codewords[..])[symbol := word]
        && lengths[..] == old(lengths[..]) && values[..] == old(values[..])
    {
      if !sparse {
        codewords[symbol] := word;
      } else {
        codewords[count] := word;
        lengths[count] := len;
        values[count] := symbol;
      }
    }

    /** One coded entry: its record joins the others. */
    method Record(sparse: bool, lens: seq<nat>, ghost w: seq<nat>, v: nat, i: nat, count: nat)
      requires Fits(sparse, lens) && i < |lens| && Coded(lens, i) && |w| == i
      requires count == |CodedEntries(lens, i)|
      requires Recorded(sparse, lens, w, i, codewords[..], lengths[..], values[..])
      modifies codewords, lengths, values
      ensures Recorded(sparse, lens, w + [v], i + 1, codewords[..], lengths[..], values[..])
      ensures !sparse ==> lengths[..] == old(lengths[..])
    {
      hide BitReverse;
      CodedMono(lens, i + 1, |lens|);
      AddEntry(sparse, BitReverse(v), i, count, lens[i]);
      if sparse {
        RecordNextSparse(lens, w, v, i, old(codewords[..]), old(lengths[..]), old(values[..]));
      } else {
        RecordNextDense(lens, w, v, i, old(codewords[..]), old(lengths[..]), old(values[..]));
      }
    }

    /** Gives every coded entry its codeword, or reports that the code is oversubscribed. */
    method ComputeCodewords(sparse: bool, lens: seq<nat>) returns (ok: bool, ghost w: seq<nat>)
      requires LengthsOk(lens) && Fits(sparse, lens)
      modifies codewords, lengths, values
      ensures ok <==> KraftSum(lens) <= SPACE
      ensures ok ==> |w| == |lens| && Assignment(lens, w)
      ensures ok ==> Recorded(sparse, lens, w, |lens|, codewords[..], lengths[..], values[..])
      ensures !sparse ==> lengths[..] == old(lengths[..])
    {
      hide BitReverse, Inv, KraftSum, Recorded, Assignment;
      var n := |lens|;
      w := [];
      NothingRecorded(sparse, lens, codewords[..], lengths[..], values[..]);
      var k := 0;
      while k < n && lens[k] == NO_CODE
        invariant 0 <= k <= n && |w| == k && NoneCoded(lens, k)
        invariant Recorded(sparse, lens, w, k, codewords[..], lengths[..], values[..])
        invariant CodedEntries(lens, k) == [] && lengths[..] == old(lengths[..])
      {
        RecordSkip(sparse, lens, w, 0, codewords[..], lengths[..], values[..]);
        w := w + [0];
        k := k + 1;
      }
      if k == n {
        NoCodes(lens, w);
        return true, w;
      }
      First(lens, w);
      Record(sparse, lens, w, 0, k, 0);
      w := w + [0];
      var available := new nat[32](_ => 0);
      SetFirst(available, lens[k]);
      ok, w := Extend(sparse, lens, k + 1, 1, available, w);
    }

    /** The main loop, once a first codeword is out. */
    method Extend(sparse: bool, lens: seq<nat>, k: nat, count: nat, available: array<nat>, ghost w0: seq<nat>)
      returns (ok: bool, ghost w: seq<nat>)
      requires LengthsOk(lens) && Fits(sparse, lens) && k <= |lens| && |w0| == k && count == |CodedEntries(lens, k)|
      requires available != codewords && available != lengths && available != values
      requires available.Length == 32 && Inv(lens, w0, available[..])
      requires Recorded(sparse, lens, w0, k, codewords[..], lengths[..], values[..])
      modifies codewords, lengths, values, available
      ensures ok <==> KraftSum(lens) <= SPACE
      ensures ok ==> |w| == |lens| && Assignment(lens, w)
      ensures ok ==> Recorded(sparse, lens, w, |lens|, codewords[..], lengths[..], values[..])
      ensures !sparse ==> lengths[..] == old(lengths[..])
    {
      hide BitReverse, Inv, KraftSum, Recorded, Assignment;
      w := w0;
      var i, m := k, count;
      while i < |lens|
        invariant k <= i <= |lens| && |w| == i && m == |CodedEntries(lens, i)|
        invariant Inv(lens, w, available[..])
        invariant !sparse ==> lengths[..] == old(lengths[..])
        invariant Recorded(sparse, lens, w, i, codewords[..], lengths[..], values[..])
      {
        if lens[i] == NO_CODE {
          Skip(lens, w, available[..], 0);
          RecordSkip(sparse, lens, w, 0, codewords[..], lengths[..], values[..]);
          w := w + [0];
        } else {
          var res := TakeSubtree(available, lens, w, i);
          if res == 0 { return false, w; }
          Record(sparse, lens, w, res, i, m);
          w := w + [res];
          m := m + 1;
        }
        i := i + 1;
      }
      AllOut(lens, w, available[..]);
      return true, w;
    }
  }

  lemma NothingRecorded(sparse: bool, lens: seq<nat>, cws: seq<nat>, clens: seq<nat>, values: seq<nat>)
    ensures Recorded(sparse, lens, [], 0, cws, clens, values)
  {
  }

  lemma NoCodes(lens: seq<nat>, w: seq<nat>)
    requires LengthsOk(lens) && |w| == |lens| && NoneCoded(lens, |lens|)
    ensures Assignment(lens, w) && KraftSum(lens) == 0
  {
    NoneSum(lens, |lens|);
    assert lens[..|lens|] == lens;
  }

  lemma AllOut(lens: seq<nat>, w: seq<nat>, pool: Pool)
    requires Inv(lens, w, pool) && |w| == |lens|
    ensures Assignment(lens, w) && KraftSum(lens) <= SPACE
  {
    assert lens[..|lens|] == lens;
  }

  lemma RecordSkip(sparse: bool, lens: seq<nat>, w: seq<nat>, v: nat, cws: seq<nat>, clens: seq<nat>, values: seq<nat>)
    requires |w| < |lens| && !Coded(lens, |w|) && (sparse || |w| < |cws|)
    requires Recorded(sparse, lens, w, |w|, cws, clens, values)
    ensures Recorded(sparse, lens, w + [v], |w| + 1, cws, clens, values)
    ensures CodedEntries(lens, |w| + 1) == CodedEntries(lens, |w|)
  {
    hide BitReverse;
  }

  lemma RecordNextDense(lens: seq<nat>, w: seq<nat>, v: nat, i: nat, cws: seq<nat>, clens: seq<nat>, values: seq<nat>)
    requires i < |lens| && Coded(lens, i) && |w| == i < |cws|
    requires Recorded(false, lens, w, i, cws, clens, values)
    ensures Recorded(false, lens, w + [v], i + 1, cws[i := BitReverse(v)], clens, values)
  {
    hide BitReverse, CodedEntries;
    var cws' := cws[i := BitReverse(v)];
    forall e {:trigger cws'[e]} | 0 <= e < i + 1 && Coded(lens, e)
      ensures Kept(cws'[e], w + [v], e)
    {
      if e < i { assert Kept(cws[e], w, e); }
    }
  }

  lemma RecordNextSparse(lens: seq<nat>, w: seq<nat>, v: nat, i: nat, cws: seq<nat>, clens: seq<nat>, values: seq<nat>)
    requires i < |lens| && Coded(lens, i) && |w| == i
    requires Recorded(true, lens, w, i, cws, clens, values)
    requires |CodedEntries(lens, i)| < |cws| && |CodedEntries(lens, i)| < |clens| && |CodedEntries(lens, i)| < |values|
    ensures var m := |CodedEntries(lens, i)|;
            Recorded(true, lens, w + [v], i + 1, cws[m := BitReverse(v)], clens[m := lens[i]], values[m := i])
  {
    hide BitReverse;
    var es, m := CodedEntries(lens, i), |CodedEntries(lens, i)|;
    assert CodedEntries(lens, i + 1) == es + [i];
    hide CodedEntries;
    forall k {:trigger (es + [i])[k]} | 0 <= k < m + 1
      ensures var e := (es + [i])[k];
              Kept(cws[m := BitReverse(v)][k], w + [v], e) && clens[m := lens[i]][k] == lens[e] && values[m := i][k] == e
    {
      if k < m { assert es[k] < i && Kept(cws[k], w, es[k]); }
    }
  }

  /** Hands out the first codeword, 0, of length `len`. */
  method SetFirst(available: array<nat>, len: nat)
    requires available.Length == 32 && 1 <= len <= 31 && available[..] == Empty()
    modifies available
    ensures available[..] == FirstPool(len)
  {
    hide Unit;
    var i := 1;
    while i <= len
      invariant 1 <= i <= len + 1
      invariant forall y :: 0 <= y < 32 ==> available[y] == if 0 < y < i then Unit(y) else 0
    {
      available[i] := Unit(i);
      i := i + 1;
    }
  }

  /** Takes the deepest free subtree that holds a codeword of length `lens[i]`, and puts back what the
      codeword does not use; 0 when there is none. */
  method TakeSubtree(available: array<nat>, lens: seq<nat>, ghost w: seq<nat>, i: nat) returns (res: nat)
    requires available.Length == 32 && i < |lens| && |w| == i && Coded(lens, i) && Inv(lens, w, available[..])
    modifies available
    ensures res == 0 ==> KraftSum(lens) > SPACE && available[..] == old(available[..])
    ensures res != 0 ==> Inv(lens, w + [res], available[..])
  {
    hide Unit, KraftSum, FreeSum, Assignment, Tiled, PoolOk, Inv;
    ghost var pool := available[..];
    LengthInRange(lens, w, pool, i);
    var len := lens[i];
    var z := FindLevel(available, len);
    if z == 0 {
      Overflow(lens, w, pool);
      KraftMono(lens, i + 1);
      return 0;
    }
    res := available[z];
    Allot(lens, w, pool);
    SplitLevel(available, z, len);
  }

  lemma LengthInRange(lens: seq<nat>, w: seq<nat>, pool: Pool, i: nat)
    requires Inv(lens, w, pool) && i < |lens| && Coded(lens, i)
    ensures 1 <= lens[i] <= 31
  {
  }

  method FindLevel(available: array<nat>, len: nat) returns (z: nat)
    requires available.Length == 32 && 1 <= len <= 31
    ensures z == Deepest(available[..], len)
  {
    z := len;
    while z > 0 && available[z] == 0
      invariant z <= len && Deepest(available[..], len) == Deepest(available[..], z)
    {
      z := z - 1;
    }
  }

  /** Propagates availability up the tree. */
  method SplitLevel(available: array<nat>, z: nat, len: nat)
    requires available.Length == 32 && 1 <= z <= len <= 31 && z == Deepest(available[..], len)
    modifies available
    ensures available[..] == Split(old(available[..]), z, old(available[z]), len)
  {
    hide Unit, Deepest;
    var res := available[z];
    available[z] := 0;
    if z != len {
      var y := len;
      while y > z
        invariant z <= y <= len
        invariant forall k :: 0 <= k < 32 ==>
          available[k] == if k == z then 0 else if y < k <= len then res + Unit(k) else old(available[k])
      {
        assert available[y] == 0;
        available[y] := res + Unit(y);
        y := y - 1;
      }
    }
  }
}
