/** The canonical Huffman code of a list of code lengths (RFC 1951, section 3.2.2), and the
    facts about it that hold whatever tables a decoder builds from it. */
module Canonical {
  import opened Bits

  /** Length 0 means the symbol is not used. */
  ghost predicate ValidLengths(lens: seq<nat>) {
    forall s :: 0 <= s < |lens| ==> lens[s] <= 15
  }

  /** How many of the given lengths equal `l`. */
  function Count(lens: seq<nat>, l: nat): (c: nat)
    ensures c <= |lens|
  {
    if lens == [] then 0
    else Count(lens[..|lens| - 1], l) + if lens[|lens| - 1] == l then 1 else 0
  }

  /** The first code of each length. */
  function NextCode(lens: seq<nat>, l: nat): nat {
    if l <= 1 then 0 else 2 * (NextCode(lens, l - 1) + Count(lens, l - 1))
  }

  function CodeValue(lens: seq<nat>, s: nat): nat
    requires s < |lens|
  {
    NextCode(lens, lens[s]) + Count(lens[..s], lens[s])
  }

  /** The code of a symbol, in stream order (most significant bit of the code first). */
  function Code(lens: seq<nat>, s: nat): (c: seq<bool>)
    requires s < |lens|
    ensures |c| == lens[s]
  {
    ToMsb(CodeValue(lens, s), lens[s])
  }

  /** The code space is not oversubscribed. */
  ghost predicate Kraft(lens: seq<nat>) {
    ValidLengths(lens) && NextCode(lens, 16) <= 65536
  }

  /** The code space is exactly used up. */
  ghost predicate Complete(lens: seq<nat>) {
    ValidLengths(lens) && NextCode(lens, 16) == 65536
  }

  /** The code of symbol `s` begins the bit string `w`. */
  predicate Begins(lens: seq<nat>, s: nat, w: seq<bool>) {
    s < |lens| && lens[s] > 0 && Code(lens, s) <= w
  }

  // ---- counting ----

  lemma {:induction false} CountPrefix(lens: seq<nat>, i: nat, j: nat, l: nat)
    requires i <= j <= |lens|
    ensures Count(lens[..i], l) <= Count(lens[..j], l)
    ensures i < j && lens[i] == l ==> Count(lens[..i], l) < Count(lens[..j], l)
    decreases j
  {
    if i < j {
      assert lens[..j][..j - 1] == lens[..j - 1];
      if i < j - 1 { CountPrefix(lens, i, j - 1, l); }
    }
  }

  lemma CountBelow(lens: seq<nat>, s: nat)
    requires s < |lens|
    ensures Count(lens[..s], lens[s]) < Count(lens, lens[s])
  {
    CountPrefix(lens, s, |lens|, lens[s]);
    assert lens[..|lens|] == lens;
  }

  /** Every rank below the count belongs to a symbol. */
  lemma {:induction false} SymbolWithRank(lens: seq<nat>, l: nat, r: nat) returns (s: nat)
    requires r < Count(lens, l)
    ensures s < |lens| && lens[s] == l && Count(lens[..s], l) == r
  {
    var n := |lens| - 1;
    if lens[n] == l && Count(lens[..n], l) == r {
      s := n;
    } else {
      s := SymbolWithRank(lens[..n], l, r);
      assert lens[..n][..s] == lens[..s];
    }
  }

  // ---- growth of the code space ----

  /** Scaled to a longer length, the codes of one length end where the longer ones start. */
  lemma {:induction false} NextCodeGrows(lens: seq<nat>, l: nat, m: nat)
    requires 1 <= l < m
    ensures (NextCode(lens, l) + Count(lens, l)) * Pow2(m - l) <= NextCode(lens, m)
    decreases m
  {
    var e := NextCode(lens, l) + Count(lens, l);
    if m == l + 1 {
      Pow2Values();
    } else {
      NextCodeGrows(lens, l, m - 1);
      MulTwice(Pow2(m - 1 - l), e);
    }
  }

  lemma CodeFits(lens: seq<nat>, l: nat)
    requires Kraft(lens) && 1 <= l <= 15
    ensures NextCode(lens, l) + Count(lens, l) <= Pow2(l)
  {
    var e, p := NextCode(lens, l) + Count(lens, l), Pow2(16 - l);
    assert e * p <= 65536 by { NextCodeGrows(lens, l, 16); }
    assert Pow2(l) * p == 65536 by {
      Pow2Add(l, 16 - l);
      Pow2Values();
    }
    MulCancel(e, Pow2(l), p);
  }

  lemma CodeValueFits(lens: seq<nat>, s: nat)
    requires Kraft(lens) && s < |lens| && lens[s] > 0
    ensures CodeValue(lens, s) < NextCode(lens, lens[s]) + Count(lens, lens[s]) <= Pow2(lens[s])
    ensures FromMsb(Code(lens, s)) == CodeValue(lens, s)
  {
    CountBelow(lens, s);
    CodeFits(lens, lens[s]);
    FromToMsb(CodeValue(lens, s), lens[s]);
  }

  // ---- prefix freedom ----

  lemma ShorterIsLess(lens: seq<nat>, s: nat, t: nat)
    requires Kraft(lens) && s < |lens| && t < |lens| && 0 < lens[s] < lens[t]
    ensures (CodeValue(lens, s) + 1) * Pow2(lens[t] - lens[s]) <= CodeValue(lens, t)
  {
    CodeValueFits(lens, s);
    NextCodeGrows(lens, lens[s], lens[t]);
    var p := Pow2(lens[t] - lens[s]);
    MulMono(CodeValue(lens, s) + 1, NextCode(lens, lens[s]) + Count(lens, lens[s]), p);
  }

  /** No code begins another one. */
  lemma PrefixFree(lens: seq<nat>, s: nat, t: nat)
    requires Kraft(lens) && s < |lens| && t < |lens| && 0 < lens[s] && 0 < lens[t]
    requires Code(lens, s) <= Code(lens, t)
    ensures s == t
  {
    CodeValueFits(lens, s);
    CodeValueFits(lens, t);
    var cs, ct := Code(lens, s), Code(lens, t);
    if lens[s] == lens[t] {
      assert cs == ct;
      if s < t {
        CountPrefix(lens, s, t, lens[s]);
        assert false;
      } else if t < s {
        CountPrefix(lens, t, s, lens[s]);
        assert false;
      }
    } else {
      ShorterIsLess(lens, s, t);
      PrefixIsInterval(cs, ct);
      QuotientAbove(CodeValue(lens, s), CodeValue(lens, t), Pow2(lens[t] - lens[s]));
    }
  }

  /** At most one symbol's code begins a given bit string. */
  lemma BeginsUnique(lens: seq<nat>, s: nat, t: nat, w: seq<bool>)
    requires Kraft(lens) && Begins(lens, s, w) && Begins(lens, t, w)
    ensures s == t
  {
    var cs, ct := Code(lens, s), Code(lens, t);
    if |cs| <= |ct| {
      assert cs == w[..|cs|] == ct[..|cs|];
      PrefixFree(lens, s, t);
    } else {
      assert ct == w[..|ct|] == cs[..|ct|];
      PrefixFree(lens, t, s);
    }
  }

  // ---- completeness ----

  lemma HalveAndDouble(e: nat, n: nat)
    requires n > 0
    ensures e * Pow2(n) == (2 * e) * Pow2(n - 1)
  {
    MulTwice(Pow2(n - 1), e);
    MulTwice(e, Pow2(n - 1));
  }

  /** The shortest length whose codes end beyond the value `v` of a 15-bit window. */
  lemma {:induction false} LengthOf(lens: seq<nat>, v: nat, l: nat) returns (k: nat)
    requires ValidLengths(lens) && 1 <= l <= 15
    requires NextCode(lens, l) * Pow2(15 - l) <= v
    requires v < (NextCode(lens, 15) + Count(lens, 15)) * Pow2(0)
    ensures l <= k <= 15
    ensures NextCode(lens, k) * Pow2(15 - k) <= v < (NextCode(lens, k) + Count(lens, k)) * Pow2(15 - k)
    decreases 15 - l
  {
    var e := NextCode(lens, l) + Count(lens, l);
    if v < e * Pow2(15 - l) {
      k := l;
    } else {
      HalveAndDouble(e, 15 - l);
      k := LengthOf(lens, v, l + 1);
    }
  }

  lemma QuotientBetween(v: nat, a: nat, b: nat, p: nat)
    requires p > 0 && a * p <= v < b * p
    ensures a <= v / p < b
  {
    DivBounds(v, p);
    if v / p < a { MulMono(v / p + 1, a, p); }
    if b <= v / p { MulMono(b, v / p, p); }
  }

  /** With a complete set of lengths, every 15-bit window begins with some symbol's code. */
  lemma CompleteDecodes(lens: seq<nat>, w: seq<bool>) returns (s: nat)
    requires Complete(lens) && |w| >= 15
    ensures Begins(lens, s, w)
  {
    var h := w[..15];
    var v := FromMsb(h);
    FromMsbBound(h);
    Pow2Values();
    var l := LengthOf(lens, v, 1);
    var p := Pow2(15 - l);
    QuotientBetween(v, NextCode(lens, l), NextCode(lens, l) + Count(lens, l), p);
    s := SymbolWithRank(lens, l, v / p - NextCode(lens, l));
    assert CodeValue(lens, s) == v / p;
    CodeValueFits(lens, s);
    PrefixIsInterval(Code(lens, s), h);
    assert Code(lens, s) <= h <= w;
  }

  // ---- how many symbols are used ----

  /** Number of symbols whose length is between 1 and `l`. */
  function Used(lens: seq<nat>, l: nat): nat {
    if l == 0 then 0 else Used(lens, l - 1) + Count(lens, l)
  }

  /** At most one symbol is used. */
  ghost predicate Single(lens: seq<nat>) {
    forall s, t :: 0 <= s < |lens| && 0 <= t < |lens| && lens[s] > 0 && lens[t] > 0 ==> s == t
  }

  lemma {:induction false} UsedAtLeast(lens: seq<nat>, m: nat, l: nat)
    requires 0 < m <= l
    ensures Used(lens, l) >= Count(lens, m)
    ensures forall k :: 0 < k < m ==> Used(lens, l) >= Count(lens, k) + Count(lens, m)
    decreases l
  {
    if l == m {
      forall k | 0 < k < m
        ensures Used(lens, l) >= Count(lens, k) + Count(lens, m)
      {
        UsedAtLeast(lens, k, l - 1);
      }
    } else {
      UsedAtLeast(lens, m, l - 1);
    }
  }

  lemma UsedPair(lens: seq<nat>, s: nat, t: nat)
    requires ValidLengths(lens) && s < t < |lens| && lens[s] > 0 && lens[t] > 0
    ensures Used(lens, 15) >= 2
  {
    CountBelow(lens, s);
    CountBelow(lens, t);
    if lens[s] == lens[t] {
      CountPrefix(lens, s, t, lens[s]);
      UsedAtLeast(lens, lens[s], 15);
    } else if lens[s] < lens[t] {
      UsedAtLeast(lens, lens[t], 15);
    } else {
      UsedAtLeast(lens, lens[s], 15);
    }
  }

  lemma {:induction false} UsedSymbol(lens: seq<nat>, l: nat) returns (s: nat)
    requires Used(lens, l) >= 1
    ensures s < |lens| && 0 < lens[s] <= l
  {
    if Count(lens, l) > 0 {
      s := SymbolWithRank(lens, l, 0);
    } else {
      s := UsedSymbol(lens, l - 1);
    }
  }

  lemma {:induction false} UsedTwo(lens: seq<nat>, l: nat) returns (s: nat, t: nat)
    requires Used(lens, l) >= 2
    ensures s < |lens| && t < |lens| && s != t && lens[s] > 0 && lens[t] > 0
  {
    if Count(lens, l) >= 2 {
      s := SymbolWithRank(lens, l, 0);
      t := SymbolWithRank(lens, l, 1);
    } else if Count(lens, l) == 1 {
      s := UsedSymbol(lens, l - 1);
      t := SymbolWithRank(lens, l, 0);
    } else {
      s, t := UsedTwo(lens, l - 1);
    }
  }

  lemma SingleIsUsed(lens: seq<nat>)
    requires ValidLengths(lens)
    ensures Single(lens) <==> Used(lens, 15) <= 1
  {
    if Used(lens, 15) >= 2 {
      var s, t := UsedTwo(lens, 15);
    } else {
      forall s, t | 0 <= s < |lens| && 0 <= t < |lens| && lens[s] > 0 && lens[t] > 0
        ensures s == t
      {
        if s < t { UsedPair(lens, s, t); }
        if t < s { UsedPair(lens, t, s); }
      }
    }
  }

  lemma DoubleSum(n: nat, c: nat, u: nat, p: nat)
    requires n <= u * p && p > 0
    ensures 2 * (n + c) <= (u + c) * (2 * p)
  {
    assert (u + c) * (2 * p) == 2 * (u * p) + 2 * (c * p);
    MulMono(1, p, c);
  }

  lemma {:induction false} NextCodeBelowUsed(lens: seq<nat>, l: nat)
    ensures NextCode(lens, l + 1) <= Used(lens, l) * Pow2(l)
  {
    if l > 0 {
      NextCodeBelowUsed(lens, l - 1);
      DoubleSum(NextCode(lens, l), Count(lens, l), Used(lens, l - 1), Pow2(l - 1));
    }
  }

  lemma SingleIsKraft(lens: seq<nat>)
    requires ValidLengths(lens) && Single(lens)
    ensures Kraft(lens)
  {
    SingleIsUsed(lens);
    NextCodeBelowUsed(lens, 15);
    MulMono(Used(lens, 15), 1, Pow2(15));
    Pow2Values();
  }
}
