/** What RFC 1951 says in words about the numbers that the inflater and the format share: the tables of section
    3.2.5, the order of section 3.2.7, the canonical codes of section 3.2.2; and the header of RFC 1950. */
module Rfc1951 {
  import opened Bits
  import opened Canonical
  import opened Deflate
  import opened Adler
  import opened DeflateFormat
  import opened Decompressor

  // ---- the order of the code lengths ----

  /** The repeat codes come first, then 0, then 8 and its neighbours outwards: 7, 9, 6, 10 and so on. */
  lemma ZigzagIs(i: nat)
    requires i < 19
    ensures Zigzag(i) == if i < 3 then 16 + i else if i == 3 then 0 else if i % 2 == 0 then 8 + (i - 4) / 2 else 8 - (i - 3) / 2
  {
  }

  /** No symbol is left out. */
  lemma ZigzagCovers(s: nat) returns (i: nat)
    requires s < 19
    ensures i < 19 && Zigzag(i) == s
  {
    i := if s >= 16 then s - 16 else if s == 0 then 3 else if s >= 8 then 4 + 2 * (s - 8) else 3 + 2 * (8 - s);
    ZigzagIs(i);
  }

  // ---- lengths and distances ----

  lemma DistanceBits(s: nat)
    requires s < 30
    ensures DistExtraBits(s) == if s < 4 then 0 else s / 2 - 1
  {
  }

  lemma SmallPowers()
    ensures Pow2(0) == 1 && Pow2(1) == 2 && Pow2(2) == 4 && Pow2(3) == 8 && Pow2(4) == 16 && Pow2(5) == 32 && Pow2(6) == 64
    ensures Pow2(7) == 128 && Pow2(8) == 256 && Pow2(9) == 512 && Pow2(10) == 1024 && Pow2(11) == 2048
    ensures Pow2(12) == 4096 && Pow2(13) == 8192
  {
  }

  lemma DistanceStep(s: nat)
    requires s < 29
    ensures DistBase(s + 1) == DistBase(s) + Pow2(if s < 4 then 0 else s / 2 - 1)
  {
    SmallPowers();
    hide Pow2;
  }

  /** The distance symbols tile the distances from 1 to 32768; each pair of symbols has one bit more. */
  lemma DistanceTiles(s: nat)
    requires s < 30
    ensures DistExtraBits(s) == if s < 4 then 0 else s / 2 - 1
    ensures DistBase(0) == 1
    ensures s < 29 ==> DistBase(s + 1) == DistBase(s) + Pow2(DistExtraBits(s))
    ensures s == 29 ==> DistBase(s) + Pow2(DistExtraBits(s)) == 32769
  {
    DistanceBits(s);
    SmallPowers();
    if s < 29 { DistanceStep(s); }
    hide Pow2;
  }

  lemma LengthBits(s: nat)
    requires 257 <= s < 285
    ensures LengthExtraBits(s) == if s < 265 then 0 else (s - 261) / 4
  {
  }

  lemma LengthStep(s: nat)
    requires 257 <= s < 284
    ensures LengthBase(s + 1) == LengthBase(s) + Pow2(if s < 265 then 0 else (s - 261) / 4)
  {
    SmallPowers();
    hide Pow2;
  }

  /** So do the length symbols from 3 on, four to each number of bits; 258 has a symbol of its own. */
  lemma LengthTiles(s: nat)
    requires 257 <= s < 285
    ensures LengthExtraBits(s) == if s < 265 then 0 else (s - 261) / 4
    ensures LengthBase(257) == 3
    ensures s < 284 ==> LengthBase(s + 1) == LengthBase(s) + Pow2(LengthExtraBits(s))
    ensures s == 284 ==> LengthBase(s) + Pow2(LengthExtraBits(s)) == 259
    ensures LengthBase(285) == 258 && LengthExtraBits(285) == 0
  {
    LengthBits(s);
    SmallPowers();
    if s < 284 { LengthStep(s); }
    hide Pow2;
  }

  lemma {:induction false} DistanceSymbol(d: nat, s: nat) returns (sym: nat, extra: nat)
    requires s < 30 && DistBase(s) <= d <= 32768
    ensures sym < 30 && extra < Pow2(DistExtraBits(sym)) && DistBase(sym) + extra == d
    decreases 30 - s
  {
    hide Pow2, DistBase, DistExtraBits;
    DistanceTiles(s);
    if d < DistBase(s) + Pow2(DistExtraBits(s)) {
      sym, extra := s, d - DistBase(s);
    } else {
      sym, extra := DistanceSymbol(d, s + 1);
    }
  }

  lemma {:induction false} LengthSymbol(n: nat, s: nat) returns (sym: nat, extra: nat)
    requires 257 <= s < 285 && LengthBase(s) <= n <= 258
    ensures 257 <= sym < 286 && extra < Pow2(LengthExtraBits(sym)) && LengthBase(sym) + extra == n
    decreases 285 - s
  {
    hide Pow2, LengthBase, LengthExtraBits;
    LengthTiles(s);
    if n < LengthBase(s) + Pow2(LengthExtraBits(s)) {
      sym, extra := s, n - LengthBase(s);
    } else {
      sym, extra := LengthSymbol(n, s + 1);
    }
  }

  /** The fixed code lengths. */
  lemma FixedLengths(s: nat)
    ensures |FIXED_LIT| == 288 && |FIXED_DIST| == 32
    ensures s < 288 ==> FIXED_LIT[s] == if s < 144 then 8 else if s < 256 then 9 else if s < 280 then 7 else 8
    ensures s < 32 ==> FIXED_DIST[s] == 5
  {
  }

  /** Every match the format allows can be written: a length from 3 to 258, a distance from 1 to 32768 that
      reaches no further back than the bytes there are, and, in a ring, no further than its size. */
  lemma MatchHasToken(m: Mode, len: nat, dist: nat, have: nat) returns (t: Token)
    requires 3 <= len <= 258 && 1 <= dist <= 32768 && dist <= have && (m.wrap ==> dist <= m.size)
    ensures TokenOk(m, Fixed, t, have) && t.Match? && TokenLen(t) == len && TokenDist(t) == dist
  {
    LengthTiles(257);
    DistanceTiles(0);
    hide Pow2, LengthBase, LengthExtraBits, DistBase, DistExtraBits;
    var ls, lx := LengthSymbol(len, 257);
    var ds, dx := DistanceSymbol(dist, 0);
    FixedLengths(ls);
    FixedLengths(ds);
    t := Match(ls, lx, ds, dx);
  }

  // ---- runs of code lengths ----

  /** Symbol 16 repeats the previous length 3 to 6 times, 17 stands for 3 to 10 zeros, 18 for 11 to 138. */
  lemma RunIs(got: seq<nat>, sym: nat, v: nat)
    requires 16 <= sym <= 18 && (sym == 16 ==> got != []) && v < Pow2(RepeatBits(sym))
    ensures var r := RunOf(got, sym, v);
            && (sym == 16 ==> 3 <= |r| == 3 + v <= 6 && forall i :: 0 <= i < |r| ==> r[i] == got[|got| - 1])
            && (sym == 17 ==> 3 <= |r| == 3 + v <= 10 && forall i :: 0 <= i < |r| ==> r[i] == 0)
            && (sym == 18 ==> 11 <= |r| == 11 + v <= 138 && forall i :: 0 <= i < |r| ==> r[i] == 0)
    ensures RepeatBits(16) == 2 && RepeatBits(17) == 3 && RepeatBits(18) == 7
  {
    Pow2Values();
    hide Pow2;
  }

  // ---- canonical codes ----

  lemma {:induction false} NoneOfLength(lens: seq<nat>, l: nat)
    requires forall u {:trigger lens[u]} :: 0 <= u < |lens| ==> lens[u] != l
    ensures Count(lens, l) == 0
  {
    if lens != [] { NoneOfLength(lens[..|lens| - 1], l); }
  }

  lemma {:induction false} NoneBetween(lens: seq<nat>, s: nat, t: nat, l: nat)
    requires s <= t <= |lens| && forall u {:trigger lens[u]} :: s <= u < t ==> lens[u] != l
    ensures Count(lens[..t], l) == Count(lens[..s], l)
    decreases t
  {
    if s < t {
      assert lens[..t][..t - 1] == lens[..t - 1];
      NoneBetween(lens, s, t - 1, l);
    }
  }

  /** Codes of one length are consecutive in the order of their symbols. */
  lemma CodesCountUp(lens: seq<nat>, s: nat, t: nat)
    requires s < t < |lens| && lens[s] == lens[t] && forall u {:trigger lens[u]} :: s < u < t ==> lens[u] != lens[s]
    ensures CodeValue(lens, t) == CodeValue(lens, s) + 1
  {
    var l := lens[s];
    NoneBetween(lens, s + 1, t, l);
    assert lens[..s + 1][..s] == lens[..s];
  }

  /** The first code of a length follows the last one of the next shorter length in use, filled up with zeros. */
  lemma CodesContinue(lens: seq<nat>, s: nat, t: nat)
    requires s < |lens| && t < |lens| && 0 < lens[s] < lens[t]
    requires forall u {:trigger lens[u]} :: 0 <= u < |lens| ==> !(lens[s] < lens[u] < lens[t])
    requires forall u {:trigger lens[u]} :: s < u < |lens| ==> lens[u] != lens[s]
    requires forall u {:trigger lens[u]} :: 0 <= u < t ==> lens[u] != lens[t]
    ensures CodeValue(lens, t) == (CodeValue(lens, s) + 1) * Pow2(lens[t] - lens[s])
  {
    hide Pow2;
    var l, m := lens[s], lens[t];
    NoneBetween(lens, s + 1, |lens|, l);
    NoneBetween(lens, 0, t, m);
    assert lens[..|lens|] == lens && lens[..0] == [] && lens[..s + 1][..s] == lens[..s];
    forall i | l + 1 <= i < l + 1 + (m - l - 1)
      ensures Count(lens, i) == 0
    {
      NoneOfLength(lens, i);
    }
    NextCodeTail(lens, l + 1, m - l - 1);
    var e := NextCode(lens, l) + Count(lens, l);
    assert NextCode(lens, l + 1) == 2 * e;
    HalveAndDouble(e, m - l);
  }

  /** The first code of the shortest length in use is all zeros. */
  lemma CodesStart(lens: seq<nat>, t: nat)
    requires t < |lens| && lens[t] > 0 && forall u {:trigger lens[u]} :: 0 <= u < |lens| ==> lens[u] == 0 || lens[u] >= lens[t]
    requires forall u {:trigger lens[u]} :: 0 <= u < t ==> lens[u] != lens[t]
    ensures CodeValue(lens, t) == 0
  {
    var m := lens[t];
    NoneBetween(lens, 0, t, m);
    assert lens[..0] == [];
    forall i | 1 <= i < 1 + (m - 1)
      ensures Count(lens, i) == 0
    {
      NoneOfLength(lens, i);
    }
    NextCodeTail(lens, 1, m - 1);
    assert 0 * Pow2(m - 1) == 0;
  }

  // ---- headers and checks ----

  /** A zlib header is accepted exactly when its check is right, it names no dictionary and method 8, and, for a
      ring, its window fits; the 32 KB ring takes every window the format has. */
  lemma HeaderIs(m: Mode, cmf: Byte, flg: Byte)
    ensures !m.wrap ==>
      (!ZlibHeaderBad(m, cmf, flg) <==> (256 * cmf + flg) % 31 == 0 && flg % 64 < 32 && cmf % 16 == 8)
    ensures m.wrap && m.size >= 32768 ==>
      (!ZlibHeaderBad(m, cmf, flg) <==> (256 * cmf + flg) % 31 == 0 && flg % 64 < 32 && cmf % 16 == 8 && cmf / 16 <= 7)
    ensures m.wrap && !ZlibHeaderBad(m, cmf, flg) ==> 256 <= Pow2(8 + cmf / 16) <= m.size
  {
    Pow2Values();
    assert Pow2(15) == 32768;
    Pow2Mono(8, 8 + cmf / 16);
    if cmf / 16 <= 7 { Pow2Mono(8 + cmf / 16, 15); } else { Pow2Mono(16, 8 + cmf / 16); }
    hide Pow2;
  }

  /** The callback's ring takes every window. */
  lemma DictionaryTakesAll(cmf: Byte, flg: Byte)
    requires cmf / 16 <= 7 && !ZlibHeaderBad(Mode(true, false, 0), cmf, flg)
    ensures !ZlibHeaderBad(Mode(true, true, LZ_DICT_SIZE), cmf, flg) && LZ_DICT_SIZE == 32768
  {
    hide ZlibHeaderBad;
    HeaderIs(Mode(true, false, 0), cmf, flg);
    HeaderIs(Mode(true, true, LZ_DICT_SIZE), cmf, flg);
  }

  /** A stored block is refused exactly when its two length words, low bytes first, are not complements. */
  lemma StoredHeadIs(final: bool, a: Byte, b: Byte, c: Byte, d: Byte)
    ensures var r := AfterStoredHead(final, [a, b, c, d]);
            if (a + 256 * b) + (c + 256 * d) != 65535 then r.Failed?
            else if a + 256 * b > 0 then r == Stored(final, a + 256 * b)
            else if final then r.TrailAlign? else r.BlockHead?
  {
  }

  /** The next byte boundary. */
  lemma RoundUpIs(pos: nat)
    ensures RoundUp(pos) % 8 == 0 && pos <= RoundUp(pos) < pos + 8
  {
  }

  /** A ring's size is accepted exactly when it is a power of two. */
  lemma {:induction false} IsPow2Iff(n: nat)
    ensures IsPow2(n) <==> exists k: nat :: n == Pow2(k)
  {
    if n > 1 {
      if n % 2 == 0 {
        IsPow2Iff(n / 2);
        if IsPow2(n) {
          var k: nat :| n / 2 == Pow2(k);
          assert n == Pow2(k + 1);
        }
      }
      if k: nat :| n == Pow2(k) {
        assert n == 2 * Pow2(k - 1);
        assert n / 2 == Pow2(k - 1);
      }
    } else if n == 1 {
      assert n == Pow2(0);
    } else {
      forall k: nat
        ensures n != Pow2(k)
      {
      }
    }
  }

  // ---- the checksum ----

  function Total(data: seq<Byte>): nat {
    if data == [] then 0 else Total(data[..|data| - 1]) + data[|data| - 1]
  }

  /** Every byte counts once for each position from its own to the end. */
  function Weighted(data: seq<Byte>): nat {
    if data == [] then 0 else Weighted(data[..|data| - 1]) + Total(data)
  }

  lemma TwoSums(a: nat, b: nat, x: nat)
    ensures (a % 65521 + x) % 65521 == (a + x) % 65521
    ensures (b % 65521 + (a + x) % 65521) % 65521 == (b + (a + x)) % 65521
  {
    ModAdd(a, x);
    ModAdd(b, (a + x) % 65521);
    ModAdd(a + x, b);
  }

  lemma FoldStep(p: seq<Byte>, x: Byte, a: nat, b: nat)
    requires Fold(START, p) == Sums(a % 65521, b % 65521)
    ensures Fold(START, p + [x]) == Sums((a + x) % 65521, (b + (a + x)) % 65521)
  {
    assert (p + [x])[..|p|] == p;
    TwoSums(a, b, x);
  }

  /** The Adler-32 checksum as RFC 1950 words it: sums modulo 65521, the second in the upper half. */
  lemma {:induction false} AdlerIs(data: seq<Byte>)
    ensures var a, b := (1 + Total(data)) % 65521, (|data| + Weighted(data)) % 65521;
            Fold(START, data) == Sums(a, b) && Pack(Fold(START, data)) == b * 65536 + a
  {
    if data != [] {
      var p, x := data[..|data| - 1], data[|data| - 1];
      AdlerIs(p);
      assert p + [x] == data;
      hide Fold;
      FoldStep(p, x, 1 + Total(p), |p| + Weighted(p));
    }
  }
}
