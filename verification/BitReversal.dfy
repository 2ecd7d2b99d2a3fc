/** The bit reversal of 32-bit words that both Huffman tables of the Vorbis decoder rest on. */
module BitReversal {
  import opened Bits
  import opened Codewords

  /** Bit `i` lies in the upper half of its pair of `k`-bit blocks; the mask 0xAAAAAAAA for `k` 1,
      0xCCCCCCCC for 2, 0xF0F0F0F0 for 4, 0xFF00FF00 for 8. */
  predicate Upper(i: nat, k: nat)
    requires k > 0
  {
    i / k % 2 == 1
  }

  /** ((n & mask) >> k) | ((n & ~mask) << k), on the bits of `n`. */
  function Swap(s: seq<bool>, k: nat): (r: seq<bool>)
    requires |s| == 32 && k > 0
    ensures |r| == 32
  {
    seq(32, i requires 0 <= i < 32 =>
      (i + k < 32 && Upper(i + k, k) && s[i + k]) || (i >= k && !Upper(i - k, k) && s[i - k]))
  }

  function Flip(i: nat, k: nat): (j: nat)
    requires k > 0
  {
    if Upper(i, k) then (if i >= k then i - k else 0) else i + k
  }

  /** The five block sizes of the swap network. */
  predicate Block(k: nat) { k == 1 || k == 2 || k == 4 || k == 8 || k == 16 }

  lemma ShiftQuotient(i: nat, k: nat)
    requires k > 0
    ensures (i + k) / k == i / k + 1
    ensures i >= k ==> (i - k) / k == i / k - 1
  {
    DivUnique(i + k, k, i / k + 1, i % k);
    if i >= k { DivUnique(i - k, k, i / k - 1, i % k); }
  }

  lemma FlipBlock(i: nat, k: nat)
    requires Block(k) && i < 32
    ensures Upper(i, k) ==> i >= k && !Upper(i - k, k)
    ensures !Upper(i, k) ==> i + k < 32 && Upper(i + k, k)
  {
    ShiftQuotient(i, k);
    FlipRoom(i, k);
  }

  lemma FlipRoom(i: nat, k: nat)
    requires Block(k) && i < 32
    ensures i / k % 2 == 1 ==> i >= k
    ensures i / k % 2 != 1 ==> i + k < 32
  {
  }

  lemma SwapAt(s: seq<bool>, k: nat, i: nat)
    requires |s| == 32 && i < 32 && Block(k)
    ensures Flip(i, k) < 32 && Swap(s, k)[i] == s[Flip(i, k)]
  {
    hide Upper;
    FlipBlock(i, k);
    if i + k < 32 { FlipBlock(i + k, k); }
    if i >= k { FlipBlock(i - k, k); }
  }

  /** From block size 16 down to `k`, the blocks of `i` have been turned around and their insides kept. */
  predicate Turned(i: nat, j: nat, k: nat)
    requires k > 0
  {
    i < 32 && j < 32 && i / k + j / k == 32 / k - 1 && i % k == j % k
  }

  /** A block of `2k` bits is two blocks of `k`. */
  lemma TwoBlocks(n: nat, k: nat)
    requires k > 0
    ensures n / k == 2 * (n / (2 * k)) + n / k % 2
    ensures n % (2 * k) == (if n / k % 2 == 1 then k else 0) + n % k
  {
    var q, d := n / k / 2, n / k % 2;
    assert n == k * (n / k) + n % k;
    assert k * (2 * q + d) == 2 * k * q + k * d;
    var r := k * d + n % k;
    assert d == 0 || d == 1;
    assert k * 0 == 0 && k * 1 == k;
    DivUnique(n, 2 * k, q, r);
  }

  lemma FlipShift(j: nat, k: nat)
    requires k > 0
    ensures Flip(j, k) % k == j % k
    ensures Flip(j, k) / k == if j / k % 2 == 1 then j / k - 1 else j / k + 1
  {
    if j / k % 2 == 1 {
      assert j >= k by { if j < k { DivUnique(j, k, 0, j); } }
      DivUnique(j - k, k, j / k - 1, j % k) by { assert k * (j / k - 1) == k * (j / k) - k; }
    } else {
      DivUnique(j + k, k, j / k + 1, j % k) by { assert k * (j / k + 1) == k * (j / k) + k; }
    }
  }

  lemma FlipHalves(i: nat, j: nat, k: nat)
    requires Block(k) && k < 16 && Turned(i, j, 2 * k)
    ensures Turned(i, Flip(j, k), k)
  {
    TwoBlocks(i, k);
    TwoBlocks(j, k);
    FlipShift(j, k);
    SameHalf(i % k, j % k, k, i / k % 2, j / k % 2);
    BlockCount(k);
    FlipRoom(j, k);
  }

  lemma SameHalf(a: nat, b: nat, k: nat, d: nat, e: nat)
    requires a < k && b < k && d < 2 && e < 2
    requires (if d == 1 then k else 0) + a == (if e == 1 then k else 0) + b
    ensures a == b && d == e
  {
  }

  lemma BlockCount(k: nat)
    requires Block(k) && k < 16
    ensures 32 / k == 2 * (32 / (2 * k))
  {
  }

  lemma FlipWhole(i: nat)
    requires i < 32
    ensures Turned(i, Flip(i, 16), 16)
  {
  }

  lemma FlipAll(i: nat)
    requires i < 32
    ensures Flip(Flip(Flip(Flip(Flip(i, 16), 8), 4), 2), 1) == 31 - i
  {
    hide Flip;
    FlipWhole(i);
    FlipHalves(i, Flip(i, 16), 8);
    FlipHalves(i, Flip(Flip(i, 16), 8), 4);
    FlipHalves(i, Flip(Flip(Flip(i, 16), 8), 4), 2);
    FlipHalves(i, Flip(Flip(Flip(Flip(i, 16), 8), 4), 2), 1);
  }

  function Network(s: seq<bool>): (r: seq<bool>)
    requires |s| == 32
    ensures |r| == 32
  {
    Swap(Swap(Swap(Swap(Swap(s, 1), 2), 4), 8), 16)
  }

  function BitReverse(n: nat): nat {
    FromBits(Network(ToBits(n, 32)))
  }

  lemma NetworkAt(s: seq<bool>, i: nat)
    requires |s| == 32 && i < 32
    ensures Network(s)[i] == s[31 - i]
  {
    hide Swap, Flip;
    var a := Swap(s, 1);
    var b := Swap(a, 2);
    var c := Swap(b, 4);
    var d := Swap(c, 8);
    FlipAll(i);
    SwapAt(d, 16, i);
    var i' := Flip(i, 16);
    SwapAt(c, 8, i');
    i' := Flip(i', 8);
    SwapAt(b, 4, i');
    i' := Flip(i', 4);
    SwapAt(a, 2, i');
    SwapAt(s, 1, Flip(i', 2));
  }

  lemma NetworkReverses(s: seq<bool>)
    requires |s| == 32
    ensures Network(s) == Reverse(s)
  {
    hide Network, Reverse;
    forall i | 0 <= i < 32
      ensures Network(s)[i] == s[31 - i]
    {
      NetworkAt(s, i);
    }
  }

  lemma {:induction false} ReverseOfToBits(n: nat, k: nat)
    ensures Reverse(ToBits(n, k)) == ToMsb(n, k)
  {
    if k > 0 {
      ReverseOfToBits(n / 2, k - 1);
      assert ToBits(n, k)[1..] == ToBits(n / 2, k - 1);
    }
  }

  /** The five swaps read the word from its other end. */
  lemma ReverseIsReverse(n: nat)
    requires n < SPACE
    ensures BitReverse(n) < SPACE
    ensures ToBits(BitReverse(n), 32) == ToMsb(n, 32)
    ensures ToMsb(BitReverse(n), 32) == ToBits(n, 32)
    ensures BitReverse(n) == FromBits(ToMsb(n, 32))
  {
    hide Network, Reverse, ToBits, ToMsb, Pow2, FromBits, FromMsb;
    var s := ToBits(n, 32);
    NetworkReverses(s);
    ReverseOfToBits(n, 32);
    var r := ToMsb(n, 32);
    FromBitsBound(r);
    Pow2Values();
    ToFromBits(r);
    ReverseOfToBits(BitReverse(n), 32);
    ReverseTwice(s);
  }

  lemma ReverseTwice(s: seq<bool>)
    ensures Reverse(Reverse(s)) == s
  {
    hide Reverse;
  }

  lemma Involution(n: nat)
    requires n < SPACE
    ensures BitReverse(BitReverse(n)) == n
  {
    hide ToBits, ToMsb, FromBits, BitReverse, Pow2;
    ReverseIsReverse(n);
    ReverseIsReverse(BitReverse(n));
    Pow2Values();
    FromToBits(n, 32);
  }

  // ---- codewords in the decoder's bit order ----

  lemma {:induction false} ZeroMsb(s: seq<bool>)
    requires FromMsb(s) == 0
    ensures FromBits(s) == 0
  {
    if s != [] {
      var t := s[..|s| - 1];
      ZeroMsb(t);
      assert s == t + [s[|s| - 1]];
      FromBitsConcat(t, [s[|s| - 1]]);
      assert FromBits([false]) == 0;
      assert Pow2(|t|) * 0 == 0;
    }
  }

  /** Reversed, a codeword has only its own bits set. */
  lemma ReversedCode(w: nat, l: nat)
    requires w < SPACE && l <= 32 && Aligned(w, l)
    ensures BitReverse(w) == FromBits(Code(w, l)) < Pow2(l)
  {
    hide ToMsb, FromMsb, FromBits, BitReverse, Pow2;
    ReverseIsReverse(w);
    var b := ToMsb(w, 32);
    var c, r := b[..l], b[l..];
    assert b == c + r;
    Pow2Values();
    FromToMsb(w, 32);
    FromMsbConcat(c, r);
    FromMsbBound(r);
    DivUniqueLeft(w, Pow2(32 - l), FromMsb(c), FromMsb(r));
    ZeroMsb(r);
    FromBitsConcat(c, r);
    assert Pow2(l) * 0 == 0;
    FromBitsBound(c);
  }

  lemma LowBits(acc: nat, c: seq<bool>)
    requires acc < SPACE && |c| <= 32
    ensures acc % Pow2(|c|) == FromBits(c) <==> c <= ToBits(acc, 32)
  {
    hide ToBits, FromBits, Pow2;
    var s := ToBits(acc, 32);
    Pow2Values();
    FromToBits(acc, 32);
    FromBitsSplit(s, |c|);
    if FromBits(s[..|c|]) == FromBits(c) {
      FromBitsInjective(s[..|c|], c);
      assert s[..|c|] <= s;
    }
    assert c <= s ==> c == s[..|c|];
  }

  /** The test of the linear search: the low bits of the accumulator are the reversed codeword exactly
      when the pending bits begin with it. */
  lemma MaskIsWithin(acc: nat, w: nat, l: nat)
    requires acc < SPACE && w < SPACE && l <= 32 && Aligned(w, l)
    ensures acc % Pow2(l) == BitReverse(w) <==> Within(BitReverse(acc), w, l)
  {
    hide ToMsb, ToBits, FromBits, BitReverse, Pow2, Within, Code, Aligned;
    ReversedCode(w, l);
    ReverseIsReverse(acc);
    WithinIsPrefix(BitReverse(acc), w, l);
    LowBits(acc, Code(w, l));
  }

  lemma MulPositive(p: int, q: int)
    requires p > 0 && q > 0
    ensures p * q > 0
  {
  }

  lemma ModOfProduct(n: nat, p: nat, q: nat)
    requires p > 0 && q > 0
    ensures p * q > 0 && n % (p * q) % p == n % p
  {
    var k, r := n / (p * q), n % (p * q);
    assert n == p * q * k + r;
    var d, m := r / p, r % p;
    assert r == p * d + m;
    Distribute(p, q, k, d);
    MulPositive(p, q);
    DivUnique(n, p, q * k + d, m);
  }

  lemma ModMod(n: nat, a: nat, b: nat)
    requires a <= b
    ensures n % Pow2(b) % Pow2(a) == n % Pow2(a)
  {
    hide Pow2;
    Pow2Add(a, b - a);
    ModOfProduct(n, Pow2(a), Pow2(b - a));
  }

  lemma Distribute(p: int, q: int, k: int, d: int)
    ensures p * (q * k + d) == p * q * k + p * d
  {
    assert p * (q * k) == p * q * k;
  }
}
