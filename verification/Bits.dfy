/** Bit strings and the numbers they spell.

    A bit string lists its bits in stream order.  Both coded formats of this project pack bits
    into bytes starting at the least significant one, so the first bit of a string has weight 1
    in `FromBits`; Huffman codes are packed from their most significant end, which is `FromMsb`. */
module Bits {

  type Byte = b: int | 0 <= b < 256

  function Pow2(n: nat): (p: nat)
    ensures p > 0
  {
    if n == 0 then 1 else 2 * Pow2(n - 1)
  }

  function BitVal(b: bool): (v: nat) { if b then 1 else 0 }

  /** The number spelt least significant bit first. */
  function FromBits(s: seq<bool>): nat {
    if s == [] then 0 else BitVal(s[0]) + 2 * FromBits(s[1..])
  }

  /** The low `k` bits of `n`, least significant first. */
  function ToBits(n: nat, k: nat): (s: seq<bool>)
    ensures |s| == k
  {
    if k == 0 then [] else [n % 2 == 1] + ToBits(n / 2, k - 1)
  }

  /** The number spelt most significant bit first. */
  function FromMsb(s: seq<bool>): nat {
    if s == [] then 0 else 2 * FromMsb(s[..|s| - 1]) + BitVal(s[|s| - 1])
  }

  /** The low `k` bits of `n`, most significant first. */
  function ToMsb(n: nat, k: nat): (s: seq<bool>)
    ensures |s| == k
  {
    if k == 0 then [] else ToMsb(n / 2, k - 1) + [n % 2 == 1]
  }

  // ---- powers of two ----

  lemma {:induction false} Pow2Add(a: nat, b: nat)
    ensures Pow2(a + b) == Pow2(a) * Pow2(b)
  {
    if a > 0 {
      Pow2Add(a - 1, b);
      MulTwice(Pow2(a - 1), Pow2(b));
    }
  }

  lemma {:induction false} Pow2Mono(a: nat, b: nat)
    requires a <= b
    ensures Pow2(a) <= Pow2(b)
    ensures a < b ==> 2 * Pow2(a) <= Pow2(b)
  {
    if a < b { Pow2Mono(a, b - 1); }
  }

  lemma Pow2Values()
    ensures Pow2(0) == 1 && Pow2(1) == 2 && Pow2(2) == 4 && Pow2(3) == 8 && Pow2(4) == 16
    ensures Pow2(5) == 32 && Pow2(7) == 128 && Pow2(8) == 256 && Pow2(9) == 512 && Pow2(10) == 1024
    ensures Pow2(14) == 16384 && Pow2(15) == 32768 && Pow2(16) == 65536
    ensures Pow2(24) == 0x100_0000 && Pow2(31) == 0x8000_0000 && Pow2(32) == 0x1_0000_0000
    ensures Pow2(64) == 0x1_0000_0000_0000_0000
  {
    Pow2Add(8, 8);
    Pow2Add(16, 8);
    Pow2Add(16, 16);
    Pow2Add(32, 32);
  }

  // ---- integer division by a product ----

  lemma MulLess(d: int, q: int, q': int)
    requires d > 0 && q < q'
    ensures d * q + d <= d * q'
  {
    var k := q' - q - 1;
    assert d * k >= 0;
    assert d * q' == d * (q + 1 + k) == d * q + d + d * k;
  }

  lemma MulMono(a: int, b: int, p: int)
    requires a <= b && p >= 0
    ensures a * p <= b * p
  {
    assert b * p == a * p + (b - a) * p;
  }

  /** One more on the left is at least one more `p`. */
  lemma MulStep(a: int, b: int, p: int)
    requires a < b && p >= 0
    ensures a * p + p <= b * p
    ensures (a + 1) * p == a * p + p
  {
    MulMono(a + 1, b, p);
  }

  lemma MulTwice(x: int, y: int)
    ensures (2 * x) * y == 2 * (x * y)
    ensures y * (2 * x) == 2 * (y * x)
    ensures x * y == y * x
  {
  }

  lemma MulCancel(a: int, b: int, p: int)
    requires p > 0 && a * p <= b * p
    ensures a <= b
  {
    if a > b { MulStep(b, a, p); }
  }

  lemma DivBounds(v: int, p: int)
    requires p > 0
    ensures v / p * p <= v < (v / p + 1) * p
  {
    assert v == p * (v / p) + v % p;
    MulStep(v / p, v / p + 1, p);
  }

  lemma QuotientAbove(a: int, v: int, p: int)
    requires p > 0 && (a + 1) * p <= v
    ensures a < v / p
  {
    DivBounds(v, p);
    MulCancel(a + 1, v / p + 1, p);
    if a == v / p { DivBounds(v, p); }
  }

  lemma QuotientUnique(d: int, q: int, r: int, q': int, r': int)
    requires d > 0 && 0 <= r < d && 0 <= r' < d
    requires d * q + r == d * q' + r'
    ensures q == q' && r == r'
  {
    if q < q' { MulLess(d, q, q'); }
    if q' < q { MulLess(d, q', q); }
  }

  lemma DivUnique(n: int, d: int, q: int, r: int)
    requires d > 0 && n == d * q + r && 0 <= r < d
    ensures n / d == q && n % d == r
  {
    QuotientUnique(d, q, r, n / d, n % d);
  }

  lemma DivUniqueLeft(n: int, d: int, q: int, r: int)
    requires d > 0 && n == q * d + r && 0 <= r < d
    ensures n / d == q && n % d == r
  {
    DivUnique(n, d, q, r);
  }

  lemma ShiftNonNegative(v: nat, n: nat)
    ensures v / Pow2(n) >= 0
  {
    hide Pow2;
    var p := Pow2(n);
    DivBounds(v, p);
    MulCancel(0, v / p + 1, p);
  }

  // ---- FromBits / ToBits ----

  lemma {:induction false} FromBitsBound(s: seq<bool>)
    ensures FromBits(s) < Pow2(|s|)
  {
    if s != [] { FromBitsBound(s[1..]); }
  }

  lemma {:induction false} FromBitsConcat(a: seq<bool>, b: seq<bool>)
    ensures FromBits(a + b) == FromBits(a) + Pow2(|a|) * FromBits(b)
  {
    if a == [] {
      assert a + b == b;
    } else {
      assert (a + b)[1..] == a[1..] + b;
      FromBitsConcat(a[1..], b);
      MulTwice(Pow2(|a| - 1), FromBits(b));
    }
  }

  /** Masking keeps the first bits of a string, shifting right drops them. */
  lemma FromBitsSplit(s: seq<bool>, k: nat)
    requires k <= |s|
    ensures FromBits(s) % Pow2(k) == FromBits(s[..k])
    ensures FromBits(s) / Pow2(k) == FromBits(s[k..])
  {
    assert s == s[..k] + s[k..];
    FromBitsConcat(s[..k], s[k..]);
    FromBitsBound(s[..k]);
    DivUnique(FromBits(s), Pow2(k), FromBits(s[k..]), FromBits(s[..k]));
  }

  lemma {:induction false} ToFromBits(s: seq<bool>)
    ensures ToBits(FromBits(s), |s|) == s
  {
    if s != [] {
      ToFromBits(s[1..]);
      assert FromBits(s) / 2 == FromBits(s[1..]);
    }
  }

  lemma {:induction false} FromToBits(n: nat, k: nat)
    requires n < Pow2(k)
    ensures FromBits(ToBits(n, k)) == n
  {
    if k > 0 {
      FromToBits(n / 2, k - 1);
      assert ToBits(n, k)[1..] == ToBits(n / 2, k - 1);
    }
  }

  lemma FromBitsInjective(a: seq<bool>, b: seq<bool>)
    requires |a| == |b| && FromBits(a) == FromBits(b)
    ensures a == b
  {
    ToFromBits(a);
    ToFromBits(b);
  }

  lemma FromBitsHead(s: seq<bool>)
    requires s != []
    ensures FromBits(s) % 2 == BitVal(s[0])
    ensures FromBits(s) / 2 == FromBits(s[1..])
  {
  }

  /** One bit of a number, read off by shift and mask. */
  lemma BitAt(s: seq<bool>, k: nat)
    requires k < |s|
    ensures FromBits(s) / Pow2(k) % 2 == BitVal(s[k])
  {
    var t := s[k..];
    assert FromBits(s) / Pow2(k) == FromBits(t) by { FromBitsSplit(s, k); }
    FromBitsHead(t);
  }

  function Zeros(k: nat): (s: seq<bool>)
    ensures |s| == k
    ensures forall i :: 0 <= i < k ==> !s[i]
  {
    if k == 0 then [] else [false] + Zeros(k - 1)
  }

  lemma {:induction false} FromZeros(k: nat)
    ensures FromBits(Zeros(k)) == 0
  {
    if k > 0 {
      FromZeros(k - 1);
      assert Zeros(k)[1..] == Zeros(k - 1);
    }
  }

  /** Bits above the top of a number read as zero. */
  lemma {:induction false} ToBitsOfZero(k: nat)
    ensures ToBits(0, k) == Zeros(k)
  {
    if k > 0 { ToBitsOfZero(k - 1); }
  }

  lemma {:induction false} ToMsbOfZero(k: nat)
    ensures ToMsb(0, k) == Zeros(k)
  {
    if k > 0 { ToMsbOfZero(k - 1); }
  }

  lemma FromBitsPadded(s: seq<bool>, k: nat)
    ensures FromBits(s + Zeros(k)) == FromBits(s)
  {
    FromBitsConcat(s, Zeros(k));
    FromZeros(k);
    assert Pow2(|s|) * 0 == 0;
  }

  // ---- FromMsb / ToMsb ----

  lemma {:induction false} FromMsbBound(s: seq<bool>)
    ensures FromMsb(s) < Pow2(|s|)
  {
    if s != [] { FromMsbBound(s[..|s| - 1]); }
  }

  lemma {:induction false} ToFromMsb(s: seq<bool>)
    ensures ToMsb(FromMsb(s), |s|) == s
  {
    if s != [] { ToFromMsb(s[..|s| - 1]); }
  }

  lemma FromMsbSnoc(s: seq<bool>, b: bool)
    ensures FromMsb(s + [b]) == 2 * FromMsb(s) + BitVal(b)
  {
    assert (s + [b])[..|s|] == s;
  }

  lemma {:induction false} FromToMsb(n: nat, k: nat)
    requires n < Pow2(k)
    ensures FromMsb(ToMsb(n, k)) == n
  {
    if k > 0 {
      FromToMsb(n / 2, k - 1);
      FromMsbSnoc(ToMsb(n / 2, k - 1), n % 2 == 1);
    }
  }

  lemma {:induction false} FromMsbConcat(a: seq<bool>, b: seq<bool>)
    ensures FromMsb(a + b) == FromMsb(a) * Pow2(|b|) + FromMsb(b)
  {
    if b == [] {
      assert a + b == a;
      assert FromMsb(a) * 1 == FromMsb(a);
    } else {
      var b' := b[..|b| - 1];
      assert (a + b)[..|a + b| - 1] == a + b';
      FromMsbConcat(a, b');
      MulTwice(Pow2(|b'|), FromMsb(a));
    }
  }

  lemma MsbQuotient(a: seq<bool>, b: seq<bool>, w: nat)
    requires w == FromMsb(a + b)
    ensures w / Pow2(|b|) == FromMsb(a)
  {
    FromMsbConcat(a, b);
    FromMsbBound(b);
    DivUniqueLeft(w, Pow2(|b|), FromMsb(a), FromMsb(b));
  }

  /** `p` begins `w` exactly when `w`, read as a binary fraction, lies in the interval `p` names. */
  lemma PrefixIsInterval(p: seq<bool>, w: seq<bool>)
    requires |p| <= |w|
    ensures Pow2(|w| - |p|) > 0
    ensures p <= w <==> FromMsb(p) == FromMsb(w) / Pow2(|w| - |p|)
  {
    var a, b := w[..|p|], w[|p|..];
    assert w == a + b;
    MsbQuotient(a, b, FromMsb(w));
    SameMsb(p, a);
  }

  lemma SameMsb(a: seq<bool>, b: seq<bool>)
    requires |a| == |b|
    ensures FromMsb(a) == FromMsb(b) <==> a == b
  {
    ToFromMsb(a);
    ToFromMsb(b);
  }

  function Reverse(s: seq<bool>): (r: seq<bool>)
    ensures |r| == |s|
    ensures forall i :: 0 <= i < |s| ==> r[i] == s[|s| - 1 - i]
  {
    if s == [] then [] else Reverse(s[1..]) + [s[0]]
  }

  lemma {:induction false} ReverseEnd(s: seq<bool>, last: bool)
    ensures Reverse(s + [last]) == [last] + Reverse(s)
  {
    if s == [] {
      assert s + [last] == [last] && [last][1..] == [];
    } else {
      assert (s + [last])[1..] == s[1..] + [last];
      ReverseEnd(s[1..], last);
      assert [last] + Reverse(s[1..]) + [s[0]] == [last] + (Reverse(s[1..]) + [s[0]]);
    }
  }

  lemma {:induction false} ReverseToBits(s: seq<bool>)
    ensures FromBits(Reverse(s)) == FromMsb(s)
  {
    if s != [] {
      var t := s[..|s| - 1];
      ReverseToBits(t);
      ReverseEnd(t, s[|s| - 1]);
      assert s == t + [s[|s| - 1]];
      assert Reverse(s)[1..] == Reverse(t);
    }
  }

  lemma {:induction false} ReverseToMsb(s: seq<bool>)
    ensures FromMsb(Reverse(s)) == FromBits(s)
  {
    if s != [] {
      var t := s[1..];
      ReverseToMsb(t);
      assert Reverse(s)[..|s| - 1] == Reverse(t);
    }
  }

  // ---- the bits of a byte stream ----

  function Bit(data: seq<Byte>, k: nat): bool
    requires k < 8 * |data|
  {
    ToBits(data[k / 8], 8)[k % 8]
  }

  /** Bits `lo` up to `hi` of a byte stream, least significant bit of each byte first. */
  function Slice(data: seq<Byte>, lo: nat, hi: nat): (s: seq<bool>)
    requires lo <= hi <= 8 * |data|
    ensures |s| == hi - lo
  {
    seq(hi - lo, i requires 0 <= i < hi - lo => Bit(data, lo + i))
  }

  lemma SliceConcat(data: seq<Byte>, a: nat, b: nat, c: nat)
    requires a <= b <= c <= 8 * |data|
    ensures Slice(data, a, c) == Slice(data, a, b) + Slice(data, b, c)
  {
  }

  lemma SliceOfByte(data: seq<Byte>, k: nat)
    requires k < |data|
    ensures Slice(data, 8 * k, 8 * k + 8) == ToBits(data[k], 8)
  {
    var s := Slice(data, 8 * k, 8 * k + 8);
    forall i | 0 <= i < 8
      ensures s[i] == ToBits(data[k], 8)[i]
    {
      assert (8 * k + i) / 8 == k && (8 * k + i) % 8 == i;
      assert s[i] == Bit(data, 8 * k + i);
    }
  }

  lemma SliceByte(data: seq<Byte>, k: nat)
    requires k < |data|
    ensures Slice(data, 8 * k, 8 * k + 8) == ToBits(data[k], 8)
    ensures FromBits(Slice(data, 8 * k, 8 * k + 8)) == data[k]
  {
    SliceOfByte(data, k);
    assert data[k] < Pow2(8) by { Pow2Values(); }
    FromToBits(data[k], 8);
  }
}
