/** The Adler-32 checksum (RFC 1950, section 9) as the inflater keeps it: two 32-bit sums that are
    reduced only once per block of 5552 bytes. */
module Adler {
  import opened Bits

  const BASE: nat := 65521
  const BLOCK: nat := 5552

  type Residue = r: int | 0 <= r < BASE

  datatype Sums = Sums(s1: Residue, s2: Residue)

  const START := Sums(1, 0)

  /** The definition: both sums reduced after every byte. */
  function Fold(st: Sums, data: seq<Byte>): Sums {
    if data == [] then st
    else
      var p := Fold(st, data[..|data| - 1]);
      var a: Residue := (p.s1 + data[|data| - 1]) % BASE;
      Sums(a, (p.s2 + a) % BASE)
  }

  /** The checksum word holds the second sum in its upper half. */
  function Pack(st: Sums): nat { st.s2 * 65536 + st.s1 }

  lemma {:induction false} FoldConcat(st: Sums, a: seq<Byte>, b: seq<Byte>)
    ensures Fold(st, a + b) == Fold(Fold(st, a), b)
  {
    if b == [] {
      assert a + b == a;
    } else {
      assert (a + b)[..|a + b| - 1] == a + b[..|b| - 1];
      FoldConcat(st, a, b[..|b| - 1]);
    }
  }

  // ---- the sums before reduction ----

  function Raw(a0: nat, b0: nat, data: seq<Byte>): (nat, nat) {
    if data == [] then (a0, b0)
    else
      var p := Raw(a0, b0, data[..|data| - 1]);
      var a := p.0 + data[|data| - 1];
      (a, p.1 + a)
  }

  lemma SquareStep(k: nat)
    ensures (k + 1) * (k + 2) / 2 == k * (k + 1) / 2 + (k + 1)
  {
    assert (k + 1) * (k + 2) == k * (k + 1) + 2 * (k + 1);
  }

  lemma {:induction false} RawBounds(a0: nat, b0: nat, data: seq<Byte>)
    requires a0 < BASE && b0 < BASE
    ensures Raw(a0, b0, data).0 <= 65520 + 255 * |data|
    ensures Raw(a0, b0, data).1 <= 65520 + 65520 * |data| + 255 * (|data| * (|data| + 1) / 2)
  {
    if data != [] {
      RawBounds(a0, b0, data[..|data| - 1]);
      SquareStep(|data| - 1);
    }
  }

  lemma TriangleMono(k: nat, m: nat)
    requires k <= m
    ensures k * (k + 1) / 2 <= m * (m + 1) / 2
  {
    MulMono(k, m, k + 1);
    MulMono(k + 1, m + 1, m);
    assert k * (k + 1) <= m * (m + 1) by {
      assert m * (k + 1) == (k + 1) * m && m * (m + 1) == (m + 1) * m;
    }
  }

  /** Over one block neither sum can outgrow 32 bits, even from the largest reduced start. */
  lemma BlockFits(a0: nat, b0: nat, data: seq<Byte>)
    requires a0 < BASE && b0 < BASE && |data| <= BLOCK
    ensures Raw(a0, b0, data).0 < 0x1_0000_0000 && Raw(a0, b0, data).1 < 0x1_0000_0000
  {
    RawBounds(a0, b0, data);
    TriangleMono(|data|, BLOCK);
  }

  lemma ModAdd(x: nat, y: nat)
    ensures (x + y) % BASE == (x % BASE + y) % BASE
  {
    var q, r := x / BASE, (x % BASE + y) % BASE;
    var q' := (x % BASE + y) / BASE;
    assert x + y == BASE * (q + q') + r;
    DivUnique(x + y, BASE, q + q', r);
  }

  lemma DelayedStep(r1: nat, r2: nat, x: nat)
    ensures (r1 + x) % BASE == (r1 % BASE + x) % BASE
    ensures (r2 + (r1 + x)) % BASE == (r2 % BASE + (r1 % BASE + x) % BASE) % BASE
  {
    ModAdd(r1, x);
    ModAdd(r2, r1 + x);
    ModAdd(r1 + x, r2 % BASE);
  }

  /** Delaying the reduction to the end of a block does not change the residues. */
  lemma {:induction false} DelayedReduction(st: Sums, data: seq<Byte>)
    ensures Raw(st.s1, st.s2, data).0 % BASE == Fold(st, data).s1
    ensures Raw(st.s1, st.s2, data).1 % BASE == Fold(st, data).s2
  {
    if data != [] {
      var h := data[..|data| - 1];
      DelayedReduction(st, h);
      DelayedStep(Raw(st.s1, st.s2, h).0, Raw(st.s1, st.s2, h).1, data[|data| - 1]);
    }
  }

  function U32(n: nat): (r: nat)
    ensures n < 0x1_0000_0000 ==> r == n
  {
    n % 0x1_0000_0000
  }

  lemma RawSnoc(a0: nat, b0: nat, block: seq<Byte>, x: Byte)
    ensures Raw(a0, b0, block + [x]) == (Raw(a0, b0, block).0 + x, Raw(a0, b0, block).1 + (Raw(a0, b0, block).0 + x))
  {
    assert (block + [x])[..|block|] == block;
  }

  /** One byte added to both 32-bit sums. */
  method AddByte(a: nat, b: nat, x: Byte, ghost a0: nat, ghost b0: nat, ghost block: seq<Byte>)
    returns (a': nat, b': nat)
    requires a0 < BASE && b0 < BASE && |block| < BLOCK && (a, b) == Raw(a0, b0, block)
    ensures (a', b') == Raw(a0, b0, block + [x])
  {
    RawSnoc(a0, b0, block, x);
    BlockFits(a0, b0, block + [x]);
    a' := U32(a + x);
    b' := U32(b + a');
  }

  /** Sums one block, eight bytes to a round and then the rest. */
  method AddBlock(a0: nat, b0: nat, block: seq<Byte>) returns (a: nat, b: nat)
    requires a0 < BASE && b0 < BASE && |block| <= BLOCK
    ensures (a, b) == Raw(a0, b0, block)
  {
    a, b := a0, b0;
    var i := 0;
    while i + 7 < |block|
      invariant i <= |block| && (a, b) == Raw(a0, b0, block[..i])
    {
      for k := 0 to 8
        invariant (a, b) == Raw(a0, b0, block[..i + k])
      {
        a, b := NextByte(a, b, block, i + k, a0, b0);
      }
      i := i + 8;
    }
    while i < |block|
      invariant i <= |block| && (a, b) == Raw(a0, b0, block[..i])
    {
      a, b := NextByte(a, b, block, i, a0, b0);
      i := i + 1;
    }
    assert block[..i] == block;
  }

  method NextByte(a: nat, b: nat, block: seq<Byte>, i: nat, ghost a0: nat, ghost b0: nat) returns (a': nat, b': nat)
    requires a0 < BASE && b0 < BASE && i < |block| <= BLOCK && (a, b) == Raw(a0, b0, block[..i])
    ensures (a', b') == Raw(a0, b0, block[..i + 1])
  {
    a', b' := AddByte(a, b, block[i], a0, b0, block[..i]);
    assert block[..i] + [block[i]] == block[..i + 1];
  }

  lemma BlockStep(st: Sums, data: seq<Byte>, at: nat, len: nat, s: Sums, a: nat, b: nat)
    requires at + len <= |data| && s == Fold(st, data[..at])
    requires (a, b) == Raw(s.s1, s.s2, data[at..at + len])
    ensures Fold(st, data[..at + len]) == Sums(a % BASE, b % BASE)
  {
    assert data[..at] + data[at..at + len] == data[..at + len];
    FoldConcat(st, data[..at], data[at..at + len]);
    DelayedReduction(s, data[at..at + len]);
  }

  /** Brings the stored checksum up to date with the bytes one call produced. */
  method Update(check: nat, data: seq<Byte>, ghost st: Sums) returns (check': nat)
    requires check == Pack(st)
    ensures check' == Pack(Fold(st, data)) < 0x1_0000_0000
  {
    var s1: nat, s2: nat := check % 65536, check / 65536;
    assert s1 == st.s1 && s2 == st.s2;
    var at: nat, bufLen: nat := 0, |data|;
    var blockLen: nat := bufLen % BLOCK;
    ghost var s := st;
    while bufLen > 0
      invariant at + bufLen == |data| && blockLen <= BLOCK
      invariant bufLen == 0 || blockLen <= bufLen
      invariant bufLen == 0 || (bufLen - blockLen) % BLOCK == 0
      invariant s1 == s.s1 && s2 == s.s2 && s == Fold(st, data[..at])
      decreases bufLen, BLOCK - blockLen
    {
      var a, b := AddBlock(s1, s2, data[at..at + blockLen]);
      BlockStep(st, data, at, blockLen, s, a, b);
      s1, s2 := a % BASE, b % BASE;
      s := Sums(s1, s2);
      at, bufLen := at + blockLen, bufLen - blockLen;
      blockLen := BLOCK;
      if bufLen > 0 { WholeBlocks(bufLen); }
    }
    assert data[..at] == data;
    check' := s2 * 65536 + s1;
  }

  lemma WholeBlocks(n: nat)
    requires n % BLOCK == 0 && n > 0
    ensures n >= BLOCK && (n - BLOCK) % BLOCK == 0
  {
  }

  /** However the data is cut into calls, the checksum is that of the whole. */
  lemma {:induction false} SplitIndependent(st: Sums, parts: seq<seq<Byte>>)
    ensures FoldAll(st, parts) == Fold(st, Flatten(parts))
  {
    if parts != [] {
      SplitIndependent(st, parts[..|parts| - 1]);
      FoldConcat(st, Flatten(parts[..|parts| - 1]), parts[|parts| - 1]);
    }
  }

  function Flatten(parts: seq<seq<Byte>>): seq<Byte> {
    if parts == [] then [] else Flatten(parts[..|parts| - 1]) + parts[|parts| - 1]
  }

  function FoldAll(st: Sums, parts: seq<seq<Byte>>): Sums {
    if parts == [] then st else Fold(FoldAll(st, parts[..|parts| - 1]), parts[|parts| - 1])
  }
}
