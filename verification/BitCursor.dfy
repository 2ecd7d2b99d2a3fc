/** Reading a packet bit by bit: the accumulator of the Vorbis decoder.

    Bits come least significant first (Vorbis I specification, section 2.1.4).  The accumulator holds the
    next `valid_bits` bits of the packet; what is left of the packet as bits is those followed by the bits
    of the unread bytes. */
module BitCursor {
  import opened Bits
  import opened Lacing
  import opened Ogg

  const INVALID_BITS: int := -1

  function PacketBits(packet: seq<Byte>): (s: seq<bool>)
    ensures |s| == 8 * |packet|
  {
    Slice(packet, 0, 8 * |packet|)
  }

  function AccBits(acc: nat, valid: int): (s: seq<bool>)
    ensures |s| == if valid > 0 then valid else 0
  {
    if valid > 0 then ToBits(acc, valid) else []
  }

  predicate AccOk(acc: nat, valid: int) {
    -1 <= valid <= 32 && (valid > 0 ==> acc < Pow2(valid))
  }

  /** The accumulator is a 32-bit word. */
  const WORD: nat := 0x1_0000_0000

  /** The bits of the packet not handed out yet. */
  function Left(acc: nat, valid: int, packet: seq<Byte>): seq<bool> {
    AccBits(acc, valid) + PacketBits(packet)
  }

  ghost function BitsLeft(f: Reader, v: View): seq<bool>
    reads f
  {
    Left(f.acc, f.validBits, Packet(v, f.lastSeg))
  }

  /** The reader stands inside a packet as `v` shows it, with a consistent accumulator. */
  ghost predicate Ready(f: Reader, v: View)
    reads f, f.segments
  {
    f.Sane() && f.Holds(v) && AccOk(f.acc, f.validBits)
  }

  /** A reader that bits can be read and symbols decoded from: its accumulator is a word, and without valid
      bits for good only at the end of a packet. */
  predicate Settled(f: Reader)
    reads f
  {
    AccOk(f.acc, f.validBits) && -1 <= f.validBits <= 32 && f.acc < WORD && (f.validBits < 0 ==> f.lastSeg && f.bytesInSeg == 0)
  }

  lemma AccInWord(acc: nat, valid: int)
    requires AccOk(acc, valid) && (valid <= 0 ==> acc < WORD)
    ensures acc < WORD
  {
    if valid > 0 { Pow2Mono(valid, 32); }
    Pow2Values();
  }

  // ---- the accumulator as bits ----

  lemma FirstByteBits(packet: seq<Byte>)
    requires packet != []
    ensures PacketBits(packet) == ToBits(packet[0], 8) + PacketBits(packet[1..])
  {
    SliceOfByte(packet, 0);
    SliceConcat(packet, 0, 8, 8 * |packet|);
    var rest := packet[1..];
    forall i | 0 <= i < 8 * |rest|
      ensures Slice(packet, 8, 8 * |packet|)[i] == PacketBits(rest)[i]
    {
      assert (8 + i) / 8 == 1 + i / 8 && (8 + i) % 8 == i % 8;
    }
    assert Slice(packet, 8, 8 * |packet|) == PacketBits(rest);
  }

  /** Shifting a byte in above the valid bits appends its bits. */
  lemma PushByte(acc: nat, valid: nat, z: Byte)
    requires valid == 0 ==> acc == 0
    requires valid > 0 ==> acc < Pow2(valid)
    ensures acc + z * Pow2(valid) < Pow2(valid + 8)
    ensures ToBits(acc + z * Pow2(valid), valid + 8) == AccBits(acc, valid) + ToBits(z, 8)
  {
    hide Pow2, ToBits, FromBits;
    Pow2Values();
    var a, b := AccBits(acc, valid), ToBits(z, 8);
    if valid > 0 { FromToBits(acc, valid); } else { FromNothing(); }
    FromToBits(z, 8);
    FromBitsConcat(a, b);
    MulTwice(Pow2(valid), z);
    FromBitsBound(a + b);
    ToFromBits(a + b);
  }

  lemma FromNothing()
    ensures FromBits([]) == 0
  {
  }

  /** Masking takes the first bits, shifting right drops them. */
  lemma TakeLow(acc: nat, valid: nat, n: nat)
    requires n <= valid && (valid > 0 ==> acc < Pow2(valid))
    ensures n > 0 ==> acc % Pow2(n) == FromBits(AccBits(acc, valid)[..n])
    ensures n < valid ==> acc / Pow2(n) < Pow2(valid - n)
    ensures acc / Pow2(n) >= 0
    ensures n < valid ==> ToBits(acc / Pow2(n), valid - n) == AccBits(acc, valid)[n..]
  {
    hide Pow2, ToBits, FromBits;
    ShiftNonNegative(acc, n);
    if valid > 0 {
      var s := ToBits(acc, valid);
      FromToBits(acc, valid);
      FromBitsSplit(s, n);
      FromBitsBound(s[n..]);
      ToFromBits(s[n..]);
    }
  }

  // ---- one byte into the accumulator ----

  /** What pulling a byte does to the bits left. */
  method PullByte(f: Reader, ghost v: View) returns (ok: bool, ghost v': View)
    requires f.Sane() && 0 <= f.validBits <= 24
    requires f.validBits == 0 ==> f.acc == 0
    modifies f, f.segments
    ensures f.Sane()
    ensures f.validBits == old(f.validBits) + if ok then 8 else 0
    ensures f.packetBytes == old(f.packetBytes) + if ok then 1 else 0
    ensures !ok ==> f.acc == old(f.acc)
    ensures old(AccOk(f.acc, f.validBits)) ==> AccOk(f.acc, f.validBits)
    ensures old(Ready(f, v)) ==> Ready(f, v') && BitsLeft(f, v') == old(BitsLeft(f, v))
    ensures old(Ready(f, v)) ==> After(v', f.lastSeg) == old(After(v, f.lastSeg))
    ensures old(Ready(f, v)) ==> ok == (old(Packet(v, f.lastSeg)) != [])
    ensures old(Ready(f, v)) && ok ==> |Packet(v', f.lastSeg)| == old(|Packet(v, f.lastSeg)|) - 1
    ensures old(Ready(f, v)) && !ok ==> Packet(v', f.lastSeg) == [] && f.lastSeg && f.bytesInSeg == 0
  {
    hide Pow2, PacketBits, Packet, After, Head, Tail, Reader.Holds, AccOk, Left;
    ghost var ready := Ready(f, v);
    ghost var packet := Packet(v, f.lastSeg);
    var z;
    z, v' := f.Get8PacketRaw(v);
    if z == EOP {
      ok := false;
      EndOfPacket(v');
    } else {
      ok := true;
      ghost var acc, valid := f.acc, f.validBits;
      Shifted(acc, valid, z, packet);
      f.acc := f.acc + z * Pow2(f.validBits);
      f.validBits := f.validBits + 8;
    }
  }

  lemma EndOfPacket(v: View)
    ensures v.cur == [] ==> Packet(v, true) == []
  {
  }

  lemma Shifted(acc: nat, valid: nat, z: Byte, packet: seq<Byte>)
    requires valid <= 24 && (valid == 0 ==> acc == 0)
    ensures AccOk(acc, valid) ==> AccOk(acc + z * Pow2(valid), valid + 8)
    ensures AccOk(acc, valid) && packet != [] && z == packet[0] ==>
      Left(acc + z * Pow2(valid), valid + 8, packet[1..]) == Left(acc, valid, packet)
  {
    hide Pow2, PacketBits, ToBits;
    if AccOk(acc, valid) { PushByte(acc, valid, z); }
    if AccOk(acc, valid) && packet != [] && z == packet[0] {
      FirstByteBits(packet);
      Regrouped(AccBits(acc, valid), ToBits(z, 8), PacketBits(packet[1..]));
    }
  }

  lemma Regrouped(a: seq<bool>, b: seq<bool>, c: seq<bool>)
    ensures a + (b + c) == a + b + c
  {
  }

  // ---- get_bits ----

  /** Bits of the packet handed out so far. */
  ghost function Cursor(f: Reader): int
    reads f
  {
    8 * f.packetBytes - if f.validBits < 0 then 0 else f.validBits
  }

  function Least(a: int, b: int): int { if a <= b then a else b }

  /** The state a read of `n` bits leaves: the bits follow on, or the packet is found too short. */
  ghost predicate Took(bits: seq<bool>, n: nat, bits': seq<bool>, valid': int) {
    if n <= |bits| then bits' == bits[n..] && valid' >= 0
    else bits' == [] && valid' == INVALID_BITS
  }

  lemma TakeLeft(acc: nat, valid: nat, n: nat, packet: seq<Byte>)
    requires AccOk(acc, valid) && n <= valid
    ensures acc / Pow2(n) >= 0
    ensures AccOk(acc / Pow2(n), valid - n)
    ensures Left(acc / Pow2(n), valid - n, packet) == Left(acc, valid, packet)[n..]
    ensures n > 0 ==> acc % Pow2(n) == FromBits(Left(acc, valid, packet)[..n])
    ensures n == 0 ==> acc % Pow2(n) == 0 == FromBits(Left(acc, valid, packet)[..n])
  {
    hide Pow2, PacketBits, ToBits, FromBits;
    TakeLow(acc, valid, n);
    FromNothing();
    if n == 0 { PowZero(); }
    var a, b := AccBits(acc, valid), PacketBits(packet);
    assert (a + b)[..n] == a[..n];
    assert (a + b)[n..] == a[n..] + b;
  }

  lemma PowZero()
    ensures Pow2(0) == 1
  {
  }

  lemma ShiftShrinks(acc: nat, n: nat)
    ensures acc / Pow2(n) <= acc
  {
    hide Pow2;
    DivBounds(acc, Pow2(n));
    QuotientShrinks(acc / Pow2(n), Pow2(n), acc);
  }

  lemma QuotientShrinks(q: int, p: int, v: int)
    requires q * p <= v && p > 0 && 0 <= v
    ensures q <= v
  {
    if q > 0 { MulMono(1, p, q); }
  }

  /** At most 24 bits, or no more than are in the accumulator. */
  method GetFew(f: Reader, n: nat, ghost v: View) returns (z: nat, ghost v': View)
    requires f.Sane() && f.validBits <= 32 && (n <= 24 || n <= f.validBits)
    modifies f, f.segments
    ensures f.Sane() && f.validBits <= 32 && (n > 0 ==> f.validBits < 32)
    ensures old(f.validBits) >= n ==> f.validBits == old(f.validBits) - n
    ensures old(f.validBits) < n ==> f.validBits < 8
    ensures old(f.validBits) < 0 ==> z == 0 && f.validBits == old(f.validBits)
    ensures old(Ready(f, v) && Settled(f)) ==> Settled(f)
    ensures old(Ready(f, v)) ==> Ready(f, v') && After(v', f.lastSeg) == old(After(v, f.lastSeg))
    ensures old(Ready(f, v) && f.validBits < 0) ==> BitsLeft(f, v') == old(BitsLeft(f, v)) && Cursor(f) == old(Cursor(f))
    ensures old(Ready(f, v) && f.validBits >= 0) ==>
      && Took(old(BitsLeft(f, v)), n, BitsLeft(f, v'), f.validBits)
      && z == (if n <= |old(BitsLeft(f, v))| then FromBits(old(BitsLeft(f, v))[..n]) else 0)
      && Cursor(f) == old(Cursor(f)) + Least(n, |old(BitsLeft(f, v))|)
  {
    hide Pow2, PacketBits, Packet, After, Reader.Holds, FromBits, AccBits;
    v' := v;
    if f.validBits < 0 { return 0, v; }
    ghost var ready, bits := Ready(f, v), BitsLeft(f, v);
    if f.validBits < n {
      if f.validBits == 0 { f.acc := 0; }
      AccEmpty(f.acc);
      assert ready ==> BitsLeft(f, v) == bits by { AccEmpty(old(f.acc)); }
      var ok := true;
      while f.validBits < n
        invariant f.Sane() && 0 <= f.validBits <= 32 && (f.validBits == 0 ==> f.acc == 0)
        invariant ready ==> Ready(f, v') && BitsLeft(f, v') == bits && After(v', f.lastSeg) == old(After(v, f.lastSeg))
        invariant Cursor(f) == old(Cursor(f)) && f.validBits < n + 8
        decreases n - f.validBits
      {
        ok, v' := PullByte(f, v');
        if !ok {
          OutOfBits(f.acc, f.validBits, Packet(v', f.lastSeg));
          if AccOk(f.acc, f.validBits) { AccInWord(f.acc, f.validBits); }
          f.validBits := INVALID_BITS;
          AccEmpty(f.acc);
          return 0, v';
        }
      }
    }
    ghost var acc, valid, packet := f.acc, f.validBits, Packet(v', f.lastSeg);
    if ready {
      TakeLeft(acc, valid, n, packet);
      if acc < WORD || valid > 0 { AccInWord(acc, valid); }
    }
    ShiftNonNegative(f.acc, n);
    ShiftShrinks(f.acc, n);
    z := f.acc % Pow2(n);
    f.acc := f.acc / Pow2(n);
    f.validBits := f.validBits - n;
  }

  /** An accumulator without valid bits contributes none. */
  lemma AccEmpty(acc: nat)
    ensures AccBits(acc, 0) == [] && AccBits(acc, -1) == []
  {
  }

  lemma OutOfBits(acc: nat, valid: nat, packet: seq<Byte>)
    ensures packet == [] ==> |Left(acc, valid, packet)| == valid && Left(acc, INVALID_BITS, packet) == []
  {
  }

  /** The value a read of `n` bits returns: they are all there, or nothing, except that a read of more
      than 24 bits that fails in its second part keeps the first 24. */
  ghost function Value(bits: seq<bool>, valid: int, n: nat): nat {
    if n <= |bits| then FromBits(bits[..n])
    else if n > 24 && valid < n && |bits| >= 24 then FromBits(bits[..24])
    else 0
  }

  lemma SplitValue(bits: seq<bool>, n: nat)
    requires 24 <= n <= |bits|
    ensures FromBits(bits[..24]) + FromBits(bits[24..][..n - 24]) * 0x100_0000 == FromBits(bits[..n])
    ensures bits[24..][n - 24..] == bits[n..]
  {
    hide FromBits;
    Pow2Values();
    assert bits[..n] == bits[..24] + bits[24..][..n - 24];
    FromBitsConcat(bits[..24], bits[24..][..n - 24]);
  }

  /** `n` bits of the packet as a number, least significant first. */
  method GetBits(f: Reader, n: nat, ghost v: View) returns (z: nat, ghost v': View)
    requires f.Sane() && f.validBits <= 32 && n <= 32 && (n <= 31 || f.validBits < 32)
    modifies f, f.segments
    ensures f.Sane() && f.validBits <= 32 && (n > 0 ==> f.validBits < 32)
    ensures old(f.validBits) >= n ==> f.validBits == old(f.validBits) - n
    ensures old(f.validBits) < n ==> f.validBits < 8
    ensures old(f.validBits) < 0 ==> z == 0
    ensures old(Ready(f, v) && Settled(f)) ==> Settled(f)
    ensures old(Ready(f, v) && f.validBits < 0) ==> BitsLeft(f, v') == old(BitsLeft(f, v)) && Cursor(f) == old(Cursor(f))
    ensures old(Ready(f, v)) ==> Ready(f, v') && After(v', f.lastSeg) == old(After(v, f.lastSeg))
    ensures old(Ready(f, v) && f.validBits >= 0) ==>
      && Took(old(BitsLeft(f, v)), n, BitsLeft(f, v'), f.validBits)
      && z == Value(old(BitsLeft(f, v)), old(f.validBits), n)
      && Cursor(f) == old(Cursor(f)) + Least(n, |old(BitsLeft(f, v))|)
  {
    hide Packet, After, Reader.Holds, FromBits, Ready, BitsLeft, Cursor;
    v' := v;
    if f.validBits < 0 { return 0, v; }
    ghost var ready, bits := Ready(f, v), BitsLeft(f, v);
    if f.validBits < n && n > 24 {
      var lo, hi;
      lo, v' := GetFew(f, 24, v);
      hi, v' := GetFew(f, n - 24, v');
      if n <= |bits| { SplitValue(bits, n); }
      return lo + hi * 0x100_0000, v';
    }
    EnoughLeft(f, v, n);
    z, v' := GetFew(f, n, v);
  }

  /** What is in the accumulator counts as left. */
  lemma EnoughLeft(f: Reader, v: View, n: nat)
    ensures n <= f.validBits ==> n <= |BitsLeft(f, v)|
  {
  }

  // ---- prep_huffman ----

  /** How many valid bits a refill leaves: whole bytes are added up to 32 bits, but only when at most 24
      bits are valid, and never beyond the end of the packet. */
  function Window(valid: int, total: nat): int {
    if valid > 24 || valid < 0 then valid
    else if (32 - valid) / 8 * 8 <= total - valid then valid + (32 - valid) / 8 * 8
    else total
  }

  /** The loop of the refill. */
  method Refill(f: Reader, ghost v: View) returns (ghost v': View)
    requires f.Sane() && 0 <= f.validBits <= 24 && (f.validBits == 0 ==> f.acc == 0)
    modifies f, f.segments
    ensures f.Sane() && old(f.validBits) <= f.validBits <= 32 && (f.validBits == 0 ==> f.acc == 0)
    ensures old(AccOk(f.acc, f.validBits)) ==> AccOk(f.acc, f.validBits)
    ensures old(Ready(f, v)) ==> Ready(f, v') && After(v', f.lastSeg) == old(After(v, f.lastSeg))
    ensures old(Ready(f, v)) ==> BitsLeft(f, v') == old(BitsLeft(f, v)) && Cursor(f) == old(Cursor(f))
    ensures old(Ready(f, v)) ==> f.validBits == Window(old(f.validBits), old(|BitsLeft(f, v)|))
  {
    hide Packet, After, Reader.Holds, Ready, BitsLeft, AccOk;
    v' := v;
    ghost var ready, bits, valid := Ready(f, v), BitsLeft(f, v), f.validBits;
    var more := true;
    while more && f.validBits <= 24
      invariant f.Sane() && 0 <= f.validBits <= 32 && (f.validBits == 0 ==> f.acc == 0)
      invariant old(AccOk(f.acc, f.validBits)) ==> AccOk(f.acc, f.validBits)
      invariant f.validBits >= valid && (f.validBits - valid) % 8 == 0
      invariant ready ==> Ready(f, v') && BitsLeft(f, v') == bits && After(v', f.lastSeg) == old(After(v, f.lastSeg))
      invariant Cursor(f) == old(Cursor(f))
      invariant ready && !more ==> f.validBits == |bits|
      decreases more, 32 - f.validBits
    {
      if f.lastSeg && f.bytesInSeg == 0 {
        more := false;
      } else {
        more, v' := PullByte(f, v');
      }
      if !more { PacketOver(f, v'); }
    }
    LeftLength(f, v');
    if ready { FillsUp(valid, f.validBits, |bits|); }
  }

  /** Fills the accumulator; the bits left stay the same. */
  method PrepHuffman(f: Reader, ghost v: View) returns (ghost v': View)
    requires f.Sane() && -1 <= f.validBits <= 32 && (f.validBits < 0 ==> f.lastSeg && f.bytesInSeg == 0)
    modifies f, f.segments
    ensures f.Sane() && -1 <= f.validBits <= 32
    ensures old(Settled(f)) ==> Settled(f)
    ensures old(f.validBits) < 0 ==>
      f.validBits == old(f.validBits) && f.acc == old(f.acc) && f.lastSeg == old(f.lastSeg) && f.bytesInSeg == old(f.bytesInSeg)
    ensures old(f.validBits) >= 0 ==> f.validBits >= old(f.validBits)
    ensures f.validBits == 0 ==> f.acc == 0
    ensures old(Ready(f, v)) ==> Ready(f, v') && After(v', f.lastSeg) == old(After(v, f.lastSeg))
    ensures old(Ready(f, v)) ==> BitsLeft(f, v') == old(BitsLeft(f, v)) && Cursor(f) == old(Cursor(f))
    ensures old(Ready(f, v)) ==> f.validBits == Window(old(f.validBits), old(|BitsLeft(f, v)|))
  {
    hide Packet, After, Reader.Holds, PacketBits, AccBits;
    v' := v;
    if f.validBits > 24 { return; }
    if f.validBits < 0 { return; }
    if f.validBits == 0 { f.acc := 0; }
    AccEmpty(f.acc);
    AccEmpty(old(f.acc));
    v' := Refill(f, v);
    if AccOk(f.acc, f.validBits) { AccInWord(f.acc, f.validBits); }
  }

  lemma PacketOver(f: Reader, v: View)
    ensures Ready(f, v) && f.lastSeg && f.bytesInSeg == 0 && f.validBits >= 0 ==> |BitsLeft(f, v)| == f.validBits
  {
  }

  lemma LeftLength(f: Reader, v: View)
    ensures f.validBits >= 0 ==> |BitsLeft(f, v)| == f.validBits + 8 * |Packet(v, f.lastSeg)|
  {
  }

  lemma FillsUp(valid: nat, now: nat, total: nat)
    requires valid <= 24 && valid <= now <= 32 && (now - valid) % 8 == 0 && now <= total
    ensures (now > 24 || now == total) ==> now == Window(valid, total)
  {
    var k := (32 - valid) / 8;
    assert 24 < valid + 8 * k <= 32;
    if now > 24 { assert now == valid + 8 * k; }
  }
}
