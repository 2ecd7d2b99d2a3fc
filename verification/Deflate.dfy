/** The reference inflater: a machine that reads one item at a time from the whole stream, with no
    buffering.  An item is a fixed number of bits or one Huffman symbol; between items the machine
    emits bytes one by one.  The control states are the points at which the coroutine can suspend. */
module Deflate {
  import opened Bits
  import opened Canonical

  /** What the caller fixes for a whole stream: the zlib wrapper, and whether the output buffer is a
      ring of `size` bytes or holds everything. */
  datatype Mode = Mode(zlib: bool, wrap: bool, size: nat)

  /** The codes of a compressed block and whether it is the last block. */
  datatype Codes = Codes(final: bool, lit: seq<nat>, dist: seq<nat>)

  datatype Ctl =
    | ZHead0
    | ZHead1(cmf: nat)
    | BlockHead
    | StoredAlign(final: bool)
    | StoredHead(final: bool, hdr: seq<nat>)
    | Stored(final: bool, left: nat)
    | StoredByte(final: bool, left: nat, b: Byte)
    | DynHead(final: bool, sizes: seq<nat>)
    | DynLens(final: bool, sizes: seq<nat>, read: nat, clens: seq<nat>)
    | DynCodes(final: bool, sizes: seq<nat>, clens: seq<nat>, got: seq<nat>)
    | DynRepeat(final: bool, sizes: seq<nat>, clens: seq<nat>, got: seq<nat>, sym: nat)
    | Block(codes: Codes)
    | Literal(codes: Codes, b: Byte)
    | LengthExtra(codes: Codes, sym: nat)
    | Distance(codes: Codes, len: nat)
    | DistanceExtra(codes: Codes, len: nat, sym: nat)
    | Copy(codes: Codes, len: nat, dist: nat)
    | TrailAlign
    | Trailer(read: nat, z: nat)
    | Done(z: nat)
    | Failed
    | Malformed

  datatype State = State(ctl: Ctl, pos: nat, out: seq<Byte>)

  // ---- the tables of RFC 1951, section 3.2.5 ----

  const LENGTH_BASE: seq<nat> := [
    3, 4, 5, 6, 7, 8, 9, 10, 11, 13, 15, 17, 19, 23, 27, 31,
    35, 43, 51, 59, 67, 83, 99, 115, 131, 163, 195, 227, 258, 0, 0]
  const LENGTH_EXTRA: seq<nat> := [
    0, 0, 0, 0, 0, 0, 0, 0, 1, 1, 1, 1, 2, 2, 2, 2,
    3, 3, 3, 3, 4, 4, 4, 4, 5, 5, 5, 5, 0, 0, 0]
  const DIST_BASE: seq<nat> := [
    1, 2, 3, 4, 5, 7, 9, 13, 17, 25, 33, 49, 65, 97, 129, 193,
    257, 385, 513, 769, 1025, 1537, 2049, 3073, 4097, 6145, 8193, 12289, 16385, 24577, 0, 0]
  const DIST_EXTRA: seq<nat> := [
    0, 0, 0, 0, 1, 1, 2, 2, 3, 3, 4, 4, 5, 5, 6, 6,
    7, 7, 8, 8, 9, 9, 10, 10, 11, 11, 12, 12, 13, 13, 0, 0]
  const ZIGZAG: seq<nat> := [16, 17, 18, 0, 8, 7, 9, 6, 10, 5, 11, 4, 12, 3, 13, 2, 14, 1, 15]
  const HEAD_BITS: seq<nat> := [5, 5, 4]
  const HEAD_MIN: seq<nat> := [257, 1, 4]
  const REPEAT_BITS: seq<nat> := [2, 3, 7]
  const REPEAT_MIN: seq<nat> := [3, 3, 11]

  function LengthBase(sym: nat): (n: nat)
    requires 257 <= sym < 288
    ensures n <= 258
  {
    LENGTH_BASE[sym - 257]
  }

  function LengthExtraBits(sym: nat): (n: nat)
    requires 257 <= sym < 288
    ensures n <= 5
  {
    LENGTH_EXTRA[sym - 257]
  }

  function DistBase(sym: nat): nat
    requires sym < 32
  {
    DIST_BASE[sym]
  }

  function DistExtraBits(sym: nat): (n: nat)
    requires sym < 32
    ensures n <= 13
  {
    DIST_EXTRA[sym]
  }

  /** The `i`-th code length in transmission order belongs to this symbol. */
  function Zigzag(i: nat): (s: nat)
    requires i < 19
    ensures s < 19
  {
    ZIGZAG[i]
  }

  function HeadBits(i: nat): (n: nat)
    requires i < 3
    ensures 0 < n <= 5
  {
    HEAD_BITS[i]
  }

  function HeadMin(i: nat): nat
    requires i < 3
  {
    HEAD_MIN[i]
  }

  function RepeatBits(sym: nat): (n: nat)
    requires 16 <= sym <= 18
    ensures 0 < n <= 7
  {
    REPEAT_BITS[sym - 16]
  }

  function RepeatMin(sym: nat): (n: nat)
    requires 16 <= sym <= 18
    ensures n >= 3
  {
    REPEAT_MIN[sym - 16]
  }

  function Repeat<T>(x: T, n: nat): (s: seq<T>)
    ensures |s| == n && forall i :: 0 <= i < n ==> s[i] == x
  {
    seq(n, _ => x)
  }

  const FIXED_LIT: seq<nat> := Repeat(8, 144) + Repeat(9, 112) + Repeat(7, 24) + Repeat(8, 8)
  const FIXED_DIST: seq<nat> := Repeat(5, 32)

  /** The code-length check made before tables are built. */
  ghost predicate Usable(lens: seq<nat>) {
    ValidLengths(lens) && (Complete(lens) || Single(lens))
  }

  // ---- well-formed control states ----

  ghost predicate CodesOk(c: Codes) {
    && |c.lit| <= 288 && |c.dist| <= 32
    && Usable(c.lit) && Usable(c.dist)
  }

  ghost predicate SizesOk(sizes: seq<nat>) {
    |sizes| == 3 && sizes[0] <= 288 && 0 < sizes[1] <= 32 && 0 < sizes[2] <= 19
  }

  ghost predicate CtlOk(ctl: Ctl) {
    match ctl
    case StoredHead(_, hdr) => |hdr| < 4
    case Stored(_, left) => 0 < left
    case StoredByte(_, left, _) => 0 < left
    case DynHead(_, sizes) => |sizes| < 3 && (|sizes| > 0 ==> sizes[0] <= 288) && (|sizes| > 1 ==> 0 < sizes[1] <= 32)
    case DynLens(_, sizes, read, clens) => SizesOk(sizes) && read < sizes[2] && |clens| == 19 && ValidLengths(clens)
    case DynCodes(_, sizes, clens, got) =>
      SizesOk(sizes) && |clens| == 19 && Usable(clens) && |got| < sizes[0] + sizes[1] && ValidLengths(got)
    case DynRepeat(_, sizes, clens, got, sym) =>
      && SizesOk(sizes) && |clens| == 19 && Usable(clens) && |got| < sizes[0] + sizes[1] && ValidLengths(got)
      && 16 <= sym <= 18 && (sym == 16 ==> got != [])
    case Block(c) => CodesOk(c)
    case Literal(c, _) => CodesOk(c)
    case LengthExtra(c, sym) => CodesOk(c) && 257 <= sym < 288 && LengthExtraBits(sym) > 0
    case Distance(c, _) => CodesOk(c)
    case DistanceExtra(c, _, sym) => CodesOk(c) && sym < 32 && DistExtraBits(sym) > 0
    case Copy(c, len, dist) => CodesOk(c) && 0 < len && 0 < dist
    case Trailer(read, _) => read < 4
    case _ => true
  }

  // ---- what each control state asks for ----

  /** The length of the fixed-size item read in this state, or 0 when none is. */
  function ItemBits(ctl: Ctl): (n: nat)
    requires CtlOk(ctl)
    ensures n <= 13
  {
    match ctl
    case ZHead0 => 8
    case ZHead1(_) => 8
    case BlockHead => 3
    case StoredHead(_, _) => 8
    case Stored(_, _) => 8
    case DynHead(_, sizes) => HeadBits(|sizes|)
    case DynLens(_, _, _, _) => 3
    case DynRepeat(_, _, _, _, sym) => RepeatBits(sym)
    case LengthExtra(_, sym) => LengthExtraBits(sym)
    case DistanceExtra(_, _, sym) => DistExtraBits(sym)
    case Trailer(_, _) => 8
    case _ => 0
  }

  predicate WantsSymbol(ctl: Ctl) { ctl.DynCodes? || ctl.Block? || ctl.Distance? }

  function SymbolLens(ctl: Ctl): seq<nat>
    requires WantsSymbol(ctl)
  {
    match ctl
    case DynCodes(_, _, clens, _) => clens
    case Block(c) => c.lit
    case Distance(c, _) => c.dist
  }

  predicate Emits(ctl: Ctl) { ctl.StoredByte? || ctl.Literal? || ctl.Copy? }

  // ---- the transitions ----

  function AfterBlock(final: bool): Ctl { if final then TrailAlign else BlockHead }

  function StoredNext(final: bool, left: nat): Ctl {
    if left == 0 then AfterBlock(final) else Stored(final, left)
  }

  function Word(lo: nat, hi: nat): nat { lo + 256 * hi }

  predicate ZlibHeaderBad(m: Mode, cmf: nat, flg: nat) {
    || (cmf * 256 + flg) % 31 != 0
    || flg / 32 % 2 == 1
    || cmf % 16 != 8
    || (m.wrap && (Pow2(8 + cmf / 16) > 32768 || m.size < Pow2(8 + cmf / 16)))
  }

  ghost function EnterCodes(final: bool, lit: seq<nat>, dist: seq<nat>): Ctl {
    if Usable(dist) && Usable(lit) then Block(Codes(final, lit, dist)) else Failed
  }

  ghost function AfterCode(final: bool, sizes: seq<nat>, clens: seq<nat>, got: seq<nat>): Ctl
    requires SizesOk(sizes)
  {
    if |got| < sizes[0] + sizes[1] then DynCodes(final, sizes, clens, got)
    else if |got| != sizes[0] + sizes[1] then Failed
    else EnterCodes(final, got[..sizes[0]], got[sizes[0]..])
  }

  /** A match is checked against the bytes that exist before it is copied. */
  function StartCopy(m: Mode, codes: Codes, len: nat, dist: nat, have: nat): Ctl {
    if m.wrap then
      if dist == 0 || dist > have || dist > m.size then Malformed
      else if len == 0 then Block(codes) else Copy(codes, len, dist)
    else
      if dist == 0 || dist > have then Failed
      else if len == 0 then Block(codes) else Copy(codes, len, dist)
  }

  ghost function OpenBlock(final: bool, kind: nat): Ctl {
    if kind == 0 then StoredAlign(final)
    else if kind == 3 then Failed
    else if kind == 1 then EnterCodes(final, FIXED_LIT, FIXED_DIST)
    else DynHead(final, [])
  }

  function AfterStoredHead(final: bool, hdr: seq<nat>): Ctl {
    if |hdr| < 4 then StoredHead(final, hdr)
    else if Word(hdr[0], hdr[1]) != 0xFFFF - Word(hdr[2], hdr[3]) then Failed
    else StoredNext(final, Word(hdr[0], hdr[1]))
  }

  function AfterSize(final: bool, sizes: seq<nat>): Ctl {
    if |sizes| < 3 then DynHead(final, sizes) else DynLens(final, sizes, 0, Repeat(0, 19))
  }

  ghost function AfterLen(final: bool, sizes: seq<nat>, read: nat, clens: seq<nat>): Ctl
    requires |sizes| == 3
  {
    if read < sizes[2] then DynLens(final, sizes, read, clens)
    else if Usable(clens) then DynCodes(final, sizes, clens, [])
    else Failed
  }

  /** Symbol 16 repeats the previous length, 17 and 18 repeat zero. */
  function RunOf(got: seq<nat>, sym: nat, v: nat): seq<nat>
    requires 16 <= sym <= 18 && (sym == 16 ==> got != [])
  {
    Repeat(if sym == 16 then got[|got| - 1] else 0, v + RepeatMin(sym))
  }

  /** The state after a fixed-size item with value `v`. */
  ghost function OnBits(m: Mode, ctl: Ctl, v: nat, have: nat): Ctl
    requires CtlOk(ctl) && ItemBits(ctl) > 0
  {
    match ctl
    case ZHead0 => ZHead1(v)
    case ZHead1(cmf) => if ZlibHeaderBad(m, cmf, v) then Failed else BlockHead
    case BlockHead => OpenBlock(v % 2 == 1, v / 2)
    case StoredHead(final, hdr) => AfterStoredHead(final, hdr + [v])
    case Stored(final, left) => StoredByte(final, left, v % 256)
    case DynHead(final, sizes) => AfterSize(final, sizes + [v + HeadMin(|sizes|)])
    case DynLens(final, sizes, read, clens) => AfterLen(final, sizes, read + 1, clens[Zigzag(read) := v])
    case DynRepeat(final, sizes, clens, got, sym) => AfterCode(final, sizes, clens, got + RunOf(got, sym, v))
    case LengthExtra(codes, sym) => Distance(codes, LengthBase(sym) + v)
    case DistanceExtra(codes, len, sym) => StartCopy(m, codes, len, DistBase(sym) + v, have)
    case Trailer(read, z) => if read < 3 then Trailer(read + 1, z * 256 + v) else Done(z * 256 + v)
  }

  function OnLitLen(codes: Codes, s: nat): Ctl
    requires s < 288
  {
    if s < 256 then Literal(codes, s)
    else if s == 256 then AfterBlock(codes.final)
    else if LengthExtraBits(s) > 0 then LengthExtra(codes, s)
    else Distance(codes, LengthBase(s))
  }

  function OnDistance(m: Mode, codes: Codes, len: nat, s: nat, have: nat): Ctl
    requires s < 32
  {
    if DistExtraBits(s) > 0 then DistanceExtra(codes, len, s) else StartCopy(m, codes, len, DistBase(s), have)
  }

  ghost function OnCodeLen(final: bool, sizes: seq<nat>, clens: seq<nat>, got: seq<nat>, s: nat): Ctl
    requires SizesOk(sizes)
  {
    if s < 16 then AfterCode(final, sizes, clens, got + [s])
    else if s == 16 && got == [] then Failed
    else DynRepeat(final, sizes, clens, got, s)
  }

  /** The state after symbol `s`. */
  ghost function OnSymbol(m: Mode, ctl: Ctl, s: nat, have: nat): Ctl
    requires CtlOk(ctl) && WantsSymbol(ctl) && s < |SymbolLens(ctl)|
  {
    match ctl
    case DynCodes(final, sizes, clens, got) => OnCodeLen(final, sizes, clens, got, s)
    case Block(codes) => OnLitLen(codes, s)
    case Distance(codes, len) => OnDistance(m, codes, len, s, have)
  }

  function EmitByte(ctl: Ctl, out: seq<Byte>): Byte
    requires Emits(ctl) && (ctl.Copy? ==> 0 < ctl.dist <= |out|)
  {
    match ctl
    case StoredByte(_, _, b) => b
    case Literal(_, b) => b
    case Copy(_, _, d) => out[|out| - d]
  }

  function AfterEmit(ctl: Ctl): Ctl
    requires CtlOk(ctl) && Emits(ctl)
  {
    match ctl
    case StoredByte(final, left, _) => StoredNext(final, left - 1)
    case Literal(codes, _) => Block(codes)
    case Copy(codes, len, d) => if len == 1 then Block(codes) else Copy(codes, len - 1, d)
  }

  function AfterAlign(m: Mode, ctl: Ctl): Ctl
    requires ctl.StoredAlign? || ctl.TrailAlign?
  {
    if ctl.StoredAlign? then StoredHead(ctl.final, [])
    else if m.zlib then Trailer(0, 0) else Done(0)
  }

  function RoundUp(pos: nat): nat { (pos + 7) / 8 * 8 }

  // ---- the machine ----

  ghost predicate StateOk(m: Mode, data: seq<Byte>, st: State) {
    && CtlOk(st.ctl)
    && st.pos <= 8 * |data|
    && (st.ctl.Copy? ==> Reaches(m, st.ctl.dist, |st.out|))
  }

  /** The unread part of the stream. */
  ghost function Rest(data: seq<Byte>, pos: nat): seq<bool>
    requires pos <= 8 * |data|
  {
    Slice(data, pos, 8 * |data|)
  }

  /** The bits that are left could still grow into some symbol's code. */
  ghost predicate CouldBegin(lens: seq<nat>, w: seq<bool>) {
    exists s :: 0 <= s < |lens| && lens[s] > 0 && w <= Code(lens, s)
  }

  ghost function TakeSymbol(m: Mode, data: seq<Byte>, st: State, s: nat): State
    requires StateOk(m, data, st) && WantsSymbol(st.ctl) && Begins(SymbolLens(st.ctl), s, Rest(data, st.pos))
  {
    State(OnSymbol(m, st.ctl, s, |st.out|), st.pos + SymbolLens(st.ctl)[s], st.out)
  }

  ghost function AfterItem(m: Mode, st: State, v: nat): State
    requires CtlOk(st.ctl) && ItemBits(st.ctl) > 0
  {
    State(OnBits(m, st.ctl, v, |st.out|), st.pos + ItemBits(st.ctl), st.out)
  }

  /** One step.  A machine that lacks input, has finished or has failed stays where it is. */
  ghost function Step(m: Mode, data: seq<Byte>, st: State): State
    requires StateOk(m, data, st)
  {
    if ItemBits(st.ctl) > 0 then
      var n := ItemBits(st.ctl);
      if st.pos + n > 8 * |data| then st else AfterItem(m, st, FromBits(Slice(data, st.pos, st.pos + n)))
    else if WantsSymbol(st.ctl) then
      var rest := Rest(data, st.pos);
      if s :| Begins(SymbolLens(st.ctl), s, rest) then TakeSymbol(m, data, st, s)
      else if CouldBegin(SymbolLens(st.ctl), rest) then st
      else State(Malformed, st.pos, st.out)
    else if Emits(st.ctl) then
      State(AfterEmit(st.ctl), st.pos, st.out + [EmitByte(st.ctl, st.out)])
    else if st.ctl.StoredAlign? || st.ctl.TrailAlign? then
      State(AfterAlign(m, st.ctl), RoundUp(st.pos), st.out)
    else st
  }

  // ---- every step keeps the state well formed ----

  lemma EnterCodesOk(final: bool, lit: seq<nat>, dist: seq<nat>)
    requires |lit| <= 288 && |dist| <= 32
    ensures CtlOk(EnterCodes(final, lit, dist))
  {
  }

  lemma AfterCodeOk(final: bool, sizes: seq<nat>, clens: seq<nat>, got: seq<nat>)
    requires SizesOk(sizes) && |clens| == 19 && Usable(clens) && ValidLengths(got)
    ensures CtlOk(AfterCode(final, sizes, clens, got))
  {
    hide Usable;
    if |got| == sizes[0] + sizes[1] {
      EnterCodesOk(final, got[..sizes[0]], got[sizes[0]..]);
    }
  }

  lemma OnRepeatOk(final: bool, sizes: seq<nat>, clens: seq<nat>, got: seq<nat>, sym: nat, v: nat)
    requires SizesOk(sizes) && |clens| == 19 && Usable(clens) && ValidLengths(got)
    requires 16 <= sym <= 18 && (sym == 16 ==> got != [])
    ensures CtlOk(AfterCode(final, sizes, clens, got + RunOf(got, sym, v)))
  {
    hide Usable;
    AfterCodeOk(final, sizes, clens, got + RunOf(got, sym, v));
  }

  lemma OnLenOk(final: bool, sizes: seq<nat>, read: nat, clens: seq<nat>, v: nat)
    requires SizesOk(sizes) && read < sizes[2] && |clens| == 19 && ValidLengths(clens) && v < 8
    ensures CtlOk(AfterLen(final, sizes, read + 1, clens[Zigzag(read) := v]))
  {
    hide Usable;
  }

  lemma OnSizeOk(final: bool, sizes: seq<nat>, v: nat)
    requires |sizes| < 3 && (|sizes| > 0 ==> sizes[0] <= 288) && (|sizes| > 1 ==> 0 < sizes[1] <= 32)
    requires v < Pow2(HeadBits(|sizes|))
    ensures CtlOk(AfterSize(final, sizes + [v + HeadMin(|sizes|)]))
  {
    Pow2Values();
  }

  lemma StartCopyOk(m: Mode, codes: Codes, len: nat, dist: nat, have: nat)
    requires CodesOk(codes)
    ensures CtlOk(StartCopy(m, codes, len, dist, have))
  {
    hide CodesOk;
  }

  lemma OpenBlockOk(final: bool, kind: nat)
    ensures CtlOk(OpenBlock(final, kind))
  {
    hide EnterCodes;
    EnterCodesOk(final, FIXED_LIT, FIXED_DIST);
  }

  lemma OnDynBitsOk(m: Mode, ctl: Ctl, v: nat, have: nat)
    requires CtlOk(ctl) && (ctl.DynHead? || ctl.DynLens? || ctl.DynRepeat?) && v < Pow2(ItemBits(ctl))
    ensures CtlOk(OnBits(m, ctl, v, have))
  {
    hide Usable, SizesOk, AfterCode, AfterLen, AfterSize;
    if ctl.DynHead? {
      OnSizeOk(ctl.final, ctl.sizes, v);
    } else if ctl.DynLens? {
      assert v < 8 by { Pow2Values(); }
      OnLenOk(ctl.final, ctl.sizes, ctl.read, ctl.clens, v);
    } else {
      OnRepeatOk(ctl.final, ctl.sizes, ctl.clens, ctl.got, ctl.sym, v);
    }
  }

  lemma OnPlainBitsOk(m: Mode, ctl: Ctl, v: nat, have: nat)
    requires CtlOk(ctl) && ItemBits(ctl) > 0 && !ctl.DynHead? && !ctl.DynLens? && !ctl.DynRepeat?
    ensures CtlOk(OnBits(m, ctl, v, have))
  {
    hide CodesOk, OpenBlock, ZlibHeaderBad, StartCopy, ItemBits, LengthBase, DistBase;
    if ctl.BlockHead? {
      OpenBlockOk(v % 2 == 1, v / 2);
    } else if ctl.DistanceExtra? {
      StartCopyOk(m, ctl.codes, ctl.len, DistBase(ctl.sym) + v, have);
    }
  }

  lemma OnBitsOk(m: Mode, ctl: Ctl, v: nat, have: nat)
    requires CtlOk(ctl) && ItemBits(ctl) > 0 && v < Pow2(ItemBits(ctl))
    ensures CtlOk(OnBits(m, ctl, v, have))
  {
    hide CtlOk, OnBits, ItemBits;
    if ctl.DynHead? || ctl.DynLens? || ctl.DynRepeat? {
      OnDynBitsOk(m, ctl, v, have);
    } else {
      OnPlainBitsOk(m, ctl, v, have);
    }
  }

  lemma OnSymbolOk(m: Mode, ctl: Ctl, s: nat, have: nat)
    requires CtlOk(ctl) && WantsSymbol(ctl) && s < |SymbolLens(ctl)|
    ensures CtlOk(OnSymbol(m, ctl, s, have))
  {
    hide Usable, AfterCode, StartCopy;
    match ctl
    case DynCodes(final, sizes, clens, got) => if s < 16 { AfterCodeOk(final, sizes, clens, got + [s]); }
    case Block(codes) =>
    case Distance(codes, len) => StartCopyOk(m, codes, len, DistBase(s), have);
  }

  /** A copy that starts has its source within reach. */
  lemma CopyReaches(m: Mode, ctl: Ctl, v: nat, have: nat)
    requires CtlOk(ctl)
    ensures ItemBits(ctl) > 0 && OnBits(m, ctl, v, have).Copy? ==> Reaches(m, OnBits(m, ctl, v, have).dist, have)
    ensures WantsSymbol(ctl) && v < |SymbolLens(ctl)| && OnSymbol(m, ctl, v, have).Copy? ==>
      Reaches(m, OnSymbol(m, ctl, v, have).dist, have)
  {
    hide Usable, ZlibHeaderBad;
  }

  predicate Reaches(m: Mode, dist: nat, have: nat) {
    dist <= have && (m.wrap ==> dist <= m.size)
  }

  lemma StepOk(m: Mode, data: seq<Byte>, st: State)
    requires StateOk(m, data, st)
    ensures StateOk(m, data, Step(m, data, st))
  {
    hide OnBits, OnSymbol, Usable;
    if ItemBits(st.ctl) > 0 {
      var n := ItemBits(st.ctl);
      if st.pos + n <= 8 * |data| {
        var v := FromBits(Slice(data, st.pos, st.pos + n));
        FromBitsBound(Slice(data, st.pos, st.pos + n));
        OnBitsOk(m, st.ctl, v, |st.out|);
        CopyReaches(m, st.ctl, v, |st.out|);
      }
    } else if WantsSymbol(st.ctl) {
      forall s | Begins(SymbolLens(st.ctl), s, Rest(data, st.pos))
        ensures StateOk(m, data, TakeSymbol(m, data, st, s))
      {
        OnSymbolOk(m, st.ctl, s, |st.out|);
        CopyReaches(m, st.ctl, s, |st.out|);
      }
    }
  }

  function Start(m: Mode): State { State(if m.zlib then ZHead0 else BlockHead, 0, []) }

  /** The state after `n` steps from `st`. */
  ghost function Iter(m: Mode, data: seq<Byte>, st: State, n: nat): (r: State)
    requires StateOk(m, data, st)
    ensures StateOk(m, data, r)
    decreases n
  {
    if n == 0 then st
    else
      var p := Iter(m, data, st, n - 1);
      StepOk(m, data, p);
      Step(m, data, p)
  }

  predicate Terminal(ctl: Ctl) { ctl.Done? || ctl.Failed? || ctl.Malformed? }

  lemma TerminalStep(m: Mode, data: seq<Byte>, st: State)
    requires StateOk(m, data, st) && Terminal(st.ctl)
    ensures Step(m, data, st) == st
  {
  }

  lemma {:induction false} TerminalStays(m: Mode, data: seq<Byte>, st: State, n: nat, k: nat)
    requires StateOk(m, data, st) && n <= k && Terminal(Iter(m, data, st, n).ctl)
    ensures Iter(m, data, st, k) == Iter(m, data, st, n)
  {
    hide Step, StateOk;
    if n < k {
      TerminalStays(m, data, st, n, k - 1);
      TerminalStep(m, data, Iter(m, data, st, n));
    }
  }

  /** One step leads from `st` to `st'`. */
  ghost predicate Steps(m: Mode, data: seq<Byte>, st: State, st': State) {
    && StateOk(m, data, st)
    && StateOk(m, data, st')
    && Step(m, data, st) == st'
  }

  lemma StepsItem(m: Mode, data: seq<Byte>, st: State, v: nat)
    requires StateOk(m, data, st) && ItemBits(st.ctl) > 0 && st.pos + ItemBits(st.ctl) <= 8 * |data|
    requires v == FromBits(Slice(data, st.pos, st.pos + ItemBits(st.ctl)))
    ensures v < Pow2(ItemBits(st.ctl))
    ensures Steps(m, data, st, AfterItem(m, st, v))
  {
    hide OnBits, CtlOk;
    FromBitsBound(Slice(data, st.pos, st.pos + ItemBits(st.ctl)));
    StepOk(m, data, st);
  }

  // ---- the machine's output is bounded by its input ----

  /** Bytes already promised to the output. */
  function Owed(ctl: Ctl): nat {
    match ctl
    case StoredByte(_, _, _) => 1
    case Literal(_, _) => 1
    case Distance(_, len) => len
    case DistanceExtra(_, len, _) => len
    case Copy(_, len, _) => len
    case _ => 0
  }

  ghost function Budget(data: seq<Byte>, st: State): int {
    300 * (8 * |data| - st.pos) + Owed(st.ctl) + |st.out|
  }

  lemma OnBitsOwes(m: Mode, ctl: Ctl, v: nat, have: nat)
    requires CtlOk(ctl) && ItemBits(ctl) > 0 && v < Pow2(ItemBits(ctl))
    ensures Owed(OnBits(m, ctl, v, have)) <= Owed(ctl) + 300 * ItemBits(ctl)
  {
    hide Usable, CodesOk, SizesOk, ZlibHeaderBad, DistBase;
    if ctl.LengthExtra? {
      Pow2Mono(LengthExtraBits(ctl.sym), 5);
      Pow2Values();
    }
  }

  lemma OnSymbolOwes(m: Mode, ctl: Ctl, s: nat, have: nat)
    requires CtlOk(ctl) && WantsSymbol(ctl) && s < |SymbolLens(ctl)|
    ensures Owed(OnSymbol(m, ctl, s, have)) <= Owed(ctl) + 300
  {
    hide Usable, DistBase;
  }

  lemma StepBudget(m: Mode, data: seq<Byte>, st: State)
    requires StateOk(m, data, st)
    ensures Budget(data, Step(m, data, st)) <= Budget(data, st)
  {
    hide OnBits, OnSymbol, Usable, CodesOk;
    if ItemBits(st.ctl) > 0 {
      if st.pos + ItemBits(st.ctl) <= 8 * |data| {
        var w := Slice(data, st.pos, st.pos + ItemBits(st.ctl));
        FromBitsBound(w);
        OnBitsOwes(m, st.ctl, FromBits(w), |st.out|);
      }
    } else if WantsSymbol(st.ctl) {
      forall s | Begins(SymbolLens(st.ctl), s, Rest(data, st.pos))
        ensures Budget(data, TakeSymbol(m, data, st, s)) <= Budget(data, st)
      {
        OnSymbolOwes(m, st.ctl, s, |st.out|);
      }
    }
  }

  /** No stream expands more than 2400 times. */
  lemma {:induction false} OutputBound(m: Mode, data: seq<Byte>, k: nat)
    ensures Budget(data, Iter(m, data, Start(m), k)) <= 2400 * |data|
    ensures |Iter(m, data, Start(m), k).out| <= 2400 * |data|
    decreases k
  {
    hide Step;
    if k > 0 {
      OutputBound(m, data, k - 1);
      StepBudget(m, data, Iter(m, data, Start(m), k - 1));
    }
  }
}
