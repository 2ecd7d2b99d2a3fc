/** The inflater as a resumable coroutine.  Input arrives in chunks, bits are buffered ahead of the
    machine, output room may run out at any byte; the buffered state always denotes a position of
    the reference machine of module `Deflate` in the whole stream. */
module Inflate {
  import opened Bits
  import opened Canonical
  import opened Deflate
  import opened InflateTables
  import opened Window

  /** The registers of a running call. */
  datatype Frame = Frame(ctl: Ctl, bitBuf: nat, numBits: nat, inCur: nat, outCur: nat, dfs: nat)

  /** What a call is given, with the whole stream and the machine's state on entry for the proof. */
  datatype Call = Call(m: Mode, wide: bool, data: seq<Byte>, base: nat, inp: seq<Byte>,
                       outNext: nat, entryBits: nat, entry: State)

  /** The bit buffer has 64 bits, or 32 on narrow machines; this many are ever in use. */
  function MaxBits(wide: bool): nat { if wide then 61 else 30 }

  /** The item the machine waits for is longer than `k` bits. */
  ghost predicate Needs(data: seq<Byte>, g: State, k: nat) {
    && CtlOk(g.ctl)
    && g.pos + k <= 8 * |data|
    && if WantsSymbol(g.ctl) then NoSymbol(SymbolLens(g.ctl), Slice(data, g.pos, g.pos + k))
       else k < ItemBits(g.ctl)
  }

  ghost predicate NoSymbol(lens: seq<nat>, w: seq<bool>) {
    forall s {:trigger Code(lens, s)} :: 0 <= s < |lens| && lens[s] > 0 ==> !(Code(lens, s) <= w)
  }

  ghost predicate ByteAligned(ctl: Ctl) {
    ctl.ZHead0? || ctl.ZHead1? || ctl.StoredHead? || ctl.Stored? || ctl.StoredByte? || ctl.Trailer?
  }

  ghost predicate CallOk(c: Call) {
    && c.base + |c.inp| <= |c.data|
    && c.inp == c.data[c.base..c.base + |c.inp|]
    && StateOk(c.m, c.data, c.entry)
  }

  /** The buffered bits are exactly the stream bits between the machine and the input cursor. */
  ghost predicate Buffered(c: Call, f: Frame, g: State) {
    && f.inCur <= |c.inp|
    && g.pos + f.numBits == 8 * (c.base + f.inCur) <= 8 * |c.data|
    && f.bitBuf == FromBits(Slice(c.data, g.pos, g.pos + f.numBits))
    && f.numBits <= MaxBits(c.wide)
  }

  /** Either all but a partial byte of the buffer was read in this call and can be put back, or the
      machine has not moved since the call began and needs every bit it was left with. */
  ghost predicate Carry(c: Call, f: Frame, g: State) {
    || f.numBits < 8 + 8 * f.inCur
    || (g == c.entry && f.numBits == c.entryBits + 8 * f.inCur && Needs(c.data, g, c.entryBits))
  }

  ghost predicate InSync(c: Call, f: Frame, g: State) {
    && CallOk(c)
    && StateOk(c.m, c.data, g)
    && f.ctl == g.ctl
    && Buffered(c, f, g)
    && Carry(c, f, g)
  }

  // ---- reading input ----

  lemma ByteArrives(c: Call, f: Frame, g: State)
    requires CallOk(c) && Buffered(c, f, g) && f.inCur < |c.inp|
    ensures g.pos + f.numBits + 8 <= 8 * |c.data|
    ensures FromBits(Slice(c.data, g.pos, g.pos + f.numBits + 8)) == f.bitBuf + Pow2(f.numBits) * c.inp[f.inCur]
  {
    var k := c.base + f.inCur;
    SliceConcat(c.data, g.pos, g.pos + f.numBits, g.pos + f.numBits + 8);
    SliceByte(c.data, k);
    FromBitsConcat(Slice(c.data, g.pos, 8 * k), Slice(c.data, 8 * k, 8 * k + 8));
    assert c.inp[f.inCur] == c.data[k];
  }

  /** Appends one input byte to the bit buffer. */
  method PullByte(f: Frame, inp: seq<Byte>, ghost c: Call, ghost g: State) returns (f': Frame)
    requires InSync(c, f, g) && inp == c.inp && f.inCur < |inp| && f.numBits + 8 <= MaxBits(c.wide)
    ensures f' == f.(bitBuf := f'.bitBuf, numBits := f.numBits + 8, inCur := f.inCur + 1)
    ensures InSync(c, f', g)
  {
    hide StateOk, CallOk, Needs;
    ByteArrives(c, f, g);
    f' := f.(bitBuf := f.bitBuf + inp[f.inCur] * Pow2(f.numBits), numBits := f.numBits + 8, inCur := f.inCur + 1);
    MulTwice(inp[f.inCur], Pow2(f.numBits));
  }

  /** Fills the buffer to at least `n` bits, or consumes all input. */
  method NeedBits(f0: Frame, inp: seq<Byte>, n: nat, ghost c: Call, ghost g: State) returns (f: Frame)
    requires InSync(c, f0, g) && inp == c.inp && n <= 15
    ensures f == f0.(bitBuf := f.bitBuf, numBits := f.numBits, inCur := f.inCur)
    ensures InSync(c, f, g)
    ensures f.numBits >= n || (f.inCur == |inp| && f.numBits < n)
  {
    hide StateOk, CallOk, Needs, Carry;
    f := f0;
    while f.numBits < n && f.inCur < |inp|
      invariant f == f0.(bitBuf := f.bitBuf, numBits := f.numBits, inCur := f.inCur)
      invariant f.inCur <= |inp| && InSync(c, f, g)
      decreases |inp| - f.inCur
    {
      f := PullByte(f, inp, c, g);
    }
  }

  // ---- the decoding tables that go with a control state ----

  datatype Tabs = Tabs(litLook: seq<int>, litTree: seq<int>, distLook: seq<int>, distTree: seq<int>,
                       lenLook: seq<int>, lenTree: seq<int>)

  datatype TabNodes = TabNodes(lit: Nodes, dist: Nodes, len: Nodes)

  predicate InBlock(ctl: Ctl) {
    ctl.Block? || ctl.Literal? || ctl.LengthExtra? || ctl.Distance? || ctl.DistanceExtra? || ctl.Copy?
  }

  ghost predicate CodesReady(codes: Codes, t: Tabs, n: TabNodes) {
    Ready(codes.lit, t.litLook, t.litTree, n.lit) && Ready(codes.dist, t.distLook, t.distTree, n.dist)
  }

  ghost predicate LensReady(clens: seq<nat>, t: Tabs, n: TabNodes) {
    Ready(clens, t.lenLook, t.lenTree, n.len)
  }

  ghost predicate TabsOk(ctl: Ctl, t: Tabs, n: TabNodes) {
    && (InBlock(ctl) ==> CodesReady(ctl.codes, t, n))
    && (ctl.DynCodes? || ctl.DynRepeat? ==> LensReady(ctl.clens, t, n))
  }

  /** Builds the distance table, then the literal and length table, and enters the block. */
  method ExecEnter(final: bool, lit: seq<nat>, dist: seq<nat>, t0: Tabs, ghost n0: TabNodes)
    returns (ctl: Ctl, t: Tabs, ghost n: TabNodes)
    requires ValidLengths(lit) && ValidLengths(dist) && |lit| <= 288 && |dist| <= 32
    ensures ctl == EnterCodes(final, lit, dist) && TabsOk(ctl, t, n)
  {
    hide Kraft, Complete, Single, TablesOk, ValidLengths;
    t, n := t0, n0;
    var ok, look, tree;
    ghost var nodes;
    ok, look, tree, nodes := Build(dist, 32);
    if !ok { return Failed, t, n; }
    t, n := t.(distLook := look, distTree := tree), n.(dist := nodes);
    ok, look, tree, nodes := Build(lit, 288);
    if !ok { return Failed, t, n; }
    t, n := t.(litLook := look, litTree := tree), n.(lit := nodes);
    ctl := Block(Codes(final, lit, dist));
  }

  method ExecAfterLen(final: bool, sizes: seq<nat>, read: nat, clens: seq<nat>, t0: Tabs, ghost n0: TabNodes)
    returns (ctl: Ctl, t: Tabs, ghost n: TabNodes)
    requires |sizes| == 3 && ValidLengths(clens) && |clens| == 19
    ensures ctl == AfterLen(final, sizes, read, clens) && TabsOk(ctl, t, n)
  {
    hide Kraft, Complete, Single, TablesOk, ValidLengths;
    t, n := t0, n0;
    if read < sizes[2] {
      ctl := DynLens(final, sizes, read, clens);
    } else {
      var ok, look, tree;
      ghost var nodes;
      ok, look, tree, nodes := Build(clens, 19);
      if ok {
        t, n := t.(lenLook := look, lenTree := tree), n.(len := nodes);
        ctl := DynCodes(final, sizes, clens, []);
      } else {
        ctl := Failed;
      }
    }
  }

  method ExecAfterCode(final: bool, sizes: seq<nat>, clens: seq<nat>, got: seq<nat>, t0: Tabs, ghost n0: TabNodes)
    returns (ctl: Ctl, t: Tabs, ghost n: TabNodes)
    requires SizesOk(sizes) && ValidLengths(got) && LensReady(clens, t0, n0)
    ensures ctl == AfterCode(final, sizes, clens, got) && TabsOk(ctl, t, n)
  {
    hide Ready, EnterCodes;
    t, n := t0, n0;
    if |got| < sizes[0] + sizes[1] {
      ctl := DynCodes(final, sizes, clens, got);
    } else if |got| != sizes[0] + sizes[1] {
      ctl := Failed;
    } else {
      ctl, t, n := ExecEnter(final, got[..sizes[0]], got[sizes[0]..], t, n);
    }
  }

  /** The distance check, which only a buffer that holds everything makes. */
  method ExecStartCopy(m: Mode, codes: Codes, len: nat, dist: nat, outCur: nat, ghost have: nat) returns (ctl: Ctl)
    requires !m.wrap ==> outCur == have
    requires !StartCopy(m, codes, len, dist, have).Malformed?
    ensures ctl == StartCopy(m, codes, len, dist, have)
    ensures InBlock(ctl) ==> ctl.codes == codes
    ensures !ctl.DynCodes? && !ctl.DynRepeat?
  {
    if (dist == 0 || dist > outCur || outCur == 0) && !m.wrap {
      ctl := Failed;
    } else {
      ctl := if len == 0 then Block(codes) else Copy(codes, len, dist);
    }
  }

  method ExecOpenBlock(final: bool, kind: nat, t0: Tabs, ghost n0: TabNodes)
    returns (ctl: Ctl, t: Tabs, ghost n: TabNodes)
    ensures ctl == OpenBlock(final, kind) && TabsOk(ctl, t, n)
  {
    hide EnterCodes, Ready;
    t, n := t0, n0;
    if kind == 0 {
      ctl := StoredAlign(final);
    } else if kind == 3 {
      ctl := Failed;
    } else if kind == 1 {
      ctl, t, n := ExecEnter(final, FIXED_LIT, FIXED_DIST, t, n);
    } else {
      ctl := DynHead(final, []);
    }
  }

  method ExecDynBits(ctl0: Ctl, v: nat, t0: Tabs, ghost n0: TabNodes, ghost m: Mode, ghost have: nat)
    returns (ctl: Ctl, t: Tabs, ghost n: TabNodes)
    requires CtlOk(ctl0) && (ctl0.DynHead? || ctl0.DynLens? || ctl0.DynRepeat?) && v < Pow2(ItemBits(ctl0))
    requires TabsOk(ctl0, t0, n0)
    ensures ctl == OnBits(m, ctl0, v, have) && TabsOk(ctl, t, n)
  {
    hide Ready, AfterCode, AfterLen, Usable;
    t, n := t0, n0;
    if ctl0.DynHead? {
      ctl := AfterSize(ctl0.final, ctl0.sizes + [v + HeadMin(|ctl0.sizes|)]);
    } else if ctl0.DynLens? {
      assert v < 8 by { Pow2Values(); }
      ctl, t, n := ExecLen(ctl0.final, ctl0.sizes, ctl0.read, ctl0.clens, v, t, n);
    } else {
      ctl, t, n := ExecRepeat(ctl0.final, ctl0.sizes, ctl0.clens, ctl0.got, ctl0.sym, v, t, n);
    }
  }

  method ExecLen(final: bool, sizes: seq<nat>, read: nat, clens: seq<nat>, v: nat, t0: Tabs, ghost n0: TabNodes)
    returns (ctl: Ctl, t: Tabs, ghost n: TabNodes)
    requires SizesOk(sizes) && read < sizes[2] && |clens| == 19 && ValidLengths(clens) && v < 8
    ensures ctl == AfterLen(final, sizes, read + 1, clens[Zigzag(read) := v]) && TabsOk(ctl, t, n)
  {
    hide AfterLen, Ready;
    ctl, t, n := ExecAfterLen(final, sizes, read + 1, clens[Zigzag(read) := v], t0, n0);
  }

  method ExecRepeat(final: bool, sizes: seq<nat>, clens: seq<nat>, got: seq<nat>, sym: nat, v: nat,
                    t0: Tabs, ghost n0: TabNodes)
    returns (ctl: Ctl, t: Tabs, ghost n: TabNodes)
    requires SizesOk(sizes) && ValidLengths(got) && LensReady(clens, t0, n0)
    requires 16 <= sym <= 18 && (sym == 16 ==> got != [])
    ensures ctl == AfterCode(final, sizes, clens, got + RunOf(got, sym, v)) && TabsOk(ctl, t, n)
  {
    hide AfterCode, Ready;
    ctl, t, n := ExecAfterCode(final, sizes, clens, got + RunOf(got, sym, v), t0, n0);
  }

  /** The control step after a fixed-size item. */
  method ExecBits(m: Mode, ctl0: Ctl, v: nat, outCur: nat, t0: Tabs, ghost n0: TabNodes, ghost have: nat)
    returns (ctl: Ctl, t: Tabs, ghost n: TabNodes)
    requires CtlOk(ctl0) && ItemBits(ctl0) > 0 && v < Pow2(ItemBits(ctl0))
    requires TabsOk(ctl0, t0, n0) && (!m.wrap ==> outCur == have)
    requires !OnBits(m, ctl0, v, have).Malformed?
    ensures ctl == OnBits(m, ctl0, v, have) && TabsOk(ctl, t, n)
  {
    hide Ready, OpenBlock, ZlibHeaderBad, CodesOk, StartCopy, LengthBase, DistBase;
    t, n := t0, n0;
    if ctl0.DynHead? || ctl0.DynLens? || ctl0.DynRepeat? {
      ctl, t, n := ExecDynBits(ctl0, v, t, n, m, have);
    } else if ctl0.BlockHead? {
      ctl, t, n := ExecOpenBlock(v % 2 == 1, v / 2, t, n);
    } else if ctl0.DistanceExtra? {
      ctl := ExecStartCopy(m, ctl0.codes, ctl0.len, DistBase(ctl0.sym) + v, outCur, have);
    } else {
      ctl := ExecPlainBits(m, ctl0, v, have);
    }
  }

  method ExecPlainBits(m: Mode, ctl0: Ctl, v: nat, ghost have: nat) returns (ctl: Ctl)
    requires CtlOk(ctl0) && ItemBits(ctl0) > 0
    requires !(ctl0.DynHead? || ctl0.DynLens? || ctl0.DynRepeat? || ctl0.BlockHead? || ctl0.DistanceExtra?)
    ensures ctl == OnBits(m, ctl0, v, have)
    ensures InBlock(ctl) ==> ctl0.LengthExtra? && ctl.codes == ctl0.codes
    ensures !ctl.DynCodes? && !ctl.DynRepeat?
  {
    hide CodesOk, ZlibHeaderBad, LengthBase;
    match ctl0
    case ZHead0 => ctl := ZHead1(v);
    case ZHead1(cmf) => ctl := if ZlibHeaderBad(m, cmf, v) then Failed else BlockHead;
    case StoredHead(final, hdr) => ctl := AfterStoredHead(final, hdr + [v]);
    case Stored(final, left) => ctl := StoredByte(final, left, v % 256);
    case LengthExtra(codes, sym) => ctl := Distance(codes, LengthBase(sym) + v);
    case Trailer(read, z) => ctl := if read < 3 then Trailer(read + 1, z * 256 + v) else Done(z * 256 + v);
  }

  /** The control step after a symbol. */
  method ExecSymbol(m: Mode, ctl0: Ctl, s: nat, outCur: nat, t0: Tabs, ghost n0: TabNodes, ghost have: nat)
    returns (ctl: Ctl, t: Tabs, ghost n: TabNodes)
    requires CtlOk(ctl0) && WantsSymbol(ctl0) && s < |SymbolLens(ctl0)|
    requires TabsOk(ctl0, t0, n0) && (!m.wrap ==> outCur == have)
    requires !OnSymbol(m, ctl0, s, have).Malformed?
    ensures ctl == OnSymbol(m, ctl0, s, have) && TabsOk(ctl, t, n)
  {
    hide Ready, AfterCode, Usable, StartCopy, LengthBase, DistBase;
    t, n := t0, n0;
    match ctl0
    case DynCodes(final, sizes, clens, got) =>
      if s < 16 {
        ctl, t, n := ExecAfterCode(final, sizes, clens, got + [s], t, n);
      } else if s == 16 && got == [] {
        ctl := Failed;
      } else {
        ctl := DynRepeat(final, sizes, clens, got, s);
      }
    case Block(codes) => ctl := OnLitLen(codes, s);
    case Distance(codes, len) =>
      if DistExtraBits(s) > 0 {
        ctl := DistanceExtra(codes, len, s);
      } else {
        ctl := ExecStartCopy(m, codes, len, DistBase(s), outCur, have);
      }
  }

  // ---- the reference run ----

  /** The machine is in state `g` after `k` steps from the start of the stream. */
  ghost predicate At(m: Mode, data: seq<Byte>, g: State, k: nat) {
    Iter(m, data, Start(m), k) == g
  }

  /** The stream never makes the machine decode an unassigned code or reach behind the window. */
  ghost predicate WellFormed(m: Mode, data: seq<Byte>) {
    forall n {:trigger Iter(m, data, Start(m), n)} :: !Iter(m, data, Start(m), n).ctl.Malformed?
  }

  lemma AtStep(m: Mode, data: seq<Byte>, g: State, k: nat, g': State)
    requires At(m, data, g, k) && Steps(m, data, g, g')
    ensures At(m, data, g', k + 1)
  {
    hide Step;
    assert Iter(m, data, Start(m), k + 1) == g';
  }

  lemma AtNext(m: Mode, data: seq<Byte>, g: State, k: nat, g': State)
    requires At(m, data, g, k) && WellFormed(m, data) && Steps(m, data, g, g')
    ensures At(m, data, g', k + 1) && !g'.ctl.Malformed?
  {
    hide Step;
    AtStep(m, data, g, k, g');
  }

  // ---- consuming an item ----

  ghost function Taken(f: Frame, ctl: Ctl, n: nat): Frame
    requires n <= f.numBits
  {
    ShiftNonNegative(f.bitBuf, n);
    f.(ctl := ctl, bitBuf := f.bitBuf / Pow2(n), numBits := f.numBits - n)
  }

  lemma SplitBuffer(c: Call, f: Frame, g: State, n: nat)
    requires Buffered(c, f, g) && n <= f.numBits
    ensures f.bitBuf % Pow2(n) == FromBits(Slice(c.data, g.pos, g.pos + n))
    ensures f.bitBuf / Pow2(n) == FromBits(Slice(c.data, g.pos + n, g.pos + f.numBits))
  {
    hide CallOk, StateOk, CtlOk, Pow2;
    var w := Slice(c.data, g.pos, g.pos + f.numBits);
    FromBitsSplit(w, n);
    assert w[..n] == Slice(c.data, g.pos, g.pos + n);
    assert w[n..] == Slice(c.data, g.pos + n, g.pos + f.numBits);
  }

  /** Taking `n` bits off the buffer follows the machine over an item of `n` bits. */
  lemma Consume(c: Call, f: Frame, g: State, n: nat, g': State)
    requires InSync(c, f, g) && StateOk(c.m, c.data, g')
    requires 0 < n <= f.numBits && g'.pos == g.pos + n
    requires Needs(c.data, g, c.entryBits) ==> c.entryBits < n
    ensures InSync(c, Taken(f, g'.ctl, n), g')
  {
    hide StateOk, CallOk, Needs, Slice;
    SplitBuffer(c, f, g, n);
  }

  lemma ItemIsStep(c: Call, f: Frame, g: State, v: nat)
    requires InSync(c, f, g) && 0 < ItemBits(g.ctl) <= f.numBits
    requires v == f.bitBuf % Pow2(ItemBits(g.ctl))
    ensures v < Pow2(ItemBits(g.ctl))
    ensures Steps(c.m, c.data, g, AfterItem(c.m, g, v))
    ensures InSync(c, Taken(f, AfterItem(c.m, g, v).ctl, ItemBits(g.ctl)), AfterItem(c.m, g, v))
  {
    hide OnBits, CtlOk, Step;
    SplitBuffer(c, f, g, ItemBits(g.ctl));
    StepsItem(c.m, c.data, g, v);
    Consume(c, f, g, ItemBits(g.ctl), AfterItem(c.m, g, v));
  }

  /** The window invariant of a running call. */
  ghost predicate Written(c: Call, f: Frame, g: State, buf: seq<Byte>) {
    && OutputOk(c, f.outCur, g.out, buf)
    && (g.ctl.Copy? ==> SourceOk(c.m, f.dfs, f.outCur))
  }

  /** What the call has appended to the history is what lies between its first byte and the cursor. */
  ghost predicate OutputOk(c: Call, outCur: nat, out: seq<Byte>, buf: seq<Byte>) {
    && c.outNext <= outCur <= |buf|
    && Mirrors(buf, outCur, out)
    && out == c.entry.out + buf[c.outNext..outCur]
    && (if c.m.wrap then |buf| == c.m.size else outCur == |out|)
  }

  /** The running source offset of a match agrees with the cursor, up to whole turns of the ring. */
  ghost predicate SourceOk(m: Mode, dfs: nat, outCur: nat) {
    if m.wrap then m.size > 0 && (dfs - outCur) % m.size == 0 else dfs == outCur
  }

  /** Everything known between two micro-steps of a call. */
  ghost predicate Live(c: Call, f: Frame, g: State, k: nat, t: Tabs, n: TabNodes, buf: seq<Byte>) {
    && WellFormed(c.m, c.data)
    && InSync(c, f, g)
    && At(c.m, c.data, g, k)
    && !g.ctl.Malformed?
    && TabsOk(g.ctl, t, n)
    && Written(c, f, g, buf)
  }

  // ---- symbols ----

  ghost function Pending(c: Call, f: Frame, g: State): seq<bool>
    requires Buffered(c, f, g)
  {
    Slice(c.data, g.pos, g.pos + f.numBits)
  }

  lemma UsableIsKraft(lens: seq<nat>)
    requires Usable(lens)
    ensures Kraft(lens)
  {
    if Single(lens) { SingleIsKraft(lens); }
  }

  lemma SymbolLensUsable(ctl: Ctl)
    requires CtlOk(ctl) && WantsSymbol(ctl)
    ensures Usable(SymbolLens(ctl))
  {
    hide Usable;
  }

  lemma StepsSymbol(m: Mode, data: seq<Byte>, g: State, s: nat)
    requires StateOk(m, data, g) && WantsSymbol(g.ctl) && Begins(SymbolLens(g.ctl), s, Rest(data, g.pos))
    ensures Steps(m, data, g, TakeSymbol(m, data, g, s))
  {
    hide OnSymbol, CtlOk, Usable;
    SymbolLensUsable(g.ctl);
    UsableIsKraft(SymbolLens(g.ctl));
    StepOk(m, data, g);
    forall t | Begins(SymbolLens(g.ctl), t, Rest(data, g.pos))
      ensures t == s
    {
      BeginsUnique(SymbolLens(g.ctl), s, t, Rest(data, g.pos));
    }
  }

  lemma MalformedStep(m: Mode, data: seq<Byte>, g: State)
    requires StateOk(m, data, g) && WantsSymbol(g.ctl)
    requires forall s :: !Begins(SymbolLens(g.ctl), s, Rest(data, g.pos))
    requires !CouldBegin(SymbolLens(g.ctl), Rest(data, g.pos))
    ensures Step(m, data, g).ctl.Malformed?
  {
    hide OnSymbol, CtlOk;
  }

  /** In a well-formed stream the buffered bits agree with the code of some symbol. */
  lemma PendingSymbol(c: Call, f: Frame, g: State, k: nat) returns (s: nat)
    requires WellFormed(c.m, c.data) && InSync(c, f, g) && At(c.m, c.data, g, k) && WantsSymbol(g.ctl)
    ensures Compatible(SymbolLens(g.ctl), s, Pending(c, f, g))
    ensures Begins(SymbolLens(g.ctl), s, Pending(c, f, g)) ==> Begins(SymbolLens(g.ctl), s, Rest(c.data, g.pos))
  {
    hide Step, CtlOk, Code, Carry, CallOk;
    var lens, rest, buf := SymbolLens(g.ctl), Rest(c.data, g.pos), Pending(c, f, g);
    assert buf <= rest by { assert rest[..|buf|] == buf; }
    if s' :| Begins(lens, s', rest) {
      s := s';
      ComparablePrefixes(Code(lens, s), buf, rest);
    } else if CouldBegin(lens, rest) {
      s :| 0 <= s < |lens| && lens[s] > 0 && rest <= Code(lens, s);
      assert buf <= Code(lens, s);
    } else {
      MalformedStep(c.m, c.data, g);
      StepOk(c.m, c.data, g);
      AtNext(c.m, c.data, g, k, Step(c.m, c.data, g));
    }
  }

  lemma ComparablePrefixes(a: seq<bool>, b: seq<bool>, w: seq<bool>)
    requires a <= w && b <= w
    ensures a <= b || b <= a
  {
    if |a| <= |b| { assert a == w[..|a|] == b[..|a|]; } else { assert b == w[..|b|] == a[..|b|]; }
  }

  /** The table that decodes the symbol the machine waits for. */
  ghost predicate TableFor(ctl: Ctl, look: seq<int>, tree: seq<int>, nodes: Nodes)
    requires WantsSymbol(ctl)
  {
    Ready(SymbolLens(ctl), look, tree, nodes)
  }

  /** Fills the bit buffer until it holds the pending code, reading one byte at a time; `resumed` is
      set when the call re-enters the coroutine here. */
  method FillForSymbol(f0: Frame, inp: seq<Byte>, look: seq<int>, tree: seq<int>, resumed: bool,
                       ghost nodes: Nodes, ghost c: Call, ghost g: State, ghost k: nat)
    returns (f: Frame, have: bool)
    requires WellFormed(c.m, c.data) && InSync(c, f0, g) && At(c.m, c.data, g, k)
    requires WantsSymbol(g.ctl) && TableFor(g.ctl, look, tree, nodes) && inp == c.inp
    requires f0.numBits < 15 && (resumed ==> Needs(c.data, g, f0.numBits))
    ensures f == f0.(bitBuf := f.bitBuf, numBits := f.numBits, inCur := f.inCur) && InSync(c, f, g)
    ensures have ==> f.numBits >= 15 || exists s :: Begins(SymbolLens(g.ctl), s, Pending(c, f, g))
    ensures !have ==> f.inCur == |inp| && Needs(c.data, g, f.numBits)
  {
    hide StateOk, Carry, CallOk, Needs, At, WellFormed, TableFor, SymbolLens;
    f := f0;
    var first := resumed;
    while true
      invariant f == f0.(bitBuf := f.bitBuf, numBits := f.numBits, inCur := f.inCur) && InSync(c, f, g)
      invariant f.numBits < 15 && (first ==> Needs(c.data, g, f.numBits))
      decreases |inp| - f.inCur
    {
      if !first {
        var b := PeekSymbol(f, look, tree, nodes, c, g, k);
        if b { return f, true; }
      }
      first := false;
      if f.inCur >= |inp| { return f, false; }
      f := PullByte(f, inp, c, g);
      if f.numBits >= 15 { return f, true; }
    }
  }

  method PeekSymbol(f: Frame, look: seq<int>, tree: seq<int>, ghost nodes: Nodes, ghost c: Call, ghost g: State,
                    ghost k: nat)
    returns (have: bool)
    requires WellFormed(c.m, c.data) && InSync(c, f, g) && At(c.m, c.data, g, k)
    requires WantsSymbol(g.ctl) && TableFor(g.ctl, look, tree, nodes)
    ensures f.inCur <= |c.inp|
    ensures have ==> exists s :: Begins(SymbolLens(g.ctl), s, Pending(c, f, g))
    ensures !have ==> Needs(c.data, g, f.numBits)
  {
    hide At, WellFormed, CtlOk, Carry, CallOk, Ready, SymbolLens;
    ghost var s := PendingSymbol(c, f, g, k);
    have := HaveSymbol(look, tree, f.bitBuf, f.numBits, SymbolLens(g.ctl), nodes, Pending(c, f, g), s);
    if have {
      assert Begins(SymbolLens(g.ctl), s, Pending(c, f, g));
    } else {
      NothingBegins(SymbolLens(g.ctl), s, Pending(c, f, g), look, tree, nodes);
    }
  }

  lemma NothingBegins(lens: seq<nat>, s: nat, buf: seq<bool>, look: seq<int>, tree: seq<int>, nodes: Nodes)
    requires Ready(lens, look, tree, nodes) && Compatible(lens, s, buf) && lens[s] > |buf|
    ensures NoSymbol(lens, buf)
  {
    hide TablesOk;
    forall t | 0 <= t < |lens| && lens[t] > 0
      ensures !(Code(lens, t) <= buf)
    {
      if Code(lens, t) <= buf { CompatibleUnique(lens, t, s, buf); }
    }
  }

  /** Once the buffer holds the whole code or fifteen bits, one symbol begins it. */
  lemma ReadySymbol(c: Call, f: Frame, g: State, k: nat) returns (s: nat)
    requires WellFormed(c.m, c.data) && InSync(c, f, g) && At(c.m, c.data, g, k) && WantsSymbol(g.ctl)
    requires f.numBits >= 15 || exists s :: Begins(SymbolLens(g.ctl), s, Pending(c, f, g))
    ensures Begins(SymbolLens(g.ctl), s, Pending(c, f, g))
  {
    hide At, WellFormed, Carry, CallOk, Code;
    var lens, buf := SymbolLens(g.ctl), Pending(c, f, g);
    s := PendingSymbol(c, f, g, k);
    SymbolLensUsable(g.ctl);
    assert buf <= Code(lens, s) && |buf| >= lens[s] ==> buf == Code(lens, s);
    if s' :| Begins(lens, s', buf) {
      UsableIsKraft(lens);
      CompatibleUnique(lens, s', s, buf);
    }
  }

  ghost function AfterSymbol(m: Mode, g: State, s: nat): State
    requires CtlOk(g.ctl) && WantsSymbol(g.ctl) && s < |SymbolLens(g.ctl)|
  {
    State(OnSymbol(m, g.ctl, s, |g.out|), g.pos + SymbolLens(g.ctl)[s], g.out)
  }

  lemma SymbolIsStep(c: Call, f: Frame, g: State, s: nat)
    requires InSync(c, f, g) && WantsSymbol(g.ctl) && Begins(SymbolLens(g.ctl), s, Pending(c, f, g))
    ensures Steps(c.m, c.data, g, AfterSymbol(c.m, g, s))
    ensures SymbolLens(g.ctl)[s] <= f.numBits
    ensures InSync(c, Taken(f, AfterSymbol(c.m, g, s).ctl, SymbolLens(g.ctl)[s]), AfterSymbol(c.m, g, s))
  {
    hide OnSymbol, CtlOk, Step, CallOk;
    var lens, buf := SymbolLens(g.ctl), Pending(c, f, g);
    var code, rest := Code(lens, s), Rest(c.data, g.pos);
    assert rest[..|buf|] == buf;
    assert code == buf[..|code|] == rest[..|code|];
    StepsSymbol(c.m, c.data, g, s);
    if c.entryBits >= |code| && g.pos + c.entryBits <= 8 * |c.data| {
      var w := Slice(c.data, g.pos, g.pos + c.entryBits);
      assert code == w[..|code|];
      assert !NoSymbol(lens, w);
    }
    Consume(c, f, g, |code|, AfterSymbol(c.m, g, s));
  }

  // ---- micro-steps that read ----

  /** The part of `Live` that the output buffer has no part in. */
  ghost predicate Reading(c: Call, f: Frame, g: State, k: nat, t: Tabs, n: TabNodes) {
    && WellFormed(c.m, c.data)
    && InSync(c, f, g)
    && At(c.m, c.data, g, k)
    && !g.ctl.Malformed?
    && TabsOk(g.ctl, t, n)
    && (!c.m.wrap ==> f.outCur == |g.out|)
  }

  /** Reads one fixed-size item and makes the control step, or runs out of input. */
  method StepItem(f0: Frame, inp: seq<Byte>, m: Mode, t0: Tabs, ghost n0: TabNodes,
                  ghost c: Call, ghost g0: State, ghost k: nat)
    returns (f: Frame, ok: bool, t: Tabs, ghost n: TabNodes, ghost g: State)
    requires Reading(c, f0, g0, k, t0, n0) && inp == c.inp && m == c.m && ItemBits(g0.ctl) > 0
    ensures f.outCur == f0.outCur && f.dfs == f0.dfs
    ensures ok ==> Reading(c, f, g, k + 1, t, n) && g == AfterItem(m, g0, FromBits(Slice(c.data, g0.pos, g.pos)))
    ensures ok ==> g.out == g0.out && g.pos > g0.pos
    ensures !ok ==> g == g0 && Reading(c, f, g, k, t, n) && f.inCur == |inp| && Needs(c.data, g, f.numBits)
  {
    hide OnBits, CtlOk, Step, StateOk, TabsOk, At, WellFormed, Slice;
    t, n, g := t0, n0, g0;
    assert CtlOk(g.ctl) && !WantsSymbol(g.ctl) by { ItemFacts(c.m, c.data, g); }
    var bits := ItemBits(f0.ctl);
    f := NeedBits(f0, inp, bits, c, g);
    if f.numBits < bits { return f, false, t, n, g; }
    ok := true;
    var v := f.bitBuf % Pow2(bits);
    ItemIsStep(c, f, g, v);
    SplitBuffer(c, f, g, bits);
    AtNext(c.m, c.data, g, k, AfterItem(c.m, g, v));
    var ctl;
    ctl, t, n := ExecBits(m, f.ctl, v, f.outCur, t, n, |g.out|);
    f := f.(ctl := ctl, bitBuf := f.bitBuf / Pow2(bits), numBits := f.numBits - bits);
    g := AfterItem(m, g, v);
  }

  lemma ItemFacts(m: Mode, data: seq<Byte>, g: State)
    requires StateOk(m, data, g) && ItemBits(g.ctl) > 0
    ensures CtlOk(g.ctl) && !WantsSymbol(g.ctl)
  {
  }

  /** Decodes one symbol out of a buffer that holds it and makes the control step. */
  method TakeCode(f0: Frame, m: Mode, look: seq<int>, tree: seq<int>, t0: Tabs, ghost nodes: Nodes, ghost n0: TabNodes,
                  ghost c: Call, ghost g0: State, ghost k: nat)
    returns (f: Frame, t: Tabs, ghost n: TabNodes, ghost g: State)
    requires Reading(c, f0, g0, k, t0, n0) && m == c.m
    requires WantsSymbol(g0.ctl) && TableFor(g0.ctl, look, tree, nodes)
    requires f0.numBits >= 15 || exists s :: Begins(SymbolLens(g0.ctl), s, Pending(c, f0, g0))
    ensures Reading(c, f, g, k + 1, t, n) && Steps(c.m, c.data, g0, g)
    ensures f == f0.(ctl := g.ctl, bitBuf := f.bitBuf, numBits := f.numBits)
    ensures g.out == g0.out && g.pos > g0.pos
    ensures f0.numBits - 15 <= f.numBits
  {
    hide OnSymbol, CtlOk, Step, TabsOk, At, WellFormed, Slice, Ready, Carry, CallOk;
    SymbolLensUsable(g0.ctl);
    ghost var s := ReadySymbol(c, f0, g0, k);
    var temp, codeLen := LookUp(look, tree, f0.bitBuf, SymbolLens(g0.ctl), nodes, Pending(c, f0, g0), s);
    SymbolIsStep(c, f0, g0, s);
    g := AfterSymbol(c.m, g0, s);
    AtNext(c.m, c.data, g0, k, g);
    var ctl;
    ctl, t, n := ExecSymbol(m, f0.ctl, temp % 512, f0.outCur, t0, n0, |g0.out|);
    f := f0.(ctl := ctl, bitBuf := f0.bitBuf / Pow2(codeLen), numBits := f0.numBits - codeLen);
  }

  /** Reads one symbol near the end of the input, taking no byte it can do without. */
  method StepSymbol(f0: Frame, inp: seq<Byte>, m: Mode, t0: Tabs, resumed: bool, ghost n0: TabNodes,
                    ghost c: Call, ghost g0: State, ghost k: nat)
    returns (f: Frame, ok: bool, t: Tabs, ghost n: TabNodes, ghost g: State)
    requires Reading(c, f0, g0, k, t0, n0) && inp == c.inp && m == c.m && WantsSymbol(g0.ctl)
    requires resumed ==> f0.numBits < 15 && Needs(c.data, g0, f0.numBits)
    ensures f.outCur == f0.outCur && f.dfs == f0.dfs
    ensures ok ==> Reading(c, f, g, k + 1, t, n) && Steps(c.m, c.data, g0, g)
    ensures ok ==> g.out == g0.out && g.pos > g0.pos
    ensures !ok ==> g == g0 && Reading(c, f, g, k, t, n) && f.inCur == |inp| && Needs(c.data, g, f.numBits)
  {
    hide OnSymbol, CtlOk, Step, StateOk, At, WellFormed, Slice, Ready, Carry, CallOk, Needs, Usable;
    f, ok, t, n, g := f0, true, t0, n0, g0;
    var look, tree;
    ghost var nodes;
    match f.ctl {
      case DynCodes(_, _, _, _) => look, tree, nodes := t.lenLook, t.lenTree, n.len;
      case Block(_) => look, tree, nodes := t.litLook, t.litTree, n.lit;
      case Distance(_, _) => look, tree, nodes := t.distLook, t.distTree, n.dist;
    }
    if resumed || (f.numBits < 15 && |inp| - f.inCur < 2) {
      f, ok := FillForSymbol(f, inp, look, tree, resumed, nodes, c, g, k);
      if !ok { return; }
    } else if f.numBits < 15 {
      f := PullByte(f, inp, c, g);
      f := PullByte(f, inp, c, g);
    }
    f, t, n, g := TakeCode(f, m, look, tree, t, nodes, n, c, g, k);
  }

  // ---- micro-steps that write ----

  lemma StepsEmit(m: Mode, data: seq<Byte>, g: State)
    requires StateOk(m, data, g) && Emits(g.ctl)
    ensures CtlOk(g.ctl) && (g.ctl.Copy? ==> 0 < g.ctl.dist <= |g.out|)
    ensures Steps(m, data, g, State(AfterEmit(g.ctl), g.pos, g.out + [EmitByte(g.ctl, g.out)]))
  {
    hide Usable;
    StepOk(m, data, g);
  }

  lemma EmitTabs(ctl: Ctl, t: Tabs, n: TabNodes)
    requires CtlOk(ctl) && Emits(ctl) && TabsOk(ctl, t, n)
    ensures TabsOk(AfterEmit(ctl), t, n) && !AfterEmit(ctl).Malformed?
    ensures AfterEmit(ctl).Copy? ==> ctl.Copy?
  {
    hide Ready, Usable;
  }

  lemma EmitSync(c: Call, f: Frame, g: State, g': State)
    requires InSync(c, f, g) && Emits(g.ctl) && Steps(c.m, c.data, g, g') && g'.pos == g.pos
    ensures InSync(c, f.(ctl := g'.ctl), g')
    ensures f.numBits < 8 + 8 * f.inCur
  {
    hide Step, CtlOk, CallOk;
    assert !Needs(c.data, g, c.entryBits) by { EmitNeedsNothing(g.ctl); }
  }

  lemma EmitNeedsNothing(ctl: Ctl)
    requires Emits(ctl) && CtlOk(ctl)
    ensures ItemBits(ctl) == 0 && !WantsSymbol(ctl)
  {
  }

  /** Writes the byte the machine emits at the cursor. */
  method Emit(f0: Frame, buf: array<Byte>, b: Byte, dfs: nat, ghost t: Tabs, ghost n: TabNodes,
              ghost c: Call, ghost g0: State, ghost k: nat)
    returns (f: Frame, ghost g: State)
    requires Live(c, f0, g0, k, t, n, buf[..]) && Emits(g0.ctl) && f0.outCur < buf.Length
    requires CtlOk(g0.ctl) && (g0.ctl.Copy? ==> 0 < g0.ctl.dist <= |g0.out|) && b == EmitByte(g0.ctl, g0.out)
    requires g0.ctl.Copy? ==> SourceOk(c.m, dfs, f0.outCur + 1)
    modifies buf
    ensures Live(c, f, g, k + 1, t, n, buf[..]) && Steps(c.m, c.data, g0, g)
    ensures g.pos == g0.pos && g.ctl == AfterEmit(g0.ctl)
    ensures f == f0.(ctl := g.ctl, outCur := f0.outCur + 1, dfs := dfs)
    ensures buf[..] == old(buf[..])[f0.outCur := b]
  {
    hide Step, CtlOk, InSync, TabsOk, WellFormed, At, Mirrors, AfterEmit;
    assert StateOk(c.m, c.data, g0) by { SyncState(c, f0, g0); }
    StepsEmit(c.m, c.data, g0);
    g := State(AfterEmit(g0.ctl), g0.pos, g0.out + [b]);
    AtNext(c.m, c.data, g0, k, g);
    EmitTabs(g0.ctl, t, n);
    EmitSync(c, f0, g0, g);
    ghost var before := buf[..];
    PushByte(before, f0.outCur, g0.out, b);
    SyncState(c, f0, g0);
    var ctl := AfterEmit(f0.ctl);
    f := f0.(ctl := ctl, outCur := f0.outCur + 1, dfs := dfs);
    buf[f0.outCur] := b;
    assert buf[..] == before[f0.outCur := b];
    assert buf[..][c.outNext..f.outCur] == before[c.outNext..f0.outCur] + [b];
    SyncFields(c, f0.(ctl := ctl), f, g);
  }

  lemma SyncState(c: Call, f: Frame, g: State)
    requires InSync(c, f, g)
    ensures StateOk(c.m, c.data, g) && f.ctl == g.ctl
  {
  }

  lemma SyncFields(c: Call, f: Frame, f': Frame, g: State)
    requires InSync(c, f, g) && f' == f.(outCur := f'.outCur, dfs := f'.dfs)
    ensures InSync(c, f', g)
  {
  }

  // ---- match copies ----

  /** The index `i & mask`: the mask is the ring size less one, or all ones when nothing wraps. */
  function Masked(m: Mode, i: int): int {
    if m.wrap && m.size > 0 then i % m.size else i
  }

  lemma SourceIndex(m: Mode, dfs: nat, outCur: nat, dist: nat, have: nat, size: nat)
    requires SourceOk(m, dfs, outCur) && 0 < dist && Reaches(m, dist, have) && outCur <= size
    requires if m.wrap then size == m.size else outCur == have
    ensures dist <= size && Masked(m, dfs - dist) == Behind(size, outCur, dist)
  {
    if m.wrap {
      var q := (dfs - outCur) / size;
      assert dfs - outCur == size * q;
      if dist <= outCur {
        RingIndex(dfs - dist, size, q, outCur - dist);
      } else {
        RingIndex(dfs - dist, size, q - 1, outCur + size - dist);
      }
    }
  }

  lemma RingIndex(i: int, size: nat, q: int, r: nat)
    requires r < size && i == size * q + r
    ensures i % size == r
  {
    DivUnique(i, size, q, r);
  }

  /** One byte of a match, through the mask. */
  method CopySlow(f0: Frame, buf: array<Byte>, m: Mode, ghost t: Tabs, ghost n: TabNodes,
                  ghost c: Call, ghost g0: State, ghost k: nat)
    returns (f: Frame, ghost g: State)
    requires Live(c, f0, g0, k, t, n, buf[..]) && g0.ctl.Copy? && m == c.m && f0.outCur < buf.Length
    modifies buf
    ensures Live(c, f, g, k + 1, t, n, buf[..]) && Steps(c.m, c.data, g0, g)
    ensures g.pos == g0.pos && f.outCur == f0.outCur + 1 && f.inCur == f0.inCur
  {
    hide Step, CodesReady, WellFormed, At, Carry, CallOk, Buffered;
    var dist := f0.ctl.dist;
    SourceIndex(m, f0.dfs, f0.outCur, dist, |g0.out|, buf.Length);
    var b := buf[Masked(m, f0.dfs - dist)];
    assert (f0.dfs + 1) - (f0.outCur + 1) == f0.dfs - f0.outCur;
    f, g := Emit(f0, buf, b, f0.dfs + 1, t, n, c, g0, k);
  }

  lemma {:induction false} AtCopied(m: Mode, data: seq<Byte>, g: State, k: nat)
    requires StateOk(m, data, g) && At(m, data, g, k) && g.ctl.Copy?
    ensures CtlOk(g.ctl) && g.ctl.dist <= |g.out|
    ensures StateOk(m, data, State(Block(g.ctl.codes), g.pos, Expand(g.out, g.ctl.dist, g.ctl.len)))
    ensures At(m, data, State(Block(g.ctl.codes), g.pos, Expand(g.out, g.ctl.dist, g.ctl.len)), k + g.ctl.len)
    decreases g.ctl.len
  {
    hide Step, Usable;
    StepsEmit(m, data, g);
    var g' := State(AfterEmit(g.ctl), g.pos, g.out + [EmitByte(g.ctl, g.out)]);
    AtStep(m, data, g, k, g');
    ExpandFront(g.out, g.ctl.dist, g.ctl.len);
    if g.ctl.len > 1 { AtCopied(m, data, g', k + 1); }
  }

  /** The unmasked copy, when neither source nor destination reaches the end of the buffer. */
  method CopyFast(f0: Frame, buf: array<Byte>, src: nat, ghost t: Tabs, ghost n: TabNodes,
                  ghost c: Call, ghost g0: State, ghost k: nat)
    returns (f: Frame, ghost g: State)
    requires Live(c, f0, g0, k, t, n, buf[..]) && g0.ctl.Copy?
    requires g0.ctl.dist <= buf.Length && src == Behind(buf.Length, f0.outCur, g0.ctl.dist)
    requires f0.outCur + g0.ctl.len <= buf.Length && src + g0.ctl.len <= buf.Length
    modifies buf
    ensures Live(c, f, g, k + g0.ctl.len, t, n, buf[..])
    ensures g.pos == g0.pos && g.ctl.Block?
    ensures f == f0.(ctl := g.ctl, outCur := f0.outCur + g0.ctl.len)
  {
    hide Step, CodesReady, WellFormed, At, CallOk, Buffered, CodesOk, Mirrors;
    var codes, len, dist := f0.ctl.codes, f0.ctl.len, f0.ctl.dist;
    ghost var before := buf[..];
    AtCopied(c.m, c.data, g0, k);
    g := State(Block(codes), g0.pos, Expand(g0.out, dist, len));
    CopySync(c, f0, g0, g);
    CopyMatch(buf, f0.outCur, src, len, g0.out, dist);
    f := f0.(ctl := Block(codes), outCur := f0.outCur + len);
    CopyWritten(c, f0, g0, before, buf[..], len, dist);
  }

  lemma CopySync(c: Call, f: Frame, g: State, g': State)
    requires InSync(c, f, g) && Emits(g.ctl) && StateOk(c.m, c.data, g') && g'.pos == g.pos
    ensures InSync(c, f.(ctl := g'.ctl), g') && f.numBits < 8 + 8 * f.inCur
    ensures forall o :: InSync(c, f.(ctl := g'.ctl, outCur := o), g')
  {
    hide CtlOk, CallOk;
    assert !Needs(c.data, g, c.entryBits) by { EmitNeedsNothing(g.ctl); }
  }

  lemma CopyWritten(c: Call, f: Frame, g: State, before: seq<Byte>, now: seq<Byte>, len: nat, dist: nat)
    requires 1 <= dist <= |g.out| && c.outNext <= f.outCur <= |before|
    requires g.out == c.entry.out + before[c.outNext..f.outCur]
    requires Copied(before, now, f.outCur, g.out, dist, len)
    ensures Expand(g.out, dist, len) == c.entry.out + now[c.outNext..f.outCur + len]
  {
    hide Mirrors, Expand;
    assert now[..f.outCur] == before[..f.outCur];
    assert now[c.outNext..f.outCur] == now[..f.outCur][c.outNext..];
    assert before[c.outNext..f.outCur] == before[..f.outCur][c.outNext..];
    assert now[c.outNext..f.outCur + len] == now[c.outNext..f.outCur] + now[f.outCur..f.outCur + len];
  }

  /** After an item has been read: a match that has just become complete is copied at once when it
      fits, and otherwise left to be copied byte by byte. */
  method AfterRead(f0: Frame, buf: array<Byte>, m: Mode, ghost t: Tabs, ghost n: TabNodes,
                   ghost c: Call, ghost g0: State, ghost k0: nat)
    returns (f: Frame, ghost g: State, ghost k: nat)
    requires Reading(c, f0, g0, k0, t, n) && m == c.m
    requires OutputOk(c, f0.outCur, g0.out, buf[..])
    modifies buf
    ensures Live(c, f, g, k, t, n, buf[..]) && k >= k0
    ensures g.pos == g0.pos && f.inCur == f0.inCur
    ensures f.numBits == f0.numBits && f.outCur >= f0.outCur
  {
    hide CodesReady, WellFormed, At, Carry, CallOk, Buffered, CodesOk, Mirrors;
    f, g, k := f0, g0, k0;
    if f.ctl.Copy? {
      f := f.(dfs := f.outCur);
      SyncFields(c, f0, f, g);
      SourceIndex(m, f.dfs, f.outCur, g.ctl.dist, |g.out|, buf.Length);
      var src := Masked(m, f.dfs - f.ctl.dist);
      var high := if f.outCur < src then src else f.outCur;
      if high + f.ctl.len <= buf.Length {
        k := k + g.ctl.len;
        f, g := CopyFast(f, buf, src, t, n, c, g, k0);
      }
    }
  }

  // ---- putting bytes back ----

  lemma PutBackSync(c: Call, f: Frame, g: State, inCur: nat, numBits: nat)
    requires InSync(c, f, g) && inCur <= f.inCur && numBits + 8 * (f.inCur - inCur) == f.numBits && numBits < 8
    ensures InSync(c, f.(bitBuf := f.bitBuf % Pow2(numBits), numBits := numBits, inCur := inCur), g)
  {
    hide StateOk, CallOk, Needs;
    SplitBuffer(c, f, g, numBits);
  }

  /** Gives back the whole bytes the bit buffer holds beyond the machine's position. */
  method PutBack(f0: Frame, ghost c: Call, ghost g: State) returns (f: Frame)
    requires InSync(c, f0, g) && f0.numBits < 8 + 8 * f0.inCur
    ensures f == f0.(bitBuf := f.bitBuf, numBits := f.numBits, inCur := f.inCur)
    ensures InSync(c, f, g) && f.numBits < 8 && f.inCur <= f0.inCur
    ensures f.numBits == f0.numBits - 8 * (f0.inCur - f.inCur)
  {
    hide InSync;
    var inCur: nat, numBits: nat := f0.inCur, f0.numBits;
    while inCur > 0 && numBits >= 8
      invariant inCur <= f0.inCur && numBits + 8 * (f0.inCur - inCur) == f0.numBits
    {
      inCur, numBits := inCur - 1, numBits - 8;
    }
    PutBackSync(c, f0, g, inCur, numBits);
    f := f0.(bitBuf := f0.bitBuf % Pow2(numBits), numBits := numBits, inCur := inCur);
  }

  // ---- byte alignment ----

  lemma StepsAlign(m: Mode, data: seq<Byte>, g: State)
    requires StateOk(m, data, g) && (g.ctl.StoredAlign? || g.ctl.TrailAlign?)
    ensures Steps(m, data, g, State(AfterAlign(m, g.ctl), RoundUp(g.pos), g.out))
  {
    StepOk(m, data, g);
  }

  lemma AlignSync(c: Call, f: Frame, g: State, g': State)
    requires InSync(c, f, g) && (g.ctl.StoredAlign? || g.ctl.TrailAlign?)
    requires StateOk(c.m, c.data, g') && g'.pos == RoundUp(g.pos)
    ensures f.numBits % 8 <= f.numBits && f.numBits < 8 + 8 * f.inCur
    ensures InSync(c, Taken(f, g'.ctl, f.numBits % 8), g')
  {
    hide CallOk, CtlOk;
    RoundUpBits(g.pos, f.numBits, c.base + f.inCur);
    SplitBuffer(c, f, g, f.numBits % 8);
    assert !Needs(c.data, g, c.entryBits) by { AlignNeedsNothing(g.ctl); }
  }

  lemma AlignNeedsNothing(ctl: Ctl)
    requires CtlOk(ctl) && (ctl.StoredAlign? || ctl.TrailAlign?)
    ensures ItemBits(ctl) == 0 && !WantsSymbol(ctl)
  {
  }

  /** Drops the bits up to the next byte boundary. */
  method Align(f0: Frame, m: Mode, ghost t: Tabs, ghost n: TabNodes, ghost c: Call, ghost g0: State, ghost k: nat)
    returns (f: Frame, ghost g: State)
    requires Reading(c, f0, g0, k, t, n) && m == c.m && (g0.ctl.StoredAlign? || g0.ctl.TrailAlign?)
    ensures Reading(c, f, g, k + 1, t, n) && Steps(c.m, c.data, g0, g)
    ensures f == f0.(ctl := g.ctl, bitBuf := f.bitBuf, numBits := f0.numBits - f0.numBits % 8)
    ensures g.ctl == AfterAlign(m, g0.ctl) && g.out == g0.out && g.pos >= g0.pos && f.numBits < 8 + 8 * f.inCur
  {
    hide WellFormed, At, CallOk, CtlOk, Step, Carry, Buffered, CodesReady, LensReady;
    var r := f0.numBits % 8;
    StepsAlign(c.m, c.data, g0);
    g := State(AfterAlign(m, g0.ctl), RoundUp(g0.pos), g0.out);
    AtNext(c.m, c.data, g0, k, g);
    AlignSync(c, f0, g0, g);
    f := f0.(ctl := AfterAlign(m, f0.ctl), bitBuf := f0.bitBuf / Pow2(r), numBits := f0.numBits - r);
  }

  lemma RoundUpBits(pos: nat, numBits: nat, bytes: nat)
    requires pos + numBits == 8 * bytes
    ensures RoundUp(pos) == pos + numBits % 8
  {
  }

  // ---- literals and stored bytes ----

  method EmitPending(f0: Frame, buf: array<Byte>, ghost t: Tabs, ghost n: TabNodes,
                     ghost c: Call, ghost g0: State, ghost k: nat)
    returns (f: Frame, ghost g: State)
    requires Live(c, f0, g0, k, t, n, buf[..]) && f0.outCur < buf.Length
    requires g0.ctl.Literal? || g0.ctl.StoredByte?
    modifies buf
    ensures Live(c, f, g, k + 1, t, n, buf[..])
    ensures g.pos == g0.pos && g.ctl == AfterEmit(g0.ctl)
    ensures f == f0.(ctl := g.ctl, outCur := f0.outCur + 1)
  {
    hide Step, CodesReady, WellFormed, At, Carry, CallOk, Buffered, CodesOk;
    var b := match f0.ctl case Literal(_, b) => b case StoredByte(_, _, b) => b case _ => 0;
    f, g := Emit(f0, buf, b, f0.dfs, t, n, c, g0, k);
  }

  /** Copies as many stored bytes as input, room and the block allow, past the empty bit buffer. */
  method StoredRun(f0: Frame, inp: seq<Byte>, buf: array<Byte>, count: nat, ghost m: Mode, ghost t: Tabs, ghost n: TabNodes,
                   ghost c: Call, ghost g0: State, ghost k0: nat)
    returns (f: Frame, ghost g: State, ghost k: nat)
    requires Live(c, f0, g0, k0, t, n, buf[..]) && inp == c.inp && m == c.m
    requires g0.ctl.Stored? && f0.numBits == 0
    requires 0 < count <= g0.ctl.left && f0.inCur + count <= |inp| && f0.outCur + count <= buf.Length
    modifies buf
    ensures Live(c, f, g, k, t, n, buf[..]) && k >= k0 && g.pos > g0.pos
  {
    hide Step, WellFormed, At, Carry, CallOk, Buffered, CtlOk, Mirrors;
    f, g, k := f0, g0, k0;
    var i := 0;
    while i < count
      invariant i <= count && k >= k0 && g.pos >= g0.pos + i
      invariant Live(c, f, g, k, t, n, buf[..])
      invariant f.numBits == 0 && f.inCur == f0.inCur + i && f.outCur == f0.outCur + i
      invariant i < count ==> g.ctl.Stored? && g.ctl.left == g0.ctl.left - i
    {
      f, g := StoredOne(f, inp, buf, m, t, n, c, g, k);
      k := k + 2;
      i := i + 1;
    }
  }

  method StoredOne(f0: Frame, inp: seq<Byte>, buf: array<Byte>, ghost m: Mode, ghost t: Tabs, ghost n: TabNodes,
                   ghost c: Call, ghost g0: State, ghost k: nat)
    returns (f: Frame, ghost g: State)
    requires Live(c, f0, g0, k, t, n, buf[..]) && inp == c.inp && m == c.m
    requires g0.ctl.Stored? && f0.numBits == 0 && f0.inCur < |inp| && f0.outCur < buf.Length
    modifies buf
    ensures Live(c, f, g, k + 2, t, n, buf[..]) && g.pos > g0.pos
    ensures f.numBits == 0 && f.inCur == f0.inCur + 1 && f.outCur == f0.outCur + 1
    ensures g.ctl == StoredNext(g0.ctl.final, g0.ctl.left - 1)
  {
    hide Step, WellFormed, At, Carry, CallOk, Buffered, CtlOk, Mirrors;
    var b := inp[f0.inCur];
    StoredItem(c, f0, g0, k, b);
    var g1 := AfterItem(c.m, g0, b);
    var f1 := f0.(ctl := StoredByte(f0.ctl.final, f0.ctl.left, b), inCur := f0.inCur + 1, bitBuf := 0);
    f, g := EmitPending(f1, buf, t, n, c, g1, k + 1);
  }

  /** Reading a stored byte past an empty bit buffer is reading an 8-bit item. */
  lemma StoredItem(c: Call, f: Frame, g: State, k: nat, b: Byte)
    requires WellFormed(c.m, c.data) && InSync(c, f, g) && At(c.m, c.data, g, k)
    requires g.ctl.Stored? && f.numBits == 0 && f.inCur < |c.inp| && b == c.inp[f.inCur]
    ensures CtlOk(g.ctl) && AfterItem(c.m, g, b) == State(StoredByte(g.ctl.final, g.ctl.left, b), g.pos + 8, g.out)
    ensures At(c.m, c.data, AfterItem(c.m, g, b), k + 1)
    ensures InSync(c, f.(ctl := StoredByte(g.ctl.final, g.ctl.left, b), inCur := f.inCur + 1, bitBuf := 0), AfterItem(c.m, g, b))
  {
    hide Step, WellFormed, Slice, CallOk;
    ByteArrives(c, f, g);
    assert f.bitBuf + Pow2(f.numBits) * b == b by { StoredBuffer(c, f, g); }
    StepsItem(c.m, c.data, g, b);
    AtNext(c.m, c.data, g, k, AfterItem(c.m, g, b));
  }

  lemma StoredBuffer(c: Call, f: Frame, g: State)
    requires Buffered(c, f, g) && f.numBits == 0
    ensures f.bitBuf == 0 && Pow2(f.numBits) == 1
  {
  }

  // ---- the fast path ----

  /** Reads ahead without looking whether the bits are needed. */
  method Refill(f0: Frame, inp: seq<Byte>, wide: bool, ghost c: Call, ghost g: State) returns (f: Frame)
    requires InSync(c, f0, g) && inp == c.inp && wide == c.wide
    requires f0.inCur + (if wide then 4 else 2) <= |inp|
    ensures f == f0.(bitBuf := f.bitBuf, numBits := f.numBits, inCur := f.inCur) && InSync(c, f, g)
    ensures f.numBits >= if wide then 30 else 15
    ensures f.inCur <= f0.inCur + if wide then 4 else 2
  {
    hide StateOk, CallOk, Carry, Needs;
    f := f0;
    if wide {
      if f.numBits < 30 {
        f := PullByte(f, inp, c, g);
        f := PullByte(f, inp, c, g);
        f := PullByte(f, inp, c, g);
        f := PullByte(f, inp, c, g);
      }
    } else if f.numBits < 15 {
      f := PullByte(f, inp, c, g);
      f := PullByte(f, inp, c, g);
    }
  }

  /** Decodes up to two literals at once, away from the ends of input and output. */
  method FastRound(f0: Frame, inp: seq<Byte>, buf: array<Byte>, m: Mode, wide: bool, t0: Tabs, ghost n0: TabNodes,
                   ghost c: Call, ghost g0: State, ghost k0: nat)
    returns (f: Frame, t: Tabs, ghost n: TabNodes, ghost g: State, ghost k: nat)
    requires Live(c, f0, g0, k0, t0, n0, buf[..]) && inp == c.inp && m == c.m && wide == c.wide
    requires g0.ctl.Block? && f0.inCur + 4 <= |inp| && f0.outCur + 2 <= buf.Length
    modifies buf
    ensures Live(c, f, g, k, t, n, buf[..]) && k >= k0
    ensures g.pos > g0.pos
  {
    hide Step, WellFormed, At, CtlOk, Mirrors, Buffered, Carry, CallOk, StateOk, Ready, OnSymbol;
    f, t, n, g, k := f0, t0, n0, g0, k0 + 1;
    f := Refill(f, inp, wide, c, g);
    f, t, n, g := TakeLitLen(f, m, t, n, c, g, k0);
    if f.ctl.Literal? {
      if !wide && f.numBits < 15 { f := Refill(f, inp, wide, c, g); }
      f, g := EmitPending(f, buf, t, n, c, g, k);
      f, t, n, g := TakeLitLen(f, m, t, n, c, g, k + 1);
      k := k + 2;
      if f.ctl.Literal? {
        f, g := EmitPending(f, buf, t, n, c, g, k);
        k := k + 1;
      }
    }
  }

  method TakeLitLen(f0: Frame, m: Mode, t0: Tabs, ghost n0: TabNodes, ghost c: Call, ghost g0: State, ghost k: nat)
    returns (f: Frame, t: Tabs, ghost n: TabNodes, ghost g: State)
    requires Reading(c, f0, g0, k, t0, n0) && m == c.m && g0.ctl.Block? && f0.numBits >= 15
    ensures Reading(c, f, g, k + 1, t, n)
    ensures f == f0.(ctl := g.ctl, bitBuf := f.bitBuf, numBits := f.numBits)
    ensures g.out == g0.out && g.pos > g0.pos && f0.numBits - 15 <= f.numBits
    ensures !g.ctl.Copy? && (g.ctl.Literal? ==> AfterEmit(g.ctl).Block?)
  {
    hide WellFormed, At, Ready, CodesOk, Buffered, Carry, CallOk;
    f, t, n, g := TakeCode(f0, m, t0.litLook, t0.litTree, t0, n0.lit, n0, c, g0, k);
    LitLenNext(c, g0, g);
  }

  lemma LitLenNext(c: Call, g: State, g': State)
    requires Steps(c.m, c.data, g, g') && g.ctl.Block? && g'.pos > g.pos
    ensures !g'.ctl.Copy? && (g'.ctl.Literal? ==> CtlOk(g'.ctl) && AfterEmit(g'.ctl).Block?)
  {
    hide CodesOk;
  }

  // ---- one micro-step of the coroutine ----

  datatype Stop = Go | WantInput | WantRoom | Finished

  function Rank(ctl: Ctl): nat { if ctl.StoredAlign? || ctl.TrailAlign? then 1 else 0 }

  /** Every micro-step reads, writes, or leaves an alignment state. */
  ghost predicate Progress(f0: Frame, g0: State, f: Frame, g: State) {
    || g.pos > g0.pos
    || (g.pos == g0.pos && f.outCur > f0.outCur)
    || (g.pos == g0.pos && f.outCur == f0.outCur && Rank(g.ctl) < Rank(g0.ctl))
  }

  /** What holds when the coroutine leaves its loop. */
  ghost predicate StopOk(c: Call, f: Frame, g: State, size: nat, stop: Stop) {
    match stop
    case Go => true
    case WantInput => f.inCur == |c.inp| && Needs(c.data, g, f.numBits)
    case WantRoom => f.outCur == size && (Emits(g.ctl) || (g.ctl.Stored? && f.numBits == 0))
    case Finished => Terminal(g.ctl)
  }

  method Advance(f0: Frame, inp: seq<Byte>, buf: array<Byte>, m: Mode, wide: bool, t0: Tabs, resumed: bool,
                 ghost n0: TabNodes, ghost c: Call, ghost g0: State, ghost k0: nat)
    returns (f: Frame, stop: Stop, t: Tabs, ghost n: TabNodes, ghost g: State, ghost k: nat)
    requires Live(c, f0, g0, k0, t0, n0, buf[..]) && inp == c.inp && m == c.m && wide == c.wide
    requires resumed && WantsSymbol(g0.ctl) ==> f0.numBits < 15 && Needs(c.data, g0, f0.numBits)
    modifies buf
    ensures Live(c, f, g, k, t, n, buf[..]) && k >= k0
    ensures stop.Go? ==> Progress(f0, g0, f, g)
    ensures StopOk(c, f, g, buf.Length, stop)
  {
    hide Step, WellFormed, At, CtlOk, Mirrors, Carry, CallOk, StateOk, Ready, OnBits, Needs, Buffered;
    f, stop, t, n, g, k := f0, Go, t0, n0, g0, k0;
    if Terminal(f.ctl) {
      stop := Finished;
    } else if f.ctl.StoredAlign? || f.ctl.TrailAlign? {
      f, g, k := AdvanceAlign(f, buf, m, t, n, c, g, k);
    } else if Emits(f.ctl) {
      if f.outCur >= buf.Length {
        stop := WantRoom;
      } else if f.ctl.Copy? {
        f, g := CopySlow(f, buf, m, t, n, c, g, k);
        k := k + 1;
      } else {
        f, g := EmitPending(f, buf, t, n, c, g, k);
        k := k + 1;
      }
    } else if f.ctl.Stored? && f.numBits == 0 {
      f, stop, g, k := AdvanceStored(f, inp, buf, m, t, n, c, g, k);
    } else {
      f, stop, t, n, g, k := AdvanceRead(f, inp, buf, m, wide, t, resumed, n, c, g, k);
    }
  }

  method AdvanceAlign(f0: Frame, buf: array<Byte>, m: Mode, ghost t: Tabs, ghost n: TabNodes,
                      ghost c: Call, ghost g0: State, ghost k0: nat)
    returns (f: Frame, ghost g: State, ghost k: nat)
    requires Live(c, f0, g0, k0, t, n, buf[..]) && m == c.m && (g0.ctl.StoredAlign? || g0.ctl.TrailAlign?)
    ensures Live(c, f, g, k, t, n, buf[..]) && k >= k0 && Progress(f0, g0, f, g)
    ensures g0.ctl.TrailAlign? ==> f.numBits == 0
  {
    hide Step, WellFormed, At, CtlOk, Mirrors, Carry, CallOk, StateOk, Ready, Buffered;
    f, g := Align(f0, m, t, n, c, g0, k0);
    k := k0 + 1;
    if f0.ctl.TrailAlign? {
      f := PutBack(f, c, g);
    }
  }

  method AdvanceStored(f0: Frame, inp: seq<Byte>, buf: array<Byte>, ghost m: Mode, ghost t: Tabs, ghost n: TabNodes,
                       ghost c: Call, ghost g0: State, ghost k0: nat)
    returns (f: Frame, stop: Stop, ghost g: State, ghost k: nat)
    requires Live(c, f0, g0, k0, t, n, buf[..]) && inp == c.inp && m == c.m
    requires g0.ctl.Stored? && f0.numBits == 0
    modifies buf
    ensures Live(c, f, g, k, t, n, buf[..]) && k >= k0
    ensures stop.Go? ==> Progress(f0, g0, f, g)
    ensures StopOk(c, f, g, buf.Length, stop)
  {
    hide Step, WellFormed, At, Mirrors, Carry, CallOk;
    f, stop, g, k := f0, Go, g0, k0;
    if f.outCur >= buf.Length { stop := WantRoom; return; }
    if f.inCur >= |inp| { stop := WantInput; return; }
    var count := f.ctl.left;
    if buf.Length - f.outCur < count { count := buf.Length - f.outCur; }
    if |inp| - f.inCur < count { count := |inp| - f.inCur; }
    f, g, k := StoredRun(f, inp, buf, count, m, t, n, c, g, k);
  }

  method AdvanceRead(f0: Frame, inp: seq<Byte>, buf: array<Byte>, m: Mode, wide: bool, t0: Tabs, resumed: bool,
                     ghost n0: TabNodes, ghost c: Call, ghost g0: State, ghost k0: nat)
    returns (f: Frame, stop: Stop, t: Tabs, ghost n: TabNodes, ghost g: State, ghost k: nat)
    requires Live(c, f0, g0, k0, t0, n0, buf[..]) && inp == c.inp && m == c.m && wide == c.wide
    requires !Terminal(g0.ctl) && !Emits(g0.ctl) && !g0.ctl.StoredAlign? && !g0.ctl.TrailAlign?
    requires resumed && WantsSymbol(g0.ctl) ==> f0.numBits < 15 && Needs(c.data, g0, f0.numBits)
    modifies buf
    ensures Live(c, f, g, k, t, n, buf[..]) && k >= k0
    ensures stop.Go? ==> Progress(f0, g0, f, g)
    ensures StopOk(c, f, g, buf.Length, stop)
  {
    hide Step, WellFormed, At, CtlOk, Mirrors, Carry, CallOk, Ready, OnBits, Needs, Buffered, ItemBits;
    f, stop, t, n, g, k := f0, Go, t0, n0, g0, k0;
    var ok;
    if f.ctl.Block? && !resumed && f.inCur + 4 <= |inp| && f.outCur + 2 <= buf.Length {
      f, t, n, g, k := FastRound(f, inp, buf, m, wide, t, n, c, g, k);
      return;
    }
    if WantsSymbol(f.ctl) {
      f, ok, t, n, g := StepSymbol(f, inp, m, t, resumed, n, c, g, k);
    } else {
      ReadsItem(c.m, c.data, g);
      f, ok, t, n, g := StepItem(f, inp, m, t, n, c, g, k);
    }
    if ok {
      f, g, k := AfterRead(f, buf, m, t, n, c, g, k + 1);
    } else {
      stop := WantInput;
    }
  }

  lemma ReadsItem(m: Mode, data: seq<Byte>, g: State)
    requires StateOk(m, data, g) && !WantsSymbol(g.ctl)
    requires !Terminal(g.ctl) && !Emits(g.ctl) && !g.ctl.StoredAlign? && !g.ctl.TrailAlign?
    ensures ItemBits(g.ctl) > 0
  {
  }

  // ---- a whole call ----

  datatype Status = NeedsMoreInput | CannotMakeProgress | HasMoreOutput | Finish | Fail | AdlerMismatch | BadParam

  lemma EntryLive(c: Call, f: Frame, k: nat, t: Tabs, n: TabNodes, buf: seq<Byte>)
    requires CallOk(c) && WellFormed(c.m, c.data) && At(c.m, c.data, c.entry, k) && !c.entry.ctl.Malformed?
    requires f.ctl == c.entry.ctl && f.inCur == 0 && f.outCur == c.outNext && f.numBits == c.entryBits
    requires Buffered(c, f, c.entry) && TabsOk(f.ctl, t, n)
    requires f.numBits < 8 || Needs(c.data, c.entry, f.numBits)
    requires Written(c, f, c.entry, buf)
    ensures Live(c, f, c.entry, k, t, n, buf)
  {
  }

  /** Runs micro-steps until the coroutine has to return. */
  method Loop(f0: Frame, inp: seq<Byte>, buf: array<Byte>, m: Mode, wide: bool, t0: Tabs,
              ghost n0: TabNodes, ghost c: Call, ghost k0: nat)
    returns (f: Frame, stop: Stop, t: Tabs, ghost n: TabNodes, ghost g: State, ghost k: nat)
    requires Live(c, f0, c.entry, k0, t0, n0, buf[..]) && inp == c.inp && m == c.m && wide == c.wide
    requires WantsSymbol(f0.ctl) ==> f0.numBits < 15 && Needs(c.data, c.entry, f0.numBits)
    modifies buf
    ensures Live(c, f, g, k, t, n, buf[..]) && k >= k0
    ensures !stop.Go? && StopOk(c, f, g, buf.Length, stop)
  {
    hide Step, WellFormed, At, CtlOk, Mirrors, Carry, CallOk, Ready, OnBits, Needs, ItemBits;
    f, t, n, g, k := f0, t0, n0, c.entry, k0;
    var resumed := true;
    while true
      invariant Live(c, f, g, k, t, n, buf[..]) && k >= k0
      invariant resumed && WantsSymbol(g.ctl) ==> f.numBits < 15 && Needs(c.data, g, f.numBits)
      decreases 8 * |c.data| - g.pos, buf.Length - f.outCur, Rank(g.ctl)
    {
      f, stop, t, n, g, k := Advance(f, inp, buf, m, wide, t, resumed, n, c, g, k);
      resumed := false;
      if !stop.Go? { return; }
    }
  }

  // ---- byte alignment of finished runs ----

  ghost predicate AlignedState(g: State) {
    ByteAligned(g.ctl) || g.ctl.Done? ==> g.pos % 8 == 0
  }

  lemma OnBitsAligned(m: Mode, ctl: Ctl, v: nat, have: nat)
    requires CtlOk(ctl) && ItemBits(ctl) > 0
    requires ByteAligned(OnBits(m, ctl, v, have)) || OnBits(m, ctl, v, have).Done?
    ensures ByteAligned(ctl) && ItemBits(ctl) == 8
  {
    hide Usable, ZlibHeaderBad, CodesOk, SizesOk, LengthBase, DistBase;
  }

  lemma OnSymbolAligned(m: Mode, ctl: Ctl, s: nat, have: nat)
    requires CtlOk(ctl) && WantsSymbol(ctl) && s < |SymbolLens(ctl)|
    ensures !ByteAligned(OnSymbol(m, ctl, s, have)) && !OnSymbol(m, ctl, s, have).Done?
  {
    hide Usable, LengthBase, DistBase;
  }

  lemma StepAligned(m: Mode, data: seq<Byte>, g: State)
    requires StateOk(m, data, g) && AlignedState(g)
    ensures AlignedState(Step(m, data, g))
  {
    hide CtlOk, OnBits, OnSymbol;
    var g' := Step(m, data, g);
    if ItemBits(g.ctl) > 0 {
      if g'.pos != g.pos && (ByteAligned(g'.ctl) || g'.ctl.Done?) {
        OnBitsAligned(m, g.ctl, FromBits(Slice(data, g.pos, g.pos + ItemBits(g.ctl))), |g.out|);
      }
    } else if WantsSymbol(g.ctl) {
      forall s | Begins(SymbolLens(g.ctl), s, Rest(data, g.pos))
        ensures AlignedState(TakeSymbol(m, data, g, s))
      {
        OnSymbolAligned(m, g.ctl, s, |g.out|);
      }
    } else if Emits(g.ctl) {
      assert CtlOk(g.ctl);
      EmitAligned(g.ctl);
    }
  }

  lemma EmitAligned(ctl: Ctl)
    requires CtlOk(ctl) && Emits(ctl)
    ensures ByteAligned(AfterEmit(ctl)) ==> ByteAligned(ctl)
    ensures !AfterEmit(ctl).Done?
  {
    hide Usable;
  }

  lemma {:induction false} AtAligned(m: Mode, data: seq<Byte>, g: State, k: nat)
    requires At(m, data, g, k)
    ensures AlignedState(g)
    decreases k
  {
    hide Step;
    if k > 0 {
      var p := Iter(m, data, Start(m), k - 1);
      AtAligned(m, data, p, k - 1);
      StepAligned(m, data, p);
    }
  }
}
