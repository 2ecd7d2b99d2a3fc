/** The deflate format from the writer's side (RFC 1951, section 3.2): what it means for a stream to
    hold given blocks.  Whatever holds a list of blocks is decoded to the bytes the blocks stand for. */
module DeflateFormat {
  import opened Bits
  import opened Canonical
  import opened Deflate
  import opened Window
  import opened Adler
  import opened Inflate
  import opened Decompressor

  datatype Token = Lit(b: Byte) | Match(lsym: nat, lextra: nat, dsym: nat, dextra: nat)

  /** A code-length symbol and the value of its extra bits. */
  datatype LenRun = LenRun(sym: nat, extra: nat)

  datatype Coding =
    | Fixed
    | Dynamic(lit: seq<nat>, dist: seq<nat>, clens: seq<nat>, sent: nat, runs: seq<LenRun>)

  datatype BlockData = StoredData(bytes: seq<Byte>) | Coded(coding: Coding, tokens: seq<Token>)

  function LitLens(c: Coding): seq<nat> { if c.Fixed? then FIXED_LIT else c.lit }

  function DistLens(c: Coding): seq<nat> { if c.Fixed? then FIXED_DIST else c.dist }

  /** The stream holds the bit string `w` at position `pos`. */
  ghost predicate Holds(data: seq<Byte>, pos: nat, w: seq<bool>) {
    pos + |w| <= 8 * |data| && Slice(data, pos, pos + |w|) == w
  }

  lemma HoldsConcat(data: seq<Byte>, pos: nat, a: seq<bool>, b: seq<bool>)
    requires Holds(data, pos, a + b)
    ensures Holds(data, pos, a) && Holds(data, pos + |a|, b)
  {
    var w := Slice(data, pos, pos + |a + b|);
    assert w == a + b;
    assert Slice(data, pos, pos + |a|) == w[..|a|] == a;
    assert Slice(data, pos + |a|, pos + |a| + |b|) == w[|a|..] == b;
  }

  // ---- tokens ----

  predicate SymbolOk(lens: seq<nat>, s: nat) { s < |lens| && lens[s] > 0 }

  function TokenLen(t: Token): nat
    requires t.Match? && 257 <= t.lsym < 288
  {
    LengthBase(t.lsym) + t.lextra
  }

  function TokenDist(t: Token): nat
    requires t.Match? && t.dsym < 32
  {
    DistBase(t.dsym) + t.dextra
  }

  ghost predicate TokenOk(m: Mode, c: Coding, t: Token, have: nat) {
    match t
    case Lit(b) => SymbolOk(LitLens(c), b)
    case Match(lsym, lextra, dsym, dextra) =>
      && 257 <= lsym < 286 && SymbolOk(LitLens(c), lsym) && lextra < Pow2(LengthExtraBits(lsym))
      && dsym < 30 && SymbolOk(DistLens(c), dsym) && dextra < Pow2(DistExtraBits(dsym))
      && 0 < TokenLen(t) && 0 < TokenDist(t) && Reaches(m, TokenDist(t), have)
  }

  ghost function TokenBits(m: Mode, c: Coding, t: Token, have: nat): seq<bool>
    requires TokenOk(m, c, t, have)
  {
    match t
    case Lit(b) => Code(LitLens(c), b)
    case Match(lsym, lextra, dsym, dextra) =>
      (Code(LitLens(c), lsym) + ToBits(lextra, LengthExtraBits(lsym))) +
      (Code(DistLens(c), dsym) + ToBits(dextra, DistExtraBits(dsym)))
  }

  ghost function TokenOut(m: Mode, c: Coding, t: Token, out: seq<Byte>): seq<Byte>
    requires TokenOk(m, c, t, |out|)
  {
    match t
    case Lit(b) => out + [b]
    case Match(_, _, _, _) => Expand(out, TokenDist(t), TokenLen(t))
  }

  /** The tokens and the end-of-block symbol lie between `pos` and `end`, and append to `out`. */
  ghost predicate HoldsTokens(m: Mode, data: seq<Byte>, pos: nat, c: Coding, ts: seq<Token>, out: seq<Byte>,
                              end: nat, res: seq<Byte>)
    decreases |ts|
  {
    if ts == [] then
      SymbolOk(LitLens(c), 256) && Holds(data, pos, Code(LitLens(c), 256)) &&
      end == pos + LitLens(c)[256] && res == out
    else
      TokenOk(m, c, ts[0], |out|) && Holds(data, pos, TokenBits(m, c, ts[0], |out|)) &&
      HoldsTokens(m, data, pos + |TokenBits(m, c, ts[0], |out|)|, c, ts[1..], TokenOut(m, c, ts[0], out), end, res)
  }

  // ---- the machine follows ----

  ghost predicate Reached(m: Mode, data: seq<Byte>, g: State) {
    StateOk(m, data, g) && exists k {:trigger At(m, data, g, k)} :: At(m, data, g, k)
  }

  lemma ReachNext(m: Mode, data: seq<Byte>, g: State, g': State)
    requires Reached(m, data, g) && Steps(m, data, g, g')
    ensures Reached(m, data, g')
  {
    hide Step, At, StateOk;
    var k: nat :| At(m, data, g, k);
    AtStep(m, data, g, k, g');
  }

  lemma ReadItem(m: Mode, data: seq<Byte>, g: State, v: nat)
    requires Reached(m, data, g) && ItemBits(g.ctl) > 0 && v < Pow2(ItemBits(g.ctl))
    requires Holds(data, g.pos, ToBits(v, ItemBits(g.ctl)))
    ensures CtlOk(g.ctl) && Reached(m, data, AfterItem(m, g, v))
  {
    hide Step, OnBits, CtlOk;
    FromToBits(v, ItemBits(g.ctl));
    StepsItem(m, data, g, v);
    ReachNext(m, data, g, AfterItem(m, g, v));
  }

  lemma ReadSymbol(m: Mode, data: seq<Byte>, g: State, s: nat)
    requires Reached(m, data, g) && WantsSymbol(g.ctl) && SymbolOk(SymbolLens(g.ctl), s)
    requires Holds(data, g.pos, Code(SymbolLens(g.ctl), s))
    ensures CtlOk(g.ctl) && Reached(m, data, AfterSymbol(m, g, s))
  {
    hide Step, OnSymbol, CtlOk;
    var c, rest := Code(SymbolLens(g.ctl), s), Rest(data, g.pos);
    assert rest[..|c|] == Slice(data, g.pos, g.pos + |c|) == c;
    StepsSymbol(m, data, g, s);
    ReachNext(m, data, g, AfterSymbol(m, g, s));
  }

  lemma ReadLiteral(m: Mode, data: seq<Byte>, g: State, b: Byte)
    requires Reached(m, data, g) && g.ctl.Block? && SymbolOk(g.ctl.codes.lit, b)
    requires Holds(data, g.pos, Code(g.ctl.codes.lit, b))
    ensures Reached(m, data, State(g.ctl, g.pos + g.ctl.codes.lit[b], g.out + [b]))
  {
    hide Step, Usable, Reached;
    ReachedOk(m, data, g);
    ReadSymbol(m, data, g, b);
    var g1 := AfterSymbol(m, g, b);
    ReachedOk(m, data, g1);
    StepsEmit(m, data, g1);
    ReachNext(m, data, g1, State(AfterEmit(g1.ctl), g1.pos, g1.out + [EmitByte(g1.ctl, g1.out)]));
  }

  lemma ReachedOk(m: Mode, data: seq<Byte>, g: State)
    requires Reached(m, data, g)
    ensures StateOk(m, data, g)
  {
  }

  /** Reading a length symbol and its extra bits. */
  lemma ReadLength(m: Mode, data: seq<Byte>, g: State, s: nat, v: nat)
    requires Reached(m, data, g) && g.ctl.Block? && 257 <= s < 286 && SymbolOk(g.ctl.codes.lit, s)
    requires v < Pow2(LengthExtraBits(s))
    requires Holds(data, g.pos, Code(g.ctl.codes.lit, s) + ToBits(v, LengthExtraBits(s)))
    ensures Reached(m, data, State(Distance(g.ctl.codes, LengthBase(s) + v),
                                   g.pos + g.ctl.codes.lit[s] + LengthExtraBits(s), g.out))
  {
    hide Step, Usable, Reached, LengthBase, LengthExtraBits, Code;
    ReachedOk(m, data, g);
    HoldsConcat(data, g.pos, Code(g.ctl.codes.lit, s), ToBits(v, LengthExtraBits(s)));
    ReadSymbol(m, data, g, s);
    if LengthExtraBits(s) > 0 {
      ReadItem(m, data, AfterSymbol(m, g, s), v);
    } else {
      assert v == 0;
    }
  }

  lemma StartCopyValid(m: Mode, codes: Codes, len: nat, dist: nat, have: nat)
    requires 0 < len && 0 < dist && Reaches(m, dist, have)
    ensures StartCopy(m, codes, len, dist, have) == Copy(codes, len, dist)
  {
  }

  lemma ReadDistance(m: Mode, data: seq<Byte>, g: State, s: nat, v: nat)
    requires Reached(m, data, g) && g.ctl.Distance? && s < 30 && SymbolOk(g.ctl.codes.dist, s)
    requires v < Pow2(DistExtraBits(s)) && 0 < g.ctl.len && 0 < DistBase(s) + v && Reaches(m, DistBase(s) + v, |g.out|)
    requires Holds(data, g.pos, Code(g.ctl.codes.dist, s) + ToBits(v, DistExtraBits(s)))
    ensures Reached(m, data, State(Copy(g.ctl.codes, g.ctl.len, DistBase(s) + v),
                                   g.pos + g.ctl.codes.dist[s] + DistExtraBits(s), g.out))
  {
    hide Step, Usable, Reached, DistBase, DistExtraBits, Code, StartCopy, Reaches, Holds;
    ReachedOk(m, data, g);
    StartCopyValid(m, g.ctl.codes, g.ctl.len, DistBase(s) + v, |g.out|);
    HoldsConcat(data, g.pos, Code(g.ctl.codes.dist, s), ToBits(v, DistExtraBits(s)));
    ReadSymbol(m, data, g, s);
    if DistExtraBits(s) > 0 {
      ReadItem(m, data, AfterSymbol(m, g, s), v);
    } else {
      assert v == 0;
    }
  }

  lemma RunCopy(m: Mode, data: seq<Byte>, g: State)
    requires Reached(m, data, g) && g.ctl.Copy? && 0 < g.ctl.dist <= |g.out|
    ensures Reached(m, data, State(Block(g.ctl.codes), g.pos, Expand(g.out, g.ctl.dist, g.ctl.len)))
  {
    hide Step, StateOk;
    var k: nat :| At(m, data, g, k);
    AtCopied(m, data, g, k);
  }

  lemma ReadToken(m: Mode, data: seq<Byte>, pos: nat, c: Coding, codes: Codes, t: Token, out: seq<Byte>)
    requires Reached(m, data, State(Block(codes), pos, out)) && codes.lit == LitLens(c) && codes.dist == DistLens(c)
    requires TokenOk(m, c, t, |out|) && Holds(data, pos, TokenBits(m, c, t, |out|))
    ensures Reached(m, data, State(Block(codes), pos + |TokenBits(m, c, t, |out|)|, TokenOut(m, c, t, out)))
  {
    hide Reached, Code, LengthBase, LengthExtraBits, DistBase, DistExtraBits, LitLens, DistLens, Holds;
    var g := State(Block(codes), pos, out);
    match t
    case Lit(b) => ReadLiteral(m, data, g, b);
    case Match(lsym, lextra, dsym, dextra) =>
      var w1 := Code(codes.lit, lsym) + ToBits(lextra, LengthExtraBits(lsym));
      var w2 := Code(codes.dist, dsym) + ToBits(dextra, DistExtraBits(dsym));
      HoldsConcat(data, pos, w1, w2);
      ReadLength(m, data, g, lsym, lextra);
      var g1 := State(Distance(codes, TokenLen(t)), pos + |w1|, out);
      ReadDistance(m, data, g1, dsym, dextra);
      RunCopy(m, data, State(Copy(codes, TokenLen(t), TokenDist(t)), pos + |w1| + |w2|, out));
  }

  lemma {:induction false} ReadTokens(m: Mode, data: seq<Byte>, pos: nat, c: Coding, codes: Codes, ts: seq<Token>,
                                      out: seq<Byte>, end: nat, res: seq<Byte>)
    requires Reached(m, data, State(Block(codes), pos, out)) && codes.lit == LitLens(c) && codes.dist == DistLens(c)
    requires HoldsTokens(m, data, pos, c, ts, out, end, res)
    ensures Reached(m, data, State(AfterBlock(codes.final), end, res))
    decreases |ts|
  {
    hide Reached, Code, LitLens, DistLens, Holds, TokenOk, TokenBits, TokenOut, Usable;
    if ts == [] {
      var g := State(Block(codes), pos, out);
      ReadSymbol(m, data, g, 256);
      assert AfterSymbol(m, g, 256) == State(AfterBlock(codes.final), end, res);
    } else {
      ReadToken(m, data, pos, c, codes, ts[0], out);
      ReadTokens(m, data, pos + |TokenBits(m, c, ts[0], |out|)|, c, codes, ts[1..], TokenOut(m, c, ts[0], out), end, res);
    }
  }

  // ---- the fixed codes are complete ----

  lemma {:induction false} CountConcat(a: seq<nat>, b: seq<nat>, l: nat)
    ensures Count(a + b, l) == Count(a, l) + Count(b, l)
  {
    if b == [] {
      assert a + b == a;
    } else {
      assert (a + b)[..|a + b| - 1] == a + b[..|b| - 1];
      CountConcat(a, b[..|b| - 1], l);
    }
  }

  lemma {:induction false} CountRepeat(v: nat, n: nat, l: nat)
    ensures Count(Repeat(v, n), l) == if v == l then n else 0
  {
    if n > 0 {
      assert Repeat(v, n)[..n - 1] == Repeat(v, n - 1);
      CountRepeat(v, n - 1, l);
    }
  }

  lemma FixedLitCount(l: nat)
    ensures Count(FIXED_LIT, l) == if l == 7 then 24 else if l == 8 then 152 else if l == 9 then 112 else 0
  {
    var a, b, c, d := Repeat(8 as nat, 144), Repeat(9 as nat, 112), Repeat(7 as nat, 24), Repeat(8 as nat, 8);
    CountConcat(a + b + c, d, l);
    CountConcat(a + b, c, l);
    CountConcat(a, b, l);
    CountRepeat(8, 144, l);
    CountRepeat(9, 112, l);
    CountRepeat(7, 24, l);
    CountRepeat(8, 8, l);
  }

  /** Once no longer codes follow, the first code of each length is just the last end, doubled. */
  lemma {:induction false} NextCodeTail(lens: seq<nat>, l: nat, k: nat)
    requires 1 <= l && forall i :: l <= i < l + k ==> Count(lens, i) == 0
    ensures NextCode(lens, l + k) == NextCode(lens, l) * Pow2(k)
  {
    if k > 0 {
      NextCodeTail(lens, l, k - 1);
      assert Count(lens, l + k - 1) == 0;
      MulTwice(Pow2(k - 1), NextCode(lens, l));
    }
  }

  lemma FixedLitUsable()
    ensures Usable(FIXED_LIT) && |FIXED_LIT| == 288
  {
    forall l
      ensures Count(FIXED_LIT, l) == if l == 7 then 24 else if l == 8 then 152 else if l == 9 then 112 else 0
    {
      FixedLitCount(l);
    }
    NextCodeTail(FIXED_LIT, 1, 6);
    assert NextCode(FIXED_LIT, 8) == 48;
    assert NextCode(FIXED_LIT, 9) == 400;
    assert NextCode(FIXED_LIT, 10) == 1024;
    NextCodeTail(FIXED_LIT, 10, 6);
    assert Pow2(6) == 64;
  }

  lemma FixedDistUsable()
    ensures Usable(FIXED_DIST) && |FIXED_DIST| == 32
  {
    forall l
      ensures Count(FIXED_DIST, l) == if l == 5 then 32 else 0
    {
      CountRepeat(5, 32, l);
    }
    NextCodeTail(FIXED_DIST, 1, 4);
    assert NextCode(FIXED_DIST, 6) == 64;
    NextCodeTail(FIXED_DIST, 6, 10);
    Pow2Values();
  }

  // ---- the header of a dynamic block ----

  /** The code lengths the header can express when only the first `n` in transmission order are sent. */
  function Sent(clens: seq<nat>, n: nat): (r: seq<nat>)
    requires |clens| == 19 && n <= 19
    ensures |r| == 19
  {
    if n == 0 then Repeat(0, 19) else Sent(clens, n - 1)[Zigzag(n - 1) := clens[Zigzag(n - 1)]]
  }

  predicate RunOk(clens: seq<nat>, r: LenRun, got: seq<nat>) {
    && r.sym <= 18 && SymbolOk(clens, r.sym)
    && (r.sym == 16 ==> got != [])
    && (if r.sym < 16 then r.extra == 0 else r.extra < Pow2(RepeatBits(r.sym)))
  }

  ghost function RunBits(clens: seq<nat>, r: LenRun, got: seq<nat>): seq<bool>
    requires RunOk(clens, r, got)
  {
    Code(clens, r.sym) + if r.sym < 16 then [] else ToBits(r.extra, RepeatBits(r.sym))
  }

  function RunOut(clens: seq<nat>, r: LenRun, got: seq<nat>): seq<nat>
    requires RunOk(clens, r, got)
  {
    if r.sym < 16 then got + [r.sym] else got + RunOf(got, r.sym, r.extra)
  }

  /** The runs lie between `pos` and `end` and spell out exactly `lens`. */
  ghost predicate HoldsRuns(data: seq<Byte>, pos: nat, clens: seq<nat>, runs: seq<LenRun>, got: seq<nat>,
                            end: nat, lens: seq<nat>)
    decreases |runs|
  {
    if runs == [] then
      end == pos && got == lens
    else
      RunOk(clens, runs[0], got) && |got| < |lens| && Holds(data, pos, RunBits(clens, runs[0], got)) &&
      HoldsRuns(data, pos + |RunBits(clens, runs[0], got)|, clens, runs[1..], RunOut(clens, runs[0], got), end, lens)
  }

  ghost predicate DynamicOk(c: Coding) {
    && c.Dynamic?
    && 257 <= |c.lit| <= 288 && 1 <= |c.dist| <= 32 && Usable(c.lit) && Usable(c.dist)
    && |c.clens| == 19 && 4 <= c.sent <= 19 && Usable(c.clens) && Sent(c.clens, c.sent) == c.clens
    && (forall i :: 0 <= i < 19 ==> c.clens[i] < 8)
  }

  ghost predicate HoldsLens(data: seq<Byte>, pos: nat, clens: seq<nat>, n: nat)
    requires |clens| == 19 && n <= 19
  {
    forall i {:trigger Zigzag(i)} :: 0 <= i < n ==> Holds(data, pos + 3 * i, ToBits(clens[Zigzag(i)], 3))
  }

  ghost predicate HoldsHeader(data: seq<Byte>, pos: nat, c: Coding, end: nat) {
    && DynamicOk(c)
    && Holds(data, pos, ToBits(|c.lit| - 257, 5))
    && Holds(data, pos + 5, ToBits(|c.dist| - 1, 5))
    && Holds(data, pos + 10, ToBits(c.sent - 4, 4))
    && HoldsLens(data, pos + 14, c.clens, c.sent)
    && HoldsRuns(data, pos + 14 + 3 * c.sent, c.clens, c.runs, [], end, c.lit + c.dist)
  }

  lemma ReachedCtl(m: Mode, data: seq<Byte>, g: State)
    requires Reached(m, data, g)
    ensures CtlOk(g.ctl)
  {
    hide CtlOk;
  }

  lemma ItemAfter(m: Mode, g: State, v: nat)
    requires CtlOk(g.ctl) && ItemBits(g.ctl) > 0
    ensures AfterItem(m, g, v) == State(OnBits(m, g.ctl, v, |g.out|), g.pos + ItemBits(g.ctl), g.out)
  {
    hide CtlOk, OnBits;
  }

  lemma OnSize(m: Mode, final: bool, sizes: seq<nat>, v: nat, have: nat)
    requires CtlOk(DynHead(final, sizes))
    ensures ItemBits(DynHead(final, sizes)) == HeadBits(|sizes|) > 0
    ensures OnBits(m, DynHead(final, sizes), v, have) == AfterSize(final, sizes + [v + HeadMin(|sizes|)])
  {
    hide AfterSize;
  }

  lemma ReadSize(m: Mode, data: seq<Byte>, pos: nat, final: bool, sizes: seq<nat>, size: nat, out: seq<Byte>)
    requires Reached(m, data, State(DynHead(final, sizes), pos, out)) && |sizes| < 3
    requires HeadMin(|sizes|) <= size && size - HeadMin(|sizes|) < Pow2(HeadBits(|sizes|))
    requires Holds(data, pos, ToBits(size - HeadMin(|sizes|), HeadBits(|sizes|)))
    ensures Reached(m, data, State(AfterSize(final, sizes + [size]), pos + HeadBits(|sizes|), out))
  {
    hide *;
    var v, g := size - HeadMin(|sizes|), State(DynHead(final, sizes), pos, out);
    ReachedCtl(m, data, g);
    OnSize(m, final, sizes, v, |out|);
    ReadItem(m, data, g, v);
    ItemAfter(m, g, v);
  }

  lemma DynamicSizes(c: Coding)
    requires DynamicOk(c)
    ensures c.Dynamic? && 257 <= |c.lit| <= 288 && 1 <= |c.dist| <= 32 && 4 <= c.sent <= 19
  {
  }

  lemma HeadValues()
    ensures HeadBits(0) == 5 && HeadBits(1) == 5 && HeadBits(2) == 4
    ensures HeadMin(0) == 257 && HeadMin(1) == 1 && HeadMin(2) == 4
  {
  }

  lemma ReadSizes(m: Mode, data: seq<Byte>, pos: nat, final: bool, c: Coding, out: seq<Byte>)
    requires Reached(m, data, State(DynHead(final, []), pos, out)) && DynamicOk(c)
    requires Holds(data, pos, ToBits(|c.lit| - 257, 5)) && Holds(data, pos + 5, ToBits(|c.dist| - 1, 5))
    requires Holds(data, pos + 10, ToBits(c.sent - 4, 4))
    ensures Reached(m, data, State(DynLens(final, [|c.lit|, |c.dist|, c.sent], 0, Repeat(0, 19)), pos + 14, out))
  {
    hide *;
    DynamicSizes(c);
    HeadValues();
    Pow2Values();
    NextSize(final, |c.lit|, |c.dist|, c.sent);
    ReadSize(m, data, pos, final, [], |c.lit|, out);
    ReadSize(m, data, pos + 5, final, [|c.lit|], |c.dist|, out);
    ReadSize(m, data, pos + 10, final, [|c.lit|, |c.dist|], c.sent, out);
  }

  lemma NextSize(final: bool, a: nat, b: nat, c: nat)
    ensures AfterSize(final, [] + [a]) == DynHead(final, [a])
    ensures AfterSize(final, [a] + [b]) == DynHead(final, [a, b])
    ensures AfterSize(final, [a, b] + [c]) == DynLens(final, [a, b, c], 0, Repeat(0, 19))
  {
    assert [] + [a] == [a] && [a] + [b] == [a, b] && [a, b] + [c] == [a, b, c];
  }

  lemma ReadLen(m: Mode, data: seq<Byte>, pos: nat, final: bool, sizes: seq<nat>, read: nat, clens: seq<nat>,
                v: nat, out: seq<Byte>)
    requires Reached(m, data, State(DynLens(final, sizes, read, clens), pos, out))
    requires v < 8 && Holds(data, pos, ToBits(v, 3))
    ensures |sizes| == 3 && read < 19 && |clens| == 19
    ensures Reached(m, data, State(AfterLen(final, sizes, read + 1, clens[Zigzag(read) := v]), pos + 3, out))
  {
    hide Reached, Usable, Holds, AfterLen, Zigzag;
    assert Pow2(3) == 8;
    ReachedOk(m, data, State(DynLens(final, sizes, read, clens), pos, out));
    ReadItem(m, data, State(DynLens(final, sizes, read, clens), pos, out), v);
  }

  lemma {:induction false} ReadLens(m: Mode, data: seq<Byte>, pos: nat, final: bool, sizes: seq<nat>, clens: seq<nat>,
                                    n: nat, out: seq<Byte>)
    requires SizesOk(sizes) && |clens| == 19 && (forall i :: 0 <= i < 19 ==> clens[i] < 8) && n < sizes[2]
    requires Reached(m, data, State(DynLens(final, sizes, 0, Repeat(0, 19)), pos, out))
    requires HoldsLens(data, pos, clens, sizes[2])
    ensures Reached(m, data, State(DynLens(final, sizes, n, Sent(clens, n)), pos + 3 * n, out))
  {
    hide Reached, Usable, Holds, Zigzag;
    if n > 0 {
      ReadLens(m, data, pos, final, sizes, clens, n - 1, out);
      ReadLen(m, data, pos + 3 * (n - 1), final, sizes, n - 1, Sent(clens, n - 1), clens[Zigzag(n - 1)], out);
    }
  }

  lemma ReadAllLens(m: Mode, data: seq<Byte>, pos: nat, final: bool, sizes: seq<nat>, clens: seq<nat>, out: seq<Byte>)
    requires SizesOk(sizes) && |clens| == 19 && (forall i :: 0 <= i < 19 ==> clens[i] < 8)
    requires Reached(m, data, State(DynLens(final, sizes, 0, Repeat(0, 19)), pos, out))
    requires HoldsLens(data, pos, clens, sizes[2]) && Sent(clens, sizes[2]) == clens && Usable(clens)
    ensures Reached(m, data, State(DynCodes(final, sizes, clens, []), pos + 3 * sizes[2], out))
  {
    hide Reached, Usable, Holds, Zigzag, Sent, CtlOk;
    var n := sizes[2] - 1;
    ReadLens(m, data, pos, final, sizes, clens, n, out);
    SentStep(clens, n);
    ReadLen(m, data, pos + 3 * n, final, sizes, n, Sent(clens, n), clens[Zigzag(n)], out);
  }

  lemma SentStep(clens: seq<nat>, n: nat)
    requires |clens| == 19 && n < 19
    ensures Sent(clens, n + 1) == Sent(clens, n)[Zigzag(n) := clens[Zigzag(n)]]
  {
    hide Zigzag;
  }

  lemma {:induction false} RunsLength(data: seq<Byte>, pos: nat, clens: seq<nat>, runs: seq<LenRun>, got: seq<nat>,
                                      end: nat, lens: seq<nat>)
    requires HoldsRuns(data, pos, clens, runs, got, end, lens)
    ensures got <= lens
    decreases |runs|
  {
    hide Holds, Code, RunOf;
    if runs != [] {
      var got' := RunOut(clens, runs[0], got);
      RunsLength(data, pos + |RunBits(clens, runs[0], got)|, clens, runs[1..], got', end, lens);
      assert got <= got';
    }
  }

  lemma ReadRun(m: Mode, data: seq<Byte>, g: State, r: LenRun)
    requires Reached(m, data, g) && g.ctl.DynCodes? && RunOk(g.ctl.clens, r, g.ctl.got)
    requires Holds(data, g.pos, RunBits(g.ctl.clens, r, g.ctl.got))
    ensures |g.ctl.sizes| == 3
    ensures Reached(m, data, State(AfterCode(g.ctl.final, g.ctl.sizes, g.ctl.clens, RunOut(g.ctl.clens, r, g.ctl.got)),
                                   g.pos + |RunBits(g.ctl.clens, r, g.ctl.got)|, g.out))
  {
    hide Reached, Usable, Holds, Code, AfterCode, RunOf, RepeatBits;
    ReachedOk(m, data, g);
    if r.sym < 16 {
      assert RunBits(g.ctl.clens, r, g.ctl.got) == Code(g.ctl.clens, r.sym);
      ReadSymbol(m, data, g, r.sym);
    } else {
      HoldsConcat(data, g.pos, Code(g.ctl.clens, r.sym), ToBits(r.extra, RepeatBits(r.sym)));
      ReadSymbol(m, data, g, r.sym);
      ReadItem(m, data, AfterSymbol(m, g, r.sym), r.extra);
    }
  }

  lemma {:induction false} ReadRuns(m: Mode, data: seq<Byte>, g: State, runs: seq<LenRun>, end: nat,
                                    lit: seq<nat>, dist: seq<nat>)
    requires Reached(m, data, g) && g.ctl.DynCodes? && |g.ctl.sizes| == 3
    requires |lit| == g.ctl.sizes[0] && |dist| == g.ctl.sizes[1] && Usable(lit) && Usable(dist)
    requires runs != [] && HoldsRuns(data, g.pos, g.ctl.clens, runs, g.ctl.got, end, lit + dist)
    ensures Reached(m, data, State(Block(Codes(g.ctl.final, lit, dist)), end, g.out))
    decreases |runs|
  {
    hide Reached, Usable, Holds, Code, RunOf, RunBits, RunOk, RunOut;
    var ctl, r := g.ctl, runs[0];
    ReadRun(m, data, g, r);
    var got' := RunOut(ctl.clens, r, ctl.got);
    var pos' := g.pos + |RunBits(ctl.clens, r, ctl.got)|;
    RunsLength(data, pos', ctl.clens, runs[1..], got', end, lit + dist);
    if runs[1..] == [] {
      assert got'[..ctl.sizes[0]] == lit && got'[ctl.sizes[0]..] == dist;
    } else {
      ReadRuns(m, data, State(DynCodes(ctl.final, ctl.sizes, ctl.clens, got'), pos', g.out), runs[1..], end, lit, dist);
    }
  }

  lemma ReadHeader(m: Mode, data: seq<Byte>, pos: nat, final: bool, c: Coding, out: seq<Byte>, end: nat)
    requires Reached(m, data, State(DynHead(final, []), pos, out)) && HoldsHeader(data, pos, c, end)
    ensures Reached(m, data, State(Block(Codes(final, c.lit, c.dist)), end, out))
  {
    hide Reached, Usable, Holds, HoldsLens, Sent;
    ReadSizes(m, data, pos, final, c, out);
    var sizes := [|c.lit|, |c.dist|, c.sent];
    ReadAllLens(m, data, pos + 14, final, sizes, c.clens, out);
    assert c.runs != [];
    ReadRuns(m, data, State(DynCodes(final, sizes, c.clens, []), pos + 14 + 3 * c.sent, out), c.runs, end, c.lit, c.dist);
  }

  // ---- blocks ----

  ghost predicate HoldsStored(data: seq<Byte>, pos: nat, bytes: seq<Byte>) {
    && pos % 8 == 0 && |bytes| < 65536 && pos / 8 + 4 + |bytes| <= |data|
    && Word(data[pos / 8], data[pos / 8 + 1]) == |bytes|
    && Word(data[pos / 8 + 2], data[pos / 8 + 3]) == 0xFFFF - |bytes|
    && data[pos / 8 + 4..pos / 8 + 4 + |bytes|] == bytes
  }

  /** Block `b` lies between `pos` and `end` and turns the output `out` into `res`. */
  ghost predicate HoldsBlock(m: Mode, data: seq<Byte>, pos: nat, final: bool, b: BlockData, out: seq<Byte>,
                             end: nat, res: seq<Byte>)
  {
    match b
    case StoredData(bytes) =>
      Holds(data, pos, [final, false, false]) && HoldsStored(data, RoundUp(pos + 3), bytes) &&
      end == RoundUp(pos + 3) + 32 + 8 * |bytes| && res == out + bytes
    case Coded(Fixed, tokens) =>
      Holds(data, pos, [final, true, false]) && HoldsTokens(m, data, pos + 3, Fixed, tokens, out, end, res)
    case Coded(c, tokens) =>
      Holds(data, pos, [final, false, true]) &&
      exists mid: nat :: HoldsHeader(data, pos + 3, c, mid) && HoldsTokens(m, data, mid, c, tokens, out, end, res)
  }

  /** A list of blocks of which exactly the last is marked final. */
  ghost predicate HoldsBlocks(m: Mode, data: seq<Byte>, pos: nat, bs: seq<BlockData>, out: seq<Byte>,
                              end: nat, res: seq<Byte>)
    decreases |bs|
  {
    if |bs| == 0 then false
    else if |bs| == 1 then HoldsBlock(m, data, pos, true, bs[0], out, end, res)
    else exists mid: nat, part: seq<Byte> ::
      HoldsBlock(m, data, pos, false, bs[0], out, mid, part) && HoldsBlocks(m, data, mid, bs[1..], part, end, res)
  }

  lemma ReadKind(m: Mode, data: seq<Byte>, pos: nat, final: bool, lo: bool, hi: bool, out: seq<Byte>)
    requires Reached(m, data, State(BlockHead, pos, out)) && Holds(data, pos, [final, lo, hi])
    ensures Reached(m, data, State(OpenBlock(final, BitVal(lo) + 2 * BitVal(hi)), pos + 3, out))
  {
    hide Reached, Holds, OpenBlock;
    var v := BitVal(final) + 2 * (BitVal(lo) + 2 * BitVal(hi));
    assert Pow2(3) == 8;
    assert ToBits(v, 3) == [final, lo, hi] by {
      assert v % 2 == BitVal(final) && v / 2 == BitVal(lo) + 2 * BitVal(hi);
      assert v / 2 % 2 == BitVal(lo) && v / 2 / 2 == BitVal(hi);
      assert ToBits(v / 2 / 2, 1) == [hi];
      assert ToBits(v / 2, 2) == [lo] + [hi];
    }
    ReadItem(m, data, State(BlockHead, pos, out), v);
  }

  lemma ByteHeld(data: seq<Byte>, k: nat)
    requires k < |data|
    ensures Holds(data, 8 * k, ToBits(data[k], 8)) && data[k] < Pow2(8)
  {
    SliceByte(data, k);
    Pow2Values();
  }

  lemma ReadByte(m: Mode, data: seq<Byte>, g: State, k: nat)
    requires Reached(m, data, g) && g.pos == 8 * k && k < |data| && ItemBits(g.ctl) == 8
    ensures CtlOk(g.ctl) && Reached(m, data, State(OnBits(m, g.ctl, data[k], |g.out|), 8 * (k + 1), g.out))
  {
    hide Reached, Holds, OnBits, CtlOk;
    ByteHeld(data, k);
    ReadItem(m, data, g, data[k]);
  }

  lemma ReadHeadByte(m: Mode, data: seq<Byte>, k: nat, final: bool, hdr: seq<nat>, b: nat, out: seq<Byte>)
    requires Reached(m, data, State(StoredHead(final, hdr), 8 * k, out)) && k < |data| && b == data[k]
    ensures Reached(m, data, State(AfterStoredHead(final, hdr + [b]), 8 * (k + 1), out))
  {
    hide Reached, AfterStoredHead;
    ReachedOk(m, data, State(StoredHead(final, hdr), 8 * k, out));
    ReadByte(m, data, State(StoredHead(final, hdr), 8 * k, out), k);
  }

  lemma ReadStoredHead(m: Mode, data: seq<Byte>, k: nat, final: bool, bytes: seq<Byte>, out: seq<Byte>)
    requires Reached(m, data, State(StoredHead(final, []), 8 * k, out)) && HoldsStored(data, 8 * k, bytes)
    ensures Reached(m, data, State(StoredNext(final, |bytes|), 8 * (k + 4), out))
  {
    hide Reached;
    var a: nat, b: nat, c: nat, d: nat := data[k], data[k + 1], data[k + 2], data[k + 3];
    ReadHeadByte(m, data, k, final, [], a, out);
    assert [] + [a] == [a];
    ReadHeadByte(m, data, k + 1, final, [a], b, out);
    assert [a] + [b] == [a, b];
    ReadHeadByte(m, data, k + 2, final, [a, b], c, out);
    assert [a, b] + [c] == [a, b, c];
    ReadHeadByte(m, data, k + 3, final, [a, b, c], d, out);
    assert [a, b, c] + [d] == [a, b, c, d];
  }

  lemma {:induction false} ReadStoredBytes(m: Mode, data: seq<Byte>, k: nat, final: bool, bytes: seq<Byte>, out: seq<Byte>)
    requires Reached(m, data, State(StoredNext(final, |bytes|), 8 * k, out))
    requires k + |bytes| <= |data| && data[k..k + |bytes|] == bytes
    ensures Reached(m, data, State(AfterBlock(final), 8 * (k + |bytes|), out + bytes))
    decreases |bytes|
  {
    hide Reached, Usable;
    if bytes == [] {
      assert out + bytes == out;
    } else {
      ReadByte(m, data, State(Stored(final, |bytes|), 8 * k, out), k);
      var b := data[k];
      assert b == bytes[0] && b % 256 == b;
      var g := State(StoredByte(final, |bytes|, b), 8 * (k + 1), out);
      ReachedOk(m, data, g);
      StepsEmit(m, data, g);
      var g' := State(StoredNext(final, |bytes| - 1), 8 * (k + 1), out + [b]);
      ReachNext(m, data, g, g');
      assert data[k + 1..k + 1 + |bytes[1..]|] == bytes[1..];
      ReadStoredBytes(m, data, k + 1, final, bytes[1..], out + [b]);
      assert out + [b] + bytes[1..] == out + bytes;
    }
  }

  lemma ReadStored(m: Mode, data: seq<Byte>, pos: nat, final: bool, bytes: seq<Byte>, out: seq<Byte>)
    requires Reached(m, data, State(StoredAlign(final), pos, out)) && HoldsStored(data, RoundUp(pos), bytes)
    ensures Reached(m, data, State(AfterBlock(final), RoundUp(pos) + 32 + 8 * |bytes|, out + bytes))
  {
    hide Reached;
    var g := State(StoredAlign(final), pos, out);
    ReachedOk(m, data, g);
    StepsAlign(m, data, g);
    var k := RoundUp(pos) / 8;
    ReachNext(m, data, g, State(StoredHead(final, []), 8 * k, out));
    ReadStoredHead(m, data, k, final, bytes, out);
    ReadStoredBytes(m, data, k + 4, final, bytes, out);
  }

  lemma ReadBlock(m: Mode, data: seq<Byte>, pos: nat, final: bool, b: BlockData, out: seq<Byte>, end: nat, res: seq<Byte>)
    requires Reached(m, data, State(BlockHead, pos, out)) && HoldsBlock(m, data, pos, final, b, out, end, res)
    ensures Reached(m, data, State(AfterBlock(final), end, res))
  {
    hide Reached, Holds, HoldsStored, HoldsTokens, HoldsHeader, Usable;
    match b
    case StoredData(bytes) =>
      ReadKind(m, data, pos, final, false, false, out);
      ReadStored(m, data, pos + 3, final, bytes, out);
    case Coded(Fixed, tokens) =>
      ReadKind(m, data, pos, final, true, false, out);
      FixedLitUsable();
      FixedDistUsable();
      ReadTokens(m, data, pos + 3, Fixed, Codes(final, FIXED_LIT, FIXED_DIST), tokens, out, end, res);
    case Coded(c, tokens) =>
      ReadKind(m, data, pos, final, false, true, out);
      var mid: nat :| HoldsHeader(data, pos + 3, c, mid) && HoldsTokens(m, data, mid, c, tokens, out, end, res);
      ReadHeader(m, data, pos + 3, final, c, out, mid);
      ReadTokens(m, data, mid, c, Codes(final, c.lit, c.dist), tokens, out, end, res);
  }

  lemma {:induction false} ReadBlocks(m: Mode, data: seq<Byte>, pos: nat, bs: seq<BlockData>, out: seq<Byte>,
                                      end: nat, res: seq<Byte>)
    requires Reached(m, data, State(BlockHead, pos, out)) && HoldsBlocks(m, data, pos, bs, out, end, res)
    ensures Reached(m, data, State(TrailAlign, end, res))
    decreases |bs|
  {
    hide Reached, HoldsBlock;
    if |bs| == 1 {
      ReadBlock(m, data, pos, true, bs[0], out, end, res);
    } else {
      var mid: nat, part: seq<Byte> :|
        HoldsBlock(m, data, pos, false, bs[0], out, mid, part) && HoldsBlocks(m, data, mid, bs[1..], part, end, res);
      ReadBlock(m, data, pos, false, bs[0], out, mid, part);
      ReadBlocks(m, data, mid, bs[1..], part, end, res);
    }
  }

  // ---- whole streams ----

  /** A raw stream: the blocks, then nothing the decoder looks at. */
  ghost predicate HoldsRaw(m: Mode, data: seq<Byte>, bs: seq<BlockData>, end: nat, res: seq<Byte>) {
    !m.zlib && HoldsBlocks(m, data, 0, bs, [], end, res)
  }

  function BigEndian(a: nat, b: nat, c: nat, d: nat): nat { ((a * 256 + b) * 256 + c) * 256 + d }

  /** A zlib stream (RFC 1950): two header bytes, the blocks, and the Adler-32 of their output. */
  ghost predicate HoldsZlib(m: Mode, data: seq<Byte>, bs: seq<BlockData>, end: nat, res: seq<Byte>) {
    && m.zlib && |data| >= 2 && !ZlibHeaderBad(m, data[0], data[1])
    && HoldsBlocks(m, data, 16, bs, [], end, res)
    && RoundUp(end) / 8 + 4 <= |data|
    && var t := RoundUp(end) / 8;
       BigEndian(data[t], data[t + 1], data[t + 2], data[t + 3]) == Pack(Fold(START, res))
  }

  ghost predicate HoldsStream(m: Mode, data: seq<Byte>, bs: seq<BlockData>, end: nat, res: seq<Byte>) {
    HoldsRaw(m, data, bs, end, res) || HoldsZlib(m, data, bs, end, res)
  }

  /** Where the stream ends, in bytes. */
  function StreamBytes(m: Mode, end: nat): nat { RoundUp(end) / 8 + if m.zlib then 4 else 0 }

  lemma ReachStart(m: Mode, data: seq<Byte>)
    ensures Reached(m, data, Start(m))
  {
    assert At(m, data, Start(m), 0);
  }

  lemma ReadZlibHeader(m: Mode, data: seq<Byte>)
    requires m.zlib && |data| >= 2 && !ZlibHeaderBad(m, data[0], data[1])
    ensures Reached(m, data, State(BlockHead, 16, []))
  {
    hide Reached, ZlibHeaderBad;
    ReachStart(m, data);
    ReadByte(m, data, Start(m), 0);
    ReadByte(m, data, State(ZHead1(data[0]), 8, []), 1);
  }

  lemma ReadTrailer(m: Mode, data: seq<Byte>, t: nat, out: seq<Byte>)
    requires t + 4 <= |data| && Reached(m, data, State(Trailer(0, 0), 8 * t, out))
    ensures Reached(m, data, State(Done(BigEndian(data[t], data[t + 1], data[t + 2], data[t + 3])), 8 * (t + 4), out))
  {
    hide Reached;
    var a: nat, b: nat, c: nat := data[t], data[t + 1], data[t + 2];
    ReadByte(m, data, State(Trailer(0, 0), 8 * t, out), t);
    ReadByte(m, data, State(Trailer(1, a), 8 * (t + 1), out), t + 1);
    ReadByte(m, data, State(Trailer(2, a * 256 + b), 8 * (t + 2), out), t + 2);
    ReadByte(m, data, State(Trailer(3, (a * 256 + b) * 256 + c), 8 * (t + 3), out), t + 3);
  }

  /** The machine decodes every stream the format allows, to the very end of it. */
  lemma StreamDecodes(m: Mode, data: seq<Byte>, bs: seq<BlockData>, end: nat, res: seq<Byte>) returns (z: nat)
    requires HoldsStream(m, data, bs, end, res)
    ensures Reached(m, data, State(Done(z), 8 * StreamBytes(m, end), res))
    ensures m.zlib ==> z == Pack(Fold(START, res))
  {
    hide Reached, HoldsBlocks, ZlibHeaderBad, Fold, Pack;
    if m.zlib {
      ReadZlibHeader(m, data);
      ReadBlocks(m, data, 16, bs, [], end, res);
    } else {
      ReachStart(m, data);
      ReadBlocks(m, data, 0, bs, [], end, res);
    }
    var g := State(TrailAlign, end, res);
    ReachedOk(m, data, g);
    StepsAlign(m, data, g);
    var t := RoundUp(end) / 8;
    ReachNext(m, data, g, State(AfterAlign(m, TrailAlign), 8 * t, res));
    if m.zlib {
      ReadTrailer(m, data, t, res);
      z := BigEndian(data[t], data[t + 1], data[t + 2], data[t + 3]);
    } else {
      z := 0;
    }
  }

  lemma DoneIsWellFormed(m: Mode, data: seq<Byte>, g: State)
    requires Reached(m, data, g) && g.ctl.Done?
    ensures WellFormed(m, data)
  {
    hide Step;
    var k: nat :| At(m, data, g, k);
    forall n: nat
      ensures !Iter(m, data, Start(m), n).ctl.Malformed?
    {
      if n <= k {
        if Iter(m, data, Start(m), n).ctl.Malformed? { TerminalStays(m, data, Start(m), n, k); }
      } else {
        TerminalStays(m, data, Start(m), k, n);
      }
    }
  }

  /** Every stream of the format meets the precondition of the decompressor. */
  lemma StreamIsWellFormed(m: Mode, data: seq<Byte>, bs: seq<BlockData>, end: nat, res: seq<Byte>)
    requires HoldsStream(m, data, bs, end, res)
    ensures WellFormed(m, data)
  {
    hide Reached, WellFormed, HoldsStream, Fold, Pack;
    var z := StreamDecodes(m, data, bs, end, res);
    DoneIsWellFormed(m, data, State(Done(z), 8 * StreamBytes(m, end), res));
  }

  /** Once the machine has come to its end, every later state of the run is the same. */
  lemma EndIsUnique(m: Mode, data: seq<Byte>, g: State, b: Mark)
    requires Reached(m, data, g) && Terminal(g.ctl)
    requires At(m, data, b.ref, b.steps) && Terminal(b.ref.ctl)
    ensures b.ref == g
  {
    hide Step;
    var k: nat :| At(m, data, g, k);
    if k <= b.steps {
      TerminalStays(m, data, Start(m), k, b.steps);
    } else {
      TerminalStays(m, data, Start(m), b.steps, k);
    }
  }

  /** What the last call of a finished run leaves behind. */
  lemma LastCall(s: Setup, data: seq<Byte>, marks: seq<Mark>, outs: seq<Outcome>)
    requires Run(s, data, marks, outs) && outs != [] && Final(outs[|outs| - 1].status)
    ensures var b := marks[|outs|];
            var status := outs[|outs| - 1].status;
            && At(s.m, data, b.ref, b.steps) && Terminal(b.ref.ctl)
            && b.ref.out == Output(outs) && 8 * Consumed(outs) == b.ref.pos + b.numBits
            && (b.ref.ctl.Done? ==> b.numBits == 0 && !status.Fail?)
            && (b.ref.ctl.Done? && status.AdlerMismatch? ==>
                s.m.zlib && Pack(Fold(START, SummedOutput(s, outs))) != b.ref.ctl.z)
  {
    hide WellFormed, At, StateOk, Rested, Summed, Fold;
    RunRefines(s, data, marks, outs);
    var n := |outs| - 1;
    assert Called(s, data, marks[n], outs[n], marks[n + 1]);
  }

  /** Round trip.  Any run of calls over a stream that holds blocks of the format, once it comes to an
      end, has produced exactly what the blocks stand for, has consumed exactly the bytes of the stream
      and none of what follows it, and ends in success: always for raw streams, and for zlib streams
      whenever no call was told too early that its input was the last. */
  lemma RoundTrip(s: Setup, data: seq<Byte>, bs: seq<BlockData>, end: nat, res: seq<Byte>,
                  marks: seq<Mark>, outs: seq<Outcome>)
    requires HoldsStream(s.m, data, bs, end, res)
    requires Run(s, data, marks, outs) && outs != [] && Final(outs[|outs| - 1].status)
    ensures Output(outs) == res
    ensures Consumed(outs) == StreamBytes(s.m, end)
    ensures !s.m.zlib || Flagged(outs) ==> outs[|outs| - 1].status.Finish?
  {
    hide WellFormed, HoldsStream, Fold, Pack, Step, Rested, Summed, At, Reached, Called, MarkOk;
    var z := StreamDecodes(s.m, data, bs, end, res);
    var g := State(Done(z), 8 * StreamBytes(s.m, end), res);
    LastCall(s, data, marks, outs);
    EndIsUnique(s.m, data, g, marks[|outs|]);
    if s.m.zlib && Flagged(outs) {
      RunNeverFailed(s, data, marks, outs);
      FlaggedSums(s, outs);
    }
  }
}
