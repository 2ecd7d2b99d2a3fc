/** The decompressor object that lives from call to call, what each call guarantees, and what follows
    for any sequence of calls. */
module Decompressor {
  import opened Bits
  import opened Canonical
  import opened Deflate
  import opened Window
  import opened Adler
  import opened Inflate

  /** What the caller fixes for a stream besides its mode. */
  datatype Setup = Setup(m: Mode, wide: bool, checksum: bool)

  /** The ghost state of a decompressor between calls. */
  datatype Mark = Mark(ref: State, steps: nat, consumed: nat, numBits: nat, sums: Sums)

  /** A call: the input it was offered, the room for output and whether more input was announced; and what it
      reports: status, bytes consumed, bytes written. */
  datatype Outcome = Outcome(offered: nat, room: nat, hasMore: bool, status: Status, used: nat, produced: seq<Byte>)

  function StartMark(m: Mode): Mark { Mark(Start(m), 0, 0, 0, START) }

  /** The checksum follows the output of every call that does not report a failure. */
  predicate Summed(s: Setup, status: Status) {
    (s.m.zlib || s.checksum) && (status.NeedsMoreInput? || status.HasMoreOutput? || status.Finish? || status.AdlerMismatch?)
  }

  ghost predicate MarkOk(m: Mode, data: seq<Byte>, a: Mark) {
    && WellFormed(m, data)
    && At(m, data, a.ref, a.steps)
    && StateOk(m, data, a.ref)
    && !a.ref.ctl.Malformed?
    && a.ref.pos + a.numBits == 8 * a.consumed <= 8 * |data|
    && Rested(data, a)
  }

  /** Between calls the buffer holds less than a byte, unless the machine needs all of it and more. */
  ghost predicate Rested(data: seq<Byte>, a: Mark) {
    && (a.numBits < 8 || Needs(data, a.ref, a.numBits))
    && (WantsSymbol(a.ref.ctl) ==> Needs(data, a.ref, a.numBits))
  }

  ghost predicate StatusOk(s: Setup, data: seq<Byte>, b: Mark, o: Outcome) {
    match o.status
    case Finish => b.ref.ctl.Done? && b.numBits == 0 && (s.m.zlib ==> Pack(b.sums) == b.ref.ctl.z)
    case AdlerMismatch => b.ref.ctl.Done? && b.numBits == 0 && s.m.zlib && Pack(b.sums) != b.ref.ctl.z
    case Fail => b.ref.ctl.Failed? && b.numBits < 8
    case HasMoreOutput => Emits(b.ref.ctl) || b.ref.ctl.Stored?
    case NeedsMoreInput => Needs(data, b.ref, b.numBits)
    case CannotMakeProgress => Needs(data, b.ref, b.numBits)
    case BadParam => o.used == 0 && o.produced == []
  }

  predicate IsPow2(n: nat) {
    n == 1 || (n > 1 && n % 2 == 0 && IsPow2(n / 2))
  }

  /** A ring whose size is not a power of two is refused. */
  predicate BadSize(m: Mode) { m.wrap && m.size > 0 && !IsPow2(m.size) }

  /** How the report fits what was offered. */
  predicate Answers(m: Mode, o: Outcome) {
    && o.used <= o.offered && |o.produced| <= o.room
    && (o.status.NeedsMoreInput? ==> o.hasMore && o.used == o.offered)
    && (o.status.CannotMakeProgress? ==> !o.hasMore && o.used == o.offered)
    && (o.status.HasMoreOutput? ==> |o.produced| == o.room)
    && (o.status.BadParam? <==> BadSize(m))
  }

  /** What one call does to the state, whatever input and room it was given. */
  ghost predicate Called(s: Setup, data: seq<Byte>, a: Mark, o: Outcome, b: Mark) {
    && MarkOk(s.m, data, a) && MarkOk(s.m, data, b)
    && a.steps <= b.steps
    && a.consumed + o.offered <= |data| && Answers(s.m, o)
    && b.consumed == a.consumed + o.used
    && b.ref.out == a.ref.out + o.produced
    && b.sums == (if Summed(s, o.status) then Fold(a.sums, o.produced) else a.sums)
    && StatusOk(s, data, b, o)
  }

  // ---- entering and leaving a call ----

  ghost function CallOf(s: Setup, data: seq<Byte>, a: Mark, inp: seq<Byte>, outNext: nat): Call {
    Call(s.m, s.wide, data, a.consumed, inp, outNext, a.numBits, a.ref)
  }

  /** A call resumed inside a symbol has fewer than fifteen bits to start from. */
  lemma SymbolBitsMissing(c: Call, f: Frame, g: State, k: nat)
    requires WellFormed(c.m, c.data) && InSync(c, f, g) && At(c.m, c.data, g, k)
    requires WantsSymbol(g.ctl) && Needs(c.data, g, f.numBits)
    ensures f.numBits < 15
  {
    hide WellFormed, At, Carry, CallOk;
    if f.numBits >= 15 {
      var t := ReadySymbol(c, f, g, k);
    }
  }

  /** Unless it waits for input, the coroutine can return all whole bytes it holds. */
  lemma CanPutBack(c: Call, f: Frame, g: State, size: nat, stop: Stop)
    requires InSync(c, f, g) && StopOk(c, f, g, size, stop) && (stop.WantRoom? || stop.Finished?)
    ensures f.numBits < 8 + 8 * f.inCur && !WantsSymbol(g.ctl)
  {
    hide CallOk, Buffered, Usable, CodesOk;
  }

  ghost function After(c: Call, f: Frame, g: State, k: nat, sums: Sums): Mark {
    Mark(g, k, c.base + f.inCur, f.numBits, sums)
  }

  lemma AfterOk(c: Call, f: Frame, g: State, k: nat, sums: Sums)
    requires WellFormed(c.m, c.data) && InSync(c, f, g) && At(c.m, c.data, g, k) && !g.ctl.Malformed?
    requires if WantsSymbol(g.ctl) || f.numBits >= 8 then Needs(c.data, g, f.numBits) else true
    ensures MarkOk(c.m, c.data, After(c, f, g, k, sums))
  {
    hide WellFormed, At, StateOk, Carry, CallOk, Needs;
  }

  /** The part of the decompressor record that survives from call to call. */
  datatype Saved = Saved(ctl: Ctl, bitBuf: nat, numBits: nat, dfs: nat, check: nat, tabs: Tabs)

  /** Its meaning: the machine's state, the prefixes behind the tables, the cursor it stopped at. */
  datatype View = View(mark: Mark, nodes: TabNodes, outAt: nat)

  ghost predicate SavedOk(s: Setup, data: seq<Byte>, r: Saved, v: View) {
    && MarkOk(s.m, data, v.mark)
    && r.ctl == v.mark.ref.ctl
    && r.numBits == v.mark.numBits <= MaxBits(s.wide)
    && r.bitBuf == FromBits(Slice(data, v.mark.ref.pos, v.mark.ref.pos + r.numBits))
    && TabsOk(r.ctl, r.tabs, v.nodes)
    && r.check == Pack(v.mark.sums)
    && (r.ctl.Copy? ==> SourceOk(s.m, r.dfs, v.outAt))
    && (!s.m.wrap ==> v.outAt == |v.mark.ref.out|)
  }

  /** The cursor the caller may continue at: where the last call stopped, or, in a full ring, its start. */
  ghost predicate CursorOk(s: Setup, v: View, buf: seq<Byte>, outNext: nat) {
    && outNext <= |buf|
    && Mirrors(buf, outNext, v.mark.ref.out)
    && if s.m.wrap then |buf| == s.m.size && (outNext == v.outAt || (v.outAt == |buf| && outNext == 0))
       else outNext == v.outAt
  }

  ghost predicate InputOk(data: seq<Byte>, v: View, inp: seq<Byte>) {
    && v.mark.consumed + |inp| <= |data|
    && inp == data[v.mark.consumed..v.mark.consumed + |inp|]
  }

  class Inflater {
    const s: Setup
    /** The stream this decompressor is going to be fed, for the proof only. */
    ghost const data: seq<Byte>

    var state: Saved
    ghost var view: View

    ghost predicate Valid()
      reads this
    {
      SavedOk(s, data, state, view)
    }

    constructor (setup: Setup, ghost stream: seq<Byte>)
      requires WellFormed(setup.m, stream)
      ensures Valid() && s == setup && data == stream
      ensures view.mark == StartMark(setup.m) && view.outAt == 0
    {
      s := setup;
      data := stream;
      state := Saved(if setup.m.zlib then ZHead0 else BlockHead, 0, 0, 0, 1, Tabs([], [], [], [], [], []));
      view := View(StartMark(setup.m), TabNodes(map[], map[], map[]), 0);
      new;
      assert At(setup.m, stream, Start(setup.m), 0);
      assert Slice(data, 0, 0) == [];
    }

    /** One call.  The input is the next part of the stream and the output goes to `buf` from `outNext` on. */
    method Decompress(inp: seq<Byte>, buf: array<Byte>, outNext: nat, hasMore: bool)
      returns (status: Status, used: nat, outUsed: nat)
      requires Valid() && InputOk(data, view, inp) && CursorOk(s, view, buf[..], outNext)
      modifies this, buf
      ensures Valid() && used <= |inp| && outNext + outUsed <= buf.Length
      ensures Called(s, data, old(view.mark),
                     Outcome(|inp|, buf.Length - outNext, hasMore, status, used, buf[outNext..outNext + outUsed]), view.mark)
      ensures CursorOk(s, view, buf[..], outNext + outUsed)
    {
      hide *;
      ValidMeans(this);
      OfferFits(s, data, view, inp, buf[..], outNext);
      if BadSize(s.m) {
        status, used, outUsed := BadParam, 0, 0;
        CalledNothing(s, data, state, view, |inp|, buf.Length - outNext, hasMore, buf[outNext..outNext]);
      } else {
        var r;
        ghost var v;
        status, used, outUsed, r, v := Resume(s, state, inp, buf, outNext, hasMore, data, view);
        state := r;
        view := v;
        ValidMeans(this);
      }
    }
  }

  lemma ValidMeans(d: Inflater)
    ensures d.Valid() <==> SavedOk(d.s, d.data, d.state, d.view)
  {
  }

  lemma OfferFits(s: Setup, data: seq<Byte>, v: View, inp: seq<Byte>, buf: seq<Byte>, outNext: nat)
    requires InputOk(data, v, inp) && CursorOk(s, v, buf, outNext)
    ensures v.mark.consumed + |inp| <= |data| && outNext <= |buf|
  {
  }

  lemma CalledNothing(s: Setup, data: seq<Byte>, r: Saved, v: View, offered: nat, room: nat, hasMore: bool, none: seq<Byte>)
    requires SavedOk(s, data, r, v) && none == [] && BadSize(s.m) && v.mark.consumed + offered <= |data|
    ensures Called(s, data, v.mark, Outcome(offered, room, hasMore, BadParam, 0, none), v.mark)
  {
    hide MarkOk, TabsOk, FromBits;
  }

  method Resume(s: Setup, r0: Saved, inp: seq<Byte>, buf: array<Byte>, outNext: nat, hasMore: bool,
                ghost data: seq<Byte>, ghost v0: View)
    returns (status: Status, used: nat, outUsed: nat, r: Saved, ghost v: View)
    requires SavedOk(s, data, r0, v0) && InputOk(data, v0, inp) && CursorOk(s, v0, buf[..], outNext) && !BadSize(s.m)
    modifies buf
    ensures SavedOk(s, data, r, v) && used <= |inp| && outNext + outUsed <= buf.Length
    ensures Called(s, data, v0.mark,
                   Outcome(|inp|, buf.Length - outNext, hasMore, status, used, buf[outNext..outNext + outUsed]), v.mark)
    ensures CursorOk(s, v, buf[..], outNext + outUsed)
  {
    hide MarkOk, Called, Summed, Mirrors, TabsOk, Needs, FromBits, Fold, SourceOk, Pack;
    ghost var a := v0.mark;
    var f := Frame(r0.ctl, r0.bitBuf, r0.numBits, 0, outNext, r0.dfs);
    var stop, t;
    ghost var n, g, k;
    f, stop, t, n, g, k := Work(s, f, inp, buf, outNext, r0.tabs, v0.nodes, data, a, v0.outAt);
    var check;
    ghost var sums;
    status, check, sums := Account(s, stop, f.ctl, hasMore, r0.check, buf[outNext..f.outCur], a.sums);
    used, outUsed := f.inCur, f.outCur - outNext;
    r := Saved(f.ctl, f.bitBuf, f.numBits, f.dfs, check, t);
    v := View(Mark(g, k, a.consumed + f.inCur, f.numBits, sums), n, f.outCur);
    CallDone(s, data, a, v.mark,
             Outcome(|inp|, buf.Length - outNext, hasMore, status, used, buf[outNext..f.outCur]), stop);
  }

  /** Status and checksum of a call that stopped for `stop` after writing `produced`. */
  method Account(s: Setup, stop: Stop, ctl: Ctl, hasMore: bool, check0: nat, produced: seq<Byte>, ghost sums0: Sums)
    returns (status: Status, check: nat, ghost sums: Sums)
    requires check0 == Pack(sums0) && !stop.Go? && (stop.Finished? ==> ctl.Done? || ctl.Failed?)
    ensures check == Pack(sums) && sums == if Summed(s, status) then Fold(sums0, produced) else sums0
    ensures status == match stop
                      case WantInput => if hasMore then NeedsMoreInput else CannotMakeProgress
                      case WantRoom => HasMoreOutput
                      case _ =>
                        if ctl.Failed? then Fail
                        else if s.m.zlib && Pack(sums) != ctl.z then AdlerMismatch else Finish
  {
    hide Fold;
    check, sums := check0, sums0;
    status := match stop
      case WantInput => if hasMore then NeedsMoreInput else CannotMakeProgress
      case WantRoom => HasMoreOutput
      case _ => if ctl.Done? then Finish else Fail;
    if (s.m.zlib || s.checksum) && (status.NeedsMoreInput? || status.HasMoreOutput? || status.Finish?) {
      check := Update(check0, produced, sums0);
      sums := Fold(sums0, produced);
      if status.Finish? && s.m.zlib && check != ctl.z {
        status := AdlerMismatch;
      }
    }
  }

  /** The parts a call establishes make up `Called`. */
  lemma CallDone(s: Setup, data: seq<Byte>, a: Mark, b: Mark, o: Outcome, stop: Stop)
    requires MarkOk(s.m, data, a) && MarkOk(s.m, data, b.(sums := a.sums)) && a.steps <= b.steps
    requires b.consumed == a.consumed + o.used && b.ref.out == a.ref.out + o.produced
    requires a.consumed + o.offered <= |data| && Answers(s.m, o)
    requires b.sums == if Summed(s, o.status) then Fold(a.sums, o.produced) else a.sums
    requires match o.status
             case NeedsMoreInput => stop.WantInput?
             case CannotMakeProgress => stop.WantInput?
             case HasMoreOutput => stop.WantRoom?
             case Fail => stop.Finished? && b.ref.ctl.Failed?
             case Finish => stop.Finished? && b.ref.ctl.Done? && (s.m.zlib ==> Pack(b.sums) == b.ref.ctl.z)
             case AdlerMismatch => stop.Finished? && b.ref.ctl.Done? && s.m.zlib && Pack(b.sums) != b.ref.ctl.z
             case BadParam => false
    requires stop.WantInput? ==> Needs(data, b.ref, b.numBits)
    requires stop.WantRoom? ==> Emits(b.ref.ctl) || b.ref.ctl.Stored?
    requires !stop.WantInput? ==> b.numBits < 8
    ensures MarkOk(s.m, data, b) && Called(s, data, a, o, b)
  {
    hide WellFormed, At, StateOk, Needs, Fold;
    if b.ref.ctl.Done? && b.numBits < 8 { DoneAligned(s.m, data, b.(sums := a.sums)); }
  }

  lemma DoneAligned(m: Mode, data: seq<Byte>, b: Mark)
    requires MarkOk(m, data, b) && b.ref.ctl.Done? && b.numBits < 8
    ensures b.numBits == 0
  {
    hide Step, WellFormed, StateOk;
    AtAligned(m, data, b.ref, b.steps);
  }

  lemma EnterCall(s: Setup, data: seq<Byte>, a: Mark, c: Call, f: Frame, buf: seq<Byte>, t: Tabs, n: TabNodes, outAt: nat)
    requires MarkOk(s.m, data, a) && a.consumed + |c.inp| <= |data| && c.inp == data[a.consumed..a.consumed + |c.inp|]
    requires c == CallOf(s, data, a, c.inp, c.outNext)
    requires f.ctl == a.ref.ctl && f.numBits == a.numBits <= MaxBits(s.wide) && f.inCur == 0 && f.outCur == c.outNext
    requires f.bitBuf == FromBits(Slice(data, a.ref.pos, a.ref.pos + f.numBits))
    requires TabsOk(f.ctl, t, n) && (f.ctl.Copy? ==> SourceOk(s.m, f.dfs, outAt))
    requires Mirrors(buf, c.outNext, a.ref.out) && c.outNext <= |buf|
    requires if s.m.wrap then |buf| == s.m.size && (c.outNext == outAt || (outAt == |buf| && c.outNext == 0))
             else c.outNext == outAt == |a.ref.out|
    ensures Live(c, f, a.ref, a.steps, t, n, buf)
    ensures WantsSymbol(f.ctl) ==> f.numBits < 15 && Needs(c.data, c.entry, f.numBits)
  {
    hide WellFormed, At, StateOk, Mirrors, Needs, TabsOk;
    if f.ctl.Copy? { CursorAgrees(s.m, f.dfs, outAt, c.outNext, |buf|, |a.ref.out|); }
    assert buf[c.outNext..c.outNext] == [];
    assert a.ref.out == c.entry.out + [];
    EntryLive(c, f, a.steps, t, n, buf);
    if WantsSymbol(f.ctl) { SymbolBitsMissing(c, f, a.ref, a.steps); }
  }

  lemma CursorAgrees(m: Mode, dfs: nat, outAt: nat, outNext: nat, size: nat, have: nat)
    requires SourceOk(m, dfs, outAt)
    requires if m.wrap then size == m.size && (outNext == outAt || (outAt == size && outNext == 0)) else outNext == outAt
    ensures SourceOk(m, dfs, outNext)
  {
    if m.wrap && outNext != outAt {
      var q := (dfs - outAt) / size;
      assert dfs - 0 == size * q + size;
      assert size * (q + 1) == size * q + size;
      RingIndex(dfs, size, q + 1, 0);
    }
  }

  /** A call from entry to the common exit, on the registers alone. */
  method Work(s: Setup, f0: Frame, inp: seq<Byte>, buf: array<Byte>, outNext: nat, t0: Tabs, ghost n0: TabNodes,
              ghost data: seq<Byte>, ghost a: Mark, ghost outAt: nat)
    returns (f: Frame, stop: Stop, t: Tabs, ghost n: TabNodes, ghost g: State, ghost k: nat)
    requires MarkOk(s.m, data, a) && a.consumed + |inp| <= |data| && inp == data[a.consumed..a.consumed + |inp|]
    requires f0.ctl == a.ref.ctl && f0.numBits == a.numBits <= MaxBits(s.wide) && f0.inCur == 0 && f0.outCur == outNext
    requires f0.bitBuf == FromBits(Slice(data, a.ref.pos, a.ref.pos + f0.numBits))
    requires TabsOk(f0.ctl, t0, n0) && (f0.ctl.Copy? ==> SourceOk(s.m, f0.dfs, outAt))
    requires outNext <= buf.Length && Mirrors(buf[..], outNext, a.ref.out)
    requires if s.m.wrap then buf.Length == s.m.size && (outNext == outAt || (outAt == buf.Length && outNext == 0))
             else outNext == outAt == |a.ref.out|
    modifies buf
    ensures k >= a.steps && MarkOk(s.m, data, Mark(g, k, a.consumed + f.inCur, f.numBits, a.sums))
    ensures f.ctl == g.ctl && f.numBits <= MaxBits(s.wide) && f.inCur <= |inp|
    ensures f.bitBuf == FromBits(Slice(data, g.pos, g.pos + f.numBits))
    ensures TabsOk(g.ctl, t, n) && (g.ctl.Copy? ==> SourceOk(s.m, f.dfs, f.outCur))
    ensures outNext <= f.outCur <= buf.Length && g.out == a.ref.out + buf[outNext..f.outCur]
    ensures Mirrors(buf[..], f.outCur, g.out) && (!s.m.wrap ==> f.outCur == |g.out|)
    ensures !stop.Go? && (!stop.WantInput? ==> f.numBits < 8)
    ensures stop.WantInput? ==> f.inCur == |inp| && Needs(data, g, f.numBits)
    ensures stop.WantRoom? ==> f.outCur == buf.Length && (Emits(g.ctl) || g.ctl.Stored?)
    ensures stop.Finished? ==> g.ctl.Done? || g.ctl.Failed?
  {
    hide WellFormed, At, StateOk, Mirrors, CtlOk, TabsOk, Needs, Slice, SourceOk;
    ghost var c := CallOf(s, data, a, inp, outNext);
    EnterCall(s, data, a, c, f0, buf[..], t0, n0, outAt);
    f, stop, t, n, g, k := Loop(f0, inp, buf, s.m, s.wide, t0, n0, c, a.steps);
    f := Leave(f, buf, stop, t, n, c, g, k);
    AfterOk(c, f, g, k, a.sums);
  }

  /** The common exit: whole bytes go back unless the coroutine waits for more. */
  method Leave(f0: Frame, buf: array<Byte>, stop: Stop, ghost t: Tabs, ghost n: TabNodes,
               ghost c: Call, ghost g: State, ghost k: nat)
    returns (f: Frame)
    requires Live(c, f0, g, k, t, n, buf[..]) && !stop.Go? && StopOk(c, f0, g, buf.Length, stop)
    ensures Live(c, f, g, k, t, n, buf[..]) && StopOk(c, f, g, buf.Length, stop)
    ensures f.outCur == f0.outCur && f.dfs == f0.dfs
    ensures !stop.WantInput? ==> f.numBits < 8
    ensures WantsSymbol(g.ctl) || f.numBits >= 8 ==> Needs(c.data, g, f.numBits)
  {
    hide WellFormed, At, Carry, CallOk, CtlOk, Mirrors, TabsOk, StateOk, Buffered, Needs;
    f := f0;
    if !stop.WantInput? {
      CanPutBack(c, f, g, buf.Length, stop);
      f := PutBack(f, c, g);
    }
  }

  // ---- any sequence of calls ----

  /** A history of calls on one decompressor, with the state before and after each. */
  ghost predicate Run(s: Setup, data: seq<Byte>, marks: seq<Mark>, outs: seq<Outcome>) {
    && |marks| == |outs| + 1
    && marks[0] == StartMark(s.m)
    && forall i {:trigger outs[i]} :: 0 <= i < |outs| ==> Called(s, data, marks[i], outs[i], marks[i + 1])
  }

  function Output(outs: seq<Outcome>): seq<Byte> {
    if outs == [] then [] else Output(outs[..|outs| - 1]) + outs[|outs| - 1].produced
  }

  function Consumed(outs: seq<Outcome>): nat {
    if outs == [] then 0 else Consumed(outs[..|outs| - 1]) + outs[|outs| - 1].used
  }

  /** The output the checksum has seen. */
  function SummedOutput(s: Setup, outs: seq<Outcome>): seq<Byte> {
    if outs == [] then []
    else SummedOutput(s, outs[..|outs| - 1]) +
         if Summed(s, outs[|outs| - 1].status) then outs[|outs| - 1].produced else []
  }

  predicate Final(status: Status) { status.Finish? || status.AdlerMismatch? || status.Fail? }

  /** After any run the reference machine explains everything the caller has seen. */
  lemma {:induction false} RunRefines(s: Setup, data: seq<Byte>, marks: seq<Mark>, outs: seq<Outcome>)
    requires Run(s, data, marks, outs)
    ensures var b := marks[|outs|];
            && b.ref.out == Output(outs)
            && b.consumed == Consumed(outs)
            && b.sums == Fold(START, SummedOutput(s, outs))
            && (outs != [] ==> MarkOk(s.m, data, b))
    decreases |outs|
  {
    hide MarkOk, StatusOk;
    if outs != [] {
      var n := |outs| - 1;
      assert Called(s, data, marks[n], outs[n], marks[n + 1]);
      var outs' := outs[..n];
      forall i | 0 <= i < n
        ensures Called(s, data, marks[i], outs'[i], marks[i + 1])
      {
        assert outs'[i] == outs[i];
      }
      RunRefines(s, data, marks[..n + 1], outs');
      FoldConcat(START, SummedOutput(s, outs'), outs[n].produced);
      assert SummedOutput(s, outs') + [] == SummedOutput(s, outs');
    }
  }

  /** The machine has one final state: two runs that reach an end reach the same one. */
  lemma SameEnd(m: Mode, data: seq<Byte>, a: Mark, b: Mark)
    requires MarkOk(m, data, a) && MarkOk(m, data, b) && Terminal(a.ref.ctl) && Terminal(b.ref.ctl)
    ensures a.ref == b.ref
  {
    hide Step, WellFormed;
    if a.steps <= b.steps {
      TerminalStays(m, data, Start(m), a.steps, b.steps);
    } else {
      TerminalStays(m, data, Start(m), b.steps, a.steps);
    }
  }

  /** Chunk independence.  However a stream is cut into calls and whatever room each call offers, all
      runs that come to an end produce the same bytes, consume the same number of input bytes (the
      machine's position rounded up to bytes) and agree on success or failure of the decoding. */
  lemma ChunkIndependence(s: Setup, data: seq<Byte>, marks1: seq<Mark>, outs1: seq<Outcome>,
                          marks2: seq<Mark>, outs2: seq<Outcome>)
    requires Run(s, data, marks1, outs1) && outs1 != [] && Final(outs1[|outs1| - 1].status)
    requires Run(s, data, marks2, outs2) && outs2 != [] && Final(outs2[|outs2| - 1].status)
    ensures Output(outs1) == Output(outs2)
    ensures Consumed(outs1) == Consumed(outs2)
    ensures outs1[|outs1| - 1].status.Fail? <==> outs2[|outs2| - 1].status.Fail?
    ensures SummedOutput(s, outs1) == SummedOutput(s, outs2) ==>
      outs1[|outs1| - 1].status == outs2[|outs2| - 1].status
  {
    hide WellFormed, At, StateOk, Rested, Summed, Fold;
    RunRefines(s, data, marks1, outs1);
    RunRefines(s, data, marks2, outs2);
    var n1, n2 := |outs1| - 1, |outs2| - 1;
    assert Called(s, data, marks1[n1], outs1[n1], marks1[n1 + 1]);
    assert Called(s, data, marks2[n2], outs2[n2], marks2[n2 + 1]);
    SameEnd(s.m, data, marks1[n1 + 1], marks2[n2 + 1]);
  }

  /** The checksum of a finished zlib stream is accepted exactly when the trailer matches the output
      of the calls that did not report a failure. */
  lemma ChecksumVerdict(s: Setup, data: seq<Byte>, marks: seq<Mark>, outs: seq<Outcome>)
    requires s.m.zlib && Run(s, data, marks, outs) && outs != []
    requires outs[|outs| - 1].status.Finish? || outs[|outs| - 1].status.AdlerMismatch?
    ensures marks[|outs|].ref.ctl.Done?
    ensures outs[|outs| - 1].status.Finish? <==>
      Pack(Fold(START, SummedOutput(s, outs))) == marks[|outs|].ref.ctl.z
  {
    hide MarkOk, Summed, Fold;
    RunRefines(s, data, marks, outs);
    assert Called(s, data, marks[|outs| - 1], outs[|outs| - 1], marks[|outs|]);
  }

  // ---- what ends a run ----

  lemma StuckStep(m: Mode, data: seq<Byte>, a: Mark)
    requires MarkOk(m, data, a) && Needs(data, a.ref, a.numBits) && a.consumed == |data|
    ensures Step(m, data, a.ref) == a.ref
  {
    hide WellFormed, CtlOk, OnBits, OnSymbol;
    var g := a.ref;
    if WantsSymbol(g.ctl) {
      assert Slice(data, g.pos, g.pos + a.numBits) == Rest(data, g.pos);
      StepOk(m, data, g);
      AtNext(m, data, g, a.steps, Step(m, data, g));
    }
  }

  lemma {:induction false} StuckForever(m: Mode, data: seq<Byte>, a: Mark, k: nat)
    requires MarkOk(m, data, a) && Step(m, data, a.ref) == a.ref && k >= a.steps
    ensures Iter(m, data, Start(m), k) == a.ref
    decreases k
  {
    hide Step, WellFormed;
    if k > a.steps { StuckForever(m, data, a, k - 1); }
  }

  /** The decompressor asks for input beyond the end of the stream only when the stream is truncated:
      the machine itself can never finish on it. */
  lemma AsksOnlyIfTruncated(s: Setup, data: seq<Byte>, marks: seq<Mark>, outs: seq<Outcome>, k: nat)
    requires Run(s, data, marks, outs) && outs != []
    requires outs[|outs| - 1].status.NeedsMoreInput? || outs[|outs| - 1].status.CannotMakeProgress?
    requires Consumed(outs) == |data| && k >= marks[|outs|].steps
    ensures !Terminal(Iter(s.m, data, Start(s.m), k).ctl)
  {
    hide WellFormed, At, StateOk, Fold, Step;
    RunRefines(s, data, marks, outs);
    assert Called(s, data, marks[|outs| - 1], outs[|outs| - 1], marks[|outs|]);
    StuckStep(s.m, data, marks[|outs|]);
    StuckForever(s.m, data, marks[|outs|], k);
    NeedsMeansLive(data, marks[|outs|].ref, marks[|outs|].numBits);
  }

  lemma NeedsMeansLive(data: seq<Byte>, g: State, k: nat)
    requires Needs(data, g, k)
    ensures !Terminal(g.ctl)
  {
  }

  /** Before a raw stream is done the machine has read the end of its last block, and stops at the
      next byte boundary. */
  lemma {:induction false} RawDone(m: Mode, data: seq<Byte>, k: nat) returns (j: nat)
    requires !m.zlib && Iter(m, data, Start(m), k).ctl.Done?
    ensures j < k && Iter(m, data, Start(m), j).ctl.TrailAlign?
    ensures Iter(m, data, Start(m), k).pos == RoundUp(Iter(m, data, Start(m), j).pos)
    decreases k
  {
    hide Step;
    var p := Iter(m, data, Start(m), k - 1);
    if p.ctl.Done? {
      TerminalStep(m, data, p);
      j := RawDone(m, data, k - 1);
    } else {
      BeforeDone(m, data, p, k - 1);
      j := k - 1;
    }
  }

  lemma BeforeDone(m: Mode, data: seq<Byte>, p: State, k: nat)
    requires !m.zlib && At(m, data, p, k) && StateOk(m, data, p) && Step(m, data, p).ctl.Done? && !p.ctl.Done?
    ensures p.ctl.TrailAlign? && Step(m, data, p).pos == RoundUp(p.pos)
  {
    hide OnBits, OnSymbol, Usable, CtlOk;
    NoTrailer(m, data, k);
    if ItemBits(p.ctl) > 0 {
      if p.pos + ItemBits(p.ctl) <= 8 * |data| {
        DoneFromTrailer(m, p.ctl, FromBits(Slice(data, p.pos, p.pos + ItemBits(p.ctl))), |p.out|);
      }
    } else if WantsSymbol(p.ctl) {
      forall s | Begins(SymbolLens(p.ctl), s, Rest(data, p.pos))
        ensures !TakeSymbol(m, data, p, s).ctl.Done?
      {
        OnSymbolAligned(m, p.ctl, s, |p.out|);
      }
    } else if Emits(p.ctl) {
      assert CtlOk(p.ctl);
      EmitAligned(p.ctl);
    }
  }

  lemma DoneFromTrailer(m: Mode, ctl: Ctl, v: nat, have: nat)
    requires CtlOk(ctl) && ItemBits(ctl) > 0
    ensures OnBits(m, ctl, v, have).Done? || OnBits(m, ctl, v, have).Trailer? ==> ctl.Trailer?
  {
    hide Usable, ZlibHeaderBad, CodesOk, SizesOk, LengthBase, DistBase;
  }

  lemma {:induction false} NoTrailer(m: Mode, data: seq<Byte>, k: nat)
    requires !m.zlib
    ensures !Iter(m, data, Start(m), k).ctl.Trailer?
    decreases k
  {
    hide Step;
    if k > 0 {
      NoTrailer(m, data, k - 1);
      var p := Iter(m, data, Start(m), k - 1);
      StepNoTrailer(m, data, p);
    }
  }

  lemma StepNoTrailer(m: Mode, data: seq<Byte>, p: State)
    requires !m.zlib && StateOk(m, data, p) && !p.ctl.Trailer?
    ensures !Step(m, data, p).ctl.Trailer?
  {
    hide OnBits, OnSymbol, Usable, CtlOk;
    if ItemBits(p.ctl) > 0 {
      if p.pos + ItemBits(p.ctl) <= 8 * |data| {
        DoneFromTrailer(m, p.ctl, FromBits(Slice(data, p.pos, p.pos + ItemBits(p.ctl))), |p.out|);
      }
    } else if WantsSymbol(p.ctl) {
      forall s | Begins(SymbolLens(p.ctl), s, Rest(data, p.pos))
        ensures !TakeSymbol(m, data, p, s).ctl.Trailer?
      {
        OnSymbolAligned(m, p.ctl, s, |p.out|);
      }
    } else if Emits(p.ctl) {
      assert CtlOk(p.ctl);
      EmitAligned(p.ctl);
    }
  }

  /** Exact consumption.  When a raw stream is reported done, the calls have consumed together exactly
      the bytes that hold its bits: the position after the last block, rounded up to a byte. */
  lemma ExactConsumption(s: Setup, data: seq<Byte>, marks: seq<Mark>, outs: seq<Outcome>) returns (j: nat)
    requires !s.m.zlib && Run(s, data, marks, outs) && outs != [] && outs[|outs| - 1].status.Finish?
    ensures Iter(s.m, data, Start(s.m), j).ctl.TrailAlign?
    ensures 8 * Consumed(outs) == RoundUp(Iter(s.m, data, Start(s.m), j).pos)
  {
    hide WellFormed, StateOk, Fold, Step;
    RunRefines(s, data, marks, outs);
    assert Called(s, data, marks[|outs| - 1], outs[|outs| - 1], marks[|outs|]);
    j := RawDone(s.m, data, marks[|outs|].steps);
  }

  // ---- the checksum and the caller's end-of-input flag ----

  /** No call of the run was told too early that its input was the last. */
  predicate Flagged(outs: seq<Outcome>) {
    forall i :: 0 <= i < |outs| ==> !outs[i].status.CannotMakeProgress?
  }

  lemma {:induction false} FlaggedSums(s: Setup, outs: seq<Outcome>)
    requires s.m.zlib && Flagged(outs)
    requires forall i :: 0 <= i < |outs| ==> !outs[i].status.Fail?
    requires forall i :: 0 <= i < |outs| && outs[i].status.BadParam? ==> outs[i].produced == []
    ensures SummedOutput(s, outs) == Output(outs)
  {
    if outs != [] { FlaggedSums(s, outs[..|outs| - 1]); }
  }

  /** The verdict on a zlib stream does not depend on the chunking either when no call was told that it
      cannot go on. */
  lemma VerdictIndependence(s: Setup, data: seq<Byte>, marks1: seq<Mark>, outs1: seq<Outcome>,
                            marks2: seq<Mark>, outs2: seq<Outcome>)
    requires s.m.zlib
    requires Run(s, data, marks1, outs1) && outs1 != [] && Final(outs1[|outs1| - 1].status) && Flagged(outs1)
    requires Run(s, data, marks2, outs2) && outs2 != [] && Final(outs2[|outs2| - 1].status) && Flagged(outs2)
    ensures outs1[|outs1| - 1].status == outs2[|outs2| - 1].status
  {
    hide MarkOk, Fold, Summed;
    ChunkIndependence(s, data, marks1, outs1, marks2, outs2);
    if !outs1[|outs1| - 1].status.Fail? {
      RunNeverFailed(s, data, marks1, outs1);
      RunNeverFailed(s, data, marks2, outs2);
      FlaggedSums(s, outs1);
      FlaggedSums(s, outs2);
    }
  }

  /** A run that ends with the machine done has no failed call in it. */
  lemma RunNeverFailed(s: Setup, data: seq<Byte>, marks: seq<Mark>, outs: seq<Outcome>)
    requires Run(s, data, marks, outs) && outs != [] && Final(outs[|outs| - 1].status) && !outs[|outs| - 1].status.Fail?
    ensures forall i :: 0 <= i < |outs| ==> !outs[i].status.Fail?
    ensures forall i :: 0 <= i < |outs| && outs[i].status.BadParam? ==> outs[i].produced == []
  {
    hide WellFormed, At, StateOk, Rested, Summed, Fold;
    var n := |outs| - 1;
    assert Called(s, data, marks[n], outs[n], marks[n + 1]);
    forall i | 0 <= i < |outs|
      ensures !outs[i].status.Fail?
      ensures outs[i].status.BadParam? ==> outs[i].produced == []
    {
      assert Called(s, data, marks[i], outs[i], marks[i + 1]);
      if outs[i].status.Fail? { SameEnd(s.m, data, marks[i + 1], marks[n + 1]); }
    }
  }

  // ---- decompressing to a callback through a 32 KB ring ----

  const LZ_DICT_SIZE: nat := 32768

  lemma DictSizeIsPow2()
    ensures IsPow2(LZ_DICT_SIZE)
  {
    assert IsPow2(1) && IsPow2(2) && IsPow2(4) && IsPow2(8) && IsPow2(16) && IsPow2(32) && IsPow2(64) && IsPow2(128);
    assert IsPow2(256) && IsPow2(512) && IsPow2(1024) && IsPow2(2048) && IsPow2(4096) && IsPow2(8192) && IsPow2(16384);
  }

  /** Where a full ring leaves the cursor, the next call starts over. */
  lemma NextCursor(s: Setup, v: View, buf: seq<Byte>, at: nat)
    requires CursorOk(s, v, buf, at) && s.m.wrap && |buf| == LZ_DICT_SIZE && at == |buf|
    ensures CursorOk(s, v, buf, at % LZ_DICT_SIZE)
  {
    Rewind(buf, v.mark.ref.out);
  }

  lemma OutputFits(m: Mode, data: seq<Byte>, a: Mark)
    requires MarkOk(m, data, a)
    ensures |a.ref.out| <= 2400 * |data| && a.consumed <= |data|
  {
    hide Step, WellFormed, CtlOk;
    OutputBound(m, data, a.steps);
  }

  /** A whole stream through the ring; `accept` stands for the callback's answers.  The chunks handed to
      the callback make up the output of the machine. */
  method DecompressToCallback(zlib: bool, wide: bool, data: seq<Byte>, accept: nat -> bool)
    returns (result: bool, used: nat, chunks: seq<seq<Byte>>, ghost end: Mark)
    requires WellFormed(Mode(zlib, true, LZ_DICT_SIZE), data)
    ensures MarkOk(Mode(zlib, true, LZ_DICT_SIZE), data, end) && used == end.consumed
    ensures Flatten(chunks) == end.ref.out
    ensures zlib && end.ref.ctl.Done? ==> end.sums == Fold(START, end.ref.out)
    ensures result ==> end.ref.ctl.Done? && end.numBits == 0 && (zlib ==> Pack(end.sums) == end.ref.ctl.z)
    ensures !result && (forall i :: 0 <= i < |chunks| ==> accept(i)) ==>
      || end.ref.ctl.Failed?
      || (end.ref.ctl.Done? && zlib && Pack(end.sums) != end.ref.ctl.z)
      || (used == |data| && Needs(data, end.ref, end.numBits))
  {
    hide SavedOk, MarkOk, WellFormed, Mirrors, IsPow2, Fold, Pack, Needs, Called, Answers, CursorOk, InputOk, Flatten;
    var setup := Setup(Mode(zlib, true, LZ_DICT_SIZE), wide, false);
    DictSizeIsPow2();
    var r := new Inflater(setup, data);
    var dict := new Byte[LZ_DICT_SIZE](_ => 0);
    EmptyWindow(setup, r.view, dict[..]);
    var dictOfs: nat := 0;
    used, chunks, result, end := 0, [], false, r.view.mark;
    while true
      invariant r.Valid() && r.s == setup && r.data == data && fresh(r) && fresh(dict)
      invariant dict.Length == LZ_DICT_SIZE && dictOfs < LZ_DICT_SIZE && CursorOk(setup, r.view, dict[..], dictOfs)
      invariant end == r.view.mark && used == end.consumed <= |data| && Flatten(chunks) == end.ref.out
      invariant forall i :: 0 <= i < |chunks| ==> accept(i)
      invariant |end.ref.out| <= 2400 * |data|
      invariant zlib ==> end.sums == Fold(START, end.ref.out)
      decreases 2400 * |data| - |end.ref.out|
    {
      RestIsInput(data, r.view);
      var status, inUsed, outUsed := r.Decompress(data[used..], dict, dictOfs, false);
      ghost var o := Outcome(|data[used..]|, dict.Length - dictOfs, false, status, inUsed, dict[dictOfs..dictOfs + outUsed]);
      CallFacts(setup, data, end, o, r.view.mark);
      LastOfStream(setup, data, end, o, r.view.mark);
      if zlib { SumsFollow(setup, data, end, o, r.view.mark); }
      end, used := r.view.mark, used + inUsed;
      OutputFits(setup.m, data, end);
      var more := true;
      if outUsed > 0 {
        var chunk := dict[dictOfs..dictOfs + outUsed];
        more := accept(|chunks|);
        FlattenSnoc(chunks, chunk);
        chunks := chunks + [chunk];
      }
      if !more { return; }
      if !status.HasMoreOutput? {
        result := status.Finish?;
        return;
      }
      NextCursor(setup, r.view, dict[..], dictOfs + outUsed);
      dictOfs := (dictOfs + outUsed) % LZ_DICT_SIZE;
    }
  }

  lemma RestIsInput(data: seq<Byte>, v: View)
    requires v.mark.consumed <= |data|
    ensures InputOk(data, v, data[v.mark.consumed..])
  {
  }

  lemma CallFacts(s: Setup, data: seq<Byte>, a: Mark, o: Outcome, b: Mark)
    requires Called(s, data, a, o, b)
    ensures MarkOk(s.m, data, b) && b.consumed == a.consumed + o.used && b.ref.out == a.ref.out + o.produced && Answers(s.m, o)
  {
    hide MarkOk;
  }

  /** What the end of a call means that was offered all that is left. */
  lemma LastOfStream(s: Setup, data: seq<Byte>, a: Mark, o: Outcome, b: Mark)
    requires Called(s, data, a, o, b) && a.consumed + o.offered == |data| && !BadSize(s.m)
    ensures o.status.Finish? ==> b.ref.ctl.Done? && b.numBits == 0 && (s.m.zlib ==> Pack(b.sums) == b.ref.ctl.z)
    ensures o.status.HasMoreOutput? ==> |o.produced| == o.room
    ensures !o.status.Finish? && !o.status.HasMoreOutput? ==>
      || b.ref.ctl.Failed?
      || (b.ref.ctl.Done? && s.m.zlib && Pack(b.sums) != b.ref.ctl.z)
      || (b.consumed == |data| && Needs(data, b.ref, b.numBits))
  {
    hide MarkOk, BadSize, Needs, Fold, Pack;
  }

  /** The checksum covers all output while calls fill their room, and at the end. */
  lemma SumsFollow(s: Setup, data: seq<Byte>, a: Mark, o: Outcome, b: Mark)
    requires s.m.zlib && Called(s, data, a, o, b) && a.sums == Fold(START, a.ref.out)
    ensures b.ref.ctl.Done? || o.status.HasMoreOutput? ==> b.sums == Fold(START, b.ref.out)
  {
    hide MarkOk, Needs, Fold;
    FoldConcat(START, a.ref.out, o.produced);
    assert a.ref.out + [] == a.ref.out;
    if b.ref.ctl.Done? && (o.status.NeedsMoreInput? || o.status.CannotMakeProgress?) {
      NeedsMeansLive(data, b.ref, b.numBits);
      assert false;
    }
  }

  lemma EmptyWindow(s: Setup, v: View, buf: seq<Byte>)
    requires v.mark == StartMark(s.m) && v.outAt == 0 && (s.m.wrap ==> |buf| == s.m.size)
    ensures CursorOk(s, v, buf, 0) && Flatten([]) == v.mark.ref.out && Fold(START, []) == START
  {
  }

  lemma FlattenSnoc(chunks: seq<seq<Byte>>, c: seq<Byte>)
    ensures Flatten(chunks + [c]) == Flatten(chunks) + c
  {
    assert (chunks + [c])[..|chunks|] == chunks;
  }
}
