/** When a history of calls ends, and which verdict it ends with, told from what the caller offers: input, room
    for output and the flag that more input follows. */
module Verdict {
  import opened Bits
  import opened Canonical
  import opened Deflate
  import opened Window
  import opened Adler
  import opened Inflate
  import opened Decompressor
  import opened DeflateFormat

  // ---- the machine moves on ----

  lemma StepGrows(m: Mode, data: seq<Byte>, g: State)
    requires StateOk(m, data, g)
    ensures Step(m, data, g).pos >= g.pos && g.out <= Step(m, data, g).out
  {
    hide OnBits, OnSymbol, Usable, CtlOk;
  }

  lemma {:induction false} IterGrows(m: Mode, data: seq<Byte>, j: nat, k: nat)
    requires j <= k
    ensures var a, b := Iter(m, data, Start(m), j), Iter(m, data, Start(m), k); a.pos <= b.pos && a.out <= b.out
    decreases k
  {
    hide Step;
    if j < k {
      IterGrows(m, data, j, k - 1);
      StepGrows(m, data, Iter(m, data, Start(m), k - 1));
    }
  }

  lemma LongerThan(lens: seq<nat>, s: nat, rest: seq<bool>, n: nat)
    requires n <= |rest| && NoSymbol(lens, rest[..n]) && Begins(lens, s, rest)
    ensures lens[s] > n
  {
    assert !(Code(lens, s) <= rest[..n]);
  }

  /** A machine that needs more than the bits at hand stays where it is or passes them. */
  lemma NeedsPassed(m: Mode, data: seq<Byte>, g: State, n: nat)
    requires StateOk(m, data, g) && Needs(data, g, n) && !Step(m, data, g).ctl.Malformed?
    ensures Step(m, data, g) == g || Step(m, data, g).pos > g.pos + n
  {
    hide OnBits, OnSymbol, Usable, CtlOk;
    if WantsSymbol(g.ctl) {
      var lens, rest := SymbolLens(g.ctl), Rest(data, g.pos);
      forall s: nat | Begins(lens, s, rest)
        ensures lens[s] > n
      {
        assert Slice(data, g.pos, g.pos + n) == rest[..n];
        LongerThan(lens, s, rest, n);
      }
    }
  }

  lemma NextState(m: Mode, data: seq<Byte>, b: Mark)
    requires MarkOk(m, data, b)
    ensures Iter(m, data, Start(m), b.steps + 1) == Step(m, data, b.ref) && !Step(m, data, b.ref).ctl.Malformed?
  {
    hide Step, Rested;
    assert !Iter(m, data, Start(m), b.steps + 1).ctl.Malformed?;
  }

  lemma NeedsEnds(m: Mode, data: seq<Byte>, b: Mark, k: nat)
    requires MarkOk(m, data, b) && Needs(data, b.ref, b.numBits) && k > b.steps
    ensures var g := Iter(m, data, Start(m), k); g == b.ref || g.pos > b.ref.pos + b.numBits
  {
    hide Step, WellFormed, Needs, Rested;
    NextState(m, data, b);
    NeedsPassed(m, data, b.ref, b.numBits);
    if Step(m, data, b.ref) == b.ref {
      StuckForever(m, data, b, k);
    } else {
      IterGrows(m, data, b.steps + 1, k);
    }
  }

  lemma EmitGrows(m: Mode, data: seq<Byte>, g: State)
    requires StateOk(m, data, g) && Emits(g.ctl)
    ensures |Step(m, data, g).out| == |g.out| + 1
  {
    hide Usable;
  }

  lemma StoredMoves(m: Mode, data: seq<Byte>, g: State)
    requires StateOk(m, data, g) && g.ctl.Stored?
    ensures Step(m, data, g) == g || (Emits(Step(m, data, g).ctl) && Step(m, data, g).out == g.out)
  {
    hide Usable;
  }

  /** A machine that has a byte to put out will put it out before it ends. */
  lemma MoreToCome(m: Mode, data: seq<Byte>, b: Mark, k: nat)
    requires MarkOk(m, data, b) && (Emits(b.ref.ctl) || b.ref.ctl.Stored?) && Terminal(Iter(m, data, Start(m), k).ctl)
    ensures |b.ref.out| < |Iter(m, data, Start(m), k).out|
  {
    hide Step, WellFormed, Rested;
    NotYetOver(m, data, b, k);
    NextState(m, data, b);
    if Emits(b.ref.ctl) {
      EmitGrows(m, data, b.ref);
      IterGrows(m, data, b.steps + 1, k);
    } else {
      StoredMoves(m, data, b.ref);
      if Step(m, data, b.ref) == b.ref {
        StuckForever(m, data, b, k);
      } else {
        var p := Iter(m, data, Start(m), b.steps + 1);
        EmitGrows(m, data, p);
        assert Iter(m, data, Start(m), b.steps + 2) == Step(m, data, p);
        IterGrows(m, data, b.steps + 2, k);
      }
    }
  }

  lemma NotYetOver(m: Mode, data: seq<Byte>, b: Mark, k: nat)
    requires MarkOk(m, data, b) && !Terminal(b.ref.ctl) && Terminal(Iter(m, data, Start(m), k).ctl)
    ensures b.steps < k
  {
    hide Step, WellFormed, Rested;
    if k <= b.steps { TerminalStays(m, data, Start(m), k, b.steps); }
  }

  // ---- when a call ends the stream ----

  /** A call with room for all output still to come ends the stream if and only if it is offered all input
      that the machine reads; a call that does not end it asks for more, or says that it cannot go on. */
  lemma CallEnds(s: Setup, data: seq<Byte>, a: Mark, o: Outcome, b: Mark, k: nat)
    requires Called(s, data, a, o, b) && !BadSize(s.m) && Terminal(Iter(s.m, data, Start(s.m), k).ctl)
    requires |a.ref.out| + o.room >= |Iter(s.m, data, Start(s.m), k).out|
    ensures Final(o.status) <==> 8 * (a.consumed + o.offered) >= Iter(s.m, data, Start(s.m), k).pos
    ensures Final(o.status) || o.status == if o.hasMore then NeedsMoreInput else CannotMakeProgress
  {
    hide WellFormed, StateOk, Rested, Step, Summed, Fold, Needs, BadSize;
    if Final(o.status) {
      EndReached(s.m, data, b, k);
    } else if o.status.HasMoreOutput? {
      MoreToCome(s.m, data, b, k);
      assert false;
    } else {
      NeedsMeansLive(data, b.ref, b.numBits);
      NotYetOver(s.m, data, b, k);
      NeedsEnds(s.m, data, b, k);
    }
  }

  lemma EndReached(m: Mode, data: seq<Byte>, b: Mark, k: nat)
    requires MarkOk(m, data, b) && Terminal(b.ref.ctl) && Terminal(Iter(m, data, Start(m), k).ctl)
    ensures b.ref == Iter(m, data, Start(m), k)
  {
    hide Step, WellFormed, Rested;
    if k <= b.steps {
      TerminalStays(m, data, Start(m), k, b.steps);
    } else {
      TerminalStays(m, data, Start(m), b.steps, k);
    }
  }

  // ---- histories that are given the whole stream ----

  /** Every call is offered all the input that is left. */
  ghost predicate GivenRest(data: seq<Byte>, marks: seq<Mark>, outs: seq<Outcome>)
    requires |marks| == |outs| + 1
  {
    forall i {:trigger outs[i]} :: 0 <= i < |outs| ==> marks[i].consumed + outs[i].offered == |data|
  }

  function Room(outs: seq<Outcome>): nat {
    if outs == [] then 0 else Room(outs[..|outs| - 1]) + outs[|outs| - 1].room
  }

  lemma {:induction false} FilledUp(outs: seq<Outcome>)
    requires forall i {:trigger outs[i]} :: 0 <= i < |outs| ==> |outs[i].produced| == outs[i].room
    ensures |Output(outs)| == Room(outs)
  {
    if outs != [] { FilledUp(outs[..|outs| - 1]); }
  }

  /** A history in which every call is offered the rest of the stream ends once the calls have offered room
      for the output, in however many pieces; a single call with room enough does. */
  lemma WholeStreamEnds(s: Setup, data: seq<Byte>, marks: seq<Mark>, outs: seq<Outcome>, k: nat)
    requires Run(s, data, marks, outs) && outs != [] && GivenRest(data, marks, outs) && !BadSize(s.m)
    requires Terminal(Iter(s.m, data, Start(s.m), k).ctl) && Room(outs) >= |Iter(s.m, data, Start(s.m), k).out|
    ensures exists i :: 0 <= i < |outs| && Final(outs[i].status)
  {
    hide WellFormed, Rested, Step, Summed, Fold, Needs, BadSize, Terminal;
    if forall i {:trigger outs[i]} :: 0 <= i < |outs| ==> !Final(outs[i].status) {
      forall i {:trigger outs[i]} | 0 <= i < |outs|
        ensures outs[i].status.HasMoreOutput? && |outs[i].produced| == outs[i].room
      {
        assert Called(s, data, marks[i], outs[i], marks[i + 1]);
        NotStarved(s, data, marks[i], outs[i], marks[i + 1], k);
      }
      FilledUp(outs);
      RunRefines(s, data, marks, outs);
      var n := |outs| - 1;
      assert Called(s, data, marks[n], outs[n], marks[n + 1]);
      MoreToCome(s.m, data, marks[n + 1], k);
      assert false;
    }
  }

  lemma NotStarved(s: Setup, data: seq<Byte>, a: Mark, o: Outcome, b: Mark, k: nat)
    requires Called(s, data, a, o, b) && !BadSize(s.m) && a.consumed + o.offered == |data|
    requires Terminal(Iter(s.m, data, Start(s.m), k).ctl)
    ensures Final(o.status) || o.status.HasMoreOutput?
  {
    hide WellFormed, Rested, Step, Summed, Fold, BadSize;
    if !Final(o.status) && !o.status.HasMoreOutput? {
      NeedsMeansLive(data, b.ref, b.numBits);
      NotYetOver(s.m, data, b, k);
      StuckStep(s.m, data, b);
      StuckForever(s.m, data, b, k);
    }
  }

  // ---- the flag ----

  /** Every call without the flag that more input follows was offered all the input that was left. */
  ghost predicate Honest(data: seq<Byte>, marks: seq<Mark>, outs: seq<Outcome>)
    requires |marks| == |outs| + 1
  {
    forall i {:trigger outs[i]} :: 0 <= i < |outs| && !outs[i].hasMore ==> marks[i].consumed + outs[i].offered == |data|
  }

  /** In a finished history an honest caller is never told that no progress can be made. */
  lemma HonestIsFlagged(s: Setup, data: seq<Byte>, marks: seq<Mark>, outs: seq<Outcome>)
    requires Run(s, data, marks, outs) && outs != [] && Final(outs[|outs| - 1].status) && Honest(data, marks, outs)
    ensures Flagged(outs)
  {
    hide WellFormed, Rested, Step, Summed, Fold, BadSize;
    var n := |outs| - 1;
    assert Called(s, data, marks[n], outs[n], marks[n + 1]);
    forall i | 0 <= i < |outs|
      ensures !outs[i].status.CannotMakeProgress?
    {
      assert Called(s, data, marks[i], outs[i], marks[i + 1]);
      if outs[i].status.CannotMakeProgress? {
        NotStarved(s, data, marks[i], outs[i], marks[i + 1], marks[n + 1].steps);
      }
    }
  }

  /** The verdict on a zlib stream does not depend on how an honest caller cuts it. */
  lemma HonestVerdict(s: Setup, data: seq<Byte>, marks1: seq<Mark>, outs1: seq<Outcome>,
                      marks2: seq<Mark>, outs2: seq<Outcome>)
    requires s.m.zlib
    requires Run(s, data, marks1, outs1) && outs1 != [] && Final(outs1[|outs1| - 1].status) && Honest(data, marks1, outs1)
    requires Run(s, data, marks2, outs2) && outs2 != [] && Final(outs2[|outs2| - 1].status) && Honest(data, marks2, outs2)
    ensures outs1[|outs1| - 1].status == outs2[|outs2| - 1].status
  {
    hide Run, Honest, Final;
    HonestIsFlagged(s, data, marks1, outs1);
    HonestIsFlagged(s, data, marks2, outs2);
    VerdictIndependence(s, data, marks1, outs1, marks2, outs2);
  }

  /** Each call has room for all output still to come. */
  ghost predicate Roomy(marks: seq<Mark>, outs: seq<Outcome>, total: nat)
    requires |marks| == |outs| + 1
  {
    forall i {:trigger outs[i]} :: 0 <= i < |outs| ==> |marks[i].ref.out| + outs[i].room >= total
  }

  /** With room enough the caller's side decides exactly: the checksum sees all output if and only if every
      call without the flag was offered the input up to the end of the stream. */
  lemma FlaggedIff(s: Setup, data: seq<Byte>, marks: seq<Mark>, outs: seq<Outcome>, k: nat)
    requires Run(s, data, marks, outs) && !BadSize(s.m) && Terminal(Iter(s.m, data, Start(s.m), k).ctl)
    requires Roomy(marks, outs, |Iter(s.m, data, Start(s.m), k).out|)
    ensures Flagged(outs) <==> forall i {:trigger outs[i]} :: 0 <= i < |outs| && !outs[i].hasMore ==>
      8 * (marks[i].consumed + outs[i].offered) >= Iter(s.m, data, Start(s.m), k).pos
  {
    hide Called, BadSize, Step, Terminal;
    forall i {:trigger outs[i]} | 0 <= i < |outs|
      ensures outs[i].status.CannotMakeProgress? <==>
        !outs[i].hasMore && 8 * (marks[i].consumed + outs[i].offered) < Iter(s.m, data, Start(s.m), k).pos
    {
      CallEnds(s, data, marks[i], outs[i], marks[i + 1], k);
    }
  }

  // ---- streams of the format ----

  lemma EndOf(m: Mode, data: seq<Byte>, bs: seq<BlockData>, end: nat, res: seq<Byte>) returns (k: nat)
    requires HoldsStream(m, data, bs, end, res)
    ensures var g := Iter(m, data, Start(m), k);
            && g.ctl.Done? && g.pos == 8 * StreamBytes(m, end) && g.out == res
            && (m.zlib ==> g.ctl.z == Pack(Fold(START, res)))
  {
    hide HoldsStream, Fold, Pack, Step;
    var z := StreamDecodes(m, data, bs, end, res);
    k :| At(m, data, State(Done(z), 8 * StreamBytes(m, end), res), k);
  }

  /** A call with room for the output still to come succeeds if and only if it is offered the stream to its
      last byte. */
  lemma StreamCallEnds(s: Setup, data: seq<Byte>, bs: seq<BlockData>, end: nat, res: seq<Byte>, a: Mark, o: Outcome, b: Mark)
    requires HoldsStream(s.m, data, bs, end, res) && Called(s, data, a, o, b) && !BadSize(s.m)
    requires |a.ref.out| + o.room >= |res|
    ensures Final(o.status) <==> a.consumed + o.offered >= StreamBytes(s.m, end)
    ensures Final(o.status) || o.status == if o.hasMore then NeedsMoreInput else CannotMakeProgress
  {
    hide HoldsStream, Called, BadSize, Step, Fold, Pack;
    var k := EndOf(s.m, data, bs, end, res);
    CallEnds(s, data, a, o, b, k);
  }

  /** The whole output of a stream, in any number of pieces, from calls that are offered its rest. */
  lemma StreamEnds(s: Setup, data: seq<Byte>, bs: seq<BlockData>, end: nat, res: seq<Byte>,
                   marks: seq<Mark>, outs: seq<Outcome>)
    requires HoldsStream(s.m, data, bs, end, res) && !BadSize(s.m)
    requires Run(s, data, marks, outs) && outs != [] && GivenRest(data, marks, outs) && Room(outs) >= |res|
    ensures exists i :: 0 <= i < |outs| && Final(outs[i].status)
  {
    hide HoldsStream, Run, GivenRest, BadSize, Step, Fold, Pack;
    var k := EndOf(s.m, data, bs, end, res);
    WholeStreamEnds(s, data, marks, outs, k);
  }

  /** A finished zlib stream is accepted if and only if the output the checksum has seen has the checksum of
      all of it. */
  lemma VerdictIff(s: Setup, data: seq<Byte>, bs: seq<BlockData>, end: nat, res: seq<Byte>,
                   marks: seq<Mark>, outs: seq<Outcome>)
    requires HoldsZlib(s.m, data, bs, end, res) && Run(s, data, marks, outs) && outs != [] && Final(outs[|outs| - 1].status)
    ensures outs[|outs| - 1].status.Finish? <==> Pack(Fold(START, SummedOutput(s, outs))) == Pack(Fold(START, res))
    ensures outs[|outs| - 1].status.Finish? || outs[|outs| - 1].status.AdlerMismatch?
  {
    hide HoldsBlocks, ZlibHeaderBad, Run, Fold, Pack, Step, At, Summed;
    var k := EndOf(s.m, data, bs, end, res);
    LastCall(s, data, marks, outs);
    LastRef(s, data, marks, outs, k);
    ChecksumVerdict(s, data, marks, outs);
  }

  lemma LastRef(s: Setup, data: seq<Byte>, marks: seq<Mark>, outs: seq<Outcome>, k: nat)
    requires Run(s, data, marks, outs) && outs != [] && Final(outs[|outs| - 1].status)
    requires Terminal(Iter(s.m, data, Start(s.m), k).ctl)
    ensures marks[|outs|].ref == Iter(s.m, data, Start(s.m), k)
  {
    hide WellFormed, StateOk, Rested, Step, Summed, Fold;
    var n := |outs| - 1;
    assert Called(s, data, marks[n], outs[n], marks[n + 1]);
    EndReached(s.m, data, marks[n + 1], k);
  }

  /** A stream cut in two, with room enough in both calls: the verdict is good if and only if the first call
      had the flag, or what is left for the second has the checksum of everything. */
  lemma CutVerdict(s: Setup, data: seq<Byte>, bs: seq<BlockData>, end: nat, res: seq<Byte>,
                   marks: seq<Mark>, outs: seq<Outcome>)
    requires HoldsZlib(s.m, data, bs, end, res) && !BadSize(s.m) && Run(s, data, marks, outs) && |outs| == 2
    requires outs[0].room >= |res| && outs[1].room >= |res|
    requires outs[0].offered < StreamBytes(s.m, end) <= outs[0].used + outs[1].offered
    ensures outs[0].status == if outs[0].hasMore then NeedsMoreInput else CannotMakeProgress
    ensures outs[1].status.Finish? <==> outs[0].hasMore || Pack(Fold(START, outs[1].produced)) == Pack(Fold(START, res))
    ensures outs[1].status.Finish? || outs[1].status.AdlerMismatch?
    ensures outs[0].produced + outs[1].produced == res
  {
    hide HoldsBlocks, ZlibHeaderBad, BadSize, Called, Fold, Pack, Step;
    assert Called(s, data, marks[0], outs[0], marks[1]) && Called(s, data, marks[1], outs[1], marks[2]);
    StreamCallEnds(s, data, bs, end, res, marks[0], outs[0], marks[1]);
    CallFacts(s, data, marks[0], outs[0], marks[1]);
    StreamCallEnds(s, data, bs, end, res, marks[1], outs[1], marks[2]);
    VerdictIff(s, data, bs, end, res, marks, outs);
    TwoCalls(s, outs);
    assert [] + outs[1].produced == outs[1].produced;
    RoundTrip(s, data, bs, end, res, marks, outs);
  }

  lemma TwoCalls(s: Setup, outs: seq<Outcome>)
    requires |outs| == 2
    ensures Output(outs) == outs[0].produced + outs[1].produced
    ensures SummedOutput(s, outs) == (if Summed(s, outs[0].status) then outs[0].produced else []) +
                                     (if Summed(s, outs[1].status) then outs[1].produced else [])
  {
    hide Summed;
    assert outs[..1][..0] == [] && outs[..1][0] == outs[0];
    assert Output(outs[..1]) == outs[0].produced;
    assert SummedOutput(s, outs[..1]) == if Summed(s, outs[0].status) then outs[0].produced else [];
  }

  lemma TrailerReached(m: Mode, data: seq<Byte>, bs: seq<BlockData>, end: nat, res: seq<Byte>) returns (k: nat)
    requires HoldsZlib(m, data, bs, end, res)
    ensures Iter(m, data, Start(m), k) == State(Trailer(0, 0), RoundUp(end), res)
  {
    hide Reached, HoldsBlocks, ZlibHeaderBad, Fold, Pack, Step;
    ReadZlibHeader(m, data);
    ReadBlocks(m, data, 16, bs, [], end, res);
    var g := State(TrailAlign, end, res);
    ReachedOk(m, data, g);
    StepsAlign(m, data, g);
    ReachNext(m, data, g, State(Trailer(0, 0), RoundUp(end), res));
    k := WhenReached(m, data, State(Trailer(0, 0), RoundUp(end), res));
  }

  lemma WhenReached(m: Mode, data: seq<Byte>, g: State) returns (k: nat)
    requires Reached(m, data, g)
    ensures Iter(m, data, Start(m), k) == g
  {
    hide Step;
    k :| At(m, data, g, k);
  }

  /** Where a machine waits for input it has passed all states it reaches before. */
  lemma WrittenBy(m: Mode, data: seq<Byte>, b: Mark, t: nat, k: nat)
    requires MarkOk(m, data, b) && Needs(data, b.ref, b.numBits)
    requires Iter(m, data, Start(m), t).pos <= b.ref.pos + b.numBits
    requires Terminal(Iter(m, data, Start(m), k).ctl) && Iter(m, data, Start(m), t).out == Iter(m, data, Start(m), k).out
    ensures b.ref.out == Iter(m, data, Start(m), k).out
  {
    hide Step, WellFormed, Rested, Needs;
    NeedsMeansLive(data, b.ref, b.numBits);
    NotYetOver(m, data, b, k);
    if t > b.steps {
      NeedsEnds(m, data, b, t);
    } else {
      IterGrows(m, data, t, b.steps);
      IterGrows(m, data, b.steps, k);
    }
  }

  /** A call that is offered everything but the end of the trailer has written all output. */
  lemma AllWritten(s: Setup, data: seq<Byte>, bs: seq<BlockData>, end: nat, res: seq<Byte>, a: Mark, o: Outcome, b: Mark)
    requires HoldsZlib(s.m, data, bs, end, res) && Called(s, data, a, o, b) && !BadSize(s.m)
    requires |a.ref.out| + o.room >= |res| && RoundUp(end) / 8 <= a.consumed + o.offered < StreamBytes(s.m, end)
    ensures b.ref.out == res
  {
    hide HoldsBlocks, ZlibHeaderBad, BadSize, Fold, Pack, Step, MarkOk, Needs;
    StreamCallEnds(s, data, bs, end, res, a, o, b);
    var t := TrailerReached(s.m, data, bs, end, res);
    var k := EndOf(s.m, data, bs, end, res);
    BitsSpent(s.m, data, b);
    WrittenBy(s.m, data, b, t, k);
  }

  lemma BitsSpent(m: Mode, data: seq<Byte>, b: Mark)
    requires MarkOk(m, data, b)
    ensures b.ref.pos + b.numBits == 8 * b.consumed
  {
  }

  // ---- decoding to a callback ----

  /** A stream of the format goes to an accepting callback in full and is reported as good. */
  method CallbackDecodes(zlib: bool, wide: bool, data: seq<Byte>, accept: nat -> bool,
                         ghost bs: seq<BlockData>, ghost end: nat, ghost res: seq<Byte>)
    returns (result: bool, used: nat, chunks: seq<seq<Byte>>)
    requires HoldsStream(Mode(zlib, true, LZ_DICT_SIZE), data, bs, end, res) && forall i {:trigger accept(i)} :: accept(i)
    ensures result && Flatten(chunks) == res && used == StreamBytes(Mode(zlib, true, LZ_DICT_SIZE), end)
  {
    hide HoldsStream, WellFormed, Needs, Fold, Pack, Step;
    ghost var m := Mode(zlib, true, LZ_DICT_SIZE);
    StreamIsWellFormed(m, data, bs, end, res);
    ghost var last;
    result, used, chunks, last := DecompressToCallback(zlib, wide, data, accept);
    ghost var k := EndOf(m, data, bs, end, res);
    if Needs(data, last.ref, last.numBits) { NeedsMeansLive(data, last.ref, last.numBits); }
    if Terminal(last.ref.ctl) {
      EndReached(m, data, last, k);
    } else {
      NotYetOver(m, data, last, k);
      StuckStep(m, data, last);
      StuckForever(m, data, last, k);
    }
  }

  // ---- a flag set too early ----

  /** "a" as a zlib stream: header, one block of fixed codes, Adler-32. */
  const SMALL: seq<Byte> := [0x78, 0x9C, 0x4B, 0x04, 0x00, 0x00, 0x62, 0x00, 0x62]

  lemma OneBit(n: nat, k: nat)
    ensures ToBits(n, k + 1) == [n % 2 == 1] + ToBits(n / 2, k)
    ensures ToMsb(n, k + 1) == ToMsb(n / 2, k) + [n % 2 == 1]
    ensures ToBits(n, 0) == [] == ToMsb(n, 0)
  {
  }

  lemma SmallBits()
    ensures ToBits(0x4B, 8) == [true, true, false, true, false, false, true, false]
    ensures ToBits(0x04, 8) == [false, false, true, false, false, false, false, false]
    ensures ToBits(0x00, 8) == [false, false, false, false, false, false, false, false]
    ensures ToMsb(145, 8) == [true, false, false, true, false, false, false, true]
  {
    hide ToBits, ToMsb;
    OneBit(75, 7); OneBit(37, 6); OneBit(18, 5); OneBit(9, 4);
    OneBit(4, 3); OneBit(2, 2); OneBit(1, 1); OneBit(0, 0);
    OneBit(4, 7); OneBit(2, 6); OneBit(1, 5); OneBit(0, 4);
    OneBit(0, 3); OneBit(0, 2); OneBit(0, 1); OneBit(0, 0);
    OneBit(0, 7); OneBit(0, 6); OneBit(0, 5); OneBit(0, 4);
    OneBit(0, 3); OneBit(0, 2); OneBit(0, 1); OneBit(0, 0);
    OneBit(145, 7); OneBit(72, 6); OneBit(36, 5); OneBit(18, 4);
    OneBit(9, 3); OneBit(4, 2); OneBit(2, 1); OneBit(1, 0);
  }

  lemma FixedStarts()
    ensures NextCode(FIXED_LIT, 7) == 0 && NextCode(FIXED_LIT, 8) == 48
  {
    FixedLitCount(1);
    FixedLitCount(2);
    FixedLitCount(3);
    FixedLitCount(4);
    FixedLitCount(5);
    FixedLitCount(6);
    FixedLitCount(7);
    hide Count;
    NextCodeTail(FIXED_LIT, 1, 6);
    assert NextCode(FIXED_LIT, 8) == 2 * (NextCode(FIXED_LIT, 7) + Count(FIXED_LIT, 7));
  }

  lemma FixedRanks()
    ensures |FIXED_LIT| == 288 && FIXED_LIT[97] == 8 && FIXED_LIT[256] == 7
    ensures Count(FIXED_LIT[..97], 8) == 97 && Count(FIXED_LIT[..256], 7) == 0
  {
    hide Count;
    assert FIXED_LIT[..97] == Repeat(8 as nat, 97);
    CountRepeat(8, 97, 8);
    assert FIXED_LIT[..256] == Repeat(8 as nat, 144) + Repeat(9 as nat, 112);
    CountConcat(Repeat(8 as nat, 144), Repeat(9 as nat, 112), 7);
    CountRepeat(8, 144, 7);
    CountRepeat(9, 112, 7);
  }

  lemma SmallCodes()
    ensures |FIXED_LIT| == 288 && FIXED_LIT[97] == 8 && FIXED_LIT[256] == 7
    ensures Code(FIXED_LIT, 97) == [true, false, false, true, false, false, false, true]
    ensures Code(FIXED_LIT, 256) == [false, false, false, false, false, false, false]
  {
    FixedStarts();
    FixedRanks();
    SmallBits();
    hide ToMsb, ToBits, NextCode, Count;
    assert CodeValue(FIXED_LIT, 97) == 145 && CodeValue(FIXED_LIT, 256) == 0;
    ToMsbOfZero(7);
  }

  lemma SubSlice(data: seq<Byte>, lo: nat, a: nat, b: nat, hi: nat)
    requires lo <= a <= b <= hi <= 8 * |data|
    ensures Slice(data, a, b) == Slice(data, lo, hi)[a - lo..b - lo]
  {
  }

  lemma SmallHolds()
    ensures Holds(SMALL, 16, [true, true, false])
    ensures Holds(SMALL, 19, [true, false, false, true, false, false, false, true])
    ensures Holds(SMALL, 27, [false, false, false, false, false, false, false])
  {
    SmallBits();
    hide ToBits;
    SliceOfByte(SMALL, 2);
    SliceOfByte(SMALL, 3);
    SliceOfByte(SMALL, 4);
    var w := Slice(SMALL, 16, 40);
    assert w == [true, true, false, true, false, false, true, false] + [false, false, true, false, false, false, false, false] +
                [false, false, false, false, false, false, false, false] by {
      SliceConcat(SMALL, 16, 24, 32);
      SliceConcat(SMALL, 16, 32, 40);
    }
    SubSlice(SMALL, 16, 16, 19, 40);
    SubSlice(SMALL, 16, 19, 27, 40);
    SubSlice(SMALL, 16, 27, 34, 40);
    hide Slice;
    assert w[0..3] == [true, true, false];
    assert w[3..11] == [true, false, false, true, false, false, false, true];
    assert w[11..18] == [false, false, false, false, false, false, false];
  }

  lemma SmallBlock(m: Mode)
    ensures HoldsBlocks(m, SMALL, 16, [Coded(Fixed, [Lit(97)])], [], 34, [97])
  {
    SmallCodes();
    SmallHolds();
    hide Code, Holds;
    assert [Lit(97)][1..] == [] && [] + [97] == [97];
    assert HoldsTokens(m, SMALL, 27, Fixed, [], [97], 34, [97]);
    assert HoldsTokens(m, SMALL, 19, Fixed, [Lit(97)], [], 34, [97]);
  }

  lemma SmallSums()
    ensures Pack(Fold(START, [97])) == 0x0062_0062 && Pack(Fold(START, [])) == 1
  {
    assert [97][..0] == [];
    assert Fold(START, [97]) == Sums(98, 98);
  }

  lemma SmallHeader()
    ensures |SMALL| == 9 && !ZlibHeaderBad(Mode(true, false, 0), SMALL[0], SMALL[1])
    ensures RoundUp(34) / 8 == 5 && BigEndian(SMALL[5], SMALL[6], SMALL[7], SMALL[8]) == 0x0062_0062
  {
  }

  lemma SmallStream()
    ensures HoldsZlib(Mode(true, false, 0), SMALL, [Coded(Fixed, [Lit(97)])], 34, [97])
  {
    hide HoldsBlocks, Fold, Pack;
    SmallBlock(Mode(true, false, 0));
    SmallSums();
    SmallHeader();
  }

  /** The stream is given up to its trailer, then the trailer.  With the flag on the first call it is accepted,
      without it the checksum misses the output and a good stream is reported as damaged. */
  method EarlyEnd(hasMore: bool) returns (first: Status, second: Status, ghost marks: seq<Mark>, ghost outs: seq<Outcome>)
    ensures Run(Setup(Mode(true, false, 0), false, false), SMALL, marks, outs) && |outs| == 2
    ensures outs[0].offered == 5 && outs[0].hasMore == hasMore && outs[1].offered == 4 && !outs[1].hasMore
    ensures outs[0].status == first && outs[1].status == second && Output(outs) == [97]
    ensures first == (if hasMore then NeedsMoreInput else CannotMakeProgress)
    ensures second == (if hasMore then Finish else AdlerMismatch)
  {
    hide HoldsZlib, Called, Fold, Pack, WellFormed, SavedOk, Mirrors;
    ghost var bs, s := [Coded(Fixed, [Lit(97)])], Setup(Mode(true, false, 0), false, false);
    SmallStream();
    SmallSums();
    StreamIsWellFormed(s.m, SMALL, bs, 34, [97]);
    var r := new Inflater(Setup(Mode(true, false, 0), false, false), SMALL);
    var buf := new Byte[8](_ => 0);
    EmptyWindow(s, r.view, buf[..]);
    var used, n;
    marks := [r.view.mark];
    first, used, n := r.Decompress(SMALL[..5], buf, 0, hasMore);
    outs := [Outcome(5, 8, hasMore, first, used, buf[..n])];
    marks := marks + [r.view.mark];
    StreamCallEnds(s, SMALL, bs, 34, [97], marks[0], outs[0], marks[1]);
    CallFacts(s, SMALL, marks[0], outs[0], marks[1]);
    AllWritten(s, SMALL, bs, 34, [97], marks[0], outs[0], marks[1]);
    var used', n';
    second, used', n' := r.Decompress(SMALL[5..], buf, n, false);
    outs := outs + [Outcome(4, 8 - n, false, second, used', buf[n..n + n'])];
    marks := marks + [r.view.mark];
    CutVerdict(s, SMALL, bs, 34, [97], marks, outs);
    TwoCalls(s, outs);
  }
}
