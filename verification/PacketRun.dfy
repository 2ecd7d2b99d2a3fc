/** Whole runs over one packet: reads of any width, refills and symbols of any codebooks, in any order. */
module PacketRun {
  import opened Bits
  import opened Lacing
  import opened Ogg
  import opened BitCursor
  import opened Codewords
  import opened SortedCodes
  import opened Book
  import opened SymbolDecode

  datatype Op = ReadBits(n: nat) | Fill | Symbol(book: Book)

  /** Whether all 32 bits of the accumulator can be valid: a refill may leave them so, a read or a symbol
      does not. */
  predicate StillFull(op: Op, full: bool) {
    op.Fill? || (op.ReadBits? && op.n == 0 && full)
  }

  /** A read of 32 bits must not meet a full accumulator. */
  predicate ReadsOk(ops: seq<Op>, full: bool) {
    ops != [] ==>
      && (ops[0].ReadBits? ==> ops[0].n <= 32 && (ops[0].n == 32 ==> !full))
      && ReadsOk(ops[1..], StillFull(ops[0], full))
  }

  /** What one operation answers and takes, when `bits` are left of the packet and `valid` of them loaded. */
  ghost predicate Served(op: Op, got: int, bits: seq<bool>, valid: int, taken: nat)
    reads if op.Symbol? then op.book.Repr() else {}
  {
    && taken <= |bits|
    && match op
       case ReadBits(n) => taken == Least(n, |bits|) && got == Value(bits, valid, n)
       case Fill => taken == 0
       case Symbol(book) =>
         && Exact(book, got, bits, Window(valid, |bits|))
         && if got < 0 then taken == Loaded(Window(valid, |bits|))
            else
              && got < |Entries(book.sparse, book.lens, book.Rows())| && book.EntryOf(got) < |book.lens|
              && taken == book.lens[book.EntryOf(got)] <= Window(valid, |bits|)
  }

  /** A reader between two operations on a packet; without valid bits for good only behind its end. */
  ghost predicate Paused(f: Reader, v: View, full: bool)
    reads f, f.segments
  {
    && Settled(f) && Ready(f, v)
    && (f.validBits < 0 ==> BitsLeft(f, v) == [])
    && (f.validBits == 32 ==> full)
  }

  method Serve(f: Reader, op: Op, ghost full: bool, ghost v: View) returns (got: int, ghost taken: nat, ghost v': View)
    requires Paused(f, v, full) && (op.ReadBits? ==> op.n <= 32 && (op.n == 32 ==> !full))
    requires op.Symbol? ==> op.book.Valid() && Separate(f, op.book)
    modifies f, f.segments
    ensures Paused(f, v', StillFull(op, full)) && taken <= |old(BitsLeft(f, v))|
    ensures After(v', f.lastSeg) == old(After(v, f.lastSeg))
    ensures Served(op, got, old(BitsLeft(f, v)), old(f.validBits), taken)
    ensures BitsLeft(f, v') == old(BitsLeft(f, v))[taken..] && Cursor(f) == old(Cursor(f)) + taken
  {
    hide Packet, After, Reader.Holds, FromBits, BitsLeft, Cursor, AccOk, Exact;
    ghost var bits := BitsLeft(f, v);
    ValidAreLeft(f, v);
    match op {
      case ReadBits(n) =>
        taken := Least(n, |bits|);
        got, v' := GetBits(f, n, v);
        NoneLeft(bits, f.validBits, n);
      case Fill =>
        taken := 0;
        v' := PrepHuffman(f, v);
        got := 0;
      case Symbol(book) =>
        got, v' := Decode(f, book, v);
        taken := if got < 0 then Loaded(Window(old(f.validBits), |bits|)) else book.lens[book.EntryOf(got)];
    }
  }

  lemma ValidAreLeft(f: Reader, v: View)
    ensures f.validBits <= |BitsLeft(f, v)|
  {
  }

  lemma NoneLeft(bits: seq<bool>, valid: int, n: nat)
    ensures bits == [] ==> Value(bits, valid, n) == 0 && bits[0..] == bits
  {
  }

  /** Where the run stands: bits taken so far, and how many are loaded. */
  datatype Place = Place(pos: nat, valid: int)

  function Shifted(ps: seq<Place>, n: nat): (r: seq<Place>)
    ensures |r| == |ps| && forall i {:trigger r[i]} :: 0 <= i < |ps| ==> r[i] == Place(ps[i].pos + n, ps[i].valid)
  {
    seq(|ps|, i requires 0 <= i < |ps| => Place(ps[i].pos + n, ps[i].valid))
  }

  /** Operation `i` was served at its place. */
  ghost predicate ServedAt(ops: seq<Op>, gots: seq<int>, bits: seq<bool>, at: seq<Place>, i: nat)
    requires i < |ops| == |gots| && |at| == |ops| + 1
    reads if ops[i].Symbol? then ops[i].book.Repr() else {}
  {
    at[i].pos <= at[i + 1].pos <= |bits|
    && Served(ops[i], gots[i], bits[at[i].pos..], at[i].valid, at[i + 1].pos - at[i].pos)
  }

  /** Every operation was served where the one before had left off. */
  ghost predicate InSequence(ops: seq<Op>, gots: seq<int>, bits: seq<bool>, at: seq<Place>)
    reads set i, o | 0 <= i < |ops| && ops[i].Symbol? && o in ops[i].book.Repr() :: o
  {
    && |gots| == |ops| && |at| == |ops| + 1 && at[0].pos == 0 && at[|ops|].pos <= |bits|
    && forall i {:trigger ServedAt(ops, gots, bits, at, i)} :: 0 <= i < |ops| ==> ServedAt(ops, gots, bits, at, i)
  }

  /** The run has taken `total` bits and leaves `left`. */
  ghost predicate Ends(ops: seq<Op>, at: seq<Place>, bits: seq<bool>, total: int, left: seq<bool>) {
    |at| == |ops| + 1 && at[|ops|].pos == total <= |bits| && left == bits[total..]
  }

  lemma NothingServed(bits: seq<bool>, valid: int)
    ensures InSequence([], [], bits, [Place(0, valid)]) && Ends([], [Place(0, valid)], bits, 0, bits)
  {
  }

  lemma PausedMeans(f: Reader, v: View, full: bool)
    requires Paused(f, v, full)
    ensures Settled(f) && Ready(f, v) && (f.validBits > 0 ==> f.acc < Pow2(f.validBits))
  {
  }

  lemma LaterServed(ops: seq<Op>, gots: seq<int>, bits: seq<bool>, at: seq<Place>, got: int, taken: nat, valid: int, i: nat)
    requires ops != [] && taken <= |bits| && 0 < i < |ops| == |gots| + 1 && |at| == |ops|
    requires ServedAt(ops[1..], gots, bits[taken..], at, i - 1)
    ensures ServedAt(ops, [got] + gots, bits, [Place(0, valid)] + Shifted(at, taken), i)
  {
    hide Served;
    var gots', at' := [got] + gots, [Place(0, valid)] + Shifted(at, taken);
    assert at'[i] == Shifted(at, taken)[i - 1] && at'[i + 1] == Shifted(at, taken)[i] && gots'[i] == gots[i - 1];
    assert ops[1..][i - 1] == ops[i];
    assert bits[taken..][at[i - 1].pos..] == bits[at'[i].pos..];
  }

  lemma FirstServed(ops: seq<Op>, gots: seq<int>, bits: seq<bool>, at: seq<Place>, got: int, taken: nat, valid: int)
    requires ops != [] && taken <= |bits| && Served(ops[0], got, bits, valid, taken)
    requires InSequence(ops[1..], gots, bits[taken..], at)
    ensures InSequence(ops, [got] + gots, bits, [Place(0, valid)] + Shifted(at, taken))
    ensures forall left, total :: Ends(ops[1..], at, bits[taken..], total, left) ==>
      Ends(ops, [Place(0, valid)] + Shifted(at, taken), bits, taken + total, left)
  {
    hide Served;
    var gots', at' := [got] + gots, [Place(0, valid)] + Shifted(at, taken);
    assert |at'| == |ops| + 1 && at'[|ops|] == Shifted(at, taken)[|ops| - 1];
    assert bits[taken..][at[|ops| - 1].pos..] == bits[at'[|ops|].pos..];
    assert ServedAt(ops, gots', bits, at', 0) by {
      assert bits[0..] == bits && at'[1] == Shifted(at, taken)[0];
    }
    forall i: nat {:trigger ServedAt(ops, gots', bits, at', i)} | i < |ops|
      ensures ServedAt(ops, gots', bits, at', i)
    {
      if i > 0 { LaterServed(ops, gots, bits, at, got, taken, valid, i); }
    }
  }

  ghost predicate BooksOk(f: Reader, ops: seq<Op>)
    reads set i, o | 0 <= i < |ops| && ops[i].Symbol? && o in ops[i].book.Repr() :: o
  {
    forall i {:trigger ops[i]} :: 0 <= i < |ops| && ops[i].Symbol? ==> ops[i].book.Valid() && Separate(f, ops[i].book)
  }

  /** Any mix of bit reads, refills and symbols takes the packet's bits one after the other: nothing is lost
      or read twice, the cursor counts what has been taken, and the accumulator holds what it should. */
  method RunOps(f: Reader, ops: seq<Op>, ghost full: bool, ghost v: View)
    returns (gots: seq<int>, ghost at: seq<Place>, ghost v': View)
    requires Paused(f, v, full) && ReadsOk(ops, full)
    requires BooksOk(f, ops)
    modifies f, f.segments
    ensures Settled(f) && Ready(f, v') && After(v', f.lastSeg) == old(After(v, f.lastSeg))
    ensures InSequence(ops, gots, old(BitsLeft(f, v)), at)
    ensures |at| == |ops| + 1 && at[0].valid == old(f.validBits) && at[|ops|].valid == f.validBits
    ensures Ends(ops, at, old(BitsLeft(f, v)), Cursor(f) - old(Cursor(f)), BitsLeft(f, v'))
    ensures f.validBits > 0 ==> f.acc < Pow2(f.validBits)
    decreases |ops|
  {
    hide Packet, After, Reader.Holds, BitsLeft, Served, InSequence, Paused, Settled, Ready, Cursor, Ends, Book.Valid;
    PausedMeans(f, v, full);
    ghost var bits, valid := BitsLeft(f, v), f.validBits;
    if ops == [] {
      NothingServed(bits, valid);
      return [], [Place(0, valid)], v;
    }
    ghost var taken, rest;
    var got, more;
    got, taken, v' := Serve(f, ops[0], full, v);
    more, rest, v' := RunOps(f, ops[1..], StillFull(ops[0], full), v');
    FirstServed(ops, more, bits, rest, got, taken, valid);
    gots, at := [got] + more, [Place(0, valid)] + Shifted(rest, taken);
  }

  // ---- from the start of a packet ----

  /** Starting a packet leaves a reader ready for such a run over all its bits. */
  method OpenPacket(f: Reader, ghost v: View) returns (ok: bool, ghost v': View)
    requires f.Sane() && f.Between(v) && f.acc < WORD
    modifies f, f.segments
    ensures ok == (Later(v) != []) && f.acc < WORD
    ensures ok ==> Paused(f, v', false) && BitsLeft(f, v') == PacketBits(Head(Later(v))) && Cursor(f) == 0
    ensures ok ==> f.validBits == 0 && After(v', f.lastSeg) == Tail(Later(v))
    ensures !ok ==> f.Between(v') && Later(v') == []
  {
    hide Head, Tail, Reader.Holds, PacketBits;
    ok, v' := f.StartPacket(v);
    if ok {
      assert [] + Head(Later(v)) == Head(Later(v));
      assert [] + PacketBits(Head(Later(v))) == PacketBits(Head(Later(v)));
    }
  }

  // ---- a codeword that is there and is not found ----

  function ZeroPage(): (p: Page)
    ensures PageOk(p) && !Continued(p) && p.segs == [[0, 0, 0, 0, 0]]
  {
    Page(0, seq(20, _ => 0), [[0, 0, 0, 0, 0]])
  }

  lemma ZeroPacketBits(packet: seq<Byte>)
    requires forall i {:trigger packet[i]} :: 0 <= i < |packet| ==> packet[i] == 0
    ensures PacketBits(packet) == Zeros(8 * |packet|)
  {
    ToBitsOfZero(8);
    forall k | 0 <= k < 8 * |packet|
      ensures PacketBits(packet)[k] == Zeros(8 * |packet|)[k]
    {
      assert packet[k / 8] == 0;
    }
  }

  lemma ZeroPacket()
    ensures PagesOk([ZeroPage()]) && Flagged([ZeroPage()], false)
    ensures PageSegments([ZeroPage()]) == [[0, 0, 0, 0, 0]] && Head([[0, 0, 0, 0, 0]]) == [0, 0, 0, 0, 0]
    ensures PacketBits([0, 0, 0, 0, 0]) == Zeros(40)
  {
    assert PageSegments([]) == [] && [ZeroPage()][1..] == [];
    ZeroPacketBits([0, 0, 0, 0, 0]);
  }

  lemma ZerosRest(k: nat, n: nat)
    requires k <= n
    ensures Zeros(n)[k..] == Zeros(n - k) && Zeros(n)[..k] == Zeros(k)
  {
  }

  /** The first codeword of a code is all zeros. */
  lemma FirstCodeword(lens: seq<nat>, w: seq<nat>)
    requires lens == [26] && |w| == 1 && Assignment(lens, w)
    ensures w[0] == 0 && Code(w[0], 26) == Zeros(26)
  {
    assert Lowest(lens, w, 0);
    if w[0] > 0 {
      assert Slot(0, 26) && Unused(lens, w, 0, 0, 26);
    }
    ToMsbOfZero(32);
    ZerosRest(26, 32);
  }

  lemma Kraft26()
    ensures LengthsOk([26]) && !(KraftSum([26]) > SPACE) && !StaysSparse(false, [26])
  {
    assert KraftSum([]) == 0 && [26][..0] == [];
    Pow2Values();
  }

  /** A reader at the start of the packet of 40 zero bits, or behind its first seven. */
  method OpenZeros(skip: nat) returns (f: Reader, ghost v: View)
    requires skip == 0 || skip == 7
    ensures fresh(f) && fresh(f.segments) && Settled(f) && Ready(f, v)
    ensures f.validBits == (if skip == 0 then 0 else 1) && BitsLeft(f, v) == Zeros(40 - skip)
  {
    hide Paused, Head, BitsLeft, Reader.Holds, Encode, PacketBits, PageSegments, Settled, Ready;
    f := new Reader(Encode([ZeroPage()]));
    v := View([], [], [ZeroPage()]);
    ZeroPacket();
    ReaderWord(f);
    AtStart(f, v);
    var ok;
    ok, v := OpenPacket(f, v);
    PausedMeans(f, v, false);
    var z;
    z, v := GetBits(f, skip, v);
    ZerosRest(skip, 40);
  }

  lemma ReaderWord(f: Reader)
    ensures f.acc == 0 ==> f.acc < WORD
  {
  }

  /** The codeword of 26 zeros comes next, and fits the window or not. */
  lemma ZerosDecoded(book: Book, r: int, n: nat, valid: int)
    requires book.Valid() && book.lens == [26] && !book.sparse && ((valid == 0 && n == 40) || (valid == 1 && n == 33))
    requires Exact(book, r, Zeros(n), Window(valid, n))
    requires r >= 0 ==> r < |Entries(book.sparse, book.lens, book.Rows())|
    ensures if valid == 0 then r == 0 else r < 0
  {
    FirstCodeword(book.lens, book.w);
    ZerosRest(26, n);
    hide Assignment, Code, FastTable, SortedTable;
    assert Starts(book.lens, book.w, 0, Zeros(n));
    assert Reachable(book, 0);
  }

  /** A book whose one codeword has 26 bits, all zero, and a packet of 40 zero bits: decoded at its start the
      codeword is found, but not after a read of seven bits, with 33 of them still to come.  That read leaves
      one valid bit, and the refill stops at 25. */
  method LongCodewordLost(skip: nat) returns (ghost left: seq<bool>, r: int)
    requires skip == 0 || skip == 7
    ensures left == Zeros(40 - skip) && if skip == 0 then r == 0 else r < 0
  {
    hide Assignment, Code, FastTable, SortedTable, BitsLeft, Exact, Settled, Window, AccOk, Reader.Holds, Book.Valid;
    Kraft26();
    hide KraftSum, StaysSparse;
    var book := Setup(false, [26]);
    var f;
    ghost var v;
    f, v := OpenZeros(skip);
    assert Separate(f, book);
    left := BitsLeft(f, v);
    r, v := Decode(f, book, v);
    ZerosDecoded(book, r, 40 - skip, if skip == 0 then 0 else 1);
  }
}
