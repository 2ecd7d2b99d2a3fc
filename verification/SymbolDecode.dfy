/** Decoding one symbol of a packet with a codebook: accelerated table, binary search or linear search. */
module SymbolDecode {
  import opened Bits
  import opened Ogg
  import opened BitCursor
  import opened Codewords
  import opened BitReversal
  import opened Codebook
  import opened SortedCodes
  import opened Book

  /** The bits begin with the codeword of entry `e`. */
  predicate Starts(lens: seq<nat>, w: seq<nat>, e: nat, bits: seq<bool>) {
    e < |w| && e < |lens| && Coded(lens, e) && lens[e] <= 32 && Code(w[e], lens[e]) <= bits
  }

  lemma StartsUnique(lens: seq<nat>, w: seq<nat>, e: nat, e': nat, bits: seq<bool>)
    requires LengthsOk(lens) && Assignment(lens, w) && Starts(lens, w, e, bits) && Starts(lens, w, e', bits)
    ensures e == e'
  {
    hide Code, Assignment;
    var c, c' := Code(w[e], lens[e]), Code(w[e'], lens[e']);
    if |c| <= |c'| {
      assert c == bits[..|c|] == c'[..|c|];
      PrefixFree(lens, w, e, e');
    } else {
      assert c' == bits[..|c'|] == c[..|c'|];
      PrefixFree(lens, w, e', e);
    }
  }

  // ---- accumulator and bits ----

  lemma {:induction false} ToBitsPrefix(n: nat, a: nat, b: nat)
    requires a <= b
    ensures ToBits(n, b)[..a] == ToBits(n, a)
  {
    if a > 0 {
      ToBitsPrefix(n / 2, a - 1, b - 1);
      assert ToBits(n, b)[1..] == ToBits(n / 2, b - 1);
    }
  }

  /** As far as the accumulator reaches, it and the packet begin with the same codewords. */
  lemma InWindow(lens: seq<nat>, w: seq<nat>, e: nat, acc: nat, valid: nat, packet: seq<Byte>)
    requires LengthsOk(lens) && Assignment(lens, w) && |w| == |lens| && acc < SPACE && AccOk(acc, valid)
    requires e < |lens| && Coded(lens, e) && lens[e] <= valid
    ensures Found(lens, w, e, acc) <==> Starts(lens, w, e, Left(acc, valid, packet))
  {
    hide Code, Assignment, Found, ToBits, PacketBits;
    FoundIsPrefix(lens, w, e, acc);
    ToBitsPrefix(acc, lens[e], valid);
    ToBitsPrefix(acc, lens[e], 32);
    var c := Code(w[e], lens[e]);
    assert Left(acc, valid, packet)[..lens[e]] == ToBits(acc, valid)[..lens[e]];
    SamePrefix(c, Left(acc, valid, packet), ToBits(acc, 32));
  }

  lemma SamePrefix(c: seq<bool>, a: seq<bool>, b: seq<bool>)
    requires |c| <= |a| && |c| <= |b| && a[..|c|] == b[..|c|]
    ensures c <= a <==> c <= b
  {
    assert c <= a <==> c == a[..|c|];
    assert c <= b <==> c == b[..|c|];
  }

  // ---- which entries the tables reach ----

  /** The slow path uses the sorted table rather than the linear search. */
  predicate UsesSorted(book: Book) {
    if book.entries > 8 then book.sorted != null else book.codewords == null
  }

  /** What the accelerated table or the slow path can find.  Only a dense book of more than 32767
      entries has others: short codewords too far down for the 16-bit cells, which the sorted table
      leaves out as well. */
  ghost predicate Reachable(book: Book, e: nat)
    requires e < |book.lens|
  {
    book.sparse || book.lens[e] > FAST_LENGTH || e < FAST_MAX || book.sorted == null
  }

  /** A decoded value stands for entry `e`. */
  ghost predicate Means(book: Book, r: int, e: nat)
    reads book.Repr()
  {
    0 <= r < |Entries(book.sparse, book.lens, book.Rows())| && book.EntryOf(r) == e
  }

  /** Consuming `len` bits, or failing for want of them. */
  method Consume(f: Reader, len: nat, ghost v: View) returns (ok: bool)
    requires f.Sane() && AccOk(f.acc, f.validBits) && f.acc < SPACE
    modifies f
    ensures f.Sane() && AccOk(f.acc, f.validBits) && f.acc < SPACE && 0 <= f.validBits <= 32
    ensures ok == (old(f.validBits) >= len)
    ensures f.validBits == if ok then old(f.validBits) - len else 0
    ensures f.lastSeg == old(f.lastSeg) && f.bytesInSeg == old(f.bytesInSeg)
    ensures old(Ready(f, v)) ==> Ready(f, v) && After(v, f.lastSeg) == old(After(v, f.lastSeg))
    ensures old(Ready(f, v)) ==>
      var gone := if ok then len else Loaded(old(f.validBits));
      gone <= |old(BitsLeft(f, v))| && BitsLeft(f, v) == old(BitsLeft(f, v))[gone..] && Cursor(f) == old(Cursor(f)) + gone
  {
    hide Pow2, PacketBits, Packet, After, Reader.Holds, AccBits, Left;
    ShiftNonNegative(f.acc, len);
    ShiftShrinks(f.acc, len);
    ok := f.validBits >= len;
    if ok {
      TakeLeft(f.acc, f.validBits, len, Packet(v, f.lastSeg));
    } else {
      DropAcc(f.acc, f.validBits, f.acc / Pow2(len), Packet(v, f.lastSeg));
    }
    LeftLength(f, v);
    f.acc := f.acc / Pow2(len);
    f.validBits := if ok then f.validBits - len else 0;
  }

  /** The bits a failure throws away: all that are loaded. */
  function Loaded(valid: int): nat { if valid < 0 then 0 else valid }

  lemma DropAcc(acc: nat, valid: int, acc': nat, packet: seq<Byte>)
    ensures Loaded(valid) <= |Left(acc, valid, packet)| && Left(acc', 0, packet) == Left(acc, valid, packet)[Loaded(valid)..]
  {
    var a, b := AccBits(acc, valid), PacketBits(packet);
    assert (a + b)[|a|..] == b;
    assert AccBits(acc', 0) + b == b;
  }

  // ---- the slow path ----

  ghost predicate RawReaches(book: Book, e: nat)
    requires e < |book.lens|
  {
    UsesSorted(book) ==> InSort(book.sparse, book.lens, e)
  }

  /** The sorted table when there is one to use, the linear search otherwise. */
  method RawSearch(book: Book, acc: nat) returns (r: int)
    requires book.Valid() && acc < SPACE
    ensures r >= 0 ==> r < |Entries(book.sparse, book.lens, book.Rows())| && r < book.lengths.Length
    ensures r >= 0 ==> book.EntryOf(r) < |book.lens| && 0 < book.lengths[r] == book.lens[book.EntryOf(r)]
    ensures r >= 0 ==> RawReaches(book, book.EntryOf(r))
    ensures r >= 0 && !UsesSorted(book) ==> Found(book.lens, book.w, book.EntryOf(r), acc)
    ensures forall e: nat {:trigger Found(book.lens, book.w, e, acc)} ::
      Found(book.lens, book.w, e, acc) && RawReaches(book, e) ==> Means(book, r, e)
  {
    hide Found, Assignment, FastTable, SortedTable, BitReverse;
    NoneWithoutTables(book, acc);
    if book.codewords == null && book.sorted == null { return -1; }
    if (if book.entries > 8 then book.sorted != null else book.codewords == null) {
      var x := book.SortedLookup(acc);
      r := if book.sparse then x else book.sortedValues[x];
      book.LengthOfRow(r);
    } else {
      r := book.LinearLookup(acc);
      if r >= 0 { book.LengthOfRow(r); LinearUnique(book, r, acc); }
    }
  }

  /** A sparse book without a sorted table has no coded entry. */
  lemma NoneWithoutTables(book: Book, acc: nat)
    requires book.Valid()
    ensures book.codewords == null && book.sorted == null ==>
      forall e: nat {:trigger Found(book.lens, book.w, e, acc)} :: !Found(book.lens, book.w, e, acc)
  {
    hide BitReverse, Assignment, FastTable;
    forall e: nat {:trigger Found(book.lens, book.w, e, acc)}
      ensures book.codewords == null && book.sorted == null ==> !Found(book.lens, book.w, e, acc)
    {
      if e < |book.lens| { assert InSort(true, book.lens, e) <==> Coded(book.lens, e); }
    }
  }

  lemma LinearUnique(book: Book, r: nat, acc: nat)
    requires book.Valid() && Found(book.lens, book.w, r, acc)
    ensures forall e: nat {:trigger Found(book.lens, book.w, e, acc)} :: Found(book.lens, book.w, e, acc) ==> e == r
  {
    hide Found, BitReverse, Assignment, FastTable;
    forall e: nat {:trigger Found(book.lens, book.w, e, acc)} | Found(book.lens, book.w, e, acc)
      ensures e == r
    {
      FoundUnique(book.lens, book.w, e, r, acc);
    }
  }

  /** What any decoded value promises: bits enough were there and exactly its codeword's are gone.  A failure
      costs the bits of the window. */
  ghost predicate Decoded(book: Book, f: Reader, v: View, r: int, bits: seq<bool>, window: int, cursor: int)
    reads f, f.segments, book.Repr()
  {
    if r < 0 then
      f.validBits == 0 && Loaded(window) <= |bits|
      && BitsLeft(f, v) == bits[Loaded(window)..] && Cursor(f) == cursor + Loaded(window)
    else
      && r < |Entries(book.sparse, book.lens, book.Rows())| && book.EntryOf(r) < |book.lens|
      && var len := book.lens[book.EntryOf(r)];
         && 0 < len <= window && len <= |bits| && 0 <= f.validBits < 32
         && BitsLeft(f, v) == bits[len..] && Cursor(f) == cursor + len
  }

  /** The codebook shares no memory with the reader. */
  ghost predicate Separate(f: Reader, book: Book) {
    f !in book.Repr() && f.segments !in book.Repr()
  }

  /** Every entry the bits start with and the window holds is found in the accumulator. */
  lemma WindowFound(book: Book, acc: nat, valid: nat, packet: seq<Byte>)
    requires book.Valid() && acc < SPACE && AccOk(acc, valid)
    ensures forall e: nat {:trigger Starts(book.lens, book.w, e, Left(acc, valid, packet))} ::
      Starts(book.lens, book.w, e, Left(acc, valid, packet)) && book.lens[e] <= valid ==> Found(book.lens, book.w, e, acc)
  {
    hide Found, Assignment, FastTable, SortedTable, BitReverse, Left, Code;
    forall e: nat {:trigger Starts(book.lens, book.w, e, Left(acc, valid, packet))} |
      Starts(book.lens, book.w, e, Left(acc, valid, packet)) && book.lens[e] <= valid
      ensures Found(book.lens, book.w, e, acc)
    {
      InWindow(book.lens, book.w, e, acc, valid, packet);
    }
  }

  /** The slow search, in terms of the packet's bits. */
  method SearchWindow(book: Book, acc: nat, valid: int, ghost packet: seq<Byte>) returns (r: int)
    requires book.Valid() && acc < SPACE
    ensures r >= 0 ==> r < |Entries(book.sparse, book.lens, book.Rows())| && r < book.lengths.Length
    ensures r >= 0 ==> book.EntryOf(r) < |book.lens| && 0 < book.lengths[r] == book.lens[book.EntryOf(r)]
    ensures r >= 0 ==> RawReaches(book, book.EntryOf(r))
    ensures AccOk(acc, valid) ==> FindsIn(book, r, Left(acc, valid, packet), valid)
  {
    hide Found, Assignment, FastTable, SortedTable, BitReverse, Code, Left, UsesSorted, Means, RawReaches;
    r := RawSearch(book, acc);
    if AccOk(acc, valid) {
      if valid >= 0 { WindowFound(book, acc, valid, packet); }
      forall e: nat {:trigger Starts(book.lens, book.w, e, Left(acc, valid, packet))} |
        Starts(book.lens, book.w, e, Left(acc, valid, packet)) && RawReaches(book, e) && book.lens[e] <= valid
        ensures Means(book, r, e)
      {
        assert Found(book.lens, book.w, e, acc);
      }
    }
  }

  /** The value found is that of any entry the bits start with, if the slow path reaches it. */
  ghost predicate FindsIn(book: Book, r: int, bits: seq<bool>, window: int)
    reads book.Repr()
  {
    forall e: nat {:trigger Starts(book.lens, book.w, e, bits)} ::
      Starts(book.lens, book.w, e, bits) && RawReaches(book, e) && book.lens[e] <= window ==> Means(book, r, e)
  }

  /** Consumes the codeword of row `r`, or everything loaded when it is longer or none was found. */
  method UseRow(f: Reader, book: Book, r0: int, ghost v: View) returns (r: int)
    requires book.Valid() && f.Sane() && Settled(f) && Separate(f, book)
    requires r0 >= 0 ==> r0 < |Entries(book.sparse, book.lens, book.Rows())| && r0 < book.lengths.Length
    requires r0 >= 0 ==> book.EntryOf(r0) < |book.lens| && 0 < book.lengths[r0] == book.lens[book.EntryOf(r0)]
    modifies f
    ensures f.Sane() && Settled(f)
    ensures r == if r0 >= 0 && book.lengths[r0] <= old(f.validBits) then r0 else -1
    ensures old(Ready(f, v)) ==> Ready(f, v) && After(v, f.lastSeg) == old(After(v, f.lastSeg))
    ensures old(Ready(f, v)) ==>
      Decoded(book, f, v, r, old(BitsLeft(f, v)), old(f.validBits), old(Cursor(f)))
  {
    hide Found, Assignment, FastTable, SortedTable, BitReverse, Packet, After, Reader.Holds, PacketBits, Left, Entries;
    hide AccOk;
    LeftLength(f, v);
    NothingLeft(f.acc);
    r := -1;
    if r0 < 0 {
      DropAcc(f.acc, f.validBits, f.acc, Packet(v, f.lastSeg));
      f.validBits := 0;
    } else {
      var ok := Consume(f, book.lengths[r0], v);
      if ok { r := r0; }
    }
  }

  /** Refills and searches the slow way. */
  method ScalarRaw(f: Reader, book: Book, ghost v: View) returns (r: int, ghost v': View)
    requires book.Valid() && f.Sane() && Settled(f) && Separate(f, book)
    modifies f, f.segments
    ensures f.Sane() && Settled(f)
    ensures old(Ready(f, v)) ==> Ready(f, v') && After(v', f.lastSeg) == old(After(v, f.lastSeg))
    ensures old(Ready(f, v)) ==>
      Decoded(book, f, v', r, old(BitsLeft(f, v)), Window(old(f.validBits), |old(BitsLeft(f, v))|), old(Cursor(f)))
    ensures old(Ready(f, v)) ==>
      FindsIn(book, r, old(BitsLeft(f, v)), Window(old(f.validBits), |old(BitsLeft(f, v))|))
    ensures old(Ready(f, v)) && r >= 0 ==> RawReaches(book, book.EntryOf(r))
  {
    hide Found, Assignment, FastTable, SortedTable, BitReverse, Starts, Packet, After, Reader.Holds, PacketBits, Left;
    hide RawReaches, UsesSorted, AccOk, Decoded;
    ghost var bits := BitsLeft(f, v);
    v' := PrepHuffman(f, v);
    ghost var window := f.validBits;
    var r0 := SearchWindow(book, f.acc, f.validBits, Packet(v', f.lastSeg));
    r := UseRow(f, book, r0, v');
    if r0 >= 0 && r < 0 { TooLong(book, r0, book.EntryOf(r0), bits, window); }
  }

  lemma NothingLeft(acc: nat)
    ensures AccOk(acc, 0)
  {
  }

  /** A codeword longer than the window leaves no other entry to find. */
  lemma TooLong(book: Book, r: int, entry: nat, bits: seq<bool>, window: int)
    requires Means(book, r, entry) && entry < |book.lens| && book.lens[entry] > window
    ensures FindsIn(book, r, bits, window) ==> FindsIn(book, -1, bits, window)
  {
    hide Starts, RawReaches;
  }

  // ---- the fast path ----

  lemma RawIsReachable(book: Book, e: nat)
    requires book.Valid() && e < |book.lens| && RawReaches(book, e)
    ensures Reachable(book, e)
  {
    hide Assignment, FastTable, SortedTable;
  }

  /** An entry only the accelerated table can reach is in it. */
  lemma FastOrRaw(book: Book, e: nat)
    requires book.Valid() && e < |book.lens| && Coded(book.lens, e) && Reachable(book, e) && !RawReaches(book, e)
    ensures Short(book.lens, e) && !book.sparse && e < Clamped(|Entries(book.sparse, book.lens, book.Rows())|)
    ensures e < |Entries(book.sparse, book.lens, book.Rows())| && book.EntryOf(e) == e
  {
    hide Assignment, FastTable, SortedTable;
  }

  lemma FastReaches(book: Book, v: nat)
    requires book.Valid() && v < Clamped(|Entries(book.sparse, book.lens, book.Rows())|)
    requires book.EntryOf(v) < |book.lens|
    ensures Reachable(book, book.EntryOf(v))
  {
    hide Assignment, FastTable, SortedTable;
  }

  /** A hit in the accelerated table settles the matter. */
  ghost predicate HitSettles(book: Book, v: int, bits: seq<bool>, valid: int, window: int)
    reads book.Repr()
  {
    && 0 <= v < |Entries(book.sparse, book.lens, book.Rows())| && v < book.lengths.Length
    && book.EntryOf(v) < |book.lens| && 0 < book.lengths[v] == book.lens[book.EntryOf(v)] <= FAST_LENGTH
    && Reachable(book, book.EntryOf(v))
    && forall e: nat {:trigger Starts(book.lens, book.w, e, bits)} ::
         Starts(book.lens, book.w, e, bits) && book.lens[e] <= window ==>
           book.lens[book.EntryOf(v)] <= valid && e == book.EntryOf(v)
  }

  /** A miss leaves everything reachable to the slow path. */
  ghost predicate MissLeaves(book: Book, bits: seq<bool>, window: int) {
    forall e: nat {:trigger Starts(book.lens, book.w, e, bits)} ::
      Starts(book.lens, book.w, e, bits) && book.lens[e] <= window && Reachable(book, e) ==> RawReaches(book, e)
  }

  /** The accelerated lookup, in terms of the packet's bits. */
  method FastWindow(book: Book, acc: nat, valid: int, ghost window: int, ghost packet: seq<Byte>) returns (v: int)
    requires book.Valid() && acc < SPACE
    ensures v >= 0 ==> v < book.lengths.Length
    ensures AccOk(acc, valid) && (10 <= valid || valid == window) ==>
      if v >= 0 then HitSettles(book, v, Left(acc, valid, packet), valid, window)
      else MissLeaves(book, Left(acc, valid, packet), window)
  {
    hide Found, Assignment, FastTable, SortedTable, BitReverse, Code, Left, Reachable, RawReaches;
    v := book.FastLookup(acc);
    ghost var bits := Left(acc, valid, packet);
    if AccOk(acc, valid) && (10 <= valid || valid == window) {
      if v >= 0 {
        FoundCoded(book.lens, book.w, book.EntryOf(v), acc);
        FastReaches(book, v);
      }
      forall e: nat {:trigger Starts(book.lens, book.w, e, bits)} |
        Starts(book.lens, book.w, e, bits) && book.lens[e] <= window
        ensures v >= 0 ==> book.lens[book.EntryOf(v)] <= valid && e == book.EntryOf(v)
        ensures v < 0 && Reachable(book, e) ==> RawReaches(book, e)
      {
        if v >= 0 {
          HitIsStart(book, v, e, acc, valid, window, packet);
        } else if Reachable(book, e) && !RawReaches(book, e) {
          FastOrRaw(book, e);
          InWindow(book.lens, book.w, e, acc, valid, packet);
        }
      }
    }
  }

  lemma HitIsStart(book: Book, v: nat, e: nat, acc: nat, valid: int, window: int, packet: seq<Byte>)
    requires book.Valid() && acc < SPACE && AccOk(acc, valid) && (10 <= valid || valid == window)
    requires v < |Entries(book.sparse, book.lens, book.Rows())| && Found(book.lens, book.w, book.EntryOf(v), acc)
    requires book.lens[book.EntryOf(v)] <= FAST_LENGTH
    requires Starts(book.lens, book.w, e, Left(acc, valid, packet)) && book.lens[e] <= window
    ensures book.lens[book.EntryOf(v)] <= valid && e == book.EntryOf(v)
  {
    hide Found, Assignment, FastTable, SortedTable, BitReverse, Code, Left, Entries;
    var entry := book.EntryOf(v);
    FoundCoded(book.lens, book.w, entry, acc);
    if book.lens[entry] <= valid {
      InWindow(book.lens, book.w, entry, acc, valid, packet);
      StartsUnique(book.lens, book.w, e, entry, Left(acc, valid, packet));
    } else {
      InWindow(book.lens, book.w, e, acc, valid, packet);
      FoundUnique(book.lens, book.w, e, entry, acc);
    }
  }

  lemma FoundCoded(lens: seq<nat>, w: seq<nat>, e: nat, acc: nat)
    requires Found(lens, w, e, acc)
    ensures e < |lens| && Coded(lens, e)
  {
  }

  // ---- DECODE_RAW ----

  /** Of the entries whose codeword comes next in the packet, the value found stands for exactly the one
      that some table reaches and that fits the window. */
  ghost predicate Exact(book: Book, r: int, bits: seq<bool>, window: int)
    reads book.Repr()
  {
    forall e: nat {:trigger Starts(book.lens, book.w, e, bits)} :: Starts(book.lens, book.w, e, bits) ==>
      (Means(book, r, e) <==> Reachable(book, e) && book.lens[e] <= window)
  }

  /** The tables reach every entry of a sparse book, and of a dense one of up to 32767 entries. */
  lemma AllReachable(book: Book, e: nat)
    requires book.Valid() && e < |book.lens| && Coded(book.lens, e) && (book.sparse || |book.lens| <= 32767)
    ensures Reachable(book, e)
  {
    hide Assignment, FastTable, SortedTable;
  }

  /** In such a book the entry whose codeword comes next is found exactly when it fits the window. */
  lemma ExactFinds(book: Book, r: int, bits: seq<bool>, window: int)
    requires book.Valid() && (book.sparse || |book.lens| <= 32767) && Exact(book, r, bits, window)
    ensures forall e: nat {:trigger Starts(book.lens, book.w, e, bits)} :: Starts(book.lens, book.w, e, bits) ==>
      e < |book.lens| && (Means(book, r, e) <==> book.lens[e] <= window)
  {
    hide Starts, Means, Reachable, Book.Valid;
    forall e: nat {:trigger Starts(book.lens, book.w, e, bits)} | Starts(book.lens, book.w, e, bits)
      ensures e < |book.lens| && (Means(book, r, e) <==> book.lens[e] <= window)
    {
      StartsCoded(book.lens, book.w, e, bits);
      AllReachable(book, e);
    }
  }

  lemma HitIsExact(book: Book, v: int, bits: seq<bool>, valid: int, window: int)
    requires HitSettles(book, v, bits, valid, window) && valid <= window
    ensures if book.lengths[v] <= valid then Exact(book, v, bits, window) else Exact(book, -1, bits, window)
  {
    hide Starts, Reachable;
  }

  lemma HitDecoded(book: Book, f: Reader, v: View, r: int, ok: bool, bits: seq<bool>, valid: int, window: int, cursor: int)
    requires HitSettles(book, r, bits, valid, window) && valid <= window && valid <= |bits| && valid <= 32
    requires ok == (valid >= book.lengths[r]) && f.validBits == (if ok then valid - book.lengths[r] else 0)
    requires FAST_LENGTH <= valid || valid == window
    requires var gone := if ok then book.lengths[r] else Loaded(valid);
             gone <= |bits| && BitsLeft(f, v) == bits[gone..] && Cursor(f) == cursor + gone
    ensures Decoded(book, f, v, if ok then r else -1, bits, window, cursor)
  {
    hide Starts, Reachable, BitsLeft;
  }

  lemma RawIsExact(book: Book, f: Reader, v: View, r: int, bits: seq<bool>, window: int, cursor: int)
    requires book.Valid() && MissLeaves(book, bits, window) && FindsIn(book, r, bits, window)
    requires Decoded(book, f, v, r, bits, window, cursor)
    requires r >= 0 ==> RawReaches(book, book.EntryOf(r))
    ensures Exact(book, r, bits, window)
  {
    hide Starts, Reachable, RawReaches, Assignment, FastTable, SortedTable;
    forall e: nat {:trigger Starts(book.lens, book.w, e, bits)} | Starts(book.lens, book.w, e, bits)
      ensures e < |book.lens| && (Means(book, r, e) <==> Reachable(book, e) && book.lens[e] <= window)
    {
      StartsCoded(book.lens, book.w, e, bits);
      if Means(book, r, e) { RawIsReachable(book, e); }
    }
  }

  lemma StartsCoded(lens: seq<nat>, w: seq<nat>, e: nat, bits: seq<bool>)
    requires Starts(lens, w, e, bits)
    ensures e < |lens| && Coded(lens, e)
  {
  }

  lemma WindowAgain(valid: int, total: nat)
    requires valid <= 32 && valid <= total
    ensures valid <= Window(valid, total) && Window(Window(valid, total), total) == Window(valid, total)
  {
  }

  /** Decodes one symbol.  Fast table, binary search and linear search agree on which entry it is; the
      number of bits consumed is the length of its codeword. */
  method Decode(f: Reader, book: Book, ghost v: View) returns (r: int, ghost v': View)
    requires book.Valid() && f.Sane() && Settled(f) && Separate(f, book)
    modifies f, f.segments
    ensures f.Sane() && Settled(f)
    ensures old(Ready(f, v)) ==> Ready(f, v') && After(v', f.lastSeg) == old(After(v, f.lastSeg))
    ensures old(Ready(f, v)) ==>
      Decoded(book, f, v', r, old(BitsLeft(f, v)), Window(old(f.validBits), |old(BitsLeft(f, v))|), old(Cursor(f)))
    ensures old(Ready(f, v)) ==>
      Exact(book, r, old(BitsLeft(f, v)), Window(old(f.validBits), |old(BitsLeft(f, v))|))
    ensures old(Ready(f, v)) && (book.sparse || |book.lens| <= 32767) ==>
      forall e: nat {:trigger Starts(book.lens, book.w, e, old(BitsLeft(f, v)))} ::
        Starts(book.lens, book.w, e, old(BitsLeft(f, v))) ==>
          e < |book.lens| && (Means(book, r, e) <==> book.lens[e] <= Window(old(f.validBits), |old(BitsLeft(f, v))|))
  {
    hide Found, Assignment, FastTable, SortedTable, BitReverse, Starts, Packet, After, Reader.Holds, PacketBits, Left, Means;
    hide RawReaches, Reachable, AccOk, FindsIn, Exact, HitSettles, MissLeaves, Decoded;
    ghost var ready, bits, cursor := Ready(f, v), BitsLeft(f, v), Cursor(f);
    ghost var window := Window(f.validBits, |bits|);
    LeftLength(f, v);
    WindowAgain(f.validBits, |bits|);
    v' := v;
    if f.validBits < FAST_LENGTH {
      v' := PrepHuffman(f, v);
    }
    var valid := f.validBits;
    r := FastWindow(book, f.acc, valid, window, Packet(v', f.lastSeg));
    if r >= 0 {
      var ok := Consume(f, book.lengths[r], v');
      if ready {
        HitIsExact(book, r, bits, valid, window);
        HitDecoded(book, f, v', r, ok, bits, valid, window, cursor);
      }
      if !ok { r := -1; }
    } else {
      r, v' := ScalarRaw(f, book, v');
      if ready { RawIsExact(book, f, v', r, bits, window, cursor); }
    }
    if ready && (book.sparse || |book.lens| <= 32767) { ExactFinds(book, r, bits, window); }
  }

  // ---- the window ----

  /** A codeword that the packet still holds fits the window exactly when it fits what whole bytes on top
      of the valid bits make of the accumulator; up to 25 bits always do. */
  lemma FitsWindow(valid: nat, total: nat, len: nat)
    requires valid <= 32 && valid <= total && len <= total
    ensures len <= Window(valid, total) <==> len <= (if valid > 24 then valid else valid + (32 - valid) / 8 * 8)
    ensures len <= 25 ==> len <= Window(valid, total)
  {
  }

  /** Longer ones may not: with one valid bit a refill stops at 25, and a 26-bit codeword that lies in the
      packet in full is reported as missing. */
  lemma LongCodewordMissed(book: Book, r: int, bits: seq<bool>, e: nat)
    requires |bits| >= 26 && Starts(book.lens, book.w, e, bits) && book.lens[e] == 26
    requires Exact(book, r, bits, Window(1, |bits|))
    ensures Window(1, |bits|) == 25 && !Means(book, r, e)
  {
    hide Code, Reachable;
  }

  /** A short codeword behind 32767 long ones. */
  function LateShort(n: nat): (lens: seq<nat>)
    ensures |lens| == n + 1 && forall i {:trigger lens[i]} :: 0 <= i <= n ==> lens[i] == if i < n then 31 else 1
  {
    seq(n + 1, i requires 0 <= i <= n => if i < n then 31 else 1)
  }

  lemma {:induction false} LongSum(lens: seq<nat>, i: nat)
    requires i <= |lens| && forall j {:trigger lens[j]} :: 0 <= j < i ==> lens[j] == 31
    ensures KraftSum(lens[..i]) == 2 * i
  {
    if i > 0 {
      LongSum(lens, i - 1);
      KraftNext(lens, i - 1);
      UnitOf31();
    }
  }

  lemma UnitOf31()
    ensures Unit(31) == 2 && Unit(1) == 0x8000_0000
  {
    Pow2Values();
  }

  /** In a dense book of more than 32767 entries a short codeword can be out of reach of all tables,
      although the code is not oversubscribed. */
  lemma LateShortLost(book: Book)
    requires book.Valid() && !book.sparse && book.lens == LateShort(FAST_MAX)
    ensures KraftSum(book.lens) <= SPACE && Coded(book.lens, FAST_MAX) && !Reachable(book, FAST_MAX)
  {
    hide Unit, Assignment, FastTable, SortedTable;
    var lens := book.lens;
    LongSum(lens, FAST_MAX);
    KraftNext(lens, FAST_MAX);
    UnitOf31();
    assert lens[..FAST_MAX + 1] == lens;
    assert InSort(false, lens, 0);
  }

  // ---- runs of symbols ----

  function CodesOf(lens: seq<nat>, w: seq<nat>, es: seq<nat>): seq<bool>
    requires forall i {:trigger es[i]} :: 0 <= i < |es| ==> es[i] < |lens| && es[i] < |w| && lens[es[i]] <= 32
  {
    if es == [] then [] else Code(w[es[0]], lens[es[0]]) + CodesOf(lens, w, es[1..])
  }

  /** Entries that decode whatever the state of the accumulator. */
  ghost predicate Easy(book: Book, es: seq<nat>) {
    forall i {:trigger es[i]} :: 0 <= i < |es| ==>
      es[i] < |book.lens| && es[i] < |book.w| && Coded(book.lens, es[i]) && book.lens[es[i]] <= 25 && Reachable(book, es[i])
  }

  lemma RunStep(book: Book, es: seq<nat>, bits: seq<bool>, rest: seq<bool>, valid: nat)
    requires Easy(book, es) && es != [] && bits == CodesOf(book.lens, book.w, es) + rest && valid <= 32 && valid <= |bits|
    ensures var len := book.lens[es[0]];
            && Starts(book.lens, book.w, es[0], bits) && len <= Window(valid, |bits|)
            && bits[len..] == CodesOf(book.lens, book.w, es[1..]) + rest
  {
    hide Code, Reachable;
    var c, d := Code(book.w[es[0]], book.lens[es[0]]), CodesOf(book.lens, book.w, es[1..]);
    assert bits == c + (d + rest);
    assert bits[|c|..] == d + rest;
    FitsWindow(valid, |bits|, |c|);
  }

  lemma ExactHit(book: Book, r: int, bits: seq<bool>, window: int, e: nat)
    requires Exact(book, r, bits, window) && Starts(book.lens, book.w, e, bits) && Reachable(book, e) && book.lens[e] <= window
    ensures Means(book, r, e)
  {
    hide Starts;
  }

  /** Round trip: a packet that goes on with the codewords of some entries decodes to those entries. */
  method DecodeRun(f: Reader, book: Book, n: nat, ghost es: seq<nat>, ghost rest: seq<bool>, ghost v: View)
    returns (rs: seq<int>, ghost v': View)
    requires book.Valid() && Settled(f) && Separate(f, book) && Ready(f, v) && f.validBits >= 0
    requires |es| == n && Easy(book, es) && BitsLeft(f, v) == CodesOf(book.lens, book.w, es) + rest
    modifies f, f.segments
    ensures Settled(f) && Ready(f, v') && f.validBits >= 0 && BitsLeft(f, v') == rest
    ensures |rs| == n && forall i {:trigger rs[i]} :: 0 <= i < n ==> Means(book, rs[i], es[i])
    decreases n
  {
    hide Found, Assignment, FastTable, SortedTable, BitReverse, Starts, Packet, After, Reader.Holds, PacketBits, Left, Exact;
    hide CodesOf, Reachable, AccOk, Window;
    if n == 0 {
      NoCodesLeft(book, rest);
      return [], v;
    }
    ghost var bits, window := BitsLeft(f, v), Window(f.validBits, |BitsLeft(f, v)|);
    LeftLength(f, v);
    RunStep(book, es, bits, rest, f.validBits);
    var r;
    r, v' := Decode(f, book, v);
    ExactHit(book, r, bits, window, es[0]);
    var more;
    more, v' := DecodeRun(f, book, n - 1, es[1..], rest, v');
    rs := [r] + more;
  }

  lemma NoCodesLeft(book: Book, rest: seq<bool>)
    ensures CodesOf(book.lens, book.w, []) + rest == rest
  {
  }
}
