/** A finished Vorbis codebook and the three ways of finding a symbol in it. */
module Book {
  import opened Bits
  import opened Codewords
  import opened BitReversal
  import opened Codebook
  import opened SortedCodes

  // ---- the accelerated table ----

  /** The table index `z` ends in the reversed codeword of entry `e`. */
  predicate Hit(lens: seq<nat>, w: seq<nat>, e: nat, z: nat) {
    e < |lens| && e < |w| && z % Pow2(lens[e]) == BitReverse(w[e])
  }

  predicate Short(lens: seq<nat>, e: nat) {
    e < |lens| && lens[e] <= FAST_LENGTH
  }

  /** Cell `z` names the one short codeword among the first `n` that `z` ends in, if there is one. */
  ghost predicate Cell(lens: seq<nat>, w: seq<nat>, ents: seq<nat>, n: nat, f: int, z: nat)
    requires n <= |ents|
  {
    && (f == -1 || (0 <= f < n && Short(lens, ents[f]) && Hit(lens, w, ents[f], z)))
    && (f == -1 ==> forall i {:trigger ents[i]} :: 0 <= i < n && Short(lens, ents[i]) ==> !Hit(lens, w, ents[i], z))
  }

  ghost predicate FastTable(lens: seq<nat>, w: seq<nat>, ents: seq<nat>, n: nat, fast: seq<int>) {
    && n <= |ents| && |fast| == FAST_SIZE
    && forall z {:trigger fast[z]} :: 0 <= z < FAST_SIZE ==> Cell(lens, w, ents, n, fast[z], z)
  }

  function Identity(n: nat): (s: seq<nat>)
    ensures |s| == n && forall i {:trigger s[i]} :: 0 <= i < n ==> s[i] == i
  {
    seq(n, i => i)
  }

  /** The entry a decoded value stands for: a row of the sorted table for a sparse book. */
  function Entries(sparse: bool, lens: seq<nat>, sv: seq<nat>): seq<nat> {
    if sparse then sv else Identity(|lens|)
  }

  /** 16-bit cells cannot name more entries. */
  function Clamped(n: nat): (m: nat)
    ensures m <= n && m <= FAST_MAX
  {
    if n > FAST_MAX then FAST_MAX else n
  }

  lemma ResidueGap(z: nat, y: nat, p: nat)
    requires p > 0 && z < y < z + p
    ensures y % p != z % p
  {
    if y % p == z % p {
      var a, b := z / p, y / p;
      assert z == p * a + z % p && y == p * b + y % p;
      if a < b { MulLess(p, a, b); } else { MulMono(b, a, p); }
    }
  }

  lemma NextResidue(z: nat, p: nat)
    requires p > 0
    ensures (z + p) % p == z % p
  {
    assert p * (z / p + 1) == p * (z / p) + p;
    DivUnique(z + p, p, z / p + 1, z % p);
  }

  /** Sets all cells that end in the `len` bits of `z0`. */
  method FillFast(fast: array<int>, z0: nat, len: nat, i: nat)
    requires fast.Length == FAST_SIZE && z0 < Pow2(len)
    modifies fast
    ensures forall z {:trigger fast[z]} :: 0 <= z < FAST_SIZE ==>
      fast[z] == if z % Pow2(len) == z0 then i else old(fast[z])
  {
    hide Pow2;
    var p := Pow2(len);
    var z := z0;
    DivUnique(z0, p, 0, z0);
    BelowFirst(z0, p);
    while z < FAST_SIZE
      invariant z % p == z0
      invariant forall y {:trigger fast[y]} :: 0 <= y < FAST_SIZE ==>
        fast[y] == if y < z && y % p == z0 then i else old(fast[y])
      decreases FAST_SIZE - z
    {
      fast[z] := i;
      NextResidue(z, p);
      forall y | z < y < z + p
        ensures y % p != z0
      {
        ResidueGap(z, y, p);
      }
      z := z + p;
    }
  }

  lemma BelowFirst(z0: nat, p: nat)
    requires z0 < p
    ensures forall y :: 0 <= y < z0 ==> y % p != z0
  {
    forall y | 0 <= y < z0
      ensures y % p != z0
    {
      DivUnique(y, p, 0, y);
    }
  }

  lemma CellNext(lens: seq<nat>, w: seq<nat>, ents: seq<nat>, n: nat, f: int, z: nat)
    requires n < |ents| && Cell(lens, w, ents, n, f, z)
    ensures Cell(lens, w, ents, n + 1, if Short(lens, ents[n]) && Hit(lens, w, ents[n], z) then n else f, z)
  {
    hide Hit, Short;
  }

  /** What the loop below reads for index `i` of the table it indexes. */
  ghost predicate Key(lens: seq<nat>, w: seq<nat>, ents: seq<nat>, i: nat, len: nat, word: nat)
    requires i < |ents|
  {
    && ents[i] < |lens| && ents[i] < |w| && len == lens[ents[i]]
    && (len <= FAST_LENGTH ==> word == BitReverse(w[ents[i]]) && word < Pow2(len))
  }

  lemma KeyMeans(lens: seq<nat>, w: seq<nat>, ents: seq<nat>, i: nat, len: nat, word: nat, z: nat)
    requires i < |ents| && Key(lens, w, ents, i, len, word)
    ensures len <= FAST_LENGTH ==> word < Pow2(len)
    ensures Short(lens, ents[i]) && Hit(lens, w, ents[i], z) <==> len <= FAST_LENGTH && z % Pow2(len) == word
  {
    hide BitReverse, Pow2;
  }

  /** The word the loop uses: sorted rows are reversed back, unsorted ones are stored reversed. */
  function KeyWord(sparse: bool, sc: seq<nat>, cws: seq<nat>, i: nat): nat {
    if sparse then (if i < |sc| then BitReverse(sc[i]) else 0) else if i < |cws| then cws[i] else 0
  }

  lemma KeyRead(sparse: bool, lens: seq<nat>, w: seq<nat>, sc: seq<nat>, sv: seq<nat>, clens: seq<nat>, cws: seq<nat>, i: nat)
    requires LengthsOk(lens) && Assignment(lens, w) && |w| == |lens| && SortedTable(sparse, lens, w, sc, sv, clens)
    requires !sparse ==> clens == lens && |cws| == |lens|
    requires !sparse ==> forall e {:trigger cws[e]} :: 0 <= e < |lens| && Coded(lens, e) ==> Kept(cws[e], w, e)
    requires i < |Entries(sparse, lens, sv)|
    ensures i < |clens| && (if sparse then i < |sc| else i < |cws|)
    ensures Key(lens, w, Entries(sparse, lens, sv), i, clens[i], KeyWord(sparse, sc, cws, i))
  {
    hide BitReverse, Pow2;
    var e := Entries(sparse, lens, sv)[i];
    if sparse {
      assert Row(sparse, lens, w, sc, sv, clens, i);
    }
    if lens[e] != NO_CODE {
      assert Lowest(lens, w, e);
      ReversedCode(w[e], lens[e]);
    }
  }

  lemma EmptyCells(lens: seq<nat>, w: seq<nat>, ents: seq<nat>, z: nat)
    ensures Cell(lens, w, ents, 0, -1, z)
  {
  }

  /** Allows constant-time matching of all codewords of at most `FAST_LENGTH` bits. */
  method Accelerate(sparse: bool, lens: seq<nat>, ghost w: seq<nat>, lengths: array<nat>, codewords: array<nat>,
                    sorted: array<nat>, sortedValues: array<nat>, fast: array<int>)
    requires LengthsOk(lens) && Assignment(lens, w) && |w| == |lens| && fast.Length == FAST_SIZE
    requires SortedTable(sparse, lens, w, sorted[..], sortedValues[..], lengths[..])
    requires !sparse ==> lengths[..] == lens && codewords.Length == |lens|
    requires !sparse ==> forall e {:trigger codewords[..][e]} :: 0 <= e < |lens| && Coded(lens, e) ==>
                                                                   Kept(codewords[..][e], w, e)
    modifies fast
    ensures FastTable(lens, w, Entries(sparse, lens, sortedValues[..]),
                      Clamped(if sparse then sortedValues.Length else |lens|), fast[..])
  {
    hide Assignment, BitReverse, SortedTable, Pow2, Hit, Short, Cell, Key;
    ghost var ents := Entries(sparse, lens, sortedValues[..]);
    var i := 0;
    while i < FAST_SIZE
      invariant 0 <= i <= FAST_SIZE
      invariant forall z {:trigger fast[z]} :: 0 <= z < i ==> fast[z] == -1
    {
      fast[i] := -1;
      i := i + 1;
    }
    var len := Clamped(if sparse then sortedValues.Length else |lens|);
    forall z | 0 <= z < FAST_SIZE
      ensures Cell(lens, w, ents, 0, fast[z], z)
    {
      EmptyCells(lens, w, ents, z);
    }
    i := 0;
    while i < len
      invariant 0 <= i <= len
      invariant forall z {:trigger fast[z]} :: 0 <= z < FAST_SIZE ==> Cell(lens, w, ents, i, fast[z], z)
    {
      KeyRead(sparse, lens, w, sorted[..], sortedValues[..], lengths[..], codewords[..], i);
      ghost var word' := KeyWord(sparse, sorted[..], codewords[..], i);
      KeyMeans(lens, w, ents, i, lengths[i], word', 0);
      ghost var was := fast[..];
      if lengths[i] <= FAST_LENGTH {
        var word := if sparse then BitReverse(sorted[i]) else codewords[i];
        FillFast(fast, word, lengths[i], i);
      }
      forall z | 0 <= z < FAST_SIZE
        ensures Cell(lens, w, ents, i + 1, fast[z], z)
      {
        CellNext(lens, w, ents, i, was[z], z);
        KeyMeans(lens, w, ents, i, lengths[i], word', z);
      }
      i := i + 1;
    }
  }

  // ---- the codebook ----

  /** The pending bits `acc`, least significant first, begin with the codeword of entry `e`. */
  predicate Found(lens: seq<nat>, w: seq<nat>, e: nat, acc: nat) {
    acc < SPACE && BeginsWith(lens, w, e, BitReverse(acc))
  }

  /** In stream order: the codeword's bits are the first of the 32 pending ones. */
  lemma FoundIsPrefix(lens: seq<nat>, w: seq<nat>, e: nat, acc: nat)
    requires LengthsOk(lens) && Assignment(lens, w) && e < |w| && Coded(lens, e) && acc < SPACE
    ensures Found(lens, w, e, acc) <==> Code(w[e], lens[e]) <= ToBits(acc, 32)
  {
    hide BitReverse, Code, ToMsb, ToBits, Unit;
    assert Lowest(lens, w, e);
    ReverseIsReverse(acc);
    WithinIsPrefix(BitReverse(acc), w[e], lens[e]);
  }

  lemma FoundUnique(lens: seq<nat>, w: seq<nat>, e: nat, e': nat, acc: nat)
    requires Assignment(lens, w) && Found(lens, w, e, acc) && Found(lens, w, e', acc)
    ensures e == e'
  {
    Codewords.BeginsUnique(lens, w, e, e', BitReverse(acc));
  }

  /** The masked comparison of the linear search. */
  lemma FoundByMask(lens: seq<nat>, w: seq<nat>, e: nat, acc: nat)
    requires LengthsOk(lens) && Assignment(lens, w) && e < |w| && Coded(lens, e) && acc < SPACE
    ensures Found(lens, w, e, acc) <==> acc % Pow2(lens[e]) == BitReverse(w[e])
  {
    hide BitReverse, Pow2, Unit;
    assert Lowest(lens, w, e);
    MaskIsWithin(acc, w[e], lens[e]);
  }

  lemma FoundByHit(lens: seq<nat>, w: seq<nat>, e: nat, acc: nat)
    requires LengthsOk(lens) && Assignment(lens, w) && |w| == |lens| && Short(lens, e) && acc < SPACE
    ensures Found(lens, w, e, acc) <==> Hit(lens, w, e, acc % FAST_SIZE)
  {
    hide BitReverse, Pow2;
    FoundByMask(lens, w, e, acc);
    Pow2Values();
    ModMod(acc, lens[e], 10);
  }

  class Book {
    const sparse: bool
    const lengths: array<nat>
    const codewords: array?<nat>
    const sorted: array?<nat>
    const sortedValues: array?<nat>
    const fast: array<int>
    ghost const lens: seq<nat>
    ghost const w: seq<nat>
    const entries: nat

    constructor (sparse: bool, lens: seq<nat>, lengths: array<nat>, codewords: array?<nat>,
                 sorted: array?<nat>, sortedValues: array?<nat>, fast: array<int>, ghost w: seq<nat>)
      ensures this.sparse == sparse && this.lens == lens && this.w == w && entries == |lens|
      ensures this.lengths == lengths && this.codewords == codewords && this.fast == fast
      ensures this.sorted == sorted && this.sortedValues == sortedValues
    {
      this.sparse, this.lens, this.w, entries := sparse, lens, w, |lens|;
      this.lengths, this.codewords, this.fast := lengths, codewords, fast;
      this.sorted, this.sortedValues := sorted, sortedValues;
    }

    ghost function Repr(): set<object?> { {lengths, codewords, sorted, sortedValues} + {fast} }

    ghost function Rows(): seq<nat>
      reads Repr()
    {
      if sortedValues == null then [] else sortedValues[..]
    }

    ghost predicate CodewordsOk()
      reads Repr()
    {
      && (codewords == null <==> sparse)
      && (codewords != null ==>
            && codewords.Length == |lens| && lengths[..] == lens
            && forall e {:trigger codewords[..][e]} :: 0 <= e < |lens| && Coded(lens, e) ==> Kept(codewords[..][e], w, e))
    }

    ghost predicate SortedOk()
      reads Repr()
    {
      && (sorted == null <==> sortedValues == null)
      && (sorted == null ==> forall e {:trigger InSort(sparse, lens, e)} :: 0 <= e < |lens| ==> !InSort(sparse, lens, e))
      && (sorted != null ==> sortedValues.Length > 0 && SortedTable(sparse, lens, w, sorted[..], sortedValues[..], lengths[..]))
    }

    ghost predicate Valid()
      reads Repr()
    {
      && LengthsOk(lens) && Assignment(lens, w) && |w| == |lens| == entries
      && CodewordsOk() && SortedOk()
      && FastTable(lens, w, Entries(sparse, lens, Rows()), Clamped(if sparse then |Rows()| else entries), fast[..])
    }

    /** The entry behind a decoded value. */
    ghost function EntryOf(v: nat): nat
      requires v < |Entries(sparse, lens, Rows())|
      reads Repr()
    {
      Entries(sparse, lens, Rows())[v]
    }

    /** The accelerated lookup: exact on the short codewords it knows of. */
    method FastLookup(acc: nat) returns (v: int)
      requires Valid() && acc < SPACE
      ensures v >= 0 ==> v < Clamped(|Entries(sparse, lens, Rows())|) && v < lengths.Length
      ensures v >= 0 ==> Found(lens, w, EntryOf(v), acc) && lengths[v] == lens[EntryOf(v)] <= FAST_LENGTH
      ensures v < 0 ==> forall i {:trigger EntryOf(i)} ::
        0 <= i < Clamped(|Entries(sparse, lens, Rows())|) && Short(lens, EntryOf(i)) ==> !Found(lens, w, EntryOf(i), acc)
    {
      hide BitReverse, Found, Hit, Assignment, SortedTable;
      ghost var ents := Entries(sparse, lens, Rows());
      var z := acc % FAST_SIZE;
      v := fast[z];
      assert fast[..][z] == v && Cell(lens, w, ents, Clamped(|ents|), v, z);
      if v >= 0 {
        FoundByHit(lens, w, ents[v], acc);
        LengthOfRow(v);
      } else {
        forall i {:trigger EntryOf(i)} | 0 <= i < Clamped(|ents|) && Short(lens, EntryOf(i))
          ensures !Found(lens, w, EntryOf(i), acc)
        {
          FoundByHit(lens, w, ents[i], acc);
        }
      }
    }

    lemma LengthOfRow(v: nat)
      requires Valid() && v < |Entries(sparse, lens, Rows())|
      ensures v < lengths.Length && EntryOf(v) < |lens| && lengths[v] == lens[EntryOf(v)]
    {
      hide BitReverse, Assignment, FastTable;
      if sparse {
        assert Row(sparse, lens, w, sorted[..], sortedValues[..], lengths[..], v);
        assert lengths[..][v] == lengths[v];
      } else {
        assert lengths[..][v] == lengths[v];
      }
    }

    /** The binary search: finds any codeword of the sorted table. */
    method SortedLookup(acc: nat) returns (x: nat)
      requires Valid() && acc < SPACE && sorted != null
      ensures x < |Rows()| && Rows()[x] < entries
      ensures InSort(sparse, lens, Rows()[x])
      ensures forall e: nat {:trigger Found(lens, w, e, acc)} :: Found(lens, w, e, acc) && InSort(sparse, lens, e) ==> Rows()[x] == e
    {
      hide BitReverse, Assignment, FastTable, CodewordsOk;
      var m := sortedValues.Length;
      ghost var sc, sv, clens := sorted[..], sortedValues[..], lengths[..];
      IncreasingAscends(sorted[..m]);
      x := Locate(sorted, m, BitReverse(acc));
      assert Row(sparse, lens, w, sc, sv, clens, x);
      forall e: nat {:trigger Found(lens, w, e, acc)} | Found(lens, w, e, acc) && InSort(sparse, lens, e)
        ensures sv[x] == e
      {
        SearchEndsAt(sparse, lens, w, sc, sv, clens, acc, x, e);
      }
    }

    /** The linear search: the first codeword that the pending bits begin with, -1 when there is none. */
    method LinearLookup(acc: nat) returns (i: int)
      requires Valid() && acc < SPACE && !sparse
      ensures i >= 0 ==> i < entries && Found(lens, w, i, acc)
      ensures i < 0 ==> forall e: nat {:trigger Found(lens, w, e, acc)} :: !Found(lens, w, e, acc)
    {
      hide BitReverse, Found, Assignment, FastTable, SortedOk, Pow2;
      i := 0;
      while i < entries
        invariant 0 <= i <= entries
        invariant forall e: nat {:trigger Found(lens, w, e, acc)} :: 0 <= e < i ==> !Found(lens, w, e, acc)
      {
        assert lengths[..][i] == lens[i];
        if lengths[i] == NO_CODE {
          NotFound(i, acc);
        } else {
          FoundByMask(lens, w, i, acc);
          assert Kept(codewords[..][i], w, i);
          if codewords[i] == acc % Pow2(lengths[i]) { return; }
        }
        i := i + 1;
      }
      forall e: nat {:trigger Found(lens, w, e, acc)}
        ensures !Found(lens, w, e, acc)
      {
        if e >= entries { NotFound(e, acc); }
      }
      i := -1;
    }

    lemma NotFound(e: nat, acc: nat)
      requires e >= |lens| || !Coded(lens, e)
      ensures !Found(lens, w, e, acc)
    {
    }
  }

  lemma SearchEndsAt(sparse: bool, lens: seq<nat>, w: seq<nat>, sc: seq<nat>, sv: seq<nat>, clens: seq<nat>,
                     acc: nat, x: nat, e: nat)
    requires Assignment(lens, w) && SortedTable(sparse, lens, w, sc, sv, clens) && x < |sv|
    requires (x > 0 ==> sc[x] <= BitReverse(acc)) && (x + 1 < |sv| ==> BitReverse(acc) < sc[x + 1])
    requires Found(lens, w, e, acc) && InSort(sparse, lens, e)
    ensures sv[x] == e
  {
    hide BitReverse;
    var y :| 0 <= y < |sv| && sv[y] == e;
    assert Row(sparse, lens, w, sc, sv, clens, y);
    if y + 1 < |sv| { NextRowAbove(sparse, lens, w, sc, sv, clens, acc, y); }
    LocateFinds(sc, |sv|, BitReverse(acc), x, y);
  }

  lemma NextRowAbove(sparse: bool, lens: seq<nat>, w: seq<nat>, sc: seq<nat>, sv: seq<nat>, clens: seq<nat>,
                     acc: nat, y: nat)
    requires Assignment(lens, w) && SortedTable(sparse, lens, w, sc, sv, clens) && y + 1 < |sv| && sv[y] < |lens|
    requires Found(lens, w, sv[y], acc)
    ensures BitReverse(acc) < sc[y + 1]
  {
    hide BitReverse, Unit;
    assert Row(sparse, lens, w, sc, sv, clens, y) && Row(sparse, lens, w, sc, sv, clens, y + 1);
    var a, b := sv[y], sv[y + 1];
    assert sc[..|sv|][y] < sc[..|sv|][y + 1];
    if sc[y + 1] <= BitReverse(acc) {
      Codewords.BeginsUnique(lens, w, a, b, w[b]);
    }
  }

  // ---- setting a codebook up ----

  /** A codebook flagged sparse stays so only when less than a quarter of its entries are coded. */
  predicate StaysSparse(flag: bool, lens: seq<nat>) {
    flag && |CodedEntries(lens, |lens|)| < |lens| / 4
  }

  /** When the sorted table is empty, no entry belongs in it. */
  lemma SortedMissing(sparse: bool, lens: seq<nat>)
    requires Included(sparse, lens, |lens|) == []
    ensures forall e {:trigger InSort(sparse, lens, e)} :: 0 <= e < |lens| ==> !InSort(sparse, lens, e)
  {
    forall e: nat {:trigger InSort(sparse, lens, e)} | e < |lens|
      ensures !InSort(sparse, lens, e)
    {
      if InSort(sparse, lens, e) { var k := IncludedAll(sparse, lens, |lens|, e); }
    }
  }

  /** Builds all tables of a codebook from its code lengths; fails exactly on oversubscribed lengths. */
  method Setup(flag: bool, lens: seq<nat>) returns (book: Book?)
    requires LengthsOk(lens)
    ensures book == null <==> KraftSum(lens) > SPACE
    ensures book != null ==> fresh(book) && book.Valid() && book.lens == lens && book.sparse == StaysSparse(flag, lens)
    ensures book != null ==> (book.sparse <==> flag && 4 * (|CodedEntries(lens, |lens|)| + 1) <= |lens|)
  {
    hide Assignment, KraftSum, SortedTable, FastTable, Recorded, Included;
    var sparse := StaysSparse(flag, lens);
    var d := new Draft(sparse, lens);
    var ok, w := d.ComputeCodewords(sparse, lens);
    if !ok { return null; }
    DenseKept(sparse, lens, w, d.codewords[..], d.lengths[..], d.values[..]);
    var count := |Included(sparse, lens, |lens|)|;
    var sorted := new nat[count + 1](_ => 0);
    var sortedValues := new nat[count](_ => 0);
    ComputeSorted(sparse, lens, d, sorted, sortedValues, w);
    var fast := new int[FAST_SIZE](_ => 0);
    Accelerate(sparse, lens, w, d.lengths, d.codewords, sorted, sortedValues, fast);
    if count == 0 { SortedMissing(sparse, lens); }
    book := new Book(sparse, lens, d.lengths, if sparse then null else d.codewords,
                     if count == 0 then null else sorted, if count == 0 then null else sortedValues, fast, w);
    assert book.Rows() == sortedValues[..];
    assert book.CodewordsOk();
    assert book.SortedOk();
  }

  lemma DenseKept(sparse: bool, lens: seq<nat>, w: seq<nat>, cws: seq<nat>, clens: seq<nat>, values: seq<nat>)
    requires Recorded(sparse, lens, w, |lens|, cws, clens, values)
    ensures !sparse ==> forall e {:trigger cws[e]} :: 0 <= e < |lens| && e < |cws| && Coded(lens, e) ==> Kept(cws[e], w, e)
  {
  }
}
