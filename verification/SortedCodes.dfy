/** The sorted table of a codebook and the accelerated table: building them and searching them. */
module SortedCodes {
  import opened Codewords
  import opened BitReversal
  import opened Codebook

  predicate Ascending(s: seq<nat>) {
    forall i, j {:trigger s[i], s[j]} :: 0 <= i < j < |s| ==> s[i] <= s[j]
  }

  predicate Increasing(s: seq<nat>) {
    forall i, j {:trigger s[i], s[j]} :: 0 <= i < j < |s| ==> s[i] < s[j]
  }

  // ---- the library sort ----

  lemma Bounded(r: seq<nat>, s: seq<nat>, v: nat, top: nat)
    requires multiset(r) == multiset(s) + multiset{v} && v <= top
    requires forall i {:trigger s[i]} :: 0 <= i < |s| ==> s[i] <= top
    ensures forall i {:trigger r[i]} :: 0 <= i < |r| ==> r[i] <= top
  {
    forall i {:trigger r[i]} | 0 <= i < |r|
      ensures r[i] <= top
    {
      assert r[i] in multiset(r);
      assert r[i] in s || r[i] == v;
    }
  }

  function Insert(s: seq<nat>, v: nat): (r: seq<nat>)
    requires Ascending(s)
    ensures Ascending(r) && multiset(r) == multiset(s) + multiset{v}
  {
    if s == [] || s[|s| - 1] <= v then
      s + [v]
    else
      var t, top := s[..|s| - 1], s[|s| - 1];
      assert s == t + [top];
      var r := Insert(t, v);
      Bounded(r, t, v, top);
      r + [top]
  }

  /** What `qsort` promises: the same words in ascending order. */
  function Sorted(s: seq<nat>): (r: seq<nat>)
    ensures Ascending(r) && multiset(r) == multiset(s)
  {
    if s == [] then [] else
      assert s == s[..|s| - 1] + [s[|s| - 1]];
      Insert(Sorted(s[..|s| - 1]), s[|s| - 1])
  }

  // ---- binary search ----

  /** The position of the last word at most `code`, or 0: the loop shared by the builder and the decoder. */
  method Locate(sc: array<nat>, m: nat, code: nat) returns (x: nat)
    requires m <= sc.Length && Ascending(sc[..m])
    ensures if m > 0 then x < m else x == 0
    ensures x > 0 ==> sc[x] <= code
    ensures x + 1 < m ==> code < sc[x + 1]
  {
    x := 0;
    var n := m;
    while n > 1
      invariant x + n <= m && (m > 0 ==> n > 0) && (m == 0 ==> x == 0)
      invariant x > 0 ==> sc[x] <= code
      invariant x + n < m ==> code < sc[x + n]
    {
      var mid := x + n / 2;
      if sc[mid] <= code {
        x := mid;
        n := n - n / 2;
      } else {
        n := n / 2;
      }
    }
  }

  lemma Rises(s: seq<nat>, i: nat, j: nat)
    requires Increasing(s)
    ensures i <= j < |s| ==> s[i] <= s[j]
  {
  }

  /** In a table of distinct words the search finds each of them. */
  lemma LocateFinds(sc: seq<nat>, m: nat, code: nat, x: nat, y: nat)
    requires m <= |sc| && Increasing(sc[..m]) && y < m && x < m
    requires (x > 0 ==> sc[x] <= code) && (x + 1 < m ==> code < sc[x + 1])
    requires sc[y] <= code && (y + 1 < m ==> code < sc[y + 1])
    ensures x == y
  {
    var s := sc[..m];
    Rises(s, x + 1, y);
    Rises(s, y + 1, x);
  }

  // ---- distinct words ----

  predicate Distinct(s: seq<nat>) {
    forall i, j {:trigger s[i], s[j]} :: 0 <= i < j < |s| ==> s[i] != s[j]
  }

  predicate Below(s: seq<nat>, v: nat) {
    forall i {:trigger s[i]} :: 0 <= i < |s| ==> s[i] < v
  }

  lemma {:induction false} InsertIncreasing(s: seq<nat>, v: nat)
    requires Increasing(s) && v !in s
    ensures Increasing(Insert(s, v))
  {
    if s == [] || s[|s| - 1] <= v {
      forall i {:trigger s[i]} | 0 <= i < |s|
        ensures s[i] < v
      {
        assert s[i] in s && s[i] <= s[|s| - 1];
      }
      AppendIncreasing(s, v);
    } else {
      var t, top := s[..|s| - 1], s[|s| - 1];
      var r := Insert(t, v);
      InsertIncreasing(t, v);
      assert Increasing(r);
      InsertBelow(t, v, top);
      AppendIncreasing(r, top);
    }
  }

  lemma AppendIncreasing(s: seq<nat>, v: nat)
    requires Increasing(s) && Below(s, v)
    ensures Increasing(s + [v])
  {
  }

  lemma InsertBelow(t: seq<nat>, v: nat, top: nat)
    requires Increasing(t) && v < top && Below(t, top)
    ensures Below(Insert(t, v), top)
  {
    Bounded(Insert(t, v), t, v, top - 1);
  }

  lemma {:induction false} SortedIncreasing(s: seq<nat>)
    requires Distinct(s)
    ensures Increasing(Sorted(s))
  {
    if s != [] {
      var t, v := s[..|s| - 1], s[|s| - 1];
      SortedIncreasing(t);
      assert v !in t;
      SameMembers(Sorted(t), t, v);
      InsertIncreasing(Sorted(t), v);
    }
  }

  lemma SameMembers(a: seq<nat>, b: seq<nat>, v: nat)
    requires multiset(a) == multiset(b)
    ensures v in a <==> v in b
  {
    assert v in multiset(a) <==> v in multiset(b);
  }

  // ---- the sorted table ----

  /** The codewords of the listed entries. */
  function Words(w: seq<nat>, entries: seq<nat>): (r: seq<nat>)
    requires forall k {:trigger entries[k]} :: 0 <= k < |entries| ==> entries[k] < |w|
    ensures |r| == |entries|
    ensures forall k {:trigger r[k]} :: 0 <= k < |r| ==> r[k] == w[entries[k]]
  {
    seq(|entries|, k requires 0 <= k < |entries| => w[entries[k]])
  }

  lemma {:induction false} IncludedIncreasing(sparse: bool, lens: seq<nat>, i: nat)
    requires i <= |lens|
    ensures Increasing(Included(sparse, lens, i))
  {
    if i > 0 { IncludedIncreasing(sparse, lens, i - 1); }
  }

  lemma WordsDistinct(sparse: bool, lens: seq<nat>, w: seq<nat>)
    requires Assignment(lens, w) && |w| == |lens|
    ensures Distinct(Words(w, Included(sparse, lens, |lens|)))
  {
    hide Words, Included;
    var es := Included(sparse, lens, |lens|);
    IncludedIncreasing(sparse, lens, |lens|);
    var r := Words(w, es);
    forall i, j {:trigger r[i], r[j]} | 0 <= i < j < |r|
      ensures r[i] != r[j]
    {
      assert es[i] < es[j];
      DistinctCodewords(lens, w, es[i], es[j]);
    }
  }

  lemma DistinctCodewords(lens: seq<nat>, w: seq<nat>, e: nat, e': nat)
    requires Assignment(lens, w) && e < |w| && e' < |w| && Coded(lens, e) && Coded(lens, e') && e != e'
    ensures w[e] != w[e']
  {
    if w[e] == w[e'] { Codewords.BeginsUnique(lens, w, e, e', w[e]); }
  }

  /** Row `x` of the table holds the codeword of an included entry. */
  predicate Row(sparse: bool, lens: seq<nat>, w: seq<nat>, sc: seq<nat>, sv: seq<nat>, clens: seq<nat>, x: nat)
    requires x < |sv| && x < |sc|
  {
    && sv[x] < |lens| && sv[x] < |w| && InSort(sparse, lens, sv[x]) && sc[x] == w[sv[x]]
    && (sparse ==> x < |clens| && clens[x] == lens[sv[x]])
  }

  /** The sorted table of a codebook: ascending codewords, one row for each included entry and no other. */
  ghost predicate SortedTable(sparse: bool, lens: seq<nat>, w: seq<nat>, sc: seq<nat>, sv: seq<nat>, clens: seq<nat>) {
    && |sc| == |sv| + 1 && sc[|sv|] == SENTINEL && Increasing(sc[..|sv|])
    && (forall x {:trigger Row(sparse, lens, w, sc, sv, clens, x)} :: 0 <= x < |sv| ==>
          Row(sparse, lens, w, sc, sv, clens, x))
    && (forall e {:trigger InSort(sparse, lens, e)} :: 0 <= e < |lens| && InSort(sparse, lens, e) ==> e in sv)
  }

  /** The first entries have their rows: entry `k` of the list is in row `pos[k]`. */
  ghost predicate Placed(lens: seq<nat>, w: seq<nat>, entries: seq<nat>, pos: seq<nat>, sc: seq<nat>, sv: seq<nat>,
                         sparse: bool, clens: seq<nat>)
  {
    && |pos| <= |entries|
    && forall k {:trigger PlacedAt(lens, w, entries[k], pos[k], sc, sv, sparse, clens)} :: 0 <= k < |pos| ==>
         PlacedAt(lens, w, entries[k], pos[k], sc, sv, sparse, clens)
  }

  predicate PlacedAt(lens: seq<nat>, w: seq<nat>, e: nat, x: nat, sc: seq<nat>, sv: seq<nat>, sparse: bool, clens: seq<nat>) {
    && e < |w| && e < |lens| && x < |sv| && x < |sc| && sc[x] == w[e] && sv[x] == e
    && (sparse ==> x < |clens| && clens[x] == lens[e])
  }

  lemma PlaceNext(lens: seq<nat>, w: seq<nat>, entries: seq<nat>, pos: seq<nat>, sc: seq<nat>, sv: seq<nat>,
                  sparse: bool, clens: seq<nat>, x: nat)
    requires Placed(lens, w, entries, pos, sc, sv, sparse, clens) && |pos| < |entries| && |w| == |lens|
    requires Assignment(lens, w) && Increasing(entries)
    requires forall k {:trigger entries[k]} :: 0 <= k < |entries| ==> entries[k] < |lens| && Coded(lens, entries[k])
    requires x < |sv| && x < |sc| && (sparse ==> x < |clens|) && sc[x] == w[entries[|pos|]]
    ensures var e := entries[|pos|];
            Placed(lens, w, entries, pos + [x], sc, sv[x := e], sparse, if sparse then clens[x := lens[e]] else clens)
  {
    hide Assignment;
    var e := entries[|pos|];
    var sv' := sv[x := e];
    var clens' := if sparse then clens[x := lens[e]] else clens;
    var pos' := pos + [x];
    forall k {:trigger PlacedAt(lens, w, entries[k], pos'[k], sc, sv', sparse, clens')} | 0 <= k < |pos'|
      ensures PlacedAt(lens, w, entries[k], pos'[k], sc, sv', sparse, clens')
    {
      if k < |pos| {
        assert PlacedAt(lens, w, entries[k], pos[k], sc, sv, sparse, clens);
        assert entries[k] < e;
        DistinctCodewords(lens, w, entries[k], e);
      }
    }
  }

  /** Once all rows are written the table is complete. */
  lemma AllPlaced(sparse: bool, lens: seq<nat>, w: seq<nat>, pos: seq<nat>, sc: seq<nat>, sv: seq<nat>, clens: seq<nat>)
    requires |w| == |lens| && |pos| == |Included(sparse, lens, |lens|)| == |sv| && |sc| == |sv| + 1
    requires sc[|sv|] == SENTINEL && Increasing(sc[..|sv|])
    requires multiset(sc[..|sv|]) == multiset(Words(w, Included(sparse, lens, |lens|)))
    requires Placed(lens, w, Included(sparse, lens, |lens|), pos, sc, sv, sparse, clens)
    ensures SortedTable(sparse, lens, w, sc, sv, clens)
  {
    hide Included, Words, Increasing;
    var es := Included(sparse, lens, |lens|);
    forall x {:trigger Row(sparse, lens, w, sc, sv, clens, x)} | 0 <= x < |sv|
      ensures Row(sparse, lens, w, sc, sv, clens, x)
    {
      RowPlaced(sparse, lens, w, es, pos, sc, sv, clens, x);
    }
    forall e: nat {:trigger InSort(sparse, lens, e)} | e < |lens| && InSort(sparse, lens, e)
      ensures e in sv
    {
      var k := IncludedAll(sparse, lens, |lens|, e);
      assert PlacedAt(lens, w, es[k], pos[k], sc, sv, sparse, clens);
    }
  }

  lemma RowPlaced(sparse: bool, lens: seq<nat>, w: seq<nat>, es: seq<nat>, pos: seq<nat>, sc: seq<nat>, sv: seq<nat>,
                  clens: seq<nat>, x: nat)
    requires |w| == |lens| && es == Included(sparse, lens, |lens|) && |pos| == |es| == |sv| && |sc| == |sv| + 1 && x < |sv|
    requires Increasing(sc[..|sv|]) && multiset(sc[..|sv|]) == multiset(Words(w, es))
    requires Placed(lens, w, es, pos, sc, sv, sparse, clens)
    ensures Row(sparse, lens, w, sc, sv, clens, x)
  {
    hide Included, Words;
    var s, r := sc[..|sv|], Words(w, es);
    SameMembers(s, r, s[x]);
    assert s[x] in s;
    var k :| 0 <= k < |r| && r[k] == s[x];
    assert PlacedAt(lens, w, es[k], pos[k], sc, sv, sparse, clens);
    var y := pos[k];
    assert s[y] == s[x];
  }

  // ---- building the sorted table ----

  /** The codeword of an entry, turned back into the order it sorts in. */
  lemma KeptWord(lens: seq<nat>, w: seq<nat>, e: nat, cw: nat)
    requires Assignment(lens, w) && e < |w| && Coded(lens, e) && Kept(cw, w, e)
    ensures BitReverse(cw) == w[e] < SPACE
  {
    hide BitReverse;
    assert Lowest(lens, w, e);
    Involution(w[e]);
  }

  /** Lists the codewords that go into the sorted table. */
  method Collect(sparse: bool, lens: seq<nat>, d: Draft, sorted: array<nat>, ghost w: seq<nat>)
    requires d.Fits(sparse, lens) && Assignment(lens, w) && |w| == |lens|
    requires Recorded(sparse, lens, w, |lens|, d.codewords[..], d.lengths[..], d.values[..])
    requires sorted.Length == |Included(sparse, lens, |lens|)| + 1 && sorted != d.codewords
    modifies sorted
    ensures sorted[..sorted.Length - 1] == Words(w, Included(sparse, lens, |lens|))
  {
    hide BitReverse, Assignment;
    ghost var all := Included(sparse, lens, |lens|);
    if !sparse {
      CollectDense(lens, d.codewords, sorted, w);
    } else {
      SparseIncluded(lens, |lens|);
      CollectSparse(lens, d.codewords, sorted, w, all);
    }
    AreWords(w, all, sorted[..sorted.Length - 1]);
  }

  lemma AreWords(w: seq<nat>, es: seq<nat>, s: seq<nat>)
    requires |s| == |es| && forall j {:trigger es[j]} :: 0 <= j < |es| ==> es[j] < |w|
    requires forall j {:trigger s[j]} :: 0 <= j < |s| ==> s[j] == w[es[j]]
    ensures s == Words(w, es)
  {
  }

  /** Of a dense book, the entries that the rule for the sorted table picks. */
  method CollectDense(lens: seq<nat>, codewords: array<nat>, sorted: array<nat>, ghost w: seq<nat>)
    requires Assignment(lens, w) && |w| == |lens| == codewords.Length && sorted != codewords
    requires forall e {:trigger codewords[e]} :: 0 <= e < |lens| && Coded(lens, e) ==> Kept(codewords[e], w, e)
    requires sorted.Length == |Included(false, lens, |lens|)| + 1
    modifies sorted
    ensures forall j {:trigger sorted[j]} :: 0 <= j < sorted.Length - 1 ==> sorted[j] == w[Included(false, lens, |lens|)[j]]
  {
    hide BitReverse, Assignment;
    ghost var all := Included(false, lens, |lens|);
    var k, i := 0, 0;
    while i < |lens|
      invariant 0 <= i <= |lens| && k == |Included(false, lens, i)| <= |all|
      invariant forall j {:trigger sorted[j]} :: 0 <= j < k ==> sorted[j] == w[all[j]]
    {
      IncludedMono(false, lens, i + 1, |lens|);
      if InSort(false, lens, i) {
        KeptWord(lens, w, i, codewords[i]);
        sorted[k] := BitReverse(codewords[i]);
        assert all[k] == Included(false, lens, i + 1)[k];
        k := k + 1;
      }
      i := i + 1;
    }
  }

  /** Of a sparse book, all coded entries. */
  method CollectSparse(lens: seq<nat>, codewords: array<nat>, sorted: array<nat>, ghost w: seq<nat>, ghost all: seq<nat>)
    requires Assignment(lens, w) && |w| == |lens| && |all| == codewords.Length == sorted.Length - 1 && sorted != codewords
    requires forall k {:trigger all[k]} :: 0 <= k < |all| ==>
      all[k] < |w| && Coded(lens, all[k]) && Kept(codewords[k], w, all[k])
    modifies sorted
    ensures forall j {:trigger sorted[j]} :: 0 <= j < sorted.Length - 1 ==> sorted[j] == w[all[j]]
  {
    hide BitReverse, Assignment;
    var k := 0;
    while k < codewords.Length
      invariant 0 <= k <= |all|
      invariant forall j {:trigger sorted[j]} :: 0 <= j < k ==> sorted[j] == w[all[j]]
    {
      KeptWord(lens, w, all[k], codewords[k]);
      sorted[k] := BitReverse(codewords[k]);
      k := k + 1;
    }
  }

  /** `qsort` on the first `m` words. */
  method QSort(a: array<nat>, m: nat)
    requires m <= a.Length
    modifies a
    ensures a[..m] == Sorted(old(a[..m])) && a[m..] == old(a[m..])
  {
    var s := Sorted(a[..m]);
    LengthKept(s, a[..m]);
    ghost var rest := a[m..];
    forall i | 0 <= i < m { a[i] := s[i]; }
    assert a[..m] == s;
    assert a[m..] == rest;
  }

  lemma LengthKept(a: seq<nat>, b: seq<nat>)
    requires multiset(a) == multiset(b)
    ensures |a| == |b|
  {
    assert |multiset(a)| == |a| && |multiset(b)| == |b|;
  }

  /** Writes the row of one entry: its codeword is looked up in the sorted list. */
  method Place(sparse: bool, lens: seq<nat>, d: Draft, sorted: array<nat>, sortedValues: array<nat>,
               code: nat, e: nat, ghost w: seq<nat>, ghost pos: seq<nat>)
    returns (ghost pos': seq<nat>)
    requires sorted != sortedValues && d.lengths != sorted && d.lengths != sortedValues
    requires sorted.Length == sortedValues.Length + 1 && Increasing(sorted[..sortedValues.Length])
    requires sparse ==> d.lengths.Length == sortedValues.Length
    requires |w| == |lens| && Assignment(lens, w)
    requires |sortedValues[..]| == |Included(sparse, lens, |lens|)|
    requires multiset(sorted[..sortedValues.Length]) == multiset(Words(w, Included(sparse, lens, |lens|)))
    requires |pos| < |Included(sparse, lens, |lens|)| && e == Included(sparse, lens, |lens|)[|pos|] && code == w[e]
    requires Placed(lens, w, Included(sparse, lens, |lens|), pos, sorted[..], sortedValues[..], sparse, d.lengths[..])
    modifies sortedValues, d.lengths
    ensures |pos'| == |pos| + 1
    ensures Placed(lens, w, Included(sparse, lens, |lens|), pos', sorted[..], sortedValues[..], sparse, d.lengths[..])
    ensures !sparse ==> d.lengths[..] == old(d.lengths[..])
  {
    hide Included, Words, Assignment, Placed, Increasing;
    ghost var es := Included(sparse, lens, |lens|);
    ghost var sc, sv, clens := sorted[..], sortedValues[..], d.lengths[..];
    var m := sortedValues.Length;
    IncreasingAscends(sorted[..m]);
    var x := Locate(sorted, m, code);
    FoundInTable(sc, m, Words(w, es), |pos|, x);
    assert sorted[x] == code;
    sortedValues[x] := e;
    if sparse { d.lengths[x] := lens[e]; }
    IncludedIncreasing(sparse, lens, |lens|);
    PlaceNext(lens, w, es, pos, sc, sv, sparse, clens, x);
    pos' := pos + [x];
    assert sortedValues[..] == sv[x := e];
    assert d.lengths[..] == if sparse then clens[x := lens[e]] else clens;
    assert sorted[..] == sc;
  }

  lemma IncreasingAscends(s: seq<nat>)
    requires Increasing(s)
    ensures Ascending(s)
  {
  }

  /** The search for a listed word ends on that word. */
  lemma FoundInTable(sc: seq<nat>, m: nat, r: seq<nat>, k: nat, x: nat)
    requires m < |sc| && Increasing(sc[..m]) && multiset(sc[..m]) == multiset(r) && k < |r| && x < m
    requires (x > 0 ==> sc[x] <= r[k]) && (x + 1 < m ==> r[k] < sc[x + 1])
    ensures sc[x] == r[k]
  {
    SameMembers(sc[..m], r, r[k]);
    assert r[k] in r;
    var y :| 0 <= y < m && sc[..m][y] == r[k];
    Rises(sc[..m], y + 1, y + 1);
    assert y + 1 < m ==> sc[..m][y] < sc[..m][y + 1];
    LocateFinds(sc, m, r[k], x, y);
  }

  /** Builds the sorted table from the codewords of a codebook. */
  method ComputeSorted(sparse: bool, lens: seq<nat>, d: Draft, sorted: array<nat>, sortedValues: array<nat>, ghost w: seq<nat>)
    requires d.Fits(sparse, lens) && Assignment(lens, w) && |w| == |lens|
    requires Recorded(sparse, lens, w, |lens|, d.codewords[..], d.lengths[..], d.values[..])
    requires Apart5(d, sorted, sortedValues)
    requires sortedValues.Length == |Included(sparse, lens, |lens|)| && sorted.Length == sortedValues.Length + 1
    modifies sorted, sortedValues, d.lengths
    ensures SortedTable(sparse, lens, w, sorted[..], sortedValues[..], d.lengths[..])
    ensures !sparse ==> d.lengths[..] == old(d.lengths[..])
  {
    hide BitReverse, Assignment, Included, Words, Increasing, Placed, SortedTable, Recorded;
    ghost var es := Included(sparse, lens, |lens|);
    var m := sortedValues.Length;
    Collect(sparse, lens, d, sorted, w);
    WordsDistinct(sparse, lens, w);
    SortedIncreasing(Words(w, es));
    QSort(sorted, m);
    sorted[m] := SENTINEL;
    assert sorted[..m] == Sorted(Words(w, es));
    var pos := PlaceAll(sparse, lens, d, sorted, sortedValues, w);
    AllPlaced(sparse, lens, w, pos, sorted[..], sortedValues[..], d.lengths[..]);
  }

  predicate Apart5(d: Draft, sorted: array<nat>, sortedValues: array<nat>) {
    && sorted != sortedValues
    && sorted != d.codewords && sorted != d.lengths && sorted != d.values
    && sortedValues != d.codewords && sortedValues != d.lengths && sortedValues != d.values
  }

  /** Writes the rows of all included entries. */
  method PlaceAll(sparse: bool, lens: seq<nat>, d: Draft, sorted: array<nat>, sortedValues: array<nat>, ghost w: seq<nat>)
    returns (ghost pos: seq<nat>)
    requires d.Fits(sparse, lens) && Assignment(lens, w) && |w| == |lens|
    requires Recorded(sparse, lens, w, |lens|, d.codewords[..], d.lengths[..], d.values[..])
    requires Apart5(d, sorted, sortedValues)
    requires sortedValues.Length == |Included(sparse, lens, |lens|)| && sorted.Length == sortedValues.Length + 1
    requires Increasing(sorted[..sortedValues.Length])
    requires multiset(sorted[..sortedValues.Length]) == multiset(Words(w, Included(sparse, lens, |lens|)))
    modifies sortedValues, d.lengths
    ensures |pos| == sortedValues.Length
    ensures Placed(lens, w, Included(sparse, lens, |lens|), pos, sorted[..], sortedValues[..], sparse, d.lengths[..])
    ensures !sparse ==> d.lengths[..] == old(d.lengths[..])
  {
    hide BitReverse, Assignment, Words, Increasing, PlacedAt;
    ghost var es := Included(sparse, lens, |lens|);
    ghost var cws, values := d.codewords[..], d.values[..];
    pos := [];
    var i := 0;
    if !sparse {
      while i < |lens|
        invariant 0 <= i <= |lens| && |pos| == |Included(sparse, lens, i)| <= |es|
        invariant Placed(lens, w, es, pos, sorted[..], sortedValues[..], sparse, d.lengths[..])
        invariant d.lengths[..] == old(d.lengths[..])
      {
        IncludedMono(sparse, lens, i + 1, |lens|);
        if InSort(sparse, lens, i) {
          assert es[|pos|] == Included(sparse, lens, i + 1)[|pos|] == i;
          KeptWord(lens, w, i, cws[i]);
          pos := Place(sparse, lens, d, sorted, sortedValues, BitReverse(d.codewords[i]), i, w, pos);
        }
        i := i + 1;
      }
    } else {
      SparseIncluded(lens, |lens|);
      while i < sortedValues.Length
        invariant 0 <= i <= |es| && |pos| == i
        invariant Placed(lens, w, es, pos, sorted[..], sortedValues[..], sparse, d.lengths[..])
      {
        assert CodedEntries(lens, |lens|)[i] == es[i];
        KeptWord(lens, w, es[i], cws[i]);
        assert values[i] == es[i];
        pos := Place(sparse, lens, d, sorted, sortedValues, BitReverse(d.codewords[i]), d.values[i], w, pos);
        i := i + 1;
      }
    }
  }
}
