/** The page search that seeking in an Ogg stream starts with.

    The pages lie one behind the other; finding a page means finding the first one that starts at or after
    an offset.  Interpolation is done in floating point by the program: here a probe may be any offset,
    which is then clamped as the program clamps it. */
module Seek {

  const UNKNOWN: nat := 0xffff_ffff
  const MAX_PAGE: nat := 65307
  const WINDOW: nat := 65536

  datatype ProbedPage = ProbedPage(start: nat, end: nat, lastDecodedSample: nat)

  /** Contiguous pages of the sizes a page can have: a 27-byte header and up to 255 segments. */
  ghost predicate Contiguous(pages: seq<ProbedPage>) {
    && (forall k {:trigger pages[k]} :: 0 <= k < |pages| ==> pages[k].start + 27 <= pages[k].end <= pages[k].start + MAX_PAGE)
    && (forall k {:trigger pages[k].end} :: 0 <= k < |pages| - 1 ==> pages[k].end == pages[k + 1].start)
  }

  predicate Known(p: ProbedPage) { p.lastDecodedSample != UNKNOWN }

  /** The pages strictly between two positions all end no frame. */
  ghost predicate NoneKnown(pages: seq<ProbedPage>, lo: int, hi: int)
    requires hi <= |pages|
  {
    forall k {:trigger pages[k]} :: lo < k < hi && 0 <= k ==> !Known(pages[k])
  }

  lemma {:induction false} InOrder(pages: seq<ProbedPage>, i: nat, j: nat)
    requires Contiguous(pages) && i < j < |pages|
    ensures pages[i].end <= pages[j].start
    decreases j
  {
    if i < j - 1 {
      InOrder(pages, i, j - 1);
      assert pages[j - 1].end == pages[j].start;
    }
  }

  /** Start offsets tell pages apart and order them. */
  lemma StartsOrder(pages: seq<ProbedPage>, i: nat, j: nat)
    requires Contiguous(pages) && i < |pages| && j < |pages|
    ensures pages[i].start < pages[j].start <==> i < j
    ensures pages[i].end == pages[j].start <==> i + 1 == j
  {
    if i < j { InOrder(pages, i, j); }
    if j < i { InOrder(pages, j, i); }
    if i + 1 < j {
      InOrder(pages, i + 1, j);
      assert pages[i].end == pages[i + 1].start;
    }
  }

  /** The first page at or after an offset: what scanning for a page header finds. */
  function FindPage(pages: seq<ProbedPage>, offset: int, from: nat): (k: nat)
    requires from <= |pages|
    ensures from <= k <= |pages|
    ensures forall i {:trigger pages[i]} :: from <= i < k ==> pages[i].start < offset
    ensures k < |pages| ==> pages[k].start >= offset
    decreases |pages| - from
  {
    if from == |pages| || pages[from].start >= offset then from else FindPage(pages, offset, from + 1)
  }

  /** The page found after an offset is less than a page further on. */
  lemma FoundNear(pages: seq<ProbedPage>, offset: int, left: nat, right: nat)
    requires Contiguous(pages) && left < right < |pages|
    requires pages[left].end <= offset <= pages[right].start - WINDOW
    ensures left < FindPage(pages, offset, 0) < right
  {
    var k := FindPage(pages, offset, 0);
    if k <= left {
      assert pages[k].start >= offset;
      StartsOrder(pages, left, k);
    } else {
      assert pages[k - 1].start < offset;
      if right <= k { StartsOrder(pages, k - 1, right); }
    }
  }

  /** Keeps a probe inside the search range, the last 64K excluded. */
  function Clamp(offset: int, left: ProbedPage, right: ProbedPage): int {
    var o := if offset < left.end then left.end else offset;
    if o > right.start - WINDOW then right.start - WINDOW else o
  }

  /** Where the search looks next. */
  function ProbeOffset(probe: nat, guess: int, left: ProbedPage, right: ProbedPage): int
    requires left.end <= right.start
  {
    if probe < 2 then Clamp(guess, left, right) else left.end + (right.start - left.end) / 2 - 32768
  }

  lemma ProbeInRange(probe: nat, guess: int, left: ProbedPage, right: ProbedPage)
    requires left.end + WINDOW < right.start
    ensures left.end <= ProbeOffset(probe, guess, left, right) <= right.start - WINDOW
  {
  }

  /** The first two probes take the guess, moved into the range only when it lies outside; later ones take the
      middle, less 32K. */
  lemma ProbeIs(probe: nat, guess: int, left: ProbedPage, right: ProbedPage)
    requires left.end + 65536 < right.start
    ensures var o := ProbeOffset(probe, guess, left, right);
            if probe >= 2 then 0 <= (right.start - left.end) - 2 * (o + 32768 - left.end) <= 1
            else if guess < left.end then o == left.end
            else if guess > right.start - 65536 then o == right.start - 65536
            else o == guess
  {
  }

  datatype Found = Start | Between(left: ProbedPage, right: ProbedPage) | Failed

  /** What the search promises about the pages it returns. */
  ghost predicate Brackets(pages: seq<ProbedPage>, l: nat, r: nat, limit: nat) {
    && l < r < |pages| && Known(pages[l]) && Known(pages[r])
    && pages[l].lastDecodedSample <= limit <= pages[r].lastDecodedSample
  }

  /** Skips pages that end no frame, from an offset where page `at` starts; page `r` ends one. */
  method NextKnown(pages: seq<ProbedPage>, offset: nat, ghost at: nat, ghost r: nat)
    returns (ok: bool, mid: ProbedPage, ghost m: nat)
    requires Contiguous(pages) && at <= r < |pages| && Known(pages[r]) && pages[at].start == offset
    ensures ok && at <= m <= r && mid == pages[m] && Known(mid) && NoneKnown(pages, at - 1, m)
  {
    m := at;
    ok, mid := PageInfo(pages, offset, at);
    while !Known(mid)
      invariant ok && at <= m <= r && mid == pages[m] && NoneKnown(pages, at - 1, m)
      decreases r - m
    {
      StartsOrder(pages, m, r);
      assert mid.start < pages[r].start;
      assert pages[m].end == pages[m + 1].start;
      m := m + 1;
      ok, mid := PageInfo(pages, mid.end, m);
    }
  }

  /** Reads the header at an offset: it works where a page starts. */
  method PageInfo(pages: seq<ProbedPage>, offset: nat, ghost k: nat) returns (ok: bool, page: ProbedPage)
    requires Contiguous(pages) && |pages| > 0
    ensures k < |pages| && pages[k].start == offset ==> ok && page == pages[k]
  {
    var i := FindPage(pages, offset, 0);
    if i < |pages| && k < |pages| { StartsOrder(pages, i, k); }
    if i < |pages| && pages[i].start == offset {
      ok, page := true, pages[i];
    } else {
      ok, page := false, pages[0];
    }
  }

  /** Pages `m` to `r`, the last excluded, all end no frame. */
  ghost predicate Gap(pages: seq<ProbedPage>, m: nat, r: nat)
    requires r <= |pages|
  {
    NoneKnown(pages, m - 1, r)
  }

  /** How the search ends: the two pages are neighbours as far as frames end, or they are more than 64K
      apart and a probe between them ran into the right one. */
  ghost predicate Ended(pages: seq<ProbedPage>, l: nat, r: nat) {
    && l < r < |pages|
    && (NoneKnown(pages, l, r) || exists m: nat {:trigger Gap(pages, m, r)} :: l < m < r && Gap(pages, m, r))
  }

  /** The first page that ends a frame. */
  function FirstKnown(pages: seq<ProbedPage>, from: nat): (k: nat)
    requires from < |pages| && Known(pages[|pages| - 1])
    ensures from <= k < |pages| && Known(pages[k]) && forall i {:trigger pages[i]} :: from <= i < k ==> !Known(pages[i])
    decreases |pages| - from
  {
    if Known(pages[from]) then from else FirstKnown(pages, from + 1)
  }

  lemma FirstKnownIs(pages: seq<ProbedPage>, m: nat)
    requires m < |pages| && Known(pages[|pages| - 1]) && Known(pages[m]) && NoneKnown(pages, -1, m)
    ensures FirstKnown(pages, 0) == m
  {
    var k := FirstKnown(pages, 0);
    assert Known(pages[k]) && Known(pages[m]);
  }

  lemma GapFound(pages: seq<ProbedPage>, l: nat, at: nat, r: nat)
    requires l < at <= r < |pages| && NoneKnown(pages, at - 1, r)
    ensures at == l + 1 || at < r ==> Ended(pages, l, r)
  {
    assert Gap(pages, at, r);
  }

  /** The file position after a scan; the end of the file when no page was found is not looked at. */
  function StartOf(pages: seq<ProbedPage>, k: nat): nat {
    if k < |pages| then pages[k].start else 0
  }

  lemma NothingBetween(pages: seq<ProbedPage>, l: nat)
    requires l + 1 < |pages|
    ensures NoneKnown(pages, l, l + 1)
  {
  }

  /** The offset of the page to look at next: the one behind `left` when at most 64K remain, one found from
      a probe otherwise. */
  method NextProbe(pages: seq<ProbedPage>, left: ProbedPage, right: ProbedPage, probe: nat, guess: int,
                   ghost l: nat, ghost r: nat)
    returns (ok: bool, here: nat, ghost at: nat)
    requires Contiguous(pages) && l + 1 < r < |pages| && left == pages[l] && right == pages[r] && left.end < right.start
    ensures ok && l < at < r && here == pages[at].start
    ensures if right.start - left.end <= 65536 then at == l + 1
            else at == FindPage(pages, ProbeOffset(probe, guess, left, right), 0)
  {
    var delta := right.start - left.end;
    assert pages[l].end == pages[l + 1].start;
    if delta <= WINDOW { return true, left.end, l + 1; }
    var offset := ProbeOffset(probe, guess, left, right);
    ProbeInRange(probe, guess, left, right);
    FoundNear(pages, offset, l, r);
    var k: nat := FindPage(pages, offset, 0);
    ok, here, at := k < |pages|, StartOf(pages, k), k;
  }

  /** The page search: from the pages of the stream, the target and whatever two interpolations propose. */
  method SeekCoarse(pages: seq<ProbedPage>, limit: nat, guess: seq<int>)
    returns (res: Found, ghost l: nat, ghost r: nat)
    requires Contiguous(pages) && |pages| > 0 && |guess| == 2
    requires Known(pages[|pages| - 1]) && limit <= pages[|pages| - 1].lastDecodedSample
    ensures !res.Failed?
    ensures res.Start? <==> limit <= pages[FirstKnown(pages, 0)].lastDecodedSample
    ensures res.Between? ==> Brackets(pages, l, r, limit) && res == Between(pages[l], pages[r]) && Ended(pages, l, r)
  {
    hide Contiguous, NoneKnown, FirstKnown;
    var n := |pages|;
    r := n - 1;
    var ok, left;
    ok, left, l := NextKnown(pages, pages[0].start, 0, n - 1);
    if !ok { return Failed, l, r; }
    FirstKnownIs(pages, l);
    var right := pages[n - 1];
    if limit <= left.lastDecodedSample { return Start, l, r; }
    var probe := 0;
    while left.end != right.start
      invariant Brackets(pages, l, r, limit) && left == pages[l] && right == pages[r]
      decreases r - l, 2 - probe
    {
      InOrder(pages, l, r);
      StartsOrder(pages, l, r);
      assert left.end < right.start;
      var delta := right.start - left.end;
      var here;
      ghost var at;
      ok, here, at := NextProbe(pages, left, right, probe, if probe < 2 then guess[probe] else 0, l, r);
      if !ok { return Failed, l, r; }
      var mid;
      ghost var m;
      ok, mid, m := NextKnown(pages, here, at, r);
      if !ok { return Failed, l, r; }
      StartsOrder(pages, m, r);
      StartsOrder(pages, r, m);
      if mid.start == right.start {
        if probe >= 2 || delta <= WINDOW {
          GapFound(pages, l, at, r);
          return Between(left, right), l, r;
        }
      } else if limit < mid.lastDecodedSample {
        right, r := mid, m;
      } else {
        left, l := mid, m;
      }
      probe := probe + 1;
    }
    StartsOrder(pages, l, r);
    NothingBetween(pages, l);
    res := Between(left, right);
  }

  /** With a granule position on every page the search ends on two neighbouring pages. */
  lemma EndsOnNeighbours(pages: seq<ProbedPage>, l: nat, r: nat)
    requires Ended(pages, l, r) && forall k {:trigger pages[k]} :: 0 <= k < |pages| ==> pages[k].lastDecodedSample != 0xffff_ffff
    ensures l + 1 == r
  {
    assert Known(pages[l + 1]);
    forall m: nat {:trigger Gap(pages, m, r)} | l < m < r
      ensures !Gap(pages, m, r)
    {
      assert Known(pages[m]);
    }
  }
}
