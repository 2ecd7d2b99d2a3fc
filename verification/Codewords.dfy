/** Codeword assignment of a Vorbis codebook (Vorbis I specification, section 3.2.1).

    A codeword of length `l` is kept aligned to the top of a 32-bit word, so it names the interval of
    all words it begins: `Unit(l)` values starting at the codeword.  One codeword begins another exactly
    when their intervals overlap.  The builder keeps the unused part of the code space as at most one
    free subtree a level; this module states what its invariant is and proves it is kept. */
module Codewords {
  import opened Bits

  const NO_CODE: nat := 255
  const SPACE: nat := 0x1_0000_0000

  predicate Coded(lens: seq<nat>, i: nat)
    requires i < |lens|
  {
    lens[i] != NO_CODE
  }

  /** What reading the code lengths guarantees: 1 to 31 bits, or no code at all. */
  ghost predicate LengthsOk(lens: seq<nat>) {
    forall i {:trigger lens[i]} :: 0 <= i < |lens| ==> lens[i] == NO_CODE || 1 <= lens[i] <= 31
  }

  /** The number of words a codeword of length `l` begins. */
  function Unit(l: nat): (u: nat)
    ensures u > 0
  {
    if l <= 32 then Pow2(32 - l) else 1
  }

  /** The Kraft sum, scaled by 2^32. */
  function KraftSum(lens: seq<nat>): nat {
    if lens == [] then 0
    else KraftSum(lens[..|lens| - 1]) + if lens[|lens| - 1] == NO_CODE then 0 else Unit(lens[|lens| - 1])
  }

  predicate Aligned(w: nat, l: nat) { w == w / Unit(l) * Unit(l) }

  /** `w` is a codeword of length `l`. */
  predicate Slot(w: nat, l: nat) { Aligned(w, l) && w + Unit(l) <= SPACE }

  predicate Within(p: nat, w: nat, l: nat) { w <= p < w + Unit(l) }

  predicate Overlap(a: nat, la: nat, b: nat, lb: nat) { a < b + Unit(lb) && b < a + Unit(la) }

  /** The word `p` begins with the codeword of entry `j`. */
  predicate BeginsWith(lens: seq<nat>, w: seq<nat>, j: nat, p: nat) {
    j < |w| && j < |lens| && Coded(lens, j) && Within(p, w[j], lens[j])
  }

  /** A slot of length `l` at `v` meets none of the codewords given out before entry `i`. */
  ghost predicate Unused(lens: seq<nat>, w: seq<nat>, i: nat, v: nat, l: nat)
    requires i <= |w| <= |lens|
  {
    forall j {:trigger w[j]} :: 0 <= j < i && Coded(lens, j) ==> !Overlap(w[j], lens[j], v, l)
  }

  /** Entry `i` has the lowest-valued unused codeword of its length. */
  ghost predicate Lowest(lens: seq<nat>, w: seq<nat>, i: nat)
    requires i < |w| <= |lens|
  {
    && Slot(w[i], lens[i])
    && Unused(lens, w, i, w[i], lens[i])
    && forall v {:trigger Slot(v, lens[i])} :: v < w[i] && Slot(v, lens[i]) ==> !Unused(lens, w, i, v, lens[i])
  }

  /** What section 3.2.1 asks for: entries in order, each one the lowest codeword still unused. */
  ghost predicate Assignment(lens: seq<nat>, w: seq<nat>) {
    |w| <= |lens| && forall i {:trigger Lowest(lens, w, i)} :: 0 <= i < |w| && Coded(lens, i) ==> Lowest(lens, w, i)
  }

  // ---- intervals ----

  lemma UnitStep(l: nat)
    requires l < 32
    ensures Unit(l) == 2 * Unit(l + 1)
  {
  }

  lemma UnitMono(a: nat, b: nat)
    requires a <= b <= 32
    ensures Unit(b) <= Unit(a) && (a < b ==> 2 * Unit(b) <= Unit(a))
  {
    Pow2Mono(32 - b, 32 - a);
  }

  lemma UnitOfSpace()
    ensures Unit(0) == SPACE
  {
    Pow2Values();
  }

  lemma UnitRatio(la: nat, lb: nat) returns (p: nat)
    requires la <= lb <= 32
    ensures Unit(la) == p * Unit(lb) && p > 0
  {
    hide Pow2;
    p := Pow2(lb - la);
    Pow2Add(lb - la, 32 - lb);
  }

  lemma MulAssociates(a: int, b: int, c: int)
    ensures a * (b * c) == a * b * c
  {
  }

  /** A slot is a slot's worth of longer slots. */
  lemma AlignedDeeper(a: nat, la: nat, lb: nat) returns (k: nat, p: nat)
    requires Aligned(a, la) && la <= lb <= 32
    ensures a == k * Unit(lb) && Unit(la) == p * Unit(lb) && p > 0
  {
    p := UnitRatio(la, lb);
    hide Unit;
    k := a / Unit(la) * p;
    MulAssociates(a / Unit(la), p, Unit(lb));
  }

  lemma AlignedHere(k: nat, l: nat)
    ensures Aligned(k * Unit(l), l)
  {
    DivUniqueLeft(k * Unit(l), Unit(l), k, 0);
  }

  /** Two slots that overlap are nested. */
  lemma Nested(a: nat, la: nat, b: nat, lb: nat)
    requires Aligned(a, la) && Aligned(b, lb) && la <= lb <= 32
    requires Overlap(a, la, b, lb)
    ensures a <= b && b + Unit(lb) <= a + Unit(la)
  {
    hide Unit;
    var u := Unit(lb);
    var k, p := AlignedDeeper(a, la, lb);
    var q := b / u;
    assert (q + 1) * u == q * u + u;
    if q < k { MulMono(q + 1, k, u); }
    assert (k + p) * u == k * u + p * u;
    if k + p <= q { MulMono(k + p, q, u); }
    MulMono(k, q, u);
    MulMono(q + 1, k + p, u);
  }

  /** Slots of one length are at least a unit apart. */
  lemma Apart(a: nat, b: nat, l: nat)
    requires Aligned(a, l) && Aligned(b, l) && a < b && l <= 32
    ensures a + Unit(l) <= b
  {
    if b < a + Unit(l) { Nested(a, l, b, l); }
  }

  // ---- the free subtrees ----

  /** One entry a level, 0 for none; levels 1 to 31 are in use. */
  type Pool = s: seq<nat> | |s| == 32 witness Empty()

  function Empty(): (s: seq<nat>)
    ensures |s| == 32 && forall l :: 0 <= l < 32 ==> s[l] == 0
  {
    seq(32, _ => 0)
  }

  predicate FreeAt(pool: Pool, l: nat, p: nat) {
    1 <= l <= 31 && pool[l] != 0 && Within(p, pool[l], l)
  }

  ghost predicate Free(pool: Pool, p: nat) {
    exists l {:trigger FreeAt(pool, l, p)} :: FreeAt(pool, l, p)
  }

  ghost predicate Taken(lens: seq<nat>, w: seq<nat>, p: nat) {
    exists j {:trigger BeginsWith(lens, w, j, p)} :: BeginsWith(lens, w, j, p)
  }

  /** Each word is either the start of a codeword given out or in a free subtree. */
  ghost predicate Tiled(lens: seq<nat>, w: seq<nat>, pool: Pool, p: nat) {
    Taken(lens, w, p) <==> !Free(pool, p)
  }

  predicate SubtreeOk(pool: Pool, l: nat)
    requires l <= 31
  {
    pool[l] != 0 ==> Slot(pool[l], l)
  }

  /** Deeper subtrees lie at lower addresses. */
  predicate InOrder(pool: Pool, l: nat, m: nat)
    requires l <= 31 && m <= 31
  {
    pool[l] != 0 && pool[m] != 0 ==> pool[m] + Unit(m) <= pool[l]
  }

  ghost predicate PoolOk(pool: Pool) {
    && (forall l {:trigger SubtreeOk(pool, l)} :: 1 <= l <= 31 ==> SubtreeOk(pool, l))
    && (forall l, m {:trigger InOrder(pool, l, m)} :: 1 <= l < m <= 31 ==> InOrder(pool, l, m))
  }

  /** The size of the subtrees of levels 1 to `l`. */
  function FreeSum(pool: Pool, l: nat): nat
    requires l <= 31
  {
    if l == 0 then 0 else FreeSum(pool, l - 1) + if pool[l] == 0 then 0 else Unit(l)
  }

  /** The invariant of the builder after the entries of `w`, at least one of them coded. */
  ghost predicate Inv(lens: seq<nat>, w: seq<nat>, pool: Pool) {
    && LengthsOk(lens) && Assignment(lens, w) && PoolOk(pool)
    && (forall p {:trigger Tiled(lens, w, pool, p)} :: 0 <= p < SPACE ==> Tiled(lens, w, pool, p))
    && KraftSum(lens[..|w|]) + FreeSum(pool, 31) == SPACE
  }

  /** The level the builder takes a codeword of length `len` from; 0 when there is none. */
  function Deepest(pool: Pool, len: nat): (z: nat)
    requires len <= 31
    ensures z <= len
    ensures forall l :: z < l <= len ==> pool[l] == 0
    ensures z > 0 ==> pool[z] != 0
  {
    if len == 0 || pool[len] != 0 then len else Deepest(pool, len - 1)
  }

  /** The pool after the start of the subtree at level `z` became a codeword of length `len`. */
  function Split(pool: Pool, z: nat, res: nat, len: nat): Pool {
    seq(32, y requires 0 <= y < 32 => if y == z then 0 else if z < y <= len then res + Unit(y) else pool[y])
  }

  // ---- a run of free words ----

  /** A slot cannot be made up of free subtrees of deeper levels alone: there is at most one of each. */
  lemma {:induction false} NotAllDeeper(pool: Pool, e: nat, l: nat) returns (p: nat)
    requires PoolOk(pool) && 1 <= l <= 31 && Aligned(e, l) && Unit(l) <= e
    ensures e - Unit(l) <= p < e
    ensures forall m {:trigger FreeAt(pool, m, p)} :: l < m ==> !FreeAt(pool, m, p)
    decreases 31 - l
  {
    hide Unit, Aligned, PoolOk;
    p := e - 1;
    if m: nat :| l < m && FreeAt(pool, m, p) {
      EndsHere(pool, e, l, m);
      UnitMono(l, m);
      AlignedBefore(e, l, m);
      p := NotAllDeeper(pool, e - Unit(m), m);
      forall m' {:trigger FreeAt(pool, m', p)} | l < m'
        ensures !FreeAt(pool, m', p)
      {
        if FreeAt(pool, m', p) { LowerIsDeeper(pool, m, m', p); }
      }
    }
  }

  lemma EndsHere(pool: Pool, e: nat, l: nat, m: nat)
    requires PoolOk(pool) && 1 <= l < m <= 31 && Aligned(e, l) && Unit(l) <= e && FreeAt(pool, m, e - 1)
    ensures pool[m] + Unit(m) == e
  {
    hide Unit;
    assert SubtreeOk(pool, m);
    var u := Unit(m);
    var k, _ := AlignedDeeper(e, l, m);
    var q := pool[m] / u;
    assert (q + 1) * u == q * u + u;
    if k <= q { MulMono(k, q, u); }
    MulMono(q + 1, k, u);
  }

  lemma AlignedBefore(e: nat, l: nat, m: nat)
    requires Aligned(e, l) && Unit(l) <= e && l < m <= 31
    ensures Unit(m) <= e && Aligned(e - Unit(m), m)
  {
    hide Unit;
    UnitMono(l, m);
    var k, _ := AlignedDeeper(e, l, m);
    var u := Unit(m);
    if k > 0 {
      assert (k - 1) * u == k * u - u;
      AlignedHere(k - 1, m);
    }
  }

  lemma LowerIsDeeper(pool: Pool, m: nat, m': nat, p: nat)
    requires PoolOk(pool) && 1 <= m <= 31 && pool[m] != 0 && p < pool[m] && FreeAt(pool, m', p)
    ensures m < m'
  {
    assert m' < m && 1 <= m' ==> InOrder(pool, m', m);
  }

  // ---- giving out one codeword ----

  /** Words past the new codeword, up to the end of the subtree it came from, fall into the new pieces. */
  lemma {:induction false} PieceOf(res: nat, z: nat, len: nat, p: nat) returns (y: nat)
    requires z < len <= 31 && res + Unit(len) <= p < res + Unit(z)
    ensures z < y <= len && Within(p, res + Unit(y), y)
    decreases len
  {
    UnitStep(len - 1);
    if p < res + Unit(len) + Unit(len) {
      y := len;
    } else {
      y := PieceOf(res, z, len - 1, p);
    }
  }

  lemma SplitFree(pool: Pool, z: nat, len: nat, p: nat)
    requires PoolOk(pool) && 1 <= z <= len <= 31 && z == Deepest(pool, len)
    ensures Free(Split(pool, z, pool[z], len), p) <==> Free(pool, p) && !Within(p, pool[z], len)
  {
    hide Unit, PoolOk, Deepest;
    var pool' := Split(pool, z, pool[z], len);
    if m :| FreeAt(pool', m, p) {
      PieceWasFree(pool, z, len, m, p);
    }
    if Free(pool, p) && !Within(p, pool[z], len) {
      var m :| FreeAt(pool, m, p);
      if m == z {
        var y := PieceOf(pool[z], z, len, p);
        assert FreeAt(pool', y, p);
      } else {
        assert FreeAt(pool', m, p);
      }
    }
  }

  lemma PieceWasFree(pool: Pool, z: nat, len: nat, m: nat, p: nat)
    requires PoolOk(pool) && 1 <= z <= len <= 31 && pool[z] != 0
    requires FreeAt(Split(pool, z, pool[z], len), m, p)
    ensures Free(pool, p) && !Within(p, pool[z], len)
  {
    hide Unit;
    UnitMono(z, len);
    if z < m <= len {
      UnitMono(z, m);
      UnitMono(m, len);
      assert FreeAt(pool, z, p);
    } else {
      assert FreeAt(pool, m, p);
      assert m < z ==> InOrder(pool, m, z);
      assert z < m ==> InOrder(pool, z, m);
    }
  }

  lemma SplitSubtree(pool: Pool, z: nat, len: nat, m: nat)
    requires PoolOk(pool) && 1 <= z <= len <= 31 && pool[z] != 0 && 1 <= m <= 31
    ensures SubtreeOk(Split(pool, z, pool[z], len), m)
  {
    assert SubtreeOk(pool, z) && SubtreeOk(pool, m);
    hide Unit, PoolOk;
    if z < m <= len {
      UnitMono(z, m);
      var u := Unit(m);
      var k, q := AlignedDeeper(pool[z], z, m);
      assert (k + 1) * u == k * u + u;
      AlignedHere(k + 1, m);
    }
  }

  lemma SplitOrder(pool: Pool, z: nat, len: nat, l: nat, m: nat)
    requires PoolOk(pool) && 1 <= z <= len <= 31 && z == Deepest(pool, len) && 1 <= l < m <= 31
    ensures InOrder(Split(pool, z, pool[z], len), l, m)
  {
    hide Unit, Deepest;
    assert InOrder(pool, l, m);
    UnitMono(l, m);
    if z <= m { UnitMono(z, m); }
    assert l < z ==> InOrder(pool, l, z);
    assert z < m ==> InOrder(pool, z, m);
  }

  lemma SplitOk(pool: Pool, len: nat)
    requires PoolOk(pool) && 1 <= len <= 31 && Deepest(pool, len) > 0
    ensures var z := Deepest(pool, len); PoolOk(Split(pool, z, pool[z], len))
  {
    var z := Deepest(pool, len);
    var pool' := Split(pool, z, pool[z], len);
    forall m {:trigger SubtreeOk(pool', m)} | 1 <= m <= 31
      ensures SubtreeOk(pool', m)
    {
      SplitSubtree(pool, z, len, m);
    }
    forall l, m {:trigger InOrder(pool', l, m)} | 1 <= l < m <= 31
      ensures InOrder(pool', l, m)
    {
      SplitOrder(pool, z, len, l, m);
    }
  }

  // ---- sizes ----

  lemma {:induction false} SplitSum(pool: Pool, z: nat, len: nat, l: nat)
    requires 1 <= z <= len <= 31 && z == Deepest(pool, len) && l <= 31
    ensures FreeSum(Split(pool, z, pool[z], len), l) + (if l < z then 0 else if l <= len then Unit(l) else Unit(len))
            == FreeSum(pool, l)
    decreases l
  {
    hide Unit, Deepest;
    if l > 0 {
      SplitSum(pool, z, len, l - 1);
      UnitStep(l - 1);
    }
  }

  lemma {:induction false} SumBelow(pool: Pool, len: nat, l: nat)
    requires 1 <= len <= l <= 31 && Deepest(pool, len) == 0
    ensures FreeSum(pool, l) + Unit(l) <= Unit(len)
    decreases l
  {
    hide Unit, Deepest;
    if l == len {
      SumZero(pool, len);
    } else {
      SumBelow(pool, len, l - 1);
      UnitStep(l - 1);
    }
  }

  lemma {:induction false} SumZero(pool: Pool, l: nat)
    requires l <= 31 && forall m :: 0 < m <= l ==> pool[m] == 0
    ensures FreeSum(pool, l) == 0
    decreases l
  {
    if l > 0 { SumZero(pool, l - 1); }
  }

  lemma {:induction false} KraftMono(lens: seq<nat>, i: nat)
    requires i <= |lens|
    ensures KraftSum(lens[..i]) <= KraftSum(lens)
  {
    hide Unit;
    if i < |lens| {
      assert lens[..|lens| - 1][..i] == lens[..i];
      KraftMono(lens[..|lens| - 1], i);
    } else {
      assert lens[..i] == lens;
    }
  }

  lemma KraftNext(lens: seq<nat>, i: nat)
    requires i < |lens|
    ensures KraftSum(lens[..i + 1]) == KraftSum(lens[..i]) + if Coded(lens, i) then Unit(lens[i]) else 0
  {
    assert lens[..i + 1][..i] == lens[..i];
  }

  // ---- one step of the builder ----

  /** The start of the deepest usable subtree is unused, and no lower slot is. */
  lemma StartIsLowest(lens: seq<nat>, w: seq<nat>, pool: Pool)
    requires Inv(lens, w, pool) && |w| < |lens| && Coded(lens, |w|)
    requires Deepest(pool, lens[|w|]) > 0
    ensures Lowest(lens, w + [pool[Deepest(pool, lens[|w|])]], |w|)
  {
    hide Unit, Deepest, Assignment, PoolOk, Aligned, KraftSum, FreeSum;
    var i := |w|;
    var len := lens[i];
    var z := Deepest(pool, len);
    var res := pool[z];
    var w' := w + [res];
    StartIsSlot(lens, w, pool, len);
    StartIsUnused(lens, w, pool, len);
    assert Unused(lens, w', i, res, len) by {
      forall j | 0 <= j < i && Coded(lens, j)
        ensures !Overlap(w'[j], lens[j], res, len)
      {
        assert w[j] == w'[j];
      }
    }
    forall v {:trigger Slot(v, len)} | v < res && Slot(v, len)
      ensures !Unused(lens, w', i, v, len)
    {
      var j := LowerIsUsed(lens, w, pool, len, v);
      assert w'[j] == w[j];
    }
  }

  lemma StartIsSlot(lens: seq<nat>, w: seq<nat>, pool: Pool, len: nat)
    requires Inv(lens, w, pool) && 1 <= len <= 31 && Deepest(pool, len) > 0
    ensures Slot(pool[Deepest(pool, len)], len)
  {
    hide Unit, Deepest, Assignment, KraftSum, FreeSum;
    var z := Deepest(pool, len);
    assert SubtreeOk(pool, z);
    UnitMono(z, len);
    var k, _ := AlignedDeeper(pool[z], z, len);
    AlignedHere(k, len);
  }

  lemma StartIsUnused(lens: seq<nat>, w: seq<nat>, pool: Pool, len: nat)
    requires Inv(lens, w, pool) && |w| <= |lens| && 1 <= len <= 31 && Deepest(pool, len) > 0
    requires Slot(pool[Deepest(pool, len)], len)
    ensures Unused(lens, w, |w|, pool[Deepest(pool, len)], len)
  {
    hide Unit, Deepest, Assignment, PoolOk, KraftSum, FreeSum, Aligned;
    var z := Deepest(pool, len);
    var res := pool[z];
    UnitMono(z, len);
    forall j {:trigger w[j]} | 0 <= j < |w| && Coded(lens, j)
      ensures !Overlap(w[j], lens[j], res, len)
    {
      var p := if w[j] < res then res else w[j];
      assert Overlap(w[j], lens[j], res, len) ==> FreeAt(pool, z, p) && BeginsWith(lens, w, j, p);
      assert p < SPACE ==> Tiled(lens, w, pool, p);
    }
  }

  lemma LowerIsUsed(lens: seq<nat>, w: seq<nat>, pool: Pool, len: nat, v: nat) returns (j: nat)
    requires Inv(lens, w, pool) && |w| <= |lens| && 1 <= len <= 31 && Slot(v, len)
    requires Deepest(pool, len) > 0 ==> v < pool[Deepest(pool, len)] && Slot(pool[Deepest(pool, len)], len)
    ensures j < |w| && Coded(lens, j) && Overlap(w[j], lens[j], v, len)
  {
    hide Unit, Deepest, Assignment, KraftSum, FreeSum, Aligned;
    var z := Deepest(pool, len);
    if z > 0 { Apart(v, pool[z], len); }
    NextSlot(v, len);
    var p := NotAllDeeper(pool, v + Unit(len), len);
    forall m: nat {:trigger FreeAt(pool, m, p)}
      ensures !FreeAt(pool, m, p)
    {
      assert 1 <= m < z ==> InOrder(pool, m, z);
    }
    assert Tiled(lens, w, pool, p);
    j :| BeginsWith(lens, w, j, p);
  }

  lemma NextSlot(v: nat, l: nat)
    requires Aligned(v, l)
    ensures Aligned(v + Unit(l), l)
  {
    hide Unit;
    var k := v / Unit(l);
    assert (k + 1) * Unit(l) == k * Unit(l) + Unit(l);
    AlignedHere(k + 1, l);
  }

  lemma TiledNext(lens: seq<nat>, w: seq<nat>, pool: Pool, p: nat)
    requires Inv(lens, w, pool) && |w| < |lens| && Coded(lens, |w|) && p < SPACE
    requires Deepest(pool, lens[|w|]) > 0
    ensures var z := Deepest(pool, lens[|w|]);
            Tiled(lens, w + [pool[z]], Split(pool, z, pool[z], lens[|w|]), p)
  {
    hide Unit, Deepest, Assignment, PoolOk, KraftSum, FreeSum, Within;
    var i := |w|;
    var z := Deepest(pool, lens[i]);
    assert Tiled(lens, w, pool, p);
    SplitFree(pool, z, lens[i], p);
    TakenNext(lens, w, pool[z], p);
    WithinWider(p, pool[z], z, lens[i]);
  }

  lemma WithinWider(p: nat, v: nat, l: nat, m: nat)
    requires l <= m <= 32
    ensures Within(p, v, m) ==> Within(p, v, l)
  {
    UnitMono(l, m);
  }

  lemma TakenNext(lens: seq<nat>, w: seq<nat>, v: nat, p: nat)
    requires |w| < |lens|
    ensures Taken(lens, w + [v], p) <==> Taken(lens, w, p) || (Coded(lens, |w|) && Within(p, v, lens[|w|]))
  {
    hide Within;
    var w' := w + [v];
    assert BeginsWith(lens, w', |w|, p) <==> Coded(lens, |w|) && Within(p, v, lens[|w|]);
    if Taken(lens, w', p) {
      var j: nat :| BeginsWith(lens, w', j, p);
      assert j < |w| ==> BeginsWith(lens, w, j, p);
    }
    if j: nat :| BeginsWith(lens, w, j, p) { assert BeginsWith(lens, w', j, p); }
  }

  lemma AssignmentNext(lens: seq<nat>, w: seq<nat>, v: nat)
    requires Assignment(lens, w) && |w| < |lens|
    requires Coded(lens, |w|) ==> Lowest(lens, w + [v], |w|)
    ensures Assignment(lens, w + [v])
  {
    hide Slot, Overlap;
    var w' := w + [v];
    forall i {:trigger Lowest(lens, w', i)} | 0 <= i < |w'| && Coded(lens, i)
      ensures Lowest(lens, w', i)
    {
      if i < |w| {
        assert w[i] == w'[i] && Lowest(lens, w, i);
        LowestOfPrefix(lens, w, w', i);
      }
    }
  }

  lemma UnusedOfPrefix(lens: seq<nat>, w: seq<nat>, w': seq<nat>, i: nat, v: nat, l: nat)
    requires i <= |w| <= |w'| <= |lens| && w'[..i] == w[..i]
    ensures Unused(lens, w, i, v, l) <==> Unused(lens, w', i, v, l)
  {
    hide Overlap;
    forall j | 0 <= j < i
      ensures w[j] == w'[j]
    {
      assert w[..i][j] == w'[..i][j];
    }
  }

  lemma LowestOfPrefix(lens: seq<nat>, w: seq<nat>, w': seq<nat>, i: nat)
    requires i < |w| <= |w'| <= |lens| && w'[..i + 1] == w[..i + 1] && Lowest(lens, w, i)
    ensures Lowest(lens, w', i)
  {
    hide Slot, Unused;
    assert w[i] == w[..i + 1][i] && w'[i] == w'[..i + 1][i];
    assert w[..i] == w[..i + 1][..i] && w'[..i] == w'[..i + 1][..i];
    UnusedOfPrefix(lens, w, w', i, w[i], lens[i]);
    forall v {:trigger Slot(v, lens[i])} | v < w[i] && Slot(v, lens[i])
      ensures !Unused(lens, w', i, v, lens[i])
    {
      UnusedOfPrefix(lens, w, w', i, v, lens[i]);
    }
  }

  /** A coded entry keeps the invariant. */
  lemma Allot(lens: seq<nat>, w: seq<nat>, pool: Pool)
    requires Inv(lens, w, pool) && |w| < |lens| && Coded(lens, |w|)
    requires Deepest(pool, lens[|w|]) > 0
    ensures var z := Deepest(pool, lens[|w|]);
            Inv(lens, w + [pool[z]], Split(pool, z, pool[z], lens[|w|]))
  {
    hide Unit, Deepest, Assignment, PoolOk, KraftSum, FreeSum, Tiled, Lowest;
    var i := |w|;
    var z := Deepest(pool, lens[i]);
    var pool' := Split(pool, z, pool[z], lens[i]);
    var w' := w + [pool[z]];
    StartIsLowest(lens, w, pool);
    AssignmentNext(lens, w, pool[z]);
    SplitOk(pool, lens[i]);
    SplitSum(pool, z, lens[i], 31);
    KraftNext(lens, i);
    forall p {:trigger Tiled(lens, w', pool', p)} | 0 <= p < SPACE
      ensures Tiled(lens, w', pool', p)
    {
      TiledNext(lens, w, pool, p);
    }
  }

  /** An entry without a code keeps it too. */
  lemma Skip(lens: seq<nat>, w: seq<nat>, pool: Pool, v: nat)
    requires Inv(lens, w, pool) && |w| < |lens| && !Coded(lens, |w|)
    ensures Inv(lens, w + [v], pool)
  {
    hide Unit, Assignment, PoolOk, KraftSum, FreeSum, Lowest, Free;
    KraftNext(lens, |w|);
    AssignmentNext(lens, w, v);
    forall p {:trigger Tiled(lens, w + [v], pool, p)} | 0 <= p < SPACE
      ensures Tiled(lens, w + [v], pool, p)
    {
      assert Tiled(lens, w, pool, p);
      TakenNext(lens, w, v, p);
    }
  }

  /** When no subtree is left the code is oversubscribed, and indeed no slot is unused. */
  lemma Overflow(lens: seq<nat>, w: seq<nat>, pool: Pool)
    requires Inv(lens, w, pool) && |w| < |lens| && Coded(lens, |w|)
    requires Deepest(pool, lens[|w|]) == 0
    ensures KraftSum(lens[..|w| + 1]) > SPACE
    ensures forall v {:trigger Slot(v, lens[|w|])} :: Slot(v, lens[|w|]) ==> !Unused(lens, w, |w|, v, lens[|w|])
  {
    hide Unit, Deepest, Assignment, PoolOk, KraftSum, FreeSum, Tiled, Lowest, Slot;
    var len := lens[|w|];
    SumBelow(pool, len, 31);
    KraftNext(lens, |w|);
    forall v {:trigger Slot(v, len)} | Slot(v, len)
      ensures !Unused(lens, w, |w|, v, len)
    {
      var j := LowerIsUsed(lens, w, pool, len, v);
    }
  }

  // ---- the first codeword ----

  predicate NoneCoded(lens: seq<nat>, i: nat)
    requires i <= |lens|
  {
    forall j {:trigger Coded(lens, j)} :: 0 <= j < i ==> !Coded(lens, j)
  }

  /** The pool the builder starts from: the whole space minus the codeword 0 of length `len`. */
  function FirstPool(len: nat): Pool { Split(Empty(), 0, 0, len) }

  lemma FirstPoolOk(len: nat)
    requires 1 <= len <= 31
    ensures PoolOk(FirstPool(len))
  {
    hide Unit;
    var pool := FirstPool(len);
    UnitOfSpace();
    forall m {:trigger SubtreeOk(pool, m)} | 1 <= m <= 31
      ensures SubtreeOk(pool, m)
    {
      UnitMono(0, m);
      assert 1 * Unit(m) == Unit(m);
      AlignedHere(1, m);
    }
    forall l, m {:trigger InOrder(pool, l, m)} | 1 <= l < m <= 31
      ensures InOrder(pool, l, m)
    {
      UnitMono(l, m);
    }
  }

  lemma {:induction false} FirstSum(len: nat, l: nat)
    requires 1 <= len <= 31 && l <= 31
    ensures FreeSum(FirstPool(len), l) + Unit(if l <= len then l else len) == SPACE
    decreases l
  {
    hide Unit;
    if l == 0 {
      UnitOfSpace();
    } else {
      FirstSum(len, l - 1);
      UnitStep(l - 1);
    }
  }

  lemma FirstTiled(lens: seq<nat>, w: seq<nat>, p: nat)
    requires LengthsOk(lens) && |w| < |lens| && NoneCoded(lens, |w|) && Coded(lens, |w|) && p < SPACE
    ensures Tiled(lens, w + [0], FirstPool(lens[|w|]), p)
  {
    hide Unit;
    var len := lens[|w|];
    var pool := FirstPool(len);
    TakenNext(lens, w, 0, p);
    UnitOfSpace();
    if p >= Unit(len) {
      var y := PieceOf(0, 0, len, p);
      assert FreeAt(pool, y, p);
    } else {
      forall m: nat {:trigger FreeAt(pool, m, p)}
        ensures !FreeAt(pool, m, p)
      {
        if m <= len { UnitMono(m, len); }
      }
    }
  }

  lemma First(lens: seq<nat>, w: seq<nat>)
    requires LengthsOk(lens) && |w| < |lens| && NoneCoded(lens, |w|) && Coded(lens, |w|)
    ensures Inv(lens, w + [0], FirstPool(lens[|w|]))
  {
    hide Unit, PoolOk, FreeSum, FirstPool, Tiled;
    var len := lens[|w|];
    FirstPoolOk(len);
    FirstSum(len, 31);
    NoneSum(lens, |w|);
    KraftNext(lens, |w|);
    UnitOfSpace();
    UnitMono(0, len);
    assert 0 * Unit(len) == 0;
    AlignedHere(0, len);
    forall p {:trigger Tiled(lens, w + [0], FirstPool(len), p)} | 0 <= p < SPACE
      ensures Tiled(lens, w + [0], FirstPool(len), p)
    {
      FirstTiled(lens, w, p);
    }
  }

  lemma {:induction false} NoneSum(lens: seq<nat>, i: nat)
    requires i <= |lens| && NoneCoded(lens, i)
    ensures KraftSum(lens[..i]) == 0
  {
    if i > 0 {
      NoneSum(lens, i - 1);
      KraftNext(lens, i - 1);
    }
  }

  // ---- the whole assignment ----

  /** The builder's state after `i` entries, as long as the code fits. */
  lemma {:induction false} Built(lens: seq<nat>, i: nat) returns (w: seq<nat>, pool: Pool)
    requires LengthsOk(lens) && i <= |lens| && KraftSum(lens[..i]) <= SPACE
    ensures |w| == i && (NoneCoded(lens, i) || Inv(lens, w, pool))
  {
    hide Inv, KraftSum, Split;
    if i == 0 {
      w, pool := [], Empty();
    } else {
      KraftNext(lens, i - 1);
      w, pool := Built(lens, i - 1);
      if !Coded(lens, i - 1) {
        if !NoneCoded(lens, i - 1) { Skip(lens, w, pool, 0); }
        w := w + [0];
      } else if NoneCoded(lens, i - 1) {
        First(lens, w);
        w, pool := w + [0], FirstPool(lens[i - 1]);
      } else if Deepest(pool, lens[i - 1]) == 0 {
        Overflow(lens, w, pool);
      } else {
        Allot(lens, w, pool);
        var z := Deepest(pool, lens[i - 1]);
        w, pool := w + [pool[z]], Split(pool, z, pool[z], lens[i - 1]);
      }
    }
  }

  lemma InvMeans(lens: seq<nat>, w: seq<nat>, pool: Pool)
    requires Inv(lens, w, pool)
    ensures Assignment(lens, w) && KraftSum(lens[..|w|]) <= SPACE
  {
  }

  /** Whenever the Kraft inequality holds, every coded entry gets a codeword. */
  lemma AssignmentExists(lens: seq<nat>) returns (w: seq<nat>)
    requires LengthsOk(lens) && KraftSum(lens) <= SPACE
    ensures |w| == |lens| && Assignment(lens, w)
  {
    hide Inv;
    assert lens[..|lens|] == lens;
    var pool;
    w, pool := Built(lens, |lens|);
    if !NoneCoded(lens, |lens|) { InvMeans(lens, w, pool); }
  }

  /** The rule leaves no choice. */
  lemma {:induction false} AssignmentUnique(lens: seq<nat>, w: seq<nat>, w': seq<nat>, i: nat)
    requires Assignment(lens, w) && Assignment(lens, w') && i < |w| && i < |w'| && Coded(lens, i)
    ensures w[i] == w'[i]
    decreases i
  {
    hide Slot, Overlap;
    forall j | 0 <= j < i && Coded(lens, j)
      ensures w[j] == w'[j]
    {
      AssignmentUnique(lens, w, w', j);
    }
    assert Lowest(lens, w, i) && Lowest(lens, w', i);
    UnusedAgrees(lens, w, w', i, w[i], lens[i]);
    UnusedAgrees(lens, w, w', i, w'[i], lens[i]);
  }

  lemma UnusedAgrees(lens: seq<nat>, w: seq<nat>, w': seq<nat>, i: nat, v: nat, l: nat)
    requires i <= |w| <= |lens| && i <= |w'| <= |lens|
    requires forall j | 0 <= j < i && Coded(lens, j) :: w[j] == w'[j]
    ensures Unused(lens, w, i, v, l) <==> Unused(lens, w', i, v, l)
  {
    hide Overlap;
  }

  lemma {:induction false} AssignmentFits(lens: seq<nat>, w: seq<nat>, i: nat)
    requires LengthsOk(lens) && Assignment(lens, w) && i <= |w|
    ensures KraftSum(lens[..i]) <= SPACE
  {
    assert |w| <= |lens|;
    hide Inv, Slot, Unit, Assignment, Deepest, KraftSum;
    if i > 0 {
      AssignmentFits(lens, w, i - 1);
      KraftNext(lens, i - 1);
      var w0, pool := Built(lens, i - 1);
      if Coded(lens, i - 1) {
        if NoneCoded(lens, i - 1) {
          NoneSum(lens, i - 1);
          UnitOfSpace();
          UnitMono(0, lens[i - 1]);
        } else {
          StillRoom(lens, w, w0, pool);
          Allot(lens, w0, pool);
          InvMeans(lens, w0 + [pool[Deepest(pool, lens[i - 1])]],
                   Split(pool, Deepest(pool, lens[i - 1]), pool[Deepest(pool, lens[i - 1])], lens[i - 1]));
        }
      }
    } else {
      assert lens[..0] == [] && KraftSum([]) == 0 by { EmptySum(); }
    }
  }

  lemma EmptySum()
    ensures KraftSum([]) == 0
  {
  }

  /** The builder only gives up where no assignment goes on. */
  lemma StillRoom(lens: seq<nat>, w: seq<nat>, w0: seq<nat>, pool: Pool)
    requires Assignment(lens, w) && Inv(lens, w0, pool) && |w0| < |w| && Coded(lens, |w0|)
    ensures Deepest(pool, lens[|w0|]) > 0
  {
    hide Slot, Overlap, Deepest;
    var i := |w0|;
    forall j | 0 <= j < i && Coded(lens, j)
      ensures w[j] == w0[j]
    {
      AssignmentUnique(lens, w, w0, j);
    }
    UnusedAgrees(lens, w, w0, i, w[i], lens[i]);
    assert Lowest(lens, w, i);
    if Deepest(pool, lens[i]) == 0 { Overflow(lens, w0, pool); }
  }

  /** The rule of section 3.2.1 can be followed to the end exactly when the Kraft sum is at most 1. */
  lemma AssignmentIffKraft(lens: seq<nat>)
    requires LengthsOk(lens)
    ensures (exists w {:trigger Assignment(lens, w)} :: |w| == |lens| && Assignment(lens, w)) <==> KraftSum(lens) <= SPACE
  {
    hide Assignment, KraftSum;
    if w :| |w| == |lens| && Assignment(lens, w) {
      AssignmentFits(lens, w, |lens|);
      assert lens[..|lens|] == lens;
    }
    if KraftSum(lens) <= SPACE {
      var w := AssignmentExists(lens);
    }
  }

  // ---- codewords as bits ----

  /** The bits of a codeword, in stream order. */
  function Code(w: nat, l: nat): (c: seq<bool>)
    requires l <= 32
    ensures |c| == l
  {
    ToMsb(w, 32)[..l]
  }

  /** A word lies in the interval of a codeword exactly when it begins with its bits. */
  lemma WithinIsPrefix(p: nat, w: nat, l: nat)
    requires p < SPACE && w < SPACE && l <= 32 && Aligned(w, l)
    ensures Within(p, w, l) <==> Code(w, l) <= ToMsb(p, 32)
  {
    hide ToMsb, FromMsb, Pow2;
    Pow2Values();
    FromToMsb(p, 32);
    FromToMsb(w, 32);
    var c, b := ToMsb(w, 32)[..l], ToMsb(w, 32)[l..];
    assert c + b == ToMsb(w, 32);
    MsbQuotient(c, b, w);
    PrefixIsInterval(c, ToMsb(p, 32));
    SameQuotient(p, w, Unit(l));
  }

  lemma SameQuotient(p: nat, w: nat, u: nat)
    requires u > 0 && w == w / u * u
    ensures w <= p < w + u <==> w / u == p / u
  {
    DivBounds(p, u);
    var q := w / u;
    if w <= p < w + u { DivUniqueLeft(p, u, q, p - w); }
    assert (q + 1) * u == q * u + u;
  }

  /** No codeword begins another one. */
  lemma PrefixFree(lens: seq<nat>, w: seq<nat>, i: nat, j: nat)
    requires LengthsOk(lens) && Assignment(lens, w) && i < |w| && j < |w| && Coded(lens, i) && Coded(lens, j)
    requires Code(w[i], lens[i]) <= Code(w[j], lens[j])
    ensures i == j
  {
    hide Code, Aligned, Unit;
    assert Lowest(lens, w, i) && Lowest(lens, w, j);
    assert Code(w[j], lens[j]) <= ToMsb(w[j], 32) by { CodeIsPrefix(w[j], lens[j]); }
    WithinIsPrefix(w[j], w[i], lens[i]);
    BeginsUnique(lens, w, i, j, w[j]);
  }

  lemma CodeIsPrefix(w: nat, l: nat)
    requires l <= 32
    ensures Code(w, l) <= ToMsb(w, 32)
  {
  }

  /** At most one codeword begins a given word. */
  lemma BeginsUnique(lens: seq<nat>, w: seq<nat>, i: nat, j: nat, p: nat)
    requires Assignment(lens, w) && BeginsWith(lens, w, i, p) && BeginsWith(lens, w, j, p)
    ensures i == j
  {
    hide Slot, Unit;
    assert Lowest(lens, w, i) && Lowest(lens, w, j);
    assert Overlap(w[i], lens[i], w[j], lens[j]) && Overlap(w[j], lens[j], w[i], lens[i]);
  }
}
