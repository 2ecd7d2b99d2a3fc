/** The output buffer seen as a window on the unbounded output history: either one buffer that
    holds everything, or a ring whose cursor the caller sends back to the start when it is full. */
module Window {
  import opened Bits

  /** Index of the byte `d` places before the cursor, going round the end of the ring. */
  function Behind(size: nat, cur: nat, d: nat): (i: nat)
    requires 1 <= d <= size && cur <= size
    ensures i < size
  {
    if d <= cur then cur - d else cur + size - d
  }

  /** Every byte of the history that still fits in the buffer is where the cursor expects it. */
  ghost predicate Mirrors(buf: seq<Byte>, cur: nat, hist: seq<Byte>) {
    && cur <= |buf|
    && forall d {:trigger Behind(|buf|, cur, d)} :: 1 <= d <= |hist| && d <= |buf| ==>
      buf[Behind(|buf|, cur, d)] == hist[|hist| - d]
  }

  lemma PushByte(buf: seq<Byte>, cur: nat, hist: seq<Byte>, b: Byte)
    requires Mirrors(buf, cur, hist) && cur < |buf|
    ensures Mirrors(buf[cur := b], cur + 1, hist + [b])
  {
    var buf', cur' := buf[cur := b], cur + 1;
    forall d | 1 <= d <= |hist| + 1 && d <= |buf|
      ensures buf'[Behind(|buf|, cur', d)] == (hist + [b])[|hist| + 1 - d]
    {
      if d > 1 { assert Behind(|buf|, cur', d) == Behind(|buf|, cur, d - 1); }
    }
  }

  /** A full ring may be reused from its start. */
  lemma Rewind(buf: seq<Byte>, hist: seq<Byte>)
    requires Mirrors(buf, |buf|, hist)
    ensures Mirrors(buf, 0, hist)
  {
    forall d | 1 <= d <= |hist| && d <= |buf|
      ensures buf[Behind(|buf|, 0, d)] == hist[|hist| - d]
    {
      assert Behind(|buf|, 0, d) == Behind(|buf|, |buf|, d);
    }
  }

  /** The history after a match of length `n` at distance `dist` (RFC 1951, section 3.2.3): each byte
      is the one `dist` before it, including bytes of the match itself. */
  ghost function Expand(hist: seq<Byte>, dist: nat, n: nat): (h: seq<Byte>)
    requires 1 <= dist <= |hist|
    ensures |h| == |hist| + n
  {
    if n == 0 then hist
    else
      var p := Expand(hist, dist, n - 1);
      p + [p[|p| - dist]]
  }

  /** Every byte of the match equals the byte `dist` before it in the finished history. */
  lemma {:induction false} ExpandBytes(hist: seq<Byte>, dist: nat, n: nat)
    requires 1 <= dist <= |hist|
    ensures hist <= Expand(hist, dist, n)
    ensures forall i :: |hist| <= i < |hist| + n ==> Expand(hist, dist, n)[i] == Expand(hist, dist, n)[i - dist]
  {
    if n > 0 { ExpandBytes(hist, dist, n - 1); }
  }

  lemma {:induction false} ExpandFront(hist: seq<Byte>, dist: nat, n: nat)
    requires 1 <= dist <= |hist| && n > 0
    ensures Expand(hist, dist, n) == Expand(hist + [hist[|hist| - dist]], dist, n - 1)
  {
    if n > 1 { ExpandFront(hist, dist, n - 1); }
  }

  /** As long as neither end is crossed the source runs in step with the cursor. */
  lemma SourceAdvances(size: nat, cur: nat, dist: nat, k: nat, count: nat)
    requires 1 <= dist <= size && cur + count <= size && k < count
    requires Behind(size, cur, dist) + count <= size
    ensures Behind(size, cur + k, dist) == Behind(size, cur, dist) + k
  {
  }

  method CopyOne(buf: array<Byte>, cur: nat, src: nat, ghost hist: seq<Byte>, ghost dist: nat)
    requires cur < buf.Length && 1 <= dist <= |hist| && dist <= buf.Length
    requires Mirrors(buf[..], cur, hist) && src == Behind(buf.Length, cur, dist)
    modifies buf
    ensures Mirrors(buf[..], cur + 1, Expand(hist, dist, 1))
    ensures buf[..] == old(buf[..])[cur := Expand(hist, dist, 1)[|hist|]]
  {
    PushByte(buf[..], cur, hist, buf[src]);
    ghost var before := buf[..];
    buf[cur] := buf[src];
    assert buf[..] == before[cur := before[src]];
    assert Expand(hist, dist, 1) == Expand(hist, dist, 0) + [hist[|hist| - dist]];
  }

  /** What a copy of `k` bytes has done so far. */
  ghost predicate Copied(before: seq<Byte>, now: seq<Byte>, cur: nat, hist: seq<Byte>, dist: nat, k: nat)
    requires 1 <= dist <= |hist|
  {
    && |now| == |before| && cur + k <= |now|
    && Mirrors(now, cur + k, Expand(hist, dist, k))
    && now[..cur] == before[..cur]
    && hist + now[cur..cur + k] == Expand(hist, dist, k)
  }

  lemma CopiedStep(before: seq<Byte>, now: seq<Byte>, cur: nat, hist: seq<Byte>, dist: nat, k: nat, b: Byte)
    requires 1 <= dist <= |hist| && Copied(before, now, cur, hist, dist, k) && cur + k < |now|
    requires b == Expand(Expand(hist, dist, k), dist, 1)[|hist| + k]
    requires Mirrors(now[cur + k := b], cur + k + 1, Expand(Expand(hist, dist, k), dist, 1))
    ensures Copied(before, now[cur + k := b], cur, hist, dist, k + 1)
  {
    var p := Expand(hist, dist, k);
    assert Expand(p, dist, 1) == Expand(p, dist, 0) + [p[|p| - dist]];
    assert Expand(hist, dist, k + 1) == p + [b];
    assert now[cur + k := b][cur..cur + k + 1] == now[cur..cur + k] + [b];
  }

  method CopyNext(buf: array<Byte>, cur: nat, src: nat, k: nat, ghost count: nat, ghost hist: seq<Byte>,
                  ghost dist: nat, ghost before: seq<Byte>)
    requires 1 <= dist <= |hist| && dist <= buf.Length && k < count
    requires cur + count <= buf.Length && src == Behind(buf.Length, cur, dist) && src + count <= buf.Length
    requires Copied(before, buf[..], cur, hist, dist, k)
    modifies buf
    ensures Copied(before, buf[..], cur, hist, dist, k + 1)
  {
    SourceAdvances(buf.Length, cur, dist, k, count);
    ghost var now := buf[..];
    CopyOne(buf, cur + k, src + k, Expand(hist, dist, k), dist);
    CopiedStep(before, now, cur, hist, dist, k, buf[cur + k]);
  }

  /** The unmasked copy: three bytes at a time, then the one or two that remain. */
  method CopyMatch(buf: array<Byte>, cur: nat, src: nat, count: nat, ghost hist: seq<Byte>, ghost dist: nat)
    requires 1 <= dist <= |hist| && dist <= buf.Length
    requires cur + count <= buf.Length && src == Behind(buf.Length, cur, dist) && src + count <= buf.Length
    requires Mirrors(buf[..], cur, hist)
    modifies buf
    ensures Copied(old(buf[..]), buf[..], cur, hist, dist, count)
  {
    ghost var before := buf[..];
    var k, left := 0, count;
    while left > 2
      invariant k + left == count
      invariant Copied(before, buf[..], cur, hist, dist, k)
    {
      CopyNext(buf, cur, src, k, count, hist, dist, before);
      CopyNext(buf, cur, src, k + 1, count, hist, dist, before);
      CopyNext(buf, cur, src, k + 2, count, hist, dist, before);
      k, left := k + 3, left - 3;
    }
    if left > 0 {
      CopyNext(buf, cur, src, k, count, hist, dist, before);
      if left > 1 {
        CopyNext(buf, cur, src, k + 1, count, hist, dist, before);
      }
    }
  }
}
