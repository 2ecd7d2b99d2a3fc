/** The packet reader of the Vorbis decoder: pages, segments, packets. */
module Ogg {
  import opened Bits
  import opened Lacing

  /** What is left to read: the rest of the current segment, the later segments of the current page and
      the later pages. */
  datatype View = View(cur: seq<Byte>, segs: seq<seq<Byte>>, pages: seq<Page>)

  /** All segments after the current one. */
  function Later(v: View): seq<seq<Byte>> { v.segs + PageSegments(v.pages) }

  /** The header of page `p` lies at offset `pos`. */
  ghost predicate PageAt(data: seq<Byte>, pos: nat, p: Page) {
    && PageOk(p) && pos + 27 + |p.segs| <= |data|
    && data[pos..pos + 27] == Header(p)
    && data[pos + 27..pos + 27 + |p.segs|] == Lengths(p.segs)
  }

  class Reader {
    const data: seq<Byte>
    var pos: nat
    var eof: bool
    const segments: array<Byte>
    var segmentCount: nat
    var pageFlag: nat
    var nextSeg: int
    var bytesInSeg: nat
    var lastSeg: bool
    var lastSegWhich: int
    var packetBytes: nat
    var acc: nat
    var validBits: int

    constructor (data: seq<Byte>)
      ensures this.data == data && fresh(segments) && Sane()
      ensures segmentCount == 0 && pos == 0 && !eof && nextSeg == -1 && bytesInSeg == 0 && lastSeg
      ensures validBits == 0 && acc == 0
    {
      this.data := data;
      segments := new Byte[255](_ => 0);
      pos, eof, segmentCount, pageFlag, nextSeg, bytesInSeg, lastSeg := 0, false, 0, 0, -1, 0, true;
      lastSegWhich, packetBytes, acc, validBits := 0, 0, 0, 0;
    }

    /** Holds whatever the input. */
    ghost predicate Sane()
      reads `pos, `nextSeg, `segmentCount
    {
      segments.Length == 255 && segmentCount <= 255 && -1 <= nextSeg < 255 && pos <= |data|
    }

    method Get8() returns (z: Byte)
      requires Sane()
      modifies `pos, `eof
      ensures Sane()
      ensures z == if old(pos) < |data| then data[old(pos)] else 0
      ensures pos == if old(pos) < |data| then old(pos) + 1 else old(pos)
    {
      if pos >= |data| {
        eof := true;
        return 0;
      }
      z := data[pos];
      pos := pos + 1;
    }

    method Get32() returns (x: nat)
      requires Sane()
      modifies `pos, `eof
      ensures Sane() && old(pos) <= pos
      ensures old(pos) + 4 <= |data| ==> pos == old(pos) + 4
    {
      var a: nat := Get8();
      var b: nat := Get8();
      var c: nat := Get8();
      var d: nat := Get8();
      x := a + b * 0x100 + c * 0x1_0000 + d * 0x100_0000;
    }

    method GetSegments(n: nat) returns (ok: bool)
      requires Sane() && n <= 255
      modifies `pos, `eof, segments
      ensures Sane() && ok == (old(pos) + n <= |data|)
      ensures ok ==> pos == old(pos) + n && segments[..n] == data[old(pos)..pos]
      ensures !ok ==> pos == old(pos)
    {
      if pos + n > |data| {
        eof := true;
        return false;
      }
      forall i | 0 <= i < n { segments[i] := data[pos + i]; }
      assert segments[..n] == data[pos..pos + n];
      pos := pos + n;
      return true;
    }

    method CapturePattern() returns (ok: bool)
      requires Sane()
      modifies `pos, `eof
      ensures Sane() && old(pos) <= pos
      ensures ok ==> pos == old(pos) + 4
      ensures ok <==> old(pos) + 4 <= |data| && data[old(pos)..old(pos) + 4] == [0x4f, 0x67, 0x67, 0x53]
    {
      ghost var p := pos;
      ok := false;
      var z := Get8();
      if z != 0x4f { return; }
      z := Get8();
      if z != 0x67 { return; }
      z := Get8();
      if z != 0x67 { return; }
      z := Get8();
      if z != 0x53 { return; }
      return true;
    }

    method StartPageNoCapturePattern(ghost p: Page) returns (ok: bool)
      requires Sane() && pos >= 4
      modifies `pos, `eof, `pageFlag, `segmentCount, `nextSeg, segments
      ensures Sane() && old(pos) <= pos && (ok ==> nextSeg == 0) && (!ok ==> nextSeg == old(nextSeg))
      ensures PageAt(data, old(pos) - 4, p) ==> ok && PageRead(p, old(pos) - 4)
    {
      ghost var at := pos - 4;
      ghost var here := PageAt(data, at, p);
      HeaderBytes(data, at, p);
      var z := Get8();
      if z != 0 { return false; }
      z := Get8();
      pageFlag := z;
      var x := Get32();
      x := Get32();
      x := Get32();
      x := Get32();
      x := Get32();
      assert here ==> pos == at + 26;
      z := Get8();
      segmentCount := z;
      ok := GetSegments(segmentCount);
      if ok { nextSeg := 0; }
    }

    ghost predicate PageRead(p: Page, at: nat)
      reads this, segments
    {
      && PageOk(p) && pos == at + 27 + |p.segs| && pageFlag == p.flags && segmentCount == |p.segs|
      && segmentCount <= segments.Length && segments[..segmentCount] == Lengths(p.segs)
    }

    method StartPage(ghost p: Page) returns (ok: bool)
      requires Sane()
      modifies `pos, `eof, `pageFlag, `segmentCount, `nextSeg, segments
      ensures Sane() && old(pos) <= pos
      ensures ok ==> nextSeg == 0 && old(pos) < pos
      ensures !ok ==> nextSeg == old(nextSeg)
      ensures PageAt(data, old(pos), p) ==> ok && PageRead(p, old(pos))
      ensures old(pos) == |data| ==> !ok
    {
      PatternBytes(data, pos, p);
      ok := CapturePattern();
      if ok { ok := StartPageNoCapturePattern(p); }
    }

    /** How many segments the current page may still open. */
    function Ahead(): nat
      requires Sane()
      reads `pos, `nextSeg, `segmentCount
    {
      if nextSeg == -1 then 0 else if nextSeg < segmentCount then segmentCount - nextSeg else 1
    }

    // ---- segments ----

    /** The lacing values of the segments still to come in this page. */
    ghost predicate SegmentsAhead(segs: seq<seq<Byte>>)
      reads `nextSeg, `segmentCount, segments
    {
      && segments.Length == 255 && segmentCount <= 255
      && (forall i {:trigger segs[i]} :: 0 <= i < |segs| ==> |segs[i]| <= LACE)
      && if segs == [] then nextSeg == -1
         else nextSeg >= 0 && nextSeg + |segs| == segmentCount && segments[nextSeg..segmentCount] == Lengths(segs)
    }

    /** The reader stands in front of what `v` shows. */
    ghost predicate Holds(v: View)
      reads `pos, `nextSeg, `segmentCount, `bytesInSeg, `lastSeg, segments
    {
      && pos <= |data| && |v.cur| == bytesInSeg && SegmentsAhead(v.segs)
      && PagesOk(v.pages) && Flagged(v.pages, if v.segs == [] then !lastSeg else Opens(v.segs))
      && data[pos..] == v.cur + Joined(v.segs) + Encode(v.pages)
    }

    /** Turning the page. */
    method EnterPage(ghost v: View) returns (ok: bool, ghost v': View)
      requires Sane() && nextSeg == -1
      modifies `pos, `eof, `pageFlag, `segmentCount, `nextSeg, segments
      ensures Sane() && old(pos) <= pos
      ensures ok ==> nextSeg == 0 && old(pos) < pos
      ensures !ok ==> nextSeg == -1
      ensures old(Holds(v)) && v.cur == [] && v.pages == [] ==> !ok && v' == v && Holds(v')
      ensures old(Holds(v)) && v.cur == [] && v.pages != [] ==>
        ok && v' == View([], v.pages[0].segs, v.pages[1..]) && Holds(v') && (pageFlag % 2 == 1 <==> !lastSeg)
    {
      hide Header, PageAt, Flagged, Encode;
      ghost var p := if v.pages != [] then v.pages[0] else Page(0, [], []);
      v' := v;
      if Holds(v) && v.cur == [] {
        assert data[pos..] == Encode(v.pages) by { assert v.cur + Joined(v.segs) + Encode(v.pages) == Encode(v.pages); }
        if v.pages != [] { FirstPageAt(data, pos, v.pages); }
        FlaggedHead(v.pages, !lastSeg);
        EmptyEncode(v.pages);
      }
      ghost var at, open := pos, !lastSeg;
      ghost var holds := Holds(v) && v.cur == [];
      ok := StartPage(p);
      if holds && v.pages != [] {
        v' := View([], p.segs, v.pages[1..]);
        assert data[pos..] == v'.cur + Joined(v'.segs) + Encode(v'.pages);
      }
    }

    /** Opens the next segment of the current page. */
    method TakeSegment(ghost v: View) returns (len: nat, ghost v': View)
      requires Sane() && 0 <= nextSeg && bytesInSeg == 0
      modifies `nextSeg, `lastSeg, `lastSegWhich, `bytesInSeg
      ensures Sane() && len == bytesInSeg <= 255
      ensures lastSeg == (old(lastSeg) || len < 255)
      ensures nextSeg == if old(nextSeg) + 1 >= segmentCount then -1 else old(nextSeg) + 1
      ensures old(Holds(v)) && v.cur == [] && v.segs != [] ==>
        v' == View(v.segs[0], v.segs[1..], v.pages) && len == |v.segs[0]| && (old(!lastSeg) ==> Holds(v'))
    {
      hide Flagged, Encode;
      ghost var holds := Holds(v) && v.cur == [] && v.segs != [];
      v' := if v.segs == [] then v else View(v.segs[0], v.segs[1..], v.pages);
      if holds {
        assert segments[nextSeg] == segments[nextSeg..segmentCount][0] == Lengths(v.segs)[0];
        assert segments[nextSeg + 1..segmentCount] == segments[nextSeg..segmentCount][1..];
        assert Lengths(v.segs)[1..] == Lengths(v.segs[1..]);
        JoinedHead(v.segs, Encode(v.pages));
      }
      len := segments[nextSeg];
      nextSeg := nextSeg + 1;
      if len < 255 {
        lastSeg := true;
        lastSegWhich := nextSeg - 1;
      }
      if nextSeg >= segmentCount { nextSeg := -1; }
      bytesInSeg := len;
    }

    /** Makes sure the current page has a segment to open, turning the page inside a packet. */
    method TurnPage(ghost v: View) returns (more: bool, ghost v': View)
      requires Sane() && bytesInSeg == 0 && !lastSeg
      modifies `pos, `eof, `pageFlag, `segmentCount, `nextSeg, `lastSeg, `lastSegWhich, segments
      ensures Sane() && old(pos) <= pos
      ensures more ==> nextSeg >= 0 && !lastSeg && (pos == old(pos) ==> Ahead() == old(Ahead()))
      ensures old(Holds(v)) && v.cur == [] ==>
        Holds(v') && v'.cur == [] && Later(v') == Later(v) && more == (Later(v) != []) && (more ==> v'.segs != [])
      ensures old(Holds(v)) && v.cur == [] && !more ==> lastSeg
    {
      hide Flagged, Encode;
      v' := v;
      if nextSeg != -1 { return true, v; }
      lastSegWhich := segmentCount - 1;
      PagesStart(v.pages);
      ghost var holds := Holds(v) && v.cur == [];
      more, v' := EnterPage(v);
      if !more {
        lastSeg := true;
        NoPagesFlagged(v'.pages);
        return;
      }
      if pageFlag % 2 == 0 { return false, v'; }
      assert holds ==> v.pages != [] && Later(v') == Later(v);
    }

    /** Moves to the next segment of the packet; 0 at its end. */
    method NextSegment(ghost v: View) returns (len: nat, ghost v': View)
      requires Sane() && bytesInSeg == 0
      modifies `pos, `eof, `pageFlag, `segmentCount, `nextSeg, `lastSeg, `lastSegWhich, `bytesInSeg, segments
      ensures Sane() && len == bytesInSeg <= 255 && old(pos) <= pos
      ensures len > 0 && pos == old(pos) ==> Ahead() < old(Ahead())
      ensures old(Holds(v)) && v.cur == [] ==> Holds(v') && Advanced(v, old(lastSeg), len, v', lastSeg)
    {
      hide Holds;
      v' := v;
      if lastSeg { return 0, v; }
      var more;
      more, v' := TurnPage(v);
      if !more { return 0, v'; }
      len, v' := TakeSegment(v');
    }

    /** One byte of the current segment. */
    method TakeByte(ghost v: View) returns (z: Byte, ghost v': View)
      requires Sane() && bytesInSeg > 0
      modifies `pos, `eof, `bytesInSeg, `packetBytes
      ensures Sane() && old(pos) <= pos
      ensures bytesInSeg == old(bytesInSeg) - 1 && packetBytes == old(packetBytes) + 1
      ensures old(Holds(v)) ==> v.cur != [] && z == v.cur[0] && v' == View(v.cur[1..], v.segs, v.pages) && Holds(v')
    {
      hide Flagged, Encode, Joined;
      v' := if v.cur == [] then v else View(v.cur[1..], v.segs, v.pages);
      if Holds(v) { FirstByte(data, pos, v.cur, Joined(v.segs), Encode(v.pages)); }
      bytesInSeg := bytesInSeg - 1;
      packetBytes := packetBytes + 1;
      z := Get8();
    }

    /** The next byte of the packet, or `EOP`. */
    method Get8PacketRaw(ghost v: View) returns (z: int, ghost v': View)
      requires Sane()
      modifies `pos, `eof, `pageFlag, `segmentCount, `nextSeg, `lastSeg, `lastSegWhich, `bytesInSeg, `packetBytes, segments
      ensures Sane() && old(pos) <= pos && -1 <= z < 256
      ensures packetBytes == old(packetBytes) + if z == EOP then 0 else 1
      ensures z != EOP && pos == old(pos) ==> Ahead() < old(Ahead()) || (Ahead() == old(Ahead()) && bytesInSeg < old(bytesInSeg))
      ensures old(Holds(v)) ==> Holds(v') && ByteRead(v, old(lastSeg), z, v', lastSeg)
      ensures old(Holds(v)) && z == EOP ==> lastSeg && bytesInSeg == 0
    {
      hide Holds, Packet, After, Advanced;
      v' := v;
      HoldsCur(v);
      ghost var last := lastSeg;
      if bytesInSeg == 0 {
        AtItsEnd(v);
        if lastSeg { return EOP, v; }
        var len;
        len, v' := NextSegment(v);
        SegmentOpened(v, last, len, v', lastSeg);
        if len == 0 { return EOP, v'; }
        HoldsCur(v');
      }
      FirstOfSegment(v', lastSeg);
      z, v' := TakeByte(v');
    }

    lemma HoldsCur(v: View)
      ensures Holds(v) ==> |v.cur| == bytesInSeg
    {
    }

    // ---- packets ----

    /** Between packets: the last one has been read to its end. */
    ghost predicate Between(v: View)
      reads `pos, `nextSeg, `segmentCount, `bytesInSeg, `lastSeg, segments
    {
      Holds(v) && v.cur == [] && lastSeg
    }

    method StartPacket(ghost v: View) returns (ok: bool, ghost v': View)
      requires Sane()
      modifies `pos, `eof, `pageFlag, `segmentCount, `nextSeg, `lastSeg, `bytesInSeg, `packetBytes, `validBits, segments
      ensures Sane() && old(pos) <= pos
      ensures ok ==> !lastSeg && bytesInSeg == 0 && validBits == 0 && packetBytes == 0
      ensures ok && pos == old(pos) ==> Ahead() == old(Ahead())
      ensures ok ==> nextSeg >= 0
      ensures old(Between(v)) ==> ok == (Later(v) != [])
      ensures old(Between(v)) && ok ==> Holds(v') && v'.cur == [] && Later(v') == Later(v)
      ensures old(Between(v)) && !ok ==> Between(v') && Later(v') == []
    {
      hide Flagged, Encode;
      v' := v;
      ghost var between := Between(v);
      PagesStart(v.pages);
      while nextSeg == -1
        invariant Sane() && old(pos) <= pos && (nextSeg != -1 ==> nextSeg >= 0)
        invariant nextSeg == old(nextSeg) || old(pos) < pos
        invariant pos == old(pos) ==> segmentCount == old(segmentCount)
        invariant nextSeg == -1 ==> v' == v && Between(v) == between && (between ==> v.segs == [])
        invariant nextSeg != -1 && between ==> Between(v') && v'.segs != [] && Later(v') == Later(v)
        decreases nextSeg == -1
      {
        ok, v' := EnterPage(v);
        if !ok { return false, v'; }
        if pageFlag % 2 == 1 { return false, v'; }
      }
      lastSeg := false;
      validBits := 0;
      packetBytes := 0;
      bytesInSeg := 0;
      return true, v';
    }

    /** A whole packet: `start_packet`, then bytes until `EOP`. */
    method ReadPacket(ghost v: View) returns (ok: bool, packet: seq<Byte>, ghost v': View)
      requires Sane()
      modifies this, segments
      ensures Sane() && old(pos) <= pos
      ensures old(Between(v)) ==> ok == (Later(v) != []) && Between(v')
      ensures old(Between(v)) ==> Later(v') == if ok then Tail(Later(v)) else []
      ensures old(Between(v)) && ok ==> packet == Head(Later(v))
    {
      hide Holds, Head, Tail;
      packet := [];
      ghost var between := Between(v);
      ok, v' := StartPacket(v);
      if !ok { return; }
      var z := 0;
      while z != EOP
        invariant Sane() && old(pos) <= pos
        invariant between ==> Holds(v') && packet + Packet(v', lastSeg) == Head(Later(v)) && After(v', lastSeg) == Tail(Later(v))
        invariant between && z == EOP ==> Packet(v', lastSeg) == [] && lastSeg && v'.cur == []
        decreases z != EOP, |data| - pos, Ahead(), bytesInSeg
      {
        ghost var w := v';
        ghost var rest := Packet(w, lastSeg);
        z, v' := Get8PacketRaw(w);
        if z != EOP {
          assert between ==> packet + rest == packet + [rest[0]] + rest[1..];
          packet := packet + [z];
        }
      }
      assert between ==> packet + [] == packet;
    }
  }

  /** Lacing round trip: a reader over a stream that carries packets returns exactly those packets in
      order, and then reports that there are no more. */
  method ReadBack(data: seq<Byte>, ghost pages: seq<Page>, ghost packets: seq<seq<Byte>>) returns (got: seq<seq<Byte>>)
    requires Carries(pages, packets) && data == Encode(pages)
    ensures got == packets
  {
    hide Head, Tail, AllSegments, Packets, Flagged, Encode, Later, PageSegments, Reader.Holds;
    var f := new Reader(data);
    ghost var v := View([], [], pages);
    AtStart(f, v);
    Unlaced(packets);
    got := [];
    assert got + Packets(AllSegments(packets)) == packets;
    var ok := true;
    while ok
      invariant fresh(f) && fresh(f.segments) && f.Sane() && f.Between(v)
      invariant got + Packets(Later(v)) == packets && (!ok ==> Later(v) == [])
      decreases ok, |Later(v)|
    {
      ghost var left := Later(v);
      var packet;
      ok, packet, v := f.ReadPacket(v);
      if ok {
        NextPacket(got, left);
        got := got + [packet];
      }
    }
    NoPackets(got);
  }

  lemma NextPacket(got: seq<seq<Byte>>, segs: seq<seq<Byte>>)
    requires segs != []
    ensures got + Packets(segs) == got + [Head(segs)] + Packets(Tail(segs))
    ensures |Tail(segs)| < |segs|
  {
    hide Head;
    assert got + ([Head(segs)] + Packets(Tail(segs))) == got + [Head(segs)] + Packets(Tail(segs));
  }

  lemma NoPackets(got: seq<seq<Byte>>)
    ensures got + Packets([]) == got
  {
    assert got + [] == got;
  }

  lemma AtStart(f: Reader, v: View)
    requires f.pos == 0 && f.nextSeg == -1 && f.bytesInSeg == 0 && f.lastSeg && f.segments.Length == 255
    requires f.segmentCount <= 255 && v == View([], [], v.pages)
    requires PagesOk(v.pages) && Flagged(v.pages, false) && f.data == Encode(v.pages)
    ensures f.Between(v) && Later(v) == PageSegments(v.pages)
  {
    assert f.data[0..] == f.data;
    assert [] + Joined([]) + Encode(v.pages) == Encode(v.pages);
  }

  /** What opening a segment does to the view. */
  predicate Advanced(v: View, last: bool, len: nat, v': View, last': bool) {
    if last then
      len == 0 && last' && v' == v
    else if Later(v) == [] then
      len == 0 && last' && v'.cur == [] && Later(v') == []
    else
      len == |Later(v)[0]| && v'.cur == Later(v)[0] && Later(v') == Later(v)[1..] && (last' <==> len < 255)
  }

  const EOP: int := -1

  /** The bytes left of the current packet. */
  function Packet(v: View, last: bool): seq<Byte> {
    v.cur + if last then [] else Head(Later(v))
  }

  /** The segments of the packets after the current one. */
  function After(v: View, last: bool): seq<seq<Byte>> {
    if last then Later(v) else Tail(Later(v))
  }

  /** What reading a byte does: the packet's first byte, or its end. */
  predicate ByteRead(v: View, last: bool, z: int, v': View, last': bool) {
    && After(v', last') == After(v, last)
    && if Packet(v, last) == [] then
         z == EOP && last' && v'.cur == []
       else
         z == Packet(v, last)[0] && Packet(v', last') == Packet(v, last)[1..]
  }

  /** A packet whose last segment is used up is at its end. */
  lemma AtItsEnd(v: View)
    ensures v.cur == [] ==> ByteRead(v, true, EOP, v, true)
  {
  }

  /** Opening a segment finds the end of the packet, or changes nothing about it. */
  lemma SegmentOpened(v: View, last: bool, len: nat, v': View, last': bool)
    ensures v.cur == [] && Advanced(v, last, len, v', last') ==>
      if len == 0 then ByteRead(v, last, EOP, v', last') && last'
      else After(v', last') == After(v, last) && Packet(v', last') == Packet(v, last)
  {
    if v.cur == [] && Advanced(v, last, len, v', last') && !last && Later(v) != [] {
      assert Packet(v', last') == Head(Later(v));
    }
  }

  lemma FirstOfSegment(v: View, last: bool)
    ensures v.cur != [] ==> ByteRead(v, last, v.cur[0], View(v.cur[1..], v.segs, v.pages), last)
  {
    if v.cur != [] {
      var rest := if last then [] else Head(Later(v));
      assert (v.cur + rest)[1..] == v.cur[1..] + rest;
    }
  }

  lemma FirstByte(data: seq<Byte>, pos: nat, cur: seq<Byte>, a: seq<Byte>, b: seq<Byte>)
    requires pos <= |data| && data[pos..] == cur + a + b && cur != []
    ensures pos < |data| && data[pos] == cur[0] && data[pos + 1..] == cur[1..] + a + b
  {
    var e := cur + a + b;
    assert data[pos] == data[pos..][0] == e[0];
    assert data[pos + 1..] == data[pos..][1..];
    assert e[1..] == cur[1..] + a + b;
  }

  lemma NoPagesFlagged(pages: seq<Page>)
    ensures pages == [] ==> Flagged(pages, false) && Flagged(pages, true)
  {
  }

  lemma JoinedHead(segs: seq<seq<Byte>>, rest: seq<Byte>)
    requires segs != []
    ensures [] + Joined(segs) + rest == segs[0] + Joined(segs[1..]) + rest
  {
  }

  /** Segments of a stream begin with those of its first page. */
  lemma PagesStart(pages: seq<Page>)
    ensures pages == [] ==> PageSegments(pages) == []
    ensures PagesOk(pages) && pages != [] ==> pages[0].segs != [] && PageSegments(pages) == pages[0].segs + PageSegments(pages[1..])
  {
  }

  lemma EmptyEncode(pages: seq<Page>)
    requires PagesOk(pages)
    ensures pages == [] ==> Encode(pages) == []
  {
  }

  lemma FlaggedHead(pages: seq<Page>, open: bool)
    requires Flagged(pages, open) && PagesOk(pages)
    ensures pages != [] ==> PageOk(pages[0]) && (Continued(pages[0]) <==> open) && Flagged(pages[1..], Opens(pages[0].segs))
  {
  }

  lemma Parts(data: seq<Byte>, pos: nat, a: seq<Byte>, b: seq<Byte>, c: seq<Byte>)
    requires pos <= |data| && data[pos..] == a + b + c
    ensures pos + |a| + |b| <= |data|
    ensures data[pos..pos + |a|] == a && data[pos + |a|..pos + |a| + |b|] == b && data[pos + |a| + |b|..] == c
  {
    var e := a + b + c;
    assert data[pos..pos + |a|] == e[..|a|];
    assert data[pos + |a|..pos + |a| + |b|] == e[|a|..|a| + |b|];
    assert data[pos + |a| + |b|..] == e[|a| + |b|..];
  }

  /** In front of encoded pages there is a page header, and behind it the page's segments. */
  lemma FirstPageAt(data: seq<Byte>, pos: nat, pages: seq<Page>)
    requires pos <= |data| && PagesOk(pages) && data[pos..] == Encode(pages) && pages != []
    ensures PageAt(data, pos, pages[0])
    ensures data[pos + 27 + |pages[0].segs|..] == Joined(pages[0].segs) + Encode(pages[1..])
  {
    hide Header;
    var p := pages[0];
    var rest := Joined(p.segs) + Encode(pages[1..]);
    assert Encode(pages) == Header(p) + Lengths(p.segs) + rest by {
      Regroup(Header(p), Lengths(p.segs), Joined(p.segs), Encode(pages[1..]));
    }
    Parts(data, pos, Header(p), Lengths(p.segs), rest);
  }

  lemma Regroup(a: seq<Byte>, b: seq<Byte>, c: seq<Byte>, d: seq<Byte>)
    ensures a + b + c + d == a + b + (c + d)
  {
  }

  lemma HeaderBytes(data: seq<Byte>, at: nat, p: Page)
    ensures PageAt(data, at, p) ==>
      at + 27 <= |data| && data[at + 4] == 0 && data[at + 5] == p.flags && data[at + 26] == |p.segs|
  {
    if PageAt(data, at, p) {
      var h := data[at..at + 27];
      assert data[at + 4] == h[4] && data[at + 5] == h[5] && data[at + 26] == h[26];
    }
  }

  lemma PatternBytes(data: seq<Byte>, at: nat, p: Page)
    ensures PageAt(data, at, p) ==> at + 4 <= |data| && data[at..at + 4] == [0x4f, 0x67, 0x67, 0x53]
  {
    if PageAt(data, at, p) {
      var h := data[at..at + 27];
      assert data[at..at + 4] == h[..4];
      assert Header(p)[..4] == [0x4f, 0x67, 0x67, 0x53];
    }
  }
}
