/** Packets laced into Ogg pages (RFC 3533, sections 5 and 6).

    A packet is cut into segments of 255 bytes and one shorter one, possibly empty, that ends it.  A page
    holds 1 to 255 segments; it is flagged as continued when its first segment does not begin a packet. */
module Lacing {
  import opened Bits

  const LACE: nat := 255

  /** The segments of one packet. */
  function Segments(packet: seq<Byte>): (r: seq<seq<Byte>>)
    decreases |packet|
  {
    if |packet| < LACE then [packet] else [packet[..LACE]] + Segments(packet[LACE..])
  }

  function AllSegments(packets: seq<seq<Byte>>): seq<seq<Byte>> {
    if packets == [] then [] else Segments(packets[0]) + AllSegments(packets[1..])
  }

  /** The bytes up to the end of the first packet of a run of segments; what there is of it, when the run
      stops short. */
  function Head(segs: seq<seq<Byte>>): seq<Byte> {
    if segs == [] then []
    else if |segs[0]| < LACE then segs[0]
    else segs[0] + Head(segs[1..])
  }

  /** The segments after the first packet. */
  function Tail(segs: seq<seq<Byte>>): (r: seq<seq<Byte>>)
    ensures segs != [] ==> |r| < |segs|
    ensures |r| <= |segs|
  {
    if segs == [] then []
    else if |segs[0]| < LACE then segs[1..]
    else Tail(segs[1..])
  }

  function Packets(segs: seq<seq<Byte>>): seq<seq<Byte>>
    decreases |segs|
  {
    if segs == [] then [] else [Head(segs)] + Packets(Tail(segs))
  }

  lemma {:induction false} FirstPacket(packet: seq<Byte>, rest: seq<seq<Byte>>)
    ensures Head(Segments(packet) + rest) == packet
    ensures Tail(Segments(packet) + rest) == rest
    decreases |packet|
  {
    var segs := Segments(packet);
    if |packet| < LACE {
      assert (segs + rest)[1..] == rest;
    } else {
      FirstPacket(packet[LACE..], rest);
      assert (segs + rest)[1..] == Segments(packet[LACE..]) + rest;
    }
  }

  /** Lacing loses nothing: empty packets and multiples of 255 bytes included. */
  lemma {:induction false} Unlaced(packets: seq<seq<Byte>>)
    ensures Packets(AllSegments(packets)) == packets
  {
    if packets != [] {
      FirstPacket(packets[0], AllSegments(packets[1..]));
      Unlaced(packets[1..]);
      assert Segments(packets[0]) != [];
    }
  }

  // ---- pages ----

  datatype Page = Page(flags: Byte, header: seq<Byte>, segs: seq<seq<Byte>>)

  predicate Continued(p: Page) { p.flags % 2 == 1 }

  /** Granule position, serial number, sequence number and checksum take 20 bytes of the header. */
  predicate PageOk(p: Page) {
    |p.header| == 20 && 1 <= |p.segs| <= 255 && forall i {:trigger p.segs[i]} :: 0 <= i < |p.segs| ==> |p.segs[i]| <= LACE
  }

  function Lengths(segs: seq<seq<Byte>>): (r: seq<Byte>)
    requires forall i {:trigger segs[i]} :: 0 <= i < |segs| ==> |segs[i]| <= LACE
    ensures |r| == |segs| && forall i {:trigger r[i]} :: 0 <= i < |r| ==> r[i] == |segs[i]|
  {
    seq(|segs|, i requires 0 <= i < |segs| => |segs[i]|)
  }

  function Joined(segs: seq<seq<Byte>>): seq<Byte> {
    if segs == [] then [] else segs[0] + Joined(segs[1..])
  }

  function Header(p: Page): (r: seq<Byte>)
    requires PageOk(p)
    ensures |r| == 27
  {
    [0x4f, 0x67, 0x67, 0x53, 0, p.flags] + p.header + [|p.segs|]
  }

  function EncodePage(p: Page): seq<Byte>
    requires PageOk(p)
  {
    Header(p) + Lengths(p.segs) + Joined(p.segs)
  }

  ghost predicate PagesOk(pages: seq<Page>) {
    forall i {:trigger pages[i]} :: 0 <= i < |pages| ==> PageOk(pages[i])
  }

  function Encode(pages: seq<Page>): seq<Byte>
    requires PagesOk(pages)
  {
    if pages == [] then [] else EncodePage(pages[0]) + Encode(pages[1..])
  }

  function PageSegments(pages: seq<Page>): seq<seq<Byte>> {
    if pages == [] then [] else pages[0].segs + PageSegments(pages[1..])
  }

  /** The segment leaves its packet open. */
  predicate Opens(segs: seq<seq<Byte>>)
    requires segs != []
  {
    |segs[|segs| - 1]| == LACE
  }

  /** Continued flags are right, `open` telling whether a packet is open before the first page. */
  ghost predicate Flagged(pages: seq<Page>, open: bool) {
    pages != [] ==>
      && PageOk(pages[0])
      && (Continued(pages[0]) <==> open)
      && Flagged(pages[1..], Opens(pages[0].segs))
  }

  /** A physical stream that carries the packets. */
  ghost predicate Carries(pages: seq<Page>, packets: seq<seq<Byte>>) {
    PagesOk(pages) && Flagged(pages, false) && PageSegments(pages) == AllSegments(packets)
  }

  // ---- every list of packets can be carried ----

  /** The plainest pagination: one segment a page. */
  function OnePerPage(segs: seq<seq<Byte>>, open: bool): seq<Page> {
    if segs == [] then []
    else [Page(if open then 1 else 0, seq(20, _ => 0), [segs[0]])] + OnePerPage(segs[1..], |segs[0]| == LACE)
  }

  lemma {:induction false} OnePerPageCarries(segs: seq<seq<Byte>>, open: bool)
    requires forall i {:trigger segs[i]} :: 0 <= i < |segs| ==> |segs[i]| <= LACE
    ensures PagesOk(OnePerPage(segs, open)) && Flagged(OnePerPage(segs, open), open)
    ensures PageSegments(OnePerPage(segs, open)) == segs
  {
    if segs != [] {
      OnePerPageCarries(segs[1..], |segs[0]| == LACE);
      assert OnePerPage(segs, open)[1..] == OnePerPage(segs[1..], |segs[0]| == LACE);
      assert [segs[0]] + segs[1..] == segs;
    }
  }

  lemma {:induction false} SegmentsShort(packets: seq<seq<Byte>>)
    ensures forall i {:trigger AllSegments(packets)[i]} :: 0 <= i < |AllSegments(packets)| ==> |AllSegments(packets)[i]| <= LACE
  {
    if packets != [] {
      PacketShort(packets[0]);
      SegmentsShort(packets[1..]);
    }
  }

  lemma {:induction false} PacketShort(packet: seq<Byte>)
    ensures forall i {:trigger Segments(packet)[i]} :: 0 <= i < |Segments(packet)| ==> |Segments(packet)[i]| <= LACE
    decreases |packet|
  {
    if |packet| >= LACE { PacketShort(packet[LACE..]); }
  }

  lemma SomeStreamCarries(packets: seq<seq<Byte>>)
    ensures exists pages :: Carries(pages, packets)
  {
    SegmentsShort(packets);
    OnePerPageCarries(AllSegments(packets), false);
    assert Carries(OnePerPage(AllSegments(packets), false), packets);
  }
}
