/** A TCP segment on its whole way: sealed, wrapped in a packet and a frame, checked by every layer of the addressee. */
module TcpDelivery {
  import opened Words
  import opened Ethernet
  import opened SlotMap
  import opened Fragments
  import opened IpInput
  import opened TcpWire

  /** A segment of at most 1460 payload bytes fits one packet. Its frame is taken by the addressee's link layer, its
      packet by ip_in, and the bytes passed up by the first three steps of tcp_in, which read back the segment that
      was sent. */
  lemma SegmentDelivered(g: Segment, src: Ip, dst: Ip, id: u16, mac: Mac, from: Mac, known: set<byte>)
    requires |g.payload| <= 1460 && mac != BROADCAST && PROTO_TCP in known
    ensures var r := Route(src, dst, PROTO_TCP, id);
            var pieces := Pieces(Sealed(g, src, dst));
            var frame := Frame(mac, from, PROTO_IP, Packet(r, pieces[0]));
            && |pieces| == 1 && !pieces[0].more && pieces[0].offset == 0
            && Taken(frame, pieces[0], r, mac, from, known)
            && Accept(Body(frame[ETH_HDR..]), src, dst) == Some(g)
  {
    hide Sealed, Frame, Packet, Judge, Body, Classify, Accept;
    var r := Route(src, dst, PROTO_TCP, id);
    LinkRoundTrip(r, Piece(0, false, Sealed(g, src, dst)), mac, from, known);
    SealedAccepted(g, src, dst);
  }

  /** A segment of any length: each of its frames is taken, and from every arrival of them the addressee rebuilds the
      segment, to read it back as what was sent, exactly when the length of the packet's data survives. */
  lemma LongSegmentIff(g: Segment, src: Ip, dst: Ip, id: u16, mac: Mac, from: Mac, known: set<byte>, got: seq<Piece>)
    requires mac != BROADCAST && PROTO_TCP in known
    requires var r := Route(src, dst, PROTO_TCP, id);
             Arrival(got, PiecesOf(FramesOf(r, Sealed(g, src, dst), 0, mac, mac, from)))
    ensures var r, b := Route(src, dst, PROTO_TCP, id), Sealed(g, src, dst);
            var frames := FramesOf(r, b, 0, mac, mac, from);
            && (forall k :: 0 <= k < |frames| ==> Taken(frames[k], Pieces(b)[k], r, mac, from, known))
            && (Reassemble(got) == Some(b) <==> Survives(TCP_HDR + |g.payload|))
            && Accept(b, src, dst) == Some(g)
  {
    hide Sealed, FramesOf, PiecesOf, Arrival, Taken, Pieces, Reassemble, Survives, Accept, EncodedAll;
    FramesTaken(Route(src, dst, PROTO_TCP, id), Sealed(g, src, dst), 0, mac, mac, from, known);
    ReassemblyIff(Sealed(g, src, dst), got);
    SealedAccepted(g, src, dst);
  }

  /** It never can for 2940 payload bytes, which make two full packets, or any other whole number of them above one. */
  lemma NeverRebuilt(g: Segment, src: Ip, dst: Ip, id: u16, mac: Mac, from: Mac, known: set<byte>, got: seq<Piece>)
    requires mac != BROADCAST && PROTO_TCP in known && |g.payload| > 1460 && |g.payload| % 1480 == 1460
    requires var r := Route(src, dst, PROTO_TCP, id);
             Arrival(got, PiecesOf(FramesOf(r, Sealed(g, src, dst), 0, mac, mac, from)))
    ensures Reassemble(got) != Some(Sealed(g, src, dst))
  {
    hide Sealed, FramesOf, PiecesOf, Arrival, Taken, Pieces, Reassemble, Accept;
    LongSegmentIff(g, src, dst, id, mac, from, known, got);
    assert (TCP_HDR + |g.payload|) % 1480 == 0;
  }
}
