/** Framing of src/ethernet.c. `wire` records what driver_send was given. */
module Ethernet {
  import opened Words
  import opened Buffer

  const MIN_PAYLOAD := 46
  const MTU := 1500
  const ETH_HDR := 14
  const PROTO_IP: u16 := 0x0800
  const PROTO_ARP: u16 := 0x0806

  type Ip = s: seq<byte> | |s| == 4 witness [0, 0, 0, 0]
  type Mac = s: seq<byte> | |s| == 6 witness [0, 0, 0, 0, 0, 0]

  const BROADCAST: Mac := [255, 255, 255, 255, 255, 255]

  /** A frame payload is zero-padded up to 46 bytes. */
  function Pad(p: seq<byte>): (r: seq<byte>)
    ensures |r| == (if |p| < MIN_PAYLOAD then MIN_PAYLOAD else |p|) && r[..|p|] == p
  {
    if |p| < MIN_PAYLOAD then p + Zeros(MIN_PAYLOAD - |p|) else p
  }

  /** The 14 header bytes: destination, source, type in network order. */
  function EthHeader(dst: Mac, src: Mac, proto: u16): (h: seq<byte>)
    ensures |h| == ETH_HDR
  {
    dst + src + Big16(proto)
  }

  function Frame(dst: Mac, src: Mac, proto: u16, p: seq<byte>): (f: seq<byte>)
    ensures |f| == ETH_HDR + |Pad(p)|
  {
    EthHeader(dst, src, proto) + Pad(p)
  }

  /** A frame byte by byte: addresses, type in network order, payload, and zeros up to 60 bytes. */
  lemma FrameLayout(dst: Mac, src: Mac, proto: u16, p: seq<byte>)
    ensures var f := Frame(dst, src, proto, p);
            && |f| == (if |p| < 46 then 60 else 14 + |p|)
            && f[..6] == dst && f[6..12] == src && f[12..14] == [proto / 256, proto % 256] && f[14..14 + |p|] == p
            && forall i :: 14 + |p| <= i < |f| ==> f[i] == 0
  {
    var h := EthHeader(dst, src, proto);
    assert h[..6] == dst && h[6..12] == src && h[12..14] == Big16(proto);
    assert Frame(dst, src, proto, p)[..14] == h;
  }

  datatype Verdict = NotForMe | LengthField | Invalid | Deliver(proto: u16, src: Mac)

  /** What ethernet_in decides from the 14 header bytes. */
  function Classify(h: seq<byte>, mac: Mac): Verdict
    requires |h| == ETH_HDR
  {
    var lengthType := Net16(h[12], h[13]);
    if h[..6] != mac && h[..6] != BROADCAST then NotForMe
    else if 46 <= lengthType <= 1500 then LengthField
    else if lengthType >= 0x0600 then Deliver(lengthType, h[6..12])
    else Invalid
  }

  /** What is taken, from the received bytes: a frame to this host or to everybody whose type field is a type, not a
      length. */
  lemma ClassifyIff(h: seq<byte>, mac: Mac)
    requires |h| == ETH_HDR
    ensures var field: int := h[12] as int * 256 + h[13];
            var mine := h[..6] == mac || h[..6] == [255, 255, 255, 255, 255, 255];
            && (Classify(h, mac).Deliver? <==> mine && field >= 1536)
            && (Classify(h, mac).Deliver? ==> Classify(h, mac) == Deliver(field, h[6..12]))
            && (Classify(h, mac) == LengthField <==> mine && 46 <= field <= 1500)
            && (Classify(h, mac) == NotForMe <==> !mine)
  {
  }

  /** A frame to everybody is taken by every host. */
  lemma BroadcastDelivered(src: Mac, proto: u16, p: seq<byte>, receiver: Mac)
    requires proto >= 0x0600
    ensures var f := Frame(BROADCAST, src, proto, p);
            Classify(f[..ETH_HDR], receiver) == Deliver(proto, src) && f[ETH_HDR..] == Pad(p)
  {
    hide Frame, Classify;
    FrameLayout(BROADCAST, src, proto, p);
    var f := Frame(BROADCAST, src, proto, p);
    ClassifyIff(f[..ETH_HDR], receiver);
    NetOfBig16(proto);
    assert f[..ETH_HDR][..6] == f[..6] && f[..ETH_HDR][6..12] == f[6..12];
    FrameBody(BROADCAST, src, proto, p);
  }

  lemma FrameBody(dst: Mac, src: Mac, proto: u16, p: seq<byte>)
    ensures Frame(dst, src, proto, p)[ETH_HDR..] == Pad(p)
  {
  }

  /** Unicast framing is undone by the addressee: type, source and padded payload come back, and nobody else
      (unless it owns the same address) takes the frame. */
  lemma FrameDelivered(dst: Mac, src: Mac, proto: u16, p: seq<byte>, receiver: Mac)
    requires dst != BROADCAST && proto >= 0x0600
    ensures var f := Frame(dst, src, proto, p);
            && Classify(f[..ETH_HDR], receiver) == (if receiver == dst then Deliver(proto, src) else NotForMe)
            && f[ETH_HDR..] == Pad(p)
  {
    var f := Frame(dst, src, proto, p);
    NetOfBig16(proto);
    assert f[..ETH_HDR] == EthHeader(dst, src, proto);
    assert f[..ETH_HDR][..6] == dst;
    assert f[..ETH_HDR][6..12] == src;
  }

  /** ethernet_in: on delivery the header is stripped; the result says what net_in is called with. */
  method EthernetIn(buf: Buf, mac: Mac) returns (v: Verdict)
    requires buf.Valid() && buf.data + ETH_HDR <= BUF_MAX_LEN
    modifies buf
    ensures buf.Valid()
    ensures v == Classify(buf.payload[old(buf.data)..old(buf.data) + ETH_HDR], mac)
    ensures buf.View() == if v.Deliver? && old(buf.len) >= ETH_HDR then old(buf.View()).DropFront(ETH_HDR)
                          else old(buf.View())
  {
    var h := buf.payload[buf.data..buf.data + ETH_HDR];
    v := Classify(h, mac);
    if v.Deliver? {
      var _ := buf.RemoveHeader(ETH_HDR);
    }
  }

  /** Padding and the three header writes of ethernet_out amount to one write of the whole frame. */
  lemma FrameImage(m: seq<byte>, d: nat, p: seq<byte>, dst: Mac, src: Mac, proto: u16)
    requires ETH_HDR <= d && d + |Pad(p)| <= |m| && m[d..d + |p|] == p
    ensures var padded := if |p| < MIN_PAYLOAD then Splice(m, d + |p|, Zeros(MIN_PAYLOAD - |p|)) else m;
            Splice(Splice(Splice(padded, d - 8, src), d - 14, dst), d - 2, Store16(Swap16(proto)))
            == Splice(m, d - ETH_HDR, Frame(dst, src, proto, p))
  {
    hide Splice, Zeros, Big16, Store16, Swap16;
    NetworkOrder16(proto);
    var padded := if |p| < MIN_PAYLOAD then Splice(m, d + |p|, Zeros(MIN_PAYLOAD - |p|)) else m;
    SpliceSame(m, d, p);
    if |p| < MIN_PAYLOAD {
      SpliceAfter(m, d, p, Zeros(MIN_PAYLOAD - |p|));
    }
    assert padded == Splice(m, d, Pad(p));
    var proto' := Big16(proto);
    SpliceBefore(padded, d - 14, dst, src);
    SpliceAfter(padded, d - 14, dst + src, proto');
    SpliceBefore(m, d - 14, EthHeader(dst, src, proto), Pad(p));
  }

  class Ethernet {
    const mac: Mac
    var wire: seq<seq<byte>>

    constructor (mac: Mac)
      ensures this.mac == mac && wire == []
    {
      this.mac, wire := mac, [];
    }

    /** ethernet_out: pad, write the header into the headroom, hand the window to the driver.
        The return codes of the window operations are ignored, so the caller must leave room. */
    method Out(buf: Buf, dst: Mac, proto: u16)
      requires buf.Valid() && ETH_HDR <= buf.data
      requires buf.len < MIN_PAYLOAD ==> buf.data + MIN_PAYLOAD < BUF_MAX_LEN
      modifies this, buf, buf.payload
      ensures buf.Valid()
      ensures var f := Frame(dst, mac, proto, old(buf.View()).bytes);
              && wire == old(wire) + [f]
              && buf.data == old(buf.data) - ETH_HDR && buf.len == |f|
              && buf.payload[..] == Splice(old(buf.payload[..]), old(buf.data) - ETH_HDR, f)
    {
      hide Frame, Pad, EthHeader;
      WriteFrame(buf, dst, proto);
      wire := wire + [buf.payload[buf.data..buf.data + buf.len]];
      assert buf.payload[..][buf.data..buf.data + buf.len] == buf.payload[buf.data..buf.data + buf.len];
    }

    /** The buffer part of ethernet_out. */
    method WriteFrame(buf: Buf, dst: Mac, proto: u16)
      requires buf.Valid() && ETH_HDR <= buf.data
      requires buf.len < MIN_PAYLOAD ==> buf.data + MIN_PAYLOAD < BUF_MAX_LEN
      modifies buf, buf.payload
      ensures buf.Valid()
      ensures var f := Frame(dst, mac, proto, old(buf.View()).bytes);
              && buf.data == old(buf.data) - ETH_HDR && buf.len == |f|
              && buf.payload[..] == Splice(old(buf.payload[..]), old(buf.data) - ETH_HDR, f)
    {
      hide Frame, Pad, EthHeader, Splice, Zeros, Store16, Swap16;
      ghost var m0, p0, d0 := buf.payload[..], buf.View().bytes, buf.data;
      assert m0[d0..d0 + |p0|] == p0;
      if buf.len < MIN_PAYLOAD {
        var _ := buf.AddPadding(MIN_PAYLOAD - buf.len);
      }
      var _ := buf.AddHeader(ETH_HDR);
      buf.Store(buf.data + 6, mac);
      buf.Store(buf.data, dst);
      buf.Store(buf.data + 12, Store16(Swap16(proto)));
      FrameImage(m0, d0, p0, dst, mac, proto);
    }
  }
}
