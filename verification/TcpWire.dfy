/** TCP segments on the wire: tcp_send's header and checksum, and the checks at the top of tcp_in. */
module TcpWire {
  import opened Words
  import opened InetChecksum
  import opened Buffer
  import opened Ethernet
  import opened SlotMap
  import opened Transport

  const TCP_HDR := 20
  const PROTO_TCP: byte := 6
  /** Offset of the checksum field in a segment preceded by its pseudo-header. */
  const SUM_AT := 28

  /** The flags struct overlays one byte; its bit fields are tests on that byte. */
  type Flags = byte

  predicate Fin(f: Flags) { f % 2 == 1 }
  predicate Syn(f: Flags) { f / 2 % 2 == 1 }
  predicate Rst(f: Flags) { f / 4 % 2 == 1 }
  predicate Ack(f: Flags) { f / 16 % 2 == 1 }

  const ACK: Flags := 0x10
  const ACK_SYN: Flags := 0x12
  const ACK_FIN: Flags := 0x11
  const ACK_RST: Flags := 0x14

  datatype Segment = Segment(srcPort: u16, dstPort: u16, seqNo: u32, ackNo: u32, flags: Flags, window: u16,
                             payload: seq<byte>)

  /** The 20 header bytes with the checksum field still zero; every field is in network order. */
  function TcpHeader(g: Segment): (h: seq<byte>)
    ensures |h| == TCP_HDR
  {
    Big16(g.srcPort) + Big16(g.dstPort) + Big32(g.seqNo) + Big32(g.ackNo)
    + [0x50, g.flags] + Big16(g.window) + Big16(0) + Big16(0)
  }

  /** The sum of tcp_checksum: the length is cut to 16 bits, and so is the stretch of bytes summed. */
  function TcpSum(src: Ip, dst: Ip, b: seq<byte>): u16 {
    var n := |b| % 0x1_0000;
    Checksum(PseudoHeader(src, dst, PROTO_TCP, n) + b[..n])
  }

  /** The segment as tcp_send leaves it in the buffer; it passes the addresses as (remote, own). */
  function Sealed(g: Segment, own: Ip, remote: Ip): (b: seq<byte>)
    ensures |b| == TCP_HDR + |g.payload|
  {
    var b := TcpHeader(g) + g.payload;
    WithWord(b, 16, TcpSum(remote, own, b))
  }

  /** The checksum test of tcp_in. */
  predicate SumOk(b: seq<byte>, src: Ip, own: Ip)
    requires |b| >= TCP_HDR
  {
    TcpSum(src, own, WithWord(b, 16, 0)) == Load16(b[16], b[17])
  }

  /** Steps 1 to 3 of tcp_in. */
  function Accept(b: seq<byte>, src: Ip, own: Ip): Option<Segment> {
    if |b| < TCP_HDR then None
    else if !SumOk(b, src, own) then None
    else Some(Read(b))
  }

  function Read(b: seq<byte>): Segment
    requires |b| >= TCP_HDR
  {
    Segment(Net16(b[0], b[1]), Net16(b[2], b[3]), Net32(b[4], b[5], b[6], b[7]), Net32(b[8], b[9], b[10], b[11]),
            b[13], Net16(b[14], b[15]), b[TCP_HDR..])
  }

  lemma HeaderFields(g: Segment)
    ensures var h := TcpHeader(g);
            && Net16(h[0], h[1]) == g.srcPort && Net16(h[2], h[3]) == g.dstPort
            && Net32(h[4], h[5], h[6], h[7]) == g.seqNo && Net32(h[8], h[9], h[10], h[11]) == g.ackNo
            && h[13] == g.flags && Net16(h[14], h[15]) == g.window
  {
    hide Big16, Big32, Net16, Net32;
    NetOfBig16(g.srcPort);
    NetOfBig16(g.dstPort);
    NetOfBig16(g.window);
    NetOfBig32(g.seqNo);
    NetOfBig32(g.ackNo);
  }

  /** A segment byte by byte, numbers most significant byte first: ports, sequence and acknowledgement number, a data
      offset of five words, flags, window, no urgent pointer, payload. The checksum field holds that of the
      pseudo-header and the segment with the field zeroed. */
  lemma SealedLayout(g: Segment, own: Ip, remote: Ip)
    ensures var b := Sealed(g, own, remote);
            && b[0..2] == Big16(g.srcPort) && b[2..4] == Big16(g.dstPort)
            && b[4..8] == Big32(g.seqNo) && b[8..12] == Big32(g.ackNo)
            && b[12] == 0x50 && b[13] == g.flags && b[14..16] == Big16(g.window)
            && b[18..20] == [0, 0] && b[20..] == g.payload
            && (|b| <= 65535 ==>
                  b[16..18] == Store16(Checksum(PseudoHeader(remote, own, 6, |b|) + (b[..16] + [0, 0] + b[18..]))))
  {
    hide TcpHeader, Checksum, PseudoHeader, Big16, Big32, Store16;
    HeaderLayout(g);
    var h := TcpHeader(g);
    var bare := h + g.payload;
    BareField(g);
    var b := Sealed(g, own, remote);
    assert b[..16] == h[..16] && b[18..20] == h[18..20];
    assert b[0..2] == b[..16][0..2] && b[2..4] == b[..16][2..4] && b[4..8] == b[..16][4..8]
           && b[8..12] == b[..16][8..12];
    assert b[..16] + [0, 0] + b[18..] == WithWord(bare, 16, 0) ==
           bare by { ZeroField(bare, TcpSum(remote, own, bare)); }
    if |b| <= 65535 {
      assert bare[..|b|] == bare;
    }
  }

  lemma ZeroField(bare: seq<byte>, c: u16)
    requires |bare| >= TCP_HDR
    ensures var b := WithWord(bare, 16, c); b[..16] + [0, 0] + b[18..] == WithWord(bare, 16, 0)
  {
  }

  lemma HeaderLayout(g: Segment)
    ensures var h := TcpHeader(g);
            && h[..16][0..2] == Big16(g.srcPort) && h[..16][2..4] == Big16(g.dstPort)
            && h[..16][4..8] == Big32(g.seqNo) && h[..16][8..12] == Big32(g.ackNo)
            && h[12] == 0x50 && h[13] == g.flags && h[14..16] == Big16(g.window) && h[18..20] == [0, 0]
  {
    hide Big32;
    var h := TcpHeader(g);
    assert h[..16] ==
           Big16(g.srcPort) + Big16(g.dstPort) + Big32(g.seqNo) + Big32(g.ackNo) + [0x50, g.flags] + Big16(g.window);
  }

  /** Sender and receiver add up the same words although they name the addresses in opposite order. */
  lemma SumSymmetric(a: Ip, b: Ip, s: seq<byte>)
    ensures TcpSum(a, b, s) == TcpSum(b, a, s)
  {
    var n := |s| % 0x1_0000;
    AddressesCommute(a, b, PROTO_TCP, n, s[..n]);
  }

  /** Every segment that tcp_send builds passes tcp_in at the peer and is read back as what was sent. The cut to
      16 bits is the same on both sides, so this holds for every length. */
  lemma SealedAccepted(g: Segment, own: Ip, remote: Ip)
    ensures Accept(Sealed(g, own, remote), own, remote) == Some(g)
  {
    hide TcpSum, TcpHeader, Net16, Net32, Load16, Store16;
    var h := TcpHeader(g);
    var bare := h + g.payload;
    var c := TcpSum(remote, own, bare);
    var b := Sealed(g, own, remote);
    BareField(g);
    assert b == WithWord(bare, 16, c);
    assert WithWord(b, 16, 0) == WithWord(bare, 16, 0) == bare;
    FieldStored(c);
    SumSymmetric(own, remote, bare);
    HeaderFields(g);
    assert forall k :: 0 <= k < 16 ==> b[k] == h[k];
    assert b[TCP_HDR..] == g.payload;
  }

  lemma FieldStored(c: u16)
    ensures Load16(Store16(c)[0], Store16(c)[1]) == c
  {
  }

  lemma BareField(g: Segment)
    ensures WithWord(TcpHeader(g) + g.payload, 16, 0) == TcpHeader(g) + g.payload
  {
    var b := TcpHeader(g) + g.payload;
    assert b[16] == 0 && b[17] == 0;
  }

  /** The segment behind its pseudo-header, as the checksum sees it. */
  function Summed(b: seq<byte>, src: Ip, own: Ip): seq<byte>
    requires |b| <= 65535
  {
    src + own + [0, 6, |b| / 256, |b| % 256] + b
  }

  /** What is accepted, from the received bytes: at least a header, and a sum of pseudo-header and segment that is a
      nonzero multiple of 65535, not only because the field adds 0xFFFF to one. */
  lemma AcceptIff(b: seq<byte>, src: Ip, own: Ip)
    requires |b| <= 65535
    ensures Accept(b, src, own).Some? <==>
            && |b| >= 20
            && var sum, rest := WordSum(Summed(b, src, own)), WordSum(Summed(b[..16] + [0, 0] + b[18..], src, own));
               sum > 0 && sum % 65535 == 0 && !(b[16] == 0xFF && b[17] == 0xFF && rest > 0 && rest % 65535 == 0)
  {
    hide WordSum, OnesComplement, Checksum, Read;
    if |b| >= 20 {
      var all, zeroed := Summed(b, src, own), b[..16] + [0, 0] + b[18..];
      assert all == PseudoHeader(src, own, PROTO_TCP, |b|) + b;
      assert WithWord(b, 16, 0) == zeroed && zeroed[..|b|] == zeroed;
      assert WithWord(all, SUM_AT, 0) == Summed(zeroed, src, own) == PseudoHeader(src, own, PROTO_TCP, |b|) + zeroed;
      assert all[SUM_AT] == b[16] && all[SUM_AT + 1] == b[17];
      CodeAcceptsIff(all, SUM_AT);
    }
  }

  /** What is read of an accepted segment, byte by byte. */
  lemma AcceptedFields(b: seq<byte>, src: Ip, own: Ip)
    requires Accept(b, src, own).Some?
    ensures |b| >= 20
    ensures var g := Accept(b, src, own).value;
            && g.srcPort == Net16(b[0], b[1]) && g.dstPort == Net16(b[2], b[3])
            && g.seqNo == Net32(b[4], b[5], b[6], b[7]) && g.ackNo == Net32(b[8], b[9], b[10], b[11])
            && g.flags == b[13] && g.window == Net16(b[14], b[15]) && g.payload == b[20..]
  {
    hide SumOk, Net16, Net32;
  }

  /** A segment that was sent is not accepted with one word changed to a value in another class modulo 65535. */
  lemma CorruptedRejected(g: Segment, own: Ip, remote: Ip, at: nat, v: u16)
    requires at % 2 == 0 && at + 2 <= TCP_HDR + |g.payload| <= 65535
    requires var b := Sealed(g, own, remote); v % 65535 != Load16(b[at], b[at + 1]) % 65535
    ensures Accept(WithWord(Sealed(g, own, remote), at, v), own, remote) == None
  {
    hide WordSum, Sealed, Accept, Load16, Store16;
    var b := Sealed(g, own, remote);
    var changed := WithWord(b, at, v);
    SealedAccepted(g, own, remote);
    AcceptIff(b, own, remote);
    AcceptIff(changed, own, remote);
    var all := Summed(b, own, remote);
    assert all[12 + at] == b[at] && all[13 + at] == b[at + 1];
    ChangedWord(all, 12 + at, v);
    assert WithWord(all, 12 + at, v) == Summed(changed, own, remote);
  }

  /** Up to 65535 bytes the accepted segments are those RFC 9293 accepts, except one with field 0xFFFF over a nonzero
      sum that already folds to 0xFFFF. */
  lemma AcceptVersusRfc(b: seq<byte>, src: Ip, own: Ip)
    requires TCP_HDR <= |b| <= 65535
    ensures var all := PseudoHeader(src, own, PROTO_TCP, |b|) + b;
            var rest := WordSum(WithWord(all, SUM_AT, 0));
            RfcAccepts(all) <==>
            SumOk(b, src, own) || (Load16(b[16], b[17]) == 0xFFFF && rest > 0 && OnesComplement(rest) == 0xFFFF)
  {
    hide WordSum, OnesComplement, PseudoHeader;
    var ps := PseudoHeader(src, own, PROTO_TCP, |b|);
    var all := ps + b;
    TestsAgree(all, SUM_AT);
    assert WithWord(all, SUM_AT, 0) == ps + WithWord(b, 16, 0);
    assert WithWord(b, 16, 0)[..|b|] == WithWord(b, 16, 0);
    assert all[SUM_AT] == b[16] && all[SUM_AT + 1] == b[17];
  }

  /** tcp_checksum writes the pseudo-header over the 12 bytes before the segment and puts them back: no byte and not the
      window is changed. */
  method TcpChecksum(buf: Buf, src: Ip, dst: Ip) returns (c: u16)
    requires buf.Valid() && PSEUDO <= buf.data
    modifies buf.payload
    ensures buf.payload[..] == old(buf.payload[..]) && buf.View() == old(buf.View())
    ensures c == TcpSum(src, dst, buf.View().bytes)
  {
    hide Checksum, Splice, PseudoHeader;
    ghost var m := buf.payload[..];
    var len := buf.len % 0x1_0000;
    var at := buf.data - PSEUDO;
    var pre := buf.payload[at..at + PSEUDO];
    assert pre == m[at..at + PSEUDO];
    var pseudo := PseudoHeader(src, dst, PROTO_TCP, len);
    buf.Store(at, pseudo);
    PseudoBefore(m, at, len, pseudo);
    ghost var w := buf.payload[..];
    assert buf.payload[at..at + len + PSEUDO] == w[at..at + len + PSEUDO];
    c := Checksum16(buf.payload, at, len + PSEUDO);
    buf.Store(at, pre);
    assert buf.payload[..] == m;
    assert buf.View().bytes == m[buf.data..buf.data + buf.len];
    SliceOf(m, buf.data, buf.len, 0, len);
  }

  lemma PseudoBefore(m: seq<byte>, at: nat, len: nat, pseudo: seq<byte>)
    requires |pseudo| == PSEUDO && at + PSEUDO + len <= |m|
    ensures var w := Splice(m, at, pseudo);
            && w[at..at + len + PSEUDO] == pseudo + m[at + PSEUDO..at + PSEUDO + len]
            && Splice(w, at, m[at..at + PSEUDO]) == m
  {
    SpliceIndex(m, at, pseudo);
    SpliceOver(m, at, pseudo, m[at..at + PSEUDO]);
    SpliceSame(m, at, m[at..at + PSEUDO]);
  }

  /** The header part of tcp_send: the segment around the payload in the window, ready for ip_out. */
  method Seal(buf: Buf, g: Segment, own: Ip, remote: Ip)
    requires buf.Valid() && PSEUDO + TCP_HDR <= buf.data && g.payload == buf.View().bytes
    modifies buf, buf.payload
    ensures buf.Valid()
    ensures buf.View() == Window(old(buf.data) - TCP_HDR, Sealed(g, own, remote))
    ensures buf.payload[..] == Splice(old(buf.payload[..]), buf.data, Sealed(g, own, remote)[..TCP_HDR])
  {
    hide Splice, TcpHeader, TcpSum, WithWord;
    ghost var m := buf.payload[..];
    var _ := buf.AddHeader(TCP_HDR);
    var header := TcpHeader(g);
    buf.Store(buf.data, header);
    HeaderInPlace(m, buf.data, header, g.payload, 0);
    assert buf.View().bytes == buf.payload[..][buf.data..buf.data + buf.len];
    var c := TcpChecksum(buf, remote, own);
    buf.Store(buf.data + 16, Store16(c));
    HeaderInPlace(m, buf.data, header, g.payload, c);
    assert buf.View().bytes == buf.payload[..][buf.data..buf.data + buf.len];
  }

  /** A header written before a payload, and its checksum field written later. */
  lemma HeaderInPlace(m: seq<byte>, at: nat, header: seq<byte>, payload: seq<byte>, c: u16)
    requires |header| == TCP_HDR && at + TCP_HDR + |payload| <= |m|
    requires m[at + TCP_HDR..at + TCP_HDR + |payload|] == payload
    ensures Splice(m, at, header)[at..at + TCP_HDR + |payload|] == header + payload
    ensures var w := Splice(Splice(m, at, header), at + 16, Store16(c));
            var b := WithWord(header + payload, 16, c);
            w[at..at + TCP_HDR + |payload|] == b && w == Splice(m, at, b[..TCP_HDR])
  {
    hide Splice, Store16;
    var sealed := WithWord(header, 16, c);
    SpliceThen(m, at, header, |payload|);
    SpliceInside(m, at, header, 16, Store16(c));
    SpliceThen(m, at, sealed, |payload|);
    assert WithWord(header + payload, 16, c) == sealed + payload;
    assert (sealed + payload)[..TCP_HDR] == sealed;
  }

  /** The checks at the top of tcp_in; a failed checksum leaves the field zeroed. */
  method Check(buf: Buf, src: Ip, own: Ip) returns (g: Option<Segment>)
    requires buf.Valid() && PSEUDO <= buf.data
    modifies buf.payload
    ensures g == Accept(old(buf.View()).bytes, src, own)
    ensures buf.payload[..] == if g.None? && buf.len >= TCP_HDR
                               then Splice(old(buf.payload[..]), buf.data + 16, Zeros(2)) else old(buf.payload[..])
  {
    hide Splice, TcpSum, WithWord, Swap16, Swap32, Load16, Load32, Net16, Net32;
    if buf.len < TCP_HDR { return None; }
    ghost var b := buf.View().bytes;
    var ok := SumMatches(buf, src, own);
    if !ok { return None; }
    assert buf.payload[buf.data..buf.data + buf.len] == buf.payload[..][buf.data..buf.data + buf.len] == b;
    var s := buf.payload[buf.data..buf.data + buf.len];
    SwappedLoad(s[0], s[1]);
    SwappedLoad(s[2], s[3]);
    SwappedLoad32(s[4], s[5], s[6], s[7]);
    SwappedLoad32(s[8], s[9], s[10], s[11]);
    SwappedLoad(s[14], s[15]);
    g := Some(Segment(Swap16(Load16(s[0], s[1])), Swap16(Load16(s[2], s[3])),
                      Swap32(Load32(s[4], s[5], s[6], s[7])), Swap32(Load32(s[8], s[9], s[10], s[11])),
                      s[13], Swap16(Load16(s[14], s[15])), s[TCP_HDR..]));
  }

  /** Step 2 of tcp_in. */
  method SumMatches(buf: Buf, src: Ip, own: Ip) returns (ok: bool)
    requires buf.Valid() && PSEUDO <= buf.data && buf.len >= TCP_HDR
    modifies buf.payload
    ensures var b := old(buf.View()).bytes; ok <==> SumOk(b, src, own)
    ensures buf.payload[..] == if ok then old(buf.payload[..])
                               else Splice(old(buf.payload[..]), buf.data + 16, Zeros(2))
  {
    hide Splice, TcpSum, WithWord;
    ghost var m, b := buf.payload[..], buf.View().bytes;
    var at := buf.data;
    assert b == m[at..at + buf.len];
    var expected := Load16(buf.payload[at + 16], buf.payload[at + 17]);
    buf.Store(at + 16, Zeros(2));
    FieldZeroed(m, at, |b|);
    assert buf.View().bytes == buf.payload[..][at..at + buf.len];
    var actual := TcpChecksum(buf, src, own);
    ok := actual == expected;
    if ok {
      buf.Store(at + 16, Store16(expected));
    }
  }

  lemma FieldZeroed(m: seq<byte>, at: nat, n: nat)
    requires TCP_HDR <= n && at + n <= |m|
    ensures Splice(m, at + 16, Zeros(2))[at..at + n] == WithWord(m[at..at + n], 16, 0)
    ensures Splice(Splice(m, at + 16, Zeros(2)), at + 16, Store16(Load16(m[at + 16], m[at + 17]))) == m
  {
    SpliceIndex(m, at + 16, Zeros(2));
    var w := Store16(Load16(m[at + 16], m[at + 17]));
    SpliceOver(m, at + 16, Zeros(2), w);
    assert m[at + 16..at + 18] == w;
    SpliceSame(m, at + 16, w);
  }
}
