/** The receiving half of src/ip.c, and the whole way of a payload from ip_out to the addressee's ip_in. */
module IpInput {
  import opened Words
  import opened InetChecksum
  import opened Buffer
  import opened Ethernet
  import opened SlotMap
  import opened ArpProtocol
  import opened Fragments
  import opened Arp
  import opened IpMemory

  datatype Ruling =
    | TooShort | HeaderCut | BadVersion | BadHeaderLength | TooLarge | NotMine | BadChecksum
    | Unreachable(proto: byte, src: Ip)
    | Up(proto: byte, src: Ip)

  /** The checks of ip_in in their order. The test of the flags word reads it unswapped, so the bit it looks at is bit 6
      of the offset's low byte; it only matters for packets above the MTU. */
  function Judge(b: seq<byte>, ip: Ip, known: set<byte>): Ruling {
    if |b| < IP_HDR then TooShort
    else if |b| < b[0] % 16 * 4 then HeaderCut
    else if b[0] / 16 != 4 then BadVersion
    else if b[0] % 16 < 5 then BadHeaderLength
    else if b[7] / 64 % 2 == 1 && |b| > MTU then TooLarge
    else if b[16..20] != ip then NotMine
    else if !CodeAccepts(b[..IP_HDR], 10) then BadChecksum
    else if b[9] in known then Up(b[9], b[12..16])
    else Unreachable(b[9], b[12..16])
  }

  // ----- what is passed up, and what is not

  /** The header checksum as ip_in tests it: the ones'-complement sum of the 20 bytes is all ones, and not only
      because the field adds 0xFFFF to such a sum. */
  predicate SumHolds(h: seq<byte>)
    requires |h| == 20
  {
    var rest := WordSum(h[..10] + [0, 0] + h[12..]);
    WordSum(h) > 0 && WordSum(h) % 65535 == 0 && !(h[10] == 0xFF && h[11] == 0xFF && rest > 0 && rest % 65535 == 0)
  }

  /** A version 4 header of at least five words that is there in full. */
  predicate HeaderThere(b: seq<byte>) {
    |b| >= 20 && |b| >= 4 * (b[0] % 16) && b[0] / 16 == 4 && b[0] % 16 >= 5
  }

  /** A packet is handled exactly if its header is there, the MTU test does not hit, it is addressed to this host, and
      the checksum holds. It is passed up if the protocol is known, and refused as unreachable otherwise. */
  lemma JudgeIff(b: seq<byte>, ip: Ip, known: set<byte>)
    ensures var handled :=
              HeaderThere(b) && !(b[7] / 64 % 2 == 1 && |b| > 1500) && b[16..20] == ip && SumHolds(b[..20]);
            && (Judge(b, ip, known).Up? <==> handled && b[9] in known)
            && (Judge(b, ip, known).Unreachable? <==> handled && b[9] !in known)
            && (handled ==> Judge(b, ip, known) in {Up(b[9], b[12..16]), Unreachable(b[9], b[12..16])})
  {
    hide WordSum, OnesComplement, Checksum;
    if |b| >= 20 {
      SumHoldsIff(b[..20]);
    }
  }

  lemma SumHoldsIff(h: seq<byte>)
    requires |h| == 20
    ensures CodeAccepts(h, 10) <==> SumHolds(h)
  {
    hide WordSum, OnesComplement, Checksum;
    CodeAcceptsIff(h, 10);
    assert WithWord(h, 10, 0) == h[..10] + [0, 0] + h[12..];
  }

  /** The other rulings: an ICMP answer goes out exactly for a packet above the MTU that passes the tests before, and
      the checksum field is lost exactly for one that fails only the checksum. */
  lemma RejectIff(b: seq<byte>, ip: Ip, known: set<byte>)
    ensures var large := |b| > 1500 && b[7] / 64 % 2 == 1;
            && (Judge(b, ip, known).TooLarge? <==> HeaderThere(b) && large)
            && (Judge(b, ip, known).NotMine? <==> HeaderThere(b) && !large && b[16..20] != ip)
            && (Judge(b, ip, known).BadChecksum? <==> HeaderThere(b) && !large && b[16..20] == ip && !SumHolds(b[..20]))
  {
    hide WordSum, OnesComplement, Checksum;
    if |b| >= 20 {
      SumHoldsIff(b[..20]);
    }
  }

  /** A packet of another host is never handled. */
  lemma OthersNotTaken(r: Route, f: Piece, padding: seq<byte>, mine: Ip, known: set<byte>)
    requires mine != r.dst
    ensures var ruling := Judge(Packet(r, f) + padding, mine, known); !ruling.Up? && !ruling.Unreachable?
  {
    hide Judge, Header, SumHolds;
    var h := Header(r, |f.data|, f.offset, f.more);
    HeaderFields(r, |f.data|, f.offset, f.more);
    var b := Packet(r, f) + padding;
    assert b[16..20] == h[16..20] == r.dst;
    JudgeIff(b, mine, known);
  }

  /** Neither is one with a header word changed on the way, to a value in another class modulo 65535. */
  lemma CorruptedNotTaken(r: Route, f: Piece, padding: seq<byte>, at: nat, v: u16, mine: Ip, known: set<byte>)
    requires at % 2 == 0 && at + 2 <= IP_HDR
    requires var h := Header(r, |f.data|, f.offset, f.more); v % 65535 != Load16(h[at], h[at + 1]) % 65535
    ensures var ruling := Judge(WithWord(Packet(r, f) + padding, at, v), mine, known);
            !ruling.Up? && !ruling.Unreachable?
  {
    hide Judge, Header, WordSum, RfcAccepts, Load16, Store16;
    var h := Header(r, |f.data|, f.offset, f.more);
    var b := WithWord(Packet(r, f) + padding, at, v);
    HeaderSummed(r, |f.data|, f.offset, f.more);
    RfcIsMultiple(h);
    ChangedWord(h, at, v);
    assert b[..20] == WithWord(h, at, v);
    JudgeIff(b, mine, known);
  }

  lemma HeaderSummed(r: Route, len: nat, offset: nat, more: bool)
    ensures RfcAccepts(Header(r, len, offset, more))
  {
    hide BareHeader, Checksum, WordSum;
    StoredChecksumAccepted(BareHeader(r, len, offset, more), 10);
    BareField(r, len, offset, more);
  }

  lemma BareField(r: Route, len: nat, offset: nat, more: bool)
    ensures var bare := BareHeader(r, len, offset, more); WithWord(bare, 10, 0) == bare
  {
  }

  /** A packet for an unknown protocol is handed to icmp_unreachable as it was sent, without the padding. */
  lemma RefusedWhole(r: Route, f: Piece, padding: seq<byte>, m: seq<byte>, d: nat)
    requires |f.data| <= CHUNK && d <= |m|
    ensures Reexposed(m, d, Trimmed(Packet(r, f) + padding)) == Window(d, Packet(r, f))
  {
    hide Header;
    HeaderFields(r, |f.data|, f.offset, f.more);
    var h := Header(r, |f.data|, f.offset, f.more);
    var b := Packet(r, f) + padding;
    assert b[2] == h[2] && b[3] == h[3];
    assert b[..|Packet(r, f)|] == Packet(r, f);
  }

  /** The bit that the test reads is one of the fragment's offset: it is set in every second stretch of 512 bytes. The
      real DF bit never is. The test drops nothing that ip_out sends, since no packet exceeds the MTU. */
  lemma TestedBit(r: Route, f: Piece, ip: Ip, known: set<byte>)
    requires f.offset < 0x1_0000
    ensures var b := Packet(r, f);
            && (Load16(b[6], b[7]) / 0x4000 % 2 == 1 <==> f.offset / 512 % 2 == 1)
            && b[6] / 64 % 2 == 0
            && (IP_HDR + |f.data| <= MTU ==> !Judge(b, ip, known).TooLarge?)
  {
    hide CodeAccepts, Header, Net16, Load16, FlagsWord;
    var h := Header(r, |f.data|, f.offset, f.more);
    HeaderFields(r, |f.data|, f.offset, f.more);
    FlagBytes(h[6], h[7], f.offset, f.more);
  }

  lemma FlagBytes(hi: byte, lo: byte, offset: nat, more: bool)
    requires offset < 0x1_0000 && Net16(hi, lo) == FlagsWord(offset, more)
    ensures Load16(hi, lo) / 0x4000 % 2 == 1 <==> offset / 512 % 2 == 1
    ensures hi / 64 % 2 == 0
  {
    hide Load16;
    var units := offset / 8;
    Halves(hi, lo, if more then 32 else 0, units);
    LowBits(units);
    TopBits(hi, lo);
    assert units / 64 == offset / 512;
  }

  lemma Halves(hi: byte, lo: byte, flag: nat, units: nat)
    requires flag in {0, 32} && units < 0x2000 && hi * 256 + lo == flag * 256 + units
    ensures lo == units % 256 && hi == flag + units / 256 < 64
  {
    var q, r := units / 256, units % 256;
    assert hi * 256 + lo == (flag + q) * 256 + r;
  }

  lemma LowBits(units: nat)
    ensures units % 256 / 64 % 2 == units / 64 % 2
  {
    var q, r := units / 256, units % 256;
    assert units == 256 * q + 64 * (r / 64) + r % 64;
    QuarterUp(q, r / 64, r % 64);
    EvenPart(q, r / 64);
  }

  lemma EvenPart(q: nat, a: nat)
    ensures (4 * q + a) % 2 == a % 2
  {
    assert 4 * q + a == 2 * (2 * q) + a;
  }

  lemma QuarterUp(q: nat, a: nat, b: nat)
    requires b < 64
    ensures (256 * q + 64 * a + b) / 64 == 4 * q + a
  {
    assert 256 * q + 64 * a + b == 64 * (4 * q + a) + b;
  }

  lemma TopBits(hi: byte, lo: byte)
    ensures Load16(hi, lo) / 0x4000 == lo / 64
  {
  }

  /** What is passed up: the padding after the total length goes, then the 20 header bytes. A total length beyond the
      window removes nothing at the end, one below 20 leaves the header on. */
  function Body(b: seq<byte>): seq<byte>
    requires |b| >= IP_HDR
  {
    if |Trimmed(b)| >= IP_HDR then Trimmed(b)[IP_HDR..] else Trimmed(b)
  }

  function Trimmed(b: seq<byte>): seq<byte>
    requires |b| >= IP_HDR
  {
    var total := Net16(b[2], b[3]);
    if total <= |b| then b[..total] else b
  }

  /** The window that icmp_unreachable gets, over memory `m`: the packet from its header on, without the padding. A
      packet whose total length is below 20 kept its header, and the window grows over what lies before it. */
  function Reexposed(m: seq<byte>, d: nat, t: seq<byte>): Window
    requires d <= |m|
  {
    if |t| < IP_HDR <= d then Window(d - IP_HDR, m[d - IP_HDR..d] + t) else Window(d, t)
  }

  /** ip_in up to the call of net_in. A failed checksum leaves the field zeroed; everything else is put back. */
  method Input(buf: Buf, ip: Ip, known: set<byte>) returns (r: Ruling)
    requires buf.Valid()
    modifies buf, buf.payload
    ensures buf.Valid() && r == Judge(old(buf.View()).bytes, ip, known)
    ensures r.Up? ==> buf.View().bytes == Body(old(buf.View()).bytes)
    ensures r.Unreachable? ==>
              buf.View() == Reexposed(old(buf.payload[..]), old(buf.data), Trimmed(old(buf.View()).bytes))
    ensures !r.Up? && !r.Unreachable? ==> buf.data == old(buf.data) && buf.len == old(buf.len)
    ensures buf.payload[..] == if r.BadChecksum? then Splice(old(buf.payload[..]), old(buf.data) + 10, Zeros(2))
                               else old(buf.payload[..])
  {
    hide WordSum, OnesComplement, Checksum, CodeAccepts, Load16, Trimmed, Reexposed;
    ghost var b := buf.View().bytes;
    if buf.len < IP_HDR { return TooShort; }
    var p := buf.payload[buf.data..buf.data + IP_HDR];
    assert p == b[..IP_HDR] && p[16..20] == b[16..20] && p[12..16] == b[12..16];
    if buf.len < p[0] % 16 * 4 { return HeaderCut; }
    if p[0] / 16 != 4 { return BadVersion; }
    if p[0] % 16 < 5 { return BadHeaderLength; }
    TopBits(p[6], p[7]);
    if Load16(p[6], p[7]) / 0x4000 % 2 == 1 && buf.len > MTU { return TooLarge; }
    if p[16..20] != ip { return NotMine; }
    var ok := VerifyHeader(buf);
    if !ok { return BadChecksum; }
    assert buf.View().bytes == buf.payload[..][buf.data..buf.data + buf.len] == b;
    PassUp(buf, p[9] in known);
    r := if p[9] in known then Up(p[9], p[12..16]) else Unreachable(p[9], p[12..16]);
  }

  /** The rest of ip_in: the packet's content, or for icmp_unreachable the packet again, without the padding. */
  method PassUp(buf: Buf, known: bool)
    requires buf.Valid() && buf.len >= IP_HDR
    modifies buf
    ensures buf.Valid()
    ensures known ==> buf.View().bytes == Body(old(buf.View()).bytes)
    ensures !known ==>
              buf.View() == Reexposed(old(buf.payload[..]), old(buf.data), Trimmed(old(buf.View()).bytes))
  {
    hide Swap16, Load16, Net16, Trimmed, Reexposed;
    ghost var m, d, b := buf.payload[..], buf.data, buf.View().bytes;
    assert b == m[d..d + |b|];
    TrimmedIs(b);
    SliceOf(m, d, |b|, 0, |Trimmed(b)|);
    SwappedLoad(b[2], b[3]);
    Strip(buf, Swap16(Load16(buf.payload[buf.data + 2], buf.payload[buf.data + 3])));
    if !known {
      Reexpose(buf, d, Trimmed(b));
    }
  }

  /** buf_add_header over what Strip removed, or over what lies before the packet. */
  method Reexpose(buf: Buf, ghost d: nat, ghost t: seq<byte>)
    requires buf.Valid() && d + |t| <= BUF_MAX_LEN && t == buf.payload[..][d..d + |t|]
    requires buf.View() == if |t| >= IP_HDR then Window(d, t).DropFront(IP_HDR) else Window(d, t)
    modifies buf
    ensures buf.Valid() && buf.View() == Reexposed(buf.payload[..], d, t)
  {
    assert |buf.View().bytes| == buf.len;
    var ok := buf.AddHeader(IP_HDR);
    ghost var m := buf.payload[..];
    assert buf.View() == Window(buf.data, m[buf.data..buf.data + buf.len]);
    if |t| < IP_HDR <= d {
      assert m[d - IP_HDR..d + |t|] == m[d - IP_HDR..d] + m[d..d + |t|];
    }
  }

  lemma TrimmedIs(b: seq<byte>)
    requires |b| >= IP_HDR
    ensures |Trimmed(b)| <= |b| && Trimmed(b) == b[..|Trimmed(b)|]
  {
  }

  /** Subtraction of two sizes in 64 bits. */
  function Minus64(len: nat, total: nat): nat {
    (len - total) % 0x1_0000_0000_0000_0000
  }

  lemma Minus64Wraps(len: nat, total: nat)
    requires len < 0x1_0000_0000 && total < 0x1_0000_0000
    ensures total <= len ==> Minus64(len, total) == len - total
    ensures total > len ==> Minus64(len, total) > len
  {
    if total > len {
      assert Minus64(len, total) == len - total + 0x1_0000_0000_0000_0000;
    }
  }

  /** Remove padding and header; `buf->len - total_len` is computed in 64 bits, and the return codes are ignored. */
  method Strip(buf: Buf, total: u16)
    requires buf.Valid() && buf.len >= IP_HDR
    requires total == Net16(buf.View().bytes[2], buf.View().bytes[3])
    modifies buf
    ensures buf.Valid()
    ensures var t := Trimmed(old(buf.View()).bytes);
            buf.View() == if |t| >= IP_HDR then Window(old(buf.data), t).DropFront(IP_HDR) else Window(old(buf.data), t)
  {
    hide Net16, Minus64;
    var padding := Minus64(buf.len, total);
    Minus64Wraps(buf.len, total);
    var _ := buf.RemovePadding(padding);
    var _ := buf.RemoveHeader(IP_HDR);
  }

  /** Zero the checksum field, recompute, compare; put the field back on success. */
  method VerifyHeader(buf: Buf) returns (ok: bool)
    requires buf.Valid() && buf.len >= IP_HDR
    modifies buf.payload
    ensures ok == CodeAccepts(old(buf.View()).bytes[..IP_HDR], 10)
    ensures buf.payload[..] == if ok then old(buf.payload[..])
                               else Splice(old(buf.payload[..]), buf.data + 10, Zeros(2))
  {
    hide WordSum, OnesComplement, Checksum, Splice, Store16, WithWord;
    var at := buf.data;
    ghost var m := buf.payload[..];
    ghost var h := m[at..at + IP_HDR];
    assert buf.View().bytes[..IP_HDR] == h && h[10] == m[at + 10] && h[11] == m[at + 11];
    var expected := Load16(buf.payload[at + 10], buf.payload[at + 11]);
    buf.Store(at + 10, Zeros(2));
    ZeroedHeader(m, at);
    assert buf.payload[at..at + IP_HDR] == buf.payload[..][at..at + IP_HDR];
    var actual := Checksum16(buf.payload, at, IP_HDR);
    ok := expected == actual;
    if ok {
      RestoreHeader(m, at);
      buf.Store(at + 10, Store16(expected));
    }
  }

  lemma ZeroedHeader(m: seq<byte>, at: nat)
    requires at + IP_HDR <= |m|
    ensures Splice(m, at + 10, Zeros(2))[at..at + IP_HDR] == WithWord(m[at..at + IP_HDR], 10, 0)
  {
    SpliceIndex(m, at + 10, Zeros(2));
  }

  lemma RestoreHeader(m: seq<byte>, at: nat)
    requires at + IP_HDR <= |m|
    ensures Splice(Splice(m, at + 10, Zeros(2)), at + 10, Store16(Load16(m[at + 10], m[at + 11]))) == m
  {
    var w := Store16(Load16(m[at + 10], m[at + 11]));
    SpliceOver(m, at + 10, Zeros(2), w);
    assert m[at + 10..at + 12] == w;
    SpliceSame(m, at + 10, w);
  }

  // ----- from ip_out to the addressee

  /** A fragment framed for its addressee is taken by it, and only its data, route and place come out: the padding to
      46 bytes is removed again. */
  lemma LinkRoundTrip(r: Route, f: Piece, dst: Mac, src: Mac, known: set<byte>)
    requires |f.data| <= CHUNK && dst != BROADCAST && r.proto in known
    ensures var frame := Frame(dst, src, PROTO_IP, Packet(r, f));
            var b := frame[ETH_HDR..];
            && Classify(frame[..ETH_HDR], dst) == Deliver(PROTO_IP, src)
            && Judge(b, r.dst, known) == Up(r.proto, r.src)
            && Body(b) == f.data
            && ReadRoute(b) == r && ReadPiece(b) == Encoded(f)
  {
    hide WordSum, OnesComplement, Checksum, BareHeader, ReadPiece, ReadRoute, Frame, Judge, Body;
    var packet := Packet(r, f);
    FrameDelivered(dst, src, PROTO_IP, packet, dst);
    var padding := Pad(packet)[|packet|..];
    assert Pad(packet) == packet + padding;
    PacketReads(r, f, padding);
    JudgePacket(r, f, padding, known);
  }

  lemma JudgePacket(r: Route, f: Piece, padding: seq<byte>, known: set<byte>)
    requires |f.data| <= CHUNK && r.proto in known && IP_HDR + |f.data| + |padding| <= MTU
    ensures var b := Packet(r, f) + padding;
            Judge(b, r.dst, known) == Up(r.proto, r.src) && Body(b) == f.data
  {
    hide WordSum, OnesComplement, Checksum, Header, Judge, Body, WithWord, Net16, FlagsWord;
    HeaderFields(r, |f.data|, f.offset, f.more);
    JudgeParts(Header(r, |f.data|, f.offset, f.more), f.data, padding, r.dst, known);
  }

  lemma JudgeParts(h: seq<byte>, data: seq<byte>, padding: seq<byte>, ip: Ip, known: set<byte>)
    requires |h| == IP_HDR && IP_HDR + |data| + |padding| <= MTU
    requires h[0] == 0x45 && h[16..20] == ip && CodeAccepts(h, 10) && h[9] in known
    requires Net16(h[2], h[3]) == IP_HDR + |data|
    ensures var b := h + data + padding;
            Judge(b, ip, known) == Up(h[9], h[12..16]) && Body(b) == data
  {
    hide CodeAccepts, Net16;
    var b := h + data + padding;
    assert b[..IP_HDR] == h;
    assert b[12..16] == h[12..16] && b[16..20] == h[16..20];
    assert b[..IP_HDR + |data|][IP_HDR..] == data;
  }

  /** The pieces a receiver reads out of the frames, header and padding gone. */
  function PiecesOf(frames: seq<seq<byte>>): (ps: seq<Piece>)
    requires forall k :: 0 <= k < |frames| ==> |frames[k]| >= LINK_ROOM
    ensures |ps| == |frames|
  {
    seq(|frames|, k requires 0 <= k < |frames| => ReadPiece(frames[k][ETH_HDR..]))
  }

  /** The frames of the packets of `p`: the first `e` go to `first`, the others to `second`. */
  function FramesOf(r: Route, p: seq<byte>, e: nat, first: Mac, second: Mac, src: Mac): (frames: seq<seq<byte>>)
    ensures |frames| == |Pieces(p)|
    ensures forall k :: 0 <= k < |frames| ==> |frames[k]| >= LINK_ROOM
  {
    seq(|Pieces(p)|, k requires 0 <= k < |Pieces(p)| =>
      Frame(if k < e then first else second, src, PROTO_IP, Packet(r, Pieces(p)[k])))
  }

  /** The addressee takes `frame` and passes up the data of `f`, with protocol and source. */
  predicate Taken(frame: seq<byte>, f: Piece, r: Route, mac: Mac, from: Mac, known: set<byte>)
    requires |frame| >= LINK_ROOM
  {
    && Classify(frame[..ETH_HDR], mac) == Deliver(PROTO_IP, from)
    && Judge(frame[ETH_HDR..], r.dst, known) == Up(r.proto, r.src)
    && Body(frame[ETH_HDR..]) == f.data
  }

  /** Every frame of `p` is taken, and what is read out of them are the pieces as far as their offsets survive. */
  lemma FramesTaken(r: Route, p: seq<byte>, e: nat, first: Mac, second: Mac, from: Mac, known: set<byte>)
    requires (e > 0 ==> first != BROADCAST) && (e < |Pieces(p)| ==> second != BROADCAST) && r.proto in known
    ensures var frames := FramesOf(r, p, e, first, second, from);
            && (forall k :: 0 <= k < |frames| ==>
                  Taken(frames[k], Pieces(p)[k], r, if k < e then first else second, from, known))
            && PiecesOf(frames) == EncodedAll(Pieces(p))
  {
    hide Frame, Packet, Judge, Body, Classify, ReadPiece, ReadRoute, Pieces, Encoded;
    PiecesTile(p);
    var frames := FramesOf(r, p, e, first, second, from);
    forall k | 0 <= k < |frames|
      ensures Taken(frames[k], Pieces(p)[k], r, if k < e then first else second, from, known)
      ensures ReadPiece(frames[k][ETH_HDR..]) == Encoded(Pieces(p)[k])
    {
      assert TileAt(Pieces(p), p, k);
      LinkRoundTrip(r, Pieces(p)[k], if k < e then first else second, from, known);
    }
  }

  /** The IP header in every frame of a payload, byte by byte: version and length, no service class, one id for all,
      no DF bit, 64 hops, protocol and addresses. */
  lemma FrameHeaders(r: Route, p: seq<byte>, e: nat, first: Mac, second: Mac, src: Mac, k: nat)
    requires k < |Pieces(p)|
    ensures var f := FramesOf(r, p, e, first, second, src)[k];
            && f[12..14] == [8, 0] && f[14] == 0x45 && f[15] == 0 && f[18..20] == Big16(r.id) && f[20] < 64
            && f[22] == 64 && f[23] == r.proto && f[26..30] == r.src && f[30..34] == r.dst
  {
    hide Frame, Header, Pieces, Big16;
    var piece := Pieces(p)[k];
    var packet := Packet(r, piece);
    var h := Header(r, |piece.data|, piece.offset, piece.more);
    HeaderBytes(r, |piece.data|, piece.offset, piece.more);
    FrameLayout(if k < e then first else second, src, PROTO_IP, packet);
    var f := Frame(if k < e then first else second, src, PROTO_IP, packet);
    assert f[14..14 + |packet|][..20] == h;
    forall i | 0 <= i < 20
      ensures f[14 + i] == h[i]
    {
      assert f[14 + i] == f[14..14 + |packet|][i];
    }
    assert f[18..20] == h[4..6] && f[26..30] == h[12..16] && f[30..34] == h[16..20];
  }

  lemma HeaderBytes(r: Route, len: nat, offset: nat, more: bool)
    ensures var h := Header(r, len, offset, more);
            && h[0] == 0x45 && h[1] == 0 && h[4..6] == Big16(r.id) && h[6] < 64 && h[8] == 64 && h[9] == r.proto
            && h[12..16] == r.src && h[16..20] == r.dst
  {
    hide Checksum, Big16;
    HeaderFields(r, len, offset, more);
    var bare := BareHeader(r, len, offset, more);
    assert Header(r, len, offset, more)[..10] == bare[..10] && bare[..10][4..6] == Big16(r.id);
    assert Header(r, len, offset, more)[4..6] == Header(r, len, offset, more)[..10][4..6];
  }

  /** The windows of the fragments, as they are sent or wait for the address. */
  function Windows(r: Route, ps: seq<Piece>, base: nat): (ws: seq<Window>)
    requires base >= IP_HDR
    ensures |ws| == |ps| && forall k :: 0 <= k < |ps| ==> ws[k] == FragmentWindow(r, ps[k], base + ps[k].offset)
  {
    seq(|ps|, k requires 0 <= k < |ps| => FragmentWindow(r, ps[k], base + ps[k].offset))
  }

  /** The address that the table holds for `dst`. */
  function Entry(s: State, dst: Ip): Mac {
    if dst in s.table.model then s.table.model[dst].value else BROADCAST
  }

  /** The request of the first packet to wait, if nothing waited before. */
  function Requests(s: State, h: Host, dst: Ip, waits: bool): seq<Tx> {
    if waits && !s.Waiting(dst) then [ArpTx(BROADCAST, RequestBytes(h.mac, h.ip, dst))] else []
  }

  /** Of the packets `ws` the first `e` have gone out; the others queue up behind what already waited, and the first
      of them has asked for the address. */
  ghost predicate Went(s: State, s': State, h: Host, dst: Ip, ws: seq<Window>, e: nat)
    requires e <= |ws|
  {
    && s'.tx == s.tx + Burst(dst, Entry(s, dst), ws[..e]) + Requests(s, h, dst, e < |ws|)
    && s'.QueueFor(dst) == s.QueueFor(dst) + ws[e..]
    && (e < |ws| ==> s'.Waiting(dst)) && (e == |ws| ==> s'.pending == s.pending)
  }

  /** One more packet. */
  lemma WentMore(s: State, t: State, h: Host, dst: Ip, ws: seq<Window>, w: Window, e: nat, now: nat)
    requires s.Valid() && t.Valid() && now != 0 && t.table == s.table && e <= |ws| + 1
    requires Went(s, t, h, dst, ws, if e <= |ws| then e else |ws|)
    requires t.Resolved(dst, now) <==> |ws| < e
    requires e <= |ws| ==> !Full(s, dst)
    ensures Went(s, OutStep(t, h, dst, w, now), h, dst, ws + [w], e)
  {
    hide OutStep, RequestBytes, Burst;
    OutCases(t, h, dst, w, now);
    if |ws| < e {
      ResolvedEntry(t, dst, now);
      BurstMore(dst, Entry(s, dst), ws, w);
      assert (ws + [w])[..e] == ws + [w] && ws[..|ws|] == ws;
    } else {
      assert (ws + [w])[..e] == ws[..e] && (ws + [w])[e..] == ws[e..] + [w];
      assert s.QueueFor(dst) + ws[e..] + [w] == s.QueueFor(dst) + (ws[e..] + [w]);
    }
  }

  /** All packets of a payload. */
  lemma {:induction false} HandedPackets(s: State, h: Host, dst: Ip, r: Route, ps: seq<Piece>, base: nat,
                                         times: seq<nat>)
    requires s.Valid() && base >= IP_HDR && |ps| <= |times| && Clock(times)
    requires Known(s, dst, times, |ps|) < |ps| ==> !Full(s, dst)
    ensures Went(s, Handed(s, h, dst, r, ps, base, times), h, dst, Windows(r, ps, base), Known(s, dst, times, |ps|))
    decreases |ps|
  {
    hide FragmentWindow, RequestBytes, Handed, OutStep, Known, State.Resolved, Full, Went, Windows;
    if ps == [] {
      HandedNone(s, h, dst, r, base, times);
      WentNone(s, h, dst);
      assert Windows(r, ps, base) == [];
    } else {
      var n := |ps| - 1;
      var ps', f := ps[..n], ps[n];
      assert ps == ps' + [f];
      KnownPrefix(s, dst, times, |ps|, n);
      HandedPackets(s, h, dst, r, ps', base, times);
      HandOneMore(s, h, dst, r, ps', f, base, times);
      HandedTables(s, h, dst, r, ps', base, times);
      var t, w := Handed(s, h, dst, r, ps', base, times), FragmentWindow(r, f, base + f.offset);
      SameTable(s, t, dst, times[n]);
      WindowsMore(r, ps', f, base);
      WentMore(s, t, h, dst, Windows(r, ps', base), w, Known(s, dst, times, |ps|), times[n]);
    }
  }

  lemma WindowsMore(r: Route, ps: seq<Piece>, f: Piece, base: nat)
    requires base >= IP_HDR
    ensures Windows(r, ps + [f], base) == Windows(r, ps, base) + [FragmentWindow(r, f, base + f.offset)]
  {
    hide FragmentWindow;
  }

  lemma WentNone(s: State, h: Host, dst: Ip)
    ensures Went(s, s, h, dst, [], 0)
  {
  }

  lemma ResolvedEntry(s: State, dst: Ip, now: nat)
    requires s.Resolved(dst, now)
    ensures dst in s.table.model && s.table.model[dst].value == Entry(s, dst)
  {
  }

  lemma BurstMore(dst: Ip, mac: Mac, q: seq<Window>, w: Window)
    ensures Burst(dst, mac, q + [w]) == Burst(dst, mac, q) + [IpTx(dst, mac, w)]
  {
  }

  /** The reply sends all that waits, in order. */
  lemma ReplyFlushes(s: State, h: Host, dst: Ip, mac: Mac, now: nat)
    requires s.Valid() && s.Waiting(dst)
    ensures InStep(s, h, Reply(dst, mac), now).tx == s.tx + Burst(dst, mac, s.QueueFor(dst))
  {
  }

  /** Some payload byte that is sent after the request of packet `asked` has gone out, and that the request has
      changed. */
  ghost predicate Spoilt(m: seq<byte>, d: nat, len: nat, asked: nat, h: Host, dst: Ip)
    requires |m| == BUF_MAX_LEN && d + len <= |m|
  {
    exists k :: 0 <= k < 60 && d + 1480 * (asked + 1) <= HALF - 60 + k < d + len
        && m[HALF - 60 + k] != RequestFrame(h, dst)[k]
  }

  /** A call of ip_out whose packets all find room: in arp_buf, if its destination has to be asked for. */
  predicate Deliverable(j: Job, reply: Mac, known: set<byte>) {
    && j.Valid() && j.route.dst == j.dst && j.route.proto in known
    && (j.Direct() > 0 ==> Entry(j.s, j.dst) != BROADCAST)
    && (j.Direct() < Packets(j.len) ==> !Full(j.s, j.dst) && reply != BROADCAST)
  }

  /** The frames of the call, when `reply` answers for those that have to wait. */
  function JobFrames(j: Job, reply: Mac): (frames: seq<seq<byte>>)
    requires j.Valid()
    ensures forall k :: 0 <= k < |frames| ==> |frames[k]| >= LINK_ROOM
  {
    FramesOf(j.route, j.Payload(), j.Direct(), Entry(j.s, j.dst), reply, j.h.mac)
  }

  /** What goes over the wire: the frames of the packets that find the address known, then a request if one is needed,
      and, when the reply comes, the frames of all others, behind those of packets that waited before. */
  lemma OnTheWire(j: Job, reply: Mac, later: nat, known: set<byte>)
    requires Deliverable(j, reply, known)
    ensures var n, e, frames := Packets(j.len), j.Direct(), JobFrames(j, reply);
            var s1 := j.After(n);
            var s2 := InStep(s1, j.h, Reply(j.dst, reply), later);
            var first := |s1.tx| + |j.s.QueueFor(j.dst)|;
            && |frames| == n && |s1.tx| == |j.s.tx| + e + |Requests(j.s, j.h, j.dst, e < n)|
            && s1.tx[..|j.s.tx|] == j.s.tx && s1.tx[|j.s.tx| + e..] == Requests(j.s, j.h, j.dst, e < n)
            && (forall k :: 0 <= k < e ==> FrameOf(s1.tx[|j.s.tx| + k], j.h.mac) == frames[k])
            && (e < n ==> |s2.tx| == first + n - e && s2.tx[..|s1.tx|] == s1.tx)
            && (forall k :: e <= k < n ==> FrameOf(s2.tx[first + k - e], j.h.mac) == frames[k])
  {
    hide Frame, FrameOf, Packet, Pieces, InStep, Handed, Windows, Requests, Job.Payload, Known, Packets, Full;
    hide JobFrames;
    hide Job.After, Went, Burst;
    var n, e := Packets(j.len), j.Direct();
    AfterWent(j, reply, known);
    var s1, ws := j.After(n), JobWindows(j);
    WentTx(j.s, s1, j.h, j.dst, ws, e);
    DirectFrames(j, reply);
    if e < n {
      ReplyFlushes(s1, j.h, j.dst, reply, later);
      WaitingFrames(j, reply, s1.tx, j.s.QueueFor(j.dst));
    }
  }

  /** The windows of the call's packets. */
  function JobWindows(j: Job): (ws: seq<Window>)
    requires j.Valid()
    ensures |ws| == Packets(j.len)
  {
    PiecesCount(j.Payload());
    Windows(j.route, Pieces(j.Payload()), j.data)
  }

  lemma AfterWent(j: Job, reply: Mac, known: set<byte>)
    requires Deliverable(j, reply, known)
    ensures Went(j.s, j.After(Packets(j.len)), j.h, j.dst, JobWindows(j), j.Direct())
    ensures |JobFrames(j, reply)| == Packets(j.len)
  {
    hide Handed, Windows, Packets, Pieces, Known, Full, Went, Job.After, Job.Payload, Frame, Packet;
    AfterAll(j);
    HandedPackets(j.s, j.h, j.dst, j.route, Pieces(j.Payload()), j.data, j.times);
  }

  lemma WentTx(s: State, s': State, h: Host, dst: Ip, ws: seq<Window>, e: nat)
    requires e <= |ws| && Went(s, s', h, dst, ws, e)
    ensures s'.tx == s.tx + Burst(dst, Entry(s, dst), ws[..e]) + Requests(s, h, dst, e < |ws|)
    ensures |s'.tx| == |s.tx| + e + |Requests(s, h, dst, e < |ws|)| && s'.tx[..|s.tx|] == s.tx
    ensures s'.tx[|s.tx|..|s.tx| + e] == Burst(dst, Entry(s, dst), ws[..e])
    ensures s'.tx[|s.tx| + e..] == Requests(s, h, dst, e < |ws|)
    ensures s'.QueueFor(dst) == s.QueueFor(dst) + ws[e..] && (e < |ws| ==> s'.Waiting(dst))
  {
    hide Requests;
  }

  lemma DirectFrames(j: Job, reply: Mac)
    requires j.Valid()
    ensures |JobFrames(j, reply)| == Packets(j.len)
    ensures var b := Burst(j.dst, Entry(j.s, j.dst), JobWindows(j)[..j.Direct()]);
            forall k :: 0 <= k < j.Direct() ==> FrameOf(b[k], j.h.mac) == JobFrames(j, reply)[k]
  {
    hide Frame, FrameOf, Packet, Pieces, Burst, Known, Windows, Packets, Job.Payload;
    var ws, ps := JobWindows(j), Pieces(j.Payload());
    PiecesCount(j.Payload());
    forall k | 0 <= k < j.Direct()
      ensures FrameOf(Burst(j.dst, Entry(j.s, j.dst), ws[..j.Direct()])[k], j.h.mac) == JobFrames(j, reply)[k]
    {
      BurstFrame(j.dst, Entry(j.s, j.dst), ws[..j.Direct()], k, j.h.mac);
      WindowPacket(j.route, ps, j.data, k);
    }
  }

  lemma WaitingFrames(j: Job, reply: Mac, tx: seq<Tx>, q: seq<Window>)
    requires j.Valid()
    ensures |JobFrames(j, reply)| == Packets(j.len)
    ensures var e := j.Direct();
            var s2 := tx + Burst(j.dst, reply, q + JobWindows(j)[e..]);
            && |s2| == |tx| + |q| + Packets(j.len) - e
            && forall k :: e <= k < Packets(j.len) ==>
                 FrameOf(s2[|tx| + |q| + k - e], j.h.mac) == JobFrames(j, reply)[k]
  {
    hide Frame, FrameOf, Packet, Pieces, Burst, Known, Windows, Packets, Job.Payload;
    var ws, ps, e := JobWindows(j), Pieces(j.Payload()), j.Direct();
    PiecesCount(j.Payload());
    forall k | e <= k < Packets(j.len)
      ensures FrameOf(Burst(j.dst, reply, q + ws[e..])[|q| + k - e], j.h.mac) == JobFrames(j, reply)[k]
    {
      BurstFrame(j.dst, reply, q + ws[e..], |q| + k - e, j.h.mac);
      WindowPacket(j.route, ps, j.data, k);
    }
  }

  lemma BurstFrame(dst: Ip, mac: Mac, q: seq<Window>, k: nat, from: Mac)
    requires k < |q|
    ensures FrameOf(Burst(dst, mac, q)[k], from) == Frame(mac, from, PROTO_IP, q[k].bytes)
  {
    hide Frame;
  }

  lemma WindowPacket(r: Route, ps: seq<Piece>, base: nat, k: nat)
    requires base >= IP_HDR && k < |ps|
    ensures Windows(r, ps, base)[k].bytes == Packet(r, ps[k])
  {
    hide Packet;
  }

  /** End to end: each of these frames is accepted by the addressee's link and IP checks, and a receiver that
      reassembles by offset, in any order and with repetitions, has the bytes held at entry exactly when their length
      survives fragmentation and no request has spoilt any of them. */
  lemma EndToEnd(j: Job, reply: Mac, known: set<byte>, got: seq<Piece>)
    requires Deliverable(j, reply, known) && Arrival(got, PiecesOf(JobFrames(j, reply)))
    ensures var frames, ps := JobFrames(j, reply), Pieces(j.Payload());
            && |frames| == |ps|
            && (forall k :: 0 <= k < |frames| ==>
                  Taken(frames[k], ps[k], j.route, if k < j.Direct() then Entry(j.s, j.dst) else reply, j.h.mac, known))
            && (Reassemble(got) == Some(j.m[j.data..j.data + j.len]) <==>
                Survives(j.len) && !Spoilt(j.m, j.data, j.len, j.First(), j.h, j.dst))
  {
    hide Taken, Pieces, PiecesOf, Arrival, Reassemble, Survives, Effective, Known, Packets, EncodedAll, Spoilt;
    hide FramesOf, Full;
    var p := j.Payload();
    PiecesCount(p);
    FramesTaken(j.route, p, j.Direct(), Entry(j.s, j.dst), reply, j.h.mac, known);
    ReassemblyIff(p, got);
    EffectiveIff(j.m, j.data, j.len, j.First(), j.h, j.dst);
  }

  lemma AllArrive(ps: seq<Piece>)
    ensures Arrival(ps, ps)
  {
  }

  /** It happens: a payload at the end of the lower half of txbuf, as udp_send places it, that has at least 60 bytes
      left to send when its destination has to be asked for; 1540 bytes or more if that is so from the start. */
  lemma SpoiltPayload(j: Job, reply: Mac, known: set<byte>)
    requires Deliverable(j, reply, known) && j.shared && !j.s.Waiting(j.dst)
    requires j.data + j.len == HALF && 1480 * (j.Direct() + 1) + 60 <= j.len && j.m[HALF - 60] != 255
    ensures Reassemble(PiecesOf(JobFrames(j, reply))) != Some(j.m[j.data..HALF])
  {
    hide Reassemble, PiecesOf, JobFrames, Known, Full, Packets, RequestBytes, Arrival;
    PacketsBeyond(j.len, j.Direct());
    assert RequestFrame(j.h, j.dst)[0] == 255;
    assert Spoilt(j.m, j.data, j.len, j.First(), j.h, j.dst) by {
      assert j.data + 1480 * (j.First() + 1) <= HALF - 60 + 0 < HALF;
    }
    AllArrive(PiecesOf(JobFrames(j, reply)));
    EndToEnd(j, reply, known, PiecesOf(JobFrames(j, reply)));
  }

  lemma PacketsBeyond(len: nat, e: nat)
    requires 1480 * (e + 1) < len
    ensures e + 1 < Packets(len)
  {
  }

  /** The bytes sent differ from those held at entry exactly when the request of packet `asked` overwrites some later
      payload byte with another value. */
  lemma EffectiveIff(m: seq<byte>, d: nat, len: nat, asked: nat, h: Host, dst: Ip)
    requires |m| == BUF_MAX_LEN && d + len <= |m|
    ensures Effective(m, d, len, asked, h, dst) != m[d..d + len] <==> Spoilt(m, d, len, asked, h, dst)
  {
    hide RequestFrame, Effective;
    var f, w := RequestFrame(h, dst), m[d..d + len];
    var e := Effective(m, d, len, asked, h, dst);
    if k :| 0 <= k < 60 && d + 1480 * (asked + 1) <= HALF - 60 + k < d + len && m[HALF - 60 + k] != f[k] {
      var i := HALF - 60 + k - d;
      EffectiveByte(m, d, len, asked, h, dst, i);
      assert e[i] == f[k] && w[i] == m[d + i];
    }
    if e != w {
      var i :| 0 <= i < len && e[i] != w[i];
      EffectiveByte(m, d, len, asked, h, dst, i);
      var k := d + i - (HALF - 60);
      assert w[i] == m[d + i] && 0 <= k < 60 && m[HALF - 60 + k] != f[k];
    }
  }
}
