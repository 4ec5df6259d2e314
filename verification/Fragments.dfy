/** How ip_out cuts a payload, what each header says, and what a receiver reassembling by offset
    (section 3.2 of RFC 791) gets back. The receiver is specification only: the stack has none. */
module Fragments {
  import opened Words
  import opened InetChecksum
  import opened Ethernet
  import opened SlotMap

  const IP_HDR := 20
  const CHUNK := 1480  // MTU - IP_HDR; written out where it multiplies or divides

  datatype Piece = Piece(offset: nat, more: bool, data: seq<byte>)

  // ----- cutting

  /** The loop of ip_out from `off` on: full chunks carry MF=1, a nonempty rest carries MF=0. */
  function Cut(p: seq<byte>, off: nat): seq<Piece>
    decreases |p| - off
  {
    if off + CHUNK <= |p| then [Piece(off, true, p[off..off + CHUNK])] + Cut(p, off + CHUNK)
    else if off < |p| then [Piece(off, false, p[off..])]
    else []
  }

  function Pieces(p: seq<byte>): seq<Piece> {
    if |p| <= CHUNK then [Piece(0, false, p)] else Cut(p, 0)
  }

  /** The datagram has a last fragment. */
  predicate HasLast(n: nat) {
    n <= CHUNK || n % 1480 != 0
  }

  /** The piece that starts at offset `o`. */
  function PieceAt(p: seq<byte>, o: nat): Piece
    requires o <= |p|
  {
    if o + CHUNK <= |p| then Piece(o, true, p[o..o + CHUNK]) else Piece(o, false, p[o..])
  }

  ghost predicate PartOf(f: Piece, p: seq<byte>) {
    f.offset + |f.data| <= |p| && f.data == p[f.offset..f.offset + |f.data|]
  }

  /** How many pieces of 1480 bytes, the last perhaps shorter, make `n`. */
  function Turns(n: nat): nat {
    (n + 1479) / 1480
  }

  lemma TurnsLess(n: nat)
    ensures n >= 1480 ==> Turns(n) == 1 + Turns(n - 1480)
    ensures 0 < n < 1480 ==> Turns(n) == 1
    ensures n == 0 ==> Turns(n) == 0
  {
  }

  lemma CutShape(p: seq<byte>, off: nat)
    requires off <= |p|
    ensures |Cut(p, off)| == Turns(|p| - off)
    ensures forall k :: 0 <= k < |Cut(p, off)| ==>
                          off + 1480 * k < |p| && Cut(p, off)[k] == PieceAt(p, off + 1480 * k)
  {
    CutCount(p, off);
    forall k | 0 <= k < |Cut(p, off)|
      ensures off + 1480 * k < |p| && Cut(p, off)[k] == PieceAt(p, off + 1480 * k)
    {
      CutAt(p, off, k);
    }
  }

  lemma {:induction false} CutCount(p: seq<byte>, off: nat)
    requires off <= |p|
    ensures |Cut(p, off)| == Turns(|p| - off)
    decreases |p| - off
  {
    hide Turns;
    TurnsLess(|p| - off);
    if off + CHUNK <= |p| {
      CutCount(p, off + CHUNK);
    }
  }

  lemma {:induction false} CutAt(p: seq<byte>, off: nat, k: nat)
    requires off <= |p| && k < |Cut(p, off)|
    ensures off + 1480 * k < |p| && Cut(p, off)[k] == PieceAt(p, off + 1480 * k)
    decreases |p| - off
  {
    if off + CHUNK <= |p| && k > 0 {
      CutAt(p, off + CHUNK, k - 1);
    }
  }

  /** The rest after `turns` full chunks is empty exactly when there is no last fragment. */
  lemma RestIff(len: nat, turns: nat)
    requires CHUNK < len && 1480 * turns <= len < 1480 * turns + CHUNK
    ensures len == 1480 * turns <==> !HasLast(len)
    ensures turns > 0
  {
  }

  /** Piece `i` continues where the one before it ended, is never empty unless the payload is, starts at a multiple of
      8, fits one packet, and carries MF=1 unless it is a true last one. */
  ghost predicate TileAt(ps: seq<Piece>, p: seq<byte>, i: nat)
    requires i < |ps|
  {
    && PartOf(ps[i], p) && |ps[i].data| + IP_HDR <= MTU && (ps[i].data == [] ==> p == [])
    && ps[i].offset == 1480 * i && ps[i].offset % 8 == 0
    && ps[i].offset + |ps[i].data| == (if i + 1 < |ps| then ps[i + 1].offset else |p|)
    && (ps[i].more <==> i + 1 < |ps| || !HasLast(|p|))
  }

  lemma CutTileAt(p: seq<byte>, i: nat)
    requires |p| > CHUNK && i < |Cut(p, 0)|
    ensures TileAt(Cut(p, 0), p, i)
  {
    hide Turns, HasLast, Cut;
    CutShape(p, 0);
    var ps := Cut(p, 0);
    assert ps[i] == PieceAt(p, 1480 * i);
    Eighths(i);
    TurnsEnd(|p|, i);
    if i + 1 < |ps| {
      assert ps[i + 1] == PieceAt(p, 1480 * (i + 1));
    } else {
      RestIff(|p|, if |p| < 1480 * i + 1480 then i else i + 1);
    }
  }

  lemma Eighths(i: nat)
    ensures 1480 * i % 8 == 0
  {
    assert 1480 * i == 8 * (185 * i);
  }

  lemma TurnsEnd(n: nat, i: nat)
    requires i < Turns(n)
    ensures 1480 * i < n && (i + 1 == Turns(n) <==> n <= 1480 * i + 1480)
  {
  }

  /** The fragments partition [0, L) in order, at multiples of 8, in packets of at most 1500 bytes; all but the last
      have MF=1, and the last has MF=0 exactly when L is at most 1480 or no multiple of 1480. */
  lemma PiecesTile(p: seq<byte>)
    ensures Pieces(p) != [] && forall i :: 0 <= i < |Pieces(p)| ==> TileAt(Pieces(p), p, i)
  {
    if |p| <= CHUNK {
      assert TileAt(Pieces(p), p, 0);
    } else {
      CutShape(p, 0);
      forall i | 0 <= i < |Pieces(p)|
        ensures TileAt(Pieces(p), p, i)
      {
        CutTileAt(p, i);
      }
    }
  }

  // ----- headers

  datatype Route = Route(src: Ip, dst: Ip, proto: byte, id: u16)

  /** The flags word: MF is bit 13; the offset is first cut to 16 bits by the parameter type. */
  function FlagsWord(offset: nat, more: bool): u16 {
    (if more then 0x2000 else 0) + offset % 0x1_0000 / 8
  }

  /** The 20 header bytes with the checksum field still zero; every field is in network order. */
  function BareHeader(r: Route, len: nat, offset: nat, more: bool): (h: seq<byte>)
    ensures |h| == IP_HDR
  {
    [0x45, 0] + Big16((IP_HDR + len) % 0x1_0000) + Big16(r.id)
    + Big16(FlagsWord(offset, more)) + [64, r.proto] + Big16(0) + r.src + r.dst
  }

  function Header(r: Route, len: nat, offset: nat, more: bool): (h: seq<byte>)
    ensures |h| == IP_HDR
  {
    var bare := BareHeader(r, len, offset, more);
    WithWord(bare, 10, Checksum(bare))
  }

  function Packet(r: Route, f: Piece): (b: seq<byte>)
    ensures |b| == IP_HDR + |f.data|
  {
    Header(r, |f.data|, f.offset, f.more) + f.data
  }

  /** The header fields as a receiver reads them; the data ends where the total length says. */
  function ReadPiece(b: seq<byte>): Piece
    requires |b| >= IP_HDR
  {
    var total := Net16(b[2], b[3]);
    var w := Net16(b[6], b[7]);
    Piece(w % 0x2000 * 8, w / 0x2000 % 2 == 1, if IP_HDR <= total <= |b| then b[IP_HDR..total] else [])
  }

  function ReadRoute(b: seq<byte>): Route
    requires |b| >= IP_HDR
  {
    Route(b[12..16], b[16..20], b[9], Net16(b[4], b[5]))
  }

  /** What survives the 16-bit parameter and the 13-bit field. */
  function Encoded(f: Piece): Piece {
    f.(offset := f.offset % 0x1_0000 / 8 * 8)
  }

  lemma HeaderFields(r: Route, len: nat, offset: nat, more: bool)
    ensures var h := Header(r, len, offset, more);
            && h[0] == 0x45 && h[1] == 0 && h[6] < 64 && h[8] == 64
            && Net16(h[2], h[3]) == (IP_HDR + len) % 0x1_0000
            && Net16(h[4], h[5]) == r.id
            && Net16(h[6], h[7]) == FlagsWord(offset, more)
            && h[9] == r.proto && h[12..16] == r.src && h[16..20] == r.dst
            && Load16(h[10], h[11]) == Checksum(WithWord(h, 10, 0))
  {
    var bare := BareHeader(r, len, offset, more);
    var h := Header(r, len, offset, more);
    NetOfBig16((IP_HDR + len) % 0x1_0000);
    NetOfBig16(r.id);
    NetOfBig16(FlagsWord(offset, more));
    assert h[..10] == bare[..10] && h[12..] == bare[12..];
    assert bare[12..16] == r.src && bare[16..20] == r.dst;
    assert WithWord(h, 10, 0) == bare;
  }

  lemma FlagsWordReads(offset: nat, more: bool)
    ensures FlagsWord(offset, more) % 0x2000 * 8 == offset % 0x1_0000 / 8 * 8
    ensures FlagsWord(offset, more) / 0x2000 % 2 == 1 <==> more
  {
    var o := offset % 0x1_0000 / 8;
    assert 0 <= o < 0x2000;
  }

  /** A receiver reads back route and fragment; with the padding of short frames after it. */
  lemma PacketReads(r: Route, f: Piece, padding: seq<byte>)
    requires |f.data| <= CHUNK
    ensures var b := Packet(r, f) + padding;
            ReadRoute(b) == r && ReadPiece(b) == Encoded(f)
  {
    hide Net16, FlagsWord, Header, Checksum, WithWord;
    HeaderFields(r, |f.data|, f.offset, f.more);
    var h := Header(r, |f.data|, f.offset, f.more);
    FlagsWordReads(f.offset, f.more);
    ReadsHeader(h, f.data, padding);
  }

  /** Only the header and the announced data matter. */
  lemma ReadsHeader(h: seq<byte>, data: seq<byte>, padding: seq<byte>)
    requires |h| == IP_HDR && Net16(h[2], h[3]) == IP_HDR + |data|
    ensures var b := h + data + padding;
            ReadRoute(b) == ReadRoute(h)
            && ReadPiece(b) == Piece(ReadPiece(h).offset, ReadPiece(h).more, data)
  {
    hide Net16;
    var b := h + data + padding;
    assert b[12..16] == h[12..16] && b[16..20] == h[16..20];
    assert b[IP_HDR..IP_HDR + |data|] == data;
  }

  // ----- reassembly

  predicate Covers(f: Piece, i: nat) {
    f.offset <= i < f.offset + |f.data|
  }

  /** The data buffer after the pieces have arrived in this order. */
  function Fill(ps: seq<Piece>): map<nat, byte> {
    if ps == [] then map[]
    else
      var f := ps[|ps| - 1];
      Fill(ps[..|ps| - 1])
      + map i: nat {:trigger Covers(f, i)} | f.offset <= i < f.offset + |f.data| && Covers(f, i) :: f.data[i - f.offset]
  }

  /** The total data length, known once a piece with MF=0 has arrived. */
  function Total(ps: seq<Piece>): Option<nat> {
    if ps == [] then None
    else
      var f := ps[|ps| - 1];
      if f.more then Total(ps[..|ps| - 1]) else Some(f.offset + |f.data|)
  }

  function Reassemble(ps: seq<Piece>): Option<seq<byte>> {
    match Total(ps)
    case None => None
    case Some(n) =>
      var m := Fill(ps);
      if forall i :: 0 <= i < n ==> i in m then Some(seq(n, i requires 0 <= i < n && i in m => m[i])) else None
  }

  lemma {:induction false} FillFaithful(ps: seq<Piece>, p: seq<byte>)
    requires forall k :: 0 <= k < |ps| ==> PartOf(ps[k], p)
    ensures forall i <- Fill(ps) :: i < |p| && Fill(ps)[i] == p[i]
    ensures forall k, i: nat :: 0 <= k < |ps| && Covers(ps[k], i) ==> i in Fill(ps)
  {
    if ps != [] {
      var f := ps[|ps| - 1];
      FillFaithful(ps[..|ps| - 1], p);
      assert PartOf(f, p);
      assert forall i: nat :: Covers(f, i) ==> f.data[i - f.offset] == p[i];
    }
  }

  /** All pieces with MF=0 end at `n`, and there is one exactly when `some`. */
  lemma {:induction false} TotalIs(ps: seq<Piece>, n: nat, some: bool)
    requires forall k :: 0 <= k < |ps| && !ps[k].more ==> ps[k].offset + |ps[k].data| == n
    requires some <==> exists k :: 0 <= k < |ps| && !ps[k].more
    ensures Total(ps) == if some then Some(n) else None
  {
    if ps != [] && ps[|ps| - 1].more {
      var ps' := ps[..|ps| - 1];
      assert (exists k :: 0 <= k < |ps| && !ps[k].more) ==> exists k :: 0 <= k < |ps'| && !ps'[k].more by {
        if k :| 0 <= k < |ps| && !ps[k].more {
          assert !ps'[k].more;
        }
      }
      TotalIs(ps', n, some);
    }
  }

  function EncodedAll(ps: seq<Piece>): (r: seq<Piece>)
    ensures |r| == |ps| && forall k :: 0 <= k < |ps| ==> r[k] == Encoded(ps[k])
  {
    seq(|ps|, k requires 0 <= k < |ps| => Encoded(ps[k]))
  }

  /** The payloads that survive: a last fragment exists and every offset is below 65536. */
  predicate Survives(n: nat) {
    HasLast(n) && n <= 66600
  }

  /** The pieces arrive in any order, any of them any number of times. */
  ghost predicate Arrival(got: seq<Piece>, sent: seq<Piece>) {
    && (forall k :: 0 <= k < |got| ==> got[k] in sent)
    && (forall k :: 0 <= k < |sent| ==> sent[k] in got)
  }

  /** Every byte of `p` lies in some piece. */
  lemma PiecesCover(p: seq<byte>, i: nat) returns (k: nat)
    requires i < |p|
    ensures k < |Pieces(p)| && Covers(Pieces(p)[k], i)
  {
    k := 0;
    if |p| > CHUNK {
      CutShape(p, 0);
      k := i / 1480;
      assert Pieces(p)[k] == PieceAt(p, 1480 * k);
    }
  }

  /** When the length survives every offset does; past 66600 the last one does not. */
  lemma EncodingSurvives(p: seq<byte>)
    ensures var ps := Pieces(p); var last := ps[|ps| - 1];
            && (HasLast(|p|) && |p| > 66600 ==> Encoded(last).offset + |last.data| != |p|)
            && (Survives(|p|) ==> EncodedAll(ps) == ps)
  {
    PiecesTile(p);
    var ps := Pieces(p);
    assert TileAt(ps, p, |ps| - 1);
    if Survives(|p|) {
      forall k | 0 <= k < |ps|
        ensures Encoded(ps[k]) == ps[k]
      {
        assert TileAt(ps, p, k);
        assert k <= 44;
      }
    }
  }

  /** Reassembly yields the payload from every arrival of the fragments exactly when the length survives: at most one
      packet, or no multiple of 1480 and short enough for the offset field. All lengths IPv4 allows are short enough. */
  lemma ReassemblyIff(p: seq<byte>, got: seq<Piece>)
    requires Arrival(got, EncodedAll(Pieces(p)))
    ensures Reassemble(got) == Some(p) <==> Survives(|p|)
    ensures !Survives(|p|) ==> Reassemble(got) == None || |Reassemble(got).value| != |p|
  {
    var ps := Pieces(p);
    PiecesTile(p);
    EncodingSurvives(p);
    var last := ps[|ps| - 1];
    forall i | 0 <= i < |ps|
      ensures ps[i].more <==> i + 1 < |ps| || !HasLast(|p|)
    {
      assert TileAt(ps, p, i);
    }
    assert TileAt(ps, p, |ps| - 1);
    TotalOfArrival(ps, got, HasLast(|p|));
    if Survives(|p|) {
      ReassemblySucceeds(p, got);
    }
  }

  /** Only the last piece sent can carry MF=0, so the receiver's total is where that piece claims to end. */
  lemma TotalOfArrival(ps: seq<Piece>, got: seq<Piece>, some: bool)
    requires ps != [] && Arrival(got, EncodedAll(ps))
    requires forall i :: 0 <= i < |ps| ==> (ps[i].more <==> i + 1 < |ps| || !some)
    ensures var last := Encoded(ps[|ps| - 1]);
            Total(got) == if some then Some(last.offset + |last.data|) else None
  {
    var last := Encoded(ps[|ps| - 1]);
    var sent := EncodedAll(ps);
    forall k | 0 <= k < |got| && !got[k].more
      ensures got[k] == last && some
    {
      assert got[k] in sent;
      var j :| 0 <= j < |sent| && sent[j] == got[k];
      assert !ps[j].more;
    }
    if some {
      assert sent[|ps| - 1] in got;
      var k :| 0 <= k < |got| && got[k] == last;
      assert !got[k].more;
    }
    TotalIs(got, last.offset + |last.data|, some);
  }

  lemma ReassemblySucceeds(p: seq<byte>, got: seq<Piece>)
    requires Arrival(got, Pieces(p)) && Total(got) == Some(|p|)
    ensures Reassemble(got) == Some(p)
  {
    var ps := Pieces(p);
    PiecesTile(p);
    forall k | 0 <= k < |got|
        ensures PartOf(got[k], p)
    {
      assert got[k] in ps;
      var j :| 0 <= j < |ps| && ps[j] == got[k];
      assert TileAt(ps, p, j);
    }
    FillFaithful(got, p);
    forall i | 0 <= i < |p|
      ensures i in Fill(got)
    {
      var j := PiecesCover(p, i);
      assert ps[j] in got;
      var k :| 0 <= k < |got| && got[k] == ps[j];
      assert Covers(got[k], i);
    }
    var m := Fill(got);
    assert seq(|p|, i requires 0 <= i < |p| && i in m => m[i]) == p;
  }
}
