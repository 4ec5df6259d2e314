/** What ip_out hands down and what it does to the memory it works in, as functions of what it found. */
module IpMemory {
  import opened Words
  import opened Buffer
  import opened Ethernet
  import opened ArpProtocol
  import opened Arp
  import opened Fragments

  const LINK_ROOM := ETH_HDR + IP_HDR

  /** The head and tail room a payload needs so that no window operation below fails. */
  predicate Room(w: Window) {
    LINK_ROOM <= w.data && w.data + |w.bytes| + MIN_PAYLOAD - IP_HDR < BUF_MAX_LEN
  }

  // ----- what is handed down

  /** The window of a fragment whose data starts at `start`, when it is handed to arp_out. */
  function FragmentWindow(r: Route, f: Piece, start: nat): Window
    requires start >= IP_HDR
  {
    Window(start - IP_HDR, Packet(r, f))
  }

  /** Readings of the clock, one for each packet handed to arp_out. */
  predicate Clock(times: seq<nat>) {
    forall k :: 0 <= k < |times| ==> times[k] != 0 && (k > 0 ==> times[k - 1] <= times[k])
  }

  lemma {:induction false} ClockOrder(times: seq<nat>, i: nat, k: nat)
    requires Clock(times) && i <= k < |times|
    ensures times[i] <= times[k]
  {
    if i < k {
      ClockOrder(times, i, k - 1);
    }
  }

  /** Handing the pieces to arp_out one after the other. */
  function Outs(dst: Ip, r: Route, ps: seq<Piece>, base: nat, times: seq<nat>): (run: seq<Input>)
    requires base >= IP_HDR && |ps| <= |times|
    ensures |run| == |ps|
    ensures forall i :: 0 <= i < |ps| ==> run[i] == Out(dst, FragmentWindow(r, ps[i], base + ps[i].offset), times[i])
  {
    seq(|ps|, i requires 0 <= i < |ps| => Out(dst, FragmentWindow(r, ps[i], base + ps[i].offset), times[i]))
  }

  /** The link layer after the pieces have been handed down. */
  function Handed(s: State, h: Host, dst: Ip, r: Route, ps: seq<Piece>, base: nat, times: seq<nat>): (s': State)
    requires s.Valid() && base >= IP_HDR && |ps| <= |times| && Clock(times)
    ensures s'.Valid()
  {
    Run(s, h, Outs(dst, r, ps, base, times))
  }

  lemma HandedNone(s: State, h: Host, dst: Ip, r: Route, base: nat, times: seq<nat>)
    requires s.Valid() && base >= IP_HDR && Clock(times)
    ensures Handed(s, h, dst, r, [], base, times) == s
  {
  }

  lemma HandOneMore(s: State, h: Host, dst: Ip, r: Route, ps: seq<Piece>, f: Piece, base: nat, times: seq<nat>)
    requires s.Valid() && base >= IP_HDR && |ps| < |times| && Clock(times)
    ensures Handed(s, h, dst, r, ps + [f], base, times) ==
            OutStep(Handed(s, h, dst, r, ps, base, times), h, dst, FragmentWindow(r, f, base + f.offset), times[|ps|])
  {
    hide OutStep, FragmentWindow;
    var run := Outs(dst, r, ps + [f], base, times);
    assert run[..|ps|] == Outs(dst, r, ps, base, times);
    assert run[|run| - 1] == Out(dst, FragmentWindow(r, f, base + f.offset), times[|ps|]);
  }

  /** For how many of the first `n` packets the address is known: while nothing arrives, an entry can only expire. */
  function Known(s: State, dst: Ip, times: seq<nat>, n: nat): (e: nat)
    requires n <= |times| && Clock(times)
    ensures e <= n && forall t :: 0 <= t < n ==> (s.Resolved(dst, times[t]) <==> t < e)
  {
    if n == 0 then 0
    else if s.Resolved(dst, times[n - 1]) then
      assert forall t :: 0 <= t < n ==> times[t] <= times[n - 1] by {
        forall t | 0 <= t < n
          ensures times[t] <= times[n - 1]
        {
          ClockOrder(times, t, n - 1);
        }
      }
      n
    else Known(s, dst, times, n - 1)
  }

  lemma KnownPrefix(s: State, dst: Ip, times: seq<nat>, n: nat, m: nat)
    requires m <= n <= |times| && Clock(times)
    ensures Known(s, dst, times, m) == if Known(s, dst, times, n) < m then Known(s, dst, times, n) else m
  {
    hide State.Resolved;
    var e, e' := Known(s, dst, times, n), Known(s, dst, times, m);
    if e < m {
      assert !s.Resolved(dst, times[e]);
    }
    if e' < m {
      assert !s.Resolved(dst, times[e']);
    }
  }

  /** A packet for an address that is not known finds no slot in arp_buf. */
  predicate Full(s: State, dst: Ip) {
    !s.Waiting(dst) && s.pending.size == s.pending.max
  }

  /** One arp_out, in each of its four cases. */
  lemma OutCases(s: State, h: Host, dst: Ip, p: Window, now: nat)
    requires s.Valid() && now != 0
    ensures var s' := OutStep(s, h, dst, p, now);
            && s'.table == s.table
            && (s.Resolved(dst, now) || Full(s, dst) ==> s'.pending == s.pending)
            && (!s.Resolved(dst, now) && !Full(s, dst) ==>
                  s'.Waiting(dst) && s'.QueueFor(dst) == s.QueueFor(dst) + [p])
            && s'.tx == s.tx + (if s.Resolved(dst, now) then [IpTx(dst, s.table.model[dst].value, p)]
                                else if s.Waiting(dst) then []
                                else [ArpTx(BROADCAST, RequestBytes(h.mac, h.ip, dst))])
  {
    hide RequestBytes;
  }

  /** The two tables after some pieces: nothing waits before the address expires, and then something does unless
      arp_buf is full. */
  lemma {:induction false} HandedTables(s: State, h: Host, dst: Ip, r: Route, ps: seq<Piece>, base: nat,
                                        times: seq<nat>)
    requires s.Valid() && base >= IP_HDR && |ps| <= |times| && Clock(times)
    ensures var s' := Handed(s, h, dst, r, ps, base, times);
            && s'.table == s.table
            && (if Known(s, dst, times, |ps|) == |ps| || Full(s, dst) then s'.pending == s.pending else s'.Waiting(dst))
    decreases |ps|
  {
    hide OutStep, FragmentWindow, Handed, Known, State.Resolved;
    if ps == [] {
      HandedNone(s, h, dst, r, base, times);
    } else {
      var n := |ps| - 1;
      var ps', f := ps[..n], ps[n];
      assert ps == ps' + [f];
      HandedTables(s, h, dst, r, ps', base, times);
      HandOneMore(s, h, dst, r, ps', f, base, times);
      var t := Handed(s, h, dst, r, ps', base, times);
      KnownPrefix(s, dst, times, |ps|, n);
      SameTable(s, t, dst, times[n]);
      OutCases(t, h, dst, FragmentWindow(r, f, base + f.offset), times[n]);
    }
  }

  lemma SameTable(s: State, t: State, dst: Ip, now: nat)
    requires t.table == s.table
    ensures t.Resolved(dst, now) == s.Resolved(dst, now)
  {
  }

  // ----- what is sent

  /** The number of packets a payload of `len` bytes makes. */
  function Packets(len: nat): (n: nat)
    ensures n > 0
  {
    if len <= CHUNK then 1 else Turns(len)
  }

  /** Packet `t` of the payload. */
  function PieceNo(p: seq<byte>, t: nat): Piece
    requires 1480 * t <= |p|
  {
    if |p| <= CHUNK then Piece(0, false, p) else PieceAt(p, 1480 * t)
  }

  lemma PiecesCount(p: seq<byte>)
    ensures |Pieces(p)| == Packets(|p|)
    ensures forall t :: 0 <= t < |Pieces(p)| ==> 1480 * t <= |p| && Pieces(p)[t] == PieceNo(p, t)
  {
    if |p| > CHUNK {
      CutShape(p, 0);
    }
  }

  lemma PacketStarts(len: nat, t: nat)
    requires t < Packets(len)
    ensures 1480 * t <= len && (CHUNK < len ==> 1480 * t < len)
    ensures t + 1 == Packets(len) <==> len <= 1480 * t + 1480
  {
    if CHUNK < len {
      TurnsEnd(len, t);
    }
  }

  function Clobbered(m: seq<byte>, h: Host, dst: Ip): (r: seq<byte>)
    requires |m| == BUF_MAX_LEN
    ensures |r| == |m|
  {
    Splice(m, ARP_FRAME_AT, RequestFrame(h, dst))
  }

  /** The bytes ip_out really sends: those held at entry, except that after fragment `asked` it sees what an ARP request
      left in the buffer. */
  function Effective(m: seq<byte>, d: nat, len: nat, asked: nat, h: Host, dst: Ip): (p: seq<byte>)
    requires |m| == BUF_MAX_LEN && d + len <= |m|
    ensures |p| == len
    ensures asked + 1 >= Packets(len) ==> p == m[d..d + len]
  {
    if asked + 1 < Packets(len) then
      PacketStarts(len, asked + 1);
      m[d..d + 1480 * (asked + 1)] + Clobbered(m, h, dst)[d + 1480 * (asked + 1)..d + len]
    else m[d..d + len]
  }

  lemma EffectiveByte(m: seq<byte>, d: nat, len: nat, asked: nat, h: Host, dst: Ip, i: nat)
    requires |m| == BUF_MAX_LEN && d + len <= |m| && i < len
    ensures Effective(m, d, len, asked, h, dst)[i] ==
            if i >= 1480 * (asked + 1) && ARP_FRAME_AT <= d + i < HALF then RequestFrame(h, dst)[d + i - ARP_FRAME_AT]
            else m[d + i]
  {
    hide RequestFrame, Splice;
    if asked + 1 < Packets(len) {
      PacketStarts(len, asked + 1);
      SpliceIndex(m, ARP_FRAME_AT, RequestFrame(h, dst));
    } else {
      PacketStarts(len, Packets(len) - 1);
    }
  }

  /** One call of ip_out: what it found, and where the packets go. `shared` says that the payload lies in txbuf. */
  datatype Job = Job(s: State, h: Host, m: seq<byte>, data: nat, len: nat, shared: bool, dst: Ip, route: Route,
                     times: seq<nat>) {
    predicate Valid() {
      && s.Valid() && Clock(times) && Packets(len) <= |times|
      && |m| == BUF_MAX_LEN && LINK_ROOM <= data && data + len <= |m|
    }

    /** The packets that find the address known. */
    function Direct(): (e: nat)
      requires Valid()
      ensures e <= Packets(len)
    {
      Known(s, dst, times, Packets(len))
    }

    /** The packets that send an ARP request out through this very memory: the first one to wait, and, if arp_buf has no
        room for it, all after it. */
    function First(): (n: nat)
      requires Valid()
      ensures n <= Packets(len)
    {
      if shared && !s.Waiting(dst) then Direct() else Packets(len)
    }

    predicate Asking(t: nat)
      requires Valid()
    {
      if Full(s, dst) then First() <= t < Packets(len) else First() == t < Packets(len)
    }

    function Payload(): (p: seq<byte>)
      requires Valid()
      ensures |p| == len
    {
      Effective(m, data, len, First(), h, dst)
    }

    function After(n: nat): (s': State)
      requires Valid() && n <= Packets(len)
      ensures s'.Valid()
    {
      PiecesCount(Payload());
      Handed(s, h, dst, route, Pieces(Payload())[..n], data, times)
    }

    /** The frame header of the packets sent at once. */
    function Link(): (f: seq<byte>)
      ensures |f| == ETH_HDR
    {
      EthHeader(if dst in s.table.model then s.table.model[dst].value else BROADCAST, h.mac, PROTO_IP)
    }
  }

  lemma AfterNone(j: Job)
    requires j.Valid()
    ensures j.After(0) == j.s
  {
    HandedNone(j.s, j.h, j.dst, j.route, j.data, j.times);
  }

  lemma AfterAll(j: Job)
    requires j.Valid()
    ensures |Pieces(j.Payload())| == Packets(j.len)
    ensures j.After(Packets(j.len)) == Handed(j.s, j.h, j.dst, j.route, Pieces(j.Payload()), j.data, j.times)
  {
    hide Handed, Packets, Pieces;
    PiecesCount(j.Payload());
    assert Pieces(j.Payload())[..Packets(j.len)] == Pieces(j.Payload());
  }

  /** Handing down the next piece of the specified payload. */
  lemma AfterNext(j: Job, t: nat)
    requires j.Valid() && t < Packets(j.len)
    ensures 1480 * t <= j.len
    ensures j.After(t + 1) ==
            OutStep(j.After(t), j.h, j.dst, FragmentWindow(j.route, PieceNo(j.Payload(), t), j.data + 1480 * t),
                    j.times[t])
  {
    hide OutStep, FragmentWindow, PieceNo;
    PacketStarts(j.len, t);
    var p := j.Payload();
    PiecesCount(p);
    assert Pieces(p)[..t + 1] == Pieces(p)[..t] + [PieceNo(p, t)];
    PieceOffset(p, t);
    HandOneMore(j.s, j.h, j.dst, j.route, Pieces(p)[..t], PieceNo(p, t), j.data, j.times);
  }

  lemma PieceOffset(p: seq<byte>, t: nat)
    requires t < Packets(|p|) && 1480 * t <= |p|
    ensures PieceNo(p, t).offset == 1480 * t
  {
  }

  /** What arp_out meets when packet `t` comes. */
  lemma AfterMeets(j: Job, t: nat)
    requires j.Valid() && t < Packets(j.len)
    ensures var s := j.After(t);
            && s.table == j.s.table
            && (s.Resolved(j.dst, j.times[t]) <==> t < j.Direct())
            && (j.Asking(t) <==> j.shared && !s.Resolved(j.dst, j.times[t]) && !s.Waiting(j.dst))
  {
    PiecesCount(j.Payload());
    var ps := Pieces(j.Payload())[..t];
    HandedTables(j.s, j.h, j.dst, j.route, ps, j.data, j.times);
    KnownPrefix(j.s, j.dst, j.times, Packets(j.len), t);
    SameTable(j.s, j.After(t), j.dst, j.times[t]);
  }

  // ----- what the memory holds afterwards

  /** The header of packet `t` of a payload of `len` bytes. */
  function HeaderNo(r: Route, len: nat, t: nat): (h: seq<byte>)
    requires 1480 * t <= len
    ensures |h| == IP_HDR
  {
    if CHUNK < len && 1480 * t + CHUNK <= len then Header(r, CHUNK, 1480 * t, true)
    else Header(r, len - 1480 * t, 1480 * t, false)
  }

  /** What becomes of a packet in arp_out. */
  datatype Way = Sent(link: seq<byte>) | Queued | Asked

  /** One byte of the memory after a packet whose data is at `d` was handed down: its header `hd` stands before it,
      before that the frame header if it was sent, and a request has gone over both if it went out through this
      memory. */
  function WroteByte(m: seq<byte>, d: nat, hd: seq<byte>, way: Way, request: seq<byte>, k: nat): byte
    requires |hd| == IP_HDR && |request| == 60 && LINK_ROOM <= d && (way.Sent? ==> |way.link| == ETH_HDR)
    requires k < |m|
  {
    if way.Asked? && ARP_FRAME_AT <= k < HALF then request[k - ARP_FRAME_AT]
    else if d - IP_HDR <= k < d then hd[k - (d - IP_HDR)]
    else if way.Sent? && d - LINK_ROOM <= k < d - IP_HDR then way.link[k - (d - LINK_ROOM)]
    else m[k]
  }

  /** Nothing else changes, except the padding behind a packet of fewer than 46 bytes. With `back`, the first 20 bytes
      of the data were put back afterwards. */
  ghost predicate Wrote(m: seq<byte>, m': seq<byte>, d: nat, n: nat, hd: seq<byte>, way: Way, request: seq<byte>,
                        back: bool)
    requires |hd| == IP_HDR && |request| == 60 && LINK_ROOM <= d && (way.Sent? ==> |way.link| == ETH_HDR)
    requires d + n <= |m|
  {
    && |m'| == |m|
    && forall k :: 0 <= k < |m| && (k < d + n || MIN_PAYLOAD - IP_HDR <= n) ==>
         m'[k] == if back && d <= k < d + IP_HDR then m[k] else WroteByte(m, d, hd, way, request, k)
  }

  lemma SentWrote(m: seq<byte>, d: nat, n: nat, hd: seq<byte>, link: seq<byte>, f: seq<byte>, request: seq<byte>)
    requires |m| == BUF_MAX_LEN && |hd| == IP_HDR && |link| == ETH_HDR && |request| == 60
    requires LINK_ROOM <= d && d - LINK_ROOM + |f| <= |m|
    requires LINK_ROOM + n <= |f| && f[..LINK_ROOM + n] == link + hd + m[d..d + n]
    requires MIN_PAYLOAD - IP_HDR <= n ==> |f| == LINK_ROOM + n
    ensures Wrote(m, Splice(Splice(m, d - IP_HDR, hd), d - LINK_ROOM, f), d, n, hd, Sent(link), request, false)
  {
    hide Splice;
    var from := d - LINK_ROOM;
    var m1 := Splice(m, d - IP_HDR, hd);
    var m' := Splice(m1, from, f);
    SpliceIndex(m, d - IP_HDR, hd);
    SpliceIndex(m1, from, f);
    forall k | 0 <= k < |m| && (k < d + n || MIN_PAYLOAD - IP_HDR <= n)
      ensures m'[k] == WroteByte(m, d, hd, Sent(link), request, k)
    {
      if from <= k < d + n {
        assert m'[k] == f[k - from] == f[..LINK_ROOM + n][k - from] == (link + hd + m[d..d + n])[k - from];
      }
    }
  }

  lemma QueuedWrote(m: seq<byte>, d: nat, n: nat, hd: seq<byte>, asked: bool, request: seq<byte>)
    requires |m| == BUF_MAX_LEN && |hd| == IP_HDR && |request| == 60 && LINK_ROOM <= d && d + n <= |m|
    ensures var m1 := Splice(m, d - IP_HDR, hd);
            Wrote(m, if asked then Splice(m1, ARP_FRAME_AT, request) else m1, d, n, hd,
                  if asked then Asked else Queued, request, false)
  {
    hide Splice;
    var m1 := Splice(m, d - IP_HDR, hd);
    SpliceIndex(m, d - IP_HDR, hd);
    SpliceIndex(m1, ARP_FRAME_AT, request);
  }

  lemma PutBackWrote(m: seq<byte>, w: seq<byte>, d: nat, n: nat, hd: seq<byte>, way: Way, request: seq<byte>)
    requires |hd| == IP_HDR && |request| == 60 && LINK_ROOM <= d && (way.Sent? ==> |way.link| == ETH_HDR)
    requires d + n <= |m| && IP_HDR <= n && Wrote(m, w, d, n, hd, way, request, false)
    ensures Wrote(m, Splice(w, d, m[d..d + IP_HDR]), d, n, hd, way, request, true)
  {
    hide Splice;
    SpliceIndex(w, d, m[d..d + IP_HDR]);
  }

  /** The loop puts the first 20 bytes of a full fragment back. */
  predicate Restores(len: nat, t: nat) {
    CHUNK < len && 1480 * t + CHUNK <= len
  }

  /** Byte `k` of the memory after `t` packets. */
  function ByteAt(j: Job, t: nat, k: nat): byte
    requires j.Valid() && t <= Packets(j.len) && k < |j.m|
  {
    if t == 0 then j.m[k]
    else
      PacketStarts(j.len, t - 1);
      var at := j.data + 1480 * (t - 1);
      if Restores(j.len, t - 1) && at <= k < at + IP_HDR then ByteAt(j, t - 1, k)
      else if j.Asking(t - 1) && ARP_FRAME_AT <= k < HALF then RequestFrame(j.h, j.dst)[k - ARP_FRAME_AT]
      else if at - IP_HDR <= k < at then HeaderNo(j.route, j.len, t - 1)[k - (at - IP_HDR)]
      else if t - 1 < j.Direct() && at - LINK_ROOM <= k < at - IP_HDR then j.Link()[k - (at - LINK_ROOM)]
      else ByteAt(j, t - 1, k)
  }

  /** The memory of the payload after `t` packets. */
  ghost predicate Holds(j: Job, m: seq<byte>, t: nat)
    requires j.Valid() && t <= Packets(j.len)
  {
    |m| == |j.m| && forall k :: j.data <= k < j.data + j.len ==> m[k] == ByteAt(j, t, k)
  }

  /** Bytes not sent yet are changed by the first request alone. */
  lemma {:induction false} UnsentByte(j: Job, t: nat, k: nat)
    requires j.Valid() && t <= Packets(j.len) && j.data + 1480 * t <= k < |j.m|
    ensures ByteAt(j, t, k) ==
            if j.First() < t && ARP_FRAME_AT <= k < HALF then RequestFrame(j.h, j.dst)[k - ARP_FRAME_AT] else j.m[k]
  {
    hide RequestFrame, HeaderNo, Known;
    if t > 0 {
      UnsentByte(j, t - 1, k);
    }
  }

  /** So the bytes about to be sent are the ones the specification wants sent. */
  lemma UnsentBytes(j: Job, m: seq<byte>, t: nat)
    requires j.Valid() && t < Packets(j.len) && Holds(j, m, t)
    ensures 1480 * t <= j.len
    ensures var n := if Restores(j.len, t) then CHUNK else j.len - 1480 * t;
            && PieceNo(j.Payload(), t) ==
                 Piece(1480 * t, Restores(j.len, t), m[j.data + 1480 * t..j.data + 1480 * t + n])
            && HeaderNo(j.route, j.len, t) == Header(j.route, n, 1480 * t, Restores(j.len, t))
  {
    hide Header, Holds, Effective;
    PacketStarts(j.len, t);
    var n := if Restores(j.len, t) then CHUNK else j.len - 1480 * t;
    var off, p := 1480 * t, j.Payload();
    UnsentSlice(j, m, t, off, n);
    assert p[off..] == p[off..j.len];
  }

  lemma UnsentSlice(j: Job, m: seq<byte>, t: nat, off: nat, n: nat)
    requires j.Valid() && t < Packets(j.len) && Holds(j, m, t)
    requires off == 1480 * t && off + n <= j.len && n <= CHUNK
    ensures m[j.data + off..j.data + off + n] == j.Payload()[off..off + n]
  {
    hide RequestFrame, ByteAt, Effective, Known;
    var p := j.Payload();
    forall i | off <= i < off + n
      ensures m[j.data + i] == p[i]
    {
      UnsentByte(j, t, j.data + i);
      EffectiveByte(j.m, j.data, j.len, j.First(), j.h, j.dst, i);
    }
  }

  /** What becomes of packet `t`. */
  function WayNo(j: Job, t: nat): (w: Way)
    requires j.Valid()
    ensures w.Sent? ==> |w.link| == ETH_HDR
  {
    if t < j.Direct() then Sent(j.Link()) else if j.Asking(t) then Asked else Queued
  }

  lemma TurnHolds(j: Job, m: seq<byte>, m': seq<byte>, t: nat, n: nat)
    requires j.Valid() && t < Packets(j.len) && Holds(j, m, t)
    requires 1480 * t <= j.len && n == if Restores(j.len, t) then CHUNK else j.len - 1480 * t
    requires Wrote(m, m', j.data + 1480 * t, n, HeaderNo(j.route, j.len, t), WayNo(j, t), RequestFrame(j.h, j.dst),
                   Restores(j.len, t))
    ensures Holds(j, m', t + 1)
  {
    hide RequestFrame, HeaderNo, Job.Link, Known;
    forall k | j.data <= k < j.data + j.len
      ensures m'[k] == ByteAt(j, t + 1, k)
    {
      assert m[k] == ByteAt(j, t, k);
    }
  }

  // ----- in closed form

  /** The fragment boundary next behind byte `k` of the payload. */
  function Boundary(j: Job, k: nat): (o: nat)
    requires j.data <= k
    ensures o > 0 && j.data + 1480 * (o - 1) <= k < j.data + 1480 * o
  {
    (k - j.data) / 1480 + 1
  }

  /** How many packets there have been, of `t`, up to the last request; 0 if there was none. */
  function Requested(j: Job, t: nat): nat
    requires j.Valid() && t <= Packets(j.len)
  {
    if j.First() >= t then 0 else if Full(j.s, j.dst) then t else j.First() + 1
  }

  /** Where the headers of a later packet went over the payload of the one before: 20 bytes before its start, 34 if it
      was sent at once. */
  predicate UnderHeaders(j: Job, t: nat, k: nat)
    requires j.Valid() && t <= Packets(j.len) && j.data <= k
  {
    var o := Boundary(j, k);
    o < t && j.data + 1480 * o - (if o < j.Direct() then LINK_ROOM else IP_HDR) <= k
  }

  function HeaderByte(j: Job, k: nat): byte
    requires j.Valid() && j.data <= k && UnderHeaders(j, Packets(j.len), k)
  {
    var o := Boundary(j, k);
    PacketStarts(j.len, o);
    (j.Link() + HeaderNo(j.route, j.len, o))[k - (j.data + 1480 * o - LINK_ROOM)]
  }

  /** Byte `k` of the payload after `t` packets: a header written after the last request; else the request, except where
      the 20 bytes put back belong to the one packet that sent it; else a header; else what was there. */
  function LeftByte(j: Job, t: nat, k: nat): byte
    requires j.Valid() && t <= Packets(j.len) && j.data <= k < j.data + j.len
  {
    var under, last := UnderHeaders(j, t, k), Requested(j, t);
    if under && Boundary(j, k) >= last then HeaderByte(j, k)
    else if last > 0 && ARP_FRAME_AT <= k < HALF && !PutBack(j, last, k) then
      RequestFrame(j.h, j.dst)[k - ARP_FRAME_AT]
    else if under then HeaderByte(j, k)
    else j.m[k]
  }

  predicate PutBack(j: Job, last: nat, k: nat)
    requires j.Valid()
  {
    last == j.First() + 1 && Restores(j.len, j.First())
        && j.data + 1480 * j.First() <= k < j.data + 1480 * j.First() + IP_HDR
  }

  lemma {:induction false} ByteAtIs(j: Job, t: nat, k: nat)
    requires j.Valid() && t <= Packets(j.len) && j.data <= k < j.data + j.len
    ensures ByteAt(j, t, k) == LeftByte(j, t, k)
  {
    hide RequestFrame, HeaderNo, Job.Link, Known;
    if t > 0 {
      ByteAtIs(j, t - 1, k);
      var o := Boundary(j, k);
      PacketStarts(j.len, t - 1);
    }
  }

  /** The payload already holds what the headers of packet `o` write over it. */
  ghost predicate HeldAt(j: Job, o: nat)
    requires j.Valid() && 0 < o < Packets(j.len)
  {
    PacketStarts(j.len, o);
    var at := j.data + 1480 * o;
    && j.m[at - IP_HDR..at] == HeaderNo(j.route, j.len, o)
    && (o < j.Direct() ==> j.m[at - LINK_ROOM..at - IP_HDR] == j.Link())
  }

  /** Without a request through this memory, the caller's payload comes back exactly when it is one packet, or holds
      those headers at every boundary already. */
  lemma ComesBackIff(j: Job, m: seq<byte>)
    requires j.Valid() && j.First() == Packets(j.len) && Holds(j, m, Packets(j.len))
    ensures m[j.data..j.data + j.len] == j.m[j.data..j.data + j.len] <==>
            forall o :: 0 < o < Packets(j.len) ==> HeldAt(j, o)
  {
    hide RequestFrame, HeaderNo, Job.Link, Known, ByteAt, HeldAt, LeftByte;
    var n, before, after := Packets(j.len), j.m[j.data..j.data + j.len], m[j.data..j.data + j.len];
    if after == before {
      forall o | 0 < o < n
        ensures HeldAt(j, o)
      {
        forall k | j.data <= k < j.data + j.len
          ensures LeftByte(j, n, k) == j.m[k]
        {
          ByteAtIs(j, n, k);
          assert after[k - j.data] == before[k - j.data];
        }
        HeldIf(j, o);
      }
    }
    if forall o :: 0 < o < n ==> HeldAt(j, o) {
      forall i | 0 <= i < j.len
        ensures after[i] == before[i]
      {
        ByteAtIs(j, n, j.data + i);
        UnchangedIf(j, j.data + i);
        assert after[i] == m[j.data + i] && before[i] == j.m[j.data + i];
      }
    }
  }

  lemma HeldIf(j: Job, o: nat)
    requires j.Valid() && j.First() == Packets(j.len) && 0 < o < Packets(j.len)
    requires forall k :: j.data <= k < j.data + j.len ==> LeftByte(j, Packets(j.len), k) == j.m[k]
    ensures HeldAt(j, o)
  {
    hide RequestFrame, HeaderNo, Job.Link, Known;
    PacketStarts(j.len, o);
    var at, n := j.data + 1480 * o, Packets(j.len);
    var link, hd := j.m[at - LINK_ROOM..at - IP_HDR], j.m[at - IP_HDR..at];
    forall i | 0 <= i < IP_HDR
      ensures hd[i] == HeaderNo(j.route, j.len, o)[i]
    {
      var k := at - IP_HDR + i;
      assert Boundary(j, k) == o;
      assert LeftByte(j, n, k) == j.m[k];
    }
    forall i | 0 <= i < ETH_HDR && o < j.Direct()
      ensures link[i] == j.Link()[i]
    {
      var k := at - LINK_ROOM + i;
      assert Boundary(j, k) == o;
      assert LeftByte(j, n, k) == j.m[k];
    }
  }

  lemma UnchangedIf(j: Job, k: nat)
    requires j.Valid() && j.First() == Packets(j.len) && j.data <= k < j.data + j.len
    requires forall o :: 0 < o < Packets(j.len) ==> HeldAt(j, o)
    ensures LeftByte(j, Packets(j.len), k) == j.m[k]
  {
    hide RequestFrame, HeaderNo, Job.Link, Known;
    var o, n := Boundary(j, k), Packets(j.len);
    if UnderHeaders(j, n, k) {
      var at := j.data + 1480 * o;
      assert HeldAt(j, o);
      if at - IP_HDR <= k {
        assert j.m[k] == j.m[at - IP_HDR..at][k - (at - IP_HDR)];
      } else {
        assert j.m[k] == j.m[at - LINK_ROOM..at - IP_HDR][k - (at - LINK_ROOM)];
      }
    }
  }

  /** It does not come back: every payload of more than one packet whose byte 1460 is not that of an IP version and
      header length, zeros for example. */
  lemma Changed(j: Job, m: seq<byte>)
    requires j.Valid() && j.First() == Packets(j.len) && Holds(j, m, Packets(j.len))
    requires CHUNK < j.len && j.m[j.data + 1460] != 0x45
    ensures m[j.data + 1460] == 0x45 && m[j.data..j.data + j.len] != j.m[j.data..j.data + j.len]
  {
    hide ByteAt, LeftByte, Known, Packets;
    var k := j.data + 1460;
    ByteAtIs(j, Packets(j.len), k);
    FirstBoundary(j);
    HeaderStarts(j.route, j.len, 1);
    assert m[j.data..j.data + j.len][1460] == m[k];
  }

  /** The header of packet 1 begins at byte 1460. */
  lemma FirstBoundary(j: Job)
    requires j.Valid() && j.First() == Packets(j.len) && CHUNK < j.len
    ensures 1480 <= j.len && LeftByte(j, Packets(j.len), j.data + 1460) == HeaderNo(j.route, j.len, 1)[0]
  {
    hide RequestFrame, Job.Link, Known, HeaderNo;
    assert Packets(j.len) > 1 by { PacketStarts(j.len, 0); }
    assert Boundary(j, j.data + 1460) == 1;
  }

  lemma HeaderStarts(r: Route, len: nat, t: nat)
    requires 1480 * t <= len
    ensures HeaderNo(r, len, t)[0] == 0x45
  {
    hide Header;
    HeaderFields(r, if Restores(len, t) then CHUNK else len - 1480 * t, 1480 * t, Restores(len, t));
  }
}
