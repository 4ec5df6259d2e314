/** src/ip.c: fragmentation in place over the headroom buffer. */
module IpOutput {
  import opened Words
  import opened InetChecksum
  import opened Buffer
  import opened Ethernet
  import opened ArpProtocol
  import opened Arp
  import opened Fragments
  import opened IpMemory

  /** What becomes of a packet that meets the link layer in state `s`. */
  function WayOf(s: State, h: Host, dst: Ip, now: nat, shared: bool): (w: Way)
    ensures w.Sent? ==> |w.link| == ETH_HDR
  {
    if s.Resolved(dst, now) then Sent(EthHeader(s.table.model[dst].value, h.mac, PROTO_IP))
    else if shared && !s.Waiting(dst) then Asked
    else Queued
  }

  /** What arp_out leaves of the memory in each case, with the header already in place, is what Wrote says. */
  lemma OutWrote(s: State, host: Host, dst: Ip, now: nat, shared: bool, m: seq<byte>, m': seq<byte>, d: nat, n: nat,
                 h: seq<byte>)
    requires |m| == BUF_MAX_LEN && |h| == IP_HDR && LINK_ROOM <= d && d + n + MIN_PAYLOAD - IP_HDR < |m|
    requires var w := Splice(m, d - IP_HDR, h);
             m' == if s.Resolved(dst, now) then
                     Splice(w, d - LINK_ROOM, Frame(s.table.model[dst].value, host.mac, PROTO_IP, h + m[d..d + n]))
                   else if !s.Waiting(dst) && shared then Splice(w, ARP_FRAME_AT, RequestFrame(host, dst))
                   else w
    ensures Wrote(m, m', d, n, h, WayOf(s, host, dst, now, shared), RequestFrame(host, dst), false)
  {
    hide Frame, Splice, RequestFrame, Wrote, EthHeader;
    if s.Resolved(dst, now) {
      var mac := s.table.model[dst].value;
      FrameStarts(mac, host.mac, PROTO_IP, h, m[d..d + n]);
      SentWrote(m, d, n, h, EthHeader(mac, host.mac, PROTO_IP), Frame(mac, host.mac, PROTO_IP, h + m[d..d + n]),
                RequestFrame(host, dst));
    } else {
      QueuedWrote(m, d, n, h, !s.Waiting(dst) && shared, RequestFrame(host, dst));
    }
  }

  lemma WayIs(j: Job, t: nat)
    requires j.Valid() && t < Packets(j.len)
    ensures WayOf(j.After(t), j.h, j.dst, j.times[t], j.shared) == WayNo(j, t)
  {
    hide EthHeader, Job.After, Known;
    AfterMeets(j, t);
  }

  /** What the next call of ip_fragment_out has to be given, and what it makes of the state. */
  lemma NextPacket(j: Job, m: seq<byte>, t: nat)
    requires j.Valid() && t < Packets(j.len) && Holds(j, m, t)
    ensures 1480 * t <= j.len && Packets(j.len) <= |j.times|
    ensures var more, at := Restores(j.len, t), j.data + 1480 * t;
            var n := if more then CHUNK else j.len - 1480 * t;
            && HeaderNo(j.route, j.len, t) == Header(j.route, n, 1480 * t, more)
            && j.After(t + 1) == OutStep(j.After(t), j.h, j.dst,
                                         FragmentWindow(j.route, Piece(1480 * t, more, m[at..at + n]), at), j.times[t])
            && WayOf(j.After(t), j.h, j.dst, j.times[t], j.shared) == WayNo(j, t)
  {
    hide OutStep, FragmentWindow, Holds, Header, HeaderNo, Job.After, PieceNo, WayOf, WayNo;
    UnsentBytes(j, m, t);
    AfterNext(j, t);
    WayIs(j, t);
  }

  class IpLayer {
    const arp: Arp
    var ipId: u16

    constructor (arp: Arp)
      ensures this.arp == arp && ipId == 0
    {
      this.arp, ipId := arp, 0;
    }

    /** A call of ip_out as it is found: `times` are the readings of the clock by its calls of arp_out. */
    ghost function JobOf(buf: Buf, dst: Ip, proto: byte, times: seq<nat>): Job
      requires buf.Valid()
      reads this, arp, arp.table, arp.pending, buf, buf.payload
    {
      Job(arp.View(), arp.AsHost(), buf.payload[..], buf.data, buf.len, buf == arp.txbuf, dst,
          Route(arp.ip, dst, proto, ipId), times)
    }

    /** The first half of ip_fragment_out: the header goes into the 20 bytes before the window. */
    method WriteHeader(buf: Buf, r: Route, offset: nat, more: bool)
      requires buf.Valid() && IP_HDR <= buf.data
      modifies buf, buf.payload
      ensures buf.Valid()
      ensures buf.View() == Window(old(buf.data) - IP_HDR, Packet(r, Piece(offset, more, old(buf.View()).bytes)))
      ensures buf.payload[..] == Splice(old(buf.payload[..]), buf.data, Header(r, old(buf.len), offset, more))
    {
      hide Splice, BareHeader, Checksum, WithWord;
      ghost var m0, p := buf.payload[..], buf.View().bytes;
      assert p == m0[buf.data..buf.data + buf.len];
      var _ := buf.AddHeader(IP_HDR);
      var bare := BareHeader(r, buf.len - IP_HDR, offset, more);
      buf.Store(buf.data, bare);
      SpliceThen(m0, buf.data, bare, 0);
      assert buf.payload[buf.data..buf.data + IP_HDR] == buf.payload[..][buf.data..buf.data + IP_HDR] == bare;
      var c := Checksum16(buf.payload, buf.data, IP_HDR);
      buf.Store(buf.data + 10, Store16(c));
      HeaderWrites(m0, buf.data, bare, c, p);
      assert buf.View().bytes == buf.payload[..][buf.data..buf.data + buf.len] == Header(r, |p|, offset, more) + p;
    }

    /** ip_fragment_out. */
    method FragmentOut(buf: Buf, dst: Ip, proto: byte, id: u16, offset: nat, more: bool, now: nat)
      requires arp.Valid() && now != 0 && arp.clock <= now && buf.Valid() && Room(buf.View())
      requires buf != arp.txbuf ==> buf.payload != arp.txbuf.payload
      modifies arp`tx, arp`clock, arp.pending, arp.pending.slots`size, arp.pending.slots`model, arp.pending.slots.slots
      modifies arp.pending.queues, arp.pending.nodes, arp.eth, arp.txbuf, arp.txbuf.payload, buf, buf.payload
      ensures arp.Valid() && arp.clock == now
      ensures arp.pending.Grew()
      ensures arp.View() == OutStep(old(arp.View()), arp.AsHost(), dst,
                                    FragmentWindow(Route(arp.ip, dst, proto, id),
                                                   Piece(offset, more, old(buf.View()).bytes), old(buf.data)), now)
      ensures Wrote(old(buf.payload[..]), buf.payload[..], old(buf.data), old(buf.len),
                    Header(Route(arp.ip, dst, proto, id), old(buf.len), offset, more),
                    WayOf(old(arp.View()), arp.AsHost(), dst, now, buf == arp.txbuf),
                    RequestFrame(arp.AsHost(), dst), false)
    {
      hide OutStep, Header, Frame, Splice, RequestFrame, Wrote, FrameOf, Arp.Valid, State.Valid, EthHeader;
      ghost var m, s, r, d, n := buf.payload[..], arp.View(), Route(arp.ip, dst, proto, id), buf.data, buf.len;
      ghost var h := Header(r, n, offset, more);
      assert buf.View().bytes == m[d..d + n];
      WriteHeader(buf, Route(arp.ip, dst, proto, id), offset, more);
      assert buf.View().bytes == h + m[d..d + n];
      arp.Out(buf, dst, now);
      OutWrote(s, arp.AsHost(), dst, now, buf == arp.txbuf, m, buf.payload[..], d, n, h);
    }

    /** The full-fragment branch of ip_out's loop: save 20 payload bytes, send with MF=1, put the bytes back, slide the
        window on. The save does not cover the header area, so the tail of the previous fragment stays overwritten. */
    method FullFragment(buf: Buf, dst: Ip, proto: byte, offset: nat, now: nat)
      requires arp.Valid() && now != 0 && arp.clock <= now && buf.Valid() && Room(buf.View()) && buf.len == CHUNK
      requires buf != arp.txbuf ==> buf.payload != arp.txbuf.payload
      modifies arp`tx, arp`clock, arp.pending, arp.pending.slots`size, arp.pending.slots`model, arp.pending.slots.slots
      modifies arp.pending.queues, arp.pending.nodes, arp.eth, arp.txbuf, arp.txbuf.payload, buf, buf.payload
      ensures arp.Valid() && arp.clock == now && buf.data == old(buf.data) + CHUNK && buf.len == CHUNK
      ensures arp.pending.Grew()
      ensures arp.View() == OutStep(old(arp.View()), arp.AsHost(), dst,
                                    FragmentWindow(Route(arp.ip, dst, proto, ipId),
                                                   Piece(offset, true, old(buf.View()).bytes), old(buf.data)), now)
      ensures Wrote(old(buf.payload[..]), buf.payload[..], old(buf.data), CHUNK,
                    Header(Route(arp.ip, dst, proto, ipId), CHUNK, offset, true),
                    WayOf(old(arp.View()), arp.AsHost(), dst, now, buf == arp.txbuf),
                    RequestFrame(arp.AsHost(), dst), true)
    {
      hide OutStep, FragmentWindow, Header, Splice, Wrote, Arp.Valid, WayOf, RequestFrame;
      var dataNow := buf.data;
      var backup := buf.payload[dataNow..dataNow + IP_HDR];
      ghost var m, s := buf.payload[..], arp.View();
      assert backup == m[dataNow..dataNow + IP_HDR];
      FragmentOut(buf, dst, proto, ipId, offset, true, now);
      PutBackWrote(m, buf.payload[..], dataNow, CHUNK, Header(Route(arp.ip, dst, proto, ipId), CHUNK, offset, true),
                   WayOf(s, arp.AsHost(), dst, now, buf == arp.txbuf), RequestFrame(arp.AsHost(), dst));
      buf.Store(dataNow, backup);
      buf.data := dataNow + CHUNK;
      buf.len := CHUNK;
    }

    /** The last turn of ip_out's loop: the rest goes out with MF=0 and uses up the id, unless it is empty. */
    method LastFragment(buf: Buf, dst: Ip, proto: byte, offset: nat, turn: nat, times: seq<nat>)
      requires arp.Valid() && (buf.len != 0 ==> turn < |times| && times[turn] != 0 && arp.clock <= times[turn])
               && buf.Valid() && Room(buf.View())
      requires buf != arp.txbuf ==> buf.payload != arp.txbuf.payload
      modifies this`ipId, arp`tx, arp`clock, arp.pending, arp.pending.slots`size, arp.pending.slots`model
      modifies arp.pending.slots.slots, arp.pending.queues, arp.pending.nodes, arp.eth, arp.txbuf, arp.txbuf.payload
      modifies buf, buf.payload
      ensures arp.Valid() && arp.clock == if old(buf.len) == 0 then old(arp.clock) else times[turn]
      ensures old(buf.len) == 0 ==>
                ipId == old(ipId) && arp.View() == old(arp.View()) && buf.payload[..] == old(buf.payload[..])
      ensures old(buf.len) != 0 ==>
                && ipId == (old(ipId) + 1) % 0x1_0000
                && arp.View() == OutStep(old(arp.View()), arp.AsHost(), dst,
                                         FragmentWindow(Route(arp.ip, dst, proto, old(ipId)),
                                                        Piece(offset, false, old(buf.View()).bytes), old(buf.data)),
                                         times[turn])
                && Wrote(old(buf.payload[..]), buf.payload[..], old(buf.data), old(buf.len),
                         Header(Route(arp.ip, dst, proto, old(ipId)), old(buf.len), offset, false),
                         WayOf(old(arp.View()), arp.AsHost(), dst, times[turn], buf == arp.txbuf),
                         RequestFrame(arp.AsHost(), dst), false)
    {
      hide OutStep, FragmentWindow, Header, Wrote, Arp.Valid, WayOf, RequestFrame;
      if buf.len != 0 {
        var id := ipId;
        ipId := (ipId + 1) % 0x1_0000;
        FragmentOut(buf, dst, proto, id, offset, false, times[turn]);
      }
    }

    /** The state after `t` packets of the job. */
    ghost predicate Reached(j: Job, buf: Buf, t: nat)
      requires j.Valid() && t <= Packets(j.len)
      reads arp, arp.eth, arp.table, arp.table.slots, arp.pending, arp.pending.slots, arp.pending.slots.slots
      reads arp.pending.queues, arp.pending.nodes, buf, buf.payload
    {
      && arp.Valid() && (if t == 0 then arp.clock <= j.times[0] else arp.clock == j.times[t - 1])
      && buf.payload.Length == BUF_MAX_LEN
      && j.dst == j.route.dst && j.h == arp.AsHost() && arp.ip == j.route.src && j.shared == (buf == arp.txbuf)
      && Holds(j, buf.payload[..], t) && arp.View() == j.After(t)
    }

    /** A turn that sends a full fragment keeps the loop on course. */
    method FullTurn(buf: Buf, ghost j: Job, turn: nat, dst: Ip, proto: byte, offset: nat, times: seq<nat>)
      requires j.Valid() && Room(Window(j.data, j.m[j.data..j.data + j.len]))
      requires CHUNK < j.len && offset == 1480 * turn && offset + CHUNK <= j.len && turn < Packets(j.len)
      requires Reached(j, buf, turn) && buf.data == j.data + offset && buf.len == CHUNK
      requires j.route == Route(arp.ip, dst, proto, ipId) && j.times == times
      requires buf != arp.txbuf ==> buf.payload != arp.txbuf.payload
      modifies arp`tx, arp`clock, arp.pending, arp.pending.slots`size, arp.pending.slots`model, arp.pending.slots.slots
      modifies arp.pending.queues, arp.pending.nodes, arp.eth, arp.txbuf, arp.txbuf.payload, buf, buf.payload
      ensures Reached(j, buf, turn + 1) && buf.data == j.data + offset + CHUNK && buf.len == CHUNK
      ensures arp.pending.Grew()
    {
      hide OutStep, FragmentWindow, Holds, Wrote, Header, HeaderNo, Job.After, Job.Link, PieceNo, WayOf, WayNo;
      hide RequestFrame;
      hide Arp.Valid;
      ghost var m := buf.payload[..];
      assert buf.View().bytes == m[j.data + offset..j.data + offset + CHUNK];
      NextPacket(j, m, turn);
      FullFragment(buf, dst, proto, offset, times[turn]);
      TurnHolds(j, m, buf.payload[..], turn, CHUNK);
    }

    /** The branch that ends the loop: the window is cut down to what is left. */
    method LastTurn(buf: Buf, ghost j: Job, turn: nat, dst: Ip, proto: byte, offset: nat, originalLen: nat,
                    times: seq<nat>)
      requires j.Valid() && Room(Window(j.data, j.m[j.data..j.data + j.len])) && j.len == originalLen
      requires CHUNK < j.len && offset == 1480 * turn <= j.len < offset + CHUNK && turn <= Packets(j.len)
      requires Reached(j, buf, turn) && buf.data == j.data + offset && buf.len == CHUNK
      requires j.route == Route(arp.ip, dst, proto, ipId) && j.times == times
      requires buf != arp.txbuf ==> buf.payload != arp.txbuf.payload
      modifies this`ipId, arp`tx, arp`clock, arp.pending, arp.pending.slots`size, arp.pending.slots`model
      modifies arp.pending.slots.slots, arp.pending.queues, arp.pending.nodes, arp.eth, arp.txbuf, arp.txbuf.payload
      modifies buf, buf.payload
      ensures Reached(j, buf, Packets(j.len))
      ensures ipId == if HasLast(originalLen) then (old(ipId) + 1) % 0x1_0000 else old(ipId)
    {
      hide Holds, Job.After, Arp.Valid, Arp.View, HasLast, Packets, Job.Valid, State.Valid;
      RestIff(j.len, turn);
      PacketsEnd(j.len, turn);
      buf.len := originalLen - offset;
      LastPacket(buf, j, turn, dst, proto, offset, times);
    }

    method LastPacket(buf: Buf, ghost j: Job, turn: nat, dst: Ip, proto: byte, offset: nat, times: seq<nat>)
      requires j.Valid() && Room(Window(j.data, j.m[j.data..j.data + j.len]))
      requires CHUNK < j.len && offset == 1480 * turn <= j.len < offset + CHUNK && turn <= Packets(j.len)
      requires Packets(j.len) == if buf.len == 0 then turn else turn + 1
      requires Reached(j, buf, turn) && buf.data == j.data + offset && buf.len == j.len - offset
      requires j.route == Route(arp.ip, dst, proto, ipId) && j.times == times
      requires buf != arp.txbuf ==> buf.payload != arp.txbuf.payload
      modifies this`ipId, arp`tx, arp`clock, arp.pending, arp.pending.slots`size, arp.pending.slots`model
      modifies arp.pending.slots.slots, arp.pending.queues, arp.pending.nodes, arp.eth, arp.txbuf, arp.txbuf.payload
      modifies buf, buf.payload
      ensures Reached(j, buf, Packets(j.len))
      ensures ipId == if old(buf.len) == 0 then old(ipId) else (old(ipId) + 1) % 0x1_0000
    {
      hide OutStep, FragmentWindow, Holds, Wrote, Header, HeaderNo, Job.After, Job.Link, PieceNo, WayOf, WayNo;
      hide RequestFrame;
      hide Arp.Valid, HasLast, Packets, Arp.View, State.Valid;
      ghost var m, n := buf.payload[..], buf.len;
      assert buf.View().bytes == m[j.data + offset..j.data + offset + n];
      if n != 0 {
        NextPacket(j, m, turn);
      }
      LastFragment(buf, dst, proto, offset, turn, times);
      if n != 0 {
        TurnHolds(j, m, buf.payload[..], turn, n);
      }
    }

    /** ip_out's loop, for a payload of `originalLen` bytes. */
    method Slide(buf: Buf, ghost j: Job, originalLen: nat, dst: Ip, proto: byte, times: seq<nat>)
      requires j.Valid() && Room(Window(j.data, j.m[j.data..j.data + j.len])) && j.len == originalLen && CHUNK < j.len
      requires Reached(j, buf, 0) && buf.data == j.data && buf.len == CHUNK
      requires j.route == Route(arp.ip, dst, proto, ipId) && j.times == times
      requires buf != arp.txbuf ==> buf.payload != arp.txbuf.payload
      modifies this`ipId, arp`tx, arp`clock, arp.pending, arp.pending.slots`size, arp.pending.slots`model
      modifies arp.pending.slots.slots, arp.pending.queues, arp.pending.nodes, arp.eth, arp.txbuf, arp.txbuf.payload
      modifies buf, buf.payload
      ensures Reached(j, buf, Packets(j.len))
      ensures ipId == if HasLast(originalLen) then (old(ipId) + 1) % 0x1_0000 else old(ipId)
    {
      hide HasLast, Reached, Room, Job.Valid;
      var offset, turn := 0, 0;
      var done := false;
      while !done
        invariant offset == 1480 * turn <= originalLen && turn <= Packets(j.len)
        invariant !done ==>
                    Reached(j, buf, turn) && buf.data == j.data + offset && buf.len == CHUNK && ipId == old(ipId)
        invariant !done ==> arp.pending.Grew()
        invariant done ==> Reached(j, buf, Packets(j.len))
        invariant done ==> ipId == if HasLast(originalLen) then (old(ipId) + 1) % 0x1_0000 else old(ipId)
        decreases !done, originalLen - offset
      {
        PacketsFrom(j.len, turn);
        if offset + CHUNK <= originalLen {
          FullTurn(buf, j, turn, dst, proto, offset, times);
          offset := offset + CHUNK;
          turn := turn + 1;
        } else {
          LastTurn(buf, j, turn, dst, proto, offset, originalLen, times);
          done := true;
        }
      }
    }

    /** The large branch of ip_out. */
    method OutputLarge(buf: Buf, dst: Ip, proto: byte, times: seq<nat>)
      requires arp.Valid() && buf.Valid() && Room(buf.View()) && buf.len > CHUNK
      requires Clock(times) && Packets(buf.len) <= |times| && arp.clock <= times[0]
      requires buf != arp.txbuf ==> buf.payload != arp.txbuf.payload
      modifies this`ipId, arp`tx, arp`clock, arp.pending, arp.pending.slots`size, arp.pending.slots`model
      modifies arp.pending.slots.slots, arp.pending.queues, arp.pending.nodes, arp.eth, arp.txbuf, arp.txbuf.payload
      modifies buf, buf.payload
      ensures old(JobOf(buf, dst, proto, times)).Valid()
      ensures Reached(old(JobOf(buf, dst, proto, times)), buf, Packets(old(buf.len)))
      ensures ipId == if HasLast(old(buf.len)) then (old(ipId) + 1) % 0x1_0000 else old(ipId)
      ensures buf.data == old(buf.data) && buf.len == old(buf.len)
    {
      hide HasLast, Arp.Valid, Job.After, State.Valid, Packets;
      ViewValid();
      ghost var j := JobOf(buf, dst, proto, times);
      AfterNone(j);
      var originalLen := buf.len;
      var originalData := buf.data;
      buf.len := CHUNK;
      Slide(buf, j, originalLen, dst, proto, times);
      buf.data := originalData;
      buf.len := originalLen;
    }

    /** The small branch of ip_out: one packet. */
    method OutputSmall(buf: Buf, dst: Ip, proto: byte, times: seq<nat>)
      requires arp.Valid() && buf.Valid() && Room(buf.View()) && buf.len <= CHUNK
      requires Clock(times) && Packets(buf.len) <= |times| && arp.clock <= times[0]
      requires buf != arp.txbuf ==> buf.payload != arp.txbuf.payload
      modifies this`ipId, arp`tx, arp`clock, arp.pending, arp.pending.slots`size, arp.pending.slots`model
      modifies arp.pending.slots.slots, arp.pending.queues, arp.pending.nodes, arp.eth, arp.txbuf, arp.txbuf.payload
      modifies buf, buf.payload
      ensures old(JobOf(buf, dst, proto, times)).Valid()
      ensures Reached(old(JobOf(buf, dst, proto, times)), buf, Packets(old(buf.len)))
      ensures ipId == (old(ipId) + 1) % 0x1_0000
    {
      hide OutStep, FragmentWindow, Holds, Wrote, Header, HeaderNo, Job.After, Job.Link, PieceNo, WayOf, WayNo;
      hide RequestFrame;
      hide Arp.Valid, State.Valid;
      ViewValid();
      ghost var j, m := JobOf(buf, dst, proto, times), buf.payload[..];
      assert buf.View().bytes == m[j.data..j.data + j.len];
      AfterNone(j);
      HoldsFirst(j);
      NextPacket(j, m, 0);
      var id := ipId;
      ipId := (ipId + 1) % 0x1_0000;
      FragmentOut(buf, dst, proto, id, 0, false, times[0]);
      TurnHolds(j, m, buf.payload[..], 0, j.len);
    }

    lemma ViewValid()
      requires arp.Valid()
      ensures arp.View().Valid()
    {
    }

    /** ip_out. The packets handed down are the pieces of the payload held at entry, or, after an ARP request had to
        go out through the very buffer being fragmented, of what that left; and the caller's payload is what LeftByte
        says. */
    method Output(buf: Buf, dst: Ip, proto: byte, times: seq<nat>)
      requires arp.Valid() && buf.Valid() && Room(buf.View())
      requires Clock(times) && Packets(buf.len) <= |times| && arp.clock <= times[0]
      requires buf != arp.txbuf ==> buf.payload != arp.txbuf.payload
      modifies this`ipId, arp`tx, arp`clock, arp.pending, arp.pending.slots`size, arp.pending.slots`model
      modifies arp.pending.slots.slots, arp.pending.queues, arp.pending.nodes, arp.eth, arp.txbuf, arp.txbuf.payload
      modifies buf, buf.payload
      ensures arp.Valid() && arp.clock == times[Packets(old(buf.len)) - 1]
      ensures old(JobOf(buf, dst, proto, times)).Valid()
      ensures var j := old(JobOf(buf, dst, proto, times));
              && j.route == Route(arp.ip, dst, proto, old(ipId)) && j.h == arp.AsHost() && j.s == old(arp.View())
              && j.m == old(buf.payload[..]) && j.data == old(buf.data) && j.len == old(buf.len)
              && |Pieces(j.Payload())| == Packets(j.len)
              && arp.View() == j.After(Packets(j.len))
                            == Handed(j.s, j.h, dst, j.route, Pieces(j.Payload()), j.data, times)
              && Holds(j, buf.payload[..], Packets(j.len))
              && forall k :: j.data <= k < j.data + j.len ==> buf.payload[k] == LeftByte(j, Packets(j.len), k)
      ensures ipId == if HasLast(old(buf.len)) then (old(ipId) + 1) % 0x1_0000 else old(ipId)
      ensures old(buf.len) > CHUNK ==> buf.data == old(buf.data) && buf.len == old(buf.len)
    {
      hide Handed, Job.After, Arp.Valid, State.Valid, Packets, ByteAt, LeftByte, Pieces, Effective;
      ghost var j := JobOf(buf, dst, proto, times);
      if buf.len > CHUNK {
        OutputLarge(buf, dst, proto, times);
      } else {
        OutputSmall(buf, dst, proto, times);
      }
      AfterAll(j);
      forall k | j.data <= k < j.data + j.len
        ensures buf.payload[k] == LeftByte(j, Packets(j.len), k)
      {
        ByteAtIs(j, Packets(j.len), k);
        assert buf.payload[k] == buf.payload[..][k];
      }
    }
  }

  lemma HoldsFirst(j: Job)
    requires j.Valid()
    ensures Holds(j, j.m, 0)
  {
  }

  lemma PacketsEnd(len: nat, turn: nat)
    requires CHUNK < len && 1480 * turn <= len < 1480 * turn + CHUNK
    ensures Packets(len) == if 1480 * turn == len then turn else turn + 1
  {
  }

  lemma PacketsFrom(len: nat, turn: nat)
    requires CHUNK < len && 1480 * turn <= len
    ensures turn <= Packets(len) && (1480 * turn < len ==> turn < Packets(len))
  {
  }

  lemma FrameStarts(dst: Mac, src: Mac, proto: u16, h: seq<byte>, p: seq<byte>)
    ensures var f := Frame(dst, src, proto, h + p);
            && f[..ETH_HDR + |h| + |p|] == EthHeader(dst, src, proto) + h + p
            && |f| == ETH_HDR + (if |h| + |p| < MIN_PAYLOAD then MIN_PAYLOAD else |h| + |p|)
  {
    hide EthHeader;
  }

  /** The header written in two steps is one write, and the payload behind it is untouched. */
  lemma HeaderWrites(m: seq<byte>, at: nat, bare: seq<byte>, c: u16, p: seq<byte>)
    requires |bare| == IP_HDR && at + IP_HDR + |p| <= |m| && m[at + IP_HDR..at + IP_HDR + |p|] == p
    ensures var m' := Splice(Splice(m, at, bare), at + 10, Store16(c));
            && m' == Splice(m, at, WithWord(bare, 10, c))
            && m'[at..at + IP_HDR + |p|] == WithWord(bare, 10, c) + p
  {
    hide Splice, Store16;
    SpliceInside(m, at, bare, 10, Store16(c));
    SpliceThen(m, at, WithWord(bare, 10, c), |p|);
  }
}
