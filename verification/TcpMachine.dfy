/** src/tcp.c over memory: connection structs in their slots, the two buffers each of them points to, and the transmit
    buffer they all share. Every operation is the one of Tcp. */
module TcpMachine {
  import opened Words
  import opened Buffer
  import opened SlotMap
  import opened Ethernet
  import opened Transport
  import opened TcpWire
  import opened Tcp
  import opened TcpStreams
  import opened TcpOwnership

  /** Each of `bytes` is the segment of the same number, sealed from `own` to `remote`. */
  ghost predicate AllSealed(bytes: seq<seq<byte>>, sent: seq<Segment>, own: Ip, remote: Ip) {
    |bytes| == |sent| && forall i :: 0 <= i < |sent| ==> bytes[i] == Sealed(sent[i], own, remote)
  }

  lemma SealedMore(bytes: seq<seq<byte>>, sent: seq<Segment>, own: Ip, remote: Ip)
    ensures AllSealed(bytes, sent, own, remote) ==>
              forall g :: AllSealed(bytes + [Sealed(g, own, remote)], sent + [g], own, remote)
  {
    hide Sealed;
  }

  ghost predicate AllReset(bytes: seq<seq<byte>>, resets: seq<Outgoing>, own: Ip) {
    |bytes| == |resets| && forall i :: 0 <= i < |resets| ==> bytes[i] == Sealed(resets[i].g, own, resets[i].to)
  }

  lemma ResetMore(bytes: seq<seq<byte>>, resets: seq<Outgoing>, own: Ip, o: Outgoing)
    requires AllReset(bytes, resets, own)
    ensures AllReset(bytes + [Sealed(o.g, own, o.to)], resets + [o], own)
  {
    hide Sealed;
  }

  /** malloc and buf_init(0). */
  method NewBuf(junk: seq<byte>) returns (b: Buf)
    ensures fresh(b) && fresh(b.payload) && b.Valid() && b.Value() == NewBlock(junk)
  {
    hide Filled;
    b := new Buf.Malloc(junk);
    var _ := b.Init(0);
  }

  /** What tcp_send needs besides the connection: the shared txbuf and the host's address. */
  class Net {
    const txbuf: Buf
    const ip: Ip

    constructor (txbuf: Buf, ip: Ip)
      ensures this.txbuf == txbuf && this.ip == ip
    {
      this.txbuf, this.ip := txbuf, ip;
    }
  }

  /** tcp_connect_t. `rxAt` and `txAt` are the two pointers as numbers. The object outlives its entry, as the slot's
      memory does. */
  class Connect {
    var state: TcpState
    var localPort: u16
    var remotePort: u16
    var ip: Ip
    var unackSeq: u32
    var nextSeq: u32
    var ack: u32
    var remoteWin: u16
    var rxBuf: Buf?
    var txBuf: Buf?
    var rxAt: nat
    var txAt: nat
    ghost var hist: Hist
    /** The bytes given to ip_out, segment by segment. */
    ghost var handed: seq<seq<byte>>

    /** A zeroed struct in LISTEN, with the peer's address. */
    constructor (ip: Ip)
      ensures Value() == FreshConn(ip)
    {
      state, localPort, remotePort, this.ip := LISTEN, 0, 0, ip;
      unackSeq, nextSeq, ack, remoteWin, rxBuf, txBuf, rxAt, txAt := 0, 0, 0, 0, null, null, 0, 0;
    }

    ghost function Value(): Conn
      reads this
    {
      Conn(state, localPort, remotePort, ip, unackSeq, nextSeq, ack, remoteWin, rxAt, txAt)
    }

    ghost predicate HasBufs()
      reads this, rxBuf, txBuf
    {
      && rxBuf != null && txBuf != null && rxBuf.Valid() && txBuf.Valid()
      && rxBuf != txBuf && rxBuf.payload != txBuf.payload
    }

    /** `b` is none of the connection's buffers. */
    ghost predicate Outside(b: Buf)
      reads this
    {
      && b != rxBuf && b != txBuf
      && (rxBuf != null ==> b.payload != rxBuf.payload)
      && (txBuf != null ==> b.payload != txBuf.payload)
    }

    /** What was given to ip_out are the segments sent, each sealed for the peer. */
    ghost predicate Logged(own: Ip)
      reads this
    {
      AllSealed(handed, hist.sent, own, ip)
    }

    ghost predicate Ready(net: Net)
      reads this, rxBuf, txBuf
    {
      HasBufs() && Outside(net.txbuf) && net.txbuf.payload.Length == BUF_MAX_LEN && Logged(net.ip)
    }

    ghost function Link(): Link
      requires HasBufs()
      reads this, rxBuf, txBuf
      reads if rxBuf != null then {rxBuf.payload} else {}, if txBuf != null then {txBuf.payload} else {}
    {
      Tcp.Link(Value(), rxBuf.Value(), txBuf.Value(), hist)
    }

    lemma BufsAre()
      requires HasBufs()
      ensures var rx, tx := rxBuf.Value(), txBuf.Value();
              && rx.w.data == rxBuf.data && |rx.w.bytes| == rxBuf.len
              && tx.w.data == txBuf.data && |tx.w.bytes| == txBuf.len
              && rx.mem == rxBuf.payload[..] && tx.mem == txBuf.payload[..]
              && rx.w == rxBuf.View() && tx.w == txBuf.View()
    {
    }

    /** init_tcp_connect_rcvd, and the fields filled in after it; malloc returns the addresses `at` and `at + 1`. */
    method InitRcvd(at: nat, k: Key, g: Segment, chance: Chance) returns (rx: Buf, tx: Buf)
      modifies this
      ensures rxBuf == rx && txBuf == tx && HasBufs()
      ensures fresh(rx) && fresh(rx.payload) && fresh(tx) && fresh(tx.payload)
      ensures rxAt == at && txAt == at + 1 && state == SYN_RCVD && Link() == NewLink(at, k, g, chance)
      ensures forall own :: Logged(own)
    {
      hide NewBlock, NewHist, Connect.Value, Buf.Value, Buf.View, Buf.Valid;
      rx := NewBuf(chance.rxJunk);
      tx := NewBuf(chance.txJunk);
      rxBuf, txBuf := rx, tx;
      FillIn(at, k, g, chance);
    }

    method FillIn(at: nat, k: Key, g: Segment, chance: Chance)
      modifies `rxAt, `txAt, `state, `localPort, `remotePort, `ip, `unackSeq, `nextSeq, `ack, `remoteWin
      modifies `hist, `handed
      ensures rxAt == at && txAt == at + 1 && state == SYN_RCVD
      ensures Value() == NewLink(at, k, g, chance).c && hist == NewLink(at, k, g, chance).h
      ensures handed == [] && hist.sent == []
    {
      hide NewBlock, Add32;
      rxAt, txAt := at, at + 1;
      state := SYN_RCVD;
      localPort, remotePort, ip := k.dstPort, k.srcPort, k.ip;
      unackSeq := chance.iss;
      nextSeq := unackSeq;
      ack := Add32(g.seqNo, 1);
      remoteWin := g.window;
      hist, handed := NewHist(chance.iss, g.seqNo), [];
    }

    /** tcp_read_from_buf. Without success the memcpy would leave the array, and nothing is said. */
    method ReadFromBuf(buf: Buf) returns (ok: bool)
      requires HasBufs() && buf.Valid() && Outside(buf)
      modifies `ack, `hist, rxBuf, rxBuf.payload
      ensures ok == !Overruns(old(Link()), old(buf.len)) && hist.sent == old(hist.sent)
      ensures ok ==> HasBufs() && Link() == Receive(old(Link()), old(buf.View()).bytes)
    {
      hide Splice, Buf.Value;
      BufsAre();
      var n := buf.len;
      if rxBuf.data + rxBuf.len + n > BUF_MAX_LEN {
        return false;
      }
      var bytes := buf.payload[buf.data..buf.data + n];
      var _ := rxBuf.CopyToEnd(bytes);
      ack := Add32(ack, n);
      hist := hist.(arrived := hist.arrived + [bytes]);
      ok := true;
    }

    /** tcp_write_to_buf: the bytes go to the end of the lower half of txbuf. Without success the memcpy would read
        outside the array. */
    method WriteToBuf(txbuf: Buf) returns (ok: bool, size: u16)
      requires HasBufs() && Outside(txbuf) && txbuf.payload.Length == BUF_MAX_LEN
      modifies `nextSeq, `hist, txbuf, txbuf.payload
      ensures ok == !Overreads(old(Link())) && size == WriteSize(old(Link())) && hist.sent == old(hist.sent)
      ensures ok ==>
                && HasBufs() && txbuf.Valid() && txbuf.View() == Window(HALF - size, WriteBytes(old(Link())))
                && Link() == WroteToBuf(old(Link()))
    {
      hide Overreads, WriteSize, WriteBytes, WroteToBuf, Buf.Value, Buf.View;
      var bytes;
      ok, bytes := NextBytes();
      size := |bytes|;
      if ok {
        txbuf.InitWith(bytes);
      }
    }

    /** What tcp_write_to_buf is to copy, and the counters as it leaves them. */
    method NextBytes() returns (ok: bool, bytes: seq<byte>)
      requires HasBufs()
      modifies `nextSeq, `hist
      ensures ok == !Overreads(old(Link())) && |bytes| == WriteSize(old(Link())) && hist.sent == old(hist.sent)
      ensures ok ==> bytes == WriteBytes(old(Link())) && HasBufs() && Link() == WroteToBuf(old(Link()))
    {
      hide Peek, Buf.Value, Buf.View, Add32, AllSealed;
      ghost var l := Link();
      BufsAre();
      var inFlight := Sub32(nextSeq, unackSeq);
      var sent := inFlight % 0x1_0000;
      var size := Min32((txBuf.len - sent) % 0x1_0000_0000, remoteWin);
      var at := txBuf.data + sent;
      assert size == WriteSize(l) && at == WriteAt(l);
      if size > 0 && at + size > BUF_MAX_LEN {
        return false, Zeros(size);
      }
      bytes := if size > 0 then txBuf.payload[at..at + size] else [];
      assert bytes == WriteBytes(l) by { PeekIs(l.tx.mem, at, size, bytes); }
      nextSeq := Add32(nextSeq, size);
      hist := hist.(wide := hist.wide || (size > 0 && inFlight >= 0x1_0000));
      ok := true;
    }

    /** tcp_send of what is in txbuf, up to the call of ip_out, which is given the sealed segment. */
    method Send(net: Net, flags: Flags)
      requires Ready(net) && net.txbuf.Valid() && PSEUDO + TCP_HDR <= net.txbuf.data
      modifies `nextSeq, `hist, `handed, net.txbuf, net.txbuf.payload
      ensures Ready(net) && Link() == Tcp.Send(old(Link()), old(net.txbuf.View()).bytes, flags)
      ensures net.txbuf.Valid()
      ensures net.txbuf.View().bytes == Sealed(Link().h.sent[|old(hist).sent|], net.ip, ip)
    {
      hide Buf.Value, Sealed, AllSealed, Buf.View, Buf.Valid;
      SealedMore(handed, hist.sent, net.ip, ip);
      var g := HandOver(net, flags);
      if Syn(flags) || Fin(flags) {
        nextSeq := Add32(nextSeq, 1);
      }
      hist := hist.(sent := hist.sent + [g]);
    }

    /** The segment for what is in txbuf, and the bytes as ip_out gets them. */
    method HandOver(net: Net, flags: Flags) returns (g: Segment)
      requires net.txbuf.Valid() && PSEUDO + TCP_HDR <= net.txbuf.data
      modifies `handed, net.txbuf, net.txbuf.payload
      ensures var b := old(net.txbuf.View()).bytes;
              g == Segment(localPort, remotePort, Sub32(nextSeq, |b|), ack, flags, remoteWin, b)
      ensures net.txbuf.Valid() && net.txbuf.View().bytes == Sealed(g, net.ip, ip)
      ensures handed == old(handed) + [Sealed(g, net.ip, ip)]
    {
      hide Sealed;
      var prevLen := net.txbuf.len;
      var payload := net.txbuf.payload[net.txbuf.data..net.txbuf.data + prevLen];
      g := Segment(localPort, remotePort, Sub32(nextSeq, prevLen), ack, flags, remoteWin, payload);
      Seal(net.txbuf, g, net.ip, ip);
      handed := handed + [net.txbuf.View().bytes];
    }

    /** An empty segment. */
    method SendEmpty(net: Net, flags: Flags)
      requires Ready(net)
      modifies `nextSeq, `hist, `handed, net.txbuf, net.txbuf.payload
      ensures Ready(net) && Link() == Tcp.Send(old(Link()), [], flags)
    {
      hide Tcp.Send, Buf.Value;
      var _ := net.txbuf.Init(0);
      assert net.txbuf.View().bytes == [];
      Send(net, flags);
    }

    /** tcp_write_to_buf and tcp_send. */
    method FlushOut(net: Net, flags: Flags) returns (ok: bool)
      requires Ready(net)
      modifies `nextSeq, `hist, `handed, net.txbuf, net.txbuf.payload
      ensures ok == !Overreads(old(Link()))
      ensures ok ==> Ready(net) && Link() == Flush(old(Link()), flags)
    {
      hide Tcp.Send, WriteBytes, WriteSize, Overreads;
      ghost var l := Link();
      var size;
      ok, size := WriteToBuf(net.txbuf);
      if ok {
        Send(net, flags);
        assert Flush(l, flags) == Tcp.Send(WroteToBuf(l), WriteBytes(l), flags);
      }
    }

    /** tcp_connect_read. */
    method ConnectRead(len: nat) returns (data: seq<byte>)
      requires HasBufs()
      modifies `hist, rxBuf
      ensures HasBufs() && Link() == Tcp.ConnectRead(old(Link()), len)
      ensures |data| == ReadSize(old(Link()), len) && data <= old(Link()).rx.w.bytes && hist.sent == old(hist.sent)
    {
      var size := Min32(rxBuf.len % 0x1_0000_0000, len % 0x1_0000_0000);
      data := rxBuf.payload[rxBuf.data..rxBuf.data + size];
      assert data == rxBuf.View().bytes[..size];
      var _ := rxBuf.RemoveHeader(size);
      hist := hist.(readOut := hist.readOut + data);
    }

    /** tcp_connect_write. */
    method ConnectWrite(net: Net, data: seq<byte>) returns (taken: nat)
      requires Ready(net)
      modifies `nextSeq, `hist, `handed, txBuf, txBuf.payload, net.txbuf, net.txbuf.payload
      ensures Ready(net) && Link() == Tcp.ConnectWrite(old(Link()), data)
      ensures taken == Accepted(old(Link()), data)
    {
      hide Flush, WriteSize, Splice, Buf.Value, Buf.View, Peek;
      BufsAre();
      var size := Min32((BUF_MAX_LEN - (txBuf.data + txBuf.len)) % 0x1_0000_0000, |data| % 0x1_0000_0000);
      if Sub32(nextSeq, unackSeq) + |data| >= remoteWin {
        return 0;
      }
      assert size <= |data|;
      var ok := txBuf.AddBytes(data[..size]);
      if !ok {
        CompactAndFlush(net);
        return 0;
      }
      hist := hist.(written := hist.written + data[..size]);
      taken := size;
    }

    /** The overflow path of tcp_connect_write: move the buffer to the front of its array, send what the window
        allows. */
    method CompactAndFlush(net: Net)
      requires Ready(net)
      modifies `nextSeq, `hist, `handed, txBuf, txBuf.payload, net.txbuf, net.txbuf.payload
      ensures var m := old(Link()).(tx := old(Link()).tx.ToFront());
              Ready(net) && Link() == if WriteSize(m) > 0 then Flush(m, ACK) else m
    {
      hide Tcp.Send, Splice, WriteSize, WriteBytes;
      txBuf.MoveToFront();
      ghost var m := Link();
      FrontFits(m);
      var _, size := WriteToBuf(net.txbuf);
      if size > 0 {
        Send(net, ACK);
      }
    }

    /** What a callback does: it reads from and writes to its connection, and nothing else. */
    method RunScript(net: Net, script: seq<Op>)
      requires Ready(net)
      modifies `nextSeq, `hist, `handed, rxBuf, txBuf, txBuf.payload, net.txbuf, net.txbuf.payload
      ensures Ready(net) && Link() == Tcp.RunScript(old(Link()), script)
    {
      ghost var l := Link();
      assert script[..0] == [];
      for i := 0 to |script|
        invariant Ready(net) && Link() == Tcp.RunScript(l, script[..i])
      {
        assert script[..i + 1][..i] == script[..i];
        match script[i]
        case OpRead(len) => var _ := ConnectRead(len);
        case OpWrite(data) => var _ := ConnectWrite(net, data);
      }
      assert script[..|script|] == script;
    }

    /** The handler is called: the call is logged and its script runs. */
    method Callback(net: Net, call: Call, script: seq<Op>)
      requires Ready(net)
      modifies `nextSeq, `hist, `handed, rxBuf, txBuf, txBuf.payload, net.txbuf, net.txbuf.payload
      ensures Ready(net) && Link() == Tcp.Callback(old(Link()), call, script)
    {
      hide Tcp.RunScript, Buf.Value, Buf.View, Buf.Valid;
      hist := hist.(calls := hist.calls + [call]);
      RunScript(net, script);
    }

    /** Step 15 of tcp_in. */
    method TakeAckOn(ackNo: u32)
      requires HasBufs() && AckTaken(Link(), ackNo)
      modifies `unackSeq, `hist, txBuf
      ensures HasBufs() && Link() == TakeAck(old(Link()), ackNo) && hist.sent == old(hist.sent)
    {
      hide Buf.Value;
      BufsAre();
      var n := Sub32(ackNo, unackSeq);
      var _ := txBuf.RemoveHeader(n);
      BufsAre();
      unackSeq := ackNo;
      hist := hist.(acked := hist.acked + n);
    }

    /** The ESTABLISHED case of tcp_in, with the segment's payload in `buf`. */
    method OnEstablished(net: Net, g: Segment, buf: Buf, script: seq<Op>) returns (stop: Stop)
      requires Ready(net) && buf.Valid() && Outside(buf) && g.payload == buf.View().bytes
      modifies this`state, this`unackSeq, this`nextSeq, this`ack, this`hist, this`handed
      modifies rxBuf, rxBuf.payload, txBuf, txBuf.payload, net.txbuf, net.txbuf.payload
      ensures stop == EstablishedStop(old(Link()), g, script)
      ensures stop == Running ==> Ready(net) && Link() == Established(old(Link()), g, script)
    {
      hide TakeData, DataStop;
      if !Ack(g.flags) && !Fin(g.flags) {
        return Running;
      }
      if Ack(g.flags) && unackSeq < g.ackNo && nextSeq > g.ackNo {
        TakeAckOn(g.ackNo);
      }
      stop := TakeDataOn(net, g, buf, script);
    }

    /** Step 13: the handshake is complete. */
    method Establish(net: Net, script: seq<Op>)
      requires Ready(net) && state == SYN_RCVD
      modifies `state, `unackSeq, `nextSeq, `hist, `handed, rxBuf, txBuf, txBuf.payload, net.txbuf, net.txbuf.payload
      ensures Ready(net) && state == ESTABLISHED
      ensures var l := old(Link());
              Link() == Tcp.Callback(l.(c := l.c.(unackSeq := Add32(l.c.unackSeq, 1), state := ESTABLISHED)),
                                     CONNECTED, script)
    {
      hide Tcp.Callback, Buf.Value, Buf.View, Buf.Valid, Add32;
      unackSeq := Add32(unackSeq, 1);
      state := ESTABLISHED;
      Callback(net, CONNECTED, script);
    }

    /** The ESTABLISHED part of tcp_connect_close. */
    method SendFin(net: Net) returns (ok: bool)
      requires Ready(net) && state == ESTABLISHED
      modifies `state, `nextSeq, `hist, `handed, net.txbuf, net.txbuf.payload
      ensures ok == !Overreads(old(Link()))
      ensures ok ==>
                && Ready(net) && state == FIN_WAIT_1
                && var l := Flush(old(Link()), ACK_FIN); Link() == l.(c := l.c.(state := FIN_WAIT_1))
    {
      hide Flush, Overreads, Buf.Value, Buf.View, Buf.Valid;
      ok := FlushOut(net, ACK_FIN);
      if ok {
        state := FIN_WAIT_1;
      }
    }

    method TakeFinOn(net: Net)
      requires Ready(net)
      modifies this`state, this`nextSeq, this`ack, this`hist, this`handed, net.txbuf, net.txbuf.payload
      ensures Ready(net) && Link() == TakeFin(old(Link()))
    {
      hide Tcp.Send, Buf.Value, Buf.View, Buf.Valid, Add32;
      state := LAST_ACK;
      ack := Add32(ack, 1);
      hist := hist.(finTaken := true);
      SendEmpty(net, ACK_FIN);
    }

    /** The RST answer of reset_tcp. */
    method Refuse(net: Net, gotSeq: u32) returns (ghost bytes: seq<byte>)
      requires net.txbuf.payload.Length == BUF_MAX_LEN
      modifies `nextSeq, `ack, net.txbuf, net.txbuf.payload
      ensures Value() == Reset0(old(Value()), gotSeq)
      ensures net.txbuf.Valid() && net.txbuf.View().bytes == bytes == Sealed(Refusal(Value()), net.ip, ip)
    {
      hide Sealed, Add32;
      nextSeq := 0;
      ack := Add32(gotSeq, 1);
      var _ := net.txbuf.Init(0);
      assert net.txbuf.View().bytes == [];
      Seal(net.txbuf, Segment(localPort, remotePort, nextSeq, ack, ACK_RST, remoteWin, []), net.ip, ip);
      bytes := net.txbuf.View().bytes;
    }

    /** Steps 16 and 17: the payload is received, then FIN, or a callback and what it left to send. */
    method TakeDataOn(net: Net, g: Segment, buf: Buf, script: seq<Op>) returns (stop: Stop)
      requires Ready(net) && buf.Valid() && Outside(buf) && g.payload == buf.View().bytes
      modifies this`state, this`nextSeq, this`ack, this`hist, this`handed
      modifies rxBuf, rxBuf.payload, txBuf, txBuf.payload, net.txbuf, net.txbuf.payload
      ensures stop == DataStop(old(Link()), g, script)
      ensures stop == Running ==> Ready(net) && Link() == TakeData(old(Link()), g, script)
    {
      hide TakeFin, Flush, Tcp.Callback, Overruns, Overreads, Receive, Buf.Value, Buf.View;
      var ok := ReadFromBuf(buf);
      if !ok {
        return Overrun(rxAt, g.payload);
      }
      if Fin(g.flags) {
        TakeFinOn(net);
      } else if |g.payload| > 0 {
        Callback(net, DATA_RECV, script);
        ok := FlushOut(net, ACK);
        if !ok {
          return Overread(rxAt);
        }
      }
      stop := Running;
    }
  }

  class Stack {
    const net: Net
    const cap: nat
    var conns: map<Key, Connect>
    var ports: set<u16>
    var brk: nat
    var resets: seq<Outgoing>
    var stop: Stop
    /** The allocated buffers by address, and all buffers there have ever been, with their arrays. */
    ghost var heap: map<nat, Buf>
    ghost var bufs: set<Buf>
    ghost var arrays: set<array<byte>>
    ghost var freed: seq<nat>
    ghost var hist: map<nat, Hist>
    /** The bytes given to ip_out for the segments in `resets`. */
    ghost var resetBytes: seq<seq<byte>>

    constructor (net: Net, cap: nat)
      requires net.txbuf.payload.Length == BUF_MAX_LEN
      ensures Valid() && View() == Initial(cap) && this.net == net
    {
      this.net, this.cap := net, cap;
      conns, ports, brk, resets, stop := map[], {}, 0, [], Running;
      heap, bufs, arrays, freed, hist, resetBytes := map[], {}, {}, [], map[], [];
      new;
      TableIs(map[]);
    }

    /** Different addresses are different memory, none of it txbuf's. */
    ghost predicate HeapOk()
      reads this`heap, this`brk, this`bufs, this`arrays, bufs, arrays
    {
      && net.txbuf.payload.Length == BUF_MAX_LEN && net.txbuf !in bufs && net.txbuf.payload !in arrays
      && (forall p <- heap :: p < brk && heap[p] in bufs && heap[p].payload in arrays && heap[p].Valid())
      && (forall p, q :: p in heap && q in heap && p != q ==> heap[p] != heap[q] && heap[p].payload != heap[q].payload)
    }

    /** The pointers of an open connection point to what is allocated at these addresses. */
    ghost predicate Linked(c: Connect)
      reads this`heap, this`hist, c
    {
      && c.rxAt in heap && c.txAt in heap && c.rxAt != c.txAt && heap[c.rxAt] == c.rxBuf && heap[c.txAt] == c.txBuf
      && c.rxAt in hist && hist[c.rxAt] == c.hist && c.Logged(net.ip)
    }

    ghost predicate Unshared(c: Connect, d: Connect)
      reads c, d
    {
      c.rxAt != d.rxAt && c.rxAt != d.txAt && c.txAt != d.rxAt && c.txAt != d.txAt
    }

    /** Entries are different slots, and open connections own different buffers. */
    ghost predicate Valid()
      reads this, conns.Values, bufs, arrays
    {
      && HeapOk() && AllReset(resetBytes, resets, net.ip)
      && (forall k <- conns :: conns[k].state != LISTEN ==> Linked(conns[k]))
      && (forall j, k :: j in conns && k in conns && j != k ==> conns[j] != conns[k])
      && (forall j, k :: j in conns && k in conns && j != k && conns[j].state != LISTEN && conns[k].state != LISTEN ==>
            Unshared(conns[j], conns[k]))
    }

    ghost function Mem(): Env
      requires HeapOk()
      reads this`heap, this`brk, this`freed, this`resets, this`resetBytes, this`hist, this`bufs, this`arrays
      reads bufs, arrays
    {
      Env(map p <- heap :: heap[p].Value(), brk, freed, resets, hist)
    }

    ghost function View(): State
      requires HeapOk()
      reads this, conns.Values, bufs, arrays
    {
      State(Mem(), ports, map k <- conns :: conns[k].Value(), cap, stop)
    }

    /** The machine is in state `t`, or it has stopped where `t` has, by a copy that left its array. */
    ghost predicate Meets(t: State)
      reads this, conns.Values, bufs, arrays
    {
      stop == t.stop && (Intact(t) ==> Valid() && View() == t)
    }

    /** The table's value, entry by entry. */
    lemma TableIs(m: map<Key, Conn>)
      requires HeapOk() && conns.Keys == m.Keys && forall j <- conns :: conns[j].Value() == m[j]
      ensures View().conns == m
    {
    }

    /** An open connection in a slot, seen from the machine. */
    lemma SlotReady(k: Key)
      requires Valid() && k in conns && conns[k].state != LISTEN
      ensures var c := conns[k];
              && HeapOk() && c.Ready(net) && {c.rxBuf, c.txBuf} <= bufs && {c.rxBuf.payload, c.txBuf.payload} <= arrays
              && k in View().conns && View().conns[k] == c.Value() && Owns(View().env, c.Value())
              && c.Link() == Load(View().env, c.Value()) && View().stop == stop
    {
    }

    predicate IsArrayOf(a: array<byte>, b: Buf?) {
      b != null && b.payload == a
    }

    twostate predicate OthersSame(new c: Connect)
      reads this`conns, conns.Values
    {
      conns == old(conns) && forall j <- conns :: conns[j] != c ==> unchanged(conns[j])
    }

    twostate predicate SameBufs()
      reads this`bufs, this`arrays, bufs, arrays
    {
      && bufs == old(bufs) && arrays == old(arrays)
      && (forall b <- bufs :: unchanged(b)) && (forall a <- arrays :: unchanged(a))
    }

    /** Since the method began, only the connection in slot `k`, its buffers and its history have changed. */
    twostate predicate OnlySlot(k: Key)
      requires k in conns
      reads this, conns.Values, bufs, arrays
    {
      var c := conns[k];
      && OthersSame(c) && heap == old(heap) && bufs == old(bufs) && arrays == old(arrays)
      && brk == old(brk) && freed == old(freed) && resets == old(resets) && resetBytes == old(resetBytes)
      && ports == old(ports) && stop == old(stop)
      && c.rxBuf == old(c.rxBuf) && c.txBuf == old(c.txBuf) && c.rxAt == old(c.rxAt) && c.txAt == old(c.txAt)
      && hist == old(hist)[c.rxAt := c.hist]
      && (forall b <- bufs :: b != c.rxBuf && b != c.txBuf ==> unchanged(b))
      && (forall a <- arrays :: !IsArrayOf(a, c.rxBuf) && !IsArrayOf(a, c.txBuf) ==> unchanged(a))
    }

    twostate lemma Operated(k: Key)
      requires old(Valid()) && k in old(conns) && old(conns[k].state) != LISTEN
      requires k in conns && OnlySlot(k) && conns[k].HasBufs() && conns[k].state != LISTEN && conns[k].Logged(net.ip)
      ensures Valid() && View() == Update(old(View()), k, conns[k].Link()) && View().stop == stop
    {
      hide HeapOk, Mem, Linked, Buf.Value, Connect.Value, Save, Unshared;
      var c := conns[k];
      OperatedHeap(k);
      OperatedValid(k);
      forall j <- conns
        ensures j != k ==> conns[j].Value() == old(conns[j].Value())
      {
      }
      TableIs(old(View()).conns[k := c.Value()]);
    }

    twostate lemma OperatedHeap(k: Key)
      requires old(Valid()) && k in old(conns) && old(conns[k].state) != LISTEN
      requires k in conns && OnlySlot(k) && conns[k].HasBufs()
      ensures HeapOk() && Mem() == Save(old(Mem()), conns[k].Link())
    {
      hide Buf.Value, Buf.View, Buf.Valid, HeapOk, Valid;
      var c := conns[k];
      OthersKept(k);
      MemIs(Save(old(Mem()), c.Link()));
    }

    twostate lemma OthersKept(k: Key)
      requires old(Valid()) && k in old(conns) && old(conns[k].state) != LISTEN
      requires k in conns && OnlySlot(k) && conns[k].HasBufs()
      ensures HeapOk() && old(HeapOk()) && old(Linked(conns[k]))
      ensures forall p <- heap :: p != conns[k].rxAt && p != conns[k].txAt ==> heap[p].Value() == old(heap[p].Value())
    {
      hide Buf.Value, Buf.View, Buf.Valid, Mem, View;
      var c := conns[k];
      assert old(Linked(c));
      forall p <- heap
        ensures heap[p].Valid()
        ensures p != c.rxAt && p != c.txAt ==> heap[p].Value() == old(heap[p].Value())
      {
        assert heap[p] in bufs && heap[p].payload in arrays;
      }
    }

    twostate lemma OperatedValid(k: Key)
      requires old(Valid()) && k in old(conns) && old(conns[k].state) != LISTEN
      requires k in conns && OnlySlot(k) && HeapOk() && conns[k].Logged(net.ip)
      ensures Valid()
    {
      hide HeapOk;
      forall j <- conns
        ensures conns[j].state != LISTEN ==> Linked(conns[j])
        ensures j != k ==>
                  conns[j].state == old(conns[j].state)
                   && conns[j].rxAt == old(conns[j].rxAt) && conns[j].txAt == old(conns[j].txAt)
      {
      }
    }

    // ----- operations on one connection as steps of the whole state

    method ReadAt(k: Key, len: nat) returns (data: seq<byte>)
      requires Valid() && k in conns && conns[k].state != LISTEN
      modifies this`hist, conns[k], bufs, arrays
      ensures Valid() && View() == Update(old(View()), k, Apply(old(conns[k].Link()), OpRead(len)))
      ensures data <= old(conns[k].Link()).rx.w.bytes && |data| == ReadSize(old(conns[k].Link()), len)
    {
      hide Valid, View, HeapOk, Buf.Value, Buf.View, Buf.Valid, Linked, Mem, Load, Owns, Update;
      hide Tcp.ConnectRead, ReadSize;
      SlotReady(k);
      var c := conns[k];
      data := c.ConnectRead(len);
      hist := hist[c.rxAt := c.hist];
      Operated(k);
    }

    method WriteAt(k: Key, data: seq<byte>) returns (taken: nat)
      requires Valid() && k in conns && conns[k].state != LISTEN
      modifies this`hist, conns[k], bufs, arrays, net.txbuf, net.txbuf.payload
      ensures Valid() && View() == Update(old(View()), k, Apply(old(conns[k].Link()), OpWrite(data)))
      ensures taken == Accepted(old(conns[k].Link()), data)
    {
      hide Valid, View, HeapOk, Buf.Value, Buf.View, Buf.Valid, Linked, Mem, Load, Owns, Update;
      hide Tcp.ConnectWrite, Accepted;
      SlotReady(k);
      var c := conns[k];
      taken := c.ConnectWrite(net, data);
      hist := hist[c.rxAt := c.hist];
      Operated(k);
    }

    /** The SYN_RCVD case of tcp_in. */
    method SynRcvd(k: Key, g: Segment, script: seq<Op>)
      requires Valid() && k in conns && conns[k].state == SYN_RCVD
      modifies this`hist, conns[k], bufs, arrays, net.txbuf, net.txbuf.payload
      ensures Valid() && View() == OnSynRcvd(old(View()), k, g, script)
    {
      hide Valid, View, HeapOk, Buf.Value, Buf.View, Buf.Valid, Linked, Mem, Load, Owns, Update;
      hide Tcp.Callback, Add32;
      SlotReady(k);
      var c := conns[k];
      if Ack(g.flags) {
        c.Establish(net, script);
        hist := hist[c.rxAt := c.hist];
        Operated(k);
      }
    }

    method EstablishedAt(k: Key, g: Segment, buf: Buf, script: seq<Op>)
      requires Valid() && k in conns && conns[k].state == ESTABLISHED && stop == Running
      requires Foreign(buf) && g.payload == buf.View().bytes
      modifies this`hist, this`stop, conns[k], bufs, arrays, net.txbuf, net.txbuf.payload
      ensures Meets(OnEstablished(old(View()), k, g, script))
    {
      hide Valid, View, HeapOk, Buf.Value, Buf.View, Buf.Valid, Linked, Mem, Load, Owns, Update;
      hide EstablishedStop, Established;
      SlotReady(k);
      var c := conns[k];
      var r := c.OnEstablished(net, g, buf, script);
      if r != Running {
        LeavesArray(old(c.Link()), g, script);
        stop := r;
      } else {
        hist := hist[c.rxAt := c.hist];
        EstablishedOpen(old(c.Link()), g, script);
        Operated(k);
      }
    }

    /** `b` is none of the machine's buffers. */
    ghost predicate Foreign(b: Buf)
      reads this`bufs, this`arrays, b
    {
      b.Valid() && b !in bufs && b.payload !in arrays && b != net.txbuf && b.payload != net.txbuf.payload
    }

    // ----- the table

    /** release_tcp_connect on a struct that is in slot `k`, or has left the table. */
    method Release(c: Connect, ghost k: Key)
      requires Valid() && (if k in conns then conns[k] == c else c.state == LISTEN)
      modifies this`heap, this`freed, c`state
      ensures Valid() && conns == old(conns)
      ensures View() == if k in conns then Released(old(View()), k) else old(View())
      ensures c.Value() == old(c.Value()).(state := LISTEN)
    {
      hide Buf.Value, Buf.Valid, Buf.View, HeapOk, Mem, Valid, View, Tcp.Release, Released;
      HeapIsOk();
      if c.state == LISTEN {
        if k in conns {
          NothingReleased(k);
        }
        return;
      }
      heap, freed := heap - {c.rxAt}, freed + [c.rxAt];
      heap, freed := heap - {c.txAt}, freed + [c.txAt];
      c.state := LISTEN;
      TwoReleased(k);
      HeapIsOk();
    }

    /** What ip_out was given: for an open connection its segments, in order and sealed for its peer; and the resets. */
    lemma HandedOver(k: Key)
      requires Valid() && k in conns && conns[k].state != LISTEN
      ensures var e, c := View().env, conns[k].Value();
              && Owns(e, c) && AllSealed(conns[k].handed, Load(e, c).h.sent, net.ip, c.ip)
              && AllReset(resetBytes, e.resets, net.ip)
    {
      hide AllSealed, AllReset, HeapOk;
      SlotReady(k);
    }

    lemma HeapIsOk()
      requires Valid()
      ensures HeapOk() && View().stop == stop && View().conns.Keys == conns.Keys && AllReset(resetBytes, resets, net.ip)
      ensures forall j <- conns :: View().conns[j] == conns[j].Value()
    {
    }

    lemma NothingReleased(k: Key)
      requires Valid() && k in conns && conns[k].state == LISTEN
      ensures k in View().conns && Released(View(), k) == View()
    {
      assert View().conns[k := conns[k].Value()] == View().conns;
    }

    lemma MemIs(e: Env)
      requires HeapOk() && heap.Keys == e.heap.Keys && forall p <- heap :: heap[p].Value() == e.heap[p]
      requires e == Env(e.heap, brk, freed, resets, hist)
      ensures Mem() == e
    {
    }

    twostate lemma TwoReleased(k: Key)
      requires old(Valid()) && k in old(conns) && old(conns[k].state) != LISTEN
      requires k in conns && OthersSame(conns[k]) && SameBufs()
      requires heap == old(heap) - {conns[k].rxAt} - {conns[k].txAt}
      requires freed == old(freed) + [conns[k].rxAt] + [conns[k].txAt]
      requires conns[k].Value() == Listening(old(conns[k].Value()))
      requires brk == old(brk) && resets == old(resets) && resetBytes == old(resetBytes) && hist == old(hist)
               && ports == old(ports) && stop == old(stop)
      ensures Valid() && View() == Released(old(View()), k)
    {
      hide Mem, Buf.Value, Buf.Valid, Buf.View, HeapOk, Linked, Unshared;
      var c, s := conns[k], old(View());
      forall j <- conns
        ensures j != k ==> conns[j].Value() == old(conns[j].Value())
      {
      }
      ReleasedValid(k);
      OldMem();
      MemIs(Tcp.Release(s.env, s.conns[k]));
      TableIs(s.conns[k := c.Value()]);
    }

    twostate lemma ReleasedValid(k: Key)
      requires old(Valid()) && k in old(conns) && old(conns[k].state) != LISTEN
      requires k in conns && OthersSame(conns[k]) && SameBufs()
      requires heap == old(heap) - {conns[k].rxAt} - {conns[k].txAt}
      requires conns[k].Value() == Listening(old(conns[k].Value())) && brk == old(brk) && hist == old(hist)
      requires resets == old(resets) && resetBytes == old(resetBytes)
      ensures Valid()
    {
      hide Mem, View, Buf.Value, Buf.Valid, Buf.View;
      assert HeapOk();
      forall j <- conns
        ensures j != k ==> conns[j].Value() == old(conns[j].Value()) && conns[j].hist == old(conns[j].hist)
        ensures j != k ==> conns[j].rxBuf == old(conns[j].rxBuf) && conns[j].txBuf == old(conns[j].txBuf)
        ensures conns[j].state != LISTEN ==> Linked(conns[j])
      {
        if j != k && conns[j].state != LISTEN {
          assert old(Linked(conns[j])) && old(Unshared(conns[j], conns[k]));
        }
      }
    }

    twostate lemma OldMem()
      requires old(HeapOk()) && SameBufs() && heap.Keys <= old(heap).Keys
      requires forall p <- heap :: heap[p] == old(heap[p])
      ensures forall p <- heap :: p in old(Mem()).heap && heap[p].Value() == old(Mem()).heap[p]
      ensures old(Mem()) == Env(old(Mem()).heap, old(brk), old(freed), old(resets), old(hist))
      ensures old(Mem()).heap.Keys == old(heap).Keys
    {
      hide Buf.Value, Buf.Valid, Buf.View;
    }

    /** map_delete on the table. */
    method Delete(key: Key)
      requires Valid()
      modifies this`conns
      ensures Valid() && conns == old(conns) - {key} && View() == old(View()).(conns := old(View()).conns - {key})
    {
      hide Buf.Value, Buf.Valid, Buf.View, HeapOk, Mem, Linked, Connect.Value, Unshared;
      ghost var m := View().conns;
      conns := conns - {key};
      TableIs(m - {key});
    }

    /** The struct is in slot `k`, if it is in the table and that slot is in use. */
    ghost predicate OnlyIn(c: Connect, k: Key)
      reads this`conns
    {
      (k in conns ==> conns[k] == c) && forall j <- conns :: conns[j] == c ==> j == k
    }

    lemma OneSlot(k: Key)
      requires Valid() && k in conns
      ensures OnlyIn(conns[k], k)
      ensures HeapOk() && k in View().conns && View().conns[k] == conns[k].Value() && View().stop == stop
    {
    }

    /** The ESTABLISHED branch of tcp_connect_close. */
    method CloseOpen(c: Connect, ghost k: Key)
      requires Valid() && k in conns && conns[k] == c && c.state == ESTABLISHED && stop == Running
      modifies this`hist, this`stop, c, bufs, arrays, net.txbuf, net.txbuf.payload
      ensures CanClose(old(View()), old(c.Value())) && Meets(Tcp.Close(old(View()), k, old(c.Value())).0)
      ensures stop == Running ==>
                c.Value() == Tcp.Close(old(View()), k, old(c.Value())).1 && OnlyIn(c, k) && k in conns
    {
      hide Valid, View, HeapOk, Buf.Value, Buf.View, Buf.Valid, Linked, Mem, Load, Owns, Update;
      hide Flush, Overreads, AllSealed;
      OneSlot(k);
      SlotReady(k);
      var ok := c.SendFin(net);
      if !ok {
        stop := Overread(c.rxAt);
        return;
      }
      hist := hist[c.rxAt := c.hist];
      Operated(k);
      FinWaitIs(old(View()), k, Flush(old(c.Link()), ACK_FIN));
      OneSlot(k);
    }

    /** tcp_connect_close on the struct in slot `k`. */
    method ConnectClose(c: Connect, ghost k: Key)
      requires Valid() && k in conns && conns[k] == c && stop == Running
      modifies this`heap, this`freed, this`hist, this`conns, this`stop, c, bufs, arrays, net.txbuf, net.txbuf.payload
      ensures CanClose(old(View()), old(c.Value())) && Meets(Tcp.Close(old(View()), k, old(c.Value())).0)
      ensures stop == Running ==>
                && c.Value() == Tcp.Close(old(View()), k, old(c.Value())).1
                && OnlyIn(c, k) && (c.state != LISTEN ==> k in conns)
    {
      hide Valid, View, HeapOk, Buf.Value, Buf.View, Buf.Valid, Linked, Mem, Load, Owns, Update, Connect.Link;
      OneSlot(k);
      if c.state == ESTABLISHED {
        CloseOpen(c, k);
      } else {
        hide Flush, Overreads;
        var key := Key(c.ip, c.remotePort, c.localPort);
        Release(c, k);
        Delete(key);
      }
    }

    /** Since the method began, only numbers in the struct `c` and logs have changed. */
    twostate lemma StillValid(c: Connect)
      requires old(Valid()) && OthersSame(c) && SameBufs()
      requires c.state == old(c.state) && c.hist == old(c.hist) && c.rxBuf == old(c.rxBuf) && c.txBuf == old(c.txBuf)
      requires c.rxAt == old(c.rxAt) && c.txAt == old(c.txAt) && c.handed == old(c.handed) && c.ip == old(c.ip)
      requires heap == old(heap) && brk == old(brk) && hist == old(hist) && AllReset(resetBytes, resets, net.ip)
      ensures Valid()
    {
      hide Buf.Value, Buf.Valid, Buf.View, Mem, View;
      assert HeapOk();
      forall j <- conns
        ensures conns[j].state != LISTEN ==> Linked(conns[j])
      {
        if conns[j].state != LISTEN {
          assert old(Linked(conns[j]));
        }
      }
    }

    /** The RST answer at the label reset_tcp, by a struct that is in slot `k`, or has left the table. */
    method SendReset(c: Connect, ghost k: Key, gotSeq: u32)
      requires Valid() && OnlyIn(c, k)
      modifies this`resets, this`resetBytes, c`nextSeq, c`ack, net.txbuf, net.txbuf.payload
      ensures Valid()
      ensures c.Value() == Reset0(old(c.Value()), gotSeq)
      ensures View() == Refused(old(View()), k, c.Value(), Refusal(c.Value()))
    {
      hide Buf.Value, Buf.Valid, Buf.View, Linked, Unshared, Mem, Valid, Connect.Value, Add32, AllReset, Sealed;
      HeapIsOk();
      ghost var s := View();
      assert net.txbuf.payload.Length == BUF_MAX_LEN && net.txbuf !in bufs && net.txbuf.payload !in arrays;
      ghost var bytes := c.Refuse(net, gotSeq);
      var g := Segment(c.localPort, c.remotePort, c.nextSeq, c.ack, ACK_RST, c.remoteWin, []);
      ConnectIs(c);
      ResetMore(resetBytes, resets, net.ip, Outgoing(c.ip, g));
      resets, resetBytes := resets + [Outgoing(c.ip, g)], resetBytes + [bytes];
      StillValid(c);
      OldMem();
      MemIs(WithReset(s.env, c.ip, g));
      TableIs(Refused(s, k, c.Value(), g).conns);
    }

    lemma ConnectIs(c: Connect)
      ensures c.Value().ip == c.ip
      ensures Refusal(c.Value()) == Segment(c.localPort, c.remotePort, c.nextSeq, c.ack, ACK_RST, c.remoteWin, [])
    {
    }

    /** The label reset_tcp. */
    method ResetTcp(c: Connect, key: Key, gotSeq: u32)
      requires Valid() && (if key in conns then conns[key] == c else c.state == LISTEN)
      requires OnlyIn(c, key)
      modifies this`heap, this`freed, this`resets, this`resetBytes, this`conns, c, net.txbuf, net.txbuf.payload
      ensures Valid() && View() == Reset(old(View()), key, old(c.Value()), gotSeq)
    {
      hide Valid, View, HeapOk, Buf.Value, Buf.View, Buf.Valid, Linked, Mem, Load, Owns, Update;
      hide Tcp.Release;
      HeapIsOk();
      ghost var s, c0 := View(), c.Value();
      SendReset(c, key, gotSeq);
      Release(c, key);
      Delete(key);
      HeapIsOk();
      ResetIs(s, key, c0, gotSeq);
    }

    // ----- opening

    /** The connection's part of AcceptSyn, with the two buffers now known to the machine. */
    method InitRcvd(c: Connect, k: Key, g: Segment, chance: Chance)
      requires Valid() && k in conns && conns[k] == c && c.state == LISTEN
      modifies this`heap, this`bufs, this`arrays, this`brk, this`hist, c
      ensures Valid() && c.state == SYN_RCVD
      ensures View() == Opened(old(View()), k, NewLink(old(brk), k, g, chance))
    {
      hide Valid, View, HeapOk, Buf.Value, Buf.Valid, Linked, Mem, Opened, NewLink, Connect.Value, Connect.Link;
      assert OnlyIn(c, k) by { OneSlot(k); }
      var rx, tx := c.InitRcvd(brk, k, g, chance);
      Register(c, rx, tx);
      Allocated(k);
    }

    /** malloc's side of it. */
    method Register(c: Connect, rx: Buf, tx: Buf)
      modifies this`heap, this`bufs, this`arrays, this`brk, this`hist
      ensures heap == old(heap)[old(brk) := rx][old(brk) + 1 := tx] && brk == old(brk) + 2
      ensures bufs == old(bufs) + {rx, tx} && arrays == old(arrays) + {rx.payload, tx.payload}
      ensures hist == old(hist)[c.rxAt := c.hist]
    {
      heap, bufs, arrays := heap[brk := rx][brk + 1 := tx], bufs + {rx, tx}, arrays + {rx.payload, tx.payload};
      brk := brk + 2;
      hist := hist[c.rxAt := c.hist];
    }

    /** Since the method began, the struct in slot `k` left LISTEN with two new buffers at the next two addresses. */
    twostate predicate Grown(k: Key)
      requires k in conns
      reads this, conns.Values, bufs, arrays
    {
      var c := conns[k];
      && OthersSame(c) && c.rxAt == old(brk) && c.txAt == old(brk) + 1 && c.rxBuf != null && c.txBuf != null
      && brk == old(brk) + 2 && heap == old(heap)[old(brk) := c.rxBuf][old(brk) + 1 := c.txBuf]
      && bufs == old(bufs) + {c.rxBuf, c.txBuf} && arrays == old(arrays) + {c.rxBuf.payload, c.txBuf.payload}
      && c.rxBuf !in old(bufs) + {net.txbuf} && c.txBuf !in old(bufs) + {net.txbuf}
      && c.rxBuf.payload !in old(arrays) + {net.txbuf.payload} && c.txBuf.payload !in old(arrays) + {net.txbuf.payload}
      && hist == old(hist)[c.rxAt := c.hist] && freed == old(freed) && resets == old(resets)
      && resetBytes == old(resetBytes)
      && ports == old(ports) && stop == old(stop)
      && (forall b <- old(bufs) :: unchanged(b)) && (forall a <- old(arrays) :: unchanged(a))
    }

    twostate lemma Allocated(k: Key)
      requires old(Valid()) && k in old(conns) && old(conns[k].state) == LISTEN
      requires k in conns && Grown(k) && conns[k].HasBufs() && conns[k].state != LISTEN && conns[k].Logged(net.ip)
      ensures Valid() && View() == Opened(old(View()), k, conns[k].Link())
    {
      hide HeapOk, Mem, Linked, Buf.Value, Connect.Value, Save, Unshared;
      var c := conns[k];
      AllocatedHeap(k);
      AllocatedValid(k);
      forall j <- conns
        ensures j != k ==> conns[j].Value() == old(conns[j].Value())
      {
      }
      TableIs(old(View()).conns[k := c.Value()]);
    }

    twostate lemma AllocatedHeap(k: Key)
      requires old(Valid()) && k in conns && Grown(k) && conns[k].HasBufs()
      ensures HeapOk() && Mem() == Save(old(Mem()).(brk := old(Mem()).brk + 2), conns[k].Link())
    {
      hide Buf.Value, Buf.View, Buf.Valid;
      var c := conns[k];
      forall p <- old(heap)
        ensures heap[p] == old(heap[p]) && heap[p].Valid() && heap[p].Value() == old(heap[p].Value())
      {
        assert heap[p] in old(bufs) && heap[p].payload in old(arrays);
      }
      MemIs(Save(old(Mem()).(brk := brk), c.Link()));
    }

    twostate lemma AllocatedValid(k: Key)
      requires old(Valid()) && k in old(conns) && old(conns[k].state) == LISTEN
      requires k in conns && Grown(k) && HeapOk() && conns[k].Logged(net.ip)
      ensures Valid()
    {
      hide Buf.Valid, View, Mem;
      var c := conns[k];
      forall j <- conns
        ensures conns[j].state != LISTEN ==> Linked(conns[j])
        ensures j != k ==>
                  conns[j].state == old(conns[j].state)
                   && conns[j].rxAt == old(conns[j].rxAt) && conns[j].txAt == old(conns[j].txAt)
        ensures j != k && conns[j].state != LISTEN ==> conns[j].rxAt < old(brk) && conns[j].txAt < old(brk)
      {
        if j != k && conns[j].state != LISTEN {
          assert old(Linked(conns[j]));
        }
      }
    }

    /** The first SYN: the connection opens and answers with SYN+ACK. */
    method AcceptSyn(c: Connect, k: Key, g: Segment, chance: Chance)
      requires Valid() && k in conns && conns[k] == c && c.state == LISTEN
      modifies this`heap, this`bufs, this`arrays, this`brk, this`hist, c, net.txbuf, net.txbuf.payload
      ensures Valid() && View() == Open(old(View()), k, g, chance)
    {
      hide Valid, View, HeapOk, Buf.Value, Buf.View, Buf.Valid, Linked, Mem, Load, Owns, Update;
      hide Tcp.Send, NewLink, Opened, Open;
      HeapIsOk();
      ghost var s, l := View(), NewLink(brk, k, g, chance);
      OpenIs(s, k, g, chance);
      assert s.env.brk == brk by { MemBrk(); }
      InitRcvd(c, k, g, chance);
      HeapIsOk();
      AnswerSyn(c, k);
    }

    lemma MemBrk()
      requires HeapOk()
      ensures View().env.brk == brk
    {
    }

    method AnswerSyn(c: Connect, k: Key)
      requires Valid() && k in conns && conns[k] == c && c.state == SYN_RCVD
      modifies this`hist, c, net.txbuf, net.txbuf.payload
      ensures Valid() && View() == Update(old(View()), k, Tcp.Send(Load(old(View()).env, old(c.Value())), [], ACK_SYN))
    {
      hide Valid, View, HeapOk, Buf.Value, Buf.View, Buf.Valid, Linked, Mem, Load, Owns, Update;
      hide Tcp.Send;
      SlotReady(k);
      c.SendEmpty(net, ACK_SYN);
      hist := hist[c.rxAt := c.hist];
      Operated(k);
    }

    // ----- the switch of tcp_in

    method FinWait1(c: Connect, k: Key, g: Segment)
      requires Valid() && k in conns && conns[k] == c && c.state == FIN_WAIT_1 && stop == Running
      modifies this`heap, this`freed, this`hist, this`conns, this`stop, c, bufs, arrays, net.txbuf, net.txbuf.payload
      ensures Meets(OnFinWait1(old(View()), k, g))
    {
      hide Valid, View, HeapOk, Buf.Value, Buf.View, Buf.Valid, Linked, Mem, Load, Owns, Update;
      hide Tcp.Close;
      SlotReady(k);
      if Fin(g.flags) && Ack(g.flags) {
        ConnectClose(c, k);
      } else if Ack(g.flags) {
        c.state := FIN_WAIT_2;
        hist := hist[c.rxAt := c.hist];
        Operated(k);
      }
    }

    method FinWait2(c: Connect, k: Key, g: Segment)
      requires Valid() && k in conns && conns[k] == c && c.state == FIN_WAIT_2 && stop == Running
      modifies this`heap, this`freed, this`hist, this`conns, this`stop, c, bufs, arrays, net.txbuf, net.txbuf.payload
      ensures Meets(OnFinWait2(old(View()), k, g))
    {
      hide Valid, View, HeapOk, Buf.Value, Buf.View, Buf.Valid, Linked, Mem, Load, Owns, Update;
      hide Tcp.Close, Tcp.Send, Add32;
      SlotReady(k);
      if Fin(g.flags) {
        FinSeen(c, k);
        HeapIsOk();
        ConnectClose(c, k);
      }
    }

    method FinSeen(c: Connect, k: Key)
      requires Valid() && k in conns && conns[k] == c && c.state == FIN_WAIT_2
      modifies this`hist, c, bufs, arrays, net.txbuf, net.txbuf.payload
      ensures Valid() && c.state == FIN_WAIT_2
      ensures var l := Load(old(View()).env, old(c.Value()));
              var m := Tcp.Send(l.(c := l.c.(ack := Add32(l.c.ack, 1))), [], ACK);
              View() == Update(old(View()), k, m) && c.Value() == m.c
    {
      hide Valid, View, HeapOk, Buf.Value, Buf.View, Buf.Valid, Linked, Mem, Load, Owns, Update;
      hide Tcp.Send, Add32;
      SlotReady(k);
      c.ack := Add32(c.ack, 1);
      c.SendEmpty(net, ACK);
      hist := hist[c.rxAt := c.hist];
      Operated(k);
    }

    method LastAck(c: Connect, k: Key, g: Segment, script: seq<Op>)
      requires Valid() && k in conns && conns[k] == c && c.state == LAST_ACK && stop == Running
      modifies this`heap, this`freed, this`hist, this`conns, this`stop, c, bufs, arrays, net.txbuf, net.txbuf.payload
      ensures Meets(OnLastAck(old(View()), k, g, script))
    {
      hide Valid, View, HeapOk, Buf.Value, Buf.View, Buf.Valid, Linked, Mem, Load, Owns, Update;
      hide Tcp.Close, Tcp.Callback;
      SlotReady(k);
      if Ack(g.flags) {
        LastCall(c, k, script);
        HeapIsOk();
        ConnectClose(c, k);
      }
    }

    method LastCall(c: Connect, k: Key, script: seq<Op>)
      requires Valid() && k in conns && conns[k] == c && c.state == LAST_ACK
      modifies this`hist, c, bufs, arrays, net.txbuf, net.txbuf.payload
      ensures Valid() && c.state == LAST_ACK
      ensures var m := Tcp.Callback(Load(old(View()).env, old(c.Value())), CLOSED, script);
              View() == Update(old(View()), k, m) && c.Value() == m.c
    {
      hide Valid, View, HeapOk, Buf.Value, Buf.View, Buf.Valid, Linked, Mem, Load, Owns, Update;
      hide Tcp.Callback;
      SlotReady(k);
      c.Callback(net, CLOSED, script);
      hist := hist[c.rxAt := c.hist];
      Operated(k);
    }

    /** The switch of tcp_in. */
    method Dispatch(c: Connect, k: Key, g: Segment, buf: Buf, script: seq<Op>)
      requires Valid() && k in conns && conns[k] == c && c.state != LISTEN && stop == Running
      requires Foreign(buf) && g.payload == buf.View().bytes
      modifies this`heap, this`freed, this`hist, this`conns, this`stop, c, bufs, arrays, net.txbuf, net.txbuf.payload
      ensures CanProcess(old(View()), k) && Meets(Switch(old(View()), k, g, script))
    {
      hide Valid, View, HeapOk, Buf.Value, Buf.View, Buf.Valid, Linked, Mem, Load, Owns, Update;
      hide OnSynRcvd, Tcp.OnEstablished, OnFinWait1, OnFinWait2, OnLastAck;
      SlotReady(k);
      match c.state
      case SYN_RCVD => SynRcvd(k, g, script); HeapIsOk();
      case ESTABLISHED => EstablishedAt(k, g, buf, script);
      case FIN_WAIT_1 => FinWait1(c, k, g);
      case FIN_WAIT_2 => FinWait2(c, k, g);
      case LAST_ACK => LastAck(c, k, g, script);
      case SYN_SEND => Stopped(Panic);
      case CLOSE_WAIT => Stopped(Panic);
      case CLOSING => Stopped(Panic);
      case TIME_WAIT => Stopped(Panic);
    }

    /** panic, or a failed assertion. */
    method Stopped(why: Stop)
      requires Valid()
      modifies this`stop
      ensures Valid() && stop == why && View() == old(View()).(stop := why)
    {
      hide HeapOk, Linked, Mem, Unshared;
      stop := why;
    }

    /** Step 8 of tcp_in: a segment for an entry in LISTEN. */
    method OnListen(c: Connect, k: Key, g: Segment, chance: Chance)
      requires Valid() && k in conns && conns[k] == c && c.state == LISTEN && stop == Running
      modifies this`heap, this`bufs, this`arrays, this`brk, this`freed, this`resets, this`resetBytes, this`hist
      modifies this`conns, this`stop
      modifies c, bufs, arrays, net.txbuf, net.txbuf.payload
      ensures CanProcess(old(View()), k) && Meets(Process(old(View()), k, g, chance, []))
    {
      hide Valid, View, HeapOk, Buf.Value, Buf.View, Buf.Valid, Linked, Mem, Load, Owns, Update;
      hide Tcp.Close, Reset, Open;
      HeapIsOk();
      OneSlot(k);
      if Rst(g.flags) {
        ConnectClose(c, k);
      } else if !Syn(g.flags) {
        ResetTcp(c, k, g.seqNo);
        HeapIsOk();
      } else {
        AcceptSyn(c, k, g, chance);
        HeapIsOk();
      }
    }

    /** Step 9: a segment that is not the next one. */
    method OnStray(c: Connect, k: Key, gotSeq: u32)
      requires Valid() && k in conns && conns[k] == c && stop == Running
      modifies this`heap, this`freed, this`resets, this`resetBytes, this`conns, c, net.txbuf, net.txbuf.payload
      ensures Meets(Reset(old(View()), k, old(c.Value()), gotSeq))
    {
      hide Valid, View, HeapOk, Buf.Value, Buf.View, Buf.Valid, Linked, Mem, Load, Owns, Update;
      hide Reset;
      HeapIsOk();
      OneSlot(k);
      ResetTcp(c, k, gotSeq);
      HeapIsOk();
    }

    /** Step 10: a RST closes the connection, and then resets it. */
    method OnRst(c: Connect, k: Key, gotSeq: u32)
      requires Valid() && k in conns && conns[k] == c && c.state != LISTEN && stop == Running
      modifies this`heap, this`freed, this`resets, this`resetBytes, this`hist, this`conns, this`stop
      modifies c, bufs, arrays, net.txbuf, net.txbuf.payload
      ensures CanClose(old(View()), old(c.Value()))
      ensures var r := Tcp.Close(old(View()), k, old(c.Value()));
              Meets(if Intact(r.0) then Reset(r.0, k, r.1, gotSeq) else r.0)
    {
      hide Valid, View, HeapOk, Buf.Value, Buf.View, Buf.Valid, Linked, Mem, Load, Owns, Update;
      hide Tcp.Close, Reset;
      SlotReady(k);
      CloseStops(View(), k, c.Value());
      ConnectClose(c, k);
      if stop == Running {
        HeapIsOk();
        ResetTcp(c, k, gotSeq);
        HeapIsOk();
      }
    }

    /** tcp_in from step 8 on, with the segment's bytes in `buf`. */
    method OnSegment(c: Connect, k: Key, g: Segment, buf: Buf, chance: Chance, script: seq<Op>)
      requires Valid() && k in conns && conns[k] == c && stop == Running
      requires Foreign(buf) && buf.len >= TCP_HDR && g.payload == buf.View().bytes[TCP_HDR..]
      modifies this`heap, this`bufs, this`arrays, this`brk, this`freed, this`resets, this`resetBytes, this`hist
      modifies this`conns, this`stop
      modifies c, bufs, arrays, net.txbuf, net.txbuf.payload, buf
      ensures CanProcess(old(View()), k) && Meets(Process(old(View()), k, g, chance, script))
    {
      hide Valid, View, HeapOk, Buf.Value, Buf.View, Buf.Valid, Linked, Mem, Load, Owns, Update;
      hide Tcp.Close, Reset, Open, Switch;
      if c.state == LISTEN {
        HeapIsOk();
        OnListen(c, k, g, chance);
        return;
      }
      SlotReady(k);
      if g.seqNo != c.ack {
        OnStray(c, k, g.seqNo);
      } else if Rst(g.flags) {
        OnRst(c, k, g.seqNo);
      } else {
        var _ := buf.RemoveHeader(TCP_HDR);
        Dispatch(c, k, g, buf, script);
      }
    }

    /** map_set of a fresh entry. */
    method Insert(k: Key, ip: Ip)
      requires Valid() && k !in conns
      modifies this`conns
      ensures Valid() && k in conns && conns == old(conns)[k := conns[k]] && fresh(conns[k])
      ensures View() == old(View()).(conns := old(View()).conns[k := FreshConn(ip)])
    {
      hide Buf.Value, Buf.Valid, Buf.View, HeapOk, Mem, Linked, Unshared, Valid, Connect.Value, Connect.Link;
      HeapIsOk();
      ghost var m := View().conns;
      var created := new Connect(ip);
      ListensIn(created, ip);
      conns := conns[k := created];
      Inserted(k);
      TableIs(m[k := FreshConn(ip)]);
    }

    lemma ListensIn(c: Connect, ip: Ip)
      requires c.Value() == FreshConn(ip)
      ensures c.state == LISTEN
    {
    }

    /** Since the method began, a struct in LISTEN has got slot `k`. */
    twostate lemma Inserted(k: Key)
      requires old(Valid()) && k !in old(conns) && k in conns && conns == old(conns)[k := conns[k]]
      requires conns[k] !in old(conns.Values) && conns[k].state == LISTEN
      requires heap == old(heap) && brk == old(brk) && hist == old(hist) && SameBufs()
      requires resets == old(resets) && resetBytes == old(resetBytes)
      requires forall j <- old(conns) :: unchanged(old(conns[j]))
      ensures Valid()
    {
      hide Buf.Value, Buf.Valid, Buf.View, Mem, View;
      assert HeapOk();
      forall j <- conns
        ensures conns[j].state != LISTEN ==> Linked(conns[j])
        ensures j != k ==> conns[j] != conns[k]
      {
        if j != k {
          assert conns[j] == old(conns[j]) && conns[j] in old(conns.Values);
          assert conns[j].state != LISTEN ==> old(Linked(conns[j]));
        }
      }
    }

    /** tcp_in from step 4 on. */
    method In(ip: Ip, g: Segment, buf: Buf, chance: Chance, script: seq<Op>)
      requires Valid() && Usable(View()) && stop == Running
      requires Foreign(buf) && buf.len >= TCP_HDR && g.payload == buf.View().bytes[TCP_HDR..]
      modifies this`heap, this`bufs, this`arrays, this`brk, this`freed, this`resets, this`resetBytes, this`hist
      modifies this`conns, this`stop
      modifies conns.Values, bufs, arrays, net.txbuf, net.txbuf.payload, buf
      ensures Meets(Tcp.TcpIn(old(View()), ip, g, chance, script))
    {
      hide Valid, View, HeapOk, Buf.Value, Buf.View, Buf.Valid, Linked, Mem, Load, Owns, Update;
      hide Process;
      HeapIsOk();
      if g.dstPort !in ports {
        SameView();
        return;
      }
      var k := Key(ip, g.srcPort, g.dstPort);
      ghost var s := View();
      SameView();
      if k !in conns {
        if |conns| == cap {
          Stopped(TableFull);
          return;
        }
        Insert(k, ip);
      } else {
        assert s.conns[k := s.conns[k]] == s.conns;
      }
      OnSegment(conns[k], k, g, buf, chance, script);
    }

    lemma SameView()
      requires Valid()
      ensures HeapOk() && View().ports == ports && View().cap == cap && View().stop == stop
      ensures |View().conns| == |conns| && View().conns.Keys == conns.Keys
    {
      assert View().conns.Keys == conns.Keys;
    }

    // ----- the boundary: one step of the machine each

    /** tcp_in: the checks on the segment's bytes, then one step. */
    method TcpIn(buf: Buf, ip: Ip, chance: Chance, script: seq<Op>)
      requires Valid() && Inv(View()) && stop == Running && Foreign(buf) && PSEUDO <= buf.data
      modifies this`heap, this`bufs, this`arrays, this`brk, this`freed, this`resets, this`resetBytes, this`hist
      modifies this`conns, this`stop
      modifies conns.Values, bufs, arrays, net.txbuf, net.txbuf.payload, buf, buf.payload
      ensures Usable(old(View()))
      ensures Meets(Arrival(old(View()), Accept(old(buf.View()).bytes, ip, net.ip), ip, chance, script))
      ensures stop == Running ==> Valid() && Inv(View())
    {
      hide Valid, View, HeapOk, Buf.Value, Linked, Mem, Load, Owns, Update, Inv, Tcp.TcpIn, Accept;
      HeapIsOk();
      ghost var s := View();
      InvUsable(s);
      var g := Check(buf, ip, net.ip);
      if g.None? {
        return;
      }
      StepInv(s, Input.Arrive(ip, g.value, chance, script));
      AcceptReads(old(buf.View()).bytes, ip, net.ip);
      HeapIsOk();
      assert View() == s;
      In(ip, g.value, buf, chance, script);
    }

    method OpenPort(port: u16)
      requires Valid() && Inv(View()) && stop == Running
      modifies this`ports
      ensures Valid() && Inv(View()) && Usable(old(View())) && View() == Step(old(View()), Input.OpenPort(port))
    {
      hide Valid, View, HeapOk, Buf.Value, Linked, Mem, Inv, Tcp.TcpIn;
      HeapIsOk();
      ghost var s := View();
      InvUsable(s);
      StepInv(s, Input.OpenPort(port));
      SameView();
      Listens(ports + {port});
    }

    method Read(k: Key, len: nat) returns (data: seq<byte>)
      requires Valid() && Inv(View()) && stop == Running && InUse(View(), k)
      modifies this`hist, conns[k], bufs, arrays
      ensures Valid() && Inv(View()) && Usable(old(View())) && View() == Step(old(View()), AppOp(k, OpRead(len)))
      ensures var l := Load(old(View()).env, old(View()).conns[k]);
              data <= l.rx.w.bytes && |data| == ReadSize(l, len)
    {
      hide Valid, View, HeapOk, Buf.Value, Buf.View, Buf.Valid, Linked, Mem, Load, Owns, Update;
      hide Inv, ReadSize, Apply;
      HeapIsOk();
      InvUsable(View());
      StepInv(View(), AppOp(k, OpRead(len)));
      SlotReady(k);
      data := ReadAt(k, len);
    }

    method Write(k: Key, data: seq<byte>) returns (taken: nat)
      requires Valid() && Inv(View()) && stop == Running && InUse(View(), k)
      modifies this`hist, conns[k], bufs, arrays, net.txbuf, net.txbuf.payload
      ensures Valid() && Inv(View()) && Usable(old(View())) && View() == Step(old(View()), AppOp(k, OpWrite(data)))
      ensures taken == Accepted(Load(old(View()).env, old(View()).conns[k]), data)
    {
      hide Valid, View, HeapOk, Buf.Value, Buf.View, Buf.Valid, Linked, Mem, Load, Owns, Update;
      hide Inv, Accepted, Apply;
      HeapIsOk();
      InvUsable(View());
      StepInv(View(), AppOp(k, OpWrite(data)));
      SlotReady(k);
      taken := WriteAt(k, data);
    }

    method Close(k: Key)
      requires Valid() && Inv(View()) && stop == Running && InUse(View(), k)
      modifies this`heap, this`freed, this`hist, this`conns, this`stop, conns[k], bufs, arrays, net.txbuf
      modifies net.txbuf.payload
      ensures Usable(old(View())) && Meets(Step(old(View()), AppClose(k)))
      ensures stop == Running ==> Valid() && Inv(View())
    {
      hide Valid, View, HeapOk, Buf.Value, Buf.View, Buf.Valid, Linked, Mem, Load, Owns, Update;
      hide Inv, Tcp.Close;
      HeapIsOk();
      InvUsable(View());
      StepInv(View(), AppClose(k));
      ConnectClose(conns[k], k);
    }

    /** close_port_fn. */
    method ReleaseIfOn(port: u16, k: Key)
      requires Valid()
      modifies this`heap, this`freed, conns.Values
      ensures Valid() && conns == old(conns) && View() == ReleaseOne(old(View()), port, k)
    {
      hide Valid, View, HeapOk, Buf.Value, Buf.View, Buf.Valid, Linked, Mem, Load, Owns, Update;
      hide Tcp.Release;
      HeapIsOk();
      if k in conns && k.dstPort == port {
        Release(conns[k], k);
      }
    }

    /** tcp_close: map_foreach over the connection table, in slot order, then the listener goes. */
    method ClosePort(port: u16, order: seq<Key>)
      requires Valid() && Inv(View()) && stop == Running && forall k <- conns :: k in order
      modifies this`heap, this`freed, this`ports, conns.Values
      ensures Valid() && Inv(View()) && Usable(old(View()))
      ensures Allowed(old(View()), Input.ClosePort(port, order))
      ensures View() == Step(old(View()), Input.ClosePort(port, order))
    {
      hide Valid, View, HeapOk, Buf.Value, Buf.View, Buf.Valid, Linked, Mem, Load, Owns, Update;
      hide Inv, Usable, ReleaseOne;
      HeapIsOk();
      ghost var s := View();
      InvUsable(s);
      StepInv(s, Input.ClosePort(port, order));
      assert order[..0] == [];
      for i := 0 to |order|
        invariant conns == old(conns) && Valid()
        invariant HeapOk() && View() == ReleaseAll(s, port, order[..i])
      {
        assert order[..i + 1][..i] == order[..i];
        ReleaseIfOn(port, order[i]);
        HeapIsOk();
      }
      assert order[..|order|] == order;
      SameView();
      Listens(ports - {port});
    }

    /** map_set or map_delete on the port table. */
    method Listens(left: set<u16>)
      requires Valid()
      modifies this`ports
      ensures Valid() && View() == old(View()).(ports := left)
    {
      hide HeapOk, Linked, Mem, Unshared;
      ports := left;
    }
  }

  /** What tcp_in does with a segment, or with bytes that are none. */
  function Arrival(s: State, g: Option<Segment>, ip: Ip, chance: Chance, script: seq<Op>): State
    requires Usable(s)
  {
    if g.None? then s else Step(s, Input.Arrive(ip, g.value, chance, script))
  }

  lemma {:induction false} FewPorts(ports: set<u16>, n: nat)
    requires forall p <- ports :: p < n
    ensures |ports| <= n
  {
    if n > 0 {
      FewPorts(ports - {n - 1}, n - 1);
    }
  }

  /** tcp_table, with entries of 2 + 8 + 8 bytes, has room for every port: map_set never fails on it. */
  lemma PortTableFits(ports: set<u16>)
    ensures |ports| <= 0x1_0000 < 116733 == MAP_MAX_LEN / (2 + 8 + 8)
  {
    FewPorts(ports, 0x1_0000);
  }

  ghost predicate CanProcess(s: State, k: Key) {
    k in s.conns && (s.conns[k].state != LISTEN ==> Owns(s.env, s.conns[k]))
  }

  /** A connection as a SYN with new buffers at `p` and behind makes it, before it answers. */
  function NewLink(p: nat, k: Key, g: Segment, chance: Chance): Link {
    Link(Conn(SYN_RCVD, k.dstPort, k.srcPort, k.ip, chance.iss, chance.iss, Add32(g.seqNo, 1), g.window, p, p + 1),
         NewBlock(chance.rxJunk), NewBlock(chance.txJunk), NewHist(chance.iss, g.seqNo))
  }

  function Opened(s: State, k: Key, l: Link): State {
    Update(s.(env := s.env.(brk := s.env.brk + 2)), k, l)
  }

  lemma OpenIs(s: State, k: Key, g: Segment, chance: Chance)
    ensures var l := NewLink(s.env.brk, k, g, chance);
            var t := Opened(s, k, l);
            && Owns(t.env, l.c) && Load(t.env, l.c) == l && k in t.conns && t.conns[k] == l.c
            && Update(t, k, Tcp.Send(l, [], ACK_SYN)) == Open(s, k, g, chance)
  {
    hide NewBlock, Syn, Fin, Add32, Sub32;
  }

  /** The struct as it sends the RST, and the segment. */
  function Reset0(c: Conn, gotSeq: u32): Conn {
    c.(nextSeq := 0, ack := Add32(gotSeq, 1))
  }

  function Refusal(c: Conn): Segment {
    Segment(c.localPort, c.remotePort, c.nextSeq, c.ack, ACK_RST, c.remoteWin, [])
  }

  function WithReset(e: Env, to: Ip, g: Segment): Env {
    e.(resets := e.resets + [Outgoing(to, g)])
  }

  function Refused(s: State, k: Key, c: Conn, g: Segment): State {
    s.(env := WithReset(s.env, c.ip, g), conns := if k in s.conns then s.conns[k := c] else s.conns)
  }

  ghost predicate CanClose(s: State, c: Conn) {
    c.state == ESTABLISHED ==> Owns(s.env, c)
  }

  function Listening(c: Conn): Conn {
    c.(state := LISTEN)
  }

  /** The two buffers of the connection in slot `k` freed, and its struct in LISTEN. */
  ghost function Released(s: State, k: Key): State
    requires k in s.conns
  {
    s.(env := Tcp.Release(s.env, s.conns[k]), conns := s.conns[k := s.conns[k].(state := LISTEN)])
  }

  lemma FinWaitIs(s: State, k: Key, l: Link)
    ensures var c := l.c.(state := FIN_WAIT_1);
            Update(s, k, l.(c := c)) == s.(env := Save(s.env, l), conns := s.conns[k := c])
  {
  }

  lemma ResetIs(s: State, k: Key, c: Conn, gotSeq: u32)
    requires if k in s.conns then s.conns[k] == c else c.state == LISTEN
    ensures var s1 := Refused(s, k, Reset0(c, gotSeq), Refusal(Reset0(c, gotSeq)));
            var s2 := if k in s1.conns then Released(s1, k) else s1;
            s2.(conns := s2.conns - {k}) == Reset(s, k, c, gotSeq)
  {
    hide Add32, Free;
    if k in s.conns {
      assert (s.conns[k := Listening(Reset0(c, gotSeq))]) - {k} == s.conns - {k};
    }
  }

  lemma CloseStops(s: State, k: Key, c: Conn)
    requires CanClose(s, c) && s.stop == Running
    ensures var stop := Close(s, k, c).0.stop; stop == Running || stop.Overread?
  {
    hide Flush, Tcp.Release, Overreads;
  }

  lemma AcceptReads(b: seq<byte>, src: Ip, own: Ip)
    ensures Accept(b, src, own).Some? ==> |b| >= TCP_HDR && Accept(b, src, own).value.payload == b[TCP_HDR..]
  {
  }

  lemma LeavesArray(l: Link, g: Segment, script: seq<Op>)
    ensures var stop := EstablishedStop(l, g, script); stop == Running || stop.Overrun? || stop.Overread?
  {
    hide TakeAck, Overruns, Overreads, Callback;
  }

  lemma PeekIs(m: seq<byte>, at: nat, n: nat, b: seq<byte>)
    requires n > 0 ==> at + n <= |m| && b == m[at..at + n]
    requires n == 0 ==> b == []
    ensures Peek(m, at, n) == b
  {
  }

  /** From the front of the array nothing is read outside it: both counts have 16 bits. */
  lemma FrontFits(l: Link)
    requires l.tx.w.data == 0
    ensures !Overreads(l)
  {
  }
}
