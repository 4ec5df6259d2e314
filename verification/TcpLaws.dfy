/** What every operation and every segment does to a connection, field by field: the next state, the numbers, and the
    segments sent, with their flags written out. */
module TcpLaws {
  import opened Words
  import opened Buffer
  import opened Ethernet
  import opened TcpWire
  import opened Tcp
  import opened TcpStreams
  import opened TcpOwnership

  // ----- reading and writing

  /** How many bytes are sent and not acknowledged, as the struct counts them. */
  function Flying(l: Link): nat {
    (l.c.nextSeq - l.c.unackSeq) % 0x1_0000_0000
  }

  /** The bytes that may be sent next: those behind the ones in flight, as far as the peer's window goes. */
  function NextStretch(l: Link): seq<byte>
    requires Flying(l) <= |l.tx.w.bytes|
  {
    var left := |l.tx.w.bytes| - Flying(l);
    l.tx.w.bytes[Flying(l)..Flying(l) + if left < l.c.remoteWin then left else l.c.remoteWin]
  }

  /** A segment of the connection, with these numbers, flags and bytes. */
  function SegmentOf(c: Conn, seqNo: u32, ackNo: u32, flags: Flags, payload: seq<byte>): Segment {
    Segment(c.localPort, c.remotePort, seqNo, ackNo, flags, c.remoteWin, payload)
  }

  lemma StretchTaken(l: Link)
    requires l.tx.WellFormed() && Flying(l) <= |l.tx.w.bytes| && Flying(l) < 0x1_0000
    ensures WriteBytes(l) == NextStretch(l) && WriteSize(l) == |NextStretch(l)| && !Overreads(l)
  {
    var b, f := l.tx.w.bytes, Flying(l);
    assert l.InFlight() % 0x1_0000 == f;
    SmallMod(|b| - f);
    var n := WriteSize(l);
    SliceOf(l.tx.mem, l.tx.w.data, |b|, f, n);
  }

  /** tcp_connect_read returns the bytes waiting, oldest first, up to the length asked for; they leave rx_buf, and
      nothing else changes. */
  lemma ReadLaw(l: Link, len: nat)
    requires l.rx.WellFormed() && len < 0x1_0000_0000
    ensures var b := l.rx.w.bytes;
            var n := if |b| < len then |b| else len;
            && ReadSize(l, len) == n
            && ConnectRead(l, len) == l.(rx := l.rx.(w := Window(l.rx.w.data + n, b[n..])),
                                         h := l.h.(readOut := l.h.readOut + b[..n]))
  {
    SmallMod(|l.rx.w.bytes|);
    SmallMod(len);
  }

  /** tcp_connect_write takes all of the data exactly if the peer's window exceeds it together with what is in flight,
      and the array of tx_buf has room behind the window; the count returned says so. */
  lemma WriteIff(l: Link, data: seq<byte>)
    requires l.tx.WellFormed() && data != []
    ensures var end := l.tx.w.data + |l.tx.w.bytes|;
            var taken := Flying(l) + |data| < l.c.remoteWin && end + |data| < 131325;
            && Accepted(l, data) == (if taken then |data| else 0)
            && (taken ==> ConnectWrite(l, data) == l.(tx := Block(Splice(l.tx.mem, end, data),
                                                                  Window(l.tx.w.data, l.tx.w.bytes + data)),
                                                      h := l.h.(written := l.h.written + data)))
            && (!taken ==> ConnectWrite(l, data).h.written == l.h.written
                           && ConnectWrite(l, data).tx.w.bytes == l.tx.w.bytes)
  {
    hide Splice, Flush;
    if Flying(l) + |data| < l.c.remoteWin {
      RoomFor(l, data);
      FlushShape(l.(tx := l.tx.ToFront()), ACK);
    }
  }

  lemma RoomFor(l: Link, data: seq<byte>)
    requires l.tx.WellFormed() && |data| < 0x1_0000
    ensures var left := 131325 - (l.tx.w.data + |l.tx.w.bytes|);
            && WriteRoom(l, data) == (if left < |data| then left else |data|)
            && (l.tx.w.FitsTail(WriteRoom(l, data)) <==> |data| < left) && data[..|data|] == data
  {
    SmallMod(BUF_MAX_LEN - l.tx.End());
    SmallMod(|data|);
  }

  /** If the window refuses, nothing changes. */
  lemma WindowRefuses(l: Link, data: seq<byte>)
    requires Flying(l) + |data| >= l.c.remoteWin
    ensures ConnectWrite(l, data) == l && Accepted(l, data) == 0
  {
  }

  /** If only the room refuses, tx_buf moves to the front of its array, and one segment goes out if there is something
      to send: an ACK with the next stretch. */
  lemma RoomRefuses(l: Link, data: seq<byte>)
    requires l.tx.WellFormed() && data != [] && Flying(l) <= |l.tx.w.bytes|
    requires Flying(l) + |data| < l.c.remoteWin && l.tx.w.data + |l.tx.w.bytes| + |data| >= 131325
    ensures var r, b := ConnectWrite(l, data), l.tx.w.bytes;
            && Accepted(l, data) == 0 && r.tx == Block(Splice(l.tx.mem, 0, b), Window(0, b)) && r.rx == l.rx
            && (if Flying(l) == |b| then r.h == l.h && r.c == l.c
                else && r.h.sent == l.h.sent + [SegmentOf(l.c, l.c.nextSeq, l.c.ack, 0x10, NextStretch(l))]
                     && r.h == l.h.(sent := r.h.sent, wide := r.h.wide)
                     && r.c == l.c.(nextSeq := (l.c.nextSeq + |NextStretch(l)|) % 0x1_0000_0000))
  {
    hide Splice, WriteBytes, WriteSize, Overreads, Flush;
    RoomFor(l, data);
    ToFrontWell(l.tx);
    var m := l.(tx := l.tx.ToFront());
    StretchTaken(m);
    FlushLaw(m, 0x10);
  }

  /** One send: the next stretch, at the next number, acknowledging what was received. */
  lemma FlushLaw(l: Link, flags: Flags)
    requires l.tx.WellFormed() && Flying(l) <= |l.tx.w.bytes| && Flying(l) < 0x1_0000
    ensures var r, p := Flush(l, flags), NextStretch(l);
            var last := if Syn(flags) || Fin(flags) then 1 else 0;
            && r.h.sent == l.h.sent + [SegmentOf(l.c, l.c.nextSeq, l.c.ack, flags, p)]
            && r.h == l.h.(sent := r.h.sent, wide := r.h.wide) && r.rx == l.rx && r.tx == l.tx
            && r.c == l.c.(nextSeq := (l.c.nextSeq + |p| + last) % 0x1_0000_0000)
  {
    hide WriteBytes, WriteSize, NextStretch, Syn, Fin, Add32, Sub32, Flying, Overreads;
    StretchTaken(l);
    NumberOfSend(l.c.nextSeq, |NextStretch(l)|);
    AddIs(l.c.nextSeq, |NextStretch(l)|);
    AddIs(l.c.nextSeq, |NextStretch(l)| + 1);
  }

  lemma NumberOfSend(s: u32, n: nat)
    requires n < 0x1_0000_0000
    ensures Sub32(Add32(s, n), n) == s && Add32(Add32(s, n), 1) == Add32(s, n + 1)
  {
    hide Sub32;
    SubOfAdd(s, 0, n);
    AddAdd(s, n, 1);
    AddNone(s);
  }

  lemma AddNone(s: u32)
    ensures Add32(s, 0) == s
  {
  }

  lemma AddIs(s: u32, n: nat)
    ensures Add32(s, n) == (s + n) % 0x1_0000_0000
  {
  }

  // ----- segments

  /** The connection in slot `k`. */
  ghost function At(s: State, k: Key): Link
    requires k in s.conns && Owns(s.env, s.conns[k])
  {
    Load(s.env, s.conns[k])
  }

  /** `g` comes for the open connection at `k`, carries the number expected, and is no reset. */
  ghost predicate Expected(s: State, ip: Ip, g: Segment, k: Key) {
    && Inv(s) && s.stop == Running && k == Key(ip, g.srcPort, g.dstPort) && k.dstPort in s.ports
    && k in s.conns && s.conns[k].state != LISTEN && Owns(s.env, s.conns[k])
    && g.seqNo == s.conns[k].ack && g.flags / 4 % 2 == 0
  }

  /** Nothing but the connection in slot `k`, its buffers and its history has changed. */
  ghost predicate OnlyAt(s: State, t: State, k: Key)
    requires k in s.conns
  {
    var c := s.conns[k];
    && t == s.(env := t.env, conns := t.conns) && t.env == s.env.(heap := t.env.heap, hist := t.env.hist)
    && k in t.conns && t.conns == s.conns[k := t.conns[k]] && Owns(t.env, t.conns[k])
    && t.conns[k].rxBuf == c.rxBuf && t.conns[k].txBuf == c.txBuf
    && t.env.heap == s.env.heap[c.rxBuf := t.env.heap[c.rxBuf]][c.txBuf := t.env.heap[c.txBuf]]
    && t.env.hist == s.env.hist[c.rxBuf := t.env.hist[c.rxBuf]]
  }

  /** The connection in slot `k` is gone, its two buffers are freed, its history ends as `h`, and `answers` went out. */
  ghost predicate Ended(s: State, t: State, k: Key, h: Hist, answers: seq<Outgoing>)
    requires k in s.conns
  {
    var c := s.conns[k];
    && t == s.(env := t.env, conns := s.conns - {k})
    && t.env == s.env.(heap := t.env.heap, hist := s.env.hist[c.rxBuf := h], freed := s.env.freed + [c.rxBuf, c.txBuf],
                       resets := s.env.resets + answers)
    && t.env.heap == s.env.heap - {c.rxBuf, c.txBuf}
  }

  lemma StandsUnderKey(s: State, k: Key)
    requires Inv(s) && k in s.conns && s.conns[k].state != LISTEN
    ensures Owns(s.env, s.conns[k]) && KeyOf(s.conns[k]) == k && LinkInv(At(s, k)) && At(s, k).c == s.conns[k]
    ensures At(s, k).tx.WellFormed() && At(s, k).rx.WellFormed()
  {
    assert SlotInv(s.env, k, s.conns[k]);
  }

  /** SYN for an entry that is new or in LISTEN: the connection takes the peer's numbers, gets two empty buffers, and
      answers with SYN and ACK, which counts as one number. */
  lemma SynLaw(s: State, ip: Ip, g: Segment, chance: Chance, script: seq<Op>)
    requires Inv(s) && s.stop == Running && g.dstPort in s.ports && g.flags / 2 % 2 == 1 && g.flags / 4 % 2 == 0
    requires var k := Key(ip, g.srcPort, g.dstPort);
             if k in s.conns then s.conns[k].state == LISTEN else |s.conns| != s.cap
    ensures Usable(s)
    ensures var k, t := Key(ip, g.srcPort, g.dstPort), Step(s, Arrive(ip, g, chance, script));
            var p := s.env.brk;
            && t == s.(env := t.env, conns := s.conns[k := t.conns[k]]) && k in t.conns && Owns(t.env, t.conns[k])
            && t.conns[k] == Conn(SYN_RCVD, g.dstPort, g.srcPort, ip, chance.iss, (chance.iss + 1) % 0x1_0000_0000,
                                  (g.seqNo + 1) % 0x1_0000_0000, g.window, p, p + 1)
            && t.env.brk == p + 2 && t.env.freed == s.env.freed && t.env.resets == s.env.resets
            && var l := At(t, k);
               && l.rx.w == Window(65662, []) && l.tx.w == Window(65662, [])
               && l.h.sent == [SegmentOf(l.c, chance.iss, (g.seqNo + 1) % 0x1_0000_0000, 0x12, [])]
               && l.h.calls == [] && l.h.written == [] && l.h.readOut == []
  {
    hide Inv, NewBlock, Filled;
    InvUsable(s);
    NewBlockWindow(chance);
  }

  /** The first segment is no SYN: a RST answers it, with the ports of the struct, which are 0 in a new one, and the
      entry goes. */
  lemma NoSynLaw(s: State, ip: Ip, g: Segment, chance: Chance, script: seq<Op>)
    requires Inv(s) && s.stop == Running && g.dstPort in s.ports && g.flags / 2 % 2 == 0 && g.flags / 4 % 2 == 0
    requires var k := Key(ip, g.srcPort, g.dstPort);
             if k in s.conns then s.conns[k].state == LISTEN else |s.conns| != s.cap
    ensures Usable(s)
    ensures var k := Key(ip, g.srcPort, g.dstPort);
            var c := if k in s.conns then s.conns[k] else Conn(LISTEN, 0, 0, ip, 0, 0, 0, 0, 0, 0);
            var answer := Outgoing(ip, SegmentOf(c, 0, (g.seqNo + 1) % 0x1_0000_0000, 0x14, []));
            Step(s, Arrive(ip, g, chance, script)) ==
            s.(env := s.env.(resets := s.env.resets + [answer]), conns := s.conns - {k})
  {
    hide Inv;
    InvUsable(s);
    var k := Key(ip, g.srcPort, g.dstPort);
    if k in s.conns {
      assert s.conns[k].ip == ip by { SlotsInv(s, k); }
      assert s.conns[k := s.conns[k]] == s.conns;
    } else {
      assert s.conns[k := FreshConn(ip)] - {k} == s.conns == s.conns - {k};
    }
  }

  /** A segment for a port nobody listens on does nothing; one that would need a new entry in a full table stops the
      process. */
  lemma NotServedLaw(s: State, ip: Ip, g: Segment, chance: Chance, script: seq<Op>)
    requires Inv(s) && s.stop == Running
    ensures Usable(s)
    ensures var k, t := Key(ip, g.srcPort, g.dstPort), Step(s, Arrive(ip, g, chance, script));
            && (g.dstPort !in s.ports ==> t == s)
            && (g.dstPort in s.ports && k !in s.conns && |s.conns| == s.cap ==> t == s.(stop := TableFull))
  {
    hide Inv, Process;
    InvUsable(s);
  }

  /** The last step of the handshake: an ACK opens the connection, and tells the application; anything else is
      ignored. */
  lemma HandshakeLaw(s: State, ip: Ip, g: Segment, k: Key, chance: Chance, script: seq<Op>)
    requires Expected(s, ip, g, k) && s.conns[k].state == SYN_RCVD
    ensures Usable(s)
    ensures var t, l := Step(s, Arrive(ip, g, chance, script)), At(s, k);
            if g.flags / 16 % 2 == 0 then t == s
            else
              && OnlyAt(s, t, k)
              && At(t, k) ==
                   RunScript(l.(c := l.c.(state := ESTABLISHED, unackSeq := (l.c.unackSeq + 1) % 0x1_0000_0000),
                                          h := l.h.(calls := l.h.calls + [CONNECTED])), script)
  {
    hide Inv, RunScript, LinkInv;
    InvUsable(s);
    StandsUnderKey(s, k);
    assert s.conns[k := s.conns[k]] == s.conns;
  }

  /** The bytes a script reads and writes, one operation after the other. */
  lemma ScriptLaw(l: Link, script: seq<Op>, n: nat, data: seq<byte>)
    ensures RunScript(l, []) == l
    ensures RunScript(l, script + [OpRead(n)]) == ConnectRead(RunScript(l, script), n)
    ensures RunScript(l, script + [OpWrite(data)]) == ConnectWrite(RunScript(l, script), data)
  {
    assert (script + [OpRead(n)])[..|script|] == script && (script + [OpWrite(data)])[..|script|] == script;
  }

  // ----- an established connection

  /** The connection when its segment's acknowledgement and payload are taken: bytes newly acknowledged leave tx_buf,
      if the number lies strictly inside what is in flight as the plain numbers compare; the payload is copied behind
      the window of rx_buf, which grows over it if the last byte of the array stays free; and all of it is
      acknowledged. */
  function Took(l: Link, g: Segment): Link {
    var inside := g.flags / 16 % 2 == 1 && l.c.unackSeq < g.ackNo < l.c.nextSeq;
    var n := if inside then g.ackNo - l.c.unackSeq else 0;
    var end := l.rx.w.data + |l.rx.w.bytes|;
    l.(c := l.c.(unackSeq := if inside then g.ackNo else l.c.unackSeq,
                 ack := (l.c.ack + |g.payload|) % 0x1_0000_0000),
       tx := if n <= |l.tx.w.bytes| then Block(l.tx.mem, Window(l.tx.w.data + n, l.tx.w.bytes[n..])) else l.tx,
       rx := Block(if end + |g.payload| <= |l.rx.mem| then Splice(l.rx.mem, end, g.payload) else l.rx.mem,
                   if end + |g.payload| < 131325 then Window(l.rx.w.data, l.rx.w.bytes + g.payload) else l.rx.w),
       h := l.h.(acked := l.h.acked + n, arrived := l.h.arrived + [g.payload]))
  }

  lemma TookIs(l: Link, g: Segment)
    requires l.rx.w.data + |l.rx.w.bytes| + |g.payload| <= 131325
    ensures Took(l, g) == Receive(if Ack(g.flags) then TakeAck(l, g.ackNo) else l, g.payload)
    ensures !Overruns(if Ack(g.flags) then TakeAck(l, g.ackNo) else l, |g.payload|)
    ensures var m := Took(l, g);
            && m.c == l.c.(unackSeq := m.c.unackSeq, ack := (l.c.ack + |g.payload|) % 0x1_0000_0000)
            && m.h == l.h.(acked := m.h.acked, arrived := m.h.arrived)
  {
    hide Splice;
    if Ack(g.flags) && AckTaken(l, g.ackNo) {
      assert Sub32(g.ackNo, l.c.unackSeq) == g.ackNo - l.c.unackSeq;
    } else {
      assert l.tx.w.bytes[0..] == l.tx.w.bytes;
    }
  }

  /** What an expected segment does is decided by the state of its connection. */
  lemma GoesToSwitch(s: State, ip: Ip, g: Segment, k: Key, chance: Chance, script: seq<Op>)
    requires Expected(s, ip, g, k)
    ensures Usable(s) && Step(s, Arrive(ip, g, chance, script)) == Switch(s, k, g, script)
    ensures LinkInv(At(s, k)) && At(s, k).c == s.conns[k] && KeyOf(s.conns[k]) == k
    ensures At(s, k).tx.WellFormed() && At(s, k).rx.WellFormed()
  {
    hide Inv, LinkInv, Switch, Owns;
    InvUsable(s);
    StandsUnderKey(s, k);
    assert s.conns[k := s.conns[k]] == s.conns;
  }

  /** Putting another link of the same struct into the slot changes only that connection. */
  lemma Replaced(s: State, k: Key, m: Link)
    requires k in s.conns && Owns(s.env, s.conns[k]) && m.c.state != LISTEN
    requires m.c.rxBuf == s.conns[k].rxBuf && m.c.txBuf == s.conns[k].txBuf
    ensures OnlyAt(s, Update(s, k, m), k) && At(Update(s, k, m), k) == m
  {
  }

  /** What FIN makes of the link. */
  function Finished(l: Link, g: Segment): Link {
    var m := Took(l, g);
    var ack := (g.seqNo + |g.payload| + 1) % 0x1_0000_0000;
    m.(c := m.c.(state := LAST_ACK, ack := ack, nextSeq := (l.c.nextSeq + 1) % 0x1_0000_0000),
       h := m.h.(sent := l.h.sent + [SegmentOf(l.c, l.c.nextSeq, ack, 0x11, [])], finTaken := true))
  }

  lemma FinLink(l: Link, g: Segment, script: seq<Op>)
    requires g.seqNo == l.c.ack && g.flags % 2 == 1 && l.rx.w.data + |l.rx.w.bytes| + |g.payload| <= 131325
    ensures EstablishedStop(l, g, script) == Running && Established(l, g, script) == Finished(l, g)
  {
    hide Took, Receive, TakeAck, Overruns, Add32, Sub32;
    TookIs(l, g);
    AckOfFin(l.c.ack, |g.payload|);
    AddIs(l.c.nextSeq, 1);
    EmptySend(l.c.nextSeq);
  }

  lemma AckOfFin(ack: u32, n: nat)
    ensures Add32((ack + n) % 0x1_0000_0000, 1) == (ack + n + 1) % 0x1_0000_0000
  {
    AddIs(ack, n);
    AddAdd(ack, n, 1);
    AddIs(ack, n + 1);
  }

  /** A segment without payload stands at the next number. */
  lemma EmptySend(s: u32)
    ensures Sub32(s, 0) == s
  {
  }

  /** A FIN is acknowledged with the payload before it, answered at once with FIN and ACK, which counts as one number,
      and the connection waits for the last ACK. The application is not told yet. */
  lemma FinLaw(s: State, ip: Ip, g: Segment, k: Key, chance: Chance, script: seq<Op>)
    requires Expected(s, ip, g, k) && s.conns[k].state == ESTABLISHED && g.flags % 2 == 1
    requires At(s, k).rx.w.data + |At(s, k).rx.w.bytes| + |g.payload| <= 131325
    ensures Usable(s)
    ensures var t := Step(s, Arrive(ip, g, chance, script));
            OnlyAt(s, t, k) && At(t, k) == Finished(At(s, k), g)
  {
    hide Inv, LinkInv, EstablishedStop, Established, Finished, Update, OnlyAt;
    GoesToSwitch(s, ip, g, k, chance, script);
    FinLink(At(s, k), g, script);
    FinishedShape(At(s, k), g);
    Replaced(s, k, Finished(At(s, k), g));
  }

  lemma FinishedShape(l: Link, g: Segment)
    ensures var m := Finished(l, g); m.c.rxBuf == l.c.rxBuf && m.c.txBuf == l.c.txBuf && m.c.state == LAST_ACK
  {
  }

  /** The connection as the application's handler leaves it. */
  function Handled(l: Link, g: Segment, script: seq<Op>): Link {
    var m := Took(l, g);
    RunScript(m.(h := m.h.(calls := m.h.calls + [DATA_RECV])), script)
  }

  /** A payload without FIN is taken, the application is told and does what it does, and one segment answers: ACK,
      with the next stretch of what the application has written. */
  lemma DataLaw(s: State, ip: Ip, g: Segment, k: Key, chance: Chance, script: seq<Op>)
    requires Expected(s, ip, g, k) && s.conns[k].state == ESTABLISHED
    requires g.flags % 2 == 0 && g.flags / 16 % 2 == 1 && g.payload != []
    requires At(s, k).rx.w.data + |At(s, k).rx.w.bytes| + |g.payload| <= 131325
    requires var m := Handled(At(s, k), g, script); Flying(m) <= |m.tx.w.bytes| && Flying(m) < 0x1_0000
    ensures Usable(s)
    ensures var t, m := Step(s, Arrive(ip, g, chance, script)), Handled(At(s, k), g, script);
            var p := NextStretch(m);
            && OnlyAt(s, t, k) && At(t, k).rx == m.rx && At(t, k).tx == m.tx
            && At(t, k).c == m.c.(nextSeq := (m.c.nextSeq + |p|) % 0x1_0000_0000)
            && At(t, k).h == m.h.(sent := m.h.sent + [SegmentOf(m.c, m.c.nextSeq, m.c.ack, 0x10, p)],
                                  wide := At(t, k).h.wide)
            && m.c.ack == (g.seqNo + |g.payload|) % 0x1_0000_0000 && m.c.state == ESTABLISHED
  {
    hide Inv, LinkInv, EstablishedStop, Established, Update, OnlyAt, Flush, Handled, NextStretch, Flying;
    GoesToSwitch(s, ip, g, k, chance, script);
    var l := At(s, k);
    DataLink(l, g, script);
    var m := Handled(l, g, script);
    FlushLaw(m, 0x10);
    Replaced(s, k, Flush(m, 0x10));
  }

  lemma DataLink(l: Link, g: Segment, script: seq<Op>)
    requires LinkInv(l) && l.c.state == ESTABLISHED && g.flags % 2 == 0 && g.flags / 16 % 2 == 1 && g.payload != []
    requires l.rx.w.data + |l.rx.w.bytes| + |g.payload| <= 131325
    ensures var m := Handled(l, g, script);
            && m.tx.WellFormed() && m.c.state == ESTABLISHED && m.c.ack == (l.c.ack + |g.payload|) % 0x1_0000_0000
            && m.c.rxBuf == l.c.rxBuf && m.c.txBuf == l.c.txBuf
            && (Flying(m) <= |m.tx.w.bytes| && Flying(m) < 0x1_0000 ==>
                  EstablishedStop(l, g, script) == Running && Established(l, g, script) == Flush(m, 0x10))
  {
    hide LinkInv, RunScript, Took, Receive, TakeAck, Overruns, Overreads, Flush, Flying;
    TookIs(l, g);
    var taken := TakeAck(l, g.ackNo);
    AckKeeps(l, g.ackNo);
    ReceiveKeeps(taken, g.payload);
    CalledKeeps(Took(l, g));
    var m := Took(l, g);
    ScriptKeeps(m.(h := m.h.(calls := m.h.calls + [DATA_RECV])), script);
    var h := Handled(l, g, script);
    LinkWell(h);
    if Flying(h) <= |h.tx.w.bytes| && Flying(h) < 0x1_0000 {
      StretchTaken(h);
    }
  }

  lemma LinkWell(l: Link)
    requires LinkInv(l)
    ensures l.tx.WellFormed() && l.rx.WellFormed()
  {
  }

  /** An ACK without payload or FIN is taken and not answered, and the application is not told. Without ACK and FIN
      nothing happens at all. */
  lemma BareAckLaw(s: State, ip: Ip, g: Segment, k: Key, chance: Chance, script: seq<Op>)
    requires Expected(s, ip, g, k) && s.conns[k].state == ESTABLISHED && g.flags % 2 == 0
    requires At(s, k).rx.w.data + |At(s, k).rx.w.bytes| <= 131325
    ensures Usable(s)
    ensures var t := Step(s, Arrive(ip, g, chance, script));
            && (g.flags / 16 % 2 == 0 ==> t == s)
            && (g.flags / 16 % 2 == 1 && g.payload == [] ==> OnlyAt(s, t, k) && At(t, k) == Took(At(s, k), g))
  {
    hide Inv, LinkInv, Update, OnlyAt, Took, Receive, TakeAck, Overruns;
    GoesToSwitch(s, ip, g, k, chance, script);
    var l := At(s, k);
    SameAgain(s, k);
    if g.flags / 16 % 2 == 1 && g.payload == [] {
      TookIs(l, g);
      Replaced(s, k, Took(l, g));
    }
  }

  lemma SameAgain(s: State, k: Key)
    requires k in s.conns && Owns(s.env, s.conns[k])
    ensures Update(s, k, At(s, k)) == s
  {
    var c := s.conns[k];
    assert s.env.heap[c.rxBuf := s.env.heap[c.rxBuf]][c.txBuf := s.env.heap[c.txBuf]] == s.env.heap;
    assert s.env.hist[c.rxBuf := s.env.hist[c.rxBuf]] == s.env.hist && s.conns[k := c] == s.conns;
  }

  // ----- the end of a connection

  /** After its own FIN: FIN and ACK end the connection without an answer; an ACK alone moves it on; anything else is
      ignored. */
  lemma FinWait1Law(s: State, ip: Ip, g: Segment, k: Key, chance: Chance, script: seq<Op>)
    requires Expected(s, ip, g, k) && s.conns[k].state == FIN_WAIT_1
    ensures Usable(s)
    ensures var t, l := Step(s, Arrive(ip, g, chance, script)), At(s, k);
            if g.flags / 16 % 2 == 0 then t == s
            else if g.flags % 2 == 1 then Ended(s, t, k, l.h, [])
            else OnlyAt(s, t, k) && At(t, k) == l.(c := l.c.(state := FIN_WAIT_2))
  {
    hide Inv, LinkInv, Update, OnlyAt, Ended, Close;
    GoesToSwitch(s, ip, g, k, chance, script);
    var l := At(s, k);
    CloseEnds(s, k, l);
    SameAgain(s, k);
    Replaced(s, k, l.(c := l.c.(state := FIN_WAIT_2)));
  }

  /** Closing a link that is not established frees its buffers and deletes its entry. */
  lemma CloseEnds(s: State, k: Key, m: Link)
    requires k in s.conns && Owns(s.env, s.conns[k]) && m.c.state !in {LISTEN, ESTABLISHED} && KeyOf(m.c) == k
    requires m.c.rxBuf == s.conns[k].rxBuf && m.c.txBuf == s.conns[k].txBuf
    ensures Ended(s, Close(Update(s, k, m), k, m.c).0, k, m.h, [])
    ensures Close(Update(s, k, m), k, m.c).1 == m.c.(state := LISTEN)
  {
    var c, t := s.conns[k], Close(Update(s, k, m), k, m.c).0;
    assert t.conns == s.conns - {k};
    assert t.env.heap == s.env.heap - {c.rxBuf, c.txBuf};
    assert t.env.freed == s.env.freed + [c.rxBuf, c.txBuf];
    assert s.env.resets + [] == s.env.resets;
  }

  /** After its FIN was acknowledged: the peer's FIN is acknowledged, and the connection is over; anything else is
      ignored. */
  lemma FinWait2Law(s: State, ip: Ip, g: Segment, k: Key, chance: Chance, script: seq<Op>)
    requires Expected(s, ip, g, k) && s.conns[k].state == FIN_WAIT_2
    ensures Usable(s)
    ensures var t, l := Step(s, Arrive(ip, g, chance, script)), At(s, k);
            var last := SegmentOf(l.c, l.c.nextSeq, (g.seqNo + 1) % 0x1_0000_0000, 0x10, []);
            if g.flags % 2 == 0 then t == s else Ended(s, t, k, l.h.(sent := l.h.sent + [last]), [])
  {
    hide Inv, LinkInv, Update, OnlyAt, Ended, Close, Add32, Sub32;
    GoesToSwitch(s, ip, g, k, chance, script);
    var l := At(s, k);
    AddIs(l.c.ack, 1);
    EmptySend(l.c.nextSeq);
    CloseEnds(s, k, Send(l.(c := l.c.(ack := Add32(l.c.ack, 1))), [], ACK));
  }

  /** The last ACK: the application is told, and the connection is over; anything else is ignored. */
  lemma LastAckLaw(s: State, ip: Ip, g: Segment, k: Key, chance: Chance, script: seq<Op>)
    requires Expected(s, ip, g, k) && s.conns[k].state == LAST_ACK
    ensures Usable(s)
    ensures var t, l := Step(s, Arrive(ip, g, chance, script)), At(s, k);
            if g.flags / 16 % 2 == 0 then t == s
            else Ended(s, t, k, RunScript(l.(h := l.h.(calls := l.h.calls + [CLOSED])), script).h, [])
  {
    hide Inv, LinkInv, Update, OnlyAt, Ended, Close, RunScript;
    GoesToSwitch(s, ip, g, k, chance, script);
    CloseEnds(s, k, Callback(At(s, k), CLOSED, script));
  }

  /** A segment with another number than the expected one: a RST acknowledges it, and the connection is over. */
  lemma StrayLaw(s: State, ip: Ip, g: Segment, k: Key, chance: Chance, script: seq<Op>)
    requires Inv(s) && s.stop == Running && k == Key(ip, g.srcPort, g.dstPort) && k.dstPort in s.ports
    requires k in s.conns && s.conns[k].state != LISTEN && Owns(s.env, s.conns[k]) && g.seqNo != s.conns[k].ack
    ensures Usable(s)
    ensures Ended(s, Step(s, Arrive(ip, g, chance, script)), k, At(s, k).h,
                  [Outgoing(ip, SegmentOf(s.conns[k], 0, (g.seqNo + 1) % 0x1_0000_0000, 0x14, []))])
  {
    hide Inv, LinkInv;
    InvUsable(s);
    StandsUnderKey(s, k);
    assert s.conns[k := s.conns[k]] == s.conns;
    assert s.env.hist[s.conns[k].rxBuf := At(s, k).h] == s.env.hist;
  }

  /** A RST with the expected number: an established connection still sends a FIN with its next stretch; then a RST
      answers the RST, and the connection is over. */
  lemma RstLaw(s: State, ip: Ip, g: Segment, k: Key, chance: Chance, script: seq<Op>)
    requires Inv(s) && s.stop == Running && k == Key(ip, g.srcPort, g.dstPort) && k.dstPort in s.ports
    requires k in s.conns && s.conns[k].state != LISTEN && Owns(s.env, s.conns[k])
    requires g.seqNo == s.conns[k].ack && g.flags / 4 % 2 == 1
    requires var l := At(s, k);
             s.conns[k].state == ESTABLISHED ==> Flying(l) <= |l.tx.w.bytes| && Flying(l) < 0x1_0000
    ensures Usable(s)
    ensures var t, l := Step(s, Arrive(ip, g, chance, script)), At(s, k);
            var answer := Outgoing(ip, SegmentOf(l.c, 0, (g.seqNo + 1) % 0x1_0000_0000, 0x14, []));
            if l.c.state != ESTABLISHED then Ended(s, t, k, l.h, [answer])
            else
              var last := SegmentOf(l.c, l.c.nextSeq, l.c.ack, 0x11, NextStretch(l));
              k in s.conns && l.c.rxBuf in t.env.hist
              && Ended(s, t, k, l.h.(sent := l.h.sent + [last], wide := t.env.hist[l.c.rxBuf].wide), [answer])
  {
    hide Inv, LinkInv, Flush, Overreads, Flying, NextStretch;
    InvUsable(s);
    StandsUnderKey(s, k);
    assert s.conns[k := s.conns[k]] == s.conns;
    var l := At(s, k);
    var c := l.c;
    assert c.ip == ip by { SlotsInv(s, k); }
    if c.state == ESTABLISHED {
      StretchTaken(l);
      FlushLaw(l, 0x11);
      var t := Step(s, Arrive(ip, g, chance, script));
      assert t.conns == s.conns - {k};
      assert t.env.heap == s.env.heap - {c.rxBuf, c.txBuf};
      assert t.env.freed == s.env.freed + [c.rxBuf, c.txBuf];
    } else {
      SameAgain(s, k);
      CloseEnds(s, k, l);
    }
  }

  // ----- the application's side

  /** Reading and writing work on the one connection. */
  lemma UseLaw(s: State, k: Key, op: Op)
    requires Inv(s) && s.stop == Running && InUse(s, k)
    ensures Usable(s) && Owns(s.env, s.conns[k])
    ensures var t, l := Step(s, AppOp(k, op)), At(s, k);
            && OnlyAt(s, t, k)
            && At(t, k) == match op case OpRead(n) => ConnectRead(l, n) case OpWrite(data) => ConnectWrite(l, data)
  {
    hide Inv, LinkInv, Update, OnlyAt;
    InvUsable(s);
    StandsUnderKey(s, k);
    ScriptKeeps(At(s, k), [op]);
    ScriptLaw(At(s, k), [], 0, []);
    assert [op][..0] == [];
    Replaced(s, k, Apply(At(s, k), op));
  }

  /** Closing an established connection sends FIN and ACK with the next stretch, counts the FIN, and waits for the
      peer. */
  lemma CloseLaw(s: State, k: Key)
    requires Inv(s) && s.stop == Running && k in s.conns && s.conns[k].state == ESTABLISHED && Owns(s.env, s.conns[k])
    requires Flying(At(s, k)) <= |At(s, k).tx.w.bytes| && Flying(At(s, k)) < 0x1_0000
    ensures Usable(s)
    ensures var t, l := Step(s, AppClose(k)), At(s, k);
            var p := NextStretch(l);
            && OnlyAt(s, t, k) && At(t, k).rx == l.rx && At(t, k).tx == l.tx
            && At(t, k).c == l.c.(state := FIN_WAIT_1, nextSeq := (l.c.nextSeq + |p| + 1) % 0x1_0000_0000)
            && At(t, k).h == l.h.(sent := l.h.sent + [SegmentOf(l.c, l.c.nextSeq, l.c.ack, 0x11, p)],
                                  wide := At(t, k).h.wide)
  {
    hide Inv, LinkInv, Flush, Overreads, OnlyAt, Flying, NextStretch;
    InvUsable(s);
    StandsUnderKey(s, k);
    var l := At(s, k);
    StretchTaken(l);
    FlushLaw(l, 0x11);
    var r := Flush(l, 0x11);
    Replaced(s, k, r.(c := r.c.(state := FIN_WAIT_1)));
  }

  /** Closing a connection that has sent or received a FIN already ends it without a word. */
  lemma CloseAgainLaw(s: State, k: Key)
    requires Inv(s) && s.stop == Running && InUse(s, k) && s.conns[k].state != ESTABLISHED
    ensures Usable(s) && Owns(s.env, s.conns[k])
    ensures Ended(s, Step(s, AppClose(k)), k, At(s, k).h, [])
  {
    hide Inv, LinkInv, Ended, Close, Update;
    InvUsable(s);
    StandsUnderKey(s, k);
    SameAgain(s, k);
    CloseEnds(s, k, At(s, k));
  }

  lemma OpenPortLaw(s: State, port: u16)
    requires Inv(s) && s.stop == Running
    ensures Usable(s) && Step(s, OpenPort(port)) == s.(ports := s.ports + {port})
  {
    hide Inv;
    InvUsable(s);
  }

  /** A connection of the port, and the buffers it holds. */
  ghost predicate HeldOn(s: State, p: nat, port: u16, ks: set<Key>) {
    exists k <- ks :: k.dstPort == port && HeldAt(s, p, k)
  }

  /** The entries `ks` on the port are released. */
  ghost predicate PortReleased(s: State, t: State, port: u16, ks: set<Key>) {
    && t.ports == s.ports && t.cap == s.cap && t.stop == s.stop && t.conns.Keys == s.conns.Keys
    && t.env.hist == s.env.hist && t.env.resets == s.env.resets && t.env.brk == s.env.brk
    && (forall k <- s.conns ::
          t.conns[k] == if k in ks && k.dstPort == port then s.conns[k].(state := LISTEN) else s.conns[k])
    && (forall p: nat :: p in t.env.heap <==> p in s.env.heap && !HeldOn(s, p, port, ks))
    && (forall p <- t.env.heap :: t.env.heap[p] == s.env.heap[p])
  }

  /** tcp_close: nobody listens on the port any more, every connection of it is back in LISTEN, exactly their buffers
      are freed, and nothing is sent. */
  lemma ClosePortLaw(s: State, port: u16, order: seq<Key>)
    requires Inv(s) && s.stop == Running && forall k <- s.conns :: k in order
    ensures Usable(s)
    ensures var t := Step(s, ClosePort(port, order));
            && t.ports == s.ports - {port}
            && PortReleased(s, t.(ports := s.ports), port, s.conns.Keys)
  {
    hide Inv, LinkInv;
    InvUsable(s);
    ReleasedOn(s, port, order);
    var t := ReleaseAll(s, port, order);
    forall p: nat
      ensures HeldOn(s, p, port, s.conns.Keys) <==> HeldOn(s, p, port, set k <- order)
    {
      if k :| k in s.conns.Keys && k.dstPort == port && HeldAt(s, p, k) {
        assert k in (set x <- order);
      }
      if k :| k in (set x <- order) && k.dstPort == port && HeldAt(s, p, k) {
        assert k in s.conns.Keys;
      }
    }
  }

  lemma {:induction false} ReleasedOn(s: State, port: u16, order: seq<Key>)
    requires Usable(s)
    ensures PortReleased(s, ReleaseAll(s, port, order), port, set k <- order)
  {
    if order != [] {
      var order', k := order[..|order| - 1], order[|order| - 1];
      ReleasedOn(s, port, order');
      assert (set x <- order) == (set x <- order') + {k} by { assert order == order' + [k]; }
      ReleasedMore(s, ReleaseAll(s, port, order'), port, (set x <- order'), k);
    }
  }

  lemma ReleasedMore(s: State, t: State, port: u16, ks: set<Key>, k: Key)
    requires Usable(s) && PortReleased(s, t, port, ks)
    ensures PortReleased(s, ReleaseOne(t, port, k), port, ks + {k})
  {
    hide HeldOn;
    OneMoreOn(s, port, ks, k);
    if k in t.conns && k.dstPort == port && t.conns[k].state != LISTEN {
      assert t.conns[k] == s.conns[k];
    } else if k in t.conns && k.dstPort == port {
      assert t.conns[k := t.conns[k].(state := LISTEN)] == t.conns;
      ListensOn(s, t, port, ks, k);
    }
  }

  lemma OneMoreOn(s: State, port: u16, ks: set<Key>, k: Key)
    ensures forall p: nat ::
              HeldOn(s, p, port, ks + {k}) <==> HeldOn(s, p, port, ks) || (k.dstPort == port && HeldAt(s, p, k))
  {
  }

  /** An entry that is in LISTEN by now held nothing, or was released before. */
  lemma ListensOn(s: State, t: State, port: u16, ks: set<Key>, k: Key)
    requires PortReleased(s, t, port, ks) && k in t.conns && k.dstPort == port && t.conns[k].state == LISTEN
    ensures forall p: nat :: HeldAt(s, p, k) ==> HeldOn(s, p, port, ks)
  {
  }
}
