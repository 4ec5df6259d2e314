/** What each operation on one connection keeps: the receive stream, the send stream and the callbacks. */
module TcpStreams {
  import opened Words
  import opened Buffer
  import opened SlotMap
  import opened TcpWire
  import opened Tcp

  // ----- sequence arithmetic

  lemma SubOfAdd(base: int, a: nat, n: nat)
    requires n < 0x1_0000_0000
    ensures Sub32(Add32(base, a + n), Add32(base, a)) == n
    ensures Sub32(Add32(base, a + n), n) == Add32(base, a)
    ensures Add32(Add32(base, a), n) == Add32(base, a + n)
  {
    AddAdd(base, a, n);
    var r := Add32(base, a);
    assert Add32(base, a + n) == if r + n < 0x1_0000_0000 then r + n else r + n - 0x1_0000_0000;
  }

  lemma AddAdd(base: int, a: int, b: int)
    ensures Add32(Add32(base, a), b) == Add32(base, a + b)
  {
  }

  // ----- the receive stream

  function Total(ps: seq<seq<byte>>): (r: seq<byte>) {
    if ps == [] then [] else Total(ps[..|ps| - 1]) + ps[|ps| - 1]
  }

  /** The payloads that enter rx_buf. Its array has 65663 bytes from the middle on, the last of which is never used;
      what was read leaves no room behind it. */
  function Kept(ps: seq<seq<byte>>): (r: seq<byte>)
    ensures |r| <= 65662
  {
    if ps == [] then []
    else
      var k, p := Kept(ps[..|ps| - 1]), ps[|ps| - 1];
      if |k| + |p| <= 65662 then k + p else k
  }

  /** Some payload is longer than what is left of the array behind the ones kept before it. */
  predicate Spills(ps: seq<seq<byte>>) {
    ps != [] && (Spills(ps[..|ps| - 1]) || |Kept(ps[..|ps| - 1])| + |ps[|ps| - 1]| > 65663)
  }

  /** All is kept exactly up to 65662 bytes. */
  lemma {:induction false} KeptIff(ps: seq<seq<byte>>)
    ensures Kept(ps) == Total(ps) <==> |Total(ps)| <= 65662
  {
    if ps != [] {
      var k, p := Kept(ps[..|ps| - 1]), ps[|ps| - 1];
      KeptIff(ps[..|ps| - 1]);
      if |Total(ps)| <= 65662 {
        assert Kept(ps) == k + p == Total(ps);
      } else {
        assert |Kept(ps)| <= 65662;
        assert Kept(ps) != Total(ps);
      }
    }
  }

  /** Up to 65663 bytes nothing spills. Beyond, something has, unless a payload once ended exactly at the end of the
      array: that one is dropped, and there is room again. */
  lemma {:induction false} SpillsIff(ps: seq<seq<byte>>)
    ensures |Total(ps)| <= 65663 ==> !Spills(ps)
    ensures (forall i :: 0 <= i <= |ps| ==> |Total(ps[..i])| != 65663) ==> (Spills(ps) <==> |Total(ps)| > 65663)
  {
    if ps != [] {
      var n := |ps| - 1;
      SpillsIff(ps[..n]);
      KeptIff(ps[..n]);
      assert ps[..|ps|] == ps;
      assert forall i :: 0 <= i <= n ==> ps[..n][..i] == ps[..i];
    }
  }

  /** The exception is real. */
  lemma SparedByExactFit(p: seq<byte>, q: seq<byte>, more: seq<byte>)
    requires |p| + |q| == 65663 && q != [] && 0 < |more| < |q|
    ensures !Spills([p, q, more]) && |Total([p, q, more])| > 65663 && Kept([p, q, more]) == p + more
  {
    assert [] + [p] == [p] && [p] + [q] == [p, q] && [p, q] + [more] == [p, q, more];
    ArrivedMore([], p);
    ArrivedMore([p], q);
    ArrivedMore([p, q], more);
    assert [] + p == p;
  }

  /** rx_buf never compacts, so its window starts as far in as has been read; what was read and what waits are the
      payloads kept, and every payload was acknowledged. */
  ghost predicate RxInv(l: Link) {
    var h := l.h;
    && l.rx.WellFormed() && l.rx.w.data == HALF + |h.readOut|
    && h.readOut + l.rx.w.bytes == Kept(h.arrived) && !Spills(h.arrived)
    && l.c.ack == Add32(h.irs, 1 + |Total(h.arrived)| + (if h.finTaken then 1 else 0))
  }

  /** A payload leaves the array of rx_buf exactly when it spills; reading in between makes no difference. */
  lemma OverrunsIff(l: Link, payload: seq<byte>)
    requires RxInv(l)
    ensures Overruns(l, |payload|) <==> Spills(l.h.arrived + [payload])
  {
    ArrivedMore(l.h.arrived, payload);
    assert |l.h.readOut + l.rx.w.bytes| == |Kept(l.h.arrived)|;
  }

  lemma ArrivedMore(ps: seq<seq<byte>>, p: seq<byte>)
    ensures var k := Kept(ps); Kept(ps + [p]) == if |k| + |p| <= 65662 then k + p else k
    ensures Total(ps + [p]) == Total(ps) + p
    ensures Spills(ps + [p]) <==> Spills(ps) || |Kept(ps)| + |p| > 65663
  {
    assert (ps + [p])[..|ps|] == ps;
  }

  lemma ReceiveKeepsRx(l: Link, payload: seq<byte>)
    requires RxInv(l) && !l.h.finTaken && !Overruns(l, |payload|)
    ensures RxInv(Receive(l, payload))
  {
    hide Add32, Spills, Kept, Total, Splice;
    var h := l.h;
    ArrivedMore(h.arrived, payload);
    OverrunsIff(l, payload);
    PutWell(l.rx, payload);
    AddAdd(h.irs, 1 + |Total(h.arrived)|, |payload|);
    assert |h.readOut + l.rx.w.bytes| == |Kept(h.arrived)|;
    assert h.readOut + (l.rx.w.bytes + payload) == h.readOut + l.rx.w.bytes + payload;
  }

  lemma ReadKeepsRx(l: Link, len: nat)
    requires RxInv(l)
    ensures RxInv(ConnectRead(l, len))
  {
    hide Add32, Kept, Spills, Total;
    var n := ReadSize(l, len);
    var b := l.rx.w.bytes;
    DropFrontWell(l.rx, n);
    assert l.h.readOut + b[..n] + b[n..] == l.h.readOut + b;
  }

  // ----- the send stream

  /** The segments, in order, carry consecutive stretches of `data`, each at its own sequence number; the SYN comes one
      before the stream. */
  ghost predicate Tiles(sent: seq<Segment>, base: int, data: seq<byte>) {
    if sent == [] then data == []
    else
      var g := sent[|sent| - 1];
      var n := |data| - |g.payload|;
      && n >= 0 && g.payload == data[n..]
      && (if Syn(g.flags) then data == [] && g.seqNo == Add32(base, -1) else g.seqNo == Add32(base, n))
      && Tiles(sent[..|sent| - 1], base, data[..n])
  }

  /** The first byte of the stream follows the SYN. */
  function Base(h: Hist): int {
    h.iss + 1
  }

  /** tx_buf is what was written and not yet acknowledged; the sequence numbers count acknowledged and sent bytes; what
      was sent is a prefix of what was written. `f` bytes are in flight. */
  ghost predicate TxAt(l: Link, f: nat) {
    var h := l.h;
    && h.acked <= |h.written| && l.tx.w.bytes == h.written[h.acked..]
    && f <= |l.tx.w.bytes| <= BUF_MAX_LEN
    && l.c.unackSeq == Add32(Base(h), h.acked)
    && l.c.nextSeq == Add32(Base(h), h.acked + f)
    && Tiles(h.sent, Base(h), h.written[..h.acked + f])
  }

  /** In ESTABLISHED, as long as no send has met 65536 or more bytes in flight. */
  ghost predicate TxInv(l: Link) {
    !l.h.wide ==> TxAt(l, l.InFlight())
  }

  lemma InFlightIs(l: Link, f: nat)
    requires TxAt(l, f)
    ensures l.InFlight() == f
  {
    hide Tiles;
    SubOfAdd(Base(l.h), l.h.acked, f);
  }

  /** What tcp_write_to_buf takes is always inside the window while the stream is in order. */
  lemma FlushTakes(l: Link)
    requires TxAt(l, l.InFlight()) && l.tx.WellFormed()
    ensures var b, at, n := l.tx.w.bytes, l.InFlight() % 0x1_0000, WriteSize(l);
            at + n <= |b| && WriteBytes(l) == b[at..at + n] && !Overreads(l)
            && n == if |b| - at < l.c.remoteWin then |b| - at else l.c.remoteWin
  {
    hide Tiles, Add32, Sub32, WriteSize;
    var b, at, n := l.tx.w.bytes, l.InFlight() % 0x1_0000, WriteSize(l);
    WriteSizeWithin(l);
    SliceOf(l.tx.mem, l.tx.w.data, |b|, at, n);
  }

  lemma WriteSizeWithin(l: Link)
    requires l.InFlight() <= |l.tx.w.bytes| <= BUF_MAX_LEN
    ensures var left := |l.tx.w.bytes| - l.InFlight() % 0x1_0000;
            left >= 0 && WriteSize(l) == if left < l.c.remoteWin then left else l.c.remoteWin
  {
    hide Sub32;
    SmallMod(|l.tx.w.bytes| - l.InFlight() % 0x1_0000);
  }

  lemma SmallMod(x: nat)
    requires x < 0x1_0000_0000
    ensures x % 0x1_0000_0000 == x
  {
  }

  /** What in the struct decides it: the in-flight count, cut to 16 bits, is beyond what tx_buf holds, so that the
      difference wraps and the peer's window alone bounds the copy; and from there the window reaches past the array. */
  predicate SendsOutside(l: Link) {
    var f := l.InFlight() % 0x1_0000;
    |l.tx.w.bytes| < f && l.c.remoteWin > 0 && l.tx.w.data + f + l.c.remoteWin > BUF_MAX_LEN
  }

  /** A send reads outside the array of tx_buf exactly then. */
  lemma OverreadsIff(l: Link)
    requires l.tx.WellFormed()
    ensures Overreads(l) <==> SendsOutside(l)
  {
    hide Sub32;
    var len, f := |l.tx.w.bytes|, l.InFlight() % 0x1_0000;
    if f <= len {
      SmallMod(len - f);
    } else {
      WrappedBelow(f - len);
    }
  }

  lemma WrappedBelow(x: int)
    requires 0 < x < 0x1_0000
    ensures (-x) % 0x1_0000_0000 == 0x1_0000_0000 - x
  {
  }

  /** Only a connection whose sends have met 65536 bytes in flight can read outside the array of tx_buf. */
  lemma OverreadOnlyWide(l: Link)
    requires TxInv(l) && l.tx.WellFormed()
    ensures Overreads(l) ==> l.h.wide
  {
    hide TxAt, Overreads;
    if !l.h.wide {
      FlushTakes(l);
    }
  }

  ghost predicate TxFacts(l: Link, f: nat) {
    && l.h.acked + f <= |l.h.written| && l.tx.w.bytes == l.h.written[l.h.acked..]
    && l.c.nextSeq == Add32(Base(l.h), l.h.acked + f)
    && Tiles(l.h.sent, Base(l.h), l.h.written[..l.h.acked + f])
  }

  lemma TxUnfold(l: Link, f: nat)
    requires TxAt(l, f)
    ensures TxFacts(l, f)
  {
  }

  /** `m` bytes beyond the acknowledged ones have been sent, and the segments tile the stream up to there. */
  ghost predicate StreamSent(h: Hist, m: nat) {
    h.acked + m <= |h.written| && Tiles(h.sent, Base(h), h.written[..h.acked + m])
  }

  lemma TilesLast(sent: seq<Segment>, base: int, data: seq<byte>, g: Segment, p: seq<byte>)
    requires Tiles(sent, base, data) && !Syn(g.flags) && g.seqNo == Add32(base, |data|) && |p| == |g.payload|
    ensures Tiles(sent + [g], base, data + p) <==> p == g.payload
  {
    var all := data + p;
    assert all[|data|..] == p && all[..|data|] == data;
    assert (sent + [g])[..|sent|] == sent;
  }

  /** The numbers of one send: it begins at the first byte not in flight. */
  lemma FlushNumbers(l: Link, flags: Flags)
    requires TxFacts(l, l.InFlight())
    ensures var r, h, f, n := Flush(l, flags), l.h, l.InFlight(), WriteSize(l);
            && |r.h.sent| == |h.sent| + 1 && r.h.sent == h.sent + [r.h.sent[|h.sent|]]
            && var g := r.h.sent[|h.sent|];
               g.payload == WriteBytes(l) && g.flags == flags && g.seqNo == Add32(Base(h), h.acked + f)
               && r.c.nextSeq == Add32(Base(h), h.acked + f + n + (if Syn(flags) || Fin(flags) then 1 else 0))
  {
    hide Add32, Sub32, Tiles, WriteBytes, WriteSize, Syn, Fin;
    var h, f, n := l.h, l.InFlight(), WriteSize(l);
    assert |WriteBytes(l)| == n by { WriteLen(l); }
    SubOfAdd(Base(h), h.acked + f, n);
    AddAdd(Base(h), h.acked + f, n);
    AddAdd(Base(h), h.acked + f + n, 1);
  }

  lemma WriteLen(l: Link)
    ensures |WriteBytes(l)| == WriteSize(l)
  {
  }

  /** One send continues the stream exactly when fewer than 65536 bytes are in flight, or there is nothing to send, or
      the bytes it takes instead, from 65536 or a multiple of it earlier, happen to equal the next ones. */
  lemma FlushSendsIff(l: Link, flags: Flags)
    requires TxAt(l, l.InFlight()) && l.tx.WellFormed() && !Syn(flags)
    ensures var b, f, n := l.tx.w.bytes, l.InFlight(), WriteSize(l);
            var at := f % 0x1_0000;
            StreamSent(Flush(l, flags).h, f + n) <==>
            f < 0x1_0000 || n == 0 || (at + n <= |b| && f + n <= |b| && b[at..at + n] == b[f..f + n])
  {
    hide Add32, Sub32, Tiles, TxAt, WriteBytes, WriteSize, Syn, Flush;
    var h, b, f, n := l.h, l.tx.w.bytes, l.InFlight(), WriteSize(l);
    var at := f % 0x1_0000;
    FlushTakes(l);
    TxUnfold(l, f);
    FlushNumbers(l, flags);
    FlushShape(l, flags);
    var g := Flush(l, flags).h.sent[|h.sent|];
    if f + n <= |b| {
      assert h.written[..h.acked + f + n] == h.written[..h.acked + f] + b[f..f + n];
      TilesLast(h.sent, Base(h), h.written[..h.acked + f], g, b[f..f + n]);
    }
  }

  lemma FlushShape(l: Link, flags: Flags)
    ensures var r := Flush(l, flags);
            && r.tx == l.tx && r.rx == l.rx && r.h == l.h.(sent := r.h.sent, wide := r.h.wide)
            && r.c == l.c.(nextSeq := r.c.nextSeq)
            && (r.h.wide <==> l.h.wide || (WriteSize(l) > 0 && l.InFlight() >= 0x1_0000))
  {
  }

  lemma FlushKeepsTx(l: Link, flags: Flags)
    requires TxInv(l) && l.tx.WellFormed() && !Syn(flags) && !Fin(flags)
    ensures TxInv(Flush(l, flags))
    ensures !Flush(l, flags).h.wide ==> Flush(l, flags).InFlight() == l.InFlight() + WriteSize(l)
  {
    hide Tiles, Flush, WriteSize, Add32, Sub32, Syn, Fin;
    FlushShape(l, flags);
    if !Flush(l, flags).h.wide {
      var m := l.InFlight() + WriteSize(l);
      FlushSendsIff(l, flags);
      FlushTakes(l);
      FlushNumbers(l, flags);
      assert TxAt(Flush(l, flags), m);
      InFlightIs(Flush(l, flags), m);
    }
  }

  /** The plain comparison of acknowledgement numbers never drops a byte that was not sent and acknowledged, also when
      the counters have wrapped; it only takes an acknowledgement that lies strictly inside what is in flight. */
  lemma AckKeepsTx(l: Link, ackNo: u32)
    requires TxInv(l)
    ensures TxInv(TakeAck(l, ackNo))
    ensures !l.h.wide && AckTaken(l, ackNo) ==> 0 < Sub32(ackNo, l.c.unackSeq) < l.InFlight()
  {
    hide Tiles, Add32, Sub32;
    if !l.h.wide && AckTaken(l, ackNo) {
      var h := l.h;
      var f := l.InFlight();
      var n := Sub32(ackNo, l.c.unackSeq);
      AckInside(l, ackNo);
      AckCounters(Base(h), h.acked, n, f, ackNo);
      var r := TakeAck(l, ackNo);
      assert r.tx.w.bytes == h.written[h.acked..][n..] == h.written[h.acked + n..];
      assert r.h.acked + (f - n) == h.acked + f;
      assert TxAt(r, f - n);
      InFlightIs(r, f - n);
    }
  }

  lemma AckInside(l: Link, ackNo: u32)
    requires AckTaken(l, ackNo)
    ensures var n := Sub32(ackNo, l.c.unackSeq);
            n == ackNo - l.c.unackSeq && 0 < n < l.InFlight() == l.c.nextSeq - l.c.unackSeq
  {
  }

  lemma AckCounters(base: int, acked: nat, n: nat, f: nat, ackNo: u32)
    requires n <= f < 0x1_0000_0000 && ackNo == Add32(base, acked) + n
    ensures ackNo == Add32(base, acked + n)
  {
  }

  /** tcp_connect_write takes all of the data or nothing, also through the path that compacts the buffer. */
  lemma WriteAllOrNothing(l: Link, data: seq<byte>)
    requires l.tx.WellFormed()
    ensures var r := ConnectWrite(l, data);
            && Accepted(l, data) in {0, |data|}
            && r.h.written == l.h.written + data[..Accepted(l, data)]
            && (Accepted(l, data) > 0 ==> r.tx.w.bytes == l.tx.w.bytes + data && r.c == l.c)
            && (Accepted(l, data) == 0 ==> r.tx.w.bytes == l.tx.w.bytes)
  {
    if l.InFlight() + |data| < l.c.remoteWin {
      assert |data| < 0x1_0000;
      assert Accepted(l, data) == |data| ==> data[..|data|] == data;
    }
  }

  lemma WriteKeepsTx(l: Link, data: seq<byte>)
    requires TxInv(l) && l.tx.WellFormed()
    ensures TxInv(ConnectWrite(l, data)) && ConnectWrite(l, data).tx.WellFormed()
  {
    hide TxAt, Add32, Sub32, Flush, WriteSize;
    if l.InFlight() + |data| >= l.c.remoteWin {
    } else if !l.tx.w.FitsTail(WriteRoom(l, data)) {
      var m := l.(tx := l.tx.ToFront());
      ToFrontWell(l.tx);
      CompactKeepsTx(l);
      FlushKeepsTx(m, ACK);
      FlushShape(m, ACK);
    } else {
      AppendKeepsTx(l, data);
    }
  }

  lemma CompactKeepsTx(l: Link)
    requires TxInv(l)
    ensures TxInv(l.(tx := l.tx.ToFront()))
  {
    hide Add32, Sub32, Tiles, Splice;
  }

  lemma AppendKeepsTx(l: Link, data: seq<byte>)
    requires TxInv(l) && l.tx.WellFormed()
    requires l.InFlight() + |data| < l.c.remoteWin && l.tx.w.FitsTail(WriteRoom(l, data))
    ensures TxInv(ConnectWrite(l, data)) && ConnectWrite(l, data).tx.WellFormed()
  {
    hide Add32, Sub32, Tiles, Flush, Splice;
    WriteAllOrNothing(l, data);
    assert WriteRoom(l, data) == |data| && data[..|data|] == data;
    PutWell(l.tx, data);
    var r := ConnectWrite(l, data);
    if !r.h.wide {
      var h := l.h;
      var f := l.InFlight();
      assert r.h.written == h.written + data;
      assert r.h.written[h.acked..] == h.written[h.acked..] + data;
      assert r.h.written[..h.acked + f] == h.written[..h.acked + f];
    }
  }

  // ----- callbacks

  /** CONNECTED first and once, then DATA_RECV any number of times, CLOSED once and last. */
  predicate Orderly(calls: seq<Call>) {
    && (calls != [] ==> calls[0] == CONNECTED)
    && (forall i :: 0 < i < |calls| ==> calls[i] != CONNECTED)
    && (forall i :: 0 <= i < |calls| - 1 ==> calls[i] != CLOSED)
  }

  predicate StillOpen(calls: seq<Call>) {
    Orderly(calls) && (forall i :: 0 <= i < |calls| ==> calls[i] != CLOSED)
  }

  // ----- everything about one connection

  /** Between steps a connection out of LISTEN is in one of five states, and its streams and callbacks are in order. */
  ghost predicate LinkInv(l: Link) {
    && l.c.state in {SYN_RCVD, ESTABLISHED, FIN_WAIT_1, FIN_WAIT_2, LAST_ACK}
    && RxInv(l) && l.tx.WellFormed()
    && StillOpen(l.h.calls) && (l.h.calls == [] <==> l.c.state == SYN_RCVD)
    && (l.h.finTaken <==> l.c.state == LAST_ACK)
    && (l.c.state == SYN_RCVD ==> TxAt(l.(c := l.c.(unackSeq := Add32(l.c.unackSeq, 1))), 0) && !l.h.wide)
    && (l.c.state == ESTABLISHED ==> TxInv(l))
  }

  /** Parts of a link that the application's operations never touch. */
  predicate SameShape(a: Link, b: Link) {
    && b.c == a.c.(unackSeq := b.c.unackSeq, nextSeq := b.c.nextSeq)
    && b.h.calls == a.h.calls && b.h.finTaken == a.h.finTaken && b.h.arrived == a.h.arrived
    && b.h.iss == a.h.iss && b.h.irs == a.h.irs
  }

  lemma ApplyKeeps(l: Link, op: Op)
    requires LinkInv(l) && l.c.state != SYN_RCVD
    ensures LinkInv(Apply(l, op)) && SameShape(l, Apply(l, op))
  {
    hide LinkInv, SameShape, ConnectRead, ConnectWrite;
    match op
    case OpRead(len) => ReadKeeps(l, len);
    case OpWrite(data) => WriteKeeps(l, data);
  }

  lemma ReadKeeps(l: Link, len: nat)
    requires LinkInv(l) && l.c.state != SYN_RCVD
    ensures LinkInv(ConnectRead(l, len)) && SameShape(l, ConnectRead(l, len))
  {
    hide Tiles, Add32, Sub32, Kept, Total, Spills;
    ReadKeepsRx(l, len);
  }

  lemma WriteKeeps(l: Link, data: seq<byte>)
    requires LinkInv(l) && l.c.state != SYN_RCVD
    ensures LinkInv(ConnectWrite(l, data)) && SameShape(l, ConnectWrite(l, data))
  {
    hide TxInv, Flush, Add32, Sub32, Kept, Total, Spills, Splice, WriteSize, Tiles;
    if l.c.state == ESTABLISHED {
      WriteKeepsTx(l, data);
    }
    WriteWell(l, data);
    FlushShape(l.(tx := l.tx.ToFront()), ACK);
  }

  lemma WriteWell(l: Link, data: seq<byte>)
    requires l.tx.WellFormed()
    ensures ConnectWrite(l, data).tx.WellFormed()
  {
    hide Flush, WriteSize;
    FlushShape(l.(tx := l.tx.ToFront()), ACK);
    ToFrontWell(l.tx);
    var n := WriteRoom(l, data);
    PutWell(l.tx, if n <= |data| then data[..n] else data);
    if l.InFlight() + |data| < l.c.remoteWin {
      assert n <= |data|;
    }
  }

  lemma {:induction false} ScriptKeeps(l: Link, script: seq<Op>)
    requires LinkInv(l) && l.c.state != SYN_RCVD
    ensures LinkInv(RunScript(l, script)) && SameShape(l, RunScript(l, script))
  {
    hide LinkInv;
    if script != [] {
      var m := RunScript(l, script[..|script| - 1]);
      ScriptKeeps(l, script[..|script| - 1]);
      ApplyKeeps(m, script[|script| - 1]);
    }
  }

  /** The three-way handshake completes: the SYN counts as acknowledged whatever number the segment acknowledges. */
  lemma ConnectedStart(l: Link)
    requires LinkInv(l) && l.c.state == SYN_RCVD
    ensures LinkInv(l.(c := l.c.(unackSeq := Add32(l.c.unackSeq, 1), state := ESTABLISHED),
                       h := l.h.(calls := l.h.calls + [CONNECTED])))
  {
    hide Tiles, Add32, Kept, Spills, Total;
    var m := l.(c := l.c.(unackSeq := Add32(l.c.unackSeq, 1), state := ESTABLISHED));
    assert TxAt(m, 0);
    InFlightIs(m, 0);
  }

  lemma ConnectedKeeps(l: Link, script: seq<Op>)
    requires LinkInv(l) && l.c.state == SYN_RCVD
    ensures LinkInv(Callback(l.(c := l.c.(unackSeq := Add32(l.c.unackSeq, 1), state := ESTABLISHED)),
                             CONNECTED, script))
  {
    hide LinkInv, Add32, RunScript;
    ConnectedStart(l);
    ScriptKeeps(l.(c := l.c.(unackSeq := Add32(l.c.unackSeq, 1), state := ESTABLISHED),
                   h := l.h.(calls := l.h.calls + [CONNECTED])), script);
  }

  lemma CalledKeeps(l: Link)
    requires LinkInv(l) && l.c.state == ESTABLISHED
    ensures LinkInv(l.(h := l.h.(calls := l.h.calls + [DATA_RECV])))
  {
    hide Kept, Spills, Total, Add32, Sub32, Tiles;
    var m := l.(h := l.h.(calls := l.h.calls + [DATA_RECV]));
    assert TxInv(m) by { hide Tiles, Add32; }
  }

  lemma FlushKeeps(l: Link)
    requires LinkInv(l) && l.c.state == ESTABLISHED
    ensures LinkInv(Flush(l, ACK)) && SameShape(l, Flush(l, ACK))
  {
    hide TxInv, Flush, Add32, Kept, Spills, Total;
    FlushKeepsTx(l, ACK);
    FlushShape(l, ACK);
  }

  lemma ReceiveKeeps(l: Link, payload: seq<byte>)
    requires LinkInv(l) && l.c.state == ESTABLISHED && !Overruns(l, |payload|)
    ensures LinkInv(Receive(l, payload)) && Receive(l, payload).c.state == ESTABLISHED
  {
    hide TxInv, RxInv, Splice, Add32, Kept, Spills, Total;
    ReceiveKeepsRx(l, payload);
    ReceiveSameTx(l, payload);
  }

  lemma ReceiveSameTx(l: Link, payload: seq<byte>)
    requires TxInv(l)
    ensures TxInv(Receive(l, payload))
  {
    hide Tiles, Add32, Splice;
  }

  lemma AckKeeps(l: Link, ackNo: u32)
    requires LinkInv(l) && l.c.state == ESTABLISHED
    ensures LinkInv(TakeAck(l, ackNo)) && TakeAck(l, ackNo).c.state == ESTABLISHED
  {
    hide TxInv, Kept, Spills, Total, Add32, Sub32;
    AckKeepsTx(l, ackNo);
  }

  lemma EstablishedOpen(l: Link, g: Segment, script: seq<Op>)
    requires l.c.state == ESTABLISHED
    ensures Established(l, g, script).c.state != LISTEN
  {
    hide RunScript;
  }

  lemma EstablishedKeeps(l: Link, g: Segment, script: seq<Op>)
    requires LinkInv(l) && l.c.state == ESTABLISHED && EstablishedStop(l, g, script) == Running
    ensures LinkInv(Established(l, g, script))
  {
    hide LinkInv, RunScript, Flush, Receive, TakeAck, TakeFin, Ack, Fin, Overruns, Overreads;
    if Ack(g.flags) || Fin(g.flags) {
      var taken := if Ack(g.flags) then TakeAck(l, g.ackNo) else l;
      if Ack(g.flags) {
        AckKeeps(l, g.ackNo);
      }
      var m := Receive(taken, g.payload);
      ReceiveKeeps(taken, g.payload);
      if Fin(g.flags) {
        FinKeeps(m);
      } else if |g.payload| > 0 {
        var called := m.(h := m.h.(calls := m.h.calls + [DATA_RECV]));
        CalledKeeps(m);
        ScriptKeeps(called, script);
        FlushKeeps(RunScript(called, script));
      }
    }
  }

  /** The connection when a segment in ESTABLISHED makes it send from tx_buf: the acknowledgement is taken, the
      payload is received, and the callback has returned. */
  function DataSender(l: Link, g: Segment, script: seq<Op>): Option<Link> {
    if !Ack(g.flags) || Fin(g.flags) || g.payload == [] || Overruns(l, |g.payload|) then None
    else Some(Callback(Receive(TakeAck(l, g.ackNo), g.payload), DATA_RECV, script))
  }

  /** A segment in ESTABLISHED leaves an array exactly by a payload that spills, or by such a send in the condition of
      SendsOutside, for which an earlier send must have met 65536 bytes in flight. */
  lemma EstablishedStopMeans(l: Link, g: Segment, script: seq<Op>)
    requires LinkInv(l) && l.c.state == ESTABLISHED
    ensures EstablishedStop(l, g, script) in {Running, Overrun(l.c.rxBuf, g.payload), Overread(l.c.rxBuf)}
    ensures EstablishedStop(l, g, script).Overrun? <==>
            (Ack(g.flags) || Fin(g.flags)) && Spills(l.h.arrived + [g.payload])
    ensures var m := DataSender(l, g, script);
            && (EstablishedStop(l, g, script).Overread? <==> m.Some? && SendsOutside(m.value))
            && (m.Some? ==> LinkInv(m.value) && m.value.c.state == ESTABLISHED && m.value.c.rxBuf == l.c.rxBuf)
            && (m.Some? && SendsOutside(m.value) ==> m.value.h.wide)
  {
    hide LinkInv, RunScript, Receive, TakeAck, Ack, Fin, Overruns, Overreads, Spills, SendsOutside;
    LinkOverruns(l, g.payload);
    TakeAckRx(l, g.ackNo, |g.payload|);
    if DataSender(l, g, script).Some? {
      AckKeeps(l, g.ackNo);
      var taken := TakeAck(l, g.ackNo);
      var m := Receive(taken, g.payload);
      var called := m.(h := m.h.(calls := m.h.calls + [DATA_RECV]));
      ReceiveKeeps(taken, g.payload);
      ReceiveRx(taken, g.payload);
      CalledKeeps(m);
      ScriptKeeps(called, script);
      SenderOutside(RunScript(called, script));
    }
  }

  lemma TakeAckRx(l: Link, ackNo: u32, n: nat)
    ensures TakeAck(l, ackNo).c.rxBuf == l.c.rxBuf && (Overruns(TakeAck(l, ackNo), n) <==> Overruns(l, n))
  {
  }

  lemma ReceiveRx(l: Link, payload: seq<byte>)
    ensures Receive(l, payload).c.rxBuf == l.c.rxBuf
  {
  }

  lemma SenderOutside(l: Link)
    requires LinkInv(l) && l.c.state == ESTABLISHED
    ensures Overreads(l) <==> SendsOutside(l)
    ensures SendsOutside(l) ==> l.h.wide
  {
    hide Overreads, SendsOutside, TxInv, RxInv;
    OverreadsIff(l);
    OverreadOnlyWide(l);
  }

  lemma LinkOverruns(l: Link, payload: seq<byte>)
    requires LinkInv(l)
    ensures Overruns(l, |payload|) <==> Spills(l.h.arrived + [payload])
  {
    OverrunsIff(l, payload);
  }

  lemma FinKeeps(m: Link)
    requires LinkInv(m) && m.c.state == ESTABLISHED
    ensures LinkInv(TakeFin(m))
  {
    hide Kept, Spills, Add32, Sub32, TxAt;
    AddAdd(m.h.irs, 1 + |Total(m.h.arrived)|, 1);
  }

  lemma CloseKeeps(l: Link)
    requires LinkInv(l) && l.c.state == ESTABLISHED
    ensures var r := Flush(l, ACK_FIN); LinkInv(r.(c := r.c.(state := FIN_WAIT_1)))
  {
    hide Tiles, TxAt, Add32, Sub32, Flush, Kept, Spills, Total;
    FlushShape(l, ACK_FIN);
  }

  lemma EstablishedTx(l: Link)
    requires LinkInv(l) && l.c.state == ESTABLISHED && !l.h.wide
    ensures TxAt(l, l.InFlight()) && l.tx.WellFormed()
  {
  }

  lemma FinFlags()
    ensures !Syn(ACK_FIN) && Fin(ACK_FIN)
  {
  }

  /** Closing an established connection sends the next stretch of the stream together with the FIN; nothing stays unsent
      exactly when what is not in flight fits the peer's window. */
  lemma CloseSends(l: Link)
    requires LinkInv(l) && l.c.state == ESTABLISHED && !l.h.wide && l.InFlight() < 0x1_0000
    ensures var r, f := Flush(l, ACK_FIN), l.InFlight();
            && StreamSent(r.h, f + WriteSize(l))
            && |r.h.sent| == |l.h.sent| + 1 && Fin(r.h.sent[|l.h.sent|].flags)
            && (Tiles(r.h.sent, Base(r.h), r.h.written) <==> |l.tx.w.bytes| - f <= l.c.remoteWin)
  {
    hide Tiles, Flush, WriteSize, Add32, Sub32, Syn, Fin, TxAt, LinkInv;
    EstablishedTx(l);
    assert !Syn(ACK_FIN) && Fin(ACK_FIN) by { FinFlags(); }
    var r, f, n := Flush(l, ACK_FIN), l.InFlight(), WriteSize(l);
    FlushSendsIff(l, ACK_FIN);
    FlushTakes(l);
    TxUnfold(l, f);
    FlushNumbers(l, ACK_FIN);
    FlushShape(l, ACK_FIN);
    var data := l.h.written;
    if l.h.acked + f + n == |data| {
      assert data[..l.h.acked + f + n] == data;
    } else if Tiles(r.h.sent, Base(r.h), data) {
      TilesUnique(r.h.sent, Base(r.h), data, data[..l.h.acked + f + n]);
    }
  }

  /** The segments determine the data they carry. */
  lemma {:induction false} TilesUnique(sent: seq<Segment>, base: int, a: seq<byte>, b: seq<byte>)
    requires Tiles(sent, base, a) && Tiles(sent, base, b)
    ensures a == b
  {
    if sent != [] {
      var g := sent[|sent| - 1];
      var m, n := |a| - |g.payload|, |b| - |g.payload|;
      TilesUnique(sent[..|sent| - 1], base, a[..m], b[..n]);
      assert a == a[..m] + a[m..] && b == b[..n] + b[n..];
    }
  }

  lemma NewBlockWell(junk: seq<byte>)
    ensures NewBlock(junk).WellFormed()
  {
  }

  /** A connection is born with its invariants. */
  lemma OpenKeeps(c: Conn, chance: Chance, irs: u32)
    requires c.state == SYN_RCVD && c.unackSeq == c.nextSeq == chance.iss && c.ack == Add32(irs, 1)
    ensures LinkInv(Send(Link(c, NewBlock(chance.rxJunk), NewBlock(chance.txJunk), NewHist(chance.iss, irs)),
                         [], ACK_SYN))
  {
    hide NewBlock, Filled;
    NewBlockWell(chance.rxJunk);
    NewBlockWell(chance.txJunk);
    assert NewBlock(chance.rxJunk).w == NewBlock(chance.txJunk).w == Window(HALF, []) by { NewBlockWindow(chance); }
    var r := Send(Link(c, NewBlock(chance.rxJunk), NewBlock(chance.txJunk), NewHist(chance.iss, irs)), [], ACK_SYN);
    var g := r.h.sent[0];
    assert r.h.sent == [] + [g] && r.h.sent[..0] == [];
    assert Tiles([], Base(r.h), []);
    assert Sub32(chance.iss, 0) == chance.iss == Add32(Base(r.h), -1);
    assert Tiles(r.h.sent, Base(r.h), []);
  }

  lemma NewBlockWindow(chance: Chance)
    ensures NewBlock(chance.rxJunk).w == NewBlock(chance.txJunk).w == Window(HALF, [])
  {
  }
}
