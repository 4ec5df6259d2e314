/** What holds after every run of the TCP machine from its initial state. */
module TcpTheorems {
  import opened Words
  import opened SlotMap
  import opened Ethernet
  import opened TcpWire
  import opened Tcp
  import opened TcpStreams
  import opened TcpOwnership

  lemma InitialInv(cap: nat)
    ensures Inv(Initial(cap))
  {
  }

  /** The state after a run from the beginning. */
  ghost function From(cap: nat, run: seq<Input>): (s: State)
    ensures Inv(s)
  {
    InitialInv(cap);
    Run(Initial(cap), run)
  }

  ghost predicate LegalRun(cap: nat, run: seq<Input>) {
    InitialInv(cap);
    Legal(Initial(cap), run)
  }

  // ----- ownership

  /** After every run in which no copy left its array: a connection out of LISTEN stands under the key of its own
      address and ports and holds two allocated buffers that nobody else holds; every address malloc ever returned is
      either allocated or was freed, and freed once; no state without a case was reached. */
  lemma Ownership(cap: nat, run: seq<Input>)
    requires LegalRun(cap, run) && Intact(From(cap, run))
    ensures var s := From(cap, run);
            && s.stop != Panic
            && (forall k <- s.conns ::
                  && s.conns[k].state in {LISTEN, SYN_RCVD, ESTABLISHED, FIN_WAIT_1, FIN_WAIT_2, LAST_ACK}
                  && (s.conns[k].state != LISTEN ==>
                        && k == Key(s.conns[k].ip, s.conns[k].remotePort, s.conns[k].localPort)
                        && s.conns[k].rxBuf in s.env.heap && s.conns[k].txBuf in s.env.heap))
            && (forall p: nat, j, k :: HeldAt(s, p, j) && HeldAt(s, p, k) ==> j == k)
            && (forall p :: 0 <= p < s.env.brk <==> p in s.env.heap || p in s.env.freed)
            && (forall i, j :: 0 <= i < j < |s.env.freed| ==> s.env.freed[i] != s.env.freed[j])
            && (forall i :: 0 <= i < |s.env.freed| ==> s.env.freed[i] !in s.env.heap)
  {
    var s := From(cap, run);
    forall k | k in s.conns
      ensures s.conns[k].state in {LISTEN, SYN_RCVD, ESTABLISHED, FIN_WAIT_1, FIN_WAIT_2, LAST_ACK}
      ensures s.conns[k].state != LISTEN ==>
                && k == Key(s.conns[k].ip, s.conns[k].remotePort, s.conns[k].localPort)
                && s.conns[k].rxBuf in s.env.heap && s.conns[k].txBuf in s.env.heap
    {
      assert SlotInv(s.env, k, s.conns[k]);
    }
    forall p: nat, j, k | HeldAt(s, p, j) && HeldAt(s, p, k)
      ensures j == k
    {
      if j != k {
        Apart(s, j, k);
      }
    }
  }

  // ----- streams

  function Payloads(sent: seq<Segment>): seq<byte> {
    if sent == [] then [] else Payloads(sent[..|sent| - 1]) + sent[|sent| - 1].payload
  }

  /** Tiling in the open: the payloads concatenate to the data, and each stands at the sequence number of its offset. */
  lemma {:induction false} TilesMean(sent: seq<Segment>, base: int, data: seq<byte>)
    requires Tiles(sent, base, data)
    ensures Payloads(sent) == data
    ensures forall i :: 0 <= i < |sent| && !Syn(sent[i].flags) ==>
                          sent[i].seqNo == Add32(base, |Payloads(sent[..i])|)
  {
    hide Add32, Syn;
    if sent != [] {
      var sent' := sent[..|sent| - 1];
      var g := sent[|sent| - 1];
      var n := |data| - |g.payload|;
      TilesMean(sent', base, data[..n]);
      assert data == data[..n] + data[n..];
      forall i | 0 <= i < |sent| && !Syn(sent[i].flags)
        ensures sent[i].seqNo == Add32(base, |Payloads(sent[..i])|)
      {
        if i < |sent'| {
          assert sent'[..i] == sent[..i];
        }
      }
    }
  }

  /** The link of a connection that exists after a run in which no copy left its array. */
  ghost predicate After(cap: nat, run: seq<Input>, k: Key, l: Link) {
    && LegalRun(cap, run)
    && var s := From(cap, run);
       && Intact(s) && k in s.conns && s.conns[k].state != LISTEN && Owns(s.env, s.conns[k])
       && l == Load(s.env, s.conns[k])
  }

  lemma AfterInv(cap: nat, run: seq<Input>, k: Key, l: Link)
    requires After(cap, run, k, l)
    ensures LinkInv(l)
  {
    var s := From(cap, run);
    assert SlotInv(s.env, k, s.conns[k]);
  }

  ghost predicate SendStreamHolds(l: Link) {
    var h := l.h;
    && h.acked <= |h.written| && l.tx.w.bytes == h.written[h.acked..]
    && l.InFlight() <= |l.tx.w.bytes|
    && l.c.unackSeq == Add32(h.iss, 1 + h.acked)
    && Payloads(h.sent) == h.written[..h.acked + l.InFlight()]
    && (forall i :: 0 <= i < |h.sent| && !Syn(h.sent[i].flags) ==>
          h.sent[i].seqNo == Add32(h.iss, 1 + |Payloads(h.sent[..i])|))
  }

  lemma SendStreamOf(l: Link)
    requires TxInv(l) && !l.h.wide
    ensures SendStreamHolds(l)
  {
    hide Tiles, Sub32, Syn;
    TilesMean(l.h.sent, Base(l.h), l.h.written[..l.h.acked + l.InFlight()]);
  }

  /** Send stream: in ESTABLISHED, as long as no send has met 65536 or more bytes in flight, tx_buf is exactly what the
      application wrote and the peer has not acknowledged; what is in flight is a prefix of it; the payloads of all
      segments sent so far concatenate to a prefix of what was written, each at its own sequence number, modulo 2^32. */
  lemma SendStream(cap: nat, run: seq<Input>, k: Key, l: Link)
    requires After(cap, run, k, l) && l.c.state == ESTABLISHED && !l.h.wide
    ensures SendStreamHolds(l)
  {
    hide After, Tiles, TxInv, SendStreamHolds, RxInv;
    AfterInv(cap, run, k, l);
    SendStreamOf(l);
  }

  /** The next send keeps what was sent a prefix of what was written, at the right numbers, exactly when fewer than
      65536 bytes are in flight, or the bytes it repeats happen to be those that should follow. */
  lemma NextSendIff(cap: nat, run: seq<Input>, k: Key, l: Link, flags: Flags)
    requires After(cap, run, k, l) && l.c.state == ESTABLISHED && !l.h.wide && !Syn(flags)
    ensures var b, f, n := l.tx.w.bytes, l.InFlight(), WriteSize(l);
            var at := f % 0x1_0000;
            && f <= |b| && at + n <= |b| && WriteBytes(l) == b[at..at + n]
            && (StreamSent(Flush(l, flags).h, f + n) <==>
                f < 0x1_0000 || n == 0 || (f + n <= |b| && b[at..at + n] == b[f..f + n]))
  {
    hide After, Tiles, TxInv, TxAt, RxInv, LinkInv, WriteBytes, WriteSize, Flush, StreamSent, Syn;
    AfterInv(cap, run, k, l);
    EstablishedTx(l);
    TxWithin(l);
    FlushTakes(l);
    FlushSendsIff(l, flags);
  }

  lemma TxWithin(l: Link)
    requires TxAt(l, l.InFlight())
    ensures l.InFlight() <= |l.tx.w.bytes|
  {
  }

  /** Receive stream: what the application read, followed by rx_buf, is the payloads that had room, which is
      everything acknowledged to the peer exactly while at most 65662 bytes have arrived; and the acknowledgement
      number counts every byte and the FIN, modulo 2^32. */
  lemma ReceiveStream(cap: nat, run: seq<Input>, k: Key, l: Link)
    requires After(cap, run, k, l)
    ensures l.h.readOut + l.rx.w.bytes == Kept(l.h.arrived)
    ensures l.h.readOut + l.rx.w.bytes == Total(l.h.arrived) <==> |Total(l.h.arrived)| <= 65662
    ensures l.c.ack == Add32(l.h.irs, 1 + |Total(l.h.arrived)| + (if l.c.state == LAST_ACK then 1 else 0))
  {
    hide After, Tiles, TxInv, TxAt, Add32, Kept, Total, Spills;
    AfterInv(cap, run, k, l);
    KeptIff(l.h.arrived);
  }

  /** Callbacks: for every incarnation, whatever became of it, CONNECTED comes first and once, CLOSED once and last. */
  lemma Callbacks(cap: nat, run: seq<Input>, id: nat)
    requires LegalRun(cap, run) && Intact(From(cap, run)) && id in From(cap, run).env.hist
    ensures var calls := From(cap, run).env.hist[id].calls;
            && (forall i :: 0 <= i < |calls| ==> (calls[i] == CONNECTED <==> i == 0))
            && (forall i :: 0 <= i < |calls| && calls[i] == CLOSED ==> i == |calls| - 1)
  {
    hide Spills, SlotInv;
  }

  // ----- the array of rx_buf

  /** The segment's payload is taken by an established connection. */
  ghost predicate TakesData(s: State, i: Input) {
    && s.stop == Running && i.Arrive? && i.g.dstPort in s.ports
    && var k := Key(i.ip, i.g.srcPort, i.g.dstPort);
       k in s.conns && s.conns[k].state == ESTABLISHED && i.g.seqNo == s.conns[k].ack
       && !Rst(i.g.flags) && (Ack(i.g.flags) || Fin(i.g.flags))
  }

  /** The rx_buf it goes to. */
  ghost function Target(s: State, i: Input): nat
    requires TakesData(s, i)
  {
    s.conns[Key(i.ip, i.g.srcPort, i.g.dstPort)].rxBuf
  }

  /** One step copies past the end of an rx_buf exactly when it takes a payload longer than what is left of the
      array. */
  lemma StepOverrunsIff(s: State, i: Input)
    requires Inv(s) && Usable(s) && Allowed(s, i) && s.stop == Running
    ensures Step(s, i).stop.Overrun? <==>
            TakesData(s, i) && Target(s, i) in s.env.hist && Spills(s.env.hist[Target(s, i)].arrived + [i.g.payload])
    ensures Step(s, i).stop.Overrun? ==> Step(s, i) == s.(stop := Overrun(Target(s, i), i.g.payload))
  {
    hide LinkInv, Inv, ReleaseAll, Spills, Update, Apply, Close, Process;
    match i {
      case Arrive(ip, g, chance, script) =>
        var k := Key(ip, g.srcPort, g.dstPort);
        if g.dstPort in s.ports && k in s.conns {
          assert s.(conns := s.conns[k := s.conns[k]]) == s by { assert s.conns[k := s.conns[k]] == s.conns; }
          ProcessOverrunsIff(s, k, g, chance, script);
        } else if g.dstPort in s.ports && |s.conns| != s.cap {
          FreshStops(s.(conns := s.conns[k := FreshConn(ip)]), k, g, chance, script);
        }
      case AppOp(k, op) => UpdateStops(s, k, Apply(Load(s.env, s.conns[k]), op));
      case AppClose(k) => CloseInv(s, k);
      case OpenPort(port) =>
      case ClosePort(port, order) => ReleaseAllStops(s, port, order);
    }
  }

  lemma UpdateStops(s: State, k: Key, l: Link)
    ensures Update(s, k, l).stop == s.stop
  {
  }

  lemma {:induction false} ReleaseAllStops(s: State, port: u16, order: seq<Key>)
    ensures ReleaseAll(s, port, order).stop == s.stop
  {
    hide Release;
    if order != [] {
      ReleaseAllStops(s, port, order[..|order| - 1]);
    }
  }

  /** A segment for an entry in LISTEN stops nothing. */
  lemma FreshStops(s: State, k: Key, g: Segment, chance: Chance, script: seq<Op>)
    requires k in s.conns && s.conns[k].state == LISTEN
    ensures Process(s, k, g, chance, script).stop == s.stop
  {
    hide Save, Send, NewBlock, Release;
  }

  lemma ProcessOverrunsIff(s: State, k: Key, g: Segment, chance: Chance, script: seq<Op>)
    requires Inv(s) && k in s.conns && (s.conns[k].state != LISTEN ==> Owns(s.env, s.conns[k])) && s.stop == Running
    ensures var c, t := s.conns[k], Process(s, k, g, chance, script);
            && (t.stop.Overrun? <==>
                && c.state == ESTABLISHED && g.seqNo == c.ack && !Rst(g.flags) && (Ack(g.flags) || Fin(g.flags))
                && Spills(s.env.hist[c.rxBuf].arrived + [g.payload]))
            && (t.stop.Overrun? ==> t == s.(stop := Overrun(c.rxBuf, g.payload)))
  {
    hide LinkInv, Inv, Spills, Close, Switch, Release, Open, Rst, Ack, Fin, Owns;
    var c := s.conns[k];
    if c.state == LISTEN {
      FreshStops(s, k, g, chance, script);
    } else if g.seqNo == c.ack && !Rst(g.flags) {
      SwitchOverrunsIff(s, k, g, script);
    } else {
      CloseInv(s, k);
    }
  }

  lemma SwitchOverrunsIff(s: State, k: Key, g: Segment, script: seq<Op>)
    requires Inv(s) && k in s.conns && s.conns[k].state != LISTEN && Owns(s.env, s.conns[k]) && s.stop == Running
    ensures var c, t := s.conns[k], Switch(s, k, g, script);
            && (t.stop.Overrun? <==>
                && c.state == ESTABLISHED && (Ack(g.flags) || Fin(g.flags))
                && Spills(s.env.hist[c.rxBuf].arrived + [g.payload]))
            && (t.stop.Overrun? ==> t == s.(stop := Overrun(c.rxBuf, g.payload)))
  {
    hide LinkInv, Inv, Spills, Release, Ack, Fin, EstablishedStop, Established, Save, Callback, Send;
    var c := s.conns[k];
    if c.state == ESTABLISHED {
      assert SlotInv(s.env, k, c) by { SlotsInv(s, k); }
      EstablishedStopMeans(Load(s.env, c), g, script);
    }
  }

  /** The payloads an incarnation was given: those it took, and the one that did not fit. */
  ghost function Offered(s: State, id: nat): seq<seq<byte>>
    requires id in s.env.hist
  {
    s.env.hist[id].arrived + (if s.stop.Overrun? && s.stop.id == id then [s.stop.payload] else [])
  }

  /** The process has copied past the end of an rx_buf exactly when, for some incarnation, a payload was longer than
      what was left of the array; how much the application read in between makes no difference. */
  lemma {:induction false} OverrunIff(cap: nat, run: seq<Input>)
    requires LegalRun(cap, run)
    ensures var s := From(cap, run);
            && (s.stop.Overrun? ==> s.stop.id in s.env.hist && Spills(s.env.hist[s.stop.id].arrived + [s.stop.payload]))
            && (s.stop.Overrun? <==> exists id <- s.env.hist :: Spills(Offered(s, id)))
  {
    hide Inv, Step, Spills, TakesData;
    var s := From(cap, run);
    if run != [] {
      var run', i := run[..|run| - 1], run[|run| - 1];
      OverrunIff(cap, run');
      var t := From(cap, run');
      InvUsable(t);
      if t.stop == Running {
        StepOverrunsIff(t, i);
      } else {
        StoppedStays(t, i);
      }
    }
    if s.stop.Overrun? {
      assert Spills(Offered(s, s.stop.id));
    } else {
      forall id <- s.env.hist
        ensures !Spills(Offered(s, id))
      {
        HistsOk(s, id);
        assert s.env.hist[id].arrived + [] == s.env.hist[id].arrived;
      }
    }
  }

  lemma StoppedStays(s: State, i: Input)
    requires Usable(s) && Allowed(s, i) && s.stop != Running
    ensures Step(s, i) == s
  {
  }

  lemma HistsOk(s: State, id: nat)
    requires Inv(s) && id in s.env.hist
    ensures HistOk(s.env.hist[id])
  {
  }

  /** In total numbers: no incarnation was given more than 65663 bytes, then nothing was overrun; and conversely,
      unless a payload once ended exactly at the end of the array. */
  lemma OverrunTotals(cap: nat, run: seq<Input>)
    requires LegalRun(cap, run)
    ensures var s := From(cap, run);
            && (s.stop.Overrun? ==> exists id <- s.env.hist :: |Total(Offered(s, id))| > 65663)
            && ((forall id <- s.env.hist, n: nat :: n <= |Offered(s, id)| ==> |Total(Offered(s, id)[..n])| != 65663) ==>
                  (s.stop.Overrun? <==> exists id <- s.env.hist :: |Total(Offered(s, id))| > 65663))
  {
    hide Inv, Step, Spills, Total, LegalRun, From;
    var s := From(cap, run);
    OverrunIff(cap, run);
    forall id <- s.env.hist
      ensures |Total(Offered(s, id))| <= 65663 ==> !Spills(Offered(s, id))
      ensures (forall n: nat :: n <= |Offered(s, id)| ==> |Total(Offered(s, id)[..n])| != 65663) ==>
                (Spills(Offered(s, id)) <==> |Total(Offered(s, id))| > 65663)
    {
      SpillsIff(Offered(s, id));
    }
  }

  // ----- the array of tx_buf

  /** The connection at the point where step `i` is about to take bytes from its tx_buf: an application's close, a
      RST, or the answer to a payload after its acknowledgement was taken, its bytes were received and the callback
      has returned. Writes that send out of a compacted tx_buf are left out: they cannot leave the array. */
  function Sender(s: State, i: Input): Option<Link>
    requires Usable(s) && Allowed(s, i)
  {
    if s.stop != Running then None
    else
      match i
      case AppClose(k) => if s.conns[k].state == ESTABLISHED then Some(Load(s.env, s.conns[k])) else None
      case Arrive(ip, g, _, script) =>
        var k := Key(ip, g.srcPort, g.dstPort);
        if g.dstPort !in s.ports || k !in s.conns then None else SegmentSender(s, k, g, script)
      case _ => None
  }

  function SegmentSender(s: State, k: Key, g: Segment, script: seq<Op>): Option<Link>
    requires k in s.conns && (s.conns[k].state != LISTEN ==> Owns(s.env, s.conns[k]))
  {
    if s.conns[k].state != ESTABLISHED || g.seqNo != s.conns[k].ack then None
    else
      var l := Load(s.env, s.conns[k]);
      if Rst(g.flags) then Some(l) else DataSender(l, g, script)
  }

  /** One step reads outside the array of a tx_buf exactly when it is about to send from a connection in this condition;
      the machine then stops as it was. */
  lemma StepOverreadsIff(s: State, i: Input)
    requires Inv(s) && Usable(s) && Allowed(s, i) && s.stop == Running
    ensures Step(s, i).stop.Overread? <==> Sender(s, i).Some? && SendsOutside(Sender(s, i).value)
    ensures Step(s, i).stop.Overread? ==> Step(s, i) == s.(stop := Overread(Sender(s, i).value.c.rxBuf))
  {
    hide LinkInv, Inv, ReleaseAll, Update, Apply, Close, Process, SendsOutside, Overreads, SegmentSender;
    match i {
      case Arrive(ip, g, chance, script) =>
        var k := Key(ip, g.srcPort, g.dstPort);
        if g.dstPort in s.ports && k in s.conns {
          assert s.(conns := s.conns[k := s.conns[k]]) == s by { assert s.conns[k := s.conns[k]] == s.conns; }
          ProcessOverreadsIff(s, k, g, chance, script);
        } else if g.dstPort in s.ports && |s.conns| != s.cap {
          FreshStops(s.(conns := s.conns[k := FreshConn(ip)]), k, g, chance, script);
        }
      case AppOp(k, op) => UpdateStops(s, k, Apply(Load(s.env, s.conns[k]), op));
      case AppClose(k) => CloseOverreadsIff(s, k);
      case OpenPort(port) =>
      case ClosePort(port, order) => ReleaseAllStops(s, port, order);
    }
  }

  /** The link of an established connection is in order. */
  lemma EstablishedLink(s: State, k: Key)
    requires Inv(s) && k in s.conns && s.conns[k].state == ESTABLISHED && Owns(s.env, s.conns[k])
    ensures var l := Load(s.env, s.conns[k]);
            LinkInv(l) && l.c == s.conns[k] && l.tx.WellFormed()
  {
    assert SlotInv(s.env, k, s.conns[k]) by { SlotsInv(s, k); }
  }

  lemma CloseOverreadsIff(s: State, k: Key)
    requires Inv(s) && k in s.conns && s.stop == Running && (s.conns[k].state != LISTEN ==> Owns(s.env, s.conns[k]))
    ensures var c, t := s.conns[k], Close(s, k, s.conns[k]).0;
            && (t.stop.Overread? <==> c.state == ESTABLISHED && SendsOutside(Load(s.env, c)))
            && (t.stop.Overread? ==> t == s.(stop := Overread(c.rxBuf)))
  {
    hide LinkInv, Inv, SendsOutside, Flush, Release, Overreads;
    if s.conns[k].state == ESTABLISHED {
      EstablishedLink(s, k);
      OverreadsIff(Load(s.env, s.conns[k]));
    }
  }

  lemma ProcessOverreadsIff(s: State, k: Key, g: Segment, chance: Chance, script: seq<Op>)
    requires Inv(s) && k in s.conns && (s.conns[k].state != LISTEN ==> Owns(s.env, s.conns[k])) && s.stop == Running
    ensures var m, t := SegmentSender(s, k, g, script), Process(s, k, g, chance, script);
            && (t.stop.Overread? <==> m.Some? && SendsOutside(m.value))
            && (t.stop.Overread? ==> t == s.(stop := Overread(m.value.c.rxBuf)))
  {
    hide LinkInv, Inv, Close, Switch, Release, Open, Rst, Ack, Fin, Owns, SendsOutside, DataSender;
    var c := s.conns[k];
    if c.state == LISTEN {
      FreshStops(s, k, g, chance, script);
    } else if g.seqNo == c.ack && !Rst(g.flags) {
      SwitchOverreadsIff(s, k, g, script);
    } else {
      CloseOverreadsIff(s, k);
      CloseInv(s, k);
    }
  }

  lemma SwitchOverreadsIff(s: State, k: Key, g: Segment, script: seq<Op>)
    requires Inv(s) && k in s.conns && s.conns[k].state != LISTEN && Owns(s.env, s.conns[k]) && s.stop == Running
    ensures var c, t := s.conns[k], Switch(s, k, g, script);
            && (t.stop.Overread? <==>
                && c.state == ESTABLISHED && DataSender(Load(s.env, c), g, script).Some?
                && SendsOutside(DataSender(Load(s.env, c), g, script).value))
            && (t.stop.Overread? ==> t == s.(stop := Overread(c.rxBuf)))
            && (t.stop.Overread? ==> DataSender(Load(s.env, c), g, script).value.c.rxBuf == c.rxBuf)
  {
    hide LinkInv, Inv, Release, Ack, Fin, EstablishedStop, Established, Save, SendsOutside, DataSender, Overreads;
    var c := s.conns[k];
    if c.state == ESTABLISHED {
      EstablishedLink(s, k);
      var l := Load(s.env, c);
      EstablishedStopMeans(l, g, script);
    }
  }

  lemma {:induction false} LegalPrefix(cap: nat, run: seq<Input>, n: nat)
    requires LegalRun(cap, run) && n < |run|
    ensures LegalRun(cap, run[..n]) && Usable(From(cap, run[..n])) && Allowed(From(cap, run[..n]), run[n])
  {
    hide Inv, Step, From;
    var run' := run[..|run| - 1];
    if n < |run| - 1 {
      LegalPrefix(cap, run', n);
      assert run'[..n] == run[..n];
    }
    InvUsable(From(cap, run[..n]));
    FromIs(cap, run[..n]);
  }

  lemma FromIs(cap: nat, run: seq<Input>)
    ensures From(cap, run) == Run(Initial(cap), run)
  {
  }

  /** The connection that event `n` of the run is about to send from. */
  ghost function SenderAt(cap: nat, run: seq<Input>, n: nat): Option<Link>
    requires LegalRun(cap, run) && n < |run|
  {
    LegalPrefix(cap, run, n);
    Sender(From(cap, run[..n]), run[n])
  }

  ghost predicate OutsideAt(cap: nat, run: seq<Input>, n: nat)
    requires LegalRun(cap, run) && n < |run|
  {
    SenderAt(cap, run, n).Some? && SendsOutside(SenderAt(cap, run, n).value)
  }

  lemma SenderAtPrefix(cap: nat, run: seq<Input>, n: nat)
    requires LegalRun(cap, run) && n < |run| - 1
    ensures LegalRun(cap, run[..|run| - 1]) && SenderAt(cap, run[..|run| - 1], n) == SenderAt(cap, run, n)
  {
    LegalPrefix(cap, run, |run| - 1);
    assert run[..|run| - 1][..n] == run[..n];
  }

  /** A run has read outside the array of a tx_buf exactly when, at one of its events, the connection that was about to
      send was in the condition of SendsOutside. */
  lemma {:induction false} OverreadIff(cap: nat, run: seq<Input>)
    requires LegalRun(cap, run)
    ensures From(cap, run).stop.Overread? <==> exists n :: 0 <= n < |run| && OutsideAt(cap, run, n)
  {
    hide Inv, Step, SendsOutside, From, Sender, LegalRun;
    if run == [] {
      FromIs(cap, run);
    } else {
      var last := |run| - 1;
      var run' := run[..last];
      LegalPrefix(cap, run, last);
      OverreadIff(cap, run');
      var t := From(cap, run');
      LastStep(cap, run);
      if t.stop == Running {
        StepOverreadsIff(t, run[last]);
        assert From(cap, run).stop.Overread? <==> OutsideAt(cap, run, last);
      } else {
        StoppedStays(t, run[last]);
        StoppedSilent(t, run[last]);
        assert !OutsideAt(cap, run, last);
      }
      forall n | 0 <= n < last
        ensures OutsideAt(cap, run', n) <==> OutsideAt(cap, run, n)
      {
        SenderAtPrefix(cap, run, n);
      }
      if n :| 0 <= n < last && OutsideAt(cap, run', n) {
        assert OutsideAt(cap, run, n);
        StillStopped(cap, run);
      }
    }
  }

  lemma LastStep(cap: nat, run: seq<Input>)
    requires LegalRun(cap, run) && run != []
    ensures var run' := run[..|run| - 1];
            && Inv(From(cap, run')) && Usable(From(cap, run')) && Allowed(From(cap, run'), run[|run| - 1])
            && From(cap, run) == Step(From(cap, run'), run[|run| - 1])
  {
    hide Inv, Step;
    InvUsable(From(cap, run[..|run| - 1]));
  }

  lemma StoppedSilent(s: State, i: Input)
    requires Usable(s) && Allowed(s, i) && s.stop != Running
    ensures Sender(s, i) == None
  {
  }

  lemma StillStopped(cap: nat, run: seq<Input>)
    requires LegalRun(cap, run) && run != [] && From(cap, run[..|run| - 1]).stop != Running
    ensures From(cap, run) == From(cap, run[..|run| - 1])
  {
    hide Inv, Step;
    LastStep(cap, run);
    StoppedStays(From(cap, run[..|run| - 1]), run[|run| - 1]);
  }

  /** A run in which every connection that was about to send had met fewer than 65536 bytes in flight so far never reads
      outside the array of a tx_buf. */
  lemma NarrowRun(cap: nat, run: seq<Input>)
    requires LegalRun(cap, run)
    requires forall n :: 0 <= n < |run| && SenderAt(cap, run, n).Some? ==> !SenderAt(cap, run, n).value.h.wide
    ensures !From(cap, run).stop.Overread?
  {
    hide Inv, Step, SendsOutside, From, Sender, LegalRun, LinkInv;
    OverreadIff(cap, run);
    forall n | 0 <= n < |run|
      ensures !OutsideAt(cap, run, n)
    {
      if SenderAt(cap, run, n).Some? {
        LegalPrefix(cap, run, n);
        SenderInOrder(From(cap, run[..n]), run[n]);
        SenderOutside(SenderAt(cap, run, n).value);
      }
    }
  }

  /** The runs that the other theorems are about: no incarnation was ever given a payload longer than what was left of
      its rx_buf's array, and no send began in the condition of SendsOutside. */
  lemma IntactIff(cap: nat, run: seq<Input>)
    requires LegalRun(cap, run)
    ensures var s := From(cap, run);
            Intact(s) <==>
            && (forall id <- s.env.hist :: !Spills(Offered(s, id)))
            && (forall n :: 0 <= n < |run| ==> !OutsideAt(cap, run, n))
  {
    hide Inv, Step, SendsOutside, From, Sender, LegalRun, LinkInv, Spills, OutsideAt;
    OverrunIff(cap, run);
    OverreadIff(cap, run);
  }

  /** Event `n` of the run brings a payload longer than what is left of the rx_buf's array behind those kept before
      it. */
  ghost predicate SpillsAt(cap: nat, run: seq<Input>, n: nat)
    requires LegalRun(cap, run) && n < |run|
  {
    LegalPrefix(cap, run, n);
    var s, i := From(cap, run[..n]), run[n];
    TakesData(s, i) && Target(s, i) in s.env.hist && Spills(s.env.hist[Target(s, i)].arrived + [i.g.payload])
  }

  lemma SpillsAtPrefix(cap: nat, run: seq<Input>, n: nat)
    requires LegalRun(cap, run) && n < |run| - 1
    ensures LegalRun(cap, run[..|run| - 1]) && (SpillsAt(cap, run[..|run| - 1], n) <==> SpillsAt(cap, run, n))
  {
    LegalPrefix(cap, run, |run| - 1);
    assert run[..|run| - 1][..n] == run[..n];
  }

  /** A run has copied past the end of an rx_buf exactly when one of its events brought such a payload. */
  lemma {:induction false} OverrunAtIff(cap: nat, run: seq<Input>)
    requires LegalRun(cap, run)
    ensures From(cap, run).stop.Overrun? <==> exists n :: 0 <= n < |run| && SpillsAt(cap, run, n)
  {
    hide Inv, Step, Spills, From, TakesData, LegalRun;
    if run == [] {
      FromIs(cap, run);
    } else {
      var last := |run| - 1;
      var run' := run[..last];
      LegalPrefix(cap, run, last);
      OverrunAtIff(cap, run');
      var t := From(cap, run');
      LastStep(cap, run);
      if t.stop == Running {
        StepOverrunsIff(t, run[last]);
        assert From(cap, run).stop.Overrun? <==> SpillsAt(cap, run, last);
      } else {
        StoppedStays(t, run[last]);
        StoppedTakesNone(t, run[last]);
        assert !SpillsAt(cap, run, last);
      }
      forall n | 0 <= n < last
        ensures SpillsAt(cap, run', n) <==> SpillsAt(cap, run, n)
      {
        SpillsAtPrefix(cap, run, n);
      }
      if n :| 0 <= n < last && SpillsAt(cap, run', n) {
        assert SpillsAt(cap, run, n);
        StillStopped(cap, run);
      }
    }
  }

  lemma StoppedTakesNone(s: State, i: Input)
    requires s.stop != Running
    ensures !TakesData(s, i)
  {
  }

  lemma SenderInOrder(s: State, i: Input)
    requires Inv(s) && Usable(s) && Allowed(s, i) && Sender(s, i).Some?
    ensures LinkInv(Sender(s, i).value) && Sender(s, i).value.c.state == ESTABLISHED
  {
    hide Inv, LinkInv, DataSender;
    match i {
      case AppClose(k) => EstablishedLink(s, k);
      case Arrive(ip, g, _, script) =>
        var k := Key(ip, g.srcPort, g.dstPort);
        EstablishedLink(s, k);
        if !Rst(g.flags) {
          EstablishedStopMeans(Load(s.env, s.conns[k]), g, script);
        }
      case _ =>
    }
  }

  // ----- no buffer is lost, and exactly when one is

  ghost predicate NeverLoses(cap: nat, run: seq<Input>) {
    run == [] || (NeverLoses(cap, run[..|run| - 1]) && !Loses(From(cap, run[..|run| - 1]), run[|run| - 1]))
  }

  /** Unless a RST strands a connection, every allocated buffer is held by a connection. */
  lemma {:induction false} NoLeak(cap: nat, run: seq<Input>)
    requires LegalRun(cap, run) && NeverLoses(cap, run) && Intact(From(cap, run))
    ensures forall p: nat :: !Stray(From(cap, run), p)
  {
    if run != [] {
      var run', i := run[..|run| - 1], run[|run| - 1];
      NoLeak(cap, run');
      var s := From(cap, run');
      InvUsable(s);
      StepInv(s, i);
      assert From(cap, run) == Step(s, i);
    }
  }

  /** One step creates a buffer that can never be freed exactly when it strands a connection. */
  lemma LeakIff(s: State, i: Input)
    requires Inv(s) && Usable(s) && Allowed(s, i) && forall p: nat :: !Stray(s, p)
    ensures (exists p: nat :: Stray(Step(s, i), p)) <==> Loses(s, i)
  {
    StepInv(s, i);
    if Loses(s, i) {
      var victim := Key(i.ip, 0, 0);
      var c := s.conns[victim];
      StrandedIsOpen(s, i.ip, i.g);
      assert HeldAt(s, c.rxBuf, victim);
      assert Stray(Step(s, i), c.rxBuf);
    }
  }

  lemma StrandedIsOpen(s: State, ip: Ip, g: Segment)
    requires Inv(s) && StrandsIn(s, ip, g)
    ensures Key(ip, 0, 0) in s.conns && s.conns[Key(ip, 0, 0)].state != LISTEN
  {
    var k := Key(ip, g.srcPort, g.dstPort);
    if k in s.conns {
      assert SlotInv(s.env, k, s.conns[k]);
    }
  }

  /** Port 0 has never been opened. */
  predicate NoPortZero(s: State) {
    0 !in s.ports && forall k <- s.conns :: k.dstPort != 0
  }

  /** Steps add entries only for open ports. */
  lemma StepKeys(s: State, i: Input)
    requires Inv(s) && Usable(s) && Allowed(s, i)
    ensures forall k <- Step(s, i).conns :: k in s.conns || k.dstPort in s.ports
    ensures forall p <- Step(s, i).ports :: p in s.ports || (i.OpenPort? && p == i.port)
  {
    hide Save, Load, Close, Process, Inv, Apply, Owns;
    if s.stop == Running {
      match i {
        case Arrive(ip, g, chance, script) =>
          var k := Key(ip, g.srcPort, g.dstPort);
          if g.dstPort in s.ports && (k in s.conns || |s.conns| != s.cap) {
            ProcessKeys(s.(conns := s.conns[k := if k in s.conns then s.conns[k] else FreshConn(ip)]),
                        k, g, chance, script);
          }
        case AppOp(k, op) =>
        case AppClose(k) => CloseKeys(s, k, s.conns[k]);
        case OpenPort(port) =>
        case ClosePort(port, order) => ReleaseAllKeys(s, port, order);
      }
    }
  }

  lemma CloseKeys(s: State, k: Key, c: Conn)
    requires k in s.conns && (c.state == ESTABLISHED ==> Owns(s.env, c))
    ensures Close(s, k, c).0.conns.Keys <= s.conns.Keys && Close(s, k, c).0.ports == s.ports
  {
    hide Flush, Save, Load, Release, Owns, Overreads;
  }

  lemma ProcessKeys(s: State, k: Key, g: Segment, chance: Chance, script: seq<Op>)
    requires k in s.conns && (s.conns[k].state != LISTEN ==> Owns(s.env, s.conns[k]))
    ensures var t := Process(s, k, g, chance, script); t.conns.Keys <= s.conns.Keys && t.ports == s.ports
  {
    hide Save, Load, Release, Owns, Close, Switch, Send, Rst, Syn;
    CloseKeys(s, k, s.conns[k]);
    if s.conns[k].state != LISTEN {
      SwitchKeys(s, k, g, script);
    }
  }

  lemma SwitchKeys(s: State, k: Key, g: Segment, script: seq<Op>)
    requires k in s.conns && Owns(s.env, s.conns[k])
    ensures var t := Switch(s, k, g, script); t.conns.Keys <= s.conns.Keys && t.ports == s.ports
  {
    hide Save, Release, Owns, Callback, Send, Established, EstablishedStop;
  }

  lemma {:induction false} ReleaseAllKeys(s: State, port: u16, order: seq<Key>)
    ensures ReleaseAll(s, port, order).conns.Keys == s.conns.Keys && ReleaseAll(s, port, order).ports == s.ports
  {
    hide Release;
    if order != [] {
      ReleaseAllKeys(s, port, order[..|order| - 1]);
    }
  }

  /** An application that never opens port 0 never loses a buffer. */
  lemma {:induction false} NoPortZeroNoLeak(cap: nat, run: seq<Input>)
    requires LegalRun(cap, run)
    requires forall i :: 0 <= i < |run| ==> run[i] != OpenPort(0)
    ensures NoPortZero(From(cap, run)) && NeverLoses(cap, run)
    ensures Intact(From(cap, run)) ==> forall p: nat :: !Stray(From(cap, run), p)
  {
    if run != [] {
      var run', i := run[..|run| - 1], run[|run| - 1];
      NoPortZeroNoLeak(cap, run');
      var s := From(cap, run');
      InvUsable(s);
      StepKeys(s, i);
      if Loses(s, i) {
        StrandedIsOpen(s, i.ip, i.g);
      }
    }
    if Intact(From(cap, run)) {
      NoLeak(cap, run);
    }
  }
}
