/** Particular runs of the TCP machine: what it does where one would not expect it to. */
module TcpRuns {
  import opened Words
  import opened Buffer
  import opened Ethernet
  import opened TcpWire
  import opened Tcp
  import opened TcpStreams
  import opened TcpOwnership
  import opened TcpTheorems

  // ----- one more event

  lemma RunNothing(cap: nat)
    ensures LegalRun(cap, []) && From(cap, []) == Initial(cap)
  {
  }

  lemma RunMore(cap: nat, run: seq<Input>, i: Input)
    requires LegalRun(cap, run) && Allowed(From(cap, run), i)
    ensures LegalRun(cap, run + [i])
    ensures Usable(From(cap, run)) && From(cap, run + [i]) == Step(From(cap, run), i)
  {
    hide Inv, Step;
    assert (run + [i])[..|run|] == run;
    InvUsable(From(cap, run));
  }

  /** A run after which the machine goes on and the connection at `k`, whose port is open, is `l`. */
  ghost predicate Reaches(cap: nat, run: seq<Input>, k: Key, l: Link) {
    && After(cap, run, k, l)
    && From(cap, run).stop == Running && k.dstPort in From(cap, run).ports
  }

  predicate Between(k: Key, g: Segment) {
    g.srcPort == k.srcPort && g.dstPort == k.dstPort
  }

  // ----- the handshake

  lemma OpenState(s: State, k: Key, g: Segment, chance: Chance)
    ensures Open(s, k, g, chance).conns.Keys == s.conns.Keys + {k} && Open(s, k, g, chance).conns[k].state == SYN_RCVD
    ensures Open(s, k, g, chance).ports == s.ports && Open(s, k, g, chance).stop == s.stop
    ensures Open(s, k, g, chance).cap == s.cap
  {
  }

  /** A connection after the SYN `g`: its struct, empty buffers, and the SYN+ACK sent. */
  function AfterSyn(k: Key, g: Segment, chance: Chance): Link {
    var c := Conn(SYN_RCVD, k.dstPort, k.srcPort, k.ip, chance.iss, chance.iss, Add32(g.seqNo, 1), g.window, 0, 1);
    Send(Link(c, NewBlock(chance.rxJunk), NewBlock(chance.txJunk), NewHist(chance.iss, g.seqNo)), [], ACK_SYN)
  }

  lemma ReachSyn(cap: nat, k: Key, g: Segment, chance: Chance) returns (run: seq<Input>)
    requires cap > 0 && Between(k, g) && Syn(g.flags) && !Rst(g.flags)
    ensures Reaches(cap, run, k, AfterSyn(k, g, chance))
  {
    hide Inv, Legal, Run, Send, NewBlock, Syn, Rst;
    var a, b := OpenPort(k.dstPort), Arrive(k.ip, g, chance, []);
    run := [a, b];
    assert [] + [a] == [a] && [a] + [b] == run;
    RunNothing(cap);
    RunMore(cap, [], a);
    RunMore(cap, [a], b);
    var s1 := From(cap, [a]);
    assert s1 == Initial(cap).(ports := {k.dstPort});
    SynSaved(s1.(conns := map[k := FreshConn(k.ip)]), k, g, chance);
    assert From(cap, run) == Open(s1.(conns := map[k := FreshConn(k.ip)]), k, g, chance);
  }

  lemma SynSaved(s: State, k: Key, g: Segment, chance: Chance)
    requires s.env.brk == 0
    ensures var t := Open(s, k, g, chance);
            && k in t.conns && t.conns[k].state == SYN_RCVD && Owns(t.env, t.conns[k])
            && Load(t.env, t.conns[k]) == AfterSyn(k, g, chance)
            && t.stop == s.stop && t.ports == s.ports
  {
    hide NewBlock;
  }

  /** A segment for an existing connection: the machine makes one step of the switch. */
  lemma ReachMore(cap: nat, run: seq<Input>, k: Key, l: Link, g: Segment, chance: Chance, script: seq<Op>)
    requires Reaches(cap, run, k, l) && Between(k, g) && g.seqNo == l.c.ack && !Rst(g.flags)
    ensures var i, s := Arrive(k.ip, g, chance, script), From(cap, run);
            && LegalRun(cap, run + [i]) && k in s.conns && s.conns[k] == l.c && Owns(s.env, l.c)
            && Load(s.env, l.c) == l
            && From(cap, run + [i]) == Switch(s, k, g, script)
  {
    hide Inv, Legal, Run, Switch, Rst, Load, Owns;
    var s := From(cap, run);
    assert s.conns[k] == l.c by { LoadConn(s.env, s.conns[k]); }
    assert s.(conns := s.conns[k := l.c]) == s by { assert s.conns[k := l.c] == s.conns; }
    RunMore(cap, run, Arrive(k.ip, g, chance, script));
  }

  lemma UpdateReaches(s: State, k: Key, l: Link, m: Link)
    requires k in s.conns && s.conns[k] == l.c && Owns(s.env, l.c) && SameOwner(l.c, m.c) && m.c.state != LISTEN
    ensures var t := Update(s, k, m);
            && k in t.conns && t.conns[k] == m.c && Owns(t.env, m.c) && Load(t.env, m.c) == m
            && t.ports == s.ports && t.stop == s.stop
  {
  }

  /** A connection after the ACK that completes the handshake, and the callback. */
  function AfterAck(l: Link, script: seq<Op>): Link {
    Callback(l.(c := l.c.(unackSeq := Add32(l.c.unackSeq, 1), state := ESTABLISHED)), CONNECTED, script)
  }

  lemma ReachAck(cap: nat, run: seq<Input>, k: Key, l: Link, g: Segment, chance: Chance, script: seq<Op>)
    requires Reaches(cap, run, k, l) && l.c.state == SYN_RCVD && Between(k, g) && g.seqNo == l.c.ack
    requires !Rst(g.flags) && Ack(g.flags)
    ensures Reaches(cap, run + [Arrive(k.ip, g, chance, script)], k, AfterAck(l, script))
    ensures AfterAck(l, script).c.state == ESTABLISHED
  {
    hide Inv, Legal, Run, Rst, Ack, Load, Owns, Callback, Update, Add32, From;
    ReachMore(cap, run, k, l, g, chance, script);
    AckOwner(l, script);
    UpdateReaches(From(cap, run), k, l, AfterAck(l, script));
  }

  lemma AckOwner(l: Link, script: seq<Op>)
    ensures SameOwner(l.c, AfterAck(l, script).c) && AfterAck(l, script).c.state == ESTABLISHED
  {
  }

  /** A segment in ESTABLISHED either stops the machine or takes the connection to Established(...). */
  lemma ReachEstablished(cap: nat, run: seq<Input>, k: Key, l: Link, g: Segment, chance: Chance, script: seq<Op>)
    requires Reaches(cap, run, k, l) && l.c.state == ESTABLISHED && Between(k, g) && g.seqNo == l.c.ack && !Rst(g.flags)
    requires !Fin(g.flags)
    ensures var i, stop := Arrive(k.ip, g, chance, script), EstablishedStop(l, g, script);
            && LegalRun(cap, run + [i])
            && (stop != Running ==> From(cap, run + [i]).stop == stop)
            && (stop == Running ==> Reaches(cap, run + [i], k, Established(l, g, script)))
  {
    hide Inv, Legal, Run, Rst, Fin, Load, Owns, EstablishedStop, Established, Update, From;
    ReachMore(cap, run, k, l, g, chance, script);
    EstablishedOwner(l, g, script);
    EstablishedOpen(l, g, script);
    UpdateReaches(From(cap, run), k, l, Established(l, g, script));
  }

  // ----- data, one segment after the other

  /** An ACK with the expected sequence number that acknowledges nothing new. */
  function Data(k: Key, l: Link, payload: seq<byte>): Segment {
    Segment(k.srcPort, k.dstPort, l.c.ack, 0, ACK, 0, payload)
  }

  lemma AckFlags()
    ensures Ack(ACK) && !Fin(ACK) && !Rst(ACK) && !Syn(ACK)
  {
  }

  /** The connection when such a segment has been received and the callback, which does nothing, has returned. */
  function Taken(l: Link, payload: seq<byte>): Link {
    var m := Receive(l, payload);
    m.(h := m.h.(calls := m.h.calls + [DATA_RECV]))
  }

  lemma DataIs(k: Key, l: Link, payload: seq<byte>)
    requires payload != []
    ensures Established(l, Data(k, l, payload), []) == Flush(Taken(l, payload), ACK)
    ensures !Overruns(l, |payload|) && !Overreads(Taken(l, payload)) ==>
              EstablishedStop(l, Data(k, l, payload), []) == Running
    ensures Overruns(l, |payload|) ==> EstablishedStop(l, Data(k, l, payload), []) == Overrun(l.c.rxBuf, payload)
  {
    hide Flush, Receive, Overruns, Overreads, Ack, Fin;
    AckFlags();
    assert TakeAck(l, 0) == l;
  }

  /** The application has written nothing, so the window to send from is empty, and stays so. */
  ghost predicate Silent(l: Link) {
    LinkInv(l) && l.c.state == ESTABLISHED && l.h.written == [] && !l.h.wide
  }

  lemma SilentSends(l: Link)
    requires Silent(l)
    ensures !Overreads(l) && Silent(Flush(l, ACK))
  {
    hide Kept, Spills, Total, Tiles, RxInv, Add32, Sub32, Flush, Overreads;
    EstablishedTx(l);
    FlushTakes(l);
    TxWithin(l);
    FlushKeeps(l);
    FlushShape(l, ACK);
  }

  lemma SilentTakes(l: Link, payload: seq<byte>)
    requires Silent(l) && !Overruns(l, |payload|)
    ensures Silent(Taken(l, payload))
  {
    hide LinkInv, Overruns;
    ReceiveKeeps(l, payload);
    CalledKeeps(Receive(l, payload));
  }

  /** One more payload for a silent connection. */
  lemma Feed(cap: nat, run: seq<Input>, k: Key, l: Link, payload: seq<byte>, chance: Chance)
    requires Reaches(cap, run, k, l) && Silent(l) && payload != []
    ensures var run' := run + [Arrive(k.ip, Data(k, l, payload), chance, [])];
            LegalRun(cap, run') &&
            if Spills(l.h.arrived + [payload]) then From(cap, run').stop == Overrun(l.c.rxBuf, payload)
            else exists m :: Reaches(cap, run', k, m) && Silent(m) && m.h.arrived == l.h.arrived + [payload]
  {
    hide Reaches, Spills, LinkInv, LegalRun, From, Established, EstablishedStop, Overruns, Overreads, Flush, Rst, Fin;
    AckFlags();
    LinkOverruns(l, payload);
    DataIs(k, l, payload);
    ReachEstablished(cap, run, k, l, Data(k, l, payload), chance, []);
    if !Overruns(l, |payload|) {
      SilentTakes(l, payload);
      SilentSends(Taken(l, payload));
      FlushShape(Taken(l, payload), ACK);
      var m := Flush(Taken(l, payload), ACK);
      assert m.h.arrived == l.h.arrived + [payload];
    }
  }

  function Copies(p: seq<byte>, n: nat): seq<seq<byte>> {
    seq(n, _ => p)
  }

  lemma {:induction false} CopiesTotal(p: seq<byte>, n: nat)
    ensures |Total(Copies(p, n))| == n * |p|
  {
    if n > 0 {
      assert Copies(p, n)[..n - 1] == Copies(p, n - 1);
      CopiesTotal(p, n - 1);
    }
  }

  /** Full-sized segments on a new connection. */
  lemma {:induction false} FeedMany(cap: nat, run: seq<Input>, k: Key, l: Link, p: seq<byte>, chance: Chance, n: nat)
    requires Reaches(cap, run, k, l) && Silent(l) && l.h.arrived == [] && |p| == 1460 && n <= 44
    ensures exists more, m :: Reaches(cap, run + more, k, m) && Silent(m) && m.h.arrived == Copies(p, n)
  {
    hide Reaches, Silent, Spills;
    if n == 0 {
      assert run + [] == run && Copies(p, 0) == [];
    } else {
      FeedMany(cap, run, k, l, p, chance, n - 1);
      var more, m :| Reaches(cap, run + more, k, m) && Silent(m) && m.h.arrived == Copies(p, n - 1);
      assert Copies(p, n - 1) + [p] == Copies(p, n);
      CopiesTotal(p, n);
      SpillsIff(Copies(p, n));
      Feed(cap, run + more, k, m, p, chance);
      assert run + more + [Arrive(k.ip, Data(k, m, p), chance, [])]
          == run + (more + [Arrive(k.ip, Data(k, m, p), chance, [])]);
    }
  }

  /** SYN and ACK of the peer, and what the application writes when it is told of the connection. */
  lemma HandshakeRun(cap: nat, k: Key, irs: u32, window: u16, chance: Chance, script: seq<Op>)
    returns (run: seq<Input>, l: Link, syn: Segment)
    requires cap > 0
    ensures syn == Segment(k.srcPort, k.dstPort, irs, 0, 2, window, [])
    ensures l == AfterAck(AfterSyn(k, syn, chance), script) && l.c.state == ESTABLISHED
    ensures Reaches(cap, run, k, l) && LinkInv(AfterSyn(k, syn, chance)) && LinkInv(l)
  {
    hide Reaches, LinkInv, Rst, Syn, Ack;
    syn := Segment(k.srcPort, k.dstPort, irs, 0, 2, window, []);
    AckFlags();
    SynFlags();
    var start := ReachSyn(cap, k, syn, chance);
    var m := AfterSyn(k, syn, chance);
    ReachesInv(cap, start, k, m);
    var g := Segment(k.srcPort, k.dstPort, m.c.ack, 0, ACK, 0, []);
    ReachAck(cap, start, k, m, g, chance, script);
    l := AfterAck(m, script);
    run := start + [Arrive(k.ip, g, chance, script)];
    ReachesInv(cap, run, k, l);
  }

  lemma SynFlags()
    ensures Syn(2) && !Rst(2)
  {
  }

  lemma ReachesInv(cap: nat, run: seq<Input>, k: Key, l: Link)
    requires Reaches(cap, run, k, l)
    ensures LinkInv(l)
  {
    AfterInv(cap, run, k, l);
  }

  /** 45 full-sized segments copy past the end of rx_buf. */
  lemma OverrunningRun(cap: nat, k: Key, irs: u32, window: u16, chance: Chance, p: seq<byte>)
    requires cap > 0 && |p| == 1460
    ensures exists run :: LegalRun(cap, run) && From(cap, run).stop.Overrun?
  {
    hide Reaches, Silent, Spills, LinkInv, AfterAck, AfterSyn, LegalRun, From;
    var run, l, syn := HandshakeRun(cap, k, irs, window, chance, []);
    assert Silent(l) && l.h.arrived == [] by { StartsSilent(k, syn, chance); }
    FeedMany(cap, run, k, l, p, chance, 44);
    var more, m :| Reaches(cap, run + more, k, m) && Silent(m) && m.h.arrived == Copies(p, 44);
    assert Copies(p, 44) + [p] == Copies(p, 45);
    CopiesSpill(p);
    Feed(cap, run + more, k, m, p, chance);
  }

  lemma StartsSilent(k: Key, syn: Segment, chance: Chance)
    requires var l := AfterAck(AfterSyn(k, syn, chance), []); LinkInv(l) && l.c.state == ESTABLISHED
    ensures var l := AfterAck(AfterSyn(k, syn, chance), []); Silent(l) && l.h.arrived == []
  {
    hide LinkInv, NewBlock;
  }

  lemma CopiesSpill(p: seq<byte>)
    requires |p| == 1460
    ensures Spills(Copies(p, 45))
  {
    hide Spills, Total;
    forall i | 0 <= i <= 45
      ensures |Total(Copies(p, 45)[..i])| == 1460 * i
    {
      assert Copies(p, 45)[..i] == Copies(p, i);
      CopiesTotal(p, i);
    }
    assert Copies(p, 45)[..45] == Copies(p, 45);
    SpillsIff(Copies(p, 45));
  }

  // ----- more than 65535 bytes in flight

  /** 65600 bytes have been written, none was acknowledged, and `f` of them are in flight. */
  ghost predicate Loaded(l: Link, w: seq<byte>, f: nat) {
    && LinkInv(l) && l.c.state == ESTABLISHED && l.c.remoteWin == 65535
    && |w| == 65600 && l.h.written == w && l.h.acked == 0 && !l.h.wide && l.InFlight() == f && l.tx.w.data == HALF
  }

  lemma LoadedBytes(l: Link, w: seq<byte>, f: nat)
    requires Loaded(l, w, f)
    ensures TxAt(l, f) && l.tx.WellFormed() && l.tx.w.bytes == w
  {
    hide Tiles, Add32, Sub32, RxInv;
    EstablishedTx(l);
  }

  lemma LoadedTakes(l: Link, w: seq<byte>, f: nat, payload: seq<byte>)
    requires Loaded(l, w, f) && !Overruns(l, |payload|)
    ensures Loaded(Taken(l, payload), w, f)
  {
    hide LinkInv, Overruns;
    ReceiveKeeps(l, payload);
    CalledKeeps(Receive(l, payload));
  }

  lemma LoadedFlush(l: Link, w: seq<byte>, f: nat)
    requires Loaded(l, w, f) && f < 0x1_0000
    ensures Loaded(Flush(l, ACK), w, if 65600 - f < 65535 then 65600 else f + 65535)
  {
    hide Kept, Spills, Total, Tiles, RxInv, Add32, Sub32, Flush, WriteSize, LinkInv, TxAt, TxInv;
    LoadedBytes(l, w, f);
    LoadedInv(l, w, f);
    FlushTakes(l);
    FlushKeeps(l);
    FlushShape(l, ACK);
    AckFlags();
    FlushKeepsTx(l, ACK);
  }

  lemma LoadedInv(l: Link, w: seq<byte>, f: nat)
    requires Loaded(l, w, f)
    ensures TxInv(l)
  {
    hide TxAt, RxInv;
  }

  /** One more byte for a loaded connection: it is taken, and what can be sent is sent. */
  lemma FeedLoaded(cap: nat, run: seq<Input>, k: Key, l: Link, w: seq<byte>, f: nat, chance: Chance)
    returns (more: Input)
    requires Reaches(cap, run, k, l) && Loaded(l, w, f) && |Total(l.h.arrived)| < 10
    ensures Reaches(cap, run + [more], k, Flush(Taken(l, [0]), ACK))
    ensures Loaded(Taken(l, [0]), w, f)
    ensures |Total(Taken(l, [0]).h.arrived)| == |Total(l.h.arrived)| + 1
  {
    hide Reaches, Spills, LinkInv, Established, EstablishedStop, Overruns, Overreads, Flush, Rst, Fin, Total;
    AckFlags();
    LinkOverruns(l, [0]);
    ArrivedMore(l.h.arrived, [0]);
    SpillsIff(l.h.arrived + [[0]]);
    LoadedTakes(l, w, f, [0]);
    LoadedBytes(Taken(l, [0]), w, f);
    FlushTakes(Taken(l, [0]));
    DataIs(k, l, [0]);
    ReachEstablished(cap, run, k, l, Data(k, l, [0]), chance, []);
    more := Arrive(k.ip, Data(k, l, [0]), chance, []);
    assert Taken(l, [0]).h.arrived == l.h.arrived + [[0]];
  }

  /** Two writes of 65600 bytes in all, a window of 65535, and three bytes from the peer: the third send, with
      65600 bytes in flight and nothing left to send, takes the bytes from 64 on once more and gives them the
      next numbers. */
  lemma RepeatingRun(cap: nat, k: Key, irs: u32, chance: Chance, a: seq<byte>, b: seq<byte>)
    returns (run: seq<Input>, l: Link)
    requires cap > 0 && |a| == 60000 && |b| == 5600
    ensures After(cap, run, k, l) && l.c.state == ESTABLISHED && Repeats(l, a + b)
    ensures Reaches(cap, run, k, l) && l.h.iss == chance.iss && |Total(l.h.arrived)| == 3
  {
    hide Reaches, Loaded, LinkInv, Flush, AfterAck, AfterSyn, Taken, Total, Repeats;
    var syn;
    run, l, syn := HandshakeRun(cap, k, irs, 65535, chance, [OpWrite(a), OpWrite(b)]);
    assert Loaded(l, a + b, 0) && Total(l.h.arrived) == [] && l.h.iss == chance.iss by {
      StartsLoaded(k, syn, chance, a, b);
    }
    for n := 0 to 2
      invariant Reaches(cap, run, k, l) && l.h.iss == chance.iss && |Total(l.h.arrived)| == n
      invariant Loaded(l, a + b, if n == 0 then 0 else if n == 1 then 65535 else 65600)
    {
      var f := if n == 0 then 0 else 65535;
      var i := FeedLoaded(cap, run, k, l, a + b, f, chance);
      TakenKeeps(l);
      LoadedFlush(Taken(l, [0]), a + b, f);
      FlushShape(Taken(l, [0]), ACK);
      run, l := run + [i], Flush(Taken(l, [0]), ACK);
    }
    var i := FeedLoaded(cap, run, k, l, a + b, 65600, chance);
    TakenKeeps(l);
    ThirdRepeats(Taken(l, [0]), a + b);
    FlushShape(Taken(l, [0]), ACK);
    assert Taken(l, [0]).c.state == ESTABLISHED by { LoadedOpen(Taken(l, [0]), a + b, 65600); }
    run, l := run + [i], Flush(Taken(l, [0]), ACK);
    assert After(cap, run, k, l) by { ReachesAfter(cap, run, k, l); }
  }

  lemma TakenKeeps(l: Link)
    ensures Taken(l, [0]).h.iss == l.h.iss
  {
  }

  lemma LoadedOpen(l: Link, w: seq<byte>, f: nat)
    requires Loaded(l, w, f)
    ensures l.c.state == ESTABLISHED
  {
  }

  lemma ReachesAfter(cap: nat, run: seq<Input>, k: Key, l: Link)
    requires Reaches(cap, run, k, l)
    ensures After(cap, run, k, l)
  {
  }

  /** All of `w` was written, sent and is still unacknowledged; and the last segment carries bytes of it once more, at
      numbers beyond all that was written. */
  ghost predicate Repeats(l: Link, w: seq<byte>) {
    var sent := l.h.sent;
    && |w| == 65600 && l.h.written == w && l.tx.w == Window(HALF, w) && |sent| > 0
    && sent[|sent| - 1].payload == w[64..65599] && sent[|sent| - 1].seqNo == Add32(l.h.iss, 1 + 65600)
    && !(Payloads(sent) <= w)
    && l.c.unackSeq == Add32(l.h.iss, 1) && l.c.nextSeq == Add32(l.h.iss, 1 + 65600 + 65535) && l.c.remoteWin == 65535
  }

  lemma ThirdRepeats(l: Link, w: seq<byte>)
    requires Loaded(l, w, 65600)
    ensures Repeats(Flush(l, ACK), w)
  {
    hide Tiles, Add32, Sub32, LinkInv, Flush, WriteBytes, WriteSize, TxAt;
    AckFlags();
    LoadedBytes(l, w, 65600);
    FlushTakes(l);
    TxUnfold(l, 65600);
    assert l.c.unackSeq == Add32(Base(l.h), 0) by { LoadedUnack(l, w); }
    FlushNumbers(l, ACK);
    FlushShape(l, ACK);
    TilesMean(l.h.sent, Base(l.h), l.h.written[..65600]);
    var sent := Flush(l, ACK).h.sent;
    assert sent[..|sent| - 1] == l.h.sent;
    assert |Payloads(sent)| == 65600 + 65535;
    FromIss(l.h, 65600);
    FromIss(l.h, 0);
    FromIss(l.h, 65600 + 65535);
  }

  lemma LoadedUnack(l: Link, w: seq<byte>)
    requires Loaded(l, w, 65600)
    ensures l.c.unackSeq == Add32(Base(l.h), 0)
  {
    hide Tiles, Add32, RxInv;
  }

  /** When that peer now acknowledges what it was really sent, tx_buf is empty while 65535 bytes count as in flight,
      and the next send begins behind the array. */
  lemma OverreadingRun(cap: nat, k: Key, irs: u32, chance: Chance, a: seq<byte>, b: seq<byte>)
    requires cap > 0 && |a| == 60000 && |b| == 5600 && chance.iss == 0
    ensures exists run :: LegalRun(cap, run) && From(cap, run).stop.Overread?
  {
    hide Reaches, LinkInv, LegalRun, From, EstablishedStop, Established, Total, Payloads, Spills, Rst, Fin, Receive;
    hide Overruns;
    var run, l := RepeatingRun(cap, k, irs, chance, a, b);
    var g := Segment(k.srcPort, k.dstPort, l.c.ack, 65601, ACK, 0, [0]);
    AckFlags();
    ReachesInv(cap, run, k, l);
    LinkOverruns(l, [0]);
    ArrivedMore(l.h.arrived, [0]);
    SpillsIff(l.h.arrived + [[0]]);
    AllAcked(l, g, a + b);
    ReachEstablished(cap, run, k, l, g, chance, []);
    assert LegalRun(cap, run + [Arrive(k.ip, g, chance, [])]);
  }

  lemma AllAcked(l: Link, g: Segment, w: seq<byte>)
    requires Repeats(l, w) && l.h.iss == 0 && g.ackNo == 65601 && g.flags == ACK && g.payload == [0] && !Overruns(l, 1)
    ensures EstablishedStop(l, g, []) == Overread(l.c.rxBuf)
  {
    hide Payloads;
    AckFlags();
    var m := TakeAck(l, 65601);
    assert m.tx.w.bytes == [] && m.tx.w.data == 131262 && m.InFlight() == 65535;
    assert !Overruns(m, 1);
    var n := Callback(Receive(m, [0]), DATA_RECV, []);
    assert n.tx == m.tx && n.InFlight() == 65535;
    assert WriteSize(n) == 65535;
  }

  lemma FromIss(h: Hist, n: nat)
    ensures Add32(Base(h), n) == Add32(h.iss, 1 + n)
  {
  }

  lemma StartsLoaded(k: Key, syn: Segment, chance: Chance, a: seq<byte>, b: seq<byte>)
    requires |a| == 60000 && |b| == 5600 && syn.window == 65535 && LinkInv(AfterSyn(k, syn, chance))
    requires var l := AfterAck(AfterSyn(k, syn, chance), [OpWrite(a), OpWrite(b)]);
             LinkInv(l) && l.c.state == ESTABLISHED
    ensures var l := AfterAck(AfterSyn(k, syn, chance), [OpWrite(a), OpWrite(b)]);
            Loaded(l, a + b, 0) && Total(l.h.arrived) == [] && l.h.iss == chance.iss
  {
    hide LinkInv, Add32, Sub32, AfterSyn, ConnectWrite;
    var s := AfterSyn(k, syn, chance);
    var m := s.(c := s.c.(unackSeq := Add32(s.c.unackSeq, 1), state := ESTABLISHED),
                h := s.h.(calls := s.h.calls + [CONNECTED]));
    assert s.c.state == SYN_RCVD && s.c.remoteWin == 65535 && s.h.written == [] && !s.h.wide && s.h.arrived == []
           && s.h.acked == 0 && s.tx.w == Window(HALF, []) && s.h.iss == chance.iss by { SynShape(k, syn, chance); }
    ConnectedStart(s);
    StartInFlight(m);
    WriteInto(m, a);
    var x := ConnectWrite(m, a);
    assert [OpWrite(a), OpWrite(b)][..1] == [OpWrite(a)] && [OpWrite(a)][..0] == [];
    assert RunScript(m, [OpWrite(a)]) == x;
    WriteInto(x, b);
    assert AfterAck(s, [OpWrite(a), OpWrite(b)]) == ConnectWrite(x, b);
    assert [] + a + b == a + b;
  }

  lemma SynShape(k: Key, g: Segment, chance: Chance)
    ensures var s := AfterSyn(k, g, chance);
            && s.c.state == SYN_RCVD && s.c.remoteWin == g.window && s.h.written == [] && !s.h.wide && s.h.arrived == []
            && s.h.acked == 0 && s.tx.w == Window(HALF, []) && s.h.iss == chance.iss
  {
    hide NewBlock, Syn, Fin, Add32, Sub32;
    NewBlockWindow(chance);
    var s := AfterSyn(k, g, chance);
    assert s.tx == NewBlock(chance.txJunk);
  }

  lemma StartInFlight(l: Link)
    requires LinkInv(l) && l.c.state == ESTABLISHED && !l.h.wide && l.h.written == []
    ensures l.InFlight() == 0
  {
    hide Tiles, Add32, Sub32, RxInv;
    EstablishedTx(l);
  }

  /** A write that is taken, with nothing in flight. */
  lemma WriteInto(l: Link, data: seq<byte>)
    requires l.InFlight() == 0 && |data| < l.c.remoteWin && l.tx.w.FitsTail(|data|)
    ensures var r := ConnectWrite(l, data);
            && r.c == l.c && r.h == l.h.(written := l.h.written + data) && r.tx.w == l.tx.w.Append(data)
  {
    hide Flush;
    assert WriteRoom(l, data) == |data| && data[..|data|] == data;
  }

  // ----- entries in LISTEN

  /** With port 0 open buffers are lost: a SYN between two ports 0, then a RST to port 0 from any other port of the same
      host, and the two buffers of the first connection can never be freed. */
  lemma LeakingRun(cap: nat, ip: Ip, syn: Segment, rst: Segment, chance: Chance)
    requires cap >= 2 && syn.srcPort == 0 == syn.dstPort && Syn(syn.flags) && !Rst(syn.flags)
    requires rst.srcPort != 0 == rst.dstPort && Rst(rst.flags)
    ensures var run := [OpenPort(0), Arrive(ip, syn, chance, []), Arrive(ip, rst, chance, [])];
            LegalRun(cap, run) && exists p: nat :: Stray(From(cap, run), p)
  {
    hide Inv, Send, Save, Syn, Rst, Legal, Run, Open, Close, Reset, Switch;
    var a, b, c := OpenPort(0), Arrive(ip, syn, chance, []), Arrive(ip, rst, chance, []);
    var k := Key(ip, 0, 0);
    RunNothing(cap);
    RunMore(cap, [], a);
    var s1 := From(cap, [a]);
    assert [] + [a] == [a] && [a] + [b] == [a, b] && [a, b] + [c] == [a, b, c];
    assert s1 == Initial(cap).(ports := {0});
    RunMore(cap, [a], b);
    var s2 := From(cap, [a, b]);
    OpenState(s1.(conns := map[k := FreshConn(ip)]), k, syn, chance);
    assert s2 == Open(s1.(conns := map[k := FreshConn(ip)]), k, syn, chance);
    RunMore(cap, [a, b], c);
    assert StrandsIn(s2, ip, rst);
    StrandMakesStray(s2, c);
  }

  lemma StrandMakesStray(s: State, i: Input)
    requires Inv(s) && Usable(s) && Allowed(s, i) && Loses(s, i)
    ensures exists p: nat :: Stray(Step(s, i), p)
  {
    hide Inv, Step, Strands, Stray;
    StepInv(s, i);
    StrandedIsOpen(s, i.ip, i.g);
    var p := s.conns[Key(i.ip, 0, 0)].rxBuf;
    assert HeldAt(s, p, Key(i.ip, 0, 0));
    assert Stray(Step(s, i), p);
  }

  /** A RST as first segment leaves an entry in LISTEN behind, under the key of its ports, unless both are 0; for the
      key that tcp_connect_close deletes is built from ports that are still 0. */
  lemma RstLeavesEntry(s: State, ip: Ip, g: Segment, chance: Chance, script: seq<Op>)
    requires Usable(s) && s.stop == Running && Rst(g.flags) && g.dstPort in s.ports
    requires Key(ip, g.srcPort, g.dstPort) !in s.conns && |s.conns| != s.cap
    ensures var k := Key(ip, g.srcPort, g.dstPort);
            var t := Step(s, Arrive(ip, g, chance, script));
            && t == s.(conns := s.conns[k := FreshConn(ip)] - {Key(ip, 0, 0)})
            && (k in t.conns <==> g.srcPort != 0 || g.dstPort != 0)
  {
  }

  function Reject(port: u16, srcPort: u16): Segment {
    Segment(srcPort, port, 0, 0, 4, 0, [])
  }

  /** A RST each from the ports 1 to `n` of one host. */
  function Rejects(ip: Ip, port: u16, chance: Chance, n: nat): seq<Input>
    requires n < 0x1_0000
  {
    if n == 0 then [OpenPort(port)] else Rejects(ip, port, chance, n - 1) + [Arrive(ip, Reject(port, n), chance, [])]
  }

  function Left(ip: Ip, port: u16, n: nat): map<Key, Conn>
    requires n < 0x1_0000
  {
    map x: u16 | 1 <= x <= n :: Key(ip, x, port) := FreshConn(ip)
  }

  lemma LeftMore(ip: Ip, port: u16, n: u16)
    requires 0 < n && port != 0
    ensures var m := Left(ip, port, n - 1);
            && Key(ip, n, port) !in m && |Left(ip, port, n)| == |m| + 1
            && Left(ip, port, n) == m[Key(ip, n, port) := FreshConn(ip)] - {Key(ip, 0, 0)}
  {
    var m, m' := Left(ip, port, n - 1), Left(ip, port, n);
    assert m' == m[Key(ip, n, port) := FreshConn(ip)];
  }

  lemma {:induction false} RejectsFill(cap: nat, ip: Ip, port: u16, chance: Chance, n: nat)
    requires port != 0 && n <= cap && n < 0x1_0000
    ensures LegalRun(cap, Rejects(ip, port, chance, n))
    ensures From(cap, Rejects(ip, port, chance, n)) == Initial(cap).(ports := {port}, conns := Left(ip, port, n))
    ensures |Left(ip, port, n)| == n
  {
    hide Step, Left, LegalRun, From;
    if n == 0 {
      assert [] + [OpenPort(port)] == [OpenPort(port)];
      RunNothing(cap);
      RunMore(cap, [], OpenPort(port));
      assert Left(ip, port, 0) == map[] by { LeftNone(ip, port); }
      OpensPort(Initial(cap), port);
    } else {
      var run, g := Rejects(ip, port, chance, n - 1), Reject(port, n);
      RejectsFill(cap, ip, port, chance, n - 1);
      LeftMore(ip, port, n);
      RunMore(cap, run, Arrive(ip, g, chance, []));
      RstLeavesEntry(From(cap, run), ip, g, chance, []);
    }
  }

  lemma LeftNone(ip: Ip, port: u16)
    ensures Left(ip, port, 0) == map[]
  {
  }

  lemma OpensPort(s: State, port: u16)
    requires Usable(s) && s.stop == Running
    ensures Step(s, OpenPort(port)) == s.(ports := s.ports + {port})
  {
  }

  /** No further RST removes these entries: once they fill the table, the next new connection stops the process. */
  lemma FillingRun(cap: nat, ip: Ip, port: u16, chance: Chance, g: Segment)
    requires port != 0 && cap < 0x1_0000 && g.dstPort == port && (g.srcPort == 0 || g.srcPort > cap)
    ensures var run := Rejects(ip, port, chance, cap) + [Arrive(ip, g, chance, [])];
            LegalRun(cap, run) && From(cap, run).stop == TableFull
  {
    hide LegalRun, From, Left;
    RejectsFill(cap, ip, port, chance, cap);
    LeftKeys(ip, port, cap);
    RunMore(cap, Rejects(ip, port, chance, cap), Arrive(ip, g, chance, []));
  }

  lemma LeftKeys(ip: Ip, port: u16, n: nat)
    requires n < 0x1_0000
    ensures forall x: u16 :: Key(ip, x, port) in Left(ip, port, n) <==> 1 <= x <= n
  {
  }
}
