/** src/tcp.c as a state machine. A connection's own state (its struct, its two buffers and what happened on it) is a
    Link; the machine holds the connection table, the buffer heap and the logs. */
module Tcp {
  import opened Words
  import opened Buffer
  import opened Ethernet
  import opened TcpWire

  datatype TcpState =
    | LISTEN | SYN_SEND | SYN_RCVD | ESTABLISHED | CLOSE_WAIT | LAST_ACK | FIN_WAIT_1 | FIN_WAIT_2 | CLOSING | TIME_WAIT

  datatype Key = Key(ip: Ip, srcPort: u16, dstPort: u16)

  /** tcp_connect_t. `rxBuf` and `txBuf` are addresses of heap buffers, meaningless in LISTEN. */
  datatype Conn = Conn(state: TcpState, localPort: u16, remotePort: u16, ip: Ip,
                       unackSeq: u32, nextSeq: u32, ack: u32, remoteWin: u16, rxBuf: nat, txBuf: nat)

  datatype Call = CONNECTED | DATA_RECV | CLOSED

  /** What has happened on one incarnation of a connection, from its SYN on: the payloads received in ESTABLISHED,
      what the application read and wrote, what was sent and acknowledged, and whether a send with something to send
      ever met 65536 or more bytes in flight (`wide`). */
  datatype Hist = Hist(iss: u32, irs: u32, written: seq<byte>, acked: nat, arrived: seq<seq<byte>>, readOut: seq<byte>,
                       sent: seq<Segment>, calls: seq<Call>, wide: bool, finTaken: bool)

  function NewHist(iss: u32, irs: u32): Hist {
    Hist(iss, irs, [], 0, [], [], [], [], false, false)
  }

  // ----- 32-bit sequence arithmetic

  function Add32(a: int, b: int): u32 {
    (a + b) % 0x1_0000_0000
  }

  function Sub32(a: int, b: int): u32 {
    (a - b) % 0x1_0000_0000
  }

  // ----- one connection

  datatype Link = Link(c: Conn, rx: Block, tx: Block, h: Hist) {
    function InFlight(): u32 {
      Sub32(c.nextSeq, c.unackSeq)
    }
  }

  /** A memcpy out of an array; beyond its end there is nothing to read. */
  function Peek(s: seq<byte>, at: nat, n: nat): (r: seq<byte>)
    ensures |r| == n
    ensures at + n <= |s| ==> r == s[at..at + n]
  {
    seq(n, i requires 0 <= i < n => if at + i < |s| then s[at + i] else 0)
  }

  /** tcp_send, with `payload` in the buffer: the sequence number is that of its first byte. */
  function Send(l: Link, payload: seq<byte>, flags: Flags): Link {
    var g :=
        Segment(l.c.localPort, l.c.remotePort, Sub32(l.c.nextSeq, |payload|), l.c.ack, flags, l.c.remoteWin, payload);
    l.(h := l.h.(sent := l.h.sent + [g]),
       c := l.c.(nextSeq := if Syn(flags) || Fin(flags) then Add32(l.c.nextSeq, 1) else l.c.nextSeq))
  }

  /** tcp_write_to_buf: the stretch after what is in flight, as far as the peer's window goes. The in-flight count is
      cut to 16 bits, so from 65536 on the stretch begins earlier, and it may lie behind the window. */
  function WriteSize(l: Link): u16 {
    Min32((|l.tx.w.bytes| - l.InFlight() % 0x1_0000) % 0x1_0000_0000, l.c.remoteWin)
  }

  function WriteAt(l: Link): nat {
    l.tx.w.data + l.InFlight() % 0x1_0000
  }

  function WriteBytes(l: Link): seq<byte> {
    Peek(l.tx.mem, WriteAt(l), WriteSize(l))
  }

  /** The memcpy of tcp_write_to_buf reads past the end of tx_buf's array. */
  predicate Overreads(l: Link) {
    WriteSize(l) > 0 && WriteAt(l) + WriteSize(l) > BUF_MAX_LEN
  }

  /** What tcp_write_to_buf does to the connection. */
  function WroteToBuf(l: Link): Link {
    l.(c := l.c.(nextSeq := Add32(l.c.nextSeq, WriteSize(l))),
       h := l.h.(wide := l.h.wide || (WriteSize(l) > 0 && l.InFlight() >= 0x1_0000)))
  }

  /** tcp_write_to_buf followed by tcp_send. */
  function Flush(l: Link, flags: Flags): Link {
    Send(WroteToBuf(l), WriteBytes(l), flags)
  }

  /** The memcpy of tcp_read_from_buf writes past the end of rx_buf's array. */
  predicate Overruns(l: Link, n: nat) {
    l.rx.End() + n > BUF_MAX_LEN
  }

  /** tcp_read_from_buf: the payload is copied and acknowledged whether or not the window could be extended over it. */
  function Receive(l: Link, payload: seq<byte>): Link {
    l.(rx := if l.rx.w.FitsTail(|payload|) then l.rx.Append(payload) else l.rx.Put(payload),
       c := l.c.(ack := Add32(l.c.ack, |payload|)),
       h := l.h.(arrived := l.h.arrived + [payload]))
  }

  /** The acknowledgement test of the ESTABLISHED state compares as plain numbers, not modulo 2^32. */
  predicate AckTaken(l: Link, ackNo: u32) {
    l.c.unackSeq < ackNo < l.c.nextSeq
  }

  function TakeAck(l: Link, ackNo: u32): Link {
    if AckTaken(l, ackNo) then
      var n := Sub32(ackNo, l.c.unackSeq);
      l.(tx := if n <= |l.tx.w.bytes| then l.tx.DropFront(n) else l.tx,
         c := l.c.(unackSeq := ackNo),
         h := l.h.(acked := l.h.acked + n))
    else l
  }

  /** tcp_connect_read. */
  function ReadSize(l: Link, len: nat): nat {
    Min32(|l.rx.w.bytes| % 0x1_0000_0000, len % 0x1_0000_0000)
  }

  function ConnectRead(l: Link, len: nat): Link {
    var n := ReadSize(l, len);
    l.(rx := if n <= |l.rx.w.bytes| then l.rx.DropFront(n) else l.rx,
       h := l.h.(readOut := l.h.readOut + if n <= |l.rx.w.bytes| then l.rx.w.bytes[..n] else []))
  }

  /** tcp_connect_write: refused by the window test; or appended; or, when the tail is full, the buffer is moved to the
      front of its array, what the window allows is sent, and nothing is taken. */
  function Accepted(l: Link, data: seq<byte>): nat {
    if l.InFlight() + |data| >= l.c.remoteWin then 0
    else
      var size := WriteRoom(l, data);
      if l.tx.w.FitsTail(size) then size else 0
  }

  function WriteRoom(l: Link, data: seq<byte>): nat {
    Min32((BUF_MAX_LEN - l.tx.End()) % 0x1_0000_0000, |data| % 0x1_0000_0000)
  }

  function ConnectWrite(l: Link, data: seq<byte>): Link {
    if l.InFlight() + |data| >= l.c.remoteWin then l
    else if !l.tx.w.FitsTail(WriteRoom(l, data)) then
      var m := l.(tx := l.tx.ToFront());
      if WriteSize(m) > 0 then Flush(m, ACK) else m
    else
      var n := WriteRoom(l, data);
      var taken := if n <= |data| then data[..n] else data;
      l.(tx := l.tx.Append(taken), h := l.h.(written := l.h.written + taken))
  }

  /** What a callback does to its connection: it only reads and writes. */
  datatype Op = OpRead(len: nat) | OpWrite(data: seq<byte>)

  function Apply(l: Link, op: Op): Link {
    match op
    case OpRead(len) => ConnectRead(l, len)
    case OpWrite(data) => ConnectWrite(l, data)
  }

  function RunScript(l: Link, script: seq<Op>): (r: Link)
    ensures r.c == l.c.(unackSeq := r.c.unackSeq, nextSeq := r.c.nextSeq)
  {
    if script == [] then l else Apply(RunScript(l, script[..|script| - 1]), script[|script| - 1])
  }

  function Callback(l: Link, call: Call, script: seq<Op>): Link {
    RunScript(l.(h := l.h.(calls := l.h.calls + [call])), script)
  }

  /** A segment with the expected sequence number in state ESTABLISHED: first its acknowledgement, then its data. */
  function Established(l: Link, g: Segment, script: seq<Op>): Link {
    if !Ack(g.flags) && !Fin(g.flags) then l
    else TakeData(if Ack(g.flags) then TakeAck(l, g.ackNo) else l, g, script)
  }

  function TakeData(l: Link, g: Segment, script: seq<Op>): Link {
    var m := Receive(l, g.payload);
    if Fin(g.flags) then TakeFin(m)
    else if |g.payload| > 0 then Flush(Callback(m, DATA_RECV, script), ACK)
    else m
  }

  function TakeFin(l: Link): Link {
    Send(l.(c := l.c.(state := LAST_ACK, ack := Add32(l.c.ack, 1)), h := l.h.(finTaken := true)), [], ACK_FIN)
  }

  // ----- the machine

  datatype Outgoing = Outgoing(to: Ip, g: Segment)

  /** `brk` is the next address malloc returns; `freed` lists the arguments of free; `hist` is indexed by the rx_buf of
      the incarnation. What a connection sent is in its history; `resets` logs the RST segments, which may belong to
      none. */
  datatype Env = Env(heap: map<nat, Block>, brk: nat, freed: seq<nat>, resets: seq<Outgoing>, hist: map<nat, Hist>)

  /** Why the process stopped: an assertion that the table has room; a state without a case; or a copy that left its
      array, which C does not define. An Overrun is a payload that did not fit the array of the rx_buf at `id`; an
      Overread is a send that began or ended outside the array of the tx_buf beside it. The machine then stays as it was
      before the event, and nothing is said about the process. */
  datatype Stop = Running | TableFull | Panic | Overrun(id: nat, payload: seq<byte>) | Overread(id: nat)

  datatype State = State(env: Env, ports: set<u16>, conns: map<Key, Conn>, cap: nat, stop: Stop)

  function KeyOf(c: Conn): Key {
    Key(c.ip, c.remotePort, c.localPort)
  }

  /** The connection's two buffers are allocated, and it has a history. */
  predicate Owns(e: Env, c: Conn) {
    c.state != LISTEN && c.rxBuf in e.heap && c.txBuf in e.heap && c.rxBuf != c.txBuf && c.rxBuf in e.hist
  }

  function Load(e: Env, c: Conn): Link
    requires Owns(e, c)
  {
    Link(c, e.heap[c.rxBuf], e.heap[c.txBuf], e.hist[c.rxBuf])
  }

  function Save(e: Env, l: Link): Env {
    e.(heap := e.heap[l.c.rxBuf := l.rx][l.c.txBuf := l.tx], hist := e.hist[l.c.rxBuf := l.h])
  }

  function Free(e: Env, p: nat): Env {
    e.(heap := e.heap - {p}, freed := e.freed + [p])
  }

  /** release_tcp_connect, on the environment; the state of the struct becomes LISTEN. */
  function Release(e: Env, c: Conn): Env {
    if c.state == LISTEN then e else Free(Free(e, c.rxBuf), c.txBuf)
  }

  /** tcp_connect_close on the struct in slot `k`; also what the struct holds afterwards. The entry deleted is the one
      under the key built from the struct's own fields. */
  function Close(s: State, k: Key, c: Conn): (r: (State, Conn))
    requires c.state == ESTABLISHED ==> Owns(s.env, c)
  {
    if c.state == ESTABLISHED && Overreads(Load(s.env, c)) then (s.(stop := Overread(c.rxBuf)), c)
    else if c.state == ESTABLISHED then
      var l := Flush(Load(s.env, c), ACK_FIN);
      var c' := l.c.(state := FIN_WAIT_1);
      (s.(env := Save(s.env, l), conns := s.conns[k := c']), c')
    else
      var c' := c.(state := LISTEN);
      (s.(env := Release(s.env, c), conns := s.conns[k := c'] - {KeyOf(c)}), c')
  }

  /** The label reset_tcp: answer with RST, release, delete the entry under the segment's key. The struct may already
      have left the table. */
  function Reset(s: State, k: Key, c: Conn, gotSeq: u32): State {
    var g := Segment(c.localPort, c.remotePort, 0, Add32(gotSeq, 1), ACK_RST, c.remoteWin, []);
    var e := s.env.(resets := s.env.resets + [Outgoing(c.ip, g)]);
    s.(env := Release(e, c), conns := s.conns - {k})
  }

  function FreshConn(ip: Ip): Conn {
    Conn(LISTEN, 0, 0, ip, 0, 0, 0, 0, 0, 0)
  }

  /** What the environment decides when a connection opens: the random initial sequence number, and what the two new
      buffers happen to hold. */
  datatype Chance = Chance(iss: u32, rxJunk: seq<byte>, txJunk: seq<byte>)

  /** An allocated buf_t after buf_init(0). */
  function NewBlock(junk: seq<byte>): Block {
    Block(Filled(junk), Window(HALF, []))
  }

  /** A SYN in LISTEN: two new buffers, a random initial sequence number, and the SYN+ACK. */
  function Open(s: State, k: Key, g: Segment, chance: Chance): State {
    var p := s.env.brk;
    var iss := chance.iss;
    var c := Conn(SYN_RCVD, k.dstPort, k.srcPort, k.ip, iss, iss, Add32(g.seqNo, 1), g.window, p, p + 1);
    var l := Link(c, NewBlock(chance.rxJunk), NewBlock(chance.txJunk), NewHist(iss, g.seqNo));
    var l' := Send(l, [], ACK_SYN);
    s.(env := Save(s.env.(brk := p + 2), l'), conns := s.conns[k := l'.c])
  }

  function Update(s: State, k: Key, l: Link): State {
    s.(env := Save(s.env, l), conns := s.conns[k := l.c])
  }

  /** The SYN+ACK is acknowledged, whatever number the segment acknowledges. */
  function OnSynRcvd(s: State, k: Key, g: Segment, script: seq<Op>): State
    requires k in s.conns && Owns(s.env, s.conns[k])
  {
    if !Ack(g.flags) then s
    else
      var l := Load(s.env, s.conns[k]);
      var m := l.(c := l.c.(unackSeq := Add32(l.c.unackSeq, 1), state := ESTABLISHED));
      Update(s, k, Callback(m, CONNECTED, script))
  }

  function OnFinWait1(s: State, k: Key, g: Segment): State
    requires k in s.conns && Owns(s.env, s.conns[k])
  {
    var l := Load(s.env, s.conns[k]);
    if Fin(g.flags) && Ack(g.flags) then Close(s, k, l.c).0
    else if Ack(g.flags) then Update(s, k, l.(c := l.c.(state := FIN_WAIT_2)))
    else s
  }

  function OnFinWait2(s: State, k: Key, g: Segment): State
    requires k in s.conns && Owns(s.env, s.conns[k]) && s.conns[k].state == FIN_WAIT_2
  {
    if !Fin(g.flags) then s
    else
      var l := Load(s.env, s.conns[k]);
      var m := Send(l.(c := l.c.(ack := Add32(l.c.ack, 1))), [], ACK);
      Close(Update(s, k, m), k, m.c).0
  }

  function OnLastAck(s: State, k: Key, g: Segment, script: seq<Op>): State
    requires k in s.conns && Owns(s.env, s.conns[k]) && s.conns[k].state == LAST_ACK
  {
    if !Ack(g.flags) then s
    else
      var m := Callback(Load(s.env, s.conns[k]), CLOSED, script);
      Close(Update(s, k, m), k, m.c).0
  }

  /** Which copy, if any, leaves its array when a segment is taken in ESTABLISHED. */
  function EstablishedStop(l: Link, g: Segment, script: seq<Op>): Stop {
    if !Ack(g.flags) && !Fin(g.flags) then Running
    else DataStop(if Ack(g.flags) then TakeAck(l, g.ackNo) else l, g, script)
  }

  function DataStop(l: Link, g: Segment, script: seq<Op>): Stop {
    if Overruns(l, |g.payload|) then Overrun(l.c.rxBuf, g.payload)
    else if !Fin(g.flags) && |g.payload| > 0 && Overreads(Callback(Receive(l, g.payload), DATA_RECV, script)) then
      Overread(l.c.rxBuf)
    else Running
  }

  function OnEstablished(s: State, k: Key, g: Segment, script: seq<Op>): State
    requires k in s.conns && Owns(s.env, s.conns[k])
  {
    var l := Load(s.env, s.conns[k]);
    var stop := EstablishedStop(l, g, script);
    if stop != Running then s.(stop := stop) else Update(s, k, Established(l, g, script))
  }

  /** The switch of tcp_in, for a segment with the expected sequence number and no RST. */
  function Switch(s: State, k: Key, g: Segment, script: seq<Op>): State
    requires k in s.conns && Owns(s.env, s.conns[k])
  {
    match s.conns[k].state
    case SYN_RCVD => OnSynRcvd(s, k, g, script)
    case ESTABLISHED => OnEstablished(s, k, g, script)
    case FIN_WAIT_1 => OnFinWait1(s, k, g)
    case FIN_WAIT_2 => OnFinWait2(s, k, g)
    case LAST_ACK => OnLastAck(s, k, g, script)
    case _ => s.(stop := Panic)
  }

  /** No copy has left its array. */
  predicate Intact(s: State) {
    !s.stop.Overrun? && !s.stop.Overread?
  }

  /** Every connection out of LISTEN has its buffers. */
  predicate Usable(s: State) {
    forall k <- s.conns :: s.conns[k].state != LISTEN ==> Owns(s.env, s.conns[k])
  }

  /** tcp_in from step 8 on: the entry exists. */
  function Process(s: State, k: Key, g: Segment, chance: Chance, script: seq<Op>): State
    requires k in s.conns && (s.conns[k].state != LISTEN ==> Owns(s.env, s.conns[k]))
  {
    var c := s.conns[k];
    if c.state == LISTEN then
      if Rst(g.flags) then Close(s, k, c).0
      else if !Syn(g.flags) then Reset(s, k, c, g.seqNo)
      else Open(s, k, g, chance)
    else if g.seqNo != c.ack then Reset(s, k, c, g.seqNo)
    else if Rst(g.flags) then
      var r := Close(s, k, c);
      if Intact(r.0) then Reset(r.0, k, r.1, g.seqNo) else r.0
    else Switch(s, k, g, script)
  }

  /** tcp_in after the checksum test. */
  function TcpIn(s: State, ip: Ip, g: Segment, chance: Chance, script: seq<Op>): State
    requires Usable(s)
  {
    var k := Key(ip, g.srcPort, g.dstPort);
    if g.dstPort !in s.ports then s
    else if k !in s.conns && |s.conns| == s.cap then s.(stop := TableFull)
    else Process(s.(conns := s.conns[k := if k in s.conns then s.conns[k] else FreshConn(ip)]), k, g, chance, script)
  }

  /** What tcp_close does to one entry: a connection of the port is released but stays in the table. */
  function ReleaseOne(s: State, port: u16, k: Key): State {
    if k in s.conns && k.dstPort == port then
      s.(env := Release(s.env, s.conns[k]), conns := s.conns[k := s.conns[k].(state := LISTEN)])
    else s
  }

  /** map_foreach over the table, in slot order. */
  function ReleaseAll(s: State, port: u16, order: seq<Key>): State {
    if order == [] then s else ReleaseOne(ReleaseAll(s, port, order[..|order| - 1]), port, order[|order| - 1])
  }

  /** One event at the machine's boundary. `chance` is what a new connection would find, `script` what the callback does
      if one is called, `order` the order in which map_foreach meets the entries. */
  datatype Input =
    | Arrive(ip: Ip, g: Segment, chance: Chance, script: seq<Op>)
    | AppOp(key: Key, op: Op)
    | AppClose(key: Key)
    | OpenPort(port: u16)
    | ClosePort(port: u16, order: seq<Key>)

  /** The application learns of a connection from the CONNECTED callback and uses it only while it is live. */
  predicate InUse(s: State, k: Key) {
    k in s.conns && s.conns[k].state !in {LISTEN, SYN_RCVD}
  }

  /** What may happen next; map_foreach visits every entry. */
  predicate Allowed(s: State, i: Input) {
    match i
    case Arrive(_, _, _, _) => true
    case AppOp(k, _) => InUse(s, k)
    case AppClose(k) => InUse(s, k)
    case OpenPort(_) => true
    case ClosePort(_, order) => forall k <- s.conns :: k in order
  }

  function Step(s: State, i: Input): State
    requires Usable(s) && Allowed(s, i)
  {
    if s.stop != Running then s
    else
      match i
      case Arrive(ip, g, chance, script) => TcpIn(s, ip, g, chance, script)
      case AppOp(k, op) => Update(s, k, Apply(Load(s.env, s.conns[k]), op))
      case AppClose(k) => Close(s, k, s.conns[k]).0
      case OpenPort(port) => s.(ports := s.ports + {port})
      case ClosePort(port, order) =>
        var t := ReleaseAll(s, port, order);
        t.(ports := t.ports - {port})
  }

  function Initial(cap: nat): State {
    State(Env(map[], 0, [], [], map[]), {}, map[], cap, Running)
  }
}
