/** ARP resolution as a state machine: a table of addresses, a table of pending queues, and the frames sent so far.
    Conservation and ordering are proved over every run. */
module ArpProtocol {
  import opened Words
  import opened Buffer
  import opened Ethernet
  import opened SlotMap

  const ARP_TIMEOUT := 300
  const ARP_LEN := 28
  const ARP_PADDING := 18

  // ----- messages

  function ArpBytes(op: u16, senderMac: Mac, senderIp: Ip, targetMac: Mac, targetIp: Ip): (s: seq<byte>)
    ensures |s| == ARP_LEN
  {
    Big16(1) + Big16(PROTO_IP) + [6, 4] + Big16(op)
    + senderMac + senderIp + targetMac + targetIp
  }

  function RequestBytes(mac: Mac, ip: Ip, target: Ip): (s: seq<byte>)
    ensures |s| == ARP_LEN + ARP_PADDING
  {
    ArpBytes(1, mac, ip, [0, 0, 0, 0, 0, 0], target) + Zeros(ARP_PADDING)
  }

  function ReplyBytes(mac: Mac, ip: Ip, targetMac: Mac, targetIp: Ip): (s: seq<byte>)
    ensures |s| == ARP_LEN + ARP_PADDING
  {
    ArpBytes(2, mac, ip, targetMac, targetIp) + Zeros(ARP_PADDING)
  }

  datatype Msg = Reply(ip: Ip, mac: Mac) | Request(ip: Ip, mac: Mac) | Ignored

  /** The tests of arp_in: what a received packet means to the host (ip, mac). */
  function Parse(p: seq<byte>, ip: Ip, mac: Mac): Msg {
    if |p| < ARP_LEN || Net16(p[2], p[3]) != PROTO_IP || p[4] != 6 || p[5] != 4 then Ignored
    else
      var op := Net16(p[6], p[7]);
      if op == 2 && p[24..28] == ip && p[18..24] == mac then Reply(p[14..18], p[8..14])
      else if op == 1 && p[24..28] == ip then Request(p[14..18], p[8..14])
      else Ignored
  }

  lemma ArpFields(op: u16, sm: Mac, si: Ip, tm: Mac, ti: Ip, rest: seq<byte>)
    ensures var p := ArpBytes(op, sm, si, tm, ti) + rest;
            && p[2] == 8 && p[3] == 0 && p[4] == 6 && p[5] == 4
            && Net16(p[6], p[7]) == op
            && p[8..14] == sm && p[14..18] == si && p[18..24] == tm && p[24..28] == ti
  {
    var p := ArpBytes(op, sm, si, tm, ti) + rest;
    assert p[8..14] == sm;
    assert p[14..18] == si;
    assert p[18..24] == tm;
    assert p[24..28] == ti;
  }

  /** Two hosts running this code resolve each other: the target, and nobody with another address, reads a request
      as one from the asker, and the asker reads the answer as the target's binding. */
  lemma Handshake(askerMac: Mac, askerIp: Ip, targetMac: Mac, targetIp: Ip, other: Ip, otherMac: Mac)
    ensures var req := Pad(RequestBytes(askerMac, askerIp, targetIp));
            Parse(req, other, otherMac) == if other == targetIp then Request(askerIp, askerMac) else Ignored
    ensures var rep := Pad(ReplyBytes(targetMac, targetIp, askerMac, askerIp));
            Parse(rep, askerIp, askerMac) == Reply(targetIp, targetMac)
  {
    ArpFields(1, askerMac, askerIp, [0, 0, 0, 0, 0, 0], targetIp, Zeros(ARP_PADDING));
    ArpFields(2, targetMac, targetIp, askerMac, askerIp, Zeros(ARP_PADDING));
  }

  // ----- state and steps

  /** One frame given to the driver. A packet is the window that was handed down. */
  datatype Tx = IpTx(to: Ip, mac: Mac, packet: Window) | ArpTx(mac: Mac, message: seq<byte>)

  function FrameOf(t: Tx, src: Mac): seq<byte> {
    match t
    case IpTx(_, mac, packet) => Frame(mac, src, PROTO_IP, packet.bytes)
    case ArpTx(mac, message) => Frame(mac, src, PROTO_ARP, message)
  }

  datatype Host = Host(ip: Ip, mac: Mac)

  datatype State = State(table: ExpMap<Ip, Mac>, pending: ExpMap<Ip, seq<Window>>, tx: seq<Tx>) {
    predicate Valid() {
      && pending.timeout == 0 && pending.Counted()
      && (forall ip <- pending.model :: pending.model[ip].value != [])
    }

    function QueueFor(ip: Ip): seq<Window> {
      if ip in pending.model then pending.model[ip].value else []
    }

    predicate Resolved(ip: Ip, now: nat) {
      table.Has(ip, now)
    }

    predicate Waiting(ip: Ip) {
      ip in pending.model
    }

    /** arp_out drops the packet: nothing is known, nothing is pending, and arp_buf has no slot left. */
    predicate Drops(ip: Ip, now: nat) {
      !Resolved(ip, now) && !Waiting(ip) && pending.size == pending.max
    }
  }

  /** arp_out. */
  function OutStep(s: State, h: Host, ip: Ip, p: Window, now: nat): State {
    if s.Resolved(ip, now) then
      s.(tx := s.tx + [IpTx(ip, s.table.model[ip].value, p)])
    else if s.pending.Has(ip, now) then
      var e := s.pending.model[ip];
      s.(pending := s.pending.(model := s.pending.model[ip := e.(value := e.value + [p])]))
    else
      s.(pending := s.pending.Set(ip, [p], now), tx := s.tx + [ArpTx(BROADCAST, RequestBytes(h.mac, h.ip, ip))])
  }

  function Burst(ip: Ip, mac: Mac, q: seq<Window>): (r: seq<Tx>)
    ensures |r| == |q|
  {
    seq(|q|, i requires 0 <= i < |q| => IpTx(ip, mac, q[i]))
  }

  /** arp_in. */
  function InStep(s: State, h: Host, m: Msg, now: nat): State
    requires s.Valid()
  {
    match m
    case Ignored => s
    case Request(ip, mac) =>
      s.(table := s.table.Set(ip, mac, now), tx := s.tx + [ArpTx(mac, ReplyBytes(h.mac, h.ip, mac, ip))])
    case Reply(ip, mac) =>
      var t := s.(table := s.table.Set(ip, mac, now));
      if s.pending.Has(ip, now) then
        HasMeansSize(s.pending, ip, now);
        t.(pending := s.pending.Delete(ip, now), tx := s.tx + Burst(ip, mac, s.pending.model[ip].value))
      else t
  }

  lemma HasMeansSize<V>(m: ExpMap<Ip, V>, ip: Ip, now: nat)
    requires m.timeout == 0 && m.Counted() && m.Has(ip, now)
    ensures m.size > 0
  {
    SetDeleteCounted(m, ip, m.model[ip].value, 1);
  }

  datatype Input = Out(ip: Ip, packet: Window, now: nat) | In(msg: Msg, now: nat)

  function Step(s: State, h: Host, i: Input): State
    requires s.Valid()
  {
    match i
    case Out(ip, p, now) => OutStep(s, h, ip, p, now)
    case In(m, now) => InStep(s, h, m, now)
  }

  /** Between steps every pending queue is nonempty, so queue_push always finds a tail. */
  lemma StepValid(s: State, h: Host, i: Input)
    requires s.Valid() && i.now != 0
    ensures Step(s, h, i).Valid()
  {
    match i
    case Out(ip, p, now) =>
      if !s.Resolved(ip, now) {
        if s.pending.Has(ip, now) {
          var e := s.pending.model[ip];
          assert s.pending.model[ip := e.(value := e.value + [p])].Keys == s.pending.model.Keys;
        } else {
          SetDeleteCounted(s.pending, ip, [p], now);
        }
      }
    case In(m, now) =>
      if m.Reply? && s.pending.Has(m.ip, now) {
        SetDeleteCounted(s.pending, m.ip, [], now);
      }
  }

  function Initial(max: nat, tableMax: nat, h: Host): State {
    State(ExpMap(map[], 0, tableMax, ARP_TIMEOUT), ExpMap(map[], 0, max, 0),
          [ArpTx(BROADCAST, RequestBytes(h.mac, h.ip, h.ip))])
  }

  predicate Clocked(run: seq<Input>) {
    forall k :: 0 <= k < |run| ==> run[k].now != 0 && (k > 0 ==> run[k - 1].now <= run[k].now)
  }

  function Run(s: State, h: Host, run: seq<Input>): (r: State)
    requires s.Valid() && Clocked(run)
    ensures r.Valid()
  {
    if run == [] then s
    else
      var t := Run(s, h, run[..|run| - 1]);
      StepValid(t, h, run[|run| - 1]);
      Step(t, h, run[|run| - 1])
  }

  // ----- conservation

  /** The IP packets transmitted towards `d`, in order. */
  function Sent(tx: seq<Tx>, d: Ip): seq<Window> {
    if tx == [] then []
    else
      var t := tx[|tx| - 1];
      Sent(tx[..|tx| - 1], d) + (if t.IpTx? && t.to == d then [t.packet] else [])
  }

  function Gives(i: Input, d: Ip): seq<Window> {
    if i.Out? && i.ip == d then [i.packet] else []
  }

  /** The packets given to arp_out for `d`, in order. */
  function Given(run: seq<Input>, d: Ip): seq<Window> {
    if run == [] then []
    else
      var i := run[|run| - 1];
      Given(run[..|run| - 1], d) + Gives(i, d)
  }

  lemma {:induction false} SentBurst(tx: seq<Tx>, ip: Ip, mac: Mac, q: seq<Window>, d: Ip)
    ensures Sent(tx + Burst(ip, mac, q), d) == Sent(tx, d) + if d == ip then q else []
  {
    if q == [] {
      assert tx + Burst(ip, mac, q) == tx;
    } else {
      var q' := q[..|q| - 1];
      var all := tx + Burst(ip, mac, q);
      assert all[..|all| - 1] == tx + Burst(ip, mac, q');
      SentBurst(tx, ip, mac, q', d);
      assert q == q' + [q[|q| - 1]];
    }
  }

  lemma SentOne(tx: seq<Tx>, t: Tx, d: Ip)
    ensures Sent(tx + [t], d) == Sent(tx, d) + if t.IpTx? && t.to == d then [t.packet] else []
  {
    assert (tx + [t])[..|tx|] == tx;
  }

  /** What became of the packets for `d`: sent ones followed by queued ones. */
  function Line(s: State, d: Ip): seq<Window> {
    Sent(s.tx, d) + s.QueueFor(d)
  }

  /** The exact effect of one arp_out on every destination's line: unless the packet is dropped it joins its own
      line, at the end if it is queued and before the queue if it is transmitted; no other line changes. */
  lemma OutLine(s: State, h: Host, ip: Ip, p: Window, now: nat, d: Ip)
    requires s.Valid() && now != 0
    ensures var s' := OutStep(s, h, ip, p, now);
            Line(s', d) == (if d != ip || s.Drops(ip, now) then Line(s, d)
                            else if s.Resolved(ip, now) then Sent(s.tx, d) + [p] + s.QueueFor(d)
                            else Line(s, d) + [p])
  {
    hide RequestBytes, Sent;
    if s.Resolved(ip, now) {
      SentOne(s.tx, IpTx(ip, s.table.model[ip].value, p), d);
    } else if !s.pending.Has(ip, now) {
      SentOne(s.tx, ArpTx(BROADCAST, RequestBytes(h.mac, h.ip, ip)), d);
    }
  }

  lemma InLine(s: State, h: Host, m: Msg, now: nat, d: Ip)
    requires s.Valid() && now != 0
    ensures Line(InStep(s, h, m, now), d) == Line(s, d)
  {
    match m
    case Ignored =>
    case Request(ip, mac) =>
      SentOne(s.tx, ArpTx(mac, ReplyBytes(h.mac, h.ip, mac, ip)), d);
    case Reply(ip, mac) =>
      if s.pending.Has(ip, now) {
        SentBurst(s.tx, ip, mac, s.pending.model[ip].value, d);
      }
  }

  /** One arp_out keeps every packet accounted for exactly when it does not meet a full arp_buf. */
  lemma OutConservesIff(s: State, h: Host, ip: Ip, p: Window, now: nat)
    requires s.Valid() && now != 0
    ensures multiset(Line(OutStep(s, h, ip, p, now), ip)) == multiset(Line(s, ip)) + multiset{p}
            <==> !s.Drops(ip, now)
  {
    OutLine(s, h, ip, p, now, ip);
    var a, b := Sent(s.tx, ip), s.QueueFor(ip);
    assert multiset(a + [p] + b) == multiset(a) + multiset{p} + multiset(b);
    assert multiset(a + b + [p]) == multiset(a) + multiset(b) + multiset{p};
    assert multiset(a + b) == multiset(a) + multiset(b);
    assert (multiset(a + b) + multiset{p})[p] == multiset(a + b)[p] + 1;
  }

  /** No arp_out of the run meets a full arp_buf. */
  predicate NeverDrops(s: State, h: Host, run: seq<Input>)
    requires s.Valid() && Clocked(run)
  {
    run == [] ||
    (var t := Run(s, h, run[..|run| - 1]);
     var i := run[|run| - 1];
     NeverDrops(s, h, run[..|run| - 1]) && (i.Out? ==> !t.Drops(i.ip, i.now)))
  }

  lemma StepConserves(s: State, h: Host, i: Input, d: Ip)
    requires s.Valid() && i.now != 0 && (i.Out? ==> !s.Drops(i.ip, i.now))
    ensures multiset(Line(Step(s, h, i), d)) == multiset(Line(s, d)) + multiset(Gives(i, d))
  {
    match i
    case Out(ip, p, now) =>
      OutLine(s, h, ip, p, now, d);
      OutConservesIff(s, h, ip, p, now);
    case In(m, now) =>
      InLine(s, h, m, now, d);
  }

  /** Over every run in which arp_buf never overflows, for every destination: what was transmitted plus what is queued
      is exactly what was given to arp_out, as multisets. So every packet is sent once or waits once, and nothing else
      is sent as IP. */
  lemma {:induction false} Conservation(h: Host, max: nat, tableMax: nat, run: seq<Input>, d: Ip)
    requires Clocked(run) && NeverDrops(Initial(max, tableMax, h), h, run)
    ensures multiset(Line(Run(Initial(max, tableMax, h), h, run), d)) == multiset(Given(run, d))
  {
    var s0 := Initial(max, tableMax, h);
    if run == [] {
      SentOne([], s0.tx[0], d);
    } else {
      var run', i := run[..|run| - 1], run[|run| - 1];
      Conservation(h, max, tableMax, run', d);
      StepConserves(Run(s0, h, run'), h, i, d);
      assert Given(run, d) == Given(run', d) + Gives(i, d);
    }
  }

  /** The packet that arp_out drops in this step, if it is for `d`. */
  function Lost(s: State, i: Input, d: Ip): seq<Window> {
    if i.Out? && s.Drops(i.ip, i.now) then Gives(i, d) else []
  }

  /** The packets for `d` dropped in a run, in order. */
  function Dropped(s: State, h: Host, run: seq<Input>, d: Ip): seq<Window>
    requires s.Valid() && Clocked(run)
  {
    if run == [] then []
    else
      var n := |run| - 1;
      Dropped(s, h, run[..n], d) + Lost(Run(s, h, run[..n]), run[n], d)
  }

  lemma StepAccounts(s: State, h: Host, i: Input, d: Ip)
    requires s.Valid() && i.now != 0
    ensures multiset(Line(Step(s, h, i), d)) + multiset(Lost(s, i, d)) == multiset(Line(s, d)) + multiset(Gives(i, d))
  {
    hide OutStep, InStep, Line;
    match i
    case Out(ip, p, now) =>
      if d == ip && !s.Drops(ip, now) {
        OutConservesIff(s, h, ip, p, now);
      } else {
        OutLine(s, h, ip, p, now, d);
      }
    case In(m, now) =>
      InLine(s, h, m, now, d);
  }

  /** Over every run from every state, for every destination: sent, waiting and dropped packets are exactly those that
      were there and those that were given, as multisets. */
  lemma {:induction false} Accounting(s: State, h: Host, run: seq<Input>, d: Ip)
    requires s.Valid() && Clocked(run)
    ensures multiset(Line(Run(s, h, run), d)) + multiset(Dropped(s, h, run, d)) ==
            multiset(Line(s, d)) + multiset(Given(run, d))
  {
    hide Line, Step, Lost, Gives;
    if run != [] {
      var run', i := run[..|run| - 1], run[|run| - 1];
      Accounting(s, h, run', d);
      StepAccounts(Run(s, h, run'), h, i, d);
      var given, gives := Given(run', d), Gives(i, d);
      var dropped, lost := Dropped(s, h, run', d), Lost(Run(s, h, run'), i, d);
      assert multiset(given + gives) == multiset(given) + multiset(gives);
      assert multiset(dropped + lost) == multiset(dropped) + multiset(lost);
      Balance(multiset(Line(Run(s, h, run), d)), multiset(lost), multiset(Line(Run(s, h, run'), d)), multiset(gives),
              multiset(dropped), multiset(Line(s, d)), multiset(given));
    }
  }

  /** Two balances in a row. */
  lemma Balance<T>(after: multiset<T>, lost: multiset<T>, line: multiset<T>, gives: multiset<T>, dropped: multiset<T>,
                   start: multiset<T>, given: multiset<T>)
    requires after + lost == line + gives && line + dropped == start + given
    ensures after + (dropped + lost) == start + (given + gives)
  {
    assert after + (dropped + lost) == (after + lost) + dropped == (line + dropped) + gives;
  }

  /** So nothing is lost for `d` exactly when nothing for `d` was dropped, whatever happened to other destinations. */
  lemma ConservedIff(s: State, h: Host, run: seq<Input>, d: Ip)
    requires s.Valid() && Clocked(run)
    ensures multiset(Line(Run(s, h, run), d)) == multiset(Line(s, d)) + multiset(Given(run, d)) <==>
            Dropped(s, h, run, d) == []
  {
    hide Line, Run, Dropped, Given;
    Accounting(s, h, run, d);
    var lost := Dropped(s, h, run, d);
    var x, y := multiset(Line(Run(s, h, run), d)), multiset(lost);
    if lost != [] {
      assert lost[0] in y && (x + y)[lost[0]] > x[lost[0]];
    }
  }

  /** One packet each for the first `n` destinations. */
  function OneEach(ds: seq<Ip>, p: Window, n: nat): (run: seq<Input>)
    requires n <= |ds|
    ensures |run| == n && Clocked(run)
  {
    seq(n, i requires 0 <= i < n => Out(ds[i], p, 1))
  }

  lemma {:induction false} OneEachWaits(h: Host, max: nat, tableMax: nat, ds: seq<Ip>, p: Window, n: nat)
    requires n <= max < |ds| && forall i, j :: 0 <= i < j < |ds| ==> ds[i] != ds[j]
    ensures var s := Run(Initial(max, tableMax, h), h, OneEach(ds, p, n));
            && s.table.model == map[] && s.pending.size == n && s.pending.max == max && s.pending.timeout == 0
            && (forall d <- s.pending.model :: d in ds[..n]) && (forall t <- s.tx :: t.ArpTx?)
  {
    if n > 0 {
      var run := OneEach(ds, p, n);
      assert run[..n - 1] == OneEach(ds, p, n - 1);
      OneEachWaits(h, max, tableMax, ds, p, n - 1);
      assert ds[n - 1] !in ds[..n - 1];
    }
  }

  lemma {:induction false} NoneSent(tx: seq<Tx>, d: Ip)
    requires forall t <- tx :: t.ArpTx?
    ensures Sent(tx, d) == []
  {
    if tx != [] {
      assert tx[|tx| - 1] in tx && forall t <- tx[..|tx| - 1] :: t in tx;
      NoneSent(tx[..|tx| - 1], d);
    }
  }

  lemma {:induction false} GivenNone(ds: seq<Ip>, p: Window, n: nat, d: Ip)
    requires n <= |ds| && d !in ds[..n]
    ensures Given(OneEach(ds, p, n), d) == []
  {
    if n > 0 {
      assert OneEach(ds, p, n)[..n - 1] == OneEach(ds, p, n - 1);
      assert ds[..n][n - 1] == ds[n - 1];
      assert forall x <- ds[..n - 1] :: x in ds[..n];
      GivenNone(ds, p, n - 1, d);
    }
  }

  /** Every capacity is exceeded by one packet each for that many destinations and one more: the last packet is given to
      arp_out, and is neither sent nor waiting. */
  lemma DroppingRun(h: Host, max: nat, tableMax: nat, ds: seq<Ip>, p: Window)
    requires |ds| == max + 1 && forall i, j :: 0 <= i < j < |ds| ==> ds[i] != ds[j]
    ensures var run := OneEach(ds, p, max + 1);
            && Given(run, ds[max]) == [p] && Line(Run(Initial(max, tableMax, h), h, run), ds[max]) == []
  {
    hide RequestBytes, Given, Sent, Initial, OneEach, Run, OutStep;
    var run, d := OneEach(ds, p, max), ds[max];
    assert Initial(max, tableMax, h).Valid() by { InitialValid(h, max, tableMax); }
    OneMore(ds, p, max);
    OneEachWaits(h, max, tableMax, ds, p, max);
    GivenNone(ds, p, max, d);
    GivenMore(run, Out(d, p, 1), d);
    var s := Run(Initial(max, tableMax, h), h, run);
    RunMore(Initial(max, tableMax, h), h, run, Out(d, p, 1));
    OutLine(s, h, d, p, 1, d);
    NoneSent(s.tx, d);
  }

  lemma RunMore(s: State, h: Host, run: seq<Input>, i: Input)
    requires s.Valid() && Clocked(run) && Clocked(run + [i])
    ensures Run(s, h, run + [i]) == Step(Run(s, h, run), h, i)
  {
    assert (run + [i])[..|run|] == run;
  }

  lemma OneMore(ds: seq<Ip>, p: Window, n: nat)
    requires n < |ds|
    ensures OneEach(ds, p, n + 1) == OneEach(ds, p, n) + [Out(ds[n], p, 1)]
  {
  }

  lemma GivenMore(run: seq<Input>, i: Input, d: Ip)
    ensures Given(run + [i], d) == Given(run, d) + Gives(i, d)
  {
    assert (run + [i])[..|run|] == run;
  }

  // ----- order

  predicate AllAre(q: seq<Window>, p: Window) {
    forall k :: 0 <= k < |q| ==> q[k] == p
  }

  lemma RotationIff(p: Window, q: seq<Window>)
    ensures [p] + q == q + [p] <==> AllAre(q, p)
  {
    if [p] + q == q + [p] {
      AllEqual(p, q, |q|);
    }
    if AllAre(q, p) {
      assert [p] + q == q + [p];
    }
  }

  lemma {:induction false} AllEqual(p: Window, q: seq<Window>, n: nat)
    requires [p] + q == q + [p] && n <= |q|
    ensures forall k :: 0 <= k < n ==> q[k] == p
  {
    if n > 0 {
      AllEqual(p, q, n - 1);
      assert ([p] + q)[n - 1] == (q + [p])[n - 1];
    }
  }

  /** One arp_out keeps first-in-first-out order exactly when the packet is not dropped, and not transmitted past a
      queue that holds a different packet. */
  lemma OutKeepsOrderIff(s: State, h: Host, ip: Ip, p: Window, now: nat)
    requires s.Valid() && now != 0
    ensures Line(OutStep(s, h, ip, p, now), ip) == Line(s, ip) + [p]
            <==> !s.Drops(ip, now) && (s.Resolved(ip, now) ==> AllAre(s.QueueFor(ip), p))
  {
    hide OutStep, Sent, AllAre;
    OutLine(s, h, ip, p, now, ip);
    var a, q := Sent(s.tx, ip), s.QueueFor(ip);
    RotationIff(p, q);
    if s.Resolved(ip, now) {
      SamePrefix(a, p, q);
    } else if s.Drops(ip, now) {
      assert |Line(s, ip)| != |Line(s, ip) + [p]|;
    }
  }

  lemma SamePrefix(a: seq<Window>, p: Window, q: seq<Window>)
    ensures a + [p] + q == a + q + [p] <==> [p] + q == q + [p]
  {
    assert a + [p] + q == a + ([p] + q) && a + q + [p] == a + (q + [p]);
    assert (a + ([p] + q))[|a|..] == [p] + q && (a + (q + [p]))[|a|..] == q + [p];
  }

  /** No ARP request from `d` arrives while packets for `d` are queued. */
  predicate NoRequestWhilePending(s: State, h: Host, run: seq<Input>, d: Ip)
    requires s.Valid() && Clocked(run)
  {
    run == [] ||
    (var t := Run(s, h, run[..|run| - 1]);
     var i := run[|run| - 1];
     && NoRequestWhilePending(s, h, run[..|run| - 1], d)
     && !(i.In? && i.msg.Request? && i.msg.ip == d && t.Waiting(d)))
  }

  function LastNow(run: seq<Input>): nat {
    if run == [] then 0 else run[|run| - 1].now
  }

  lemma TimeoutKept(s: State, h: Host, i: Input)
    requires s.Valid()
    ensures Step(s, h, i).table.timeout == s.table.timeout
  {
    hide RequestBytes, ReplyBytes, Burst;
  }

  lemma OutWaiting(s: State, h: Host, ip: Ip, p: Window, now: nat, d: Ip)
    requires s.Valid() && now != 0
    requires s.Waiting(d) ==> !s.Resolved(d, now)
    ensures var s' := OutStep(s, h, ip, p, now); s'.Waiting(d) ==> !s'.Resolved(d, now)
  {
  }

  lemma InWaiting(s: State, h: Host, m: Msg, now: nat, d: Ip)
    requires s.Valid() && now != 0
    requires s.Waiting(d) ==> !s.Resolved(d, now) && !(m.Request? && m.ip == d)
    ensures var s' := InStep(s, h, m, now); s'.Waiting(d) ==> !s'.Resolved(d, now)
  {
    match m
    case Ignored =>
    case Request(ip, mac) =>
    case Reply(ip, mac) =>
      assert d != ip ==> s.table.Set(ip, mac, now).Has(d, now) == s.table.Has(d, now);
  }

  lemma StepOrder(s: State, h: Host, i: Input, before: nat, d: Ip)
    requires s.Valid() && before <= i.now && i.now != 0 && (i.Out? ==> !s.Drops(i.ip, i.now))
    requires s.Waiting(d) ==> !s.Resolved(d, before) && !(i.In? && i.msg.Request? && i.msg.ip == d)
    requires s.table.timeout == ARP_TIMEOUT
    ensures var s' := Step(s, h, i);
            && Line(s', d) == Line(s, d) + Gives(i, d)
            && (s'.Waiting(d) ==> !s'.Resolved(d, i.now))
            && s'.table.timeout == ARP_TIMEOUT
  {
    hide Sent, RequestBytes, ReplyBytes, Burst, OutStep, InStep;
    assert s.Waiting(d) ==> !s.Resolved(d, i.now);
    TimeoutKept(s, h, i);
    match i
    case Out(ip, p, now) =>
      OutLine(s, h, ip, p, now, d);
      OutWaiting(s, h, ip, p, now, d);
    case In(m, now) =>
      InLine(s, h, m, now, d);
      InWaiting(s, h, m, now, d);
      assert Line(s, d) + [] == Line(s, d);
  }

  /** Transmission order is submission order: at every moment the packets sent to `d`, then those still queued, are
      the packets given to arp_out for `d`, in the order given. */
  lemma {:induction false} OrderKept(h: Host, max: nat, tableMax: nat, run: seq<Input>, d: Ip)
    requires Clocked(run) && NeverDrops(Initial(max, tableMax, h), h, run)
    requires NoRequestWhilePending(Initial(max, tableMax, h), h, run, d)
    ensures var s := Run(Initial(max, tableMax, h), h, run);
            && Line(s, d) == Given(run, d)
            && (s.Waiting(d) ==> !s.Resolved(d, LastNow(run)))
            && s.table.timeout == ARP_TIMEOUT
  {
    var s0 := Initial(max, tableMax, h);
    if run == [] {
      SentOne([], s0.tx[0], d);
    } else {
      var run', i := run[..|run| - 1], run[|run| - 1];
      OrderKept(h, max, tableMax, run', d);
      StepOrder(Run(s0, h, run'), h, i, LastNow(run'), d);
    }
  }

  /** The first packet for an unknown host is queued behind a request. */
  lemma FirstQueued(h: Host, d: Ip, p: Window)
    ensures var waiting: map<Ip, Stamped<seq<Window>>> := map[d := Stamped([p], 1)];
            OutStep(Initial(1, 1, h), h, d, p, 1) ==
            State(ExpMap(map[], 0, 1, ARP_TIMEOUT), ExpMap(waiting, 1, 1, 0),
                  [ArpTx(BROADCAST, RequestBytes(h.mac, h.ip, h.ip)), ArpTx(BROADCAST, RequestBytes(h.mac, h.ip, d))])
  {
    hide RequestBytes;
  }

  /** A packet for an unknown host is queued; a request from that host then resolves it and leaves the queue alone. */
  lemma RequestLeavesQueue(h: Host, d: Ip, mac: Mac, p: Window)
    ensures var s := InStep(OutStep(Initial(1, 1, h), h, d, p, 1), h, Request(d, mac), 1);
            && s == Run(Initial(1, 1, h), h, [Out(d, p, 1), In(Request(d, mac), 1)])
            && s.Resolved(d, 1) && s.table.model[d].value == mac && s.QueueFor(d) == [p] && Sent(s.tx, d) == []
  {
    hide RequestBytes, ReplyBytes, OutStep, Initial;
    var s0 := Initial(1, 1, h);
    var a, b := Out(d, p, 1), In(Request(d, mac), 1);
    assert [a, b][..1] == [a] && [a][..0] == [];
    var s1 := OutStep(s0, h, d, p, 1);
    FirstQueued(h, d, p);
    assert s0.Valid() by { InitialValid(h, 1, 1); }
    assert Run(s0, h, [a]) == s1;
    var t0, t1, t2 := s1.tx[0], s1.tx[1], ArpTx(mac, ReplyBytes(h.mac, h.ip, mac, d));
    SentOne([], t0, d);
    SentOne([t0], t1, d);
    SentOne([t0, t1], t2, d);
  }

  lemma InitialValid(h: Host, max: nat, tableMax: nat)
    ensures Initial(max, tableMax, h).Valid()
  {
  }

  /** Without that condition the claim fails: a request from the destination resolves it but leaves its queue alone,
      and the next packet overtakes the queued one. */
  lemma OvertakingRun(h: Host, d: Ip, mac: Mac, p: Window, q: Window)
    requires p != q
    ensures var run := [Out(d, p, 1), In(Request(d, mac), 1), Out(d, q, 1)];
            var s := Run(Initial(1, 1, h), h, run);
            Given(run, d) == [p, q] && Sent(s.tx, d) == [q] && s.QueueFor(d) == [p]
  {
    hide InStep;
    var a, b, c := Out(d, p, 1), In(Request(d, mac), 1), Out(d, q, 1);
    assert [a, b, c][..2] == [a, b] && [a, b][..1] == [a] && [a][..0] == [];
    RequestLeavesQueue(h, d, mac, p);
    assert Given([a, b, c], d) == [p, q] by {
      assert Given([a], d) == [p];
      assert Given([a, b], d) == [p];
    }
    SentOne(Run(Initial(1, 1, h), h, [a, b]).tx, IpTx(d, mac, q), d);
  }

  /** While packets for a destination wait, arp_out sends no further ARP request for it. */
  lemma PendingAsksOnce(s: State, h: Host, ip: Ip, p: Window, now: nat)
    requires s.Valid() && now != 0
    ensures (exists t :: OutStep(s, h, ip, p, now).tx == s.tx + [t] && t.ArpTx?)
            <==> !s.Resolved(ip, now) && !s.Waiting(ip)
  {
    var s' := OutStep(s, h, ip, p, now);
    if t :| s'.tx == s.tx + [t] && t.ArpTx? {
      assert s'.tx[|s.tx|] == t;
    }
    if !s.Resolved(ip, now) && !s.Waiting(ip) {
      var t := ArpTx(BROADCAST, RequestBytes(h.mac, h.ip, ip));
      assert s'.tx == s.tx + [t] && t.ArpTx?;
    }
  }
}
