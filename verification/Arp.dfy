/** src/arp.c over real buffers, the slot array of arp_table, and the linked queues in the slots of arp_buf; every
    operation is one step of ArpProtocol. */
module Arp {
  import opened Words
  import opened Buffer
  import opened Ethernet
  import opened SlotMap
  import opened Queue
  import opened Pending
  import opened ArpProtocol

  /** Where arp_req leaves its frame in txbuf: 60 bytes ending at the middle of the array. */
  const ARP_FRAME_AT := HALF - 60

  /** Room that ethernet_out and buf_copy take for granted. */
  predicate Sendable(w: Window) {
    && ETH_HDR <= w.data && w.data + |w.bytes| < BUF_MAX_LEN
    && (|w.bytes| < MIN_PAYLOAD ==> w.data + MIN_PAYLOAD < BUF_MAX_LEN)
  }

  ghost predicate AllSendable(m: map<Ip, Stamped<seq<Window>>>) {
    forall k, i :: k in m && 0 <= i < |m[k].value| ==> Sendable(m[k].value[i])
  }

  /** One more packet that waits leaves a pending table in order. */
  lemma OutKeeps(s: State, h: Host, dst: Ip, copy: Window, now: nat)
    requires s.Valid() && AllSendable(s.pending.model) && Sendable(copy) && now != 0 && !s.Resolved(dst, now)
    ensures var t := OutStep(s, h, dst, copy, now);
            && t.Valid() && AllSendable(t.pending.model) && t.table == s.table
            && (s.pending.Has(dst, now) <==> s.Waiting(dst))
            && t.pending == (if s.Waiting(dst) then Extended(s.pending, dst, copy) else s.pending.Set(dst, [copy], now))
            && t.tx == if s.Waiting(dst) then s.tx else s.tx + [ArpTx(BROADCAST, RequestBytes(h.mac, h.ip, dst))]
  {
    hide RequestBytes, Sendable;
    StepValid(s, h, ArpProtocol.Out(dst, copy, now));
  }

  lemma TableKept(s: State, dst: Ip, p: Window, now: nat)
    ensures forall h :: OutStep(s, h, dst, p, now).table == s.table
  {
    hide RequestBytes;
  }

  lemma StartsEmpty(s: State, h: Host, max: nat, tableMax: nat)
    requires s.table.model == map[] && s.table.size == 0 && s.table.max == tableMax && s.table.timeout == ARP_TIMEOUT
    requires s.pending.model == map[] && s.pending.size == 0 && s.pending.max == max && s.pending.timeout == 0
    requires s.tx == [ArpTx(BROADCAST, RequestBytes(h.mac, h.ip, h.ip))]
    ensures s == Initial(max, tableMax, h) && s.Valid() && AllSendable(s.pending.model)
  {
    hide RequestBytes;
  }

  lemma AllWaiting(m: map<Ip, Stamped<seq<Window>>>, k: Ip)
    requires AllSendable(m) && k in m
    ensures forall i :: 0 <= i < |m[k].value| ==> Sendable(m[k].value[i])
  {
  }

  /** Deleting an entry leaves a pending table in order. */
  lemma DeleteKeeps(s: State, t: State, k: Ip, now: nat)
    requires s.Valid() && AllSendable(s.pending.model) && s.pending.Has(k, now)
    requires s.pending.size > 0 && t.pending == s.pending.Delete(k, now)
    ensures t.Valid() && AllSendable(t.pending.model)
  {
    SetDeleteCounted(s.pending, k, [], if now == 0 then 1 else now);
  }

  function RequestFrame(h: Host, target: Ip): (f: seq<byte>)
    ensures |f| == 60
  {
    Frame(BROADCAST, h.mac, PROTO_ARP, RequestBytes(h.mac, h.ip, target))
  }

  lemma FrameAfterMessage(m: seq<byte>, message: seq<byte>, header: seq<byte>)
    requires |m| == BUF_MAX_LEN && |message| == ARP_LEN + ARP_PADDING && |header| == ETH_HDR
    ensures Pad(message) == message
    ensures Splice(Splice(m, HALF - 46, message), ARP_FRAME_AT, header + message)
            == Splice(m, ARP_FRAME_AT, header + message)
  {
  }

  class Arp {
    const eth: Ethernet
    const ip: Ip
    const txbuf: Buf
    const table: SlotMap<Ip, Mac>
    const pending: Table<Ip, Window>
    ghost var tx: seq<Tx>
    /** The last reading of the clock. */
    ghost var clock: nat

    ghost function AsHost(): Host {
      Host(ip, eth.mac)
    }

    ghost function View(): State
      reads this, table, pending
    {
      State(table.View(), pending.view, tx)
    }

    /** The frames on the wire are those of the log. */
    ghost predicate Logged()
      reads this`tx, eth
    {
      |eth.wire| == |tx| && forall i :: 0 <= i < |tx| ==> eth.wire[i] == FrameOf(tx[i], eth.mac)
    }

    /** What waits can be sent. */
    ghost predicate CanSend()
      reads pending
    {
      AllSendable(pending.view.model)
    }

    ghost predicate Valid()
      reads this, eth, table, table.slots, pending, pending.slots, pending.slots.slots, pending.queues, pending.nodes
    {
      && txbuf.payload.Length == BUF_MAX_LEN && View().Valid()
      && table.Valid(clock) && pending.Valid(clock) && CanSend() && Logged()
    }

    /** arp_init: two empty tables and a gratuitous request. */
    constructor (eth: Ethernet, ip: Ip, txbuf: Buf)
      requires txbuf.payload.Length == BUF_MAX_LEN && eth.wire == []
      modifies eth, txbuf, txbuf.payload
      ensures Valid() && this.eth == eth && this.ip == ip && this.txbuf == txbuf && clock == 0
      ensures View() == Initial(pending.view.max, table.maxSize, AsHost())
    {
      hide SlotMap.Valid, Table.Valid, Logged, RequestFrame, RequestBytes, Splice, State.Valid, AllSendable, Initial;
      this.eth, this.ip, this.txbuf := eth, ip, txbuf;
      table := new SlotMap<Ip, Mac>(0, 4 + 6 + 8, ARP_TIMEOUT);
      pending := new Table<Ip, Window>(0, 4 + 16 + 8);
      tx := [];
      clock := 0;
      new;
      NothingLogged();
      Request(ip);
      StartsEmpty(View(), AsHost(), pending.view.max, table.maxSize);
    }

    lemma NothingLogged()
      requires eth.wire == [] && tx == []
      ensures Logged()
    {
    }

    lemma Later(now: nat)
      requires Valid() && clock <= now
      ensures table.Valid(now) && pending.Valid(now)
    {
      RepresentsLater(table.slots[..], table.View(), clock, now);
      pending.Later(clock, now);
    }

    /** The common part of arp_req and arp_resp: fill txbuf with one ARP message and send it. */
    method Emit(dst: Mac, message: seq<byte>)
      requires txbuf.payload.Length == BUF_MAX_LEN && |message| == ARP_LEN + ARP_PADDING && Logged()
      modifies this`tx, eth, txbuf, txbuf.payload
      ensures Logged() && tx == old(tx) + [ArpTx(dst, message)]
      ensures txbuf.Valid() && txbuf.data == ARP_FRAME_AT && txbuf.len == 60
      ensures |Frame(dst, eth.mac, PROTO_ARP, message)| == 60
      ensures txbuf.payload[..] == Splice(old(txbuf.payload[..]), ARP_FRAME_AT, Frame(dst, eth.mac, PROTO_ARP, message))
    {
      var _ := txbuf.Init(ARP_LEN + ARP_PADDING);
      ghost var m0 := txbuf.payload[..];
      txbuf.Store(txbuf.data, message);
      assert txbuf.View().bytes == message;
      eth.Out(txbuf, dst, PROTO_ARP);
      tx := tx + [ArpTx(dst, message)];
      FrameAfterMessage(m0, message, EthHeader(dst, eth.mac, PROTO_ARP));
    }

    /** arp_req rewrites txbuf, whatever it held. */
    method Request(target: Ip)
      requires txbuf.payload.Length == BUF_MAX_LEN && Logged()
      modifies this`tx, eth, txbuf, txbuf.payload
      ensures Logged() && tx == old(tx) + [ArpTx(BROADCAST, RequestBytes(eth.mac, ip, target))]
      ensures txbuf.Valid() && txbuf.data == ARP_FRAME_AT && txbuf.len == 60
      ensures txbuf.payload[..] == Splice(old(txbuf.payload[..]), ARP_FRAME_AT, RequestFrame(AsHost(), target))
    {
      Emit(BROADCAST, RequestBytes(eth.mac, ip, target));
    }

    /** arp_out. */
    method Out(buf: Buf, dst: Ip, now: nat)
      requires Valid() && now != 0 && clock <= now && buf.Valid() && Sendable(buf.View())
      requires buf != txbuf ==> buf.payload != txbuf.payload
      modifies this`tx, this`clock, pending, pending.slots`size, pending.slots`model, pending.slots.slots
      modifies pending.queues, pending.nodes, eth, txbuf, txbuf.payload, buf, buf.payload
      ensures Valid() && clock == now && buf.Valid()
      ensures View() == OutStep(old(View()), AsHost(), dst, old(buf.View()), now)
      ensures pending.Grew()
      ensures View().Resolved(dst, now) ==>
                var f := Frame(View().table.model[dst].value, eth.mac, PROTO_IP, old(buf.View()).bytes);
                && buf.data == old(buf.data) - ETH_HDR && buf.len == |f|
                && buf.payload[..] == Splice(old(buf.payload[..]), old(buf.data) - ETH_HDR, f)
      ensures !View().Resolved(dst, now) && (old(View()).Waiting(dst) || buf != txbuf) ==>
                buf.View() == old(buf.View()) && buf.payload[..] == old(buf.payload[..])
      ensures !View().Resolved(dst, now) && !old(View()).Waiting(dst) && buf == txbuf ==>
                && buf.data == ARP_FRAME_AT && buf.len == 60
                && buf.payload[..] == Splice(old(buf.payload[..]), ARP_FRAME_AT, RequestFrame(AsHost(), dst))
    {
      hide Frame, FrameOf, Splice, RequestFrame, RequestBytes, Valid, State.Valid, AllSendable, OutStep;
      TableKept(View(), dst, buf.View(), now);
      var mac := Lookup(dst, now);
      if mac.Some? {
        Transmit(buf, dst, mac.value, now);
      } else {
        var copy := buf.Copy();
        Enqueue(copy, dst, now);
      }
    }

    /** map_get on arp_table. */
    method Lookup(dst: Ip, now: nat) returns (mac: Option<Mac>)
      requires Valid() && clock <= now
      ensures mac == View().table.Get(dst, now)
    {
      hide Represents;
      Later(now);
      var slot := table.Get(dst, now);
      mac := if slot == -1 then None else Some(table.slots[slot].value);
    }

    /** The address is known: ethernet_out on the caller's own buffer. */
    method Transmit(buf: Buf, dst: Ip, mac: Mac, ghost now: nat)
      requires Valid() && clock <= now && buf.Valid() && Sendable(buf.View())
      requires View().Resolved(dst, now) && mac == View().table.model[dst].value
      modifies this`tx, this`clock, eth, buf, buf.payload
      ensures Valid() && clock == now && buf.Valid()
      ensures View() == OutStep(old(View()), AsHost(), dst, old(buf.View()), now)
      ensures var f := Frame(mac, eth.mac, PROTO_IP, old(buf.View()).bytes);
              && buf.data == old(buf.data) - ETH_HDR && buf.len == |f|
              && buf.payload[..] == Splice(old(buf.payload[..]), old(buf.data) - ETH_HDR, f)
    {
      hide Frame, State.Valid, Splice, SlotMap.Valid, Table.Valid;
      Later(now);
      SentValid(View(), IpTx(dst, mac, buf.View()));
      tx := tx + [IpTx(dst, mac, buf.View())];
      clock := now;
      eth.Out(buf, mac, PROTO_IP);
    }

    /** The address is not known: the copy waits, and the first one to wait sends a request through txbuf. */
    method Enqueue(copy: Window, dst: Ip, now: nat)
      requires Valid() && now != 0 && clock <= now && Sendable(copy) && !View().Resolved(dst, now)
      modifies this`tx, this`clock, pending, pending.slots`size, pending.slots`model, pending.slots.slots
      modifies pending.queues, pending.nodes, eth, txbuf, txbuf.payload
      ensures Valid() && clock == now && View() == OutStep(old(View()), AsHost(), dst, copy, now)
      ensures pending.Grew()
      ensures if old(View()).Waiting(dst)
              then && txbuf.data == old(txbuf.data) && txbuf.len == old(txbuf.len)
                   && txbuf.payload[..] == old(txbuf.payload[..])
              else && txbuf.Valid() && txbuf.data == ARP_FRAME_AT && txbuf.len == 60
                   && txbuf.payload[..] == Splice(old(txbuf.payload[..]), ARP_FRAME_AT, RequestFrame(AsHost(), dst))
    {
      hide SlotMap.Valid, Table.Valid, RequestBytes, RequestFrame, Logged, State.Valid, OutStep, AllSendable, Splice;
      ghost var s := View();
      OutKeeps(s, AsHost(), dst, copy, now);
      Later(now);
      clock := now;
      var started := pending.Append(dst, copy, now);
      if started {
        Request(dst);
      }
    }

    /** arp_in: a reply is recorded and drains the queue of its sender in push order; a request is recorded and
        answered. `buf` is only read, and is not the transmit buffer. */
    method In(buf: Buf, now: nat)
      requires Valid() && now != 0 && clock <= now && buf.Valid()
      modifies this`tx, this`clock, table`size, table`model, table.slots, eth, txbuf, txbuf.payload
      modifies pending, pending.slots`size, pending.slots`model, pending.slots.slots, pending.queues
      ensures Valid() && clock == now
      ensures View() == InStep(old(View()), AsHost(), Parse(old(buf.View()).bytes, ip, eth.mac), now)
      ensures match Parse(old(buf.View()).bytes, ip, eth.mac)
              case Request(from, mac) => AnswerLies(old(txbuf.payload[..]), from, mac)
              case _ => txbuf.data == old(txbuf.data) && txbuf.len == old(txbuf.len)
                        && txbuf.payload[..] == old(txbuf.payload[..])
    {
      hide Parse, RequestBytes, ReplyBytes, Burst, Valid;
      var p := buf.payload[buf.data..buf.data + buf.len];
      match Parse(p, ip, eth.mac)
      case Ignored => Tick(now);
      case Request(from, mac) =>
        Learn(from, mac, now);
        Answer(from, mac);
      case Reply(from, mac) =>
        Learn(from, mac, now);
        Flush(from, mac, now);
    }

    /** Time passes. */
    ghost method Tick(now: nat)
      requires Valid() && clock <= now
      modifies this`clock
      ensures Valid() && clock == now && View() == old(View())
    {
      hide SlotMap.Valid, Table.Valid;
      Later(now);
      clock := now;
    }

    /** map_set on arp_table, whose failure is ignored. */
    method Learn(from: Ip, mac: Mac, now: nat)
      requires Valid() && now != 0 && clock <= now
      modifies this`clock, table`size, table`model, table.slots
      ensures Valid() && clock == now
      ensures View() == old(View()).(table := old(View()).table.Set(from, mac, now))
    {
      hide Represents, Table.Valid;
      Later(now);
      clock := now;
      var _ := table.Set(from, mac, now);
    }

    /** txbuf holds the frame of an answer, in the place of the requests. */
    ghost predicate AnswerLies(m: seq<byte>, from: Ip, mac: Mac)
      reads txbuf, txbuf.payload
    {
      var f := Frame(mac, eth.mac, PROTO_ARP, ReplyBytes(eth.mac, ip, mac, from));
      && |m| == BUF_MAX_LEN && |f| == 60 && txbuf.Valid() && txbuf.data == ARP_FRAME_AT && txbuf.len == 60
      && txbuf.payload[..] == Splice(m, ARP_FRAME_AT, f)
    }

    /** arp_resp. */
    method Answer(from: Ip, mac: Mac)
      requires Valid()
      modifies this`tx, eth, txbuf, txbuf.payload
      ensures Valid() && View() == old(View()).(tx := old(tx) + [ArpTx(mac, ReplyBytes(eth.mac, ip, mac, from))])
      ensures AnswerLies(old(txbuf.payload[..]), from, mac)
    {
      hide SlotMap.Valid, Table.Valid, ReplyBytes, Logged;
      Emit(mac, ReplyBytes(eth.mac, ip, mac, from));
    }

    /** The drain in arp_in: the loop, then the entry goes. */
    method Flush(from: Ip, mac: Mac, now: nat)
      requires Valid() && now != 0 && clock == now
      modifies this`tx, pending, pending.slots`size, pending.slots`model, pending.slots.slots, pending.queues, eth
      ensures Valid()
      ensures var p := old(View()).pending;
              if p.Has(from, now)
              then p.size > 0 && View() == old(View()).(pending := p.Delete(from, now),
                                                        tx := old(tx) + Burst(from, mac, p.model[from].value))
              else View() == old(View())
    {
      hide Burst, SlotMap.Valid, Table.Valid, Logged, Queue.Valid, Queue.Contents, State.Valid, AllSendable;
      hide Table.Others;
      ghost var s := View();
      var q := pending.Find(from, now);
      if q != null {
        pending.OthersToo(from, now);
        AllWaiting(s.pending.model, from);
        SendAll(q, from, mac, q.Contents(), now);
        pending.Forget(q, from, now);
        DeleteKeeps(s, View(), from, now);
      }
    }

    /** The loop of arp_in: pop and send until the queue is empty. */
    method SendAll(q: Queue<Window>, from: Ip, mac: Mac, ghost all: seq<Window>, ghost now: nat)
      requires pending.Others(from, now) && q == pending.slots.model[from].value && q in pending.queues && q.Valid()
      requires q.Contents() == all && (forall i :: 0 <= i < |all| ==> Sendable(all[i])) && Logged()
      modifies this`tx, pending.queues, eth
      ensures pending.Others(from, now) && q.Valid() && q.Contents() == [] && Logged()
      ensures tx == old(tx) + Burst(from, mac, all)
    {
      hide Logged, Table.Others, Queue.Valid, Queue.Contents, Sendable;
      ghost var n := 0;
      var node := pending.PopFrom(q, from, now);
      while node != null
        invariant pending.Others(from, now) && q.Valid() && Logged()
        invariant n <= |all| && tx == old(tx) + Burst(from, mac, all)[..n]
        invariant if node == null then n == |all| && q.Contents() == []
                  else n < |all| && node.item == all[n] && q.Contents() == all[n + 1..]
        decreases |all| - n, node
      {
        SendCopy(node.item, from, mac);
        n := n + 1;
        node := pending.PopFrom(q, from, now);
      }
    }

    /** ethernet_out on a queued copy: the array is its own, so only the wire shows the effect. */
    method SendCopy(w: Window, ghost from: Ip, mac: Mac)
      requires Sendable(w) && Logged()
      modifies this`tx, eth
      ensures Logged() && tx == old(tx) + [IpTx(from, mac, w)]
    {
      hide Frame, Splice;
      var copy := new Buf();
      copy.data, copy.len := w.data, |w.bytes|;
      SpliceIndex(copy.payload[..], w.data, w.bytes);
      copy.Store(w.data, w.bytes);
      assert copy.View().bytes == copy.payload[..][w.data..w.data + |w.bytes|] == w.bytes;
      eth.Out(copy, mac, PROTO_IP);
      tx := tx + [IpTx(from, mac, w)];
    }
  }

  /** The log of frames says nothing about the tables. */
  lemma SentValid(s: State, t: Tx)
    requires s.Valid()
    ensures s.(tx := s.tx + [t]).Valid()
  {
  }
}
