/** What each message and each packet does to a host, in the terms of the wire and of the address table's readers. */
module ArpLaws {
  import opened Words
  import opened Buffer
  import opened Ethernet
  import opened SlotMap
  import opened ArpProtocol

  // ----- messages, byte by byte

  /** A request as RFC 826 lays it out, for Ethernet and IPv4, padded to the shortest frame. */
  lemma RequestLayout(mac: Mac, ip: Ip, target: Ip)
    ensures RequestBytes(mac, ip, target) ==
            [0, 1, 8, 0, 6, 4, 0, 1] + mac + ip + [0, 0, 0, 0, 0, 0] + target
            + [0, 0, 0, 0, 0, 0, 0, 0, 0, 0, 0, 0, 0, 0, 0, 0, 0, 0]
  {
  }

  lemma ReplyLayout(mac: Mac, ip: Ip, targetMac: Mac, targetIp: Ip)
    ensures ReplyBytes(mac, ip, targetMac, targetIp) ==
            [0, 1, 8, 0, 6, 4, 0, 2] + mac + ip + targetMac + targetIp
            + [0, 0, 0, 0, 0, 0, 0, 0, 0, 0, 0, 0, 0, 0, 0, 0, 0, 0]
  {
  }

  /** The tests of arp_in; the hardware type is not one of them. */
  predicate ForIpv4(p: seq<byte>) {
    |p| >= 28 && p[2..6] == [8, 0, 6, 4]
  }

  /** A packet counts as a reply exactly if it is one to this host's two addresses, and as a request exactly if it asks
      for this host's IP address, whatever the target hardware address. */
  lemma ParseIff(p: seq<byte>, ip: Ip, mac: Mac)
    ensures Parse(p, ip, mac).Reply? <==>
            ForIpv4(p) && p[6..8] == [0, 2] && p[18..24] == mac && p[24..28] == ip
    ensures Parse(p, ip, mac).Request? <==> ForIpv4(p) && p[6..8] == [0, 1] && p[24..28] == ip
    ensures !Parse(p, ip, mac).Ignored? ==> Parse(p, ip, mac).ip == p[14..18] && Parse(p, ip, mac).mac == p[8..14]
  {
    if |p| >= 28 {
      assert p[2..6] == [p[2], p[3], p[4], p[5]] && p[6..8] == [p[6], p[7]];
    }
  }

  /** A logged packet goes out in an IP frame to its address, a logged message in an ARP frame to its own. */
  lemma FramesLayout(ip: Ip, mac: Mac, p: Window, message: seq<byte>, from: Mac)
    ensures var f := FrameOf(IpTx(ip, mac, p), from);
            f[..6] == mac && f[6..12] == from && f[12..14] == [8, 0] && f[14..14 + |p.bytes|] == p.bytes
    ensures var f := FrameOf(ArpTx(mac, message), from);
            f[..6] == mac && f[6..12] == from && f[12..14] == [8, 6] && f[14..14 + |message|] == message
  {
    hide Frame;
    FrameLayout(mac, from, PROTO_IP, p.bytes);
    FrameLayout(mac, from, PROTO_ARP, message);
  }

  // ----- what a message does

  /** The table answers `mac` for `ip` at this time. */
  predicate Knows(s: State, ip: Ip, mac: Mac, now: nat) {
    s.table.Get(ip, now) == Some(mac)
  }

  /** A request or a reply binds the sender's address, for 300 seconds, if the table has room or knows it already;
      otherwise the table stays. What is known about any other address stays in every case. */
  lemma Learns(s: State, h: Host, m: Msg, now: nat)
    requires s.Valid() && now != 0 && !m.Ignored? && s.table.timeout == ARP_TIMEOUT
    ensures var t := InStep(s, h, m, now);
            && (s.table.size != s.table.max || s.Resolved(m.ip, now) ==>
                  && Knows(t, m.ip, m.mac, now)
                  && forall later: nat :: later >= now ==> (Knows(t, m.ip, m.mac, later) <==> later <= now + 300))
            && (s.table.size == s.table.max && !s.Resolved(m.ip, now) ==> t.table == s.table && !t.Resolved(m.ip, now))
            && (forall d: Ip, later: nat :: d != m.ip ==> t.table.Get(d, later) == s.table.Get(d, later))
            && t.table.timeout == ARP_TIMEOUT
  {
    hide ReplyBytes, Burst;
  }

  /** A host that has learnt the address sends the next packet at once, to that address, without asking. */
  lemma NextGoesOut(s: State, h: Host, m: Msg, p: Window, now: nat)
    requires s.Valid() && now != 0 && !m.Ignored?
    requires s.table.size != s.table.max || s.Resolved(m.ip, now)
    ensures var t := InStep(s, h, m, now);
            var u := OutStep(t, h, m.ip, p, now);
            u.tx == t.tx + [IpTx(m.ip, m.mac, p)] && u.pending == t.pending && u.table == t.table
  {
    hide ReplyBytes, Burst;
  }

  /** A reply sends what waits for its sender, in order and to its address, and nothing waits any more; no other queue
      changes, and no message goes out. */
  lemma ReplySends(s: State, h: Host, ip: Ip, mac: Mac, now: nat)
    requires s.Valid() && now != 0
    ensures var t, q := InStep(s, h, Reply(ip, mac), now), s.QueueFor(ip);
            && |t.tx| == |s.tx| + |q| && t.tx[..|s.tx|] == s.tx
            && (forall k :: 0 <= k < |q| ==> t.tx[|s.tx| + k] == IpTx(ip, mac, q[k]))
            && t.QueueFor(ip) == [] && forall d: Ip :: d != ip ==> t.QueueFor(d) == s.QueueFor(d)
  {
  }

  /** A request is answered with one message to its sender, who reads it as this host's addresses; every queue stays,
      also the sender's own. */
  lemma RequestAnswered(s: State, h: Host, ip: Ip, mac: Mac, now: nat)
    requires s.Valid() && now != 0
    ensures var t := InStep(s, h, Request(ip, mac), now);
            && |t.tx| == |s.tx| + 1 && t.tx[..|s.tx|] == s.tx && t.pending == s.pending
            && var answer := t.tx[|s.tx|];
               && answer.ArpTx? && answer.mac == mac
               && Parse(Pad(answer.message), ip, mac) == Reply(h.ip, h.mac)
  {
    hide Parse, ReplyBytes, RequestBytes, Pad;
    Handshake(mac, ip, h.mac, h.ip, ip, mac);
  }

  lemma IgnoredStays(s: State, h: Host, now: nat)
    requires s.Valid()
    ensures InStep(s, h, Ignored, now) == s
  {
  }

  // ----- what a packet does

  /** The first packet for an unknown address asks everybody, and only the owner of the address reads the question as
      one for it. */
  lemma AsksOwner(s: State, h: Host, ip: Ip, p: Window, now: nat, other: Ip, otherMac: Mac)
    requires s.Valid() && now != 0 && !s.Resolved(ip, now) && !s.Waiting(ip)
    ensures var t := OutStep(s, h, ip, p, now);
            && |t.tx| == |s.tx| + 1 && t.tx[..|s.tx|] == s.tx && t.table == s.table
            && var question := t.tx[|s.tx|];
               && question.ArpTx? && question.mac == [255, 255, 255, 255, 255, 255]
               && Parse(Pad(question.message), other, otherMac) ==
                  if other == ip then Request(h.ip, h.mac) else Ignored
  {
    hide Parse, ReplyBytes, RequestBytes, Pad;
    Handshake(h.mac, h.ip, [0, 0, 0, 0, 0, 0], ip, other, otherMac);
  }

  /** A packet for a known address goes out as one frame to it, and nothing else changes. */
  lemma SendsAtOnce(s: State, h: Host, ip: Ip, mac: Mac, p: Window, now: nat)
    requires Knows(s, ip, mac, now)
    ensures OutStep(s, h, ip, p, now) == s.(tx := s.tx + [IpTx(ip, mac, p)])
  {
  }

  /** Every host begins by announcing itself, and with nothing in its tables. */
  lemma StartsWithAnnouncement(max: nat, tableMax: nat, h: Host, other: Ip, otherMac: Mac)
    ensures var s := Initial(max, tableMax, h);
            && |s.tx| == 1 && s.tx[0].ArpTx? && s.tx[0].mac == [255, 255, 255, 255, 255, 255]
            && Parse(Pad(s.tx[0].message), other, otherMac) == (if other == h.ip then Request(h.ip, h.mac) else Ignored)
            && (forall ip: Ip, now: nat :: !s.Resolved(ip, now) && !s.Waiting(ip))
            && s.table.timeout == 300 && s.pending.timeout == 0
  {
    hide Parse, ReplyBytes, RequestBytes, Pad;
    Handshake(h.mac, h.ip, [0, 0, 0, 0, 0, 0], h.ip, other, otherMac);
  }
}
