/** The connection table and the buffer heap over whole runs: who owns which buffer, under which key an entry stands,
    and that every connection keeps its streams and callbacks in order. */
module TcpOwnership {
  import opened Words
  import opened Ethernet
  import opened TcpWire
  import opened Tcp
  import opened TcpStreams

  // ----- the invariant

  /** A slot: LISTEN entries own nothing; any other entry stands under its own key, owns two allocated buffers, and is
      in order. */
  ghost predicate SlotInv(e: Env, k: Key, c: Conn) {
    && c.ip == k.ip
    && (c.state == LISTEN ==> KeyOf(c) == k || KeyOf(c) == Key(k.ip, 0, 0))
    && (c.state != LISTEN ==>
          && KeyOf(c) == k && Owns(e, c) && c.rxBuf % 2 == 0 && c.txBuf == c.rxBuf + 1
          && LinkInv(Load(e, c)))
  }

  /** What is known of every incarnation, also after its end. */
  ghost predicate HistOk(h: Hist) {
    Orderly(h.calls) && !Spills(h.arrived)
  }

  /** malloc never returns an address twice; each address is allocated, or was freed, exactly once. */
  ghost predicate HeapInv(e: Env) {
    && e.brk % 2 == 0
    && (forall p :: p in e.heap || p in e.freed <==> 0 <= p < e.brk)
    && (forall i :: 0 <= i < |e.freed| ==> e.freed[i] !in e.heap)
    && (forall i, j :: 0 <= i < j < |e.freed| ==> e.freed[i] != e.freed[j])
    && (forall id <- e.hist :: id < e.brk && HistOk(e.hist[id]))
  }

  ghost predicate Inv(s: State) {
    && HeapInv(s.env)
    && (forall k <- s.conns :: SlotInv(s.env, k, s.conns[k]))
    && (forall j, k ::
          j in s.conns && k in s.conns && j != k && s.conns[j].state != LISTEN && s.conns[k].state != LISTEN ==>
          s.conns[j].rxBuf != s.conns[k].rxBuf)
    && s.stop != Panic
  }

  lemma InvUsable(s: State)
    requires Inv(s)
    ensures Usable(s)
  {
    forall k | k in s.conns && s.conns[k].state != LISTEN
      ensures Owns(s.env, s.conns[k])
    {
      assert SlotInv(s.env, k, s.conns[k]);
    }
  }

  /** Some connection out of LISTEN holds the buffer at `p`. */
  ghost predicate Held(s: State, p: nat) {
    exists k :: HeldAt(s, p, k)
  }

  ghost predicate HeldAt(s: State, p: nat, k: Key) {
    k in s.conns && s.conns[k].state != LISTEN && (p == s.conns[k].rxBuf || p == s.conns[k].txBuf)
  }

  /** An allocated buffer that nobody holds any more: it can never be freed. */
  ghost predicate Stray(s: State, p: nat) {
    p in s.env.heap && !Held(s, p)
  }

  ghost predicate SameStrays(s: State, s': State) {
    forall p: nat :: Stray(s', p) <==> Stray(s, p)
  }

  // ----- how the table and the heap can change

  /** Deleting entries without freeing anything disturbs nobody else; neither does sending a RST. */
  lemma ShrinkKeeps(s: State, s': State)
    requires Inv(s) && s'.stop != Panic
    requires s'.env == s.env.(resets := s'.env.resets)
    requires forall k <- s'.conns :: k in s.conns && s'.conns[k] == s.conns[k]
    ensures Inv(s')
    ensures (forall k <- s.conns :: s.conns[k].state != LISTEN ==> k in s'.conns) ==> SameStrays(s, s')
  {
    hide LinkInv;
    if forall k <- s.conns :: s.conns[k].state != LISTEN ==> k in s'.conns {
      forall p: nat
        ensures Held(s', p) <==> Held(s, p)
      {
        if k :| HeldAt(s', p, k) {
          assert HeldAt(s, p, k);
        }
        if Held(s, p) {
          var k :| HeldAt(s, p, k);
          assert HeldAt(s', p, k);
        }
      }
    }
    forall k | k in s'.conns
      ensures SlotInv(s'.env, k, s'.conns[k])
    {
      assert SlotInv(s.env, k, s.conns[k]);
    }
  }

  /** An entry in LISTEN may be put where there is none, or only one in LISTEN. */
  lemma ListenKeeps(s: State, k: Key, c: Conn)
    requires Inv(s) && c.state == LISTEN && SlotInv(s.env, k, c)
    requires k in s.conns ==> s.conns[k].state == LISTEN
    ensures Inv(s.(conns := s.conns[k := c])) && SameStrays(s, s.(conns := s.conns[k := c]))
  {
    hide LinkInv;
    HeldElsewhere(s, s.(conns := s.conns[k := c]), k);
  }

  /** Who holds what outside slot `k` does not depend on slot `k`. */
  lemma HeldElsewhere(s: State, s': State, k: Key)
    requires forall j :: j != k ==> (j in s'.conns <==> j in s.conns) && (j in s.conns ==> s'.conns[j] == s.conns[j])
    ensures forall p: nat :: HeldBut(s', p, k) <==> HeldBut(s, p, k)
    ensures forall p: nat :: Held(s, p) <==> HeldBut(s, p, k) || HeldAt(s, p, k)
    ensures forall p: nat :: Held(s', p) <==> HeldBut(s', p, k) || HeldAt(s', p, k)
  {
    forall p: nat
      ensures HeldBut(s', p, k) <==> HeldBut(s, p, k)
    {
      if j :| j != k && HeldAt(s', p, j) {
        assert HeldAt(s, p, j);
      }
      if j :| j != k && HeldAt(s, p, j) {
        assert HeldAt(s', p, j);
      }
    }
  }

  ghost predicate HeldBut(s: State, p: nat, k: Key) {
    exists j :: j != k && HeldAt(s, p, j)
  }

  /** The struct changed, but not its owner's identity. */
  predicate SameOwner(a: Conn, b: Conn) {
    a.rxBuf == b.rxBuf && a.txBuf == b.txBuf && KeyOf(a) == KeyOf(b)
  }

  lemma InOrder(l: Link)
    requires LinkInv(l)
    ensures l.c.state != LISTEN && HistOk(l.h)
  {
  }

  lemma SaveLoad(e: Env, c: Conn)
    requires Owns(e, c)
    ensures Save(e, Load(e, c)) == e
  {
  }

  /** Buffers of different owners are different buffers. */
  lemma Apart(s: State, j: Key, k: Key)
    requires Inv(s) && j in s.conns && k in s.conns && j != k
    requires s.conns[j].state != LISTEN && s.conns[k].state != LISTEN
    ensures var a, b := s.conns[j], s.conns[k];
            a.rxBuf != b.rxBuf && a.rxBuf != b.txBuf && a.txBuf != b.rxBuf && a.txBuf != b.txBuf
  {
    hide LinkInv;
    assert SlotInv(s.env, j, s.conns[j]) && SlotInv(s.env, k, s.conns[k]);
  }

  /** An operation on one connection that keeps it in order keeps the whole machine in order. */
  lemma UpdateKeeps(s: State, k: Key, l: Link)
    requires Inv(s) && k in s.conns && s.conns[k].state != LISTEN
    requires SameOwner(s.conns[k], l.c) && LinkInv(l)
    ensures Inv(Update(s, k, l)) && SameStrays(s, Update(s, k, l))
  {
    hide LinkInv, HistOk, HeapInv;
    InOrder(l);
    var s' := Update(s, k, l);
    HeldElsewhere(s, s', k);
    assert SlotInv(s.env, k, s.conns[k]);
    assert Load(s'.env, l.c) == l;
    assert SlotInv(s'.env, k, l.c);
    forall j | j in s'.conns && j != k
      ensures SlotInv(s'.env, j, s'.conns[j])
    {
      assert SlotInv(s.env, j, s.conns[j]);
      if s.conns[j].state != LISTEN {
        Apart(s, j, k);
        assert Load(s'.env, s.conns[j]) == Load(s.env, s.conns[j]);
      }
    }
    SaveHeap(s.env, l);
  }

  /** Writing into a connection's buffers and history allocates and frees nothing. */
  lemma SaveHeap(e: Env, l: Link)
    requires HeapInv(e) && Owns(e, l.c) && HistOk(l.h)
    ensures HeapInv(Save(e, l))
  {
    hide HistOk;
    assert Save(e, l).heap.Keys == e.heap.Keys && Save(e, l).hist.Keys == e.hist.Keys;
  }

  lemma FreeTwo(e: Env, p: nat, q: nat)
    requires HeapInv(e) && p in e.heap && q in e.heap && p != q
    ensures HeapInv(Free(Free(e, p), q))
  {
    hide HistOk;
    var e' := Free(Free(e, p), q);
    assert e'.freed == e.freed + [p] + [q];
    forall x
      ensures x in e'.heap || x in e'.freed <==> 0 <= x < e'.brk
    {
      assert x in e.heap || x in e.freed <==> 0 <= x < e.brk;
      assert x in e'.freed <==> x in e.freed || x == p || x == q;
    }
  }

  /** After an operation, release: the two buffers are freed, the entry goes to LISTEN, nobody else is disturbed. */
  lemma ReleaseKeeps(s: State, k: Key, l: Link)
    requires Inv(s) && k in s.conns && s.conns[k].state != LISTEN
    requires SameOwner(s.conns[k], l.c) && l.c.state != LISTEN && HistOk(l.h)
    ensures var s' := s.(env := Release(Save(s.env, l), l.c), conns := s.conns[k := l.c.(state := LISTEN)]);
            Inv(s') && SameStrays(s, s')
  {
    hide LinkInv, HistOk;
    var c := s.conns[k];
    assert SlotInv(s.env, k, c);
    var e := Save(s.env, l);
    SaveHeap(s.env, l);
    FreeTwo(e, c.rxBuf, c.txBuf);
    var s' := s.(env := Release(e, l.c), conns := s.conns[k := l.c.(state := LISTEN)]);
    HeldElsewhere(s, s', k);
    forall p: nat
      ensures Stray(s', p) <==> Stray(s, p)
    {
      if j :| j != k && HeldAt(s, p, j) {
        Apart(s, j, k);
      }
    }
    forall j | j in s'.conns
      ensures SlotInv(s'.env, j, s'.conns[j])
    {
      assert SlotInv(s.env, j, s.conns[j]);
      if j != k && s.conns[j].state != LISTEN {
        Apart(s, j, k);
        assert Load(s'.env, s.conns[j]) == Load(s.env, s.conns[j]);
      }
    }
  }

  /** Release without an operation before it. */
  lemma ReleaseOnlyKeeps(s: State, k: Key)
    requires Inv(s) && k in s.conns
    ensures var c := s.conns[k];
            var s' := s.(env := Release(s.env, c), conns := s.conns[k := c.(state := LISTEN)]);
            Inv(s') && SameStrays(s, s')
  {
    hide LinkInv, Release, Save;
    var c := s.conns[k];
    assert SlotInv(s.env, k, c);
    if c.state == LISTEN {
      assert s.conns[k := c] == s.conns && Release(s.env, c) == s.env by { ReleaseListen(s.env, c); }
      assert s.(env := s.env, conns := s.conns) == s;
    } else {
      SaveLoad(s.env, c);
      assert HistOk(s.env.hist[c.rxBuf]);
      ReleaseKeeps(s, k, Load(s.env, c));
    }
  }

  lemma ReleaseListen(e: Env, c: Conn)
    requires c.state == LISTEN
    ensures Release(e, c) == e
  {
  }

  /** A SYN allocates two new buffers for an entry in LISTEN. */
  lemma OpenInv(s: State, k: Key, g: Segment, chance: Chance)
    requires Inv(s) && (k in s.conns ==> s.conns[k].state == LISTEN)
    ensures Inv(Open(s, k, g, chance)) && SameStrays(s, Open(s, k, g, chance))
  {
    hide LinkInv, Save, Send, Add32, NewBlock, NewHist;
    var p := s.env.brk;
    var iss := chance.iss;
    var c := Conn(SYN_RCVD, k.dstPort, k.srcPort, k.ip, iss, iss, Add32(g.seqNo, 1), g.window, p, p + 1);
    var l := Link(c, NewBlock(chance.rxJunk), NewBlock(chance.txJunk), NewHist(iss, g.seqNo));
    OpenKeeps(c, chance, g.seqNo);
    SynOwner(l);
    InOrder(Send(l, [], ACK_SYN));
    OpenFrame(s, k, Send(l, [], ACK_SYN), p);
  }

  lemma SynOwner(l: Link)
    ensures var m := Send(l, [], ACK_SYN);
            SameOwner(l.c, m.c) && m.c.state == l.c.state && m.c.ip == l.c.ip
  {
  }

  lemma OpenFrame(s: State, k: Key, l: Link, p: nat)
    requires Inv(s) && (k in s.conns ==> s.conns[k].state == LISTEN) && p == s.env.brk
    requires l.c.rxBuf == p && l.c.txBuf == p + 1 && KeyOf(l.c) == k && l.c.ip == k.ip && l.c.state != LISTEN
    requires LinkInv(l) && HistOk(l.h)
    ensures var s' := s.(env := Save(s.env.(brk := p + 2), l), conns := s.conns[k := l.c]);
            Inv(s') && SameStrays(s, s')
  {
    hide LinkInv, HistOk, HeapInv;
    var s' := s.(env := Save(s.env.(brk := p + 2), l), conns := s.conns[k := l.c]);
    HeldElsewhere(s, s', k);
    assert p !in s.env.heap && p + 1 !in s.env.heap && p % 2 == 0 by { BeyondHeap(s.env); }
    assert Load(s'.env, l.c) == l;
    forall j | j in s'.conns
      ensures SlotInv(s'.env, j, s'.conns[j])
      ensures j != k && s'.conns[j].state != LISTEN ==> s'.conns[j].rxBuf != p
    {
      if j != k {
        assert SlotInv(s.env, j, s.conns[j]);
        if s.conns[j].state != LISTEN {
          assert s.conns[j].rxBuf in s.env.heap && s.conns[j].txBuf in s.env.heap;
          assert Load(s'.env, s.conns[j]) == Load(s.env, s.conns[j]);
        }
      }
    }
    OpenHeap(s.env, l);
  }

  lemma BeyondHeap(e: Env)
    requires HeapInv(e)
    ensures forall p :: p >= e.brk ==> p !in e.heap && p !in e.freed
    ensures e.brk % 2 == 0
  {
  }

  /** Two buffers are allocated where none were. */
  lemma OpenHeap(e: Env, l: Link)
    requires HeapInv(e) && l.c.rxBuf == e.brk && l.c.txBuf == e.brk + 1 && HistOk(l.h)
    ensures HeapInv(Save(e.(brk := e.brk + 2), l))
  {
    hide HistOk;
    var e' := Save(e.(brk := e.brk + 2), l);
    BeyondHeap(e);
    forall x
      ensures x in e'.heap || x in e'.freed <==> 0 <= x < e'.brk
    {
      assert x in e.heap || x in e.freed <==> 0 <= x < e.brk;
    }
    forall i | 0 <= i < |e'.freed|
      ensures e'.freed[i] !in e'.heap
    {
      assert e.freed[i] in e.freed;
    }
  }

  // ----- every step keeps the invariant

  /** tcp_connect_close on the LISTEN struct in slot `k` builds a key that is not its own, and under that key stands an
      open connection: its entry is deleted and its buffers are not freed. */
  predicate Strands(s: State, k: Key) {
    && k in s.conns && s.conns[k].state == LISTEN
    && KeyOf(s.conns[k]) != k && KeyOf(s.conns[k]) in s.conns && s.conns[KeyOf(s.conns[k])].state != LISTEN
  }

  /** tcp_connect_close on the entry in slot `k`. */
  lemma CloseInv(s: State, k: Key)
    requires Inv(s) && k in s.conns && s.stop == Running
    requires s.conns[k].state == ESTABLISHED ==> Owns(s.env, s.conns[k])
    ensures var r := Close(s, k, s.conns[k]);
            && Inv(r.0) && r.0.stop in {Running, Overread(s.conns[k].rxBuf)}
            && (r.0.stop != Running ==> r.0 == s.(stop := r.0.stop) && s.conns[k].state == ESTABLISHED)
            && (r.0.stop == Running && s.conns[k].state == ESTABLISHED ==>
                  k in r.0.conns && r.0.conns[k] == r.1 && r.1.state == FIN_WAIT_1)
            && (s.conns[k].state !in {ESTABLISHED, LISTEN} ==> k !in r.0.conns && r.1.state == LISTEN)
            && (if Strands(s, k) then forall p: nat :: Stray(r.0, p) <==> Stray(s, p) || HeldAt(s, p, KeyOf(s.conns[k]))
                else SameStrays(s, r.0))
  {
    hide Inv, Stray, SameStrays, Strands, Close;
    assert SlotInv(s.env, k, s.conns[k]) by { SlotsInv(s, k); }
    if s.conns[k].state == ESTABLISHED {
      CloseEstablishedInv(s, k);
      NotStranding(s, k);
    } else {
      CloseOtherInv(s, k);
    }
  }

  lemma SlotsInv(s: State, k: Key)
    requires Inv(s) && k in s.conns
    ensures SlotInv(s.env, k, s.conns[k])
  {
  }

  lemma NotStranding(s: State, k: Key)
    ensures Strands(s, k) ==> k in s.conns && s.conns[k].state == LISTEN
  {
  }

  /** Stopping changes neither the table nor the heap. */
  lemma StopKeeps(s: State, stop: Stop)
    requires Inv(s) && stop != Panic
    ensures Inv(s.(stop := stop)) && SameStrays(s, s.(stop := stop))
  {
    hide SlotInv, HeapInv;
    SamePorts(s, s.(stop := stop));
  }

  lemma CloseEstablishedInv(s: State, k: Key)
    requires Inv(s) && k in s.conns && s.conns[k].state == ESTABLISHED && Owns(s.env, s.conns[k]) && s.stop == Running
    ensures var r := Close(s, k, s.conns[k]);
            && Inv(r.0) && SameStrays(s, r.0) && r.0.stop in {Running, Overread(s.conns[k].rxBuf)}
            && (r.0.stop != Running ==> r.0 == s.(stop := r.0.stop))
            && (r.0.stop == Running ==> k in r.0.conns && r.0.conns[k] == r.1 && r.1.state == FIN_WAIT_1)
  {
    hide LinkInv, Inv, Flush, Save, Load, SameStrays, Owns, Overreads;
    SlotsInv(s, k);
    var c := s.conns[k];
    LoadConn(s.env, c);
    if Overreads(Load(s.env, c)) {
      StopKeeps(s, Overread(c.rxBuf));
    } else {
      CloseKeeps(Load(s.env, c));
      FlushOwner(Load(s.env, c), ACK_FIN);
      var l := Flush(Load(s.env, c), ACK_FIN);
      var l' := l.(c := l.c.(state := FIN_WAIT_1));
      UpdateKeeps(s, k, l');
      SaveIgnoresConn(s.env, l, l');
    }
  }

  /** The key whose entry tcp_connect_close deletes is deleted; if it was another connection's, its buffers are
      stray. */
  lemma DeleteOther(s: State, v: Key)
    requires Inv(s) && v in s.conns
    ensures var s' := s.(conns := s.conns - {v});
            && Inv(s') && (s.conns[v].state == LISTEN ==> SameStrays(s, s'))
            && (s.conns[v].state != LISTEN ==> forall p: nat :: Stray(s', p) <==> Stray(s, p) || HeldAt(s, p, v))
  {
    hide LinkInv, HeapInv, HistOk;
    var s' := s.(conns := s.conns - {v});
    ShrinkKeeps(s, s');
    if s.conns[v].state != LISTEN {
      SlotsInv(s, v);
      HeldElsewhere(s, s', v);
      forall p: nat
        ensures HeldBut(s, p, v) && HeldAt(s, p, v) ==> false
      {
        if j :| j != v && HeldAt(s, p, j) {
          Apart(s, j, v);
        }
      }
    }
  }

  lemma CloseOtherInv(s: State, k: Key)
    requires Inv(s) && k in s.conns && s.conns[k].state != ESTABLISHED
    ensures var r := Close(s, k, s.conns[k]);
            && Inv(r.0) && r.0.stop == s.stop && r.1.state == LISTEN
            && (s.conns[k].state != LISTEN ==> k !in r.0.conns)
            && (if Strands(s, k) then forall p: nat :: Stray(r.0, p) <==> Stray(s, p) || HeldAt(s, p, KeyOf(s.conns[k]))
                else SameStrays(s, r.0))
  {
    hide LinkInv, HeapInv, Release, Inv, Stray, HeldAt;
    assert SlotInv(s.env, k, s.conns[k]) by { SlotsInv(s, k); }
    var c := s.conns[k];
    var v := KeyOf(c);
    var t := s.(env := Release(s.env, c), conns := s.conns[k := c.(state := LISTEN)]);
    ReleaseOnlyKeeps(s, k);
    if v in t.conns {
      DeleteOther(t, v);
    } else {
      assert t.conns - {v} == t.conns;
    }
    if c.state == LISTEN {
      ReleaseListen(s.env, c);
      assert t == s by { assert s.conns[k := c] == s.conns; }
    }
  }

  lemma FlushOwner(l: Link, flags: Flags)
    ensures SameOwner(l.c, Flush(l, flags).c) && Flush(l, flags).c.state == l.c.state
  {
  }

  lemma LoadConn(e: Env, c: Conn)
    requires Owns(e, c)
    ensures Load(e, c).c == c
  {
  }

  /** Save looks at the addresses and the peer, not at the rest of the struct. */
  lemma SaveIgnoresConn(e: Env, l: Link, l': Link)
    requires l' == l.(c := l'.c) && l'.c.rxBuf == l.c.rxBuf && l'.c.txBuf == l.c.txBuf && l'.c.ip == l.c.ip
    ensures Save(e, l') == Save(e, l)
  {
  }

  /** An operation and then tcp_connect_close in a state other than ESTABLISHED: the connection is gone. */
  lemma OperateAndCloseInv(s: State, k: Key, l: Link)
    requires Inv(s) && k in s.conns && s.conns[k].state != LISTEN
    requires SameOwner(s.conns[k], l.c) && l.c.state !in {LISTEN, ESTABLISHED} && HistOk(l.h)
    ensures var r := Close(Update(s, k, l), k, l.c).0; Inv(r) && SameStrays(s, r)
  {
    hide LinkInv, Release, Save;
    assert SlotInv(s.env, k, s.conns[k]);
    ReleaseKeeps(s, k, l);
    var t := s.(env := Release(Save(s.env, l), l.c), conns := s.conns[k := l.c.(state := LISTEN)]);
    var r := Close(Update(s, k, l), k, l.c).0;
    assert Update(s, k, l).conns[k := l.c.(state := LISTEN)] == t.conns;
    ShrinkKeeps(t, t.(conns := t.conns - {KeyOf(l.c)}));
  }

  lemma ReleaseResets(e: Env, c: Conn, w: seq<Outgoing>)
    ensures Release(e.(resets := w), c) == Release(e, c).(resets := w)
  {
  }

  /** The RST answer: the entry under the segment's key goes, and its buffers with it if it still had any. */
  lemma ResetInv(s: State, k: Key, c: Conn, gotSeq: u32)
    requires Inv(s)
    requires if k in s.conns then s.conns[k] == c else c.state == LISTEN
    ensures Inv(Reset(s, k, c, gotSeq)) && SameStrays(s, Reset(s, k, c, gotSeq))
  {
    hide LinkInv, Release;
    var r := Reset(s, k, c, gotSeq);
    var g := Segment(c.localPort, c.remotePort, 0, Add32(gotSeq, 1), ACK_RST, c.remoteWin, []);
    var w := s.env.resets + [Outgoing(c.ip, g)];
    ReleaseResets(s.env, c, w);
    if k in s.conns {
      ReleaseOnlyKeeps(s, k);
      ShrinkKeeps(s.(env := Release(s.env, c), conns := s.conns[k := c.(state := LISTEN)]), r);
    } else {
      ReleaseListen(s.env, c);
      ShrinkKeeps(s, r);
    }
  }

  lemma ConnectedInv(s: State, k: Key, script: seq<Op>)
    requires Inv(s) && k in s.conns && s.conns[k].state == SYN_RCVD && Owns(s.env, s.conns[k])
    ensures var l := Load(s.env, s.conns[k]);
            var s' := Update(s, k, Callback(l.(c := l.c.(unackSeq := Add32(l.c.unackSeq, 1), state := ESTABLISHED)),
                                            CONNECTED, script));
            Inv(s') && SameStrays(s, s')
  {
    hide LinkInv, Add32, Update;
    assert SlotInv(s.env, k, s.conns[k]);
    var l := Load(s.env, s.conns[k]);
    ConnectedKeeps(l, script);
    UpdateKeeps(s, k,
        Callback(l.(c := l.c.(unackSeq := Add32(l.c.unackSeq, 1), state := ESTABLISHED)), CONNECTED, script));
  }

  lemma EstablishedOwner(l: Link, g: Segment, script: seq<Op>)
    ensures SameOwner(l.c, Established(l, g, script).c)
  {
    hide Add32, Sub32, WriteBytes, WriteSize, RunScript;
  }

  lemma EstablishedInv(s: State, k: Key, g: Segment, script: seq<Op>)
    requires Inv(s) && k in s.conns && s.conns[k].state == ESTABLISHED && Owns(s.env, s.conns[k]) && s.stop == Running
    ensures var s' := OnEstablished(s, k, g, script); Inv(s') && SameStrays(s, s')
  {
    hide LinkInv, Established, EstablishedStop, Update, Inv, SameStrays;
    assert SlotInv(s.env, k, s.conns[k]) by { SlotsInv(s, k); }
    var l := Load(s.env, s.conns[k]);
    EstablishedStopMeans(l, g, script);
    if EstablishedStop(l, g, script) != Running {
      StopKeeps(s, EstablishedStop(l, g, script));
    } else {
      EstablishedKeeps(l, g, script);
      EstablishedOwner(l, g, script);
      UpdateKeeps(s, k, Established(l, g, script));
    }
  }

  /** An acknowledgement of the FIN only moves the state on. */
  lemma FinWaitInv(s: State, k: Key)
    requires Inv(s) && k in s.conns && s.conns[k].state == FIN_WAIT_1 && Owns(s.env, s.conns[k])
    ensures var l := Load(s.env, s.conns[k]);
            var s' := Update(s, k, l.(c := l.c.(state := FIN_WAIT_2)));
            Inv(s') && SameStrays(s, s')
  {
    hide Update, Tiles, TxAt, Add32;
    assert SlotInv(s.env, k, s.conns[k]);
    var l := Load(s.env, s.conns[k]);
    UpdateKeeps(s, k, l.(c := l.c.(state := FIN_WAIT_2)));
  }

  lemma ClosedOk(l: Link, script: seq<Op>)
    requires LinkInv(l) && l.c.state == LAST_ACK
    ensures HistOk(Callback(l, CLOSED, script).h)
  {
    hide Spills;
    ScriptLogs(l.(h := l.h.(calls := l.h.calls + [CLOSED])), script);
  }

  lemma {:induction false} ScriptLogs(l: Link, script: seq<Op>)
    ensures RunScript(l, script).h.calls == l.h.calls && RunScript(l, script).h.arrived == l.h.arrived
  {
    hide WriteBytes, WriteSize;
    if script != [] {
      ScriptLogs(l, script[..|script| - 1]);
    }
  }

  lemma FinSeenInv(s: State, k: Key)
    requires Inv(s) && k in s.conns && s.conns[k].state == FIN_WAIT_2 && Owns(s.env, s.conns[k])
    ensures var l := Load(s.env, s.conns[k]);
            var m := Send(l.(c := l.c.(ack := Add32(l.c.ack, 1))), [], ACK);
            var r := Close(Update(s, k, m), k, m.c).0;
            Inv(r) && SameStrays(s, r)
  {
    hide LinkInv, Close, Update, Send, Add32, Inv, SameStrays, HistOk;
    assert SlotInv(s.env, k, s.conns[k]) by { SlotsInv(s, k); }
    var l := Load(s.env, s.conns[k]);
    InOrder(l);
    var m := Send(l.(c := l.c.(ack := Add32(l.c.ack, 1))), [], ACK);
    SendOwner(l.(c := l.c.(ack := Add32(l.c.ack, 1))));
    OperateAndCloseInv(s, k, m);
  }

  lemma SendOwner(l: Link)
    requires HistOk(l.h)
    ensures var m := Send(l, [], ACK); SameOwner(l.c, m.c) && m.c.state == l.c.state && HistOk(m.h)
  {
    hide Spills, Orderly;
  }

  lemma LastAckInv(s: State, k: Key, script: seq<Op>)
    requires Inv(s) && k in s.conns && s.conns[k].state == LAST_ACK && Owns(s.env, s.conns[k])
    ensures var m := Callback(Load(s.env, s.conns[k]), CLOSED, script);
            var r := Close(Update(s, k, m), k, m.c).0;
            Inv(r) && SameStrays(s, r)
  {
    hide LinkInv, Close, Update, Callback, Inv, SameStrays, HistOk;
    assert SlotInv(s.env, k, s.conns[k]) by { SlotsInv(s, k); }
    var l := Load(s.env, s.conns[k]);
    CallbackOwner(l, script);
    ClosedOk(l, script);
    OperateAndCloseInv(s, k, Callback(l, CLOSED, script));
  }

  lemma CallbackOwner(l: Link, script: seq<Op>)
    ensures var m := Callback(l, CLOSED, script); SameOwner(l.c, m.c) && m.c.state == l.c.state
  {
  }

  /** The switch reaches no state without a case. */
  lemma SwitchInv(s: State, k: Key, g: Segment, script: seq<Op>)
    requires Inv(s) && k in s.conns && s.conns[k].state != LISTEN && Owns(s.env, s.conns[k]) && s.stop == Running
    ensures Inv(Switch(s, k, g, script)) && SameStrays(s, Switch(s, k, g, script))
  {
    hide LinkInv, Close, Update, OnEstablished, Send, Callback, Add32, Load, Inv, SameStrays;
    assert s.conns[k].state in {SYN_RCVD, ESTABLISHED, FIN_WAIT_1, FIN_WAIT_2, LAST_ACK} by { SlotStates(s, k); }
    match s.conns[k].state {
      case SYN_RCVD => ConnectedInv(s, k, script);
      case ESTABLISHED => EstablishedInv(s, k, g, script);
      case FIN_WAIT_1 =>
        CloseInv(s, k);
        NotStranding(s, k);
        FinWaitInv(s, k);
        LoadConn(s.env, s.conns[k]);
      case FIN_WAIT_2 => FinSeenInv(s, k);
      case LAST_ACK => LastAckInv(s, k, script);
      case _ =>
    }
    SameStraysHere(s);
  }

  lemma SameStraysHere(s: State)
    ensures SameStrays(s, s)
  {
  }

  lemma SlotStates(s: State, k: Key)
    requires Inv(s) && k in s.conns && s.conns[k].state != LISTEN
    ensures s.conns[k].state in {SYN_RCVD, ESTABLISHED, FIN_WAIT_1, FIN_WAIT_2, LAST_ACK}
  {
    assert SlotInv(s.env, k, s.conns[k]);
  }

  /** The one way to lose buffers: a RST as first segment of a connection (or after tcp_close) strands another one. */
  predicate StrandsIn(s: State, ip: Ip, g: Segment) {
    var k := Key(ip, g.srcPort, g.dstPort);
    && g.dstPort in s.ports && (k in s.conns || |s.conns| != s.cap) && Rst(g.flags)
    && Strands(s.(conns := s.conns[k := if k in s.conns then s.conns[k] else FreshConn(ip)]), k)
  }

  /** Neither the open ports nor stopping say anything about buffers. */
  lemma SamePorts(s: State, s': State)
    requires s' == s.(ports := s'.ports, stop := s'.stop)
    ensures SameStrays(s, s')
  {
    forall p: nat
      ensures Held(s', p) <==> Held(s, p)
    {
      if k :| HeldAt(s, p, k) {
        assert HeldAt(s', p, k);
      }
      if k :| HeldAt(s', p, k) {
        assert HeldAt(s, p, k);
      }
    }
  }

  /** tcp_in. */
  lemma TcpInInv(s: State, ip: Ip, g: Segment, chance: Chance, script: seq<Op>)
    requires Inv(s) && s.stop == Running && Usable(s)
    ensures Inv(TcpIn(s, ip, g, chance, script))
    ensures !StrandsIn(s, ip, g) ==> SameStrays(s, TcpIn(s, ip, g, chance, script))
    ensures StrandsIn(s, ip, g) ==>
              var victim := Key(ip, 0, 0);
              && victim in s.conns
              && forall p: nat :: Stray(TcpIn(s, ip, g, chance, script), p) <==> Stray(s, p) || HeldAt(s, p, victim)
  {
    hide LinkInv, Close, Reset, Open, Switch, Rst, Syn;
    var k := Key(ip, g.srcPort, g.dstPort);
    if g.dstPort in s.ports && (k in s.conns || |s.conns| != s.cap) {
      var c := if k in s.conns then s.conns[k] else FreshConn(ip);
      var t := s.(conns := s.conns[k := c]);
      if k in s.conns {
        assert t.conns == s.conns && t == s;
        assert SlotInv(s.env, k, c);
      } else {
        ListenKeeps(s, k, c);
      }
      assert SameStrays(s, t);
      if c.state == LISTEN {
        CloseInv(t, k);
        assert Rst(g.flags) ==> (StrandsIn(s, ip, g) <==> Strands(t, k));
        ResetInv(t, k, c, g.seqNo);
        OpenInv(t, k, g, chance);
      } else {
        ResetInv(t, k, c, g.seqNo);
        RstInv(t, k, g);
        SwitchInv(t, k, g, script);
      }
    } else {
      SamePorts(s, TcpIn(s, ip, g, chance, script));
    }
  }

  /** The RST path runs tcp_connect_close and then the reset: still every buffer is freed at most once. */
  lemma RstInv(s: State, k: Key, g: Segment)
    requires Inv(s) && k in s.conns && s.conns[k].state != LISTEN && Owns(s.env, s.conns[k]) && s.stop == Running
    ensures var r := Close(s, k, s.conns[k]);
            var s' := if Intact(r.0) then Reset(r.0, k, r.1, g.seqNo) else r.0;
            Inv(s') && SameStrays(s, s')
  {
    hide LinkInv, Close, Reset, Inv;
    CloseInv(s, k);
    NotStranding(s, k);
    var r := Close(s, k, s.conns[k]);
    if Intact(r.0) {
      ResetInv(r.0, k, r.1, g.seqNo);
    }
  }

  lemma {:induction false} ReleaseAllInv(s: State, port: u16, order: seq<Key>)
    requires Inv(s)
    ensures Inv(ReleaseAll(s, port, order)) && SameStrays(s, ReleaseAll(s, port, order))
  {
    hide LinkInv, Release;
    if order != [] {
      ReleaseAllInv(s, port, order[..|order| - 1]);
      var t := ReleaseAll(s, port, order[..|order| - 1]);
      var k := order[|order| - 1];
      if k in t.conns {
        ReleaseOnlyKeeps(t, k);
      }
    }
  }

  lemma AppOpInv(s: State, k: Key, op: Op)
    requires Inv(s) && InUse(s, k) && Owns(s.env, s.conns[k])
    ensures var s' := Update(s, k, Apply(Load(s.env, s.conns[k]), op)); Inv(s') && SameStrays(s, s')
  {
    hide LinkInv, Apply, Update;
    var l := Load(s.env, s.conns[k]);
    assert SlotInv(s.env, k, s.conns[k]);
    ApplyKeeps(l, op);
    UpdateKeeps(s, k, Apply(l, op));
  }

  /** The step is an arrival that strands another connection's buffers. */
  predicate Loses(s: State, i: Input) {
    s.stop == Running && i.Arrive? && StrandsIn(s, i.ip, i.g)
  }

  /** Every step of the machine keeps the invariant, and so no step runs into a state without a case. */
  lemma StepInv(s: State, i: Input)
    requires Inv(s) && Usable(s) && Allowed(s, i)
    ensures Inv(Step(s, i))
    ensures !Loses(s, i) ==> SameStrays(s, Step(s, i))
    ensures Loses(s, i) ==>
              var victim := Key(i.ip, 0, 0);
              && victim in s.conns
              && forall p: nat :: Stray(Step(s, i), p) <==> Stray(s, p) || HeldAt(s, p, victim)
  {
    hide LinkInv, TcpIn, Close, Update, Apply, ReleaseAll;
    if s.stop == Running {
      match i {
        case Arrive(ip, g, chance, script) => TcpInInv(s, ip, g, chance, script);
        case AppOp(k, op) => AppOpInv(s, k, op);
        case AppClose(k) => CloseInv(s, k);
        case OpenPort(port) =>
          SamePorts(s, Step(s, i));
        case ClosePort(port, order) =>
          ReleaseAllInv(s, port, order);
          SamePorts(ReleaseAll(s, port, order), Step(s, i));
      }
    }
  }

  // ----- runs

  /** The inputs are allowed, each in the state it meets. */
  ghost predicate Legal(s: State, run: seq<Input>)
    requires Inv(s)
  {
    run == [] || (Legal(s, run[..|run| - 1]) && Allowed(Run(s, run[..|run| - 1]), run[|run| - 1]))
  }

  ghost function Run(s: State, run: seq<Input>): (r: State)
    requires Inv(s)
    ensures Inv(r)
  {
    if run == [] then s
    else
      var t := Run(s, run[..|run| - 1]);
      InvUsable(t);
      if Allowed(t, run[|run| - 1]) then
        StepInv(t, run[|run| - 1]);
        Step(t, run[|run| - 1])
      else t
  }
}
