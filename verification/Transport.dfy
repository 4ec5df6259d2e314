/** The checksums of src/udp.c and src/tcp.c: a pseudo-header built in the headroom and taken away again. */
module Transport {
  import opened Words
  import opened InetChecksum
  import opened Buffer
  import opened Ethernet

  const PSEUDO := 12

  function PseudoHeader(src: Ip, dst: Ip, proto: byte, len: u16): (s: seq<byte>)
    ensures |s| == PSEUDO
  {
    src + dst + [0, proto] + Big16(len)
  }

  /** The pseudo-header byte by byte. */
  lemma PseudoLayout(src: Ip, dst: Ip, proto: byte, len: u16)
    ensures var s := PseudoHeader(src, dst, proto, len);
            s[..4] == src && s[4..8] == dst && s[8] == 0 && s[9] == proto && s[10..] == [len / 256, len % 256]
  {
    var s := PseudoHeader(src, dst, proto, len);
    assert s[4..8] == dst && s[10..] == Big16(len);
  }

  /** An explicit zero byte after odd-length data has the value of checksum16's odd-tail rule. */
  lemma OddTailIsZeroPadding(s: seq<byte>)
    requires |s| % 2 == 1
    ensures Checksum(s + [0]) == Checksum(s)
  {
    WordSumOddTail(s);
    var n := |s| - 1;
    var last := [s[n], 0];
    assert s + [0] == s[..n] + last;
    WordSumAppend(s[..n], last);
    assert last[2..] == [];
  }

  /** The two addresses of a pseudo-header can be exchanged. */
  lemma AddressesCommute(a: Ip, b: Ip, proto: byte, len: u16, rest: seq<byte>)
    ensures WordSum(PseudoHeader(a, b, proto, len) + rest) == WordSum(PseudoHeader(b, a, proto, len) + rest)
  {
    var tail := [0, proto] + Big16(len) + rest;
    forall x: Ip, y: Ip
      ensures WordSum(PseudoHeader(x, y, proto, len) + rest) == WordSum(x) + WordSum(y) + WordSum(tail)
    {
      assert PseudoHeader(x, y, proto, len) + rest == x + (y + tail);
      WordSumAppend(x, y + tail);
      WordSumAppend(y, tail);
    }
  }

  /** udp_checksum. The window comes back, and so does every byte, except that an odd-length datagram is left with a
      zero behind it. The protocol byte is taken from where an IP header would be. */
  method UdpChecksum(buf: Buf, src: Ip, dst: Ip) returns (c: u16)
    requires buf.Valid() && 20 <= buf.data
    requires buf.len % 2 == 1 ==> buf.View().FitsTail(1)
    modifies buf, buf.payload
    ensures buf.Valid() && buf.View() == old(buf.View())
    ensures buf.payload[..] == if buf.len % 2 == 1 then Splice(old(buf.payload[..]), buf.data + buf.len, [0])
                               else old(buf.payload[..])
    ensures c == Checksum(PseudoHeader(src, dst, old(buf.payload[buf.data - 11]), buf.len % 0x1_0000)
                          + old(buf.View()).bytes)
  {
    hide Checksum, Splice, PseudoHeader;
    ghost var m, bytes := buf.payload[..], buf.View().bytes;
    var d, n := buf.data, buf.len;
    assert bytes == m[d..d + n];
    var backup := buf.payload[d - 20..d];
    assert backup == m[d - 20..d] && backup[9] == m[d - 11];
    var pseudo := PseudoHeader(src, dst, backup[9], n % 0x1_0000);
    c := ChecksumBehind(buf, pseudo);
    buf.Store(d - 20, backup);
    UdpRestores(m, d, n, pseudo);
    assert buf.View().bytes == buf.payload[..][d..d + n];
  }

  /** The pseudo-header goes in front of the window, the whole is padded and summed, and the window comes back. */
  method ChecksumBehind(buf: Buf, pseudo: seq<byte>) returns (c: u16)
    requires buf.Valid() && 20 <= buf.data && |pseudo| == PSEUDO
    requires buf.len % 2 == 1 ==> buf.View().FitsTail(1)
    modifies buf, buf.payload
    ensures buf.Valid() && buf.data == old(buf.data) && buf.len == old(buf.len)
    ensures var w := Splice(old(buf.payload[..]), buf.data - PSEUDO, pseudo);
            buf.payload[..] == if buf.len % 2 == 1 then Splice(w, buf.data + buf.len, [0]) else w
    ensures c == Checksum(pseudo + old(buf.View()).bytes)
  {
    hide Checksum, Splice;
    ghost var m, d, n := buf.payload[..], buf.data, buf.len;
    PseudoInPlace(m, d, n, pseudo);
    assert buf.View().bytes == m[d..d + n];
    var _ := buf.AddHeader(PSEUDO);
    buf.Store(buf.data, pseudo);
    assert buf.View().bytes == buf.payload[..][buf.data..buf.data + buf.len];
    c := PaddedChecksum(buf);
    var _ := buf.RemoveHeader(PSEUDO);
  }

  /** Putting the 20 saved bytes back undoes everything but the padding. */
  lemma UdpRestores(m: seq<byte>, d: nat, n: nat, pseudo: seq<byte>)
    requires 20 <= d && d + n <= |m| && |pseudo| == PSEUDO && (n % 2 == 1 ==> d + n < |m|)
    ensures var w := Splice(m, d - PSEUDO, pseudo);
            var x := Splice(if n % 2 == 1 then Splice(w, d + n, [0]) else w, d - 20, m[d - 20..d]);
            x == (if n % 2 == 1 then Splice(m, d + n, [0]) else m) && x[d..d + n] == m[d..d + n]
  {
    hide Splice;
    PseudoInPlace(m, d, n, pseudo);
    if n % 2 == 1 {
      SpliceCommute(Splice(m, d - PSEUDO, pseudo), d - 20, m[d - 20..d], d + n, [0]);
      SpliceBehind(m, d, n, [0]);
    }
  }

  lemma SpliceBehind(m: seq<byte>, d: nat, n: nat, b: seq<byte>)
    requires d + n + |b| <= |m|
    ensures Splice(m, d + n, b)[d..d + n] == m[d..d + n]
  {
    SpliceIndex(m, d + n, b);
  }

  /** The middle of udp_checksum: pad an odd window by one zero byte, sum, and drop the padding. */
  method PaddedChecksum(buf: Buf) returns (c: u16)
    requires buf.Valid() && (buf.len % 2 == 1 ==> buf.View().FitsTail(1))
    modifies buf, buf.payload
    ensures buf.Valid() && buf.data == old(buf.data) && buf.len == old(buf.len)
    ensures buf.payload[..] == if buf.len % 2 == 1 then Splice(old(buf.payload[..]), buf.data + buf.len, [0])
                               else old(buf.payload[..])
    ensures c == Checksum(old(buf.View()).bytes)
  {
    hide Checksum, Splice;
    ghost var s := buf.View().bytes;
    var odd := buf.len % 2 == 1;
    if odd {
      var _ := buf.AddPadding(1);
      assert Zeros(1) == [0];
      OddTailIsZeroPadding(s);
    }
    assert buf.View().bytes == buf.payload[buf.data..buf.data + buf.len];
    c := Checksum16(buf.payload, buf.data, buf.len);
    if odd {
      var _ := buf.RemovePadding(1);
    }
  }

  /** The pseudo-header lies directly before the window, inside the 20 bytes that are put back. */
  lemma PseudoInPlace(m: seq<byte>, d: nat, n: nat, pseudo: seq<byte>)
    requires 20 <= d && d + n <= |m| && |pseudo| == PSEUDO
    ensures var w := Splice(m, d - PSEUDO, pseudo);
            w[d - PSEUDO..d + n] == pseudo + m[d..d + n] && Splice(w, d - 20, m[d - 20..d]) == m
  {
    var w := Splice(m, d - PSEUDO, pseudo);
    SpliceIndex(m, d - PSEUDO, pseudo);
    SpliceIndex(w, d - 20, m[d - 20..d]);
    assert forall k :: 0 <= k < |m| ==> Splice(w, d - 20, m[d - 20..d])[k] == m[k];
  }
}
