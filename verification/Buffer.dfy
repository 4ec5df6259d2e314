/** The headroom buffer of src/buf.c: one fixed array and a window sliding over it. */
module Buffer {
  import opened Words

  const BUF_MAX_LEN := 131325
  const HALF := 65662

  /** `m` after a memcpy of `b` to offset `at`. */
  function Splice(m: seq<byte>, at: nat, b: seq<byte>): (r: seq<byte>)
    requires at + |b| <= |m|
    ensures |r| == |m|
  {
    m[..at] + b + m[at + |b|..]
  }

  lemma SpliceIndex(m: seq<byte>, at: nat, b: seq<byte>)
    requires at + |b| <= |m|
    ensures var r := Splice(m, at, b);
            && (forall k :: 0 <= k < |m| ==> r[k] == if at <= k < at + |b| then b[k - at] else m[k])
            && r[at..at + |b|] == b
  {
  }

  /** Adjacent writes are one write, whichever comes first. */
  lemma SpliceAfter(m: seq<byte>, at: nat, a: seq<byte>, b: seq<byte>)
    requires at + |a| + |b| <= |m|
    ensures Splice(Splice(m, at, a), at + |a|, b) == Splice(m, at, a + b)
  {
  }

  lemma SpliceBefore(m: seq<byte>, at: nat, a: seq<byte>, b: seq<byte>)
    requires at + |a| + |b| <= |m|
    ensures Splice(Splice(m, at + |a|, b), at, a) == Splice(m, at, a + b)
  {
  }

  /** Writing back what is there changes nothing. */
  lemma SpliceSame(m: seq<byte>, at: nat, a: seq<byte>)
    requires at + |a| <= |m| && m[at..at + |a|] == a
    ensures Splice(m, at, a) == m
  {
    assert m == m[..at] + m[at..at + |a|] + m[at + |a|..];
  }

  /** A later write over the same range wins. */
  lemma SpliceOver(m: seq<byte>, at: nat, a: seq<byte>, b: seq<byte>)
    requires at + |a| <= |m| && |b| == |a|
    ensures Splice(Splice(m, at, a), at, b) == Splice(m, at, b)
  {
  }

  /** A slice of a slice. */
  lemma SliceOf(m: seq<byte>, d: nat, len: nat, at: nat, n: nat)
    requires at + n <= len && d + len <= |m|
    ensures m[d..d + len][at..at + n] == m[d + at..d + at + n]
  {
    var w := m[d..d + len];
    var x, y := w[at..at + n], m[d + at..d + at + n];
    forall k | 0 <= k < n
      ensures x[k] == y[k]
    {
      assert x[k] == w[at + k] == m[d + at + k];
    }
  }

  /** A write directly before a stretch of bytes: what then lies there. */
  lemma SpliceThen(m: seq<byte>, at: nat, h: seq<byte>, n: nat)
    requires at + |h| + n <= |m|
    ensures Splice(m, at, h)[at..at + |h| + n] == h + m[at + |h|..at + |h| + n]
  {
  }

  /** A write inside what was just written. */
  lemma SpliceInside(m: seq<byte>, at: nat, h: seq<byte>, off: nat, b: seq<byte>)
    requires at + |h| <= |m| && off + |b| <= |h|
    ensures Splice(Splice(m, at, h), at + off, b) == Splice(m, at, h[..off] + b + h[off + |b|..])
  {
    var h' := h[..off] + b + h[off + |b|..];
    SpliceIndex(m, at, h);
    SpliceIndex(Splice(m, at, h), at + off, b);
    SpliceIndex(m, at, h');
    var x, y := Splice(Splice(m, at, h), at + off, b), Splice(m, at, h');
    forall k | 0 <= k < |m|
      ensures x[k] == y[k]
    {
      if at <= k < at + off {
        assert h'[k - at] == h[k - at];
      } else if at + off <= k < at + off + |b| {
        assert h'[k - at] == b[k - at - off];
      } else if at + off + |b| <= k < at + |h| {
        assert h'[k - at] == h[k - at];
      }
    }
  }

  /** Disjoint writes commute. */
  lemma SpliceCommute(m: seq<byte>, at: nat, a: seq<byte>, bt: nat, b: seq<byte>)
    requires at + |a| <= bt && bt + |b| <= |m|
    ensures Splice(Splice(m, at, a), bt, b) == Splice(Splice(m, bt, b), at, a)
  {
  }

  function Zeros(n: nat): (s: seq<byte>)
    ensures |s| == n
  {
    seq(n, _ => 0)
  }

  /** The bytes found in newly allocated memory: `junk`, and zeros as far as it does not reach. */
  function Filled(junk: seq<byte>): (m: seq<byte>)
    ensures |m| == BUF_MAX_LEN
  {
    seq(BUF_MAX_LEN, i => if 0 <= i < |junk| then junk[i] else 0)
  }

  /** The abstract value of a buffer: where its window starts and what it holds. */
  datatype Window = Window(data: nat, bytes: seq<byte>) {
    /** buf_add_padding succeeds; the test is strict, so the last byte of the array is never used. */
    predicate FitsTail(n: nat) {
      data + |bytes| + n < BUF_MAX_LEN
    }

    function Append(more: seq<byte>): Window {
      Window(data, bytes + more)
    }

    function DropFront(n: nat): Window
      requires n <= |bytes|
    {
      Window(data + n, bytes[n..])
    }

    function DropBack(n: nat): Window
      requires n <= |bytes|
    {
      Window(data, bytes[..|bytes| - n])
    }
  }

  /** A buf_t as a value: the array and the window over it. */
  datatype Block = Block(mem: seq<byte>, w: Window) {
    ghost predicate WellFormed() {
      |mem| == BUF_MAX_LEN && w.data + |w.bytes| <= BUF_MAX_LEN && w.bytes == mem[w.data..w.data + |w.bytes|]
    }

    /** Where the window ends. */
    function End(): nat {
      w.data + |w.bytes|
    }

    /** A memcpy to the end of the window, inside the array; the window does not grow. */
    function Put(b: seq<byte>): Block {
      Block(if End() + |b| <= |mem| then Splice(mem, End(), b) else mem, w)
    }

    function Append(b: seq<byte>): Block {
      Put(b).(w := w.Append(b))
    }

    function DropFront(n: nat): Block
      requires n <= |w.bytes|
    {
      Block(mem, w.DropFront(n))
    }

    /** A memmove of the window to the front of the array. */
    function ToFront(): Block {
      Block(if |w.bytes| <= |mem| then Splice(mem, 0, w.bytes) else mem, Window(0, w.bytes))
    }
  }

  lemma PutWell(b: Block, more: seq<byte>)
    requires b.WellFormed()
    ensures b.Put(more).WellFormed()
    ensures b.End() + |more| <= BUF_MAX_LEN ==> b.Append(more).WellFormed()
  {
    if b.End() + |more| <= BUF_MAX_LEN {
      SpliceIndex(b.mem, b.End(), more);
    }
  }

  lemma DropFrontWell(b: Block, n: nat)
    requires b.WellFormed() && n <= |b.w.bytes|
    ensures b.DropFront(n).WellFormed()
  {
  }

  lemma ToFrontWell(b: Block)
    requires b.WellFormed()
    ensures b.ToFront().WellFormed()
  {
    SpliceIndex(b.mem, 0, b.w.bytes);
  }

  lemma CopiedToEnd(m: seq<byte>, at: nat, w: seq<byte>, b: seq<byte>)
    requires at + |w| + |b| <= |m| && m[at..at + |w|] == w
    ensures var m' := Splice(m, at + |w|, b);
            m'[at..at + |w| + |b|] == w + b && m'[at..at + |w|] == w
  {
    SpliceIndex(m, at + |w|, b);
  }

  class Buf {
    const payload: array<byte>
    var data: nat
    var len: nat

    ghost predicate Valid()
      reads this
    {
      payload.Length == BUF_MAX_LEN && data + len <= BUF_MAX_LEN
    }

    ghost function View(): (w: Window)
      reads this, payload
      requires Valid()
      ensures w == Window(data, payload[data..data + len])
    {
      Window(data, payload[data..data + len])
    }

    ghost function Value(): (b: Block)
      reads this, payload
      requires Valid()
      ensures b.WellFormed()
    {
      assert payload[..][data..data + len] == payload[data..data + len];
      Block(payload[..], View())
    }

    constructor ()
      ensures Valid() && fresh(payload) && len == 0 && data == HALF
    {
      payload := new byte[BUF_MAX_LEN];
      data, len := HALF, 0;
    }

    /** malloc: the array holds what the memory happened to hold. */
    constructor Malloc(junk: seq<byte>)
      ensures Valid() && fresh(payload) && len == 0 && payload[..] == Filled(junk)
    {
      payload := new byte[BUF_MAX_LEN](i => if 0 <= i < |junk| then junk[i] else 0);
      data, len := HALF, 0;
    }

    /** buf_init: the window ends at the middle of the array, whatever its length and whatever it was before. */
    method Init(n: nat) returns (ok: bool)
      requires payload.Length == BUF_MAX_LEN
      modifies this
      ensures ok == (n < HALF)
      ensures if ok then Valid() && data == HALF - n && len == n else data == old(data) && len == old(len)
    {
      ok := n < HALF;
      if ok {
        data, len := HALF - n, n;
      }
    }

    /** buf_init for bytes that are then copied into the window. */
    method InitWith(b: seq<byte>)
      requires payload.Length == BUF_MAX_LEN && |b| < HALF
      modifies this, payload
      ensures Valid() && View() == Window(HALF - |b|, b)
    {
      hide Splice;
      ghost var m := payload[..];
      var _ := Init(|b|);
      Store(data, b);
      SpliceIndex(m, data, b);
      assert View().bytes == payload[..][data..data + len];
    }

    /** buf_add_header: grow into the headroom without touching the bytes there. */
    method AddHeader(n: nat) returns (ok: bool)
      requires Valid()
      modifies this
      ensures Valid() && ok == (n <= old(data))
      ensures if ok then len >= n && View().DropFront(n) == old(View()) else View() == old(View())
    {
      ok := n <= data;
      if ok {
        data, len := data - n, len + n;
      }
    }

    method RemoveHeader(n: nat) returns (ok: bool)
      requires Valid()
      modifies this
      ensures Valid() && ok == (n <= old(len))
      ensures View() == if ok then old(View()).DropFront(n) else old(View())
    {
      ok := n <= len;
      if ok {
        data, len := data + n, len - n;
      }
    }

    /** buf_add_padding: the new tail is zeroed, everything else stays. */
    method AddPadding(n: nat) returns (ok: bool)
      requires Valid()
      modifies this, payload
      ensures Valid() && ok == old(View()).FitsTail(n) && data == old(data)
      ensures View() == if ok then old(View()).Append(Zeros(n)) else old(View())
      ensures payload[..] == if ok then Splice(old(payload[..]), old(data + len), Zeros(n)) else old(payload[..])
    {
      ok := data + len + n < BUF_MAX_LEN;
      if ok {
        Store(data + len, Zeros(n));
        len := len + n;
      }
    }

    method RemovePadding(n: nat) returns (ok: bool)
      requires Valid()
      modifies this
      ensures Valid() && ok == (n <= old(len))
      ensures View() == if ok then old(View()).DropBack(n) else old(View())
    {
      ok := n <= len;
      if ok {
        len := len - n;
      }
    }

    /** buf_copy: the same window over a copy of the whole array; its assertions are the requires. */
    method CopyFrom(src: Buf)
      requires Valid() && src.Valid() && src != this && src.payload != payload
      requires src.data + src.len < BUF_MAX_LEN
      modifies this, payload
      ensures Valid() && data == src.data && len == src.len && payload[..] == src.payload[..]
    {
      len := src.len;
      data := src.data;
      for i := 0 to BUF_MAX_LEN
        modifies payload
        invariant payload[..i] == src.payload[..i]
      {
        payload[i] := src.payload[i];
      }
    }

    /** A buf_copy into fresh memory that nobody else refers to, seen as a value. */
    method Copy() returns (w: Window)
      requires Valid() && data + len < BUF_MAX_LEN
      ensures w == View()
    {
      var dst := new Buf();
      dst.CopyFrom(this);
      w := Window(dst.data, dst.payload[dst.data..dst.data + dst.len]);
      assert forall k :: 0 <= k < BUF_MAX_LEN ==> dst.payload[..][k] == payload[..][k];
    }

    /** buf_add_padding, and a memcpy to where the window ended whether or not it was extended; inside the array. */
    method CopyToEnd(b: seq<byte>) returns (ok: bool)
      requires Valid() && data + len + |b| <= BUF_MAX_LEN
      modifies this, payload
      ensures Valid() && ok == old(View()).FitsTail(|b|)
      ensures Value() == if ok then old(Value()).Append(b) else old(Value()).Put(b)
    {
      hide Splice;
      ghost var m, w := payload[..], View();
      var dst := data + len;
      ok := AddPadding(|b|);
      Store(dst, b);
      SpliceOver(m, dst, Zeros(|b|), b);
      CopiedToEnd(m, data, w.bytes, b);
      assert View().bytes == payload[..][data..data + len];
    }

    /** buf_add_padding, and a memcpy over the padding if there is any. */
    method AddBytes(b: seq<byte>) returns (ok: bool)
      requires Valid()
      modifies this, payload
      ensures Valid() && ok == old(View()).FitsTail(|b|)
      ensures Value() == if ok then old(Value()).Append(b) else old(Value())
    {
      ok := data + len + |b| < BUF_MAX_LEN;
      if ok {
        ok := CopyToEnd(b);
      }
    }

    /** The memmove that brings the window to the front of the array. */
    method MoveToFront()
      requires Valid()
      modifies this, payload
      ensures Valid() && Value() == old(Value()).ToFront()
    {
      hide Splice;
      ghost var m, w := payload[..], View();
      Store(0, payload[data..data + len]);
      data := 0;
      SpliceIndex(m, 0, w.bytes);
      assert View().bytes == payload[..][0..len];
    }

    /** memcpy or memset into the array. */
    method Store(at: nat, b: seq<byte>)
      requires payload.Length == BUF_MAX_LEN && at + |b| <= BUF_MAX_LEN
      modifies payload
      ensures payload[..] == Splice(old(payload[..]), at, b)
    {
      for i := 0 to |b|
        invariant forall k :: 0 <= k < BUF_MAX_LEN ==>
                                payload[k] == if at <= k < at + i then b[k - at] else old(payload[k])
      {
        payload[at + i] := b[i];
      }
    }
  }
}
