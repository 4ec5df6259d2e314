/** The Internet checksum of src/utils.c and its ones'-complement arithmetic (sections 1 and 2 of RFC 1071). */
module InetChecksum {
  import opened Words

  /** 65537 words of at most 65535 each sum to at most 2^32 - 1. */
  const MAX_EXACT := 131074

  /** The unbounded sum of the 16-bit words of `s` as a little-endian host loads them; an odd last byte counts as is. */
  function WordSum(s: seq<byte>): nat {
    if |s| == 0 then 0
    else if |s| == 1 then s[0]
    else Load16(s[0], s[1]) + WordSum(s[2..])
  }

  /** Ones'-complement value of a sum: 0 only for 0, otherwise its representative in [1, 65535] modulo 65535. */
  function OnesComplement(x: nat): u16 {
    if x == 0 then 0 else (x - 1) % 65535 + 1
  }

  function Checksum(s: seq<byte>): u16 {
    65535 - OnesComplement(WordSum(s) % 0x1_0000_0000)
  }

  // ----- arithmetic modulo 65535

  /** `OnesComplement` is the one value of [1, 65535] congruent to a nonzero sum. */
  lemma OnesComplementUnique(x: nat, r: nat, k: int)
    requires 0 < x && 1 <= r <= 65535 && x == r + 65535 * k
    ensures OnesComplement(x) == r
  {
    assert (x - 1) % 65535 == r - 1;
  }

  lemma OnesComplementQuotient(x: nat) returns (k: int)
    requires 0 < x
    ensures x == OnesComplement(x) + 65535 * k
  {
    k := (x - 1) / 65535;
  }

  /** One carry fold keeps the ones'-complement value and strictly decreases the sum. */
  lemma FoldStep(x: nat)
    requires x >= 65536
    ensures var y := x % 65536 + x / 65536;
            0 < y < x && OnesComplement(y) == OnesComplement(x)
  {
    var y := x % 65536 + x / 65536;
    var k := OnesComplementQuotient(y);
    OnesComplementUnique(x, OnesComplement(y), k + x / 65536);
  }

  // ----- the word sum

  lemma {:induction false} WordSumAppend(a: seq<byte>, b: seq<byte>)
    requires |a| % 2 == 0
    ensures WordSum(a + b) == WordSum(a) + WordSum(b)
  {
    if |a| == 0 {
      assert a + b == b;
    } else {
      WordSumAppend(a[2..], b);
      assert (a + b)[2..] == a[2..] + b;
    }
  }

  lemma {:induction false} WordSumBound(s: seq<byte>)
    ensures WordSum(s) <= 65535 * ((|s| + 1) / 2)
  {
    if |s| >= 2 {
      WordSumBound(s[2..]);
    }
  }

  /** No 32-bit overflow up to 65537 words, so the checksum is that of the true sum. */
  lemma NoOverflow(s: seq<byte>)
    requires |s| <= MAX_EXACT
    ensures WordSum(s) < 0x1_0000_0000
    ensures Checksum(s) == 65535 - OnesComplement(WordSum(s))
  {
    WordSumBound(s);
    assert (|s| + 1) / 2 <= 65537;
  }

  lemma {:induction false} WordSumAllOnes(n: nat)
    ensures WordSum(seq(2 * n, _ => 255)) == 65535 * n
  {
    if n > 0 {
      var s := seq(2 * n, _ => 255 as byte);
      assert s[2..] == seq(2 * (n - 1), _ => 255 as byte);
      WordSumAllOnes(n - 1);
    }
  }

  /** One word more and the 32-bit accumulator can lose a carry. */
  lemma BoundIsTight()
    ensures var s := seq(MAX_EXACT + 2, _ => 255);
            Checksum(s) != 65535 - OnesComplement(WordSum(s))
  {
    WordSumAllOnes(65538);
  }

  lemma WordSumNext(s: seq<byte>, i: nat)
    requires 2 * i + 2 <= |s|
    ensures WordSum(s[..2 * i + 2]) == WordSum(s[..2 * i]) + Load16(s[2 * i], s[2 * i + 1])
  {
    var w := [s[2 * i], s[2 * i + 1]];
    assert s[..2 * i + 2] == s[..2 * i] + w;
    WordSumAppend(s[..2 * i], w);
    assert w[2..] == [];
  }

  lemma WordSumOddTail(s: seq<byte>)
    requires |s| % 2 == 1
    ensures WordSum(s) == WordSum(s[..|s| - 1]) + s[|s| - 1]
  {
    assert s == s[..|s| - 1] + [s[|s| - 1]];
    WordSumAppend(s[..|s| - 1], [s[|s| - 1]]);
  }

  lemma ModStep(sum: nat, w: nat)
    ensures (sum % 0x1_0000_0000 + w) % 0x1_0000_0000 == (sum + w) % 0x1_0000_0000
  {
  }

  /** The first half of checksum16: a 32-bit accumulator over the words, then the odd byte. */
  method SumWords(mem: array<byte>, at: nat, len: nat) returns (crc: u32)
    requires at + len <= mem.Length
    ensures crc == WordSum(mem[at..at + len]) % 0x1_0000_0000
  {
    ghost var s := mem[at..at + len];
    crc := 0;
    ghost var sum := 0;
    for i := 0 to len / 2
      invariant sum == WordSum(s[..2 * i]) && crc == sum % 0x1_0000_0000
    {
      WordSumNext(s, i);
      var w: int := Load16(mem[at + 2 * i], mem[at + 2 * i + 1]);
      assert s[2 * i] == mem[at + 2 * i] && s[2 * i + 1] == mem[at + 2 * i + 1];
      ModStep(sum, w);
      sum := sum + w;
      crc := (crc + w) % 0x1_0000_0000;
    }
    if len % 2 == 1 {
      WordSumOddTail(s);
      ModStep(sum, s[len - 1]);
      assert 2 * (len / 2) == len - 1 && s[len - 1] == mem[at + len - 1];
      crc := (crc + mem[at + len - 1]) % 0x1_0000_0000;
    } else {
      assert 2 * (len / 2) == len && s[..len] == s;
    }
  }

  /** The second half: fold the carries back in until the sum fits 16 bits. */
  method FoldCarries(sum: u32) returns (crc: u16)
    ensures crc == OnesComplement(sum)
  {
    var x: u32 := sum;
    while x >= 65536
      invariant OnesComplement(x) == OnesComplement(sum)
      decreases x
    {
      FoldStep(x);
      x := x % 65536 + x / 65536;
    }
    crc := x;
  }

  /** checksum16. */
  method Checksum16(mem: array<byte>, at: nat, len: nat) returns (r: u16)
    requires at + len <= mem.Length
    ensures r == Checksum(mem[at..at + len])
  {
    var sum := SumWords(mem, at, len);
    var crc := FoldCarries(sum);
    r := 65535 - crc;
  }

  // ----- byte-order independence

  function SwapBytes(s: seq<byte>): (r: seq<byte>)
    ensures |r| == |s|
  {
    if |s| < 2 then s else [s[1], s[0]] + SwapBytes(s[2..])
  }

  lemma {:induction false} SwappedSum(s: seq<byte>) returns (q: int)
    requires |s| % 2 == 0
    ensures WordSum(SwapBytes(s)) == 256 * WordSum(s) - 65535 * q
    ensures WordSum(SwapBytes(s)) == 0 <==> WordSum(s) == 0
  {
    if |s| < 2 {
      q := 0;
    } else {
      q := SwappedSum(s[2..]);
      assert SwapBytes(s)[2..] == SwapBytes(s[2..]);
      q := q + s[1];
    }
  }

  /** Section 2(B) of RFC 1071: on byte-swapped data the checksum comes out byte-swapped. */
  lemma ByteOrderIndependence(s: seq<byte>)
    requires |s| % 2 == 0 && |s| <= MAX_EXACT
    ensures Checksum(SwapBytes(s)) == Swap16(Checksum(s))
  {
    NoOverflow(s);
    NoOverflow(SwapBytes(s));
    var q := SwappedSum(s);
    var x := WordSum(s);
    if x > 0 {
      var o: int := OnesComplement(x);
      var k := OnesComplementQuotient(x);
      OnesComplementUnique(WordSum(SwapBytes(s)), Swap16(o), 256 * k - q + o / 256);
      SwapComplement(o);
    }
  }

  lemma SwapComplement(o: u16)
    ensures Swap16(65535 - o) == 65535 - Swap16(o)
  {
    var h, l := o / 256, o % 256;
    assert 65535 - o == 256 * (255 - h) + (255 - l);
  }

  // ----- storing a checksum and checking it

  /** `s` with the 16-bit store of `v` at offset `p`. */
  function WithWord(s: seq<byte>, p: nat, v: u16): (r: seq<byte>)
    requires p + 2 <= |s|
    ensures |r| == |s|
  {
    s[..p] + Store16(v) + s[p + 2..]
  }

  lemma WordSumWithWord(s: seq<byte>, p: nat, v: u16)
    requires p % 2 == 0 && p + 2 <= |s|
    ensures WordSum(WithWord(s, p, v)) == WordSum(WithWord(s, p, 0)) + v
  {
    forall w: u16
      ensures WordSum(WithWord(s, p, w)) == WordSum(s[..p]) + w + WordSum(s[p + 2..])
    {
      var m := Store16(w);
      assert m + s[p + 2..] == [m[0], m[1]] + s[p + 2..];
      WordSumAppend(m, s[p + 2..]);
      assert m[2..] == [];
      assert WordSum(m) == w;
      assert WithWord(s, p, w) == s[..p] + (m + s[p + 2..]);
      WordSumAppend(s[..p], m + s[p + 2..]);
    }
  }

  /** The receiver's test in ip_in and tcp_in: zero the field, recompute, compare with what was stored. */
  predicate CodeAccepts(s: seq<byte>, p: nat)
    requires p + 2 <= |s|
  {
    Checksum(WithWord(s, p, 0)) == Load16(s[p], s[p + 1])
  }

  /** The test of section 1 of RFC 1071: the sum over everything, checksum included, is all ones. */
  predicate RfcAccepts(s: seq<byte>) {
    Checksum(s) == 0
  }

  /** A sender that stores the checksum of the zeroed data satisfies both tests. */
  lemma StoredChecksumAccepted(s: seq<byte>, p: nat)
    requires p % 2 == 0 && p + 2 <= |s| <= MAX_EXACT
    ensures var c := Checksum(WithWord(s, p, 0));
            CodeAccepts(WithWord(s, p, c), p) && RfcAccepts(WithWord(s, p, c))
  {
    var zeroed := WithWord(s, p, 0);
    var c := Checksum(zeroed);
    var stored := WithWord(s, p, c);
    assert WithWord(stored, p, 0) == zeroed;
    TestsAgree(stored, p);
  }

  /** The code's test implies the RFC's; they differ exactly when the field holds 0xFFFF and the rest is a nonzero
      sum that already folds to 0xFFFF. */
  lemma TestsAgree(s: seq<byte>, p: nat)
    requires p % 2 == 0 && p + 2 <= |s| <= MAX_EXACT
    ensures var rest := WordSum(WithWord(s, p, 0));
            RfcAccepts(s) <==>
            CodeAccepts(s, p) || (Load16(s[p], s[p + 1]) == 0xFFFF && rest > 0 && OnesComplement(rest) == 0xFFFF)
  {
    hide WordSum, OnesComplement, WithWord;
    var f := Load16(s[p], s[p + 1]);
    var zeroed := WithWord(s, p, 0);
    SameWord(s, p);
    WordSumWithWord(s, p, f);
    NoOverflow(s);
    NoOverflow(zeroed);
    FoldedWithField(WordSum(zeroed), f);
  }

  lemma SameWord(s: seq<byte>, p: nat)
    requires p + 2 <= |s|
    ensures WithWord(s, p, Load16(s[p], s[p + 1])) == s
  {
  }

  /** A field added to the rest of a sum makes all ones exactly when it is the rest's complement, or when all are ones
      already. */
  lemma FoldedWithField(rest: nat, f: u16)
    ensures OnesComplement(rest + f) == 0xFFFF <==>
            f == 0xFFFF - OnesComplement(rest) || (f == 0xFFFF && rest > 0 && OnesComplement(rest) == 0xFFFF)
  {
    if rest > 0 {
      var o: int := OnesComplement(rest);
      var k := OnesComplementQuotient(rest);
      hide OnesComplement;
      if o + f <= 65535 {
        OnesComplementUnique(rest + f, o + f, k);
      } else {
        OnesComplementUnique(rest + f, o + f - 65535, k + 1);
      }
    }
  }

  /** The sum over everything is all ones exactly if it is a nonzero multiple of 65535. */
  lemma RfcIsMultiple(s: seq<byte>)
    requires |s| <= MAX_EXACT
    ensures RfcAccepts(s) <==> WordSum(s) > 0 && WordSum(s) % 65535 == 0
  {
    NoOverflow(s);
    AllOnesIff(WordSum(s));
  }

  lemma AllOnesIff(x: nat)
    ensures OnesComplement(x) == 0xFFFF <==> x > 0 && x % 65535 == 0
  {
    if x > 0 {
      var k := OnesComplementQuotient(x);
      var o: int := OnesComplement(x);
      assert x == o + 65535 * k;
    }
  }

  /** The code's test: the sum of all words is a nonzero multiple of 65535, and not only because the field adds 0xFFFF
      to one. */
  lemma CodeAcceptsIff(s: seq<byte>, p: nat)
    requires p % 2 == 0 && p + 2 <= |s| <= MAX_EXACT
    ensures var rest := WordSum(WithWord(s, p, 0));
            CodeAccepts(s, p) <==>
            && WordSum(s) > 0 && WordSum(s) % 65535 == 0
            && !(s[p] == 0xFF && s[p + 1] == 0xFF && rest > 0 && rest % 65535 == 0)
  {
    hide WordSum, OnesComplement, WithWord;
    var rest := WordSum(WithWord(s, p, 0));
    TestsAgree(s, p);
    RfcIsMultiple(s);
    AllOnesIff(rest);
    NoOverflow(WithWord(s, p, 0));
  }

  /** One aligned word changed to a value in another class modulo 65535 moves the sum away from the multiples of
      65535, so neither test accepts any more. */
  lemma ChangedWord(s: seq<byte>, at: nat, v: u16)
    requires at % 2 == 0 && at + 2 <= |s|
    requires WordSum(s) % 65535 == 0 && v % 65535 != Load16(s[at], s[at + 1]) % 65535
    ensures WordSum(WithWord(s, at, v)) % 65535 != 0
  {
    hide WordSum, WithWord;
    var was := Load16(s[at], s[at + 1]);
    SameWord(s, at);
    WordSumWithWord(s, at, v);
    WordSumWithWord(s, at, was);
    OtherClass(WordSum(WithWord(s, at, 0)), was, v);
  }

  lemma OtherClass(rest: nat, a: nat, b: nat)
    requires (rest + a) % 65535 == 0 && b % 65535 != a % 65535
    ensures (rest + b) % 65535 != 0
  {
    SameClass(a, b, (rest + b) / 65535 - (rest + a) / 65535);
  }

  lemma SameClass(a: nat, b: nat, k: int)
    ensures b == a + 65535 * k ==> b % 65535 == a % 65535
  {
  }

  /** An IP header for which the two tests differ, with the field that a sender computing 0 may store as its other
      form. */
  function DifferingHeader(): (h: seq<byte>)
    ensures |h| == 20 && Load16(h[10], h[11]) == 0xFFFF
  {
    [0x45, 0, 0, 20, 0x66, 0xE2, 0, 0, 64, 6, 0xFF, 0xFF, 10, 0, 0, 1, 10, 0, 0, 2]
  }

  lemma TestsDiffer()
    ensures RfcAccepts(DifferingHeader()) && !CodeAccepts(DifferingHeader(), 10)
  {
    hide OnesComplement, WordSum;
    var h := DifferingHeader();
    var z := WithWord(h, 10, 0);
    DifferingSum();
    assert OnesComplement(0xFFFF) == 0xFFFF by { FullFolds(); }
    TestsAgree(h, 10);
    NoOverflow(z);
  }

  lemma DifferingSum()
    ensures WordSum(WithWord(DifferingHeader(), 10, 0)) == 0xFFFF
  {
    hide WordSum;
    var a, b: seq<byte> := [0x45, 0, 0, 20, 0x66, 0xE2, 0, 0, 64, 6], [0, 0, 10, 0, 0, 1, 10, 0, 0, 2];
    assert WithWord(DifferingHeader(), 10, 0) == a + b;
    FiveWords(a);
    FiveWords(b);
    WordSumAppend(a, b);
  }

  lemma FiveWords(s: seq<byte>)
    requires |s| == 10
    ensures WordSum(s) ==
            Load16(s[0], s[1]) + Load16(s[2], s[3]) + Load16(s[4], s[5]) + Load16(s[6], s[7]) + Load16(s[8], s[9])
  {
    hide Load16;
    var a, b, c, d := s[2..], s[4..], s[6..], s[8..];
    assert a[2..] == b && b[2..] == c && c[2..] == d && d[2..] == [];
    assert WordSum(s) == Load16(s[0], s[1]) + WordSum(a);
    assert WordSum(a) == Load16(a[0], a[1]) + WordSum(b);
    assert WordSum(b) == Load16(b[0], b[1]) + WordSum(c);
    assert WordSum(c) == Load16(c[0], c[1]) + WordSum(d);
    assert WordSum(d) == Load16(d[0], d[1]);
  }

  lemma FullFolds()
    ensures OnesComplement(0xFFFF) == 0xFFFF
  {
  }
}
