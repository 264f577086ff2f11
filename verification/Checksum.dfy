/** The Internet checksum (section 2 of RFC 1071), computed in network byte order and in the
    byte order of a little-endian machine. */
module Checksum {
  import opened Common

  const TWO32: nat := 0x1_0000_0000
  /** With more bytes than this a 32-bit sum of 16-bit words can overflow. */
  const MAX_LEN: nat := 131074

  function Add32(a: nat, b: nat): (r: nat)
    ensures r < TWO32
    ensures a + b < TWO32 ==> r == a + b
  {
    (a + b) % TWO32
  }

  /** The 16-bit words of a buffer, an odd byte at the end being padded with zero. */
  function Words(b: seq<byte>): nat {
    (|b| + 1) / 2
  }

  function ByteAt(b: seq<byte>, i: nat): nat {
    if i < |b| then b[i] else 0
  }

  /** Word k in the two byte orders. */
  function WordBE(b: seq<byte>, k: nat): (w: nat)
    ensures w < 0x1_0000
  {
    256 * ByteAt(b, 2 * k) + ByteAt(b, 2 * k + 1)
  }

  function WordLE(b: seq<byte>, k: nat): (w: nat)
    ensures w < 0x1_0000
  {
    ByteAt(b, 2 * k) + 256 * ByteAt(b, 2 * k + 1)
  }

  function SumBE(b: seq<byte>, n: nat): nat {
    if n == 0 then 0 else SumBE(b, n - 1) + WordBE(b, n - 1)
  }

  function SumLE(b: seq<byte>, n: nat): nat {
    if n == 0 then 0 else SumLE(b, n - 1) + WordLE(b, n - 1)
  }

  lemma {:induction false} SumsBounded(b: seq<byte>, n: nat)
    ensures SumBE(b, n) <= 0xffff * n && SumLE(b, n) <= 0xffff * n
  {
    if n > 0 { SumsBounded(b, n - 1); }
  }

  /** The ones' complement sum of words that add up to n: between 1 and 0xffff and equal to
      n modulo 0xffff, unless all words are zero. */
  function Ones(n: nat): (r: nat)
    ensures r <= 0xffff
    ensures r == 0 <==> n == 0
  {
    if n == 0 then 0 else (n - 1) % 0xffff + 1
  }

  /** There is only one such number. */
  lemma OnesUnique(n: nat, r: nat, q: int)
    requires n == 0xffff * q + r && (if n == 0 then r == 0 else 0 < r <= 0xffff)
    ensures Ones(n) == r
  {
  }

  lemma OnesIs(n: nat) returns (q: nat)
    ensures n == 0xffff * q + Ones(n)
  {
    q := if n == 0 then 0 else (n - 1) / 0xffff;
  }

  /** Adding the carry back does not change the ones' complement sum. */
  lemma FoldOnce(n: nat)
    ensures Ones(n % 0x1_0000 + n / 0x1_0000) == Ones(n)
    ensures n >= 0x1_0000 ==> n % 0x1_0000 + n / 0x1_0000 < n
  {
    var hi, lo := n / 0x1_0000, n % 0x1_0000;
    var m := lo + hi;
    var q := OnesIs(m);
    OnesUnique(n, Ones(m), q + hi);
  }

  /** The fold loop: carries are added back until none is left. */
  method Fold(sum: nat) returns (r: nat)
    ensures r == Ones(sum)
  {
    r := sum;
    while r > 0xffff
      invariant Ones(r) == Ones(sum)
      decreases r
    {
      FoldOnce(r);
      r := r % 0x1_0000 + r / 0x1_0000;
    }
  }

  /** The checksum in network byte order, as the echo request uses it. */
  method CalculateChecksum(b: seq<byte>) returns (c: nat)
    ensures c <= 0xffff
    ensures |b| <= MAX_LEN ==> c == 0xffff - Ones(SumBE(b, Words(b)))
  {
    var checksum: nat := 0;
    var end := |b|;
    if |b| % 2 == 1 {
      end := |b| - 1;
      checksum := Add32(checksum, ByteAt(b, end) * 256);
    }
    ghost var odd, words, k := checksum, end / 2, 0;
    var i := 0;
    while i < end
      invariant i == 2 * k <= end == 2 * words
      invariant |b| <= MAX_LEN ==> checksum == SumBE(b, k) + odd
      decreases words - k
    {
      SumsBounded(b, k);
      checksum := Add32(checksum, ByteAt(b, i) * 256);
      checksum := Add32(checksum, ByteAt(b, i + 1));
      i, k := i + 2, k + 1;
    }
    var r := Fold(checksum);
    return 0xffff - r;
  }

  /** The checksum in the machine's own (little-endian) byte order. */
  method NativeChecksum(b: seq<byte>) returns (c: nat)
    ensures c <= 0xffff
    ensures |b| <= MAX_LEN ==> c == 0xffff - Ones(SumLE(b, Words(b)))
  {
    var csum: nat, i: nat := 0, 0;
    ghost var k := 0;
    while i < |b| - 1
      invariant i == 2 * k <= |b|
      invariant |b| <= MAX_LEN ==> csum == SumLE(b, k)
      decreases |b| - i
    {
      SumsBounded(b, k);
      csum := Add32(csum, ByteAt(b, i) + 256 * ByteAt(b, i + 1));
      i, k := i + 2, k + 1;
    }
    if |b| % 2 == 1 {
      SumsBounded(b, k);
      csum := Add32(csum, ByteAt(b, i));
    }
    var r := Fold(csum);
    return 0xffff - r;
  }

  // ----- Buffers of odd length -----

  lemma {:induction false} SamePrefix(b: seq<byte>, b': seq<byte>, n: nat)
    requires 2 * n <= |b| && 2 * n <= |b'| && forall i :: 0 <= i < 2 * n ==> b[i] == b'[i]
    ensures SumBE(b, n) == SumBE(b', n) && SumLE(b, n) == SumLE(b', n)
  {
    if n > 0 { SamePrefix(b, b', n - 1); }
  }

  /** With n full words in front, one or two more bytes are word n. */
  lemma NextWord(b: seq<byte>, n: nat, b': seq<byte>)
    requires |b| == 2 * n && 2 * n < |b'| <= 2 * n + 2 && b'[..2 * n] == b
    ensures SumBE(b', Words(b')) == SumBE(b, Words(b)) + WordBE(b', n)
    ensures SumLE(b', Words(b')) == SumLE(b, Words(b)) + WordLE(b', n)
  {
    assert Words(b) == n && Words(b') == n + 1;
    assert forall i :: 0 <= i < 2 * n ==> b'[..2 * n][i] == b'[i];
    SamePrefix(b, b', n);
  }

  /** Two more bytes behind an even number are one more word, with the first byte as the high
      or the low one. */
  lemma EvenWord(b: seq<byte>, x: byte, y: byte, b': seq<byte>)
    requires |b| % 2 == 0 && b' == b + [x, y]
    ensures SumBE(b', Words(b')) == SumBE(b, Words(b)) + 256 * x as int + y as int
    ensures SumLE(b', Words(b')) == SumLE(b, Words(b)) + x as int + 256 * y as int
  {
    NextWord(b, |b| / 2, b');
  }

  /** One more byte counts as if a zero followed it. */
  lemma OddWord(b: seq<byte>, x: byte, b': seq<byte>)
    requires |b| % 2 == 0 && b' == b + [x]
    ensures SumBE(b', Words(b')) == SumBE(b, Words(b)) + 256 * x as int
    ensures SumLE(b', Words(b')) == SumLE(b, Words(b)) + x as int
  {
    NextWord(b, |b| / 2, b');
  }

  /** So appending that zero leaves both checksums as they are. */
  lemma OddByteCounts(b: seq<byte>, b': seq<byte>)
    requires |b| % 2 == 1 && b' == b + [0]
    ensures SumBE(b', Words(b')) == SumBE(b, Words(b)) && SumLE(b', Words(b')) == SumLE(b, Words(b))
  {
    var n := |b| - 1;
    assert b' == b[..n] + [b[n], 0];
    OddWord(b[..n], b[n], b);
    EvenWord(b[..n], b[n], 0, b');
  }

  // ----- The two byte orders -----

  function Swap(x: nat): nat {
    x / 256 + 256 * (x % 256)
  }

  /** Modulo 0xffff the little-endian sum is 256 times the big-endian one. */
  lemma {:induction false} SumsAgree(b: seq<byte>, n: nat) returns (q: nat)
    ensures 256 * SumBE(b, n) == SumLE(b, n) + 0xffff * q
    ensures SumBE(b, n) == 0 <==> SumLE(b, n) == 0
  {
    if n == 0 {
      q := 0;
    } else {
      var q0 := SumsAgree(b, n - 1);
      q := q0 + ByteAt(b, 2 * (n - 1));
    }
  }

  lemma SwapOnes(be: nat, le: nat, q: nat)
    requires 256 * be == le + 0xffff * q && (be == 0 <==> le == 0)
    ensures Ones(le) == Swap(Ones(be))
  {
    var x := Ones(be);
    var k := OnesIs(be);
    // 256 * x and Swap(x) differ by a multiple of 0xffff.
    assert 256 * x == Swap(x) + 0xffff * (x / 256);
    assert le == 0xffff * (256 * k + x / 256 - q) + Swap(x);
    OnesUnique(le, Swap(x), 256 * k + x / 256 - q);
  }

  /** The native checksum is the byte swap of the one in network order, for every length. */
  lemma ByteOrdersAgree(b: seq<byte>)
    ensures 0xffff - Ones(SumLE(b, Words(b))) == Swap(0xffff - Ones(SumBE(b, Words(b))))
  {
    var q := SumsAgree(b, Words(b));
    SwapOnes(SumBE(b, Words(b)), SumLE(b, Words(b)), q);
    SwapComplement(Ones(SumBE(b, Words(b))));
  }

  lemma SwapComplement(x: nat)
    requires x <= 0xffff
    ensures Swap(0xffff - x) == 0xffff - Swap(x)
  {
  }

  // ----- A stored checksum cancels out -----

  /** The buffer with a value stored at word k, high byte first. */
  function StoreBE(b: seq<byte>, k: nat, c: nat): seq<byte>
    requires 2 * k + 1 < |b| && c <= 0xffff
  {
    b[2 * k := c / 256][2 * k + 1 := c % 256]
  }

  lemma {:induction false} StoredSum(b: seq<byte>, k: nat, c: nat, b': seq<byte>, n: nat)
    requires 2 * k + 1 < |b| && c <= 0xffff && b[2 * k] == 0 && b[2 * k + 1] == 0 && b' == StoreBE(b, k, c)
    ensures SumBE(b', n) == SumBE(b, n) + if k < n then c else 0
  {
    if n > 0 {
      StoredSum(b, k, c, b', n - 1);
      if k == n - 1 {
        assert WordBE(b', k) == c && WordBE(b, k) == 0;
      } else {
        assert WordBE(b', n - 1) == WordBE(b, n - 1);
      }
    }
  }

  /** With the checksum in its field, which was zero before, the checksum of the whole is
      zero. */
  lemma StoredCancels(b: seq<byte>, k: nat, c: nat)
    requires 2 * k + 1 < |b| && b[2 * k] == 0 && b[2 * k + 1] == 0
    requires c == 0xffff - Ones(SumBE(b, Words(b)))
    ensures 0xffff - Ones(SumBE(StoreBE(b, k, c), Words(b))) == 0
  {
    var b' := StoreBE(b, k, c);
    var sum := SumBE(b, Words(b));
    StoredSum(b, k, c, b', Words(b));
    var q := OnesIs(sum);
    OnesUnique(sum + c, 0xffff, q);
  }

  /** The native checksum stored in native order puts the same bytes into the field. */
  lemma NativeStoresAlike(b: seq<byte>, k: nat, c: nat, native: nat)
    requires 2 * k + 1 < |b| && b[2 * k] == 0 && b[2 * k + 1] == 0
    requires c == 0xffff - Ones(SumBE(b, Words(b))) && native == 0xffff - Ones(SumLE(b, Words(b)))
    ensures [native % 256, native / 256] == [c / 256, c % 256]
    ensures b[2 * k := native % 256][2 * k + 1 := native / 256] == StoreBE(b, k, c)
    ensures 0xffff - Ones(SumLE(StoreBE(b, k, c), Words(b))) == 0
  {
    ByteOrdersAgree(b);
    SwapBytes(c, native);
    StoredCancels(b, k, c);
    var b' := StoreBE(b, k, c);
    assert Words(b') == Words(b);
    ByteOrdersAgree(b');
  }

  lemma SwapBytes(c: nat, native: nat)
    requires c <= 0xffff && native == Swap(c)
    ensures native % 256 == c / 256 && native / 256 == c % 256
  {
  }

  /** Filling in a header's checksum field: a receiver that sums up the result gets zero. */
  method SendWithChecksum(b: seq<byte>, k: nat) returns (packet: seq<byte>, verdict: nat)
    requires 2 * k + 1 < |b| <= MAX_LEN && b[2 * k] == 0 && b[2 * k + 1] == 0
    ensures |packet| == |b| && forall i :: 0 <= i < |b| && i / 2 != k ==> packet[i] == b[i]
    ensures verdict == 0 && packet[2 * k] as nat * 256 + packet[2 * k + 1] == 0xffff - Ones(SumBE(b, Words(b)))
  {
    var c := CalculateChecksum(b);
    packet := StoreBE(b, k, c);
    StoredCancels(b, k, c);
    verdict := CalculateChecksum(packet);
  }
}
