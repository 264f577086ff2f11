/** The number that a bit-field read gives, and the reader of the type dumper that computes
    it byte by byte. */
module BitfieldValue {
  import opened Arithmetic
  import opened Common
  import opened Bitfield

  /** The number a sequence of bits stands for. */
  function Val(b: Bits): nat {
    if b == [] then 0 else (if b[0] then 1 else 0) + 2 * Val(b[1..])
  }

  lemma {:induction false} ValBelow(b: Bits)
    ensures Val(b) < Pow2(|b|)
  {
    if b != [] { ValBelow(b[1..]); }
  }

  lemma {:induction false} ValConcat(a: Bits, b: Bits)
    ensures Val(a + b) == Val(a) + Pow2(|a|) * Val(b)
  {
    if a == [] {
      assert a + b == b;
    } else {
      assert (a + b)[1..] == a[1..] + b;
      ValConcat(a[1..], b);
      MulAssoc(2, Pow2(|a| - 1), Val(b));
    }
  }

  lemma {:induction false} ValZeros(n: nat)
    ensures Val(Fill(false, n)) == 0
  {
    if n > 0 {
      assert Fill(false, n)[1..] == Fill(false, n - 1);
      ValZeros(n - 1);
    }
  }

  lemma MulSwap(x: nat, y: nat)
    ensures x * y == y * x
  {
  }

  /** The number of the field of `width` bits from bit `off` in a number. */
  function FieldOf(num: nat, off: nat, width: nat): nat {
    Remainder(Quotient(num, Pow2(off)), Pow2(width))
  }

  lemma FieldOfIs(num: nat, off: nat, width: nat)
    ensures FieldOf(num, off, width) == num / Pow2(off) % Pow2(width)
  {
    QuotientIs(num, Pow2(off));
    QuotientIs(num / Pow2(off), Pow2(width));
  }

  /** Taking the upper and the lower part of a word divides its number. */
  lemma ValSplit(b: Bits, k: nat)
    requires k <= |b|
    ensures Val(b[k..]) == Quotient(Val(b), Pow2(k)) && Val(b[..k]) == Remainder(Val(b), Pow2(k))
  {
    var lo, hi := b[..k], b[k..];
    assert b == lo + hi;
    ValConcat(lo, hi);
    ValBelow(lo);
    MulSwap(Pow2(k), Val(hi));
    QuotientUnique(Val(b), Pow2(k), Val(hi), Val(lo));
  }

  /** The bits of a field are the field of the number. */
  lemma CutValue(b: Bits, off: nat, width: nat)
    requires off + width <= |b|
    ensures Val(b[off..off + width]) == FieldOf(Val(b), off, width)
  {
    var upper := b[off..];
    assert b[off..off + width] == upper[..width];
    ValSplit(b, off);
    ValSplit(upper, width);
  }

  lemma ValExtended(bits: Bits, n: nat)
    ensures Val(bits + Fill(false, n)) == Val(bits)
  {
    ValConcat(bits, Fill(false, n));
    ValZeros(n);
  }

  lemma ExtendedValue(bits: Bits)
    requires 0 < |bits| <= W
    ensures Val(Extended(bits, false)) == Val(bits)
  {
    ValExtended(bits, W - |bits|);
  }

  /** An unsigned read gives the field of the storage word's number. */
  lemma ReadField(f: Field, mem: Bits)
    requires ValidField(f) && |mem| == 8 * f.size
    ensures Val(Read(f, mem, false)) == FieldOf(Val(mem), f.off, f.width)
  {
    var bits := mem[f.off..f.off + f.width];
    ReadIs(f, mem, false);
    ExtendedValue(bits);
    CutValue(mem, f.off, f.width);
  }

  /** That is the number divided by 2^off, modulo 2^width. */
  lemma ReadValue(f: Field, mem: Bits, num: nat)
    requires ValidField(f) && |mem| == 8 * f.size && num == Val(mem)
    ensures Val(Read(f, mem, false)) == num / Pow2(f.off) % Pow2(f.width)
  {
    ReadField(f, mem);
    FieldOfIs(num, f.off, f.width);
  }

  // ----- Signed fields -----

  /** The number that n bits with the value v stand for in two's complement. */
  function Signed(v: nat, n: nat): int {
    if 2 * v < Pow2(n) then v else v - Pow2(n)
  }

  lemma {:induction false} ValOnes(n: nat)
    ensures Val(Fill(true, n)) == Pow2(n) - 1
  {
    if n > 0 {
      assert Fill(true, n)[1..] == Fill(true, n - 1);
      ValOnes(n - 1);
    }
  }

  /** The top bit says whether the number is negative. */
  lemma TopBit(b: Bits, n: nat)
    requires |b| == n + 1
    ensures b[n] <==> 2 * Val(b) >= Pow2(n + 1)
  {
    assert b == b[..n] + [b[n]] && [b[n]][1..] == [];
    ValConcat(b[..n], [b[n]]);
    ValBelow(b[..n]);
  }

  /** The number of bits with k copies of a bit above them. */
  lemma {:induction false} FilledValue(bits: Bits, s: bool, k: nat, word: Bits)
    requires word == bits + Fill(s, k)
    ensures Val(word) == Val(bits) + if s then Pow2(|word|) - Pow2(|bits|) else 0
  {
    if bits == [] {
      assert word == Fill(s, k);
      if s { ValOnes(k); } else { ValZeros(k); }
    } else {
      FilledValue(bits[1..], s, k, word[1..]);
    }
  }

  /** Extending with the sign keeps the signed number. */
  lemma ExtendedSigned(bits: Bits, s: bool, k: nat, word: Bits, n: nat, m: nat)
    requires |bits| == n + 1 && |word| == m + 1 && word == bits + Fill(s, k) && s == bits[n] == word[m]
    ensures Signed(Val(word), m + 1) == Signed(Val(bits), n + 1)
  {
    FilledValue(bits, s, k, word);
    TopBit(bits, n);
    TopBit(word, m);
    SameSigned(Val(bits), n + 1, Val(word), m + 1, s);
  }

  lemma SameSigned(v: nat, n: nat, w: nat, m: nat, s: bool)
    requires w == v + (if s then Pow2(m) - Pow2(n) else 0)
    requires s == (2 * v >= Pow2(n)) == (2 * w >= Pow2(m))
    ensures Signed(w, m) == Signed(v, n)
  {
  }

  /** The signed read is the field's number in two's complement. */
  lemma SignedRead(f: Field, mem: Bits)
    requires ValidField(f) && |mem| == 8 * f.size
    ensures Signed(Val(Read(f, mem, true)), W) == Signed(Val(mem[f.off..f.off + f.width]), f.width)
  {
    ReadIs(f, mem, true);
    var bits := mem[f.off..f.off + f.width];
    var s, word := bits[f.width - 1], Read(f, mem, true);
    assert word[W - 1] == s;
    ExtendedSigned(bits, s, W - f.width, word, f.width - 1, W - 1);
  }

  /** The number of a little-endian integer. */
  // ----- Bytes -----

  function LittleEndian(bytes: seq<byte>): nat {
    if bytes == [] then 0 else bytes[0] as nat + 256 * LittleEndian(bytes[1..])
  }

  lemma {:induction false} LittleEndianBelow(bytes: seq<byte>)
    ensures LittleEndian(bytes) < Pow2(8 * |bytes|)
  {
    if bytes != [] {
      LittleEndianBelow(bytes[1..]);
      Pow2Sum(8, 8 * (|bytes| - 1));
      assert Pow2(8) == 256;
    }
  }

  function BitsOf(x: nat, n: nat): (b: Bits)
    ensures |b| == n
  {
    if n == 0 then [] else [x % 2 == 1] + BitsOf(x / 2, n - 1)
  }

  lemma {:induction false} ValOfBits(x: nat, n: nat)
    requires x < Pow2(n)
    ensures Val(BitsOf(x, n)) == x
  {
    if n > 0 {
      ValOfBits(x / 2, n - 1);
      assert BitsOf(x, n)[1..] == BitsOf(x / 2, n - 1);
    }
  }

  /** The bits of a piece of memory. */
  function MemoryBits(bytes: seq<byte>): (b: Bits)
    ensures |b| == 8 * |bytes|
  {
    if bytes == [] then [] else BitsOf(bytes[0], 8) + MemoryBits(bytes[1..])
  }

  lemma {:induction false} MemoryValue(bytes: seq<byte>)
    ensures Val(MemoryBits(bytes)) == LittleEndian(bytes)
  {
    if bytes != [] {
      MemoryValue(bytes[1..]);
      assert Pow2(8) == 256;
      ValOfBits(bytes[0], 8);
      ValConcat(BitsOf(bytes[0], 8), MemoryBits(bytes[1..]));
    }
  }

  // ----- The dumper's reader -----

  /** `(num << l) >> r` on 64 bits. */
  function ShiftBoth(num: nat, l: nat, r: nat): nat {
    Quotient(ShiftLeft(num, l), Pow2(r))
  }

  function ShiftLeft(num: nat, l: nat): (r: nat)
    ensures r < TWO64
  {
    Remainder(num * Pow2(l), TWO64)
  }

  /** Shifting to the left drops the bits that do not fit. */
  lemma ShiftLeftIs(num: nat, l: nat, b: Bits, n: nat)
    requires |b| == n == W && Val(b) == num && l <= n && Pow2(n) == TWO64
    ensures Val(Shl(b, l)) == ShiftLeft(num, l)
  {
    var zeros := Fill(false, l);
    var longer := zeros + b;
    ValConcat(zeros, b);
    ValZeros(l);
    assert longer[..n] == Shl(b, l);
    ValSplit(longer, n);
    MulSwap(Pow2(l), num);
  }

  lemma ShiftBothIs(num: nat, off: nat, width: nat, n: nat)
    requires n == W && Pow2(n) == TWO64 && off + width <= n && num < TWO64
    ensures ShiftBoth(num, n - off - width, n - width) == FieldOf(num, off, width)
  {
    var b := BitsOf(num, n);
    ValOfBits(num, n);
    var l, r := n - off - width, n - width;
    var shifted := Shl(b, l);
    ShiftLeftIs(num, l, b, n);
    ValSplit(shifted, r);
    assert shifted[r..] == b[off..off + width];
    CutValue(b, off, width);
  }

  datatype Result = Value(value: nat) | EINVAL

  /** The two shifts that leave the field. */
  method ShiftOut(num: nat, off: nat, width: nat) returns (value: nat)
    requires off + width <= 64 && num < TWO64
    ensures value == FieldOf(num, off, width) == num / Pow2(off) % Pow2(width)
  {
    Pow2Of64();
    ShiftBothIs(num, off, width, 64);
    FieldOfIs(num, off, width);
    value := ShiftBoth(num, 64 - (off + width), 64 - width);
  }

  /** Collects the bytes from the highest down and shifts the field out. */
  method GetBitfieldValue(bytes: seq<byte>, off: nat, width: nat) returns (r: Result)
    requires 0 < width && off + width <= 8 * |bytes|
    ensures r == if |bytes| > 8 then EINVAL else Value(FieldOf(LittleEndian(bytes), off, width))
    ensures r.Value? ==> r.value == LittleEndian(bytes) / Pow2(off) % Pow2(width)
  {
    if |bytes| > 8 {
      return EINVAL;
    }
    var num: nat, i := 0, |bytes| - 1;
    while i >= 0
      invariant -1 <= i < |bytes| && num == LittleEndian(bytes[i + 1..])
    {
      assert bytes[i..][1..] == bytes[i + 1..];
      Below64(bytes[i..]);
      num := (num * 256 + bytes[i]) % TWO64;
      i := i - 1;
    }
    assert bytes[0..] == bytes;
    Below64(bytes);
    var value := ShiftOut(num, off, width);
    return Value(value);
  }

  lemma Below64(bytes: seq<byte>)
    requires |bytes| <= 8
    ensures LittleEndian(bytes) < TWO64
  {
    LittleEndianBelow(bytes);
    Pow2Sum(8 * |bytes|, 64 - 8 * |bytes|);
    Pow2Of64();
    MulMono(1, Pow2(64 - 8 * |bytes|), Pow2(8 * |bytes|));
  }

  /** Both readers agree on every field of every storage word. */
  method ReadersAgree(f: Field, bytes: seq<byte>) returns (dumped: Result)
    requires ValidField(f) && |bytes| == f.size
    ensures dumped == Value(Val(Read(f, MemoryBits(bytes), false)))
  {
    dumped := GetBitfieldValue(bytes, f.off, f.width);
    MemoryValue(bytes);
    ReadField(f, MemoryBits(bytes));
  }
}
