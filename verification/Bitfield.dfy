/** Reading and writing a bit-field inside a storage word of 1, 2, 4 or 8 bytes on a
    little-endian machine. Words are sequences of bits, the lowest first. */
module Bitfield {

  type Bits = seq<bool>

  const W: nat := 64

  /** A bit-field: `width` bits from bit `off` of a storage word of `size` bytes. */
  datatype Field = Field(size: nat, off: nat, width: nat)

  predicate ValidField(f: Field) {
    (f.size == 1 || f.size == 2 || f.size == 4 || f.size == 8) && 0 < f.width && f.off + f.width <= 8 * f.size
  }

  function Fill(b: bool, n: nat): (r: Bits)
    ensures |r| == n && forall i :: 0 <= i < n ==> r[i] == b
  {
    seq(n, _ => b)
  }

  // ----- 64-bit operations -----

  function Shl(v: Bits, k: nat): Bits
    requires |v| == W && k <= W
  {
    Fill(false, k) + v[..W - k]
  }

  function Shr(v: Bits, k: nat): Bits
    requires |v| == W && k <= W
  {
    v[k..] + Fill(false, k)
  }

  /** A signed shift to the right copies the sign. */
  function Sar(v: Bits, k: nat): Bits
    requires |v| == W && k <= W
  {
    v[k..] + Fill(v[W - 1], k)
  }

  function Not(v: Bits): (r: Bits)
    ensures |r| == |v| && forall i :: 0 <= i < |v| ==> r[i] == !v[i]
  {
    seq(|v|, i requires 0 <= i < |v| => !v[i])
  }

  function And(v: Bits, w: Bits): (r: Bits)
    requires |v| == |w|
    ensures |r| == |v| && forall i :: 0 <= i < |v| ==> r[i] == (v[i] && w[i])
  {
    seq(|v|, i requires 0 <= i < |v| => v[i] && w[i])
  }

  function Or(v: Bits, w: Bits): (r: Bits)
    requires |v| == |w|
    ensures |r| == |v| && forall i :: 0 <= i < |v| ==> r[i] == (v[i] || w[i])
  {
    seq(|v|, i requires 0 <= i < |v| => v[i] || w[i])
  }

  // ----- The macros -----

  function LeftShift(f: Field): nat
    requires ValidField(f)
  {
    W - f.off - f.width
  }

  function RightShift(f: Field): nat
    requires ValidField(f)
  {
    W - f.width
  }

  /** Loading a storage word fills up with zeros. */
  function Load(mem: Bits): Bits
    requires |mem| <= W
  {
    mem + Fill(false, W - |mem|)
  }

  /** BPF_CORE_READ_BITFIELD on the storage word `mem`. */
  function Read(f: Field, mem: Bits, signed: bool): Bits
    requires ValidField(f) && |mem| == 8 * f.size
  {
    var val := Shl(Load(mem), LeftShift(f));
    if signed then Sar(val, RightShift(f)) else Shr(val, RightShift(f))
  }

  function Mask(f: Field): Bits
    requires ValidField(f)
  {
    Shr(Shl(Fill(true, W), RightShift(f)), LeftShift(f))
  }

  /** BPF_CORE_WRITE_BITFIELD: the storage word after writing `nval`. */
  function Write(f: Field, mem: Bits, nval: Bits): Bits
    requires ValidField(f) && |mem| == 8 * f.size && |nval| == W
  {
    var rpad := RightShift(f) - LeftShift(f);
    var val := Or(And(Load(mem), Not(Mask(f))), And(Shl(nval, rpad), Mask(f)));
    val[..8 * f.size]
  }

  // ----- What they mean -----

  /** Some bits extended to a word, with zeros or with their sign. */
  function Extended(bits: Bits, signed: bool): Bits
    requires 0 < |bits| <= W
  {
    bits + Fill(signed && bits[|bits| - 1], W - |bits|)
  }

  lemma ShlAt(v: Bits, k: nat, i: nat)
    requires |v| == W && k <= W && i < W
    ensures |Shl(v, k)| == W && Shl(v, k)[i] == (i >= k && v[i - k])
  {
  }

  lemma ShrAt(v: Bits, k: nat, i: nat)
    requires |v| == W && k <= W && i < W
    ensures |Shr(v, k)| == W && Shr(v, k)[i] == (i + k < W && v[i + k])
  {
  }

  /** The mask has ones exactly at the field. */
  lemma MaskAt(f: Field, i: nat)
    requires ValidField(f) && i < W
    ensures |Mask(f)| == W && Mask(f)[i] == (f.off <= i < f.off + f.width)
  {
    var ones := Fill(true, W);
    ShrAt(Shl(ones, RightShift(f)), LeftShift(f), i);
    if i + LeftShift(f) < W { ShlAt(ones, RightShift(f), i + LeftShift(f)); }
  }

  lemma LoadAt(mem: Bits, i: nat)
    requires |mem| <= W && i < |mem|
    ensures |Load(mem)| == W && Load(mem)[i] == mem[i]
  {
  }

  /** Reading gives the field's bits, extended. */
  lemma ReadIs(f: Field, mem: Bits, signed: bool)
    requires ValidField(f) && |mem| == 8 * f.size
    ensures Read(f, mem, signed) == Extended(mem[f.off..f.off + f.width], signed)
  {
    var l, r := LeftShift(f), RightShift(f);
    var val := Shl(Load(mem), l);
    var bits := mem[f.off..f.off + f.width];
    forall i | 0 <= i < f.width ensures val[r + i] == bits[i] {
      ShlAt(Load(mem), l, r + i);
      LoadAt(mem, f.off + i);
    }
    assert val[r..] == bits;
    assert val[W - 1] == bits[f.width - 1];
  }

  /** Writing replaces the field's bits and no others. */
  lemma WriteIs(f: Field, mem: Bits, nval: Bits)
    requires ValidField(f) && |mem| == 8 * f.size && |nval| == W
    ensures Write(f, mem, nval) == mem[..f.off] + nval[..f.width] + mem[f.off + f.width..]
  {
    var mem' := Write(f, mem, nval);
    forall i | 0 <= i < |mem| ensures mem'[i] == if f.off <= i < f.off + f.width then nval[i - f.off] else mem[i] {
      WriteAt(f, mem, nval, i);
    }
  }

  lemma WriteAt(f: Field, mem: Bits, nval: Bits, i: nat)
    requires ValidField(f) && |mem| == 8 * f.size && |nval| == W && i < |mem|
    ensures |Write(f, mem, nval)| == |mem|
    ensures Write(f, mem, nval)[i] == if f.off <= i < f.off + f.width then nval[i - f.off] else mem[i]
  {
    MaskAt(f, i);
    LoadAt(mem, i);
    ShlAt(nval, RightShift(f) - LeftShift(f), i);
  }

  /** What was written is read back, cut to the width and extended; all other bits of the
      storage word are as before. */
  lemma WriteThenRead(f: Field, mem: Bits, nval: Bits, signed: bool)
    requires ValidField(f) && |mem| == 8 * f.size && |nval| == W
    ensures |Write(f, mem, nval)| == |mem|
    ensures Read(f, Write(f, mem, nval), signed) == Extended(nval[..f.width], signed)
    ensures forall i :: 0 <= i < |mem| && !(f.off <= i < f.off + f.width) ==> Write(f, mem, nval)[i] == mem[i]
  {
    var mem' := Write(f, mem, nval);
    WriteIs(f, mem, nval);
    ReadIs(f, mem', signed);
    assert mem'[f.off..f.off + f.width] == nval[..f.width];
  }

  /** Writing back what is there changes nothing. */
  lemma ReadThenWrite(f: Field, mem: Bits, signed: bool)
    requires ValidField(f) && |mem| == 8 * f.size
    ensures Write(f, mem, Read(f, mem, signed)) == mem
  {
    ReadIs(f, mem, signed);
    var bits := mem[f.off..f.off + f.width];
    var val := Extended(bits, signed);
    assert val[..f.width] == bits;
    WriteIs(f, mem, val);
  }
}
