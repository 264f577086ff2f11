/** The printer's padding and the body of a struct definition. */
module StructPadding {
  import opened Arithmetic
  import opened StructLayout

  predicate PadUnit(p: nat) {
    p == 64 || p == 32 || p == 16 || p == 8
  }

  /** The padding types of one pointer size, the largest first. */
  predicate PadTable(pads: seq<nat>) {
    |pads| == 4 && (pads[0] == 64 || pads[0] == 32) && pads[1] == 32 && pads[2] == 16 && pads[3] == 8
  }

  /** The printer's offset is `cur`; the compiler is either there too, or behind with the
      next padding unit starting at `cur` and the gap ahead wider than the one behind. */
  ghost predicate Follows(pos: nat, cur: nat, next: nat, unit: nat)
    requires unit > 0
  {
    && cur % unit == 0
    && (pos == cur || (pos < cur < pos + unit && cur - pos < next - cur))
  }

  /** Padding that cannot start before `cur` without crossing it starts there. */
  lemma StartsAt(pos: nat, cur: nat, unit: nat, width: nat)
    requires unit > 0 && cur % unit == 0 && 0 < width <= unit
    requires pos <= cur < pos + width
    ensures Start(pos, Pad(unit, width)) == cur
  {
    var k := cur / unit;
    assert cur == k * unit;
    RoundUpTo(pos, unit, cur);
    DivUnique(pos + width - 1, unit, k, pos + width - 1 - cur);
    if pos < cur {
      assert k > 0;
      assert (k - 1) * unit == cur - unit;
      DivUnique(pos, unit, k - 1, pos - (cur - unit));
    }
  }

  lemma SmallerDivides(cur: nat, unit: nat, small: nat)
    requires PadUnit(unit) && PadUnit(small) && small <= unit && cur % unit == 0
    ensures cur % small == 0
  {
    var k := unit / small;
    assert unit == k * small;
    var q := cur / unit;
    assert cur == q * k * small by { assert cur == q * unit; MulAssoc(q, k, small); }
    MultipleMod(q * k, small);
  }

  /** A full unit goes to `cur` whether or not the compiler was behind. */
  lemma FullPad(pos: nat, cur: nat, next: nat, unit: nat)
    requires PadUnit(unit) && Follows(pos, cur, next, unit)
    ensures Start(pos, Pad(unit, unit)) == cur
  {
    StartsAt(pos, cur, unit, unit);
  }

  /** The remainder goes to `cur` in the smallest type that holds it. */
  lemma LastPad(pos: nat, cur: nat, next: nat, unit: nat, small: nat)
    requires PadUnit(unit) && PadUnit(small) && small <= unit && Follows(pos, cur, next, unit)
    requires cur < next && next - cur <= small
    ensures Start(pos, Pad(small, next - cur)) == cur
  {
    SmallerDivides(cur, unit, small);
    StartsAt(pos, cur, small, next - cur);
  }

  /** `type: 0` goes to the next boundary. */
  lemma Mark(pos: nat, unit: nat)
    requires unit > 0
    ensures Start(pos, Pad(unit, 0)) == RoundUp(pos, unit)
  {
  }

  /** Padding leaves the members, their offsets and the alignment as they were. */
  ghost predicate Untouched(items: seq<Item>, items': seq<Item>)
    requires AllSensible(items)
  {
    && AllSensible(items') && Offsets(items') == Offsets(items)
    && Alignment(items') == Alignment(items) && Fields(items') == Fields(items)
  }

  lemma PadAppended(items: seq<Item>, items1: seq<Item>, pad: Item, items2: seq<Item>)
    requires AllSensible(items) && Untouched(items, items1) && pad.Pad? && Sensible(pad) && items2 == items1 + [pad]
    ensures Untouched(items, items2)
    ensures End(items2) == Start(End(items1), pad) + Bits(pad)
  {
    Appended(items1, pad, items2);
    FieldsAppended(items1, pad);
  }

  /** The largest type whose boundary is reached before `next`. */
  method ChoosePad(pads: seq<nat>, cur: nat, next: nat) returns (padBits: nat, newOff: nat)
    requires PadTable(pads)
    requires cur % 8 == 0 && next % 8 == 0 && cur < next
    ensures PadUnit(padBits) && padBits in pads && newOff == RoundUp(cur, padBits) <= next
    ensures forall i :: 0 <= i < |pads| && RoundUp(cur, pads[i]) <= next ==> pads[i] <= padBits
  {
    RoundUpTo(cur, 8, cur);
    var i := 0;
    padBits, newOff := 8, RoundUp(cur, 8);
    while i < |pads|
      invariant 0 <= i <= |pads|
      invariant i > 0 ==> PadUnit(padBits) && newOff == RoundUp(cur, padBits) && padBits == pads[i - 1]
      invariant forall j :: 0 <= j < i ==> RoundUp(cur, pads[j]) > next
    {
      padBits := pads[i];
      newOff := RoundUp(cur, padBits);
      if newOff <= next {
        return;
      }
      i := i + 1;
    }
    assert false;
  }

  method SmallestPad(pads: seq<nat>, bits: nat) returns (small: nat)
    requires PadTable(pads) && 0 < bits < pads[0]
    ensures PadUnit(small) && small in pads && bits <= small
    ensures forall p :: p in pads && bits <= p ==> small <= p
  {
    var i := |pads| - 1;
    while i >= 0
      invariant -1 <= i < |pads|
      invariant forall j :: i < j < |pads| ==> pads[j] < bits
    {
      if pads[i] >= bits {
        return pads[i];
      }
      i := i - 1;
    }
    assert false;
  }

  /** Fills the gap from `cur` on with whole units and one remainder. */
  method Fill(pads: seq<nat>, items: seq<Item>, cur0: nat, next: nat, padBits0: nat) returns (items': seq<Item>)
    requires PadTable(pads)
    requires AllSensible(items) && PadUnit(padBits0) && padBits0 in pads && cur0 <= next
    ensures Untouched(items, items')
    ensures cur0 == next ==> items' == items
    ensures cur0 < next && Follows(End(items), cur0, next, padBits0) ==> End(items') == next
  {
    var cur, padBits := cur0, padBits0;
    items' := items;
    while cur != next
      invariant cur0 <= cur <= next && PadUnit(padBits) && padBits in pads && Untouched(items, items')
      invariant cur0 == next ==> items' == items
      invariant Follows(End(items), cur0, next, padBits0) ==>
                  if cur == next then cur0 < next ==> End(items') == next else Follows(End(items'), cur, next, padBits)
      decreases next - cur
    {
      var bits := if next - cur < padBits then next - cur else padBits;
      ghost var before := items';
      if bits == padBits {
        items' := items' + [Pad(padBits, padBits)];
        PadAppended(items, before, Pad(padBits, padBits), items');
        if Follows(End(before), cur, next, padBits) {
          FullPad(End(before), cur, next, padBits);
          NextUnit(cur, padBits);
        }
        cur := cur + bits;
        continue;
      }
      var small := SmallestPad(pads, bits);
      items' := items' + [Pad(small, bits)];
      PadAppended(items, before, Pad(small, bits), items');
      if Follows(End(before), cur, next, padBits) {
        LastPad(End(before), cur, next, padBits, small);
      }
      cur, padBits := cur + bits, small;
    }
  }

  lemma NextUnit(cur: nat, unit: nat)
    requires PadUnit(unit) && cur % unit == 0
    ensures (cur + unit) % unit == 0
  {
    var k := cur / unit;
    assert cur + unit == (k + 1) * unit;
    MultipleMod(k + 1, unit);
  }

  /** What the padding in front of something with alignment `align` at `next` achieves. */
  ghost predicate PadsUpTo(items: seq<Item>, items': seq<Item>, cur: nat, next: nat, align: nat)
    requires AllSensible(items) && align > 0
  {
    && Untouched(items, items')
    && (cur >= next ==> items' == items)
    && (End(items) == cur < next && next % (8 * align) == 0 ==> RoundUp(End(items'), 8 * align) == next)
  }

  /** Padding between `cur` and `next`: if the compiler is at `cur`, what has alignment
      `align` next lands at `next`. */
  method EmitBitPadding(ptrSz: nat, items: seq<Item>, cur: nat, next: nat, align: nat) returns (items': seq<Item>)
    requires (ptrSz == 4 || ptrSz == 8) && align > 0 && cur % 8 == 0 && next % 8 == 0 && AllSensible(items)
    ensures PadsUpTo(items, items', cur, next, align)
  {
    items' := items;
    if cur >= next {
      return;
    }
    var pads := [ptrSz * 8, 32, 16, 8];
    var padBits, newOff := ChoosePad(pads, cur, next);
    RoundUpIs(cur, padBits);
    if newOff > cur {
      if (newOff == next && RoundUp(cur, align * 8) != newOff) || (newOff != next && next - newOff <= newOff - cur) {
        items' := items + [Pad(padBits, 0)];
        PadAppended(items, items, Pad(padBits, 0), items');
      }
    }
    items' := Fill(pads, items', newOff, next, padBits);
    if next % (8 * align) == 0 { RoundUpTo(next, 8 * align, next); }
  }

  /** Whether some member is off its alignment or the size is no multiple of it. */
  method IsStructPacked(s: Struct) returns (packed: bool)
    requires WellFormed(s)
    ensures packed <==> Packed(s)
  {
    var maxAlign, i := 1, 0;
    while i < |s.members|
      invariant 0 <= i <= |s.members|
      invariant forall j :: 0 <= j < i ==> NaturallyAligned(s.members[j])
      invariant maxAlign == MaxAlign(s.members, i)
    {
      if s.members[i].off % (8 * s.members[i].align) != 0 {
        assert !NaturallyAligned(s.members[i]);
        return true;
      }
      maxAlign := if s.members[i].align > maxAlign then s.members[i].align else maxAlign;
      i := i + 1;
    }
    return s.size % maxAlign != 0;
  }

  function FieldOf(m: Member): Item {
    Field(m.size, m.align)
  }

  /** The first n members are printed, in order. */
  ghost predicate Prints(s: Struct, n: nat, items: seq<Item>)
    requires n <= |s.members|
  {
    && AllSensible(items) && |Fields(items)| == n
    && (forall i :: 0 <= i < n ==> Fields(items)[i] == FieldOf(s.members[i]))
    && Alignment(items) == MaxAlign(s.members, n)
  }

  /** The first n members have landed where they belong. */
  ghost predicate Landed(s: Struct, n: nat, items: seq<Item>)
    requires n <= |s.members| && AllSensible(items)
  {
    && |Offsets(items)| == n
    && (forall i :: 0 <= i < n ==> Offsets(items)[i] == s.members[i].off)
    && End(items) == EndOf(s, n)
  }

  lemma MemberPrinted(s: Struct, n: nat, items: seq<Item>, items1: seq<Item>, f: Item, items2: seq<Item>)
    requires WellFormed(s) && n < |s.members| && Prints(s, n, items) && Untouched(items, items1)
    requires f == FieldOf(s.members[n]) && items2 == items1 + [f]
    ensures Prints(s, n + 1, items2)
  {
    Appended(items1, f, items2);
    FieldsAppended(items1, f);
    var fields, fields2 := Fields(items), Fields(items2);
    assert fields2 == fields + [f];
  }

  lemma MemberPlaced(s: Struct, n: nat, items: seq<Item>, items1: seq<Item>, f: Item, items2: seq<Item>, start: nat)
    requires WellFormed(s) && n < |s.members| && Prints(s, n, items) && Untouched(items, items1)
    requires f == FieldOf(s.members[n]) && items2 == items1 + [f] && AllSensible(items2)
    requires start == RoundUp(End(items1), 8 * s.members[n].align)
    ensures Offsets(items2) == Offsets(items) + [start]
    ensures End(items2) == start + 8 * s.members[n].size
  {
    Appended(items1, f, items2);
  }

  /** With its padding in place, an aligned member lands at its offset. */
  lemma MemberLands(s: Struct, n: nat, items: seq<Item>, items1: seq<Item>)
    requires WellFormed(s) && n < |s.members| && AllSensible(items) && Landed(s, n, items) && AllSensible(items1)
    requires NaturallyAligned(s.members[n]) && EndOf(s, n) <= s.members[n].off
    requires EndOf(s, n) >= s.members[n].off ==> items1 == items
    requires EndOf(s, n) < s.members[n].off ==> RoundUp(End(items1), 8 * s.members[n].align) == s.members[n].off
    ensures RoundUp(End(items1), 8 * s.members[n].align) == s.members[n].off
  {
    if EndOf(s, n) == s.members[n].off {
      RoundUpTo(EndOf(s, n), 8 * s.members[n].align, s.members[n].off);
    }
  }

  /** A body that reproduces the layout shows that the members do not overlap. */
  lemma ReproducedIsAscending(s: Struct, items: seq<Item>)
    requires Prints(s, |s.members|, items) && Reproduces(s, items)
    ensures Ascending(s)
  {
    LaidOutInOrder(items);
    RoundUpIs(End(items), 8 * Alignment(items));
    forall i | 0 <= i < |s.members| ensures EndOf(s, i) <= s.members[i].off {
      if i > 0 { assert Fields(items)[i - 1] == FieldOf(s.members[i - 1]); }
    }
    var n := |s.members|;
    if n > 0 { assert Fields(items)[n - 1] == FieldOf(s.members[n - 1]); }
  }

  lemma SizeReproduced(s: Struct, items: seq<Item>, items': seq<Item>)
    requires Prints(s, |s.members|, items) && Landed(s, |s.members|, items) && Untouched(items, items')
    requires s.size % MaxAlign(s.members, |s.members|) == 0 && EndOf(s, |s.members|) <= 8 * s.size
    requires EndOf(s, |s.members|) >= 8 * s.size ==> items' == items
    requires EndOf(s, |s.members|) < 8 * s.size ==>
               RoundUp(End(items'), 8 * MaxAlign(s.members, |s.members|)) == 8 * s.size
    ensures Reproduces(s, items')
  {
    var a := MaxAlign(s.members, |s.members|);
    BitsMultiple(s.size, a);
    if EndOf(s, |s.members|) == 8 * s.size {
      RoundUpTo(8 * s.size, 8 * a, 8 * s.size);
    }
  }

  lemma BitsMultiple(size: nat, a: nat)
    requires a > 0 && size % a == 0
    ensures 8 * size % (8 * a) == 0
  {
    var k := size / a;
    assert size == k * a;
    assert 8 * size == k * (8 * a);
    MultipleMod(k, 8 * a);
  }

  lemma EndOfBytes(s: Struct, n: nat)
    requires WellFormed(s) && n <= |s.members|
    ensures EndOf(s, n) % 8 == 0
  {
  }

  lemma MemberStep(s: Struct, n: nat, items: seq<Item>, items1: seq<Item>, items2: seq<Item>)
    requires WellFormed(s) && n < |s.members| && Prints(s, n, items) && !Packed(s)
    requires PadsUpTo(items, items1, EndOf(s, n), s.members[n].off, s.members[n].align)
    requires items2 == items1 + [FieldOf(s.members[n])]
    requires AscendingTo(s, n) ==> Landed(s, n, items)
    requires Prints(s, n + 1, items2)
    ensures AscendingTo(s, n + 1) ==> Landed(s, n + 1, items2)
  {
    if AscendingTo(s, n + 1) {
      assert NaturallyAligned(s.members[n]) && EndOf(s, n) <= s.members[n].off;
      MemberLands(s, n, items, items1);
      MemberPlaced(s, n, items, items1, FieldOf(s.members[n]), items2, s.members[n].off);
    }
  }

  lemma LastStep(s: Struct, items: seq<Item>, items': seq<Item>)
    requires WellFormed(s) && Prints(s, |s.members|, items) && !Packed(s)
    requires PadsUpTo(items, items', EndOf(s, |s.members|), 8 * s.size, MaxAlign(s.members, |s.members|))
    requires AscendingTo(s, |s.members|) ==> Landed(s, |s.members|, items)
    ensures Reproduces(s, items') <==> Ascending(s)
  {
    if Ascending(s) {
      BitsMultiple(s.size, MaxAlign(s.members, |s.members|));
      SizeReproduced(s, items, items');
    }
    if Reproduces(s, items') {
      ReproducedIsAscending(s, items');
    }
  }

  /** One member with the padding in front of it. */
  method EmitMember(ptrSz: nat, s: Struct, packed: bool, n: nat, off: nat, items: seq<Item>) returns (items': seq<Item>)
    requires (ptrSz == 4 || ptrSz == 8) && WellFormed(s) && (packed <==> Packed(s)) && n < |s.members|
    requires off == EndOf(s, n) && Prints(s, n, items) && (!packed && AscendingTo(s, n) ==> Landed(s, n, items))
    ensures Prints(s, n + 1, items') && (!packed && AscendingTo(s, n + 1) ==> Landed(s, n + 1, items'))
  {
    var m := s.members[n];
    EndOfBytes(s, n);
    var align := if packed then 1 else m.align;
    var padded := EmitBitPadding(ptrSz, items, off, m.off, align);
    items' := padded + [FieldOf(m)];
    MemberPrinted(s, n, items, padded, FieldOf(m), items');
    if !packed { MemberStep(s, n, items, padded, items'); }
  }

  /** The body of the definition. Unless the struct is packed, a C compiler gives it the
      offsets and the size of the type information exactly if these do not overlap. */
  method EmitStructDef(ptrSz: nat, s: Struct) returns (items: seq<Item>, packed: bool)
    requires (ptrSz == 4 || ptrSz == 8) && WellFormed(s)
    ensures packed <==> Packed(s)
    ensures Prints(s, |s.members|, items)
    ensures !packed ==> (Reproduces(s, items) <==> Ascending(s))
  {
    packed := IsStructPacked(s);
    items := [];
    var off, i := 0, 0;
    while i < |s.members|
      invariant 0 <= i <= |s.members| && off == EndOf(s, i)
      invariant Prints(s, i, items)
      invariant !packed && AscendingTo(s, i) ==> Landed(s, i, items)
    {
      items := EmitMember(ptrSz, s, packed, i, off, items);
      off := s.members[i].off + s.members[i].size * 8;
      i := i + 1;
    }
    items := EmitTail(ptrSz, s, packed, off, items);
  }

  method EmitTail(ptrSz: nat, s: Struct, packed: bool, off: nat, items: seq<Item>) returns (items': seq<Item>)
    requires (ptrSz == 4 || ptrSz == 8) && WellFormed(s) && (packed <==> Packed(s)) && off == EndOf(s, |s.members|)
    requires Prints(s, |s.members|, items)
    requires !packed && AscendingTo(s, |s.members|) ==> Landed(s, |s.members|, items)
    ensures Prints(s, |s.members|, items')
    ensures !packed ==> (Reproduces(s, items') <==> Ascending(s))
  {
    EndOfBytes(s, |s.members|);
    var align := if packed then 1 else MaxAlign(s.members, |s.members|);
    items' := EmitBitPadding(ptrSz, items, off, 8 * s.size, align);
    if !packed { LastStep(s, items, items'); }
  }
}
