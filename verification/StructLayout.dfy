/** How a C compiler lays out a struct of plain members and unnamed bit-fields, and the
    padding the printer writes so that members land where the type information says. */
module StructLayout {
  import opened Arithmetic

  /** A member that is not a bit-field: offset in bits, size and alignment in bytes. */
  datatype Member = Member(off: nat, size: nat, align: nat)

  datatype Struct = Struct(members: seq<Member>, size: nat)

  /** What stands in the printed body: a member, or `type: width;` without a name. */
  datatype Item = Field(size: nat, align: nat) | Pad(unit: nat, width: nat)

  function RoundUp(x: nat, a: nat): nat
    requires a > 0
  {
    (x + (a - 1)) / a * a
  }

  lemma RoundUpIs(x: nat, a: nat)
    requires a > 0
    ensures RoundUp(x, a) % a == 0 && x <= RoundUp(x, a) < x + a
  {
    var q := (x + (a - 1)) / a;
    assert x + (a - 1) == q * a + (x + (a - 1)) % a;
    MultipleMod(q, a);
  }

  /** The only multiple in the last stretch is the rounded value. */
  lemma RoundUpTo(x: nat, a: nat, y: nat)
    requires a > 0 && y % a == 0 && x <= y < x + a
    ensures RoundUp(x, a) == y
  {
    assert y == y / a * a;
    DivUnique(x + (a - 1), a, y / a, x + (a - 1) - y);
  }

  // ----- The compiler's side -----

  /** Where an item starts when the struct is filled up to bit `pos`: a member at its
      alignment; an unnamed bit-field where it is, unless it would cross a boundary of its
      type's unit; one of width zero at the next such boundary. */
  function Start(pos: nat, item: Item): nat
    requires Sensible(item)
  {
    match item
    case Field(_, align) => RoundUp(pos, 8 * align)
    case Pad(unit, width) =>
      if width > 0 && pos / unit == (pos + width - 1) / unit then pos else RoundUp(pos, unit)
  }

  function Bits(item: Item): nat {
    match item
    case Field(size, _) => 8 * size
    case Pad(_, width) => width
  }

  predicate Sensible(item: Item) {
    match item
    case Field(_, align) => align > 0
    case Pad(unit, width) => unit > 0 && width <= unit
  }

  predicate AllSensible(items: seq<Item>) {
    forall i :: 0 <= i < |items| ==> Sensible(items[i])
  }

  /** The first bit after the items. */
  function End(items: seq<Item>): nat
    requires AllSensible(items)
  {
    if items == [] then 0
    else var pos, item := End(items[..|items| - 1]), items[|items| - 1];
      Start(pos, item) + Bits(item)
  }

  /** Where the members land, in order. */
  function Offsets(items: seq<Item>): seq<nat>
    requires AllSensible(items)
  {
    if items == [] then []
    else var prefix, item := items[..|items| - 1], items[|items| - 1];
      Offsets(prefix) + if item.Field? then [Start(End(prefix), item)] else []
  }

  /** The alignment of the struct: unnamed bit-fields have no say in it. */
  function Alignment(items: seq<Item>): (a: nat)
    requires AllSensible(items)
    ensures a > 0
  {
    if items == [] then 1
    else var prefix, item := items[..|items| - 1], items[|items| - 1];
      if item.Field? && item.align > Alignment(prefix) then item.align else Alignment(prefix)
  }

  function SizeInBits(items: seq<Item>): nat
    requires AllSensible(items)
  {
    RoundUp(End(items), 8 * Alignment(items))
  }

  lemma Appended(items: seq<Item>, item: Item, items': seq<Item>)
    requires AllSensible(items) && Sensible(item) && items' == items + [item]
    ensures AllSensible(items')
    ensures End(items') == Start(End(items), item) + Bits(item)
    ensures Offsets(items') == Offsets(items) + if item.Field? then [Start(End(items), item)] else []
    ensures Alignment(items') == if item.Field? && item.align > Alignment(items) then item.align else Alignment(items)
  {
    assert items'[..|items'| - 1] == items;
  }

  // ----- The type information's side -----

  predicate WellFormed(s: Struct) {
    forall i :: 0 <= i < |s.members| ==> s.members[i].align > 0 && s.members[i].off % 8 == 0
  }

  /** Where the members up to the i-th end. */
  function EndOf(s: Struct, i: nat): nat
    requires i <= |s.members|
  {
    if i == 0 then 0 else s.members[i - 1].off + 8 * s.members[i - 1].size
  }

  /** The first n members stand in order without overlapping. */
  predicate AscendingTo(s: Struct, n: nat)
    requires n <= |s.members|
  {
    forall i :: 0 <= i < n ==> EndOf(s, i) <= s.members[i].off
  }

  predicate Ascending(s: Struct) {
    AscendingTo(s, |s.members|) && EndOf(s, |s.members|) <= 8 * s.size
  }

  function MaxAlign(members: seq<Member>, n: nat): (a: nat)
    requires n <= |members|
    ensures a > 0
    ensures forall i :: 0 <= i < n ==> members[i].align <= a
    ensures a == 1 || exists i :: 0 <= i < n && members[i].align == a
  {
    if n == 0 then 1
    else var a := MaxAlign(members, n - 1);
      if members[n - 1].align > a then members[n - 1].align else a
  }

  predicate NaturallyAligned(m: Member)
    requires m.align > 0
  {
    m.off % (8 * m.align) == 0
  }

  predicate Packed(s: Struct)
    requires WellFormed(s)
  {
    || (exists i :: 0 <= i < |s.members| && !NaturallyAligned(s.members[i]))
    || s.size % MaxAlign(s.members, |s.members|) != 0
  }

  /** The printed body gives the members their offsets and the struct its size. */
  predicate Reproduces(s: Struct, items: seq<Item>)
    requires AllSensible(items)
  {
    && |Offsets(items)| == |s.members|
    && (forall i :: 0 <= i < |s.members| ==> Offsets(items)[i] == s.members[i].off)
    && SizeInBits(items) == 8 * s.size
  }

  /** The members among the items, in order. */
  function Fields(items: seq<Item>): seq<Item> {
    if items == [] then []
    else var item := items[|items| - 1];
      Fields(items[..|items| - 1]) + if item.Field? then [item] else []
  }

  lemma FieldsAppended(items: seq<Item>, item: Item)
    ensures Fields(items + [item]) == Fields(items) + if item.Field? then [item] else []
  {
    assert (items + [item])[..|items|] == items;
  }

  /** No compiler puts a member before the end of an earlier one. */
  lemma {:induction false} LaidOutInOrder(items: seq<Item>)
    requires AllSensible(items)
    ensures |Fields(items)| == |Offsets(items)|
    ensures forall i, j :: 0 <= i < j < |Offsets(items)| ==>
              Offsets(items)[i] + Bits(Fields(items)[i]) <= Offsets(items)[j]
    ensures forall i :: 0 <= i < |Offsets(items)| ==> Offsets(items)[i] + Bits(Fields(items)[i]) <= End(items)
  {
    if items != [] {
      var prefix, item := items[..|items| - 1], items[|items| - 1];
      LaidOutInOrder(prefix);
      StartsLater(End(prefix), item);
    }
  }

  lemma StartsLater(pos: nat, item: Item)
    requires Sensible(item)
    ensures pos <= Start(pos, item)
  {
    match item
    case Field(_, align) => RoundUpIs(pos, 8 * align);
    case Pad(unit, _) => RoundUpIs(pos, unit);
  }
}
