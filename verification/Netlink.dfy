/** Building a route request and reading the attributes of an answer. */
module Netlink {
  import opened Arithmetic
  import opened Common
  import opened NetlinkAttrs

  /** Where attributes start: behind the message header and the route header. */
  const BODY: nat := 28

  class Message {
    var buf: array<byte>
    /** The length field of the message. */
    var len: nat

    ghost predicate Valid()
      reads this
    {
      BODY <= len <= buf.Length
    }

    ghost function Body(): seq<byte>
      requires Valid()
      reads this, buf
    {
      buf[BODY..len]
    }

    constructor (size: nat)
      requires BODY <= size
      ensures Valid() && fresh(buf) && buf.Length == size && len == BODY && Holds(Body(), [])
    {
      buf := new byte[size](_ => 0);
      len := BODY;
    }

    /** Appends one attribute at the next aligned place, if the message stays within `maxlen`.
        Only the attribute's own bytes are written. */
    method AddAttrL(maxlen: nat, typ: nat, data: seq<byte>) returns (ok: bool)
      requires Valid() && maxlen <= buf.Length
      modifies this`len, buf
      ensures Valid()
      ensures ok <==> Align(old(len)) + Footprint(Attr(typ, data)) <= maxlen
      ensures !ok ==> len == old(len) && buf[..] == old(buf[..])
      ensures ok ==> len == Align(old(len)) + Footprint(Attr(typ, data)) && len % 4 == 0
      ensures ok ==> Appended(old(buf[..]), Align(old(len)), Attr(typ, data), buf[..], len)
      ensures ok ==> Stands(buf[..], Align(old(len)), typ, data)
    {
      var alen := RTA_HEADER + |data|;
      var s := Align(len);
      if s + Align(alen) > maxlen {
        return false;
      }
      ghost var before, a := buf[..], Attr(typ, data);
      PutAttr(buf, s, typ, data);
      len := s + Align(alen);
      ghost var after := buf[..];
      Written(before, s, a, after, len);
      WrittenStands(after, s, typ, data);
      SumAligned(s, Align(alen));
      return true;
    }

    /** Appends a 32-bit number, low byte first. */
    method AddAttr32(maxlen: nat, typ: nat, value: nat) returns (ok: bool)
      requires Valid() && maxlen <= buf.Length && value < 0x1_0000_0000
      modifies this`len, buf
      ensures Valid()
      ensures ok <==> Align(old(len)) + 8 <= maxlen
      ensures !ok ==> len == old(len) && buf[..] == old(buf[..])
      ensures ok ==> len == Align(old(len)) + 8
      ensures ok ==> Appended(old(buf[..]), Align(old(len)), Attr32(typ, value), buf[..], len)
      ensures ok ==> var s := Align(old(len)) + RTA_HEADER;
                     buf[s] as int + 0x100 * buf[s + 1] as int + 0x1_0000 * buf[s + 2] as int
                     + 0x100_0000 * buf[s + 3] as int == value
    {
      Attr32Reads(typ, value);
      ghost var s := Align(len) + RTA_HEADER;
      ok := AddAttrL(maxlen, typ, U16(value % 0x1_0000) + U16(value / 0x1_0000));
      if ok {
        assert forall i :: 0 <= i < 4 ==> buf[..][s + i] == Attr32(typ, value).data[i];
      }
    }

    /** Appends a number to a body of attributes. */
    method AddNumber(maxlen: nat, typ: nat, value: nat, ghost held: seq<Attr>) returns (ok: bool, ghost a: Attr)
      requires Valid() && maxlen <= buf.Length && Holds(Body(), held) && typ < 0x1_0000 && value < 0x1_0000_0000
      modifies this`len, buf
      ensures Valid() && (ok <==> old(len) + 8 <= maxlen)
      ensures a.typ == typ && IsNumber(a.data, value)
      ensures ok ==> Holds(Body(), held + [a])
      ensures !ok ==> len == old(len) && Holds(Body(), held)
    {
      ghost var bytes := buf[..];
      a := Attr32(typ, value);
      Attr32Reads(typ, value);
      assert bytes[BODY..len] == Body();
      HeldAligned(bytes[BODY..len], held);
      ok := AddAttr32(maxlen, typ, value);
      assert buf[..][BODY..len] == Body();
      if ok { AppendedHolds(bytes, old(len), held, a, buf[..], len); }
    }

    /** Appends one attribute to a body of attributes. */
    method AddNext(maxlen: nat, a: Attr, ghost held: seq<Attr>) returns (ok: bool)
      requires Valid() && maxlen <= buf.Length && Holds(Body(), held) && Fits(a)
      modifies this`len, buf
      ensures Valid() && (ok <==> old(len) + Footprint(a) <= maxlen)
      ensures ok ==> Holds(Body(), held + [a])
      ensures !ok ==> len == old(len) && Holds(Body(), held)
    {
      ghost var bytes := buf[..];
      assert bytes[BODY..len] == Body();
      HeldAligned(bytes[BODY..len], held);
      ok := AddAttrL(maxlen, a.typ, a.data);
      assert buf[..][BODY..len] == Body();
      if ok { AppendedHolds(bytes, old(len), held, a, buf[..], len); }
    }

    /** Appends attributes in order, stopping at the first that does not fit. */
    method AddAll(maxlen: nat, attrs: seq<Attr>, ghost held: seq<Attr>) returns (n: nat)
      requires Valid() && maxlen <= buf.Length && Holds(Body(), held)
      requires forall k :: 0 <= k < |attrs| ==> Fits(attrs[k])
      modifies this`len, buf
      ensures Valid() && n <= |attrs| && Holds(Body(), held + attrs[..n])
      ensures n < |attrs| ==> len + Footprint(attrs[n]) > maxlen
    {
      n := 0;
      assert attrs[..0] == [] && held + [] == held;
      while n < |attrs|
        invariant Valid() && n <= |attrs| && Holds(Body(), held + attrs[..n])
      {
        var ok := AddNext(maxlen, attrs[n], held + attrs[..n]);
        if !ok {
          return;
        }
        assert held + attrs[..n] + [attrs[n]] == held + attrs[..n + 1];
        n := n + 1;
      }
    }
  }

  /** A 32-bit value as an attribute, low byte first. */
  function Attr32(typ: nat, value: nat): Attr {
    Attr(typ, U16(value % 0x1_0000) + U16(value / 0x1_0000))
  }

  /** Four bytes that stand for the number, low byte first. */
  ghost predicate IsNumber(p: seq<byte>, value: nat) {
    && |p| == 4
    && p[0] as int + 0x100 * p[1] as int + 0x1_0000 * p[2] as int + 0x100_0000 * p[3] as int == value
  }

  lemma Attr32Reads(typ: nat, value: nat)
    requires value < 0x1_0000_0000
    ensures Attr32(typ, value).typ == typ && IsNumber(Attr32(typ, value).data, value)
  {
    var lo, hi := value % 0x1_0000, value / 0x1_0000;
    U16Reads(lo);
    U16Reads(hi);
  }

  /** Header and payload of an attribute at `s`, byte by byte: its length and its type, low
      byte first and cut off at 16 bits, then the data. */
  ghost predicate Stands(buf: seq<byte>, s: nat, typ: nat, data: seq<byte>) {
    && s + 4 + |data| <= |buf|
    && buf[s] as int + 0x100 * buf[s + 1] as int == (4 + |data|) % 0x1_0000
    && buf[s + 2] as int + 0x100 * buf[s + 3] as int == typ % 0x1_0000
    && forall i :: 0 <= i < |data| ==> buf[s + 4 + i] == data[i]
  }

  lemma WrittenStands(buf: seq<byte>, s: nat, typ: nat, data: seq<byte>)
    requires s + RTA_HEADER + |data| <= |buf|
    requires buf[s] == (RTA_HEADER + |data|) % 256 && buf[s + 1] == (RTA_HEADER + |data|) / 256 % 256
    requires buf[s + 2] == typ % 256 && buf[s + 3] == typ / 256 % 256
    requires forall i :: 0 <= i < |data| ==> buf[s + RTA_HEADER + i] == data[i]
    ensures Stands(buf, s, typ, data)
  {
    U16Reads(RTA_HEADER + |data|);
    U16Reads(typ);
  }

  /** The buffer after an attribute was put at `s`, up to the new length `end`: what stands
      before it, the alignment bytes behind it and everything from `end` on is as it was. */
  ghost predicate Appended(before: seq<byte>, s: nat, a: Attr, after: seq<byte>, end: nat) {
    && BODY <= s && s + RTA_HEADER + |a.data| <= end <= |before| == |after|
    && after[..BODY] == before[..BODY] && after[end..] == before[end..]
    && after[BODY..end] == before[BODY..s] + Encode(a) + before[s + RTA_HEADER + |a.data|..end]
  }

  lemma AppendedHolds(before: seq<byte>, s: nat, held: seq<Attr>, a: Attr, after: seq<byte>, end: nat)
    requires Appended(before, s, a, after, end) && end == s + Footprint(a) && Fits(a)
    requires Holds(before[BODY..s], held)
    ensures Holds(after[BODY..end], held + [a])
  {
    AppendHolds(before[BODY..s], held, a, before[s + RTA_HEADER + |a.data|..end], after[BODY..end]);
  }

  lemma SumAligned(n: nat, m: nat)
    requires n % 4 == 0 && m % 4 == 0
    ensures (n + m) % 4 == 0
  {
    var k, l := n / 4, m / 4;
    assert n + m == 4 * (k + l);
  }

  /** A body of attributes ends at an aligned length. */
  lemma HeldAligned(body: seq<byte>, attrs: seq<Attr>)
    requires Holds(body, attrs)
    ensures Align(BODY + |body|) == BODY + |body|
  {
    OffsetsAligned(attrs, |attrs|);
    SumAligned(BODY, |body|);
  }

  lemma {:induction false} OffsetsAligned(attrs: seq<Attr>, k: nat)
    requires k <= |attrs|
    ensures OffsetOf(attrs, k) % 4 == 0
  {
    if k > 0 {
      OffsetsAligned(attrs, k - 1);
      SumAligned(OffsetOf(attrs, k - 1), Footprint(attrs[k - 1]));
    }
  }

  /** Writes the header and the payload at `s`. */
  method PutAttr(buf: array<byte>, s: nat, typ: nat, data: seq<byte>)
    requires s + RTA_HEADER + |data| <= buf.Length
    modifies buf
    ensures buf[s] == (RTA_HEADER + |data|) % 256 && buf[s + 1] == (RTA_HEADER + |data|) / 256 % 256
    ensures buf[s + 2] == typ % 256 && buf[s + 3] == typ / 256 % 256
    ensures forall i :: 0 <= i < |data| ==> buf[s + RTA_HEADER + i] == data[i]
    ensures forall i :: 0 <= i < buf.Length && !(s <= i < s + RTA_HEADER + |data|) ==> buf[i] == old(buf[i])
  {
    var len := RTA_HEADER + |data|;
    buf[s], buf[s + 1] := len % 256, len / 256 % 256;
    buf[s + 2], buf[s + 3] := typ % 256, typ / 256 % 256;
    forall i | 0 <= i < |data| {
      buf[s + RTA_HEADER + i] := data[i];
    }
  }

  /** The bytes of a buffer after an attribute was written at `s`. */
  lemma Written(before: seq<byte>, s: nat, a: Attr, after: seq<byte>, end: nat)
    requires BODY <= s && s + RTA_HEADER + |a.data| <= end <= |before| == |after|
    requires after[s] == (RTA_HEADER + |a.data|) % 256 && after[s + 1] == (RTA_HEADER + |a.data|) / 256 % 256
    requires after[s + 2] == a.typ % 256 && after[s + 3] == a.typ / 256 % 256
    requires forall i :: 0 <= i < |a.data| ==> after[s + RTA_HEADER + i] == a.data[i]
    requires forall i :: 0 <= i < |before| && !(s <= i < s + RTA_HEADER + |a.data|) ==> after[i] == before[i]
    ensures Appended(before, s, a, after, end)
  {
    var n := s + RTA_HEADER + |a.data|;
    assert after[s..n] == Encode(a) by {
      forall i | 0 <= i < |Encode(a)| ensures after[s..n][i] == Encode(a)[i] {
        if i >= RTA_HEADER { assert after[s + RTA_HEADER + (i - RTA_HEADER)] == a.data[i - RTA_HEADER]; }
      }
    }
    assert after[BODY..end] == after[BODY..s] + after[s..n] + after[n..end];
    assert after[BODY..s] == before[BODY..s] && after[n..end] == before[n..end];
  }

  // ----- Reading -----

  /** An attribute at `off` whose header and payload lie inside the body. */
  ghost predicate InsideAt(body: seq<byte>, off: nat) {
    off + RTA_HEADER <= |body| && RTA_HEADER <= ReadU16(body, off) && off + ReadU16(body, off) <= |body|
  }

  function TypeAt(body: seq<byte>, off: nat, flags: nat): nat
    requires off + RTA_HEADER <= |body|
  {
    Masked(ReadU16(body, off + 2), flags)
  }

  /** A type without the given flag bits. */
  function Masked(typ: nat, flags: nat): nat {
    if typ == 0 then 0 else 2 * Masked(typ / 2, flags / 2) + if flags % 2 == 1 then 0 else typ % 2
  }

  lemma {:induction false} NoFlags(typ: nat)
    ensures Masked(typ, 0) == typ
  {
    if typ > 0 { NoFlags(typ / 2); }
  }

  /** Binary digit i. */
  function Digit(n: nat, i: nat): nat {
    if i == 0 then n % 2 else Digit(n / 2, i - 1)
  }

  /** Masking clears the digits of the flags and keeps the others. */
  lemma {:induction false} MaskedDigit(typ: nat, flags: nat, i: nat)
    ensures Digit(Masked(typ, flags), i) == if Digit(flags, i) == 1 then 0 else Digit(typ, i)
  {
    if typ == 0 {
      NoDigits(i);
    } else if i > 0 {
      MaskedDigit(typ / 2, flags / 2, i - 1);
      assert Masked(typ, flags) / 2 == Masked(typ / 2, flags / 2);
    }
  }

  lemma {:induction false} NoDigits(i: nat)
    ensures Digit(0, i) == 0
  {
    if i > 0 { NoDigits(i - 1); }
  }

  /** A flag above the type comes off, as NLA_F_NESTED (bit 15) does. */
  lemma {:induction false} FlagComesOff(typ: nat, n: nat)
    requires typ < Pow2(n)
    ensures Masked(typ + Pow2(n), Pow2(n)) == typ && Masked(typ, Pow2(n)) == typ
  {
    if n > 0 {
      FlagComesOff(typ / 2, n - 1);
      assert (typ + Pow2(n)) / 2 == typ / 2 + Pow2(n - 1);
    }
  }

  function MaskedTypes(attrs: seq<Attr>, flags: nat): (types: seq<nat>)
    ensures |types| == |attrs| && forall k :: 0 <= k < |attrs| ==> types[k] == Masked(attrs[k].typ, flags)
  {
    seq(|attrs|, k requires 0 <= k < |attrs| => Masked(attrs[k].typ, flags))
  }

  function Offsets(attrs: seq<Attr>): (offs: seq<nat>)
    ensures |offs| == |attrs| && forall k :: 0 <= k < |attrs| ==> offs[k] == OffsetOf(attrs, k)
  {
    seq(|attrs|, k requires 0 <= k < |attrs| => OffsetOf(attrs, k))
  }

  ghost predicate Missing(types: seq<nat>, n: nat, t: nat)
    requires n <= |types|
  {
    forall j :: 0 <= j < n ==> types[j] != t
  }

  /** The table entry for type t after the first n attributes: where the first attribute of
      that type stands, if there is one. */
  ghost predicate EntryFor(types: seq<nat>, offs: seq<nat>, n: nat, t: nat, entry: Option<nat>)
    requires n <= |types| == |offs|
  {
    match entry
    case None => Missing(types, n, t)
    case Some(off) => exists k :: 0 <= k < n && types[k] == t && Missing(types, k, t) && off == offs[k]
  }

  ghost predicate TableFor(types: seq<nat>, offs: seq<nat>, n: nat, tb: seq<Option<nat>>)
    requires n <= |types| == |offs|
  {
    forall t: nat :: t < |tb| ==> EntryFor(types, offs, n, t, tb[t])
  }

  ghost predicate AllInside(body: seq<byte>, flags: nat, tb: seq<Option<nat>>) {
    forall t :: 0 <= t < |tb| && tb[t].Some? ==> InsideAt(body, tb[t].value) && TypeAt(body, tb[t].value, flags) == t
  }

  lemma InsideStep(body: seq<byte>, flags: nat, tb: seq<Option<nat>>, t: nat, off: nat, tb': seq<Option<nat>>)
    requires AllInside(body, flags, tb) && InsideAt(body, off) && TypeAt(body, off, flags) == t
    requires tb' == if t < |tb| && tb[t].None? then tb[t := Some(off)] else tb
    ensures AllInside(body, flags, tb')
  {
  }

  lemma TableStep(types: seq<nat>, offs: seq<nat>, n: nat, tb: seq<Option<nat>>, t: nat, off: nat,
                  tb': seq<Option<nat>>)
    requires n < |types| == |offs| && TableFor(types, offs, n, tb) && t == types[n] && off == offs[n]
    requires tb' == if t < |tb| && tb[t].None? then tb[t := Some(off)] else tb
    ensures TableFor(types, offs, n + 1, tb')
  {
    forall t': nat | t' < |tb'| ensures EntryFor(types, offs, n + 1, t', tb'[t']) {
      assert EntryFor(types, offs, n, t', tb[t']);
    }
  }

  /** Collects the first attribute of every type up to `max`. On any bytes it ends and
      keeps only attributes inside the body; on a body of attributes it uses up every byte
      and finds for each type the first one added. */
  method ParseRtattrFlags(body: seq<byte>, max: nat, flags: nat, ghost attrs: seq<Attr>)
      returns (tb: seq<Option<nat>>, left: int)
    ensures |tb| == max + 1 && AllInside(body, flags, tb)
    ensures Holds(body, attrs) ==> left == 0 && TableFor(MaskedTypes(attrs, flags), Offsets(attrs), |attrs|, tb)
  {
    tb := seq(max + 1, _ => None);
    var off := 0;
    left := |body|;
    ghost var n, types, offs := 0, MaskedTypes(attrs, flags), Offsets(attrs);
    ghost var held := Holds(body, attrs);
    while left >= RTA_HEADER && ReadU16(body, off) >= RTA_HEADER && ReadU16(body, off) <= left
      invariant off + left == |body| && |tb| == max + 1 && AllInside(body, flags, tb)
      invariant held ==> n <= |attrs| && off == OffsetOf(attrs, n) && TableFor(types, offs, n, tb)
      decreases left
    {
      var typ := TypeAt(body, off, flags);
      ghost var before := tb;
      if typ <= max && tb[typ].None? {
        tb := tb[typ := Some(off)];
      }
      InsideStep(body, flags, before, typ, off, tb);
      if held {
        Standing(body, attrs, n, off);
        TableStep(types, offs, n, before, typ, off, tb);
        n := n + 1;
      }
      var step := Align(ReadU16(body, off));
      off, left := off + step, left - step;
    }
    if held { Standing(body, attrs, n, off); }
  }

  /** At its offset, an attribute is what the reader sees. */
  lemma StandingAt(body: seq<byte>, attrs: seq<Attr>, n: nat, off: nat, a: Attr)
    requires Holds(body, attrs) && n < |attrs| && off == OffsetOf(attrs, n) && a == attrs[n]
    ensures off + RTA_HEADER <= |body| && InsideAt(body, off)
    ensures ReadU16(body, off) == RTA_HEADER + |a.data| && ReadU16(body, off + 2) == a.typ
    ensures body[off + RTA_HEADER..off + RTA_HEADER + |a.data|] == a.data
  {
    assert StandsIn(body, attrs, n);
    HeaderReads(body, off, a);
  }

  lemma Standing(body: seq<byte>, attrs: seq<Attr>, n: nat, off: nat)
    requires Holds(body, attrs) && n <= |attrs| && off == OffsetOf(attrs, n)
    ensures n == |attrs| ==> off == |body|
    ensures n < |attrs| ==> off + RTA_HEADER <= |body| && InsideAt(body, off)
    ensures n < |attrs| ==> ReadU16(body, off) == RTA_HEADER + |attrs[n].data| && ReadU16(body, off + 2) == attrs[n].typ
  {
    if n < |attrs| { StandingAt(body, attrs, n, off, attrs[n]); }
  }

  function PayloadAt(body: seq<byte>, off: nat): seq<byte>
    requires InsideAt(body, off)
  {
    body[off + RTA_HEADER..off + ReadU16(body, off)]
  }

  /** What looking up type t should give: the payload of the first attribute added with it. */
  ghost predicate LooksUp(body: seq<byte>, attrs: seq<Attr>, t: nat, entry: Option<nat>) {
    match entry
    case None => forall j :: 0 <= j < |attrs| ==> attrs[j].typ != t
    case Some(off) =>
      InsideAt(body, off) && exists k: nat :: FirstOfType(attrs, k, t) && PayloadAt(body, off) == attrs[k].data
  }

  lemma UnmaskedTypes(attrs: seq<Attr>, types: seq<nat>)
    requires types == MaskedTypes(attrs, 0)
    ensures |types| == |attrs| && forall j :: 0 <= j < |attrs| ==> types[j] == attrs[j].typ
  {
    forall j | 0 <= j < |attrs| ensures types[j] == attrs[j].typ { NoFlags(attrs[j].typ); }
  }

  /** Attribute k is the first of its type. */
  ghost predicate FirstOfType(attrs: seq<Attr>, k: nat, t: nat) {
    k < |attrs| && attrs[k].typ == t && forall j :: 0 <= j < k ==> attrs[j].typ != t
  }

  lemma FirstLooksUp(body: seq<byte>, attrs: seq<Attr>, t: nat, k: nat, off: nat)
    requires Holds(body, attrs) && FirstOfType(attrs, k, t) && off == OffsetOf(attrs, k)
    ensures LooksUp(body, attrs, t, Some(off))
  {
    StandingAt(body, attrs, k, off, attrs[k]);
  }

  lemma EntryLooksUp(body: seq<byte>, attrs: seq<Attr>, t: nat, entry: Option<nat>)
    requires Holds(body, attrs) && EntryFor(MaskedTypes(attrs, 0), Offsets(attrs), |attrs|, t, entry)
    ensures LooksUp(body, attrs, t, entry)
  {
    var types, offs := MaskedTypes(attrs, 0), Offsets(attrs);
    UnmaskedTypes(attrs, types);
    if entry.Some? {
      var k :| 0 <= k < |attrs| && types[k] == t && Missing(types, k, t) && entry.value == offs[k];
      assert FirstOfType(attrs, k, t);
      FirstLooksUp(body, attrs, t, k, entry.value);
    }
  }

  /** Reading a message back: every byte is used up, and each type gives the payload of the
      first attribute that was added with it. */
  method ParseRoute(msg: Message, max: nat, ghost attrs: seq<Attr>) returns (tb: seq<Option<nat>>, left: int)
    requires msg.Valid() && Holds(msg.Body(), attrs)
    ensures left == 0 && |tb| == max + 1
    ensures forall t: nat :: t <= max ==> LooksUp(msg.Body(), attrs, t, tb[t])
  {
    tb, left := ParseRtattrFlags(msg.buf[BODY..msg.len], max, 0, attrs);
    forall t: nat | t <= max ensures LooksUp(msg.Body(), attrs, t, tb[t]) {
      EntryLooksUp(msg.Body(), attrs, t, tb[t]);
    }
  }

  /** Reading a number, low byte first. */
  function GetU32(body: seq<byte>, off: nat): nat
    requires off + 4 <= |body|
  {
    ReadU16(body, off) + 0x1_0000 * ReadU16(body, off + 2)
  }

  lemma NumberAt(body: seq<byte>, off: nat, p: seq<byte>, value: nat)
    requires InsideAt(body, off) && PayloadAt(body, off) == p && IsNumber(p, value)
    ensures off + 8 <= |body| && GetU32(body, off + RTA_HEADER) == value
  {
    assert forall i :: 0 <= i < 4 ==> p[i] == body[off + RTA_HEADER + i];
  }

  /** The number behind a type: the one that was added first with it, if any was. */
  method RouteNumber(msg: Message, max: nat, t: nat, ghost attrs: seq<Attr>, ghost values: seq<nat>)
      returns (n: Option<nat>)
    requires msg.Valid() && Holds(msg.Body(), attrs) && t <= max && |values| == |attrs|
    requires forall k :: 0 <= k < |attrs| && attrs[k].typ == t ==> IsNumber(attrs[k].data, values[k])
    ensures n.None? <==> forall k :: 0 <= k < |attrs| ==> attrs[k].typ != t
    ensures forall k: nat :: FirstOfType(attrs, k, t) ==> n == Some(values[k])
  {
    var tb, left := ParseRoute(msg, max, attrs);
    assert LooksUp(msg.Body(), attrs, t, tb[t]);
    if tb[t].None? {
      return None;
    }
    var body, off := msg.buf[BODY..msg.len], tb[t].value;
    ghost var k: nat :| FirstOfType(attrs, k, t) && PayloadAt(body, off) == attrs[k].data;
    NumberAt(body, off, attrs[k].data, values[k]);
    return Some(GetU32(body, off + RTA_HEADER));
  }
}
