/** Attributes inside a netlink message: how they are appended and how they are found. */
module NetlinkAttrs {
  import opened Arithmetic
  import opened Common

  /** A type and a payload. */
  datatype Attr = Attr(typ: nat, data: seq<byte>)

  const RTA_HEADER: nat := 4

  /** The four-byte alignment of lengths in a message. */
  function Align(n: nat): (r: nat)
    ensures r % 4 == 0 && n <= r < n + 4
  {
    if n % 4 == 0 then n else n + 4 - n % 4
  }

  /** Sixteen bits, low byte first; what does not fit is cut off. */
  function U16(n: nat): seq<byte> {
    [n % 256, n / 256 % 256]
  }

  function ReadU16(b: seq<byte>, off: nat): nat
    requires off + 2 <= |b|
  {
    b[off] as int + 256 * (b[off + 1] as int)
  }

  /** The length and the type, as they stand in front of a payload. */
  function Encode(a: Attr): seq<byte> {
    U16(RTA_HEADER + |a.data|) + U16(a.typ) + a.data
  }

  /** Both header fields are wide enough. */
  predicate Fits(a: Attr) {
    RTA_HEADER + |a.data| < 0x1_0000 && a.typ < 0x1_0000
  }

  /** The bytes an attribute takes up. */
  function Footprint(a: Attr): nat {
    Align(RTA_HEADER + |a.data|)
  }

  /** Where attribute k starts. */
  function OffsetOf(attrs: seq<Attr>, k: nat): nat
    requires k <= |attrs|
  {
    if k == 0 then 0 else OffsetOf(attrs, k - 1) + Footprint(attrs[k - 1])
  }

  /** Attribute `a` stands at `off`. */
  ghost predicate StandsAt(body: seq<byte>, off: nat, a: Attr) {
    off + Footprint(a) <= |body| && body[off..off + RTA_HEADER + |a.data|] == Encode(a)
  }

  /** The body consists of these attributes, one after the other. */
  ghost predicate Holds(body: seq<byte>, attrs: seq<Attr>) {
    && |body| == OffsetOf(attrs, |attrs|)
    && (forall k: nat :: k < |attrs| ==> StandsIn(body, attrs, k))
  }

  lemma {:induction false} OffsetsOfPrefix(attrs: seq<Attr>, more: seq<Attr>, k: nat)
    requires k <= |attrs|
    ensures OffsetOf(attrs + more, k) == OffsetOf(attrs, k)
  {
    if k > 0 { OffsetsOfPrefix(attrs, more, k - 1); }
  }

  lemma LastStands(body: seq<byte>, a: Attr, pad: seq<byte>, body': seq<byte>)
    requires |pad| == Footprint(a) - (RTA_HEADER + |a.data|) && body' == body + Encode(a) + pad
    ensures StandsAt(body', |body|, a) && |body'| == |body| + Footprint(a)
  {
    var e := Encode(a);
    assert |e| == RTA_HEADER + |a.data|;
    assert body'[|body|..|body| + |e|] == e;
  }

  ghost predicate StandsIn(body: seq<byte>, attrs: seq<Attr>, k: nat)
    requires k < |attrs|
  {
    Fits(attrs[k]) && StandsAt(body, OffsetOf(attrs, k), attrs[k])
  }

  lemma EarlierStands(body: seq<byte>, attrs: seq<Attr>, a: Attr, more: seq<byte>, body': seq<byte>, k: nat)
    requires Holds(body, attrs) && body' == body + more && k < |attrs|
    ensures StandsIn(body', attrs + [a], k)
  {
    assert StandsIn(body, attrs, k);
    OffsetsOfPrefix(attrs, [a], k);
    StaysAt(body, OffsetOf(attrs, k), attrs[k], more, body');
  }

  /** Appending an encoded attribute and its alignment bytes, whatever these are. */
  lemma AppendHolds(body: seq<byte>, attrs: seq<Attr>, a: Attr, pad: seq<byte>, body': seq<byte>)
    requires Holds(body, attrs) && Fits(a) && |pad| == Footprint(a) - (RTA_HEADER + |a.data|)
    requires body' == body + Encode(a) + pad
    ensures Holds(body', attrs + [a])
  {
    var attrs' := attrs + [a];
    OffsetsOfPrefix(attrs, [a], |attrs|);
    LastStands(body, a, pad, body');
    var more := Encode(a) + pad;
    assert body' == body + more;
    forall k: nat | k < |attrs'| ensures StandsIn(body', attrs', k) {
      if k < |attrs| { EarlierStands(body, attrs, a, more, body', k); }
    }
  }

  lemma StaysAt(body: seq<byte>, off: nat, a: Attr, more: seq<byte>, body': seq<byte>)
    requires StandsAt(body, off, a) && body' == body + more
    ensures StandsAt(body', off, a)
  {
    var n := off + RTA_HEADER + |a.data|;
    assert body'[off..n] == body[off..n];
  }

  /** What the header fields of a standing attribute say. */
  lemma HeaderReads(body: seq<byte>, off: nat, a: Attr)
    requires StandsAt(body, off, a) && Fits(a)
    ensures ReadU16(body, off) == RTA_HEADER + |a.data| && ReadU16(body, off + 2) == a.typ
    ensures body[off + RTA_HEADER..off + RTA_HEADER + |a.data|] == a.data
  {
    var n := RTA_HEADER + |a.data|;
    var s := body[off..off + n];
    assert s == Encode(a);
    assert U16(n) + U16(a.typ) == [n % 256, n / 256 % 256, a.typ % 256, a.typ / 256 % 256];
    assert s[RTA_HEADER..] == a.data;
    assert body[off + RTA_HEADER..off + n] == s[RTA_HEADER..];
  }

  lemma U16Reads(n: nat)
    ensures U16(n)[0] as int + 256 * (U16(n)[1] as int) == n % 0x1_0000
  {
    var q, lo := n / 256, n % 256;
    var h, mid := q / 256, q % 256;
    DivUnique(n, 0x1_0000, h, 256 * mid + lo);
  }

  /** An accepted attribute has the length and the type it was added with if and only if both
      fit their 16-bit fields; nothing else is checked when it is added. */
  lemma HeaderReadsIff(body: seq<byte>, off: nat, a: Attr)
    requires StandsAt(body, off, a)
    ensures ReadU16(body, off) == RTA_HEADER + |a.data| && ReadU16(body, off + 2) == a.typ <==> Fits(a)
  {
    var n := RTA_HEADER + |a.data|;
    var s := body[off..off + n];
    var len, typ := U16(n), U16(a.typ);
    U16Reads(n);
    U16Reads(a.typ);
    assert s == len + typ + a.data;
    assert s[0] == len[0] && s[1] == len[1] && s[2] == typ[0] && s[3] == typ[1];
  }
}
