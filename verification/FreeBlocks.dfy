/** Sets of free blocks as the allocator keeps them: no two touch. Addresses and sizes are
    counted in header-sized units. */
module FreeBlocks {

  /** Where the static list head lies: below every address the heap can have. */
  const BASE: int := 0

  /** Blocks by the address of their header; the size includes the header. */
  type Blocks = map<int, nat>

  ghost predicate InBlock(u: int, a: int, size: nat) {
    a <= u < a + size
  }

  ghost predicate Covered(u: int, m: Blocks) {
    exists a :: a in m && InBlock(u, a, m[a])
  }

  /** The units that the blocks cover. */
  ghost function Units(m: Blocks): iset<int> {
    iset u: int | Covered(u, m)
  }

  ghost function Region(a: int, size: nat): iset<int> {
    iset u: int | InBlock(u, a, size)
  }

  /** Blocks above the base that are not empty and neither overlap nor touch. */
  ghost predicate Apart(m: Blocks) {
    && (forall a :: a in m ==> BASE < a && m[a] > 0)
    && (forall a, b :: a in m && b in m && a < b ==> a + m[a] < b)
  }

  ghost predicate Disjoint(m: Blocks) {
    && (forall a :: a in m ==> BASE < a && m[a] > 0)
    && (forall a, b :: a in m && b in m && a < b ==> a + m[a] <= b)
  }

  lemma BlockInUnits(m: Blocks, a: int, u: int)
    requires a in m && InBlock(u, a, m[a])
    ensures u in Units(m)
  {
  }

  // ----- Canonical form -----

  lemma SameStart(m: Blocks, m': Blocks, a: int)
    requires Apart(m) && Apart(m') && Units(m) == Units(m') && a in m
    ensures a in m'
  {
    BlockInUnits(m, a, a);
    assert a in Units(m');
    var b :| b in m' && InBlock(a, b, m'[b]);
    if b < a {
      BlockInUnits(m', b, a - 1);
    }
  }

  lemma SameSize(m: Blocks, m': Blocks, a: int)
    requires Apart(m) && Apart(m') && Units(m) == Units(m') && a in m && a in m'
    ensures m'[a] <= m[a]
  {
    if m[a] < m'[a] {
      BlockInUnits(m', a, a + m[a]);
    }
  }

  /** A set of blocks that do not touch is determined by the units it covers. */
  lemma Canonical(m: Blocks, m': Blocks)
    requires Apart(m) && Apart(m') && Units(m) == Units(m')
    ensures m == m'
  {
    forall a | a in m ensures a in m' && m[a] == m'[a] {
      SameStart(m, m', a);
      SameSize(m, m', a);
      SameSize(m', m, a);
    }
    forall a | a in m' ensures a in m {
      SameStart(m', m, a);
    }
  }

  // ----- Giving a block back -----

  /** `p` is the base or the last free block below `bp`, and [bp, bp + s) is not free. */
  ghost predicate Spot(m: Blocks, p: int, bp: int, s: nat) {
    && p < bp && s > 0 && BASE < bp
    && (p == BASE || p in m)
    && (forall a :: a in m ==> a <= p || bp < a)
    && (p in m ==> p + m[p] <= bp)
    && (forall a :: a in m && bp < a ==> bp + s <= a)
  }

  /** The block joined with the free block above it, if they touch. */
  function JoinedUp(m: Blocks, bp: int, s: nat): nat {
    if bp + s in m then s + m[bp + s] else s
  }

  function WithoutUpper(m: Blocks, bp: int, s: nat): Blocks {
    m - {bp + s}
  }

  /** The free blocks after [bp, bp + s) is given back next to `p`. */
  function Coalesce(m: Blocks, p: int, bp: int, s: nat): Blocks {
    var m1 := WithoutUpper(m, bp, s);
    var size := JoinedUp(m, bp, s);
    if p in m1 && p + m1[p] == bp then m1[p := m1[p] + size] else m1[bp := size]
  }

  /** The block that [bp, bp + s) ends up in. */
  function Home(m: Blocks, p: int, bp: int): int {
    if p in m && p + m[p] == bp then p else bp
  }

  /** Every block after giving one back: the home, or one that was there. */
  lemma CoalesceEntry(m: Blocks, p: int, bp: int, s: nat, m': Blocks, h: int)
    requires Apart(m) && Spot(m, p, bp, s) && m' == Coalesce(m, p, bp, s) && h == Home(m, p, bp)
    ensures h in m' && h <= bp && m'[h] >= s
    ensures h + m'[h] == bp + JoinedUp(m, bp, s)
    ensures h < bp ==> h in m && h + m[h] == bp
    ensures forall a :: a in m' && a != h ==> a in m && m'[a] == m[a] && a != bp + s
    ensures forall a :: a in m && a != h && a != bp + s ==> a in m' && m'[a] == m[a]
  {
  }

  lemma CoalesceApart(m: Blocks, p: int, bp: int, s: nat)
    requires Apart(m) && Spot(m, p, bp, s)
    ensures Apart(Coalesce(m, p, bp, s))
  {
    var m', h := Coalesce(m, p, bp, s), Home(m, p, bp);
    CoalesceEntry(m, p, bp, s, m', h);
    EntriesApart(m, p, bp, s, m', h);
  }

  lemma EntriesApart(m: Blocks, p: int, bp: int, s: nat, m': Blocks, h: int)
    requires Apart(m) && Spot(m, p, bp, s) && h in m' && h <= bp && h + m'[h] == bp + JoinedUp(m, bp, s)
    requires m'[h] >= s && (h < bp ==> h in m && h + m[h] == bp)
    requires h == bp ==> p in m ==> p + m[p] < bp
    requires forall a :: a in m' && a != h ==> a in m && m'[a] == m[a] && a != bp + s
    ensures Apart(m')
  {
    forall a, b | a in m' && b in m' && a < b ensures a + m'[a] < b {
      if a == h {
        assert b in m && bp < b;
      } else if b == h {
        assert a in m && a <= p;
      }
    }
  }

  lemma CoalescedFrom(m: Blocks, p: int, bp: int, s: nat, m': Blocks, u: int)
    requires Apart(m) && Spot(m, p, bp, s) && m' == Coalesce(m, p, bp, s) && u in Units(m')
    ensures u in Units(m) || u in Region(bp, s)
  {
    var h := Home(m, p, bp);
    CoalesceEntry(m, p, bp, s, m', h);
    var a :| a in m' && InBlock(u, a, m'[a]);
    if a != h {
      BlockInUnits(m, a, u);
    } else if u < bp {
      BlockInUnits(m, h, u);
    } else if u >= bp + s {
      BlockInUnits(m, bp + s, u);
    }
  }

  /** Every free block lies within one afterwards. */
  lemma BlockWithin(m: Blocks, p: int, bp: int, s: nat, m': Blocks, a: int) returns (b: int)
    requires Apart(m) && Spot(m, p, bp, s) && m' == Coalesce(m, p, bp, s) && a in m
    ensures b in m' && b <= a && a + m[a] <= b + m'[b]
  {
    var h := Home(m, p, bp);
    CoalesceEntry(m, p, bp, s, m', h);
    b := if a == h || a == bp + s then h else a;
  }

  /** What was free stays free, and is none of the returned units. */
  lemma FreeStaysFree(m: Blocks, p: int, bp: int, s: nat, m': Blocks, u: int)
    requires Apart(m) && Spot(m, p, bp, s) && m' == Coalesce(m, p, bp, s) && u in Units(m)
    ensures u in Units(m') && u !in Region(bp, s)
  {
    var a :| a in m && InBlock(u, a, m[a]);
    var b := BlockWithin(m, p, bp, s, m', a);
    BlockInUnits(m', b, u);
    OutsideRegion(m, p, bp, s, a, u);
  }

  lemma OutsideRegion(m: Blocks, p: int, bp: int, s: nat, a: int, u: int)
    requires Apart(m) && Spot(m, p, bp, s) && a in m && InBlock(u, a, m[a])
    ensures !InBlock(u, bp, s)
  {
    assert p == BASE || p in m;
  }

  lemma ReturnedIsFree(m: Blocks, p: int, bp: int, s: nat, m': Blocks, u: int)
    requires Apart(m) && Spot(m, p, bp, s) && m' == Coalesce(m, p, bp, s) && u in Region(bp, s)
    ensures u in Units(m')
  {
    var h := Home(m, p, bp);
    CoalesceEntry(m, p, bp, s, m', h);
    BlockInUnits(m', h, u);
  }

  /** Giving a block back frees exactly its units. */
  lemma CoalesceUnits(m: Blocks, p: int, bp: int, s: nat, m': Blocks)
    requires Apart(m) && Spot(m, p, bp, s) && m' == Coalesce(m, p, bp, s)
    ensures Units(m') == Units(m) + Region(bp, s)
    ensures Units(m) !! Region(bp, s)
    ensures exists a :: a in m' && m'[a] >= s
  {
    CoalesceEntry(m, p, bp, s, m', Home(m, p, bp));
    forall u | u in Units(m') ensures u in Units(m) || u in Region(bp, s) {
      CoalescedFrom(m, p, bp, s, m', u);
    }
    forall u | u in Units(m) || u in Region(bp, s)
      ensures u in Units(m') && !(u in Units(m) && u in Region(bp, s))
    {
      if u in Units(m) {
        FreeStaysFree(m, p, bp, s, m', u);
      } else {
        ReturnedIsFree(m, p, bp, s, m', u);
      }
    }
  }

  // ----- Taking a block out -----

  /** The free blocks after the last n units of block `p` are handed out. */
  function Carve(m: Blocks, p: int, n: nat): Blocks
    requires p in m && 0 < n <= m[p]
  {
    if m[p] == n then m - {p} else m[p := m[p] - n]
  }

  lemma CarveApart(m: Blocks, p: int, n: nat)
    requires Apart(m) && p in m && 0 < n <= m[p]
    ensures Apart(Carve(m, p, n))
  {
  }

  lemma CarveUnits(m: Blocks, p: int, n: nat)
    requires Apart(m) && p in m && 0 < n <= m[p]
    ensures Units(Carve(m, p, n)) == Units(m) - Region(p + m[p] - n, n)
    ensures Region(p + m[p] - n, n) <= Units(m)
  {
    var m' := Carve(m, p, n);
    var taken := Region(p + m[p] - n, n);
    forall u | u in taken ensures u in Units(m) && u !in Units(m') {
      assert InBlock(u, p, m[p]);
    }
    forall u | u in Units(m') ensures u in Units(m) {
      var a :| a in m' && InBlock(u, a, m'[a]);
      assert InBlock(u, a, m[a]);
    }
    forall u | u in Units(m) && u !in taken ensures u in Units(m') {
      var a :| a in m && InBlock(u, a, m[a]);
      assert a in m' && InBlock(u, a, m'[a]);
    }
  }

  /** The unit behind a free block is not free. */
  lemma BlockEnds(m: Blocks, b: int)
    requires Apart(m) && b in m
    ensures b + m[b] !in Units(m)
  {
  }

  /** A stretch of free units lies within one block, since blocks do not touch. */
  lemma StretchInOne(m: Blocks, a: int, size: nat) returns (b: int)
    requires Apart(m) && size > 0 && Region(a, size) <= Units(m)
    ensures b in m && b <= a && a + size <= b + m[b]
  {
    assert a in Region(a, size);
    b :| b in m && InBlock(a, b, m[b]);
    BlockEnds(m, b);
    assert b + m[b] in Region(a, size) <==> b + m[b] < a + size;
  }
}
