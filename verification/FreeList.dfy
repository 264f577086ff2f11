/** The circular free list in memory: headers linked in address order, and how giving a
    block back or taking one out relinks it. */
module FreeList {
  import opened FreeBlocks

  datatype Header = Header(next: int, size: nat)

  type Memory = map<int, Header>

  function After(ring: seq<int>, i: nat): int
    requires i < |ring|
  {
    if i + 1 < |ring| then ring[i + 1] else ring[0]
  }

  ghost predicate Ascending(ring: seq<int>) {
    forall i, j :: 0 <= i < j < |ring| ==> ring[i] < ring[j]
  }

  /** One cycle through the base and all free blocks: addresses ascend, with one wrap. */
  ghost predicate Linked(mem: Memory, ring: seq<int>) {
    && |ring| > 0 && ring[0] == BASE
    && Ascending(ring)
    && (forall i :: 0 <= i < |ring| ==> ring[i] in mem)
    && (forall i {:trigger After(ring, i)} :: 0 <= i < |ring| ==> mem[ring[i]].next == After(ring, i))
  }

  /** The sizes in the headers are those of the free blocks, and the base is empty. */
  ghost predicate Holds(mem: Memory, ring: seq<int>, free: Blocks) {
    && (forall a :: a in free <==> a in ring && a != BASE)
    && BASE in mem && mem[BASE].size == 0
    && (forall a :: a in free ==> a in mem && mem[a].size == free[a])
  }

  /** The position after which an address belongs. */
  ghost predicate Precedes(ring: seq<int>, t: nat, bp: int) {
    t < |ring| && ring[t] < bp && (t + 1 < |ring| ==> bp < ring[t + 1])
  }

  lemma {:induction false} FindPosition(ring: seq<int>, bp: int, n: nat) returns (t: nat)
    requires 0 < n <= |ring| && ring[0] < bp && bp !in ring
    requires Ascending(ring)
    requires n < |ring| ==> bp < ring[n]
    ensures Precedes(ring, t, bp)
  {
    if ring[n - 1] < bp {
      t := n - 1;
    } else {
      t := FindPosition(ring, bp, n - 1);
    }
  }

  lemma PrecedesAll(ring: seq<int>, t: nat, bp: int)
    requires Ascending(ring) && Precedes(ring, t, bp)
    ensures forall a :: a in ring ==> a <= ring[t] || bp < a
  {
    forall a | a in ring ensures a <= ring[t] || bp < a {
      var i :| 0 <= i < |ring| && ring[i] == a;
      if i > t { assert ring[t + 1] <= ring[i]; }
    }
  }

  /** The test of the search loop singles out that position. */
  lemma TestIsPosition(ring: seq<int>, t: nat, j: nat, bp: int)
    requires |ring| > 0 && ring[0] == BASE < bp
    requires Ascending(ring)
    requires Precedes(ring, t, bp) && j < |ring|
    ensures var p, next := ring[j], After(ring, j);
            j == t <==> (p < bp < next || (p >= next && (bp > p || bp < next)))
  {
    if j < t { assert ring[j] < ring[t] && ring[j + 1] <= ring[t]; }
    if t < j { assert ring[t + 1] <= ring[j]; }
  }

  lemma SpotAt(mem: Memory, ring: seq<int>, free: Blocks, t: nat, bp: int, s: nat)
    requires Linked(mem, ring) && Holds(mem, ring, free) && Apart(free)
    requires BASE < bp && s > 0 && Precedes(ring, t, bp)
    requires Units(free) !! Region(bp, s)
    ensures Spot(free, ring[t], bp, s)
  {
    PrecedesAll(ring, t, bp);
    if ring[t] in free && bp < ring[t] + free[ring[t]] {
      BlockInUnits(free, ring[t], bp);
    }
    forall a | a in free && bp < a ensures bp + s <= a {
      if a < bp + s {
        BlockInUnits(free, a, a);
      }
    }
  }

  // ----- Taking an element out of the cycle, putting one in -----

  function Without(ring: seq<int>, i: nat): seq<int>
    requires i + 1 < |ring|
  {
    ring[..i + 1] + ring[i + 2..]
  }

  function With(ring: seq<int>, t: nat, bp: int): seq<int>
    requires t < |ring|
  {
    ring[..t + 1] + [bp] + ring[t + 1..]
  }

  lemma WithoutMembers(ring: seq<int>, i: nat, ring': seq<int>)
    requires Ascending(ring) && i + 1 < |ring| && ring' == Without(ring, i)
    ensures Ascending(ring')
    ensures forall a :: a in ring' <==> a in ring && a != ring[i + 1]
  {
    forall a | a in ring && a != ring[i + 1] ensures a in ring' {
      var k :| 0 <= k < |ring| && ring[k] == a;
      if k <= i { assert ring'[k] == a; } else { assert ring'[k - 1] == a; }
    }
    forall a | a in ring' ensures a in ring && a != ring[i + 1] {
      var k :| 0 <= k < |ring'| && ring'[k] == a;
      if k <= i { assert ring[k] == a; } else { assert ring[k + 1] == a; }
    }
  }

  /** Unlinking the successor of ring[i], whatever size ring[i] has afterwards. */
  lemma DropLinked(mem: Memory, ring: seq<int>, i: nat, size: nat, mem': Memory, ring': seq<int>)
    requires Linked(mem, ring) && i + 1 < |ring| && ring' == Without(ring, i)
    requires mem' == mem[ring[i] := Header(mem[ring[i + 1]].next, size)]
    ensures Linked(mem', ring')
  {
    WithoutMembers(ring, i, ring');
    forall k | 0 <= k < |ring'| ensures ring'[k] in mem' && mem'[ring'[k]].next == After(ring', k) {
      if k < i {
        assert ring'[k] == ring[k] < ring[i] && mem[ring[k]].next == After(ring, k);
      } else if k == i {
        assert mem[ring[i + 1]].next == After(ring, i + 1);
      } else {
        assert ring'[k] == ring[k + 1] > ring[i];
        assert mem[ring[k + 1]].next == After(ring, k + 1);
      }
    }
  }

  lemma WithMembers(ring: seq<int>, t: nat, bp: int, ring': seq<int>)
    requires Ascending(ring) && Precedes(ring, t, bp) && ring' == With(ring, t, bp)
    ensures Ascending(ring')
    ensures forall a :: a in ring' <==> a in ring || a == bp
  {
    forall i, j | 0 <= i < j < |ring'| ensures ring'[i] < ring'[j] {
      if i == t + 1 { assert ring[t + 1] <= ring[j - 1]; }
      if j == t + 1 { assert ring[i] <= ring[t]; }
    }
    forall a | a in ring || a == bp ensures a in ring' {
      if a in ring {
        var k :| 0 <= k < |ring| && ring[k] == a;
        if k <= t { assert ring'[k] == a; } else { assert ring'[k + 1] == a; }
      } else {
        assert ring'[t + 1] == bp;
      }
    }
  }

  /** The memory after the block at `bp` is linked in behind `p`, not yet joined to any. */
  function Inserted(mem: Memory, p: int, bp: int): Memory
    requires p in mem && bp in mem
  {
    mem[bp := mem[bp].(next := mem[p].next)][p := mem[p].(next := bp)]
  }

  lemma InsertLinked(mem: Memory, ring: seq<int>, t: nat, bp: int, mem': Memory, ring': seq<int>)
    requires Linked(mem, ring) && Precedes(ring, t, bp) && bp in mem
    requires ring' == With(ring, t, bp) && mem' == Inserted(mem, ring[t], bp)
    ensures Linked(mem', ring')
  {
    WithMembers(ring, t, bp, ring');
    forall k | 0 <= k < |ring'| ensures ring'[k] in mem' && mem'[ring'[k]].next == After(ring', k) {
      if k < t {
        assert ring'[k] == ring[k] < ring[t] && mem[ring[k]].next == After(ring, k);
      } else if k == t + 1 {
        assert mem[ring[t]].next == After(ring, t);
      } else if k > t + 1 {
        assert ring'[k] == ring[k - 1] > ring[t];
        assert mem[ring[k - 1]].next == After(ring, k - 1);
      }
    }
  }

  /** Joining ring[i] with the block after it, which it touches. */
  lemma JoinHolds(mem: Memory, ring: seq<int>, free: Blocks, i: nat, mem': Memory, ring': seq<int>, free': Blocks)
    requires Linked(mem, ring) && Holds(mem, ring, free) && i + 1 < |ring| && ring[i] in free && ring[i + 1] in free
    requires mem' == mem[ring[i] := Header(mem[ring[i + 1]].next, mem[ring[i]].size + mem[ring[i + 1]].size)]
    requires ring' == Without(ring, i)
    requires free' == (free - {ring[i + 1]})[ring[i] := free[ring[i]] + free[ring[i + 1]]]
    ensures Linked(mem', ring') && Holds(mem', ring', free')
  {
    DropLinked(mem, ring, i, mem[ring[i]].size + mem[ring[i + 1]].size, mem', ring');
    WithoutMembers(ring, i, ring');
  }

  lemma InsertHolds(mem: Memory, ring: seq<int>, free: Blocks, t: nat, bp: int,
                    mem': Memory, ring': seq<int>, free': Blocks)
    requires Linked(mem, ring) && Holds(mem, ring, free) && Precedes(ring, t, bp) && bp in mem && BASE < bp
    requires ring' == With(ring, t, bp) && mem' == Inserted(mem, ring[t], bp) && free' == free[bp := mem[bp].size]
    ensures Linked(mem', ring') && Holds(mem', ring', free')
  {
    InsertLinked(mem, ring, t, bp, mem', ring');
    WithMembers(ring, t, bp, ring');
  }

  // ----- Giving a block back -----

  /** The memory after the block at `bp` is linked in behind `p` and joined to the blocks it
      touches. */
  function Relink(mem: Memory, p: int, bp: int): Memory
    requires p in mem && bp in mem && mem[p].next in mem
  {
    var nx := mem[p].next;
    var mem1 := mem[bp := if bp + mem[bp].size == nx then Header(mem[nx].next, mem[bp].size + mem[nx].size)
                          else Header(nx, mem[bp].size)];
    mem1[p := if p + mem1[p].size == bp then Header(mem1[bp].next, mem1[p].size + mem1[bp].size)
              else Header(bp, mem1[p].size)]
  }

  /** Joining a block just linked in with the one above it. */
  lemma JoinUpper(mem1: Memory, ring1: seq<int>, free: Blocks, i: nat, bp: int, s: nat, nx: int, free1: Blocks,
                  mem2: Memory, ring2: seq<int>, free2: Blocks)
    requires Linked(mem1, ring1) && Holds(mem1, ring1, free1) && free1 == free[bp := s]
    requires i + 1 < |ring1| && ring1[i] == bp && ring1[i + 1] == nx && BASE < bp < nx && nx in free
    requires mem2 == mem1[bp := Header(mem1[nx].next, mem1[bp].size + mem1[nx].size)]
    requires ring2 == Without(ring1, i) && free2 == (free - {nx})[bp := s + free[nx]]
    ensures Linked(mem2, ring2) && Holds(mem2, ring2, free2)
  {
    assert free2 == (free1 - {nx})[bp := free1[bp] + free1[nx]];
    JoinHolds(mem1, ring1, free1, i, mem2, ring2, free2);
  }

  /** A free block that begins where the returned one ends is the next one in the cycle. */
  lemma UpperIsNext(mem: Memory, ring: seq<int>, free: Blocks, t: nat, bp: int, s: nat)
    requires Linked(mem, ring) && Holds(mem, ring, free) && Precedes(ring, t, bp) && Spot(free, ring[t], bp, s)
    ensures bp + s in free <==> After(ring, t) == bp + s
  {
    if bp + s in free {
      var i :| 0 <= i < |ring| && ring[i] == bp + s;
      assert i > t;
      assert ring[t + 1] in free;
    }
  }

  function UpperBlocks(free: Blocks, bp: int, s: nat): Blocks {
    WithoutUpper(free, bp, s)[bp := JoinedUp(free, bp, s)]
  }

  lemma UpperBlocksIs(free: Blocks, bp: int, s: nat)
    ensures bp + s !in free ==> UpperBlocks(free, bp, s) == free[bp := s]
    ensures bp + s in free ==> UpperBlocks(free, bp, s) == (free - {bp + s})[bp := s + free[bp + s]]
  {
  }

  /** After linking in and joining upwards. */
  ghost predicate UpperDone(mem: Memory, ring: seq<int>, free: Blocks, t: nat, bp: int, s: nat, mem1: Memory,
                            ring1: seq<int>)
    requires t < |ring|
  {
    && Linked(mem1, ring1) && Holds(mem1, ring1, UpperBlocks(free, bp, s))
    && t + 1 < |ring1| && ring1[t] == ring[t] && ring1[t + 1] == bp
  }

  function UpperMemory(mem: Memory, p: int, bp: int): Memory
    requires p in mem && bp in mem && mem[p].next in mem
  {
    var nx, s := mem[p].next, mem[bp].size;
    mem[bp := if bp + s == nx then Header(mem[nx].next, s + mem[nx].size) else Header(nx, s)][p := mem[p].(next := bp)]
  }

  lemma UpperMemoryIs(mem: Memory, p: int, bp: int, nx: int, mem1: Memory, m: Memory)
    requires p in mem && bp in mem && nx == mem[p].next && nx in mem && p < bp
    requires mem1 == UpperMemory(mem, p, bp) && m == Inserted(mem, p, bp)
    ensures bp + mem[bp].size != nx ==> mem1 == m
    ensures bp + mem[bp].size == nx && bp < nx ==> mem1 == m[bp := Header(m[nx].next, m[bp].size + m[nx].size)]
  {
  }

  lemma RelinkApart(mem: Memory, ring: seq<int>, free: Blocks, t: nat, bp: int, s: nat, mem1: Memory)
      returns (ring1: seq<int>)
    requires Linked(mem, ring) && Holds(mem, ring, free)
    requires bp in mem && Precedes(ring, t, bp) && s == mem[bp].size && BASE < bp && bp + s !in free
    requires mem1 == Inserted(mem, ring[t], bp)
    ensures UpperDone(mem, ring, free, t, bp, s, mem1, ring1)
  {
    ring1 := With(ring, t, bp);
    UpperBlocksIs(free, bp, s);
    InsertHolds(mem, ring, free, t, bp, mem1, ring1, UpperBlocks(free, bp, s));
  }

  lemma InsertedIs(mem: Memory, ring: seq<int>, t: nat, bp: int, nx: int, m: Memory, ring1: seq<int>)
    requires Linked(mem, ring) && bp in mem && Precedes(ring, t, bp) && nx == After(ring, t) > bp
    requires m == Inserted(mem, ring[t], bp) && ring1 == With(ring, t, bp)
    ensures bp in m && nx in m && t + 2 < |ring1| && ring1[t] == ring[t] && ring1[t + 1] == bp && ring1[t + 2] == nx
  {
    assert t + 1 < |ring|;
  }

  /** The cycle before and after joining upwards. */
  lemma JoinedRing(ring: seq<int>, t: nat, bp: int, ring0: seq<int>, ring1: seq<int>)
    requires t + 1 < |ring| && ring0 == With(ring, t, bp) && ring1 == Without(ring0, t + 1)
    ensures t + 1 < |ring1| && ring1[t] == ring[t] && ring1[t + 1] == bp
  {
  }

  lemma RelinkTouching(mem: Memory, ring: seq<int>, free: Blocks, t: nat, bp: int, s: nat, nx: int, m: Memory,
                       mem1: Memory, free1: Blocks, ring0: seq<int>, ring1: seq<int>)
    requires Linked(mem, ring) && Holds(mem, ring, free)
    requires bp in mem && Precedes(ring, t, bp) && s == mem[bp].size > 0 && BASE < bp && nx == bp + s && nx in free
    requires m == Inserted(mem, ring[t], bp) && bp in m && nx in m
    requires mem1 == m[bp := Header(m[nx].next, m[bp].size + m[nx].size)]
    requires free1 == (free - {nx})[bp := s + free[nx]]
    requires t + 2 < |ring0| && ring0 == With(ring, t, bp) && ring0[t + 1] == bp && ring0[t + 2] == nx
    requires ring1 == Without(ring0, t + 1)
    ensures Linked(mem1, ring1) && Holds(mem1, ring1, free1)
  {
    var free0 := free[bp := s];
    InsertHolds(mem, ring, free, t, bp, m, ring0, free0);
    JoinUpper(m, ring0, free, t + 1, bp, s, nx, free0, mem1, ring1, free1);
  }

  lemma RelinkFirst(mem: Memory, ring: seq<int>, free: Blocks, t: nat, bp: int, s: nat, mem1: Memory)
      returns (ring1: seq<int>)
    requires Linked(mem, ring) && Holds(mem, ring, free)
    requires bp in mem && Precedes(ring, t, bp) && s == mem[bp].size && Spot(free, ring[t], bp, s)
    requires mem[ring[t]].next in mem && mem1 == UpperMemory(mem, ring[t], bp)
    ensures UpperDone(mem, ring, free, t, bp, s, mem1, ring1)
  {
    var nx := After(ring, t);
    assert mem[ring[t]].next == nx;
    UpperIsNext(mem, ring, free, t, bp, s);
    var m := Inserted(mem, ring[t], bp);
    UpperMemoryIs(mem, ring[t], bp, nx, mem1, m);
    if bp + s in free {
      var ring0 := With(ring, t, bp);
      InsertedIs(mem, ring, t, bp, nx, m, ring0);
      ring1 := Without(ring0, t + 1);
      UpperBlocksIs(free, bp, s);
      RelinkTouching(mem, ring, free, t, bp, s, nx, m, mem1, UpperBlocks(free, bp, s), ring0, ring1);
      JoinedRing(ring, t, bp, ring0, ring1);
    } else {
      ring1 := RelinkApart(mem, ring, free, t, bp, s, m);
    }
  }

  /** What joining downwards then does to the memory. */
  lemma LowerMemoryIs(mem: Memory, p: int, bp: int, mem1: Memory, mem': Memory)
    requires p in mem && bp in mem && mem[p].next in mem && p != bp
    requires mem1 == UpperMemory(mem, p, bp) && mem' == Relink(mem, p, bp)
    ensures p in mem1 && bp in mem1 && mem1[p].size == mem[p].size
    ensures mem' == if p + mem[p].size == bp
                    then mem1[p := Header(mem1[bp].next, mem1[p].size + mem1[bp].size)]
                    else mem1
  {
  }

  lemma LowerBlocksIs(free: Blocks, p: int, bp: int, s: nat, free1: Blocks)
    requires Spot(free, p, bp, s) && free1 == UpperBlocks(free, bp, s)
    ensures bp in free1 && (p in free <==> p in free1)
    ensures p in free ==> free1[p] == free[p]
    ensures Coalesce(free, p, bp, s) ==
            if p in free && p + free[p] == bp then (free1 - {bp})[p := free1[p] + free1[bp]] else free1
  {
  }

  /** Giving a block back keeps the cycle and yields the coalesced blocks. */
  lemma RelinkKeeps(mem: Memory, ring: seq<int>, free: Blocks, t: nat, bp: int, s: nat, mem': Memory)
      returns (ring': seq<int>)
    requires Linked(mem, ring) && Holds(mem, ring, free)
    requires bp in mem && Precedes(ring, t, bp) && s == mem[bp].size && Spot(free, ring[t], bp, s)
    requires mem[ring[t]].next in mem && mem' == Relink(mem, ring[t], bp)
    ensures Linked(mem', ring') && Holds(mem', ring', Coalesce(free, ring[t], bp, s))
    ensures ring[t] in ring'
  {
    var p := ring[t];
    var mem1, free1 := UpperMemory(mem, p, bp), UpperBlocks(free, bp, s);
    var ring1 := RelinkFirst(mem, ring, free, t, bp, s, mem1);
    LowerMemoryIs(mem, p, bp, mem1, mem');
    LowerBlocksIs(free, p, bp, s, free1);
    assert p in free <==> p != BASE;
    ring' := RelinkSecond(mem1, ring1, free1, t, p, bp, mem', Coalesce(free, p, bp, s));
  }

  /** Joining downwards, if the blocks touch. */
  lemma RelinkSecond(mem1: Memory, ring1: seq<int>, free1: Blocks, t: nat, p: int, bp: int, mem': Memory, free': Blocks)
      returns (ring': seq<int>)
    requires Linked(mem1, ring1) && Holds(mem1, ring1, free1)
    requires t + 1 < |ring1| && ring1[t] == p && ring1[t + 1] == bp && p in mem1 && bp in mem1 && bp in free1
    requires p in free1 <==> p != BASE
    requires var touch := p in free1 && p + free1[p] == bp;
             && mem' == (if touch then mem1[p := Header(mem1[bp].next, mem1[p].size + mem1[bp].size)] else mem1)
             && free' == (if touch then (free1 - {bp})[p := free1[p] + free1[bp]] else free1)
    ensures Linked(mem', ring') && Holds(mem', ring', free') && p in ring'
  {
    ring' := ring1;
    if p in free1 && p + free1[p] == bp {
      ring' := Without(ring1, t);
      JoinHolds(mem1, ring1, free1, t, mem', ring', free');
      assert ring'[t] == p;
    }
  }
}
