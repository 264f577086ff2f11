/** The allocator: a first-fit walk from a roving start over the circular free list, tail
    splits, growth by the system's grants, and coalescing when a block is given back. */
module FreeHeap {
  import opened FreeBlocks
  import opened FreeList

  const NULL: int := -1
  const NALLOC: nat := 1024
  const HEADER: nat := 16

  /** What the system answers when asked for memory. */
  datatype Grant = Refused | Granted(at: int)

  /** The units of a block for `nbytes`: the header and the fewest units that hold them. */
  function UnitsFor(nbytes: nat): (n: nat)
    ensures n > 0 && nbytes <= (n - 1) * HEADER < nbytes + HEADER
  {
    (nbytes + HEADER - 1) / HEADER + 1
  }

  /** The least number of units that is at least 1024 and enough. */
  ghost predicate LeastGrowth(n: nat, nunits: nat) {
    n >= 1024 && n >= nunits && (n == 1024 || n == nunits)
  }

  function GrowthFor(nunits: nat): (n: nat)
    ensures LeastGrowth(n, nunits)
  {
    if nunits < NALLOC then NALLOC else nunits
  }

  /** A block of n units at h is the tail of the block p of `fitted`, and `free` is what is
      left. */
  ghost predicate IsTail(fitted: Blocks, p: int, n: nat, h: int, free: Blocks) {
    && Apart(fitted) && p in fitted && 0 < n <= fitted[p] && h == p + fitted[p] - n
    && free == if fitted[p] == n then fitted - {p} else fitted[p := fitted[p] - n]
  }

  ghost predicate NothingFits(free: Blocks, n: nat) {
    forall a :: a in free ==> free[a] < n
  }

  /** The cycle through the base and the free blocks, entered anywhere. */
  ghost predicate ListOk(mem: Memory, freep: int, ring: seq<int>, free: Blocks) {
    Linked(mem, ring) && Holds(mem, ring, free) && freep in ring
  }

  /** The memory obtained so far is split between free and live blocks. */
  ghost predicate Accounts(free: Blocks, live: Blocks, owned: iset<int>) {
    && Apart(free) && Disjoint(live)
    && Units(free) !! Units(live)
    && Units(free) + Units(live) == owned
  }

  ghost predicate HeadersOk(mem: Memory, live: Blocks, owned: iset<int>) {
    && BASE in mem
    && (forall u :: u in owned ==> u in mem)
    && (forall a :: a in live ==> a in mem && mem[a].size == live[a])
  }

  /** Nothing in the given units has changed. */
  ghost predicate SameContents(units: iset<int>, mem: Memory, mem': Memory) {
    forall u :: u in units ==> u in mem && u in mem' && mem'[u] == mem[u]
  }

  /** One moment of the heap: the memory and where the walk starts, the cycle, the blocks in
      it, the blocks handed out, and the units granted so far. */
  datatype View = View(mem: Memory, freep: int, ring: seq<int>, free: Blocks, live: Blocks, owned: iset<int>)

  ghost predicate SoundView(v: View) {
    && Accounts(v.free, v.live, v.owned)
    && HeadersOk(v.mem, v.live, v.owned)
    && (if v.freep == NULL then v.owned == iset{} && v.free == map[] && v.live == map[]
        else ListOk(v.mem, v.freep, v.ring, v.free))
  }

  ghost function Sound(): iset<View> {
    iset v: View | SoundView(v)
  }

  lemma SoundIs(v: View)
    ensures v in Sound() <==> SoundView(v)
  {
  }

  // ----- Adding and removing live blocks -----

  lemma AddBlock(m: Blocks, q: int, n: nat)
    requires Disjoint(m) && n > 0 && BASE < q && Units(m) !! Region(q, n)
    ensures q !in m && Disjoint(m[q := n]) && Units(m[q := n]) == Units(m) + Region(q, n)
  {
    var m' := m[q := n];
    if q in m {
      BlockInUnits(m, q, q);
    }
    assert q in Region(q, n);
    forall a | a in m ensures a < q ==> a + m[a] <= q {
      if a < q < a + m[a] { BlockInUnits(m, a, q); }
    }
    forall a | a in m ensures q < a ==> q + n <= a {
      if q < a < q + n { BlockInUnits(m, a, a); }
    }
    forall u ensures u in Units(m') <==> u in Units(m) || u in Region(q, n) {
      if u in Units(m') {
        var a :| a in m' && InBlock(u, a, m'[a]);
      }
      if u in Units(m) {
        var a :| a in m && InBlock(u, a, m[a]);
        BlockInUnits(m', a, u);
      }
      if u in Region(q, n) { BlockInUnits(m', q, u); }
    }
  }

  lemma RemoveBlock(m: Blocks, q: int)
    requires Disjoint(m) && q in m
    ensures Disjoint(m - {q}) && Units(m - {q}) == Units(m) - Region(q, m[q])
    ensures Region(q, m[q]) <= Units(m)
  {
    var m' := m - {q};
    forall u | u in Region(q, m[q]) ensures u in Units(m) && u !in Units(m') {
      BlockInUnits(m, q, u);
    }
    forall u | u in Units(m) && u !in Region(q, m[q]) ensures u in Units(m') {
      var a :| a in m && InBlock(u, a, m[a]);
      BlockInUnits(m', a, u);
    }
    forall u | u in Units(m') ensures u in Units(m) {
      var a :| a in m' && InBlock(u, a, m'[a]);
      BlockInUnits(m, a, u);
    }
  }

  /** Elements of the cycle are the base or lie in free memory. */
  lemma RingUnits(mem: Memory, freep: int, ring: seq<int>, free: Blocks)
    requires ListOk(mem, freep, ring, free) && Apart(free)
    ensures forall a :: a in ring ==> a == BASE || a in Units(free)
  {
    forall a | a in ring && a != BASE ensures a in Units(free) {
      BlockInUnits(free, a, a);
    }
  }

  // ----- Taking a block out -----

  /** The memory after the block behind `prevp` is unlinked. */
  function Unlinked(mem: Memory, prevp: int, p: int): Memory
    requires prevp in mem && p in mem
  {
    mem[prevp := mem[prevp].(next := mem[p].next)]
  }

  lemma UnlinkKeeps(mem: Memory, ring: seq<int>, free: Blocks, i: nat, mem': Memory, ring': seq<int>)
    requires Linked(mem, ring) && Holds(mem, ring, free) && i + 1 < |ring|
    requires mem' == Unlinked(mem, ring[i], ring[i + 1]) && ring' == Without(ring, i)
    ensures Linked(mem', ring') && Holds(mem', ring', free - {ring[i + 1]}) && ring[i] in ring'
  {
    DropLinked(mem, ring, i, mem[ring[i]].size, mem', ring');
    WithoutMembers(ring, i, ring');
    assert ring'[i] == ring[i];
  }

  /** The memory after the last n units of the block at `p` get a header of their own. */
  function Split(mem: Memory, p: int, n: nat): Memory
    requires p in mem && n <= mem[p].size && p + mem[p].size - n in mem
  {
    var q := p + mem[p].size - n;
    var mem1 := mem[p := mem[p].(size := mem[p].size - n)];
    mem1[q := mem1[q].(size := n)]
  }

  lemma SplitKeeps(mem: Memory, ring: seq<int>, free: Blocks, p: int, n: nat, mem': Memory)
    requires Linked(mem, ring) && Holds(mem, ring, free) && Apart(free)
    requires p in free && 0 < n < free[p] && p + free[p] - n in mem && mem' == Split(mem, p, n)
    ensures Linked(mem', ring) && Holds(mem', ring, free[p := free[p] - n])
    ensures p + free[p] - n !in ring
  {
    var q := p + free[p] - n;
    assert q !in free;
  }

  // ----- Walking the cycle once -----

  /** The cycle read from just after position f, which comes last. */
  function Lap(ring: seq<int>, f: nat): seq<int>
    requires f < |ring|
  {
    ring[f + 1..] + ring[..f + 1]
  }

  lemma LapAt(mem: Memory, ring: seq<int>, f: nat, lap: seq<int>, k: nat)
    requires Linked(mem, ring) && f < |ring| && lap == Lap(ring, f) && k < |lap|
    ensures |lap| == |ring| && lap[|lap| - 1] == ring[f] && lap[k] in ring && lap[k] in mem
    ensures mem[lap[k]].next == After(lap, k)
    ensures lap[k] == ring[f] ==> k == |lap| - 1
  {
    var i := if k < |ring| - f - 1 then k + f + 1 else k - (|ring| - f - 1);
    assert lap[k] == ring[i];
    assert mem[ring[i]].next == After(ring, i);
  }

  /** A walk along links that ends at `freep` and passes it only there. */
  ghost predicate IsLap(mem: Memory, freep: int, lap: seq<int>) {
    && |lap| > 0 && lap[|lap| - 1] == freep
    && (forall k :: 0 <= k < |lap| ==> lap[k] in mem)
    && (forall k {:trigger After(lap, k)} :: 0 <= k < |lap| ==> mem[lap[k]].next == After(lap, k))
    && (forall k :: 0 <= k < |lap| && lap[k] == freep ==> k == |lap| - 1)
  }

  lemma LapIsLap(mem: Memory, ring: seq<int>, f: nat, lap: seq<int>)
    requires Linked(mem, ring) && f < |ring| && lap == Lap(ring, f)
    ensures IsLap(mem, ring[f], lap)
  {
    forall k | 0 <= k < |lap|
      ensures lap[k] in mem && mem[lap[k]].next == After(lap, k) && (lap[k] == ring[f] ==> k == |lap| - 1)
    {
      LapAt(mem, ring, f, lap, k);
    }
  }

  lemma LapMembers(ring: seq<int>, f: nat, lap: seq<int>, a: int)
    requires f < |ring| && lap == Lap(ring, f)
    ensures a in lap <==> a in ring
  {
    assert ring == ring[..f + 1] + ring[f + 1..];
  }

  ghost predicate TooSmall(mem: Memory, lap: seq<int>, k: nat, n: nat)
    requires k <= |lap|
  {
    forall j :: 0 <= j < k ==> lap[j] in mem && mem[lap[j]].size < n
  }

  lemma TooSmallMore(mem: Memory, lap: seq<int>, k: nat, n: nat)
    requires k < |lap| && TooSmall(mem, lap, k, n) && lap[k] in mem && mem[lap[k]].size < n
    ensures TooSmall(mem, lap, k + 1, n)
  {
  }

  ghost predicate FirstOnLap(mem: Memory, lap: seq<int>, k: nat, n: nat) {
    k < |lap| && TooSmall(mem, lap, k, n) && lap[k] in mem && mem[lap[k]].size >= n
  }

  /** On the walk that starts behind `freep`, p is the first block with room for n units, and
      `prevp` comes before it. */
  ghost predicate FirstFit(mem: Memory, freep: int, n: nat, p: int, prevp: int) {
    exists lap, k :: IsLap(mem, freep, lap) && FitsAt(mem, freep, lap, k, n, p, prevp)
  }

  ghost predicate FitsAt(mem: Memory, freep: int, lap: seq<int>, k: nat, n: nat, p: int, prevp: int) {
    FirstOnLap(mem, lap, k, n) && p == lap[k] && prevp == if k == 0 then freep else lap[k - 1]
  }

  /** The lap that starts behind `freep` and ends there. */
  ghost function LapFrom(ring: seq<int>, freep: int): seq<int>
    requires freep in ring
  {
    Lap(ring, IndexOf(ring, freep))
  }

  lemma LapFits(mem: Memory, ring: seq<int>, free: Blocks, i: nat, n: nat)
    requires Linked(mem, ring) && Holds(mem, ring, free) && i < |ring| && ring[i] != BASE
    requires mem[ring[i]].size >= n
    ensures !NothingFits(free, n)
  {
    assert ring[i] in free;
  }

  /** A lap on which nothing fits has seen every free block. */
  lemma LapSeesAll(mem: Memory, ring: seq<int>, free: Blocks, f: nat, lap: seq<int>, n: nat)
    requires Linked(mem, ring) && Holds(mem, ring, free) && f < |ring| && lap == Lap(ring, f)
    requires TooSmall(mem, lap, |lap|, n)
    ensures NothingFits(free, n)
  {
    forall a | a in free ensures free[a] < n {
      LapMembers(ring, f, lap, a);
      var j :| 0 <= j < |lap| && lap[j] == a;
    }
  }

  /** In the cycle, only the base follows a block at a higher address. */
  lemma LapStep(mem: Memory, ring: seq<int>, f: nat, lap: seq<int>, k: nat) returns (i: nat)
    requires Linked(mem, ring) && f < |ring| && lap == Lap(ring, f) && k < |lap| && lap[k] != BASE
    ensures i + 1 < |ring| && ring[i + 1] == lap[k]
    ensures ring[i] == if k == 0 then ring[f] else lap[k - 1]
  {
    var m := |ring| - f - 1;
    if k < m { i := k + f; } else { i := k - m - 1; }
  }

  // ----- What giving back and taking out do to the whole heap -----

  lemma RelinkFrame(mem: Memory, p: int, bp: int, mem': Memory)
    requires p in mem && bp in mem && mem[p].next in mem && mem' == Relink(mem, p, bp)
    ensures mem'.Keys == mem.Keys
    ensures forall a :: a in mem && a != p && a != bp ==> mem'[a] == mem[a]
  {
  }

  /** Writing only outside the live blocks keeps their contents and headers. */
  lemma LiveUntouched(mem: Memory, mem': Memory, live: Blocks, owned: iset<int>)
    requires Disjoint(live) && HeadersOk(mem, live, owned) && mem'.Keys >= mem.Keys
    requires Units(live) <= owned && SameContents(Units(live), mem, mem')
    ensures HeadersOk(mem', live, owned)
  {
    forall a | a in live ensures mem'[a].size == live[a] {
      BlockInUnits(live, a, a);
    }
  }

  /** A live block is out of the cycle, and above the base. */
  lemma LiveOffRing(mem: Memory, freep: int, ring: seq<int>, free: Blocks, live: Blocks, owned: iset<int>, bp: int)
    requires Accounts(free, live, owned) && ListOk(mem, freep, ring, free) && bp in live
    ensures BASE < bp && bp !in ring && Units(free) !! Region(bp, live[bp])
  {
    RemoveBlock(live, bp);
    if bp in ring {
      RingUnits(mem, freep, ring, free);
      BlockInUnits(live, bp, bp);
    }
  }

  lemma FreeAccounts(free: Blocks, live: Blocks, owned: iset<int>, p: int, bp: int, s: nat, free': Blocks)
    requires Accounts(free, live, owned) && bp in live && live[bp] == s
    requires Spot(free, p, bp, s) && free' == Coalesce(free, p, bp, s)
    ensures Accounts(free', live - {bp}, owned) && Units(free') == Units(free) + Region(bp, s)
    ensures Units(live - {bp}) == Units(live) - Region(bp, s)
    ensures exists a :: a in free' && free'[a] >= s
  {
    CoalesceApart(free, p, bp, s);
    CoalesceUnits(free, p, bp, s, free');
    RemoveBlock(live, bp);
  }

  lemma FreeKeeps(mem: Memory, freep: int, ring: seq<int>, free: Blocks, live: Blocks, owned: iset<int>,
                  t: nat, bp: int, mem': Memory)
      returns (ring': seq<int>, free': Blocks)
    requires Accounts(free, live, owned) && HeadersOk(mem, live, owned) && ListOk(mem, freep, ring, free)
    requires bp in live && Precedes(ring, t, bp)
    requires mem[ring[t]].next in mem && mem' == Relink(mem, ring[t], bp)
    ensures ListOk(mem', ring[t], ring', free')
    ensures Accounts(free', live - {bp}, owned) && HeadersOk(mem', live - {bp}, owned)
    ensures Units(free') == Units(free) + Region(bp, live[bp])
    ensures exists a :: a in free' && free'[a] >= live[bp]
    ensures SameContents(Units(live - {bp}), mem, mem')
  {
    var s, p := live[bp], ring[t];
    LiveOffRing(mem, freep, ring, free, live, owned, bp);
    SpotAt(mem, ring, free, t, bp, s);
    ring' := RelinkKeeps(mem, ring, free, t, bp, s, mem');
    free' := Coalesce(free, p, bp, s);
    FreeAccounts(free, live, owned, p, bp, s, free');
    FreeContents(mem, freep, ring, free, live, owned, p, bp, mem');
  }

  lemma FreeContents(mem: Memory, freep: int, ring: seq<int>, free: Blocks, live: Blocks, owned: iset<int>,
                     p: int, bp: int, mem': Memory)
    requires Accounts(free, live, owned) && HeadersOk(mem, live, owned) && ListOk(mem, freep, ring, free)
    requires bp in live && p in ring && mem[p].next in mem && mem' == Relink(mem, p, bp)
    ensures HeadersOk(mem', live - {bp}, owned)
    ensures SameContents(Units(live - {bp}), mem, mem')
  {
    var live' := live - {bp};
    RelinkFrame(mem, p, bp, mem');
    RemoveBlock(live, bp);
    RingUnits(mem, freep, ring, free);
    AboveBase(live);
    assert bp in Region(bp, live[bp]);
    forall u | u in Units(live') ensures u in mem && u in mem' && mem'[u] == mem[u] {
      assert u != bp && u != p;
    }
    LiveUntouched(mem, mem', live', owned);
  }

  lemma AboveBase(m: Blocks)
    requires Disjoint(m)
    ensures forall u :: u in Units(m) ==> BASE < u
  {
  }

  /** Handing out the last n units of a free block. */
  lemma TakeAccounts(free: Blocks, live: Blocks, owned: iset<int>, p: int, n: nat, h: int)
    requires Accounts(free, live, owned) && p in free && 0 < n <= free[p] && h == p + free[p] - n
    ensures h !in live && Accounts(Carve(free, p, n), live[h := n], owned)
    ensures Units(Carve(free, p, n)) == Units(free) - Region(h, n)
    ensures Units(live[h := n]) == Units(live) + Region(h, n)
    ensures Units(live) !! Region(h, n) && Region(h, n) <= Units(free)
  {
    CarveApart(free, p, n);
    CarveUnits(free, p, n);
    AddBlock(live, h, n);
  }

  /** The memory after n units of the block behind `prevp` are handed out. */
  function Taken(mem: Memory, prevp: int, p: int, n: nat): Memory
    requires prevp in mem && p in mem && n <= mem[p].size && p + mem[p].size - n in mem
  {
    if mem[p].size == n then Unlinked(mem, prevp, p) else Split(mem, p, n)
  }

  lemma TakenFrame(mem: Memory, prevp: int, p: int, n: nat, h: int, mem': Memory)
    requires prevp in mem && p in mem && n <= mem[p].size && h == p + mem[p].size - n && h in mem
    requires mem' == Taken(mem, prevp, p, n) && prevp != p
    ensures mem'.Keys == mem.Keys && mem'[h].size == n
    ensures forall a :: a in mem && a != prevp && a != p && a != h ==> mem'[a] == mem[a]
  {
  }

  lemma TakeKeepsList(mem: Memory, ring: seq<int>, free: Blocks, i: nat, n: nat, mem': Memory)
      returns (ring': seq<int>)
    requires Linked(mem, ring) && Holds(mem, ring, free) && Apart(free) && i + 1 < |ring|
    requires ring[i + 1] in free && 0 < n <= free[ring[i + 1]] && ring[i + 1] + free[ring[i + 1]] - n in mem
    requires mem' == Taken(mem, ring[i], ring[i + 1], n)
    ensures ListOk(mem', ring[i], ring', Carve(free, ring[i + 1], n))
  {
    var p := ring[i + 1];
    if free[p] == n {
      ring' := Without(ring, i);
      UnlinkKeeps(mem, ring, free, i, mem', ring');
    } else {
      ring' := ring;
      SplitKeeps(mem, ring, free, p, n, mem');
    }
  }

  lemma TakeContents(mem: Memory, freep: int, ring: seq<int>, free: Blocks, live: Blocks, owned: iset<int>,
                     prevp: int, p: int, n: nat, h: int, mem': Memory)
    requires Accounts(free, live, owned) && HeadersOk(mem, live, owned) && ListOk(mem, freep, ring, free)
    requires prevp in ring && p in free && prevp != p && 0 < n <= free[p] && h == p + free[p] - n && h in mem
    requires mem' == Taken(mem, prevp, p, n)
    ensures HeadersOk(mem', live[h := n], owned)
    ensures SameContents(Units(live), mem, mem')
  {
    TakenFrame(mem, prevp, p, n, h, mem');
    RingUnits(mem, freep, ring, free);
    AboveBase(live);
    BlockInUnits(free, p, h);
    forall u | u in Units(live) ensures u in mem && u in mem' && mem'[u] == mem[u] {
      assert u != h && u != p && u != prevp;
    }
    LiveUntouched(mem, mem', live, owned);
    HeaderAdded(mem', live, owned, h, n);
  }

  lemma HeaderAdded(mem: Memory, live: Blocks, owned: iset<int>, h: int, n: nat)
    requires HeadersOk(mem, live, owned) && h in mem && mem[h].size == n
    ensures HeadersOk(mem, live[h := n], owned)
  {
  }

  /** What the header at position i + 1 says about the free block there. */
  lemma BlockAt(mem: Memory, freep: int, ring: seq<int>, free: Blocks, live: Blocks, owned: iset<int>,
                i: nat, prevp: int, p: int, n: nat)
    requires View(mem, freep, ring, free, live, owned) in Sound() && freep != NULL
    requires i + 1 < |ring| && prevp == ring[i] && p == ring[i + 1] && p in mem && 0 < n <= mem[p].size
    ensures p in free && free[p] == mem[p].size
    ensures prevp in mem && prevp != NULL && p + mem[p].size - n in mem
  {
    assert ring[0] < p && ring[0] <= prevp;
    assert p in free;
    BlockInUnits(free, p, p + free[p] - n);
  }

  lemma TakeParts(mem: Memory, freep: int, ring: seq<int>, free: Blocks, live: Blocks, owned: iset<int>,
                  i: nat, prevp: int, p: int, n: nat, h: int, mem': Memory)
      returns (ring': seq<int>)
    requires Accounts(free, live, owned) && HeadersOk(mem, live, owned) && ListOk(mem, freep, ring, free)
    requires i + 1 < |ring| && prevp == ring[i] && p == ring[i + 1] && p in free && 0 < n <= free[p]
    requires prevp in mem && n <= mem[p].size && h == p + mem[p].size - n && h in mem
    requires mem' == Taken(mem, prevp, p, n)
    ensures ListOk(mem', prevp, ring', Carve(free, p, n)) && Accounts(Carve(free, p, n), live[h := n], owned)
    ensures HeadersOk(mem', live[h := n], owned) && h !in live
    ensures SameContents(Units(live), mem, mem')
  {
    ring' := TakeKeepsList(mem, ring, free, i, n, mem');
    TakeAccounts(free, live, owned, p, n, h);
    assert ring[i] < ring[i + 1];
    TakeContents(mem, freep, ring, free, live, owned, prevp, p, n, h, mem');
  }

  lemma TakeKeeps(mem: Memory, freep: int, ring: seq<int>, free: Blocks, live: Blocks, owned: iset<int>,
                  i: nat, prevp: int, p: int, n: nat, h: int, mem': Memory, free': Blocks, live': Blocks)
      returns (ring': seq<int>)
    requires View(mem, freep, ring, free, live, owned) in Sound() && freep != NULL
    requires i + 1 < |ring| && prevp == ring[i] && prevp != NULL && p == ring[i + 1] && p in free && 0 < n <= free[p]
    requires prevp in mem && n <= mem[p].size && h == p + mem[p].size - n && h in mem
    requires mem' == Taken(mem, prevp, p, n)
    requires free' == Carve(free, p, n) && live' == live[h := n]
    ensures View(mem', prevp, ring', free', live', owned) in Sound() && h !in live
    ensures SameContents(Units(live), mem, mem')
  {
    SoundIs(View(mem, freep, ring, free, live, owned));
    ring' := TakeParts(mem, freep, ring, free, live, owned, i, prevp, p, n, h, mem');
    SoundIs(View(mem', prevp, ring', free', live', owned));
  }

  // ----- Growth -----

  function FreshUnit(u: int, at: int, n: nat): Header {
    Header(NULL, if u == at then n else 0)
  }

  /** The memory with n freshly granted units, the first of which is a header. */
  function Grown(mem: Memory, at: int, n: nat): Memory {
    mem + (map u | at <= u < at + n :: FreshUnit(u, at, n))
  }

  /** The memory a grant may give: above the base and not granted before. */
  ghost predicate Fresh(owned: iset<int>, at: int, n: nat) {
    BASE < at && owned !! Region(at, n)
  }

  lemma GrownIs(mem: Memory, at: int, n: nat, mem': Memory, owned: iset<int>)
    requires n > 0 && Fresh(owned, at, n) && mem' == Grown(mem, at, n)
    requires forall u :: u in owned ==> u in mem
    ensures mem'.Keys >= mem.Keys && at in mem' && mem'[at].size == n
    ensures SameContents(owned, mem, mem')
    ensures BASE in mem ==> mem'[BASE] == mem[BASE]
    ensures forall u :: u in Region(at, n) ==> u in mem'
  {
    forall u | u in owned ensures mem'[u] == mem[u] { assert u !in Region(at, n); }
  }

  lemma GrowAccounts(free: Blocks, live: Blocks, owned: iset<int>, at: int, n: nat, live': Blocks, owned': iset<int>)
    requires Accounts(free, live, owned) && n > 0 && Fresh(owned, at, n)
    requires live' == live[at := n] && owned' == owned + Region(at, n)
    ensures at !in live && Accounts(free, live', owned')
  {
    AddBlock(live, at, n);
  }

  lemma GrowKeeps(mem: Memory, freep: int, ring: seq<int>, free: Blocks, live: Blocks, owned: iset<int>,
                  at: int, n: nat, mem': Memory, live': Blocks, owned': iset<int>)
    requires Accounts(free, live, owned) && HeadersOk(mem, live, owned) && ListOk(mem, freep, ring, free)
    requires n > 0 && Fresh(owned, at, n)
    requires mem' == Grown(mem, at, n) && live' == live[at := n] && owned' == owned + Region(at, n)
    ensures at !in live && Accounts(free, live', owned') && HeadersOk(mem', live', owned')
    ensures ListOk(mem', freep, ring, free)
    ensures SameContents(owned, mem, mem')
  {
    GrowAccounts(free, live, owned, at, n, live', owned');
    GrownIs(mem, at, n, mem', owned);
    RingUnits(mem, freep, ring, free);
    GrowList(mem, ring, free, mem');
    LiveUntouched(mem, mem', live, owned);
    HeaderAdded(mem', live, owned, at, n);
  }

  lemma GrowList(mem: Memory, ring: seq<int>, free: Blocks, mem': Memory)
    requires Linked(mem, ring) && Holds(mem, ring, free)
    requires forall a :: a in ring ==> a in mem' && mem'[a] == mem[a]
    ensures Linked(mem', ring) && Holds(mem', ring, free)
  {
  }

  /** A block that is live only for a moment leaves the others as they were. */
  lemma PassingBlock(live: Blocks, at: int, n: nat, live1: Blocks, owned: iset<int>, mem: Memory, mem1: Memory,
                     mem2: Memory)
    requires at !in live && live1 == live[at := n]
    requires SameContents(owned, mem, mem1) && Units(live) <= owned
    requires SameContents(Units(live1 - {at}), mem1, mem2)
    ensures live1 - {at} == live && SameContents(Units(live), mem, mem2)
  {
    assert live1 - {at} == live;
  }

  lemma StartKeeps(mem: Memory, mem': Memory)
    requires mem' == mem[BASE := Header(BASE, 0)]
    ensures View(mem', BASE, [BASE], map[], map[], iset{}) in Sound()
    ensures SameContents(Units(map[]), mem, mem')
  {
    assert Units(map[]) == iset{};
  }

  lemma ContentsKept(mem: Memory, freep: int, ring: seq<int>, free: Blocks, live: Blocks, owned: iset<int>)
    requires View(mem, freep, ring, free, live, owned) in Sound()
    ensures SameContents(Units(live), mem, mem)
  {
  }

  ghost function IndexOf(ring: seq<int>, a: int): (i: nat)
    requires a in ring
    ensures i < |ring| && ring[i] == a
  {
    var i :| 0 <= i < |ring| && ring[i] == a; i
  }

  /** The heap after one grant. */
  ghost predicate GrewTo(owned: iset<int>, free: Blocks, at: int, n: nat, owned': iset<int>, free': Blocks) {
    owned' == owned + Region(at, n) && Units(free') == Units(free) + Region(at, n)
  }

  lemma MallocUnits(v: View, p: int, n: nat, h: int)
    requires v in Sound() && p in v.free && 0 < n <= v.free[p] && h == p + v.free[p] - n
    ensures BASE < h && Units(v.live) !! Region(h, n)
    ensures Units(Carve(v.free, p, n)) == Units(v.free) - Region(h, n)
  {
    SoundIs(v);
    TakeAccounts(v.free, v.live, v.owned, p, n, h);
  }

  lemma PutThenDrop(live: Blocks, h: int, n: nat)
    requires h !in live
    ensures live[h := n] - {h} == live
  {
  }

  lemma ContentsThrough(units: iset<int>, mem: Memory, mem1: Memory, mem2: Memory)
    requires SameContents(units, mem, mem1) && SameContents(units, mem1, mem2)
    ensures SameContents(units, mem, mem2)
  {
  }

  /** What is live and what is owned determine every free block, address and size. */
  lemma FreeDetermined(v: View, v': View)
    requires v in Sound() && v' in Sound() && v'.live == v.live && v.owned <= v'.owned
    ensures Units(v'.free) == Units(v.free) + (v'.owned - v.owned)
    ensures v'.owned == v.owned ==> v'.free == v.free
  {
    OwnedSplit(v);
    OwnedSplit(v');
    if v'.owned == v.owned {
      Canonical(v.free, v'.free);
    }
  }

  /** Free memory is what is owned and not live. */
  lemma OwnedSplit(v: View)
    requires v in Sound()
    ensures Apart(v.free) && Units(v.free) == v.owned - Units(v.live) && Units(v.live) <= v.owned
  {
    SoundIs(v);
  }

  lemma PayloadKeeps(mem: Memory, freep: int, ring: seq<int>, free: Blocks, live: Blocks, owned: iset<int>,
                     h: int, u: int, value: Header, mem': Memory)
    requires View(mem, freep, ring, free, live, owned) in Sound() && h in live && h < u < h + live[h]
    requires mem' == mem[u := value]
    ensures View(mem', freep, ring, free, live, owned) in Sound()
  {
    SoundIs(View(mem, freep, ring, free, live, owned));
    assert freep != NULL;
    BlockInUnits(live, h, u);
    RingUnits(mem, freep, ring, free);
    AboveBase(live);
    GrowList(mem, ring, free, mem');
    assert u !in live;
    SoundIs(View(mem', freep, ring, free, live, owned));
  }

  lemma GrewBy(v: View, v': View, at: int, n: nat)
    requires v in Sound() && v' in Sound() && v'.live == v.live
    requires v'.owned == v.owned + Region(at, n) && Fresh(v.owned, at, n)
    ensures GrewTo(v.owned, v.free, at, n, v'.owned, v'.free)
  {
    OwnedSplit(v);
    OwnedSplit(v');
  }

  /** When nothing had room before a grant, the block that has is the one the grant is in. */
  lemma FitsInGrant(free: Blocks, at: int, m: nat, fitted: Blocks, p: int, n: nat)
    requires Apart(free) && Apart(fitted) && NothingFits(free, n) && 0 < n && 0 < m
    requires Units(fitted) == Units(free) + Region(at, m) && p in fitted && n <= fitted[p]
    ensures AroundGrant(fitted, p, at, m)
  {
    assert Region(at, m) <= Units(fitted);
    var b := StretchInOne(fitted, at, m);
    if b != p {
      forall u | u in Region(p, fitted[p]) ensures u in Units(free) {
        BlockInUnits(fitted, p, u);
      }
      var a := StretchInOne(free, p, fitted[p]);
    }
  }

  /** The block lies around the whole grant. */
  ghost predicate AroundGrant(fitted: Blocks, p: int, at: int, m: nat) {
    p in fitted && p <= at && at + m <= p + fitted[p]
  }

  /** What an allocation takes from the free units, with or without a grant before. */
  lemma UnitsServed(owned: iset<int>, free: Blocks, grew: bool, at: int, m: nat, owned': iset<int>, fitted: Blocks,
                    taken: iset<int>, left: Blocks)
    requires if grew then GrewTo(owned, free, at, m, owned', fitted) && Fresh(owned, at, m)
             else owned' == owned && fitted == free
    requires Units(left) == Units(fitted) - taken
    ensures Units(left) == Units(free) + (owned' - owned) - taken
  {
  }

  /** A heap that owns nothing has no blocks. */
  lemma NothingOwned(v: View)
    requires v in Sound() && v.owned == iset{}
    ensures v.free == map[] && v.live == map[]
  {
    SoundIs(v);
    forall a | a in v.free ensures false { BlockInUnits(v.free, a, a); }
    forall a | a in v.live ensures false { BlockInUnits(v.live, a, a); }
    assert v.free.Keys == {} && v.live.Keys == {};
  }

  /** All there is after the first grant is one block. */
  lemma OneBlock(fitted: Blocks, at: int, m: nat)
    requires Apart(fitted) && Units(fitted) == Region(at, m) && 0 < m && BASE < at
    ensures fitted == map[at := m]
  {
    var one: Blocks := map[at := m];
    forall u ensures u in Units(one) <==> u in Region(at, m) {
      if u in Region(at, m) { BlockInUnits(one, at, u); }
    }
    Canonical(fitted, one);
  }

  lemma FirstTail(fitted: Blocks, at: int, m: nat, p: int, n: nat, h: int, left: Blocks)
    requires Apart(fitted) && Units(fitted) == Region(at, m) && 0 < m && BASE < at && IsTail(fitted, p, n, h, left)
    ensures h == at + m - n && left == if m == n then map[] else map[at := m - n]
  {
    OneBlock(fitted, at, m);
    assert p == at;
    assert map[at := m] - {at} == map[];
    assert map[at := m][at := m - n] == map[at := m - n];
  }

  /** What is free of a grant of m units at `at` when its last n units are taken. */
  function AllButTail(at: int, m: nat, n: nat): Blocks
    requires n <= m
  {
    if m == n then map[] else map[at := m - n]
  }

  lemma FirstGrant(free: Blocks, at: int, owned: iset<int>, fitted: Blocks, p: int, nunits: nat, h: int, left: Blocks)
      returns (n: nat)
    requires exists k :: LeastGrowth(k, nunits) && GrewTo(iset{}, free, at, k, owned, fitted)
    requires free == map[] && BASE < at && IsTail(fitted, p, nunits, h, left)
    ensures LeastGrowth(n, nunits) && h == at + n - nunits && left == AllButTail(at, n, nunits)
  {
    n :| LeastGrowth(n, nunits) && GrewTo(iset{}, free, at, n, owned, fitted);
    assert Units(fitted) == Region(at, n);
    FirstTail(fitted, at, n, p, nunits, h, left);
  }
}
