/** my_malloc, my_morecore and my_free over one heap. */
module Allocator {
  import opened FreeBlocks
  import opened FreeList
  import opened FreeHeap

  class Heap {
    /** Memory by unit: a header where a block starts, anything elsewhere. */
    var mem: Memory
    var freep: int
    ghost var ring: seq<int>
    ghost var free: Blocks
    ghost var live: Blocks
    /** Every unit the system has granted. */
    ghost var owned: iset<int>

    ghost predicate Valid()
      reads this
    {
      View(mem, freep, ring, free, live, owned) in Sound()
    }

    constructor ()
      ensures Valid() && freep == NULL && live == map[] && owned == iset{}
    {
      mem := map[BASE := Header(NULL, 0)];
      freep := NULL;
      ring, free, live, owned := [], map[], map[], iset{};
    }

    /** The search of my_free: the element of the cycle behind which `bp` belongs. */
    method FindPlace(bp: int) returns (p: int, ghost t: nat)
      requires freep != NULL && ListOk(mem, freep, ring, free) && BASE < bp && bp !in ring
      ensures Precedes(ring, t, bp) && p == ring[t]
      ensures p in ring && p < bp && forall a :: a in ring ==> a <= p || bp < a
    {
      t := FindPosition(ring, bp, |ring|);
      p := freep;
      ghost var j: nat :| j < |ring| && ring[j] == p;
      assert mem[ring[j]].next == After(ring, j);
      while !(bp > p && bp < mem[p].next)
        invariant j < |ring| && p == ring[j] && mem[p].next == After(ring, j)
        decreases if j <= t then t - j else t - j + |ring|
      {
        TestIsPosition(ring, t, j, bp);
        if p >= mem[p].next && (bp > p || bp < mem[p].next) {
          break;
        }
        p := mem[p].next;
        j := if j + 1 < |ring| then j + 1 else 0;
        assert mem[ring[j]].next == After(ring, j);
      }
      TestIsPosition(ring, t, j, bp);
      PrecedesAll(ring, t, bp);
    }

    /** Links the block in behind `p` and joins it to the blocks it touches. */
    method LinkIn(p: int, bp: int)
      requires p in mem && bp in mem && mem[p].next in mem
      modifies this`mem, this`freep
      ensures freep == p && mem == Relink(old(mem), p, bp)
    {
      if bp + mem[bp].size == mem[p].next {
        mem := mem[bp := mem[bp].(size := mem[bp].size + mem[mem[p].next].size)];
        mem := mem[bp := mem[bp].(next := mem[mem[p].next].next)];
      } else {
        mem := mem[bp := mem[bp].(next := mem[p].next)];
      }
      if p + mem[p].size == bp {
        mem := mem[p := mem[p].(size := mem[p].size + mem[bp].size)];
        mem := mem[p := mem[p].(next := mem[bp].next)];
      } else {
        mem := mem[p := mem[p].(next := bp)];
      }
      freep := p;
    }

    /** my_free: the block's units become free, and nothing live changes. */
    method MyFree(ap: int, ghost h: int)
      requires Valid() && ap == h + 1 && h in live
      modifies this
      ensures Valid() && freep != NULL
      ensures live == old(live) - {h} && owned == old(owned)
      ensures Units(free) == old(Units(free)) + Region(h, old(live)[h])
      ensures exists a :: a in free && free[a] >= old(live)[h]
      ensures freep < h && (freep == BASE || freep in old(free)) && forall a :: a in old(free) ==> a <= freep || h < a
      ensures SameContents(Units(live), old(mem), mem)
    {
      var bp := ap - 1;
      assert bp == h;
      LiveOffRing(mem, freep, ring, free, live, owned, bp);
      ghost var t: nat;
      var p;
      p, t := FindPlace(bp);
      assert mem[ring[t]].next == After(ring, t);
      LinkIn(p, bp);
      ring, free := FreeKeeps(old(mem), old(freep), ring, free, live, owned, t, bp, mem);
      live := live - {bp};
    }

    /** my_morecore: asks for at least NALLOC units and gives them back as a free block. */
    method MyMorecore(nu: nat, grant: Grant) returns (r: int)
      requires Valid() && freep != NULL && nu > 0
      requires grant.Granted? ==> Fresh(owned, grant.at, GrowthFor(nu))
      modifies this
      ensures Valid() && freep != NULL && live == old(live)
      ensures r == if grant.Granted? then freep else NULL
      ensures grant.Refused? ==> mem == old(mem) && freep == old(freep) && free == old(free) && owned == old(owned)
      ensures grant.Granted? ==> exists n ::
                LeastGrowth(n, nu) && GrewTo(old(owned), old(free), grant.at, n, owned, free)
      ensures grant.Granted? ==> !NothingFits(free, nu)
      ensures SameContents(Units(live), old(mem), mem)
    {
      var n := if nu < NALLOC then NALLOC else nu;
      if grant.Refused? {
        return NULL;
      }
      var up := grant.at;
      mem := Grown(mem, up, n);
      live, owned := live[up := n], owned + Region(up, n);
      GrowKeeps(old(mem), freep, ring, free, old(live), old(owned), up, n, mem, live, owned);
      ghost var mem1, live1 := mem, live;
      MyFree(up + 1, up);
      PassingBlock(old(live), up, n, live1, old(owned), old(mem), mem1, mem);
      return freep;
    }

    /** Unlinks the block behind `prevp` if it has the size, else cuts off its tail. */
    method CutOut(prevp: int, p0: int, nunits: nat) returns (p: int)
      requires prevp in mem && p0 in mem && nunits <= mem[p0].size && p0 + mem[p0].size - nunits in mem
      modifies this`mem, this`freep
      ensures freep == prevp && mem == Taken(old(mem), prevp, p0, nunits)
      ensures p == p0 + old(mem)[p0].size - nunits
    {
      p := p0;
      if mem[p].size == nunits {
        mem := mem[prevp := mem[prevp].(next := mem[p].next)];
      } else {
        mem := mem[p := mem[p].(size := mem[p].size - nunits)];
        p := p + mem[p].size;
        mem := mem[p := mem[p].(size := nunits)];
      }
      freep := prevp;
    }

    /** Takes n units from the block behind `prevp`: the whole block, or its tail. */
    method TakeBlock(prevp: int, p0: int, nunits: nat, ghost i: nat) returns (p: int)
      requires Valid() && freep != NULL && i + 1 < |ring| && prevp == ring[i] && p0 == ring[i + 1]
      requires p0 in mem && 0 < nunits <= mem[p0].size
      modifies this
      ensures Valid() && freep == prevp && owned == old(owned)
      ensures p0 in old(free) && nunits <= old(free)[p0] && p == p0 + old(free)[p0] - nunits
      ensures free == Carve(old(free), p0, nunits)
      ensures p !in old(live) && live == old(live)[p := nunits]
      ensures SameContents(Units(old(live)), old(mem), mem)
    {
      BlockAt(mem, freep, ring, free, live, owned, i, prevp, p0, nunits);
      p := CutOut(prevp, p0, nunits);
      free, live := Carve(free, p0, nunits), live[p := nunits];
      ring := TakeKeeps(old(mem), old(freep), ring, old(free), old(live), owned, i, prevp, p0, nunits, p, mem, free,
                        live);
    }

    /** First use: the base alone is the cycle. */
    method Start()
      requires Valid()
      modifies this
      ensures Valid() && freep != NULL
      ensures old(freep) == NULL ==> free == map[]
      ensures old(freep) != NULL ==> mem == old(mem) && freep == old(freep)
      ensures free == old(free) && live == old(live) && owned == old(owned)
      ensures SameContents(Units(live), old(mem), mem)
    {
      if freep == NULL {
        mem := mem[BASE := Header(BASE, 0)];
        freep := BASE;
        ring := [BASE];
        StartKeeps(old(mem), mem);
      } else {
        ContentsKept(mem, freep, ring, free, live, owned);
      }
    }

    /** The walk along one lap, up to the first block with room. */
    method WalkLap(nunits: nat, ghost lap: seq<int>) returns (found: bool, prevp: int, p: int, ghost k: nat)
      requires IsLap(mem, freep, lap)
      ensures found ==> FirstOnLap(mem, lap, k, nunits) && p == lap[k] && prevp == if k == 0 then freep else lap[k - 1]
      ensures !found ==> TooSmall(mem, lap, |lap|, nunits)
    {
      k := 0;
      prevp := freep;
      assert mem[lap[|lap| - 1]].next == After(lap, |lap| - 1);
      p := mem[prevp].next;
      while true
        invariant k < |lap| && p == lap[k] && prevp == if k == 0 then freep else lap[k - 1]
        invariant TooSmall(mem, lap, k, nunits)
        decreases |lap| - k
      {
        if mem[p].size >= nunits {
          return true, prevp, p, k;
        }
        TooSmallMore(mem, lap, k, nunits);
        if p == freep {
          return false, prevp, p, k;
        }
        assert mem[lap[k]].next == After(lap, k);
        prevp, p, k := p, mem[p].next, k + 1;
      }
    }

    /** One lap of the walk of my_malloc: the first block behind `freep` that has room, and
        the element before it. */
    method Walk(nunits: nat) returns (found: bool, prevp: int, p: int, ghost i: nat)
      requires ListOk(mem, freep, ring, free) && nunits > 0
      ensures found ==> i + 1 < |ring| && prevp == ring[i] && p == ring[i + 1] && p in mem && mem[p].size >= nunits
      ensures found ==> FirstFit(mem, freep, nunits, p, prevp)
      ensures !found <==> NothingFits(free, nunits)
    {
      ghost var f, lap := IndexOf(ring, freep), LapFrom(ring, freep);
      LapIsLap(mem, ring, f, lap);
      i := 0;
      ghost var k;
      found, prevp, p, k := WalkLap(nunits, lap);
      if found {
        assert FitsAt(mem, freep, lap, k, nunits, p, prevp);
        i := LapStep(mem, ring, f, lap, k);
        LapFits(mem, ring, free, i + 1, nunits);
      } else {
        LapSeesAll(mem, ring, free, f, lap, nunits);
      }
    }

    /** One lap of my_malloc: the first block behind `freep` that has room is cut, if any
        has. */
    method TakeFirst(nunits: nat) returns (found: bool, h: int, ghost p: int)
      requires Valid() && freep != NULL && nunits > 0
      modifies this
      ensures Valid() && freep != NULL && owned == old(owned)
      ensures !found <==> NothingFits(old(free), nunits)
      ensures !found ==> mem == old(mem) && freep == old(freep) && free == old(free) && live == old(live)
      ensures found ==> BASE < h && h !in old(live) && live == old(live)[h := nunits]
      ensures found ==> Units(old(live)) !! Region(h, nunits) && Units(free) == old(Units(free)) - Region(h, nunits)
      ensures found ==> IsTail(old(free), p, nunits, h, free) && FirstFit(old(mem), old(freep), nunits, p, freep)
      ensures SameContents(Units(old(live)), old(mem), mem)
    {
      ghost var v := View(mem, freep, ring, free, live, owned);
      SoundIs(v);
      var prevp, p0;
      ghost var i;
      found, prevp, p0, i := Walk(nunits);
      h, p := NULL, p0;
      if found {
        h := TakeBlock(prevp, p0, nunits, i);
        MallocUnits(v, p0, nunits, h);
      } else {
        ContentsKept(mem, freep, ring, free, live, owned);
      }
    }

    /** my_malloc: a block for `nbytes` from the first free block behind `freep` that has
        room, growing the heap once if none has. `fitted` are the free blocks when the block
        was found, and `p` is the one it is the tail of. */
    method MyMalloc(nbytes: nat, grant: Grant)
        returns (r: int, ghost h: int, ghost grew: bool, ghost fitted: Blocks, ghost p: int)
      requires Valid()
      requires grant.Granted? ==> Fresh(owned, grant.at, GrowthFor(UnitsFor(nbytes)))
      modifies this
      ensures Valid()
      ensures r == NULL <==> NothingFits(old(free), UnitsFor(nbytes)) && grant.Refused?
      ensures grew <==> NothingFits(old(free), UnitsFor(nbytes)) && grant.Granted?
      ensures !grew ==> owned == old(owned) && fitted == old(free)
      ensures grew ==> exists n ::
                && LeastGrowth(n, UnitsFor(nbytes)) && GrewTo(old(owned), old(free), grant.at, n, owned, fitted)
                && AroundGrant(fitted, p, grant.at, n)
      ensures r == NULL ==> live == old(live) && free == old(free)
      ensures r != NULL ==> r == h + 1 && BASE < h && h !in old(live) && live == old(live)[h := UnitsFor(nbytes)]
      ensures r != NULL ==> old(Units(live)) !! Region(h, UnitsFor(nbytes))
      ensures r != NULL ==> Units(free) == old(Units(free)) + (owned - old(owned)) - Region(h, UnitsFor(nbytes))
      ensures r != NULL ==> IsTail(fitted, p, UnitsFor(nbytes), h, free)
      ensures r != NULL && !grew ==> FirstFit(old(mem), old(freep), UnitsFor(nbytes), p, freep)
      ensures SameContents(Units(old(live)), old(mem), mem)
    {
      var nunits := (nbytes + HEADER - 1) / HEADER + 1;
      Start();
      grew, h := false, NULL;
      ghost var n := GrowthFor(nunits);
      while true
        invariant Valid() && freep != NULL && live == old(live) && SameContents(Units(live), old(mem), mem)
        invariant if grew then NothingFits(old(free), nunits) && grant.Granted? && !NothingFits(free, nunits)
                               && GrewTo(old(owned), old(free), grant.at, n, owned, free)
                  else owned == old(owned) && free == old(free)
        invariant !grew ==> if old(freep) == NULL then free == map[] else mem == old(mem) && freep == old(freep)
        decreases !grew
      {
        ghost var before := View(mem, freep, ring, free, live, owned);
        fitted := free;
        var found, h1;
        found, h1, p := TakeFirst(nunits);
        if found {
          ContentsThrough(Units(before.live), old(mem), before.mem, mem);
          if grew { FitsInGrant(old(free), grant.at, n, fitted, p, nunits); }
          UnitsServed(old(owned), old(free), grew, if grew then grant.at else 0, n, owned, fitted, Region(h1, nunits),
                      free);
          return h1 + 1, h1, grew, fitted, p;
        }
        var up := MyMorecore(nunits, grant);
        if up == NULL {
          return NULL, NULL, false, fitted, p;
        }
        grew := true;
      }
    }

    /** The first allocation of all leaves everything of the grant free but the tail. */
    method FirstMalloc(nbytes: nat, at: int) returns (r: int, ghost h: int, ghost n: nat)
      requires Valid() && owned == iset{} && Fresh(owned, at, GrowthFor(UnitsFor(nbytes)))
      modifies this
      ensures Valid() && LeastGrowth(n, UnitsFor(nbytes)) && r == h + 1 && h == at + n - UnitsFor(nbytes)
      ensures live == map[h := UnitsFor(nbytes)]
      ensures free == AllButTail(at, n, UnitsFor(nbytes))
    {
      NothingOwned(View(mem, freep, ring, free, live, owned));
      ghost var before := free;
      ghost var grew, fitted, p;
      r, h, grew, fitted, p := MyMalloc(nbytes, Granted(at));
      n := FirstGrant(before, at, owned, fitted, p, UnitsFor(nbytes), h, free);
    }

    /** Freeing a block just allocated: without growth, every free block is as it was. */
    method MallocThenFree(nbytes: nat, grant: Grant) returns (r: int, ghost grew: bool)
      requires Valid()
      requires grant.Granted? ==> Fresh(owned, grant.at, GrowthFor(UnitsFor(nbytes)))
      modifies this
      ensures Valid() && live == old(live)
      ensures grew <==> NothingFits(old(free), UnitsFor(nbytes)) && grant.Granted?
      ensures !grew ==> free == old(free) && owned == old(owned)
      ensures grew ==> exists n ::
                LeastGrowth(n, UnitsFor(nbytes)) && GrewTo(old(owned), old(free), grant.at, n, owned, free)
      ensures SameContents(Units(live), old(mem), mem)
    {
      ghost var h, fitted, p;
      ghost var before := View(mem, freep, ring, free, live, owned);
      r, h, grew, fitted, p := MyMalloc(nbytes, grant);
      if r != NULL {
        ghost var mem1 := mem;
        MyFree(r, h);
        PutThenDrop(before.live, h, UnitsFor(nbytes));
        ContentsThrough(Units(live), before.mem, mem1, mem);
        FreeDetermined(before, View(mem, freep, ring, free, live, owned));
        if grew {
          ghost var n :| LeastGrowth(n, UnitsFor(nbytes))
                         && GrewTo(before.owned, before.free, grant.at, n, owned, fitted);
          GrewBy(before, View(mem, freep, ring, free, live, owned), grant.at, n);
        }
      }
    }

    /** The owner of a block may write anything anywhere behind its header. */
    method WritePayload(h: int, u: int, value: Header)
      requires Valid() && h in live && h < u < h + live[h]
      modifies this`mem
      ensures Valid() && mem == old(mem)[u := value]
    {
      mem := mem[u := value];
      PayloadKeeps(old(mem), freep, ring, free, live, owned, h, u, value, mem);
    }
  }
}
