/** The hash map: chains of entries that double in number as they fill. */
module HashMap {
  import opened Arithmetic
  import opened HashChains

  const MIN_CAP_BITS: nat := 2
  /** A table of more pointers than this many bits number does not fit the address space. */
  const MAX_CAP_BITS: nat := 60

  datatype Strategy = ADD | SET | UPDATE

  datatype Err = OK | EEXIST | ENOENT | ENOMEM

  class Hashmap {
    const ops: Ops
    ghost const cls: Key -> int
    var buckets: Table
    var cap: nat
    var capBits: nat
    var sz: nat
    /** The map that the chains stand for, by class of equal keys. */
    ghost var m: map<int, Entry>

    ghost predicate Valid()
      reads this
    {
      && Lawful(ops, cls) && capBits <= MAX_CAP_BITS
      && cap == |buckets| && (if cap == 0 then capBits == 0 else cap == Pow2(capBits) && MIN_CAP_BITS <= capBits)
      && sz * 4 / 3 <= cap
      && Represents(ops, cls, buckets, capBits, m)
      && sz == |m|
    }

    constructor (ops: Ops, ghost cls: Key -> int)
      requires Lawful(ops, cls)
      ensures Valid() && this.ops == ops && this.cls == cls && m == map[]
    {
      this.ops := ops;
      this.cls := cls;
      buckets, cap, capBits, sz := [], 0, 0, 0;
      m := map[];
    }

    method Clear()
      requires Valid()
      modifies this
      ensures Valid() && m == map[]
    {
      buckets, cap, capBits, sz := [], 0, 0, 0;
      m := map[];
    }

    /** The position of the entry for a key in its chain, if the map has one. */
    method FindEntry(key: Key, hash: nat) returns (found: bool, i: nat)
      requires Valid() && hash == Slot(ops, key, capBits)
      ensures found <==> cls(key) in m
      ensures found ==> hash < |buckets| && i < |buckets[hash]| && buckets[hash][i] == m[cls(key)]
    {
      i := 0;
      if cap == 0 {
        assert cls(key) in m ==> Stored(ops, cls, buckets, capBits, m, cls(key));
        return false, 0;
      }
      HashBitsInRange(ops.hash(key), capBits);
      FoundIff(ops, cls, buckets, capBits, m, key, hash);
      while i < |buckets[hash]|
        invariant i <= |buckets[hash]|
        invariant forall j :: 0 <= j < i ==> !ops.equal(buckets[hash][j].key, key)
      {
        if ops.equal(buckets[hash][i].key, key) {
          return true, i;
        }
        i := i + 1;
      }
      return false, 0;
    }

    method Find(key: Key) returns (found: bool, value: Value)
      requires Valid()
      ensures found <==> cls(key) in m
      ensures found ==> value == m[cls(key)].value
    {
      var h := HashBits(ops.hash(key), capBits);
      var i;
      found, i := FindEntry(key, h);
      value := if found then buckets[h][i].value else 0;
    }

    /** Every entry moved to the chain it has in a table of another size. */
    method Rehash(newBits: nat) returns (nb: Table)
      requires Valid() && newBits <= MAX_CAP_BITS
      ensures |nb| == Pow2(newBits) && Represents(ops, cls, nb, newBits, m)
    {
      nb := seq(Pow2(newBits), _ => []);
      EmptyRepresents(ops, cls, |nb|, newBits, nb);
      ghost var moved: map<int, Entry> := map[];
      var bkt := 0;
      while bkt < cap
        invariant bkt <= cap && |nb| == Pow2(newBits)
        invariant Represents(ops, cls, nb, newBits, moved) && Moved(cls, buckets, m, moved, bkt, 0)
      {
        var i := 0;
        while i < |buckets[bkt]|
          invariant i <= |buckets[bkt]| && |nb| == Pow2(newBits)
          invariant Represents(ops, cls, nb, newBits, moved) && Moved(cls, buckets, m, moved, bkt, i)
        {
          var e := buckets[bkt][i];
          var h := HashBits(ops.hash(e.key), newBits);
          HashBitsInRange(ops.hash(e.key), newBits);
          MoveOne(ops, cls, buckets, capBits, m, moved, bkt, i);
          AddedRepresents(ops, cls, nb, newBits, moved, h, e, Added(nb, h, e), moved[cls(e.key) := e]);
          nb, moved := nb[h := [e] + nb[h]], moved[cls(e.key) := e];
          i := i + 1;
        }
        NextChain(cls, buckets, m, moved, bkt);
        bkt := bkt + 1;
      }
      AllMoved(ops, cls, buckets, capBits, m, moved);
    }

    /** Doubles the table, or starts it with four chains; the map stays as it is, whether or
        not there is memory. */
    method Grow(memory: bool) returns (err: Err)
      requires Valid()
      modifies this
      ensures Valid() && m == old(m)
      ensures err == if memory && old(capBits) < MAX_CAP_BITS then OK else ENOMEM
      ensures err == OK ==> cap == if old(cap) == 0 then 4 else 2 * old(cap)
      ensures err != OK ==> buckets == old(buckets) && cap == old(cap)
    {
      var newBits := capBits + 1;
      if newBits < MIN_CAP_BITS {
        newBits := MIN_CAP_BITS;
      }
      if !memory || newBits > MAX_CAP_BITS {
        return ENOMEM;
      }
      var nb := Rehash(newBits);
      cap, capBits, buckets := |nb|, newBits, nb;
      return OK;
    }

    /** Grow when empty or more than three quarters full. */
    predicate NeedsToGrow()
      reads this
    {
      cap == 0 || (sz + 1) * 4 / 3 > cap
    }

    /** Inserts by strategy. `tableMemory` and `entryMemory` say whether the two allocations
        succeed. Whatever fails, the map is as before. The table grows before a new entry
        would take up more than three quarters of it. */
    method Insert(key: Key, value: Value, strategy: Strategy, tableMemory: bool, entryMemory: bool)
        returns (err: Err, oldKey: Key, oldValue: Value)
      requires Valid()
      modifies this
      ensures Valid()
      ensures err == EEXIST <==> cls(key) in old(m) && strategy == ADD
      ensures err == ENOENT <==> cls(key) !in old(m) && strategy == UPDATE
      ensures err == ENOMEM <==>
                && cls(key) !in old(m) && strategy != UPDATE
                && (!entryMemory
                    || ((old(cap) == 0 || (old(sz) + 1) * 4 / 3 > old(cap))
                        && (!tableMemory || old(capBits) == MAX_CAP_BITS)))
      ensures cap == if cls(key) in old(m) || strategy == UPDATE || !tableMemory || old(capBits) == MAX_CAP_BITS
                        || (old(cap) > 0 && (old(sz) + 1) * 4 / 3 <= old(cap))
                     then old(cap)
                     else if old(cap) == 0 then 4 else 2 * old(cap)
      ensures m == if err == OK then old(m)[cls(key) := Entry(key, value)] else old(m)
      ensures if cls(key) in old(m) then Entry(oldKey, oldValue) == old(m)[cls(key)] else oldKey == 0 == oldValue
    {
      oldKey, oldValue := 0, 0;
      var h := HashBits(ops.hash(key), capBits);
      var found, i := FindEntry(key, h);
      if found {
        oldKey, oldValue := buckets[h][i].key, buckets[h][i].value;
        if strategy == SET || strategy == UPDATE {
          Overwrite(key, value, h, i);
          return OK, oldKey, oldValue;
        } else if strategy == ADD {
          return EEXIST, oldKey, oldValue;
        }
      }
      if strategy == UPDATE {
        return ENOENT, oldKey, oldValue;
      }
      if NeedsToGrow() {
        err := Grow(tableMemory);
        if err != OK {
          return;
        }
        h := HashBits(ops.hash(key), capBits);
      }
      if !entryMemory {
        return ENOMEM, oldKey, oldValue;
      }
      AddEntry(key, value, h);
      return OK, oldKey, oldValue;
    }

    method Overwrite(key: Key, value: Value, h: nat, i: nat)
      requires Valid() && h < |buckets| && i < |buckets[h]| && cls(buckets[h][i].key) == cls(key)
      modifies this
      ensures Valid() && cap == old(cap) && m == old(m)[cls(key) := Entry(key, value)]
    {
      ghost var before, m' := buckets, m[cls(key) := Entry(key, value)];
      assert InTable(buckets, h, i) && EntryOk(ops, cls, buckets, capBits, m, h, i);
      buckets := buckets[h := buckets[h][i := Entry(key, value)]];
      OverwrittenRepresents(ops, cls, before, capBits, m, h, i, Entry(key, value), buckets, m');
      m := m';
    }

    method AddEntry(key: Key, value: Value, h: nat)
      requires Valid() && cap > 0 && h == Slot(ops, key, capBits) && cls(key) !in m && (sz + 1) * 4 / 3 <= cap
      modifies this
      ensures Valid() && cap == old(cap) && m == old(m)[cls(key) := Entry(key, value)]
    {
      HashBitsInRange(ops.hash(key), capBits);
      ghost var before, m' := buckets, m[cls(key) := Entry(key, value)];
      buckets := buckets[h := [Entry(key, value)] + buckets[h]];
      AddedRepresents(ops, cls, before, capBits, m, h, Entry(key, value), buckets, m');
      m, sz := m', sz + 1;
    }

    method Delete(key: Key) returns (found: bool, oldKey: Key, oldValue: Value)
      requires Valid()
      modifies this
      ensures Valid() && m == old(m) - {cls(key)}
      ensures found <==> cls(key) in old(m)
      ensures found ==> Entry(oldKey, oldValue) == old(m)[cls(key)]
    {
      var h := HashBits(ops.hash(key), capBits);
      var i;
      oldKey, oldValue := 0, 0;
      found, i := FindEntry(key, h);
      if !found {
        assert m == m - {cls(key)};
        return;
      }
      oldKey, oldValue := buckets[h][i].key, buckets[h][i].value;
      ghost var before, m' := buckets, m - {cls(key)};
      assert Stored(ops, cls, buckets, capBits, m, cls(key));
      buckets := buckets[h := buckets[h][..i] + buckets[h][i + 1..]];
      RemovedRepresents(ops, cls, before, capBits, m, h, i, buckets, m');
      assert m.Keys == m'.Keys + {cls(key)};
      m, sz := m', sz - 1;
    }
  }
}
