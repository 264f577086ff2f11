/** Hash chains as a representation of a finite map. */
module HashChains {
  import opened Arithmetic

  type Key = int
  type Value = int

  datatype Entry = Entry(key: Key, value: Value)

  /** The caller's hash and comparison. */
  datatype Ops = Ops(hash: Key -> nat, equal: (Key, Key) -> bool)

  /** The comparison is an equivalence: two keys are equal when they have the same class,
      and then they have the same hash. */
  ghost predicate Lawful(ops: Ops, cls: Key -> int) {
    && (forall a, b :: ops.equal(a, b) <==> cls(a) == cls(b))
    && (forall a, b {:trigger cls(a), cls(b)} :: cls(a) == cls(b) ==> ops.hash(a) == ops.hash(b))
  }

  // ----- hash_bits -----

  const MULTIPLIER: nat := 11400714819323198485

  function Shuffled(h: nat): (x: nat)
    ensures x < TWO64
  {
    h * MULTIPLIER % TWO64
  }

  /** The upper bits of the 64-bit product. */
  function HashBits(h: nat, bits: nat): nat
    requires bits <= 64
  {
    if bits == 0 then 0 else Quotient(Shuffled(h), Pow2(64 - bits))
  }

  /** They are the product's upper bits: as a number, the product without its lower ones. */
  lemma HashBitsAre(h: nat, bits: nat)
    requires bits <= 64
    ensures bits == 0 ==> HashBits(h, bits) == 0
    ensures bits > 0 ==> HashBits(h, bits) == h * 11400714819323198485 % 0x1_0000_0000_0000_0000 / Pow2(64 - bits)
  {
    if bits > 0 { QuotientIs(Shuffled(h), Pow2(64 - bits)); }
  }

  lemma TwoParts(a: nat, b: nat)
    requires a + b == 64
    ensures Pow2(a) * Pow2(b) == TWO64
  {
    Pow2Sum(a, b);
    Pow2Of64();
  }

  /** A slot is always inside the table. */
  lemma HashBitsInRange(h: nat, bits: nat)
    requires bits <= 64
    ensures HashBits(h, bits) < Pow2(bits)
  {
    if bits > 0 {
      TwoParts(bits, 64 - bits);
      QuotientBelow(Shuffled(h), Pow2(64 - bits), Pow2(bits));
    }
  }

  function Slot(ops: Ops, key: Key, bits: nat): nat
    requires bits <= 64
  {
    HashBits(ops.hash(key), bits)
  }

  // ----- Representation -----

  type Table = seq<seq<Entry>>

  ghost predicate InTable(t: Table, b: nat, i: nat) {
    b < |t| && i < |t[b]|
  }

  /** Entry i of chain b is in its slot, and it is what the map has for its key. */
  ghost predicate EntryOk(ops: Ops, cls: Key -> int, t: Table, bits: nat, m: map<int, Entry>, b: nat, i: nat)
    requires bits <= 64 && InTable(t, b, i)
  {
    var e := t[b][i];
    Slot(ops, e.key, bits) == b && cls(e.key) in m && m[cls(e.key)] == e
  }

  /** What the map has for class c stands in the table. */
  ghost predicate Stored(ops: Ops, cls: Key -> int, t: Table, bits: nat, m: map<int, Entry>, c: int)
    requires bits <= 64 && c in m
  {
    && cls(m[c].key) == c
    && Slot(ops, m[c].key, bits) < |t|
    && m[c] in t[Slot(ops, m[c].key, bits)]
  }

  ghost predicate NoDuplicates(cls: Key -> int, chain: seq<Entry>) {
    forall i, j :: 0 <= i < j < |chain| ==> cls(chain[i].key) != cls(chain[j].key)
  }

  /** The chains hold exactly the map. */
  ghost predicate Represents(ops: Ops, cls: Key -> int, t: Table, bits: nat, m: map<int, Entry>)
    requires bits <= 64
  {
    && (forall b, i :: InTable(t, b, i) ==> EntryOk(ops, cls, t, bits, m, b, i))
    && (forall c :: c in m ==> Stored(ops, cls, t, bits, m, c))
    && (forall b :: 0 <= b < |t| ==> NoDuplicates(cls, t[b]))
  }

  lemma EmptyRepresents(ops: Ops, cls: Key -> int, n: nat, bits: nat, t: Table)
    requires bits <= 64 && |t| == n && forall b :: 0 <= b < n ==> t[b] == []
    ensures Represents(ops, cls, t, bits, map[])
  {
  }

  /** A key is in the map exactly if its own chain holds an equal one. */
  lemma FoundIff(ops: Ops, cls: Key -> int, t: Table, bits: nat, m: map<int, Entry>, key: Key, h: nat)
    requires bits <= 64 && Lawful(ops, cls) && Represents(ops, cls, t, bits, m) && h == Slot(ops, key, bits) && h < |t|
    ensures cls(key) in m <==> exists i :: 0 <= i < |t[h]| && ops.equal(t[h][i].key, key)
    ensures forall i :: 0 <= i < |t[h]| && ops.equal(t[h][i].key, key) ==> cls(key) in m && m[cls(key)] == t[h][i]
  {
    var c := cls(key);
    if c in m {
      assert Stored(ops, cls, t, bits, m, c);
      assert ops.hash(m[c].key) == ops.hash(key);
      var i :| 0 <= i < |t[h]| && t[h][i] == m[c];
      assert ops.equal(t[h][i].key, key);
    }
    forall i | 0 <= i < |t[h]| && ops.equal(t[h][i].key, key) ensures c in m && m[c] == t[h][i] {
      assert InTable(t, h, i) && EntryOk(ops, cls, t, bits, m, h, i);
    }
  }

  // ----- The three changes -----

  /** A new entry at the head of its chain. */
  function Added(t: Table, h: nat, e: Entry): Table
    requires h < |t|
  {
    t[h := [e] + t[h]]
  }

  /** An entry overwritten in place. */
  function Overwritten(t: Table, h: nat, i: nat, e: Entry): Table
    requires h < |t| && i < |t[h]|
  {
    t[h := t[h][i := e]]
  }

  /** An entry taken out of its chain. */
  function Removed(t: Table, h: nat, i: nat): Table
    requires h < |t| && i < |t[h]|
  {
    t[h := t[h][..i] + t[h][i + 1..]]
  }

  lemma AddedRepresents(ops: Ops, cls: Key -> int, t: Table, bits: nat, m: map<int, Entry>,
                        h: nat, e: Entry, t': Table, m': map<int, Entry>)
    requires bits <= 64 && Lawful(ops, cls) && Represents(ops, cls, t, bits, m)
    requires h == Slot(ops, e.key, bits) && h < |t| && cls(e.key) !in m
    requires t' == Added(t, h, e) && m' == m[cls(e.key) := e]
    ensures Represents(ops, cls, t', bits, m')
  {
    forall b: nat, i: nat | InTable(t', b, i) ensures EntryOk(ops, cls, t', bits, m', b, i) {
      if b == h && i > 0 {
        assert InTable(t, b, i - 1) && EntryOk(ops, cls, t, bits, m, b, i - 1);
      } else if b != h {
        assert InTable(t, b, i) && EntryOk(ops, cls, t, bits, m, b, i);
      }
    }
    forall c | c in m' ensures Stored(ops, cls, t', bits, m', c) {
      if c == cls(e.key) {
        assert t'[h][0] == e;
      } else {
        assert Stored(ops, cls, t, bits, m, c);
        var s := Slot(ops, m[c].key, bits);
        var i :| 0 <= i < |t[s]| && t[s][i] == m[c];
        assert t'[s][if s == h then i + 1 else i] == m[c];
      }
    }
    forall b | 0 <= b < |t'| ensures NoDuplicates(cls, t'[b]) {
      assert NoDuplicates(cls, t[b]);
      if b == h {
        forall j | 0 < j < |t'[h]| ensures cls(t'[h][j].key) != cls(e.key) {
          assert InTable(t, h, j - 1) && EntryOk(ops, cls, t, bits, m, h, j - 1);
        }
      }
    }
  }

  lemma OverwrittenRepresents(ops: Ops, cls: Key -> int, t: Table, bits: nat, m: map<int, Entry>,
                              h: nat, k: nat, e: Entry, t': Table, m': map<int, Entry>)
    requires bits <= 64 && Lawful(ops, cls) && Represents(ops, cls, t, bits, m)
    requires h < |t| && k < |t[h]| && cls(t[h][k].key) == cls(e.key)
    requires t' == Overwritten(t, h, k, e) && m' == m[cls(e.key) := e]
    ensures Represents(ops, cls, t', bits, m')
  {
    var was := t[h][k];
    assert InTable(t, h, k) && EntryOk(ops, cls, t, bits, m, h, k);
    assert ops.hash(was.key) == ops.hash(e.key);
    forall b: nat, i: nat | InTable(t', b, i) ensures EntryOk(ops, cls, t', bits, m', b, i) {
      assert InTable(t, b, i) && EntryOk(ops, cls, t, bits, m, b, i);
      assert NoDuplicates(cls, t[h]);
    }
    forall c | c in m' ensures Stored(ops, cls, t', bits, m', c) {
      if c == cls(e.key) {
        assert t'[h][k] == e;
      } else {
        assert Stored(ops, cls, t, bits, m, c);
        var s := Slot(ops, m[c].key, bits);
        var i :| 0 <= i < |t[s]| && t[s][i] == m[c];
        assert t'[s][i] == m[c];
      }
    }
    forall b | 0 <= b < |t'| ensures NoDuplicates(cls, t'[b]) {
      assert NoDuplicates(cls, t[b]);
    }
  }

  lemma RemovedRepresents(ops: Ops, cls: Key -> int, t: Table, bits: nat, m: map<int, Entry>,
                          h: nat, k: nat, t': Table, m': map<int, Entry>)
    requires bits <= 64 && Lawful(ops, cls) && Represents(ops, cls, t, bits, m)
    requires h < |t| && k < |t[h]|
    requires t' == Removed(t, h, k) && m' == m - {cls(t[h][k].key)}
    ensures Represents(ops, cls, t', bits, m')
  {
    var was := t[h][k];
    assert InTable(t, h, k) && EntryOk(ops, cls, t, bits, m, h, k);
    assert NoDuplicates(cls, t[h]);
    forall b: nat, i: nat | InTable(t', b, i) ensures EntryOk(ops, cls, t', bits, m', b, i) {
      var j := if b == h && i >= k then i + 1 else i;
      assert InTable(t, b, j) && EntryOk(ops, cls, t, bits, m, b, j);
      assert t'[b][i] == t[b][j];
    }
    forall c | c in m' ensures Stored(ops, cls, t', bits, m', c) {
      assert Stored(ops, cls, t, bits, m, c);
      var s := Slot(ops, m[c].key, bits);
      var i :| 0 <= i < |t[s]| && t[s][i] == m[c];
      assert t'[s][if s == h && i > k then i - 1 else i] == m[c];
    }
    forall b | 0 <= b < |t'| ensures NoDuplicates(cls, t'[b]) {
      assert NoDuplicates(cls, t[b]);
    }
  }

  // ----- Rehashing -----

  lemma OneEntryPerClass(ops: Ops, cls: Key -> int, t: Table, bits: nat, m: map<int, Entry>, b: nat, i: nat, b': nat,
                         i': nat)
    requires bits <= 64 && Lawful(ops, cls) && Represents(ops, cls, t, bits, m) && InTable(t, b, i)
    requires InTable(t, b', i')
    requires cls(t[b][i].key) == cls(t[b'][i'].key)
    ensures b == b' && i == i'
  {
    assert EntryOk(ops, cls, t, bits, m, b, i) && EntryOk(ops, cls, t, bits, m, b', i');
    assert NoDuplicates(cls, t[b]);
  }

  /** The entries before entry i of chain b have been moved, and no others. */
  ghost predicate Moved(cls: Key -> int, t: Table, m: map<int, Entry>, moved: map<int, Entry>, b: nat, i: nat) {
    && (forall c :: c in moved ==> c in m && moved[c] == m[c])
    && (forall b': nat, i': nat :: InTable(t, b', i') ==>
          (cls(t[b'][i'].key) in moved <==> b' < b || (b' == b && i' < i)))
  }

  lemma MoveOne(ops: Ops, cls: Key -> int, t: Table, bits: nat, m: map<int, Entry>, moved: map<int, Entry>, b: nat,
                i: nat)
    requires bits <= 64 && Lawful(ops, cls) && Represents(ops, cls, t, bits, m) && InTable(t, b, i)
    requires Moved(cls, t, m, moved, b, i)
    ensures cls(t[b][i].key) !in moved && Moved(cls, t, m, moved[cls(t[b][i].key) := t[b][i]], b, i + 1)
  {
    var e := t[b][i];
    var moved' := moved[cls(e.key) := e];
    assert EntryOk(ops, cls, t, bits, m, b, i);
    forall b': nat, i': nat | InTable(t, b', i')
      ensures cls(t[b'][i'].key) in moved' <==> b' < b || (b' == b && i' < i + 1)
    {
      if cls(t[b'][i'].key) == cls(e.key) { OneEntryPerClass(ops, cls, t, bits, m, b, i, b', i'); }
    }
  }

  lemma NextChain(cls: Key -> int, t: Table, m: map<int, Entry>, moved: map<int, Entry>, b: nat)
    requires b < |t| && Moved(cls, t, m, moved, b, |t[b]|)
    ensures Moved(cls, t, m, moved, b + 1, 0)
  {
  }

  lemma AllMoved(ops: Ops, cls: Key -> int, t: Table, bits: nat, m: map<int, Entry>, moved: map<int, Entry>)
    requires bits <= 64 && Represents(ops, cls, t, bits, m) && Moved(cls, t, m, moved, |t|, 0)
    ensures moved == m
  {
    forall c | c in m ensures c in moved {
      assert Stored(ops, cls, t, bits, m, c);
      var s := Slot(ops, m[c].key, bits);
      var i: nat :| i < |t[s]| && t[s][i] == m[c];
      assert InTable(t, s, i);
      assert cls(t[s][i].key) in moved;
    }
    assert forall c :: c in moved ==> c in m && moved[c] == m[c];
  }
}
