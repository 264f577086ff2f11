/** The index from jited addresses to line records: which records belong to which function,
    and which record an address falls to. */
module LineInfo {
  import opened Arithmetic
  import opened Common

  /** The addresses of the records, and the start and length of every function. */
  datatype Input = Input(linfo: seq<nat>, ksymFunc: seq<nat>, ksymLen: seq<nat>)

  ghost predicate WellFormed(p: Input) {
    && |p.linfo| > 0 && |p.ksymFunc| > 0 && |p.ksymLen| == |p.ksymFunc|
    && (forall i :: 0 <= i < |p.linfo| ==> p.linfo[i] < TWO64)
    && (forall f :: 0 <= f < |p.ksymFunc| ==> p.ksymFunc[f] < TWO64)
  }

  /** Where the records of function f end, given where the functions start. */
  function EndOf(idx: seq<nat>, f: nat, total: nat): nat
    requires f < |idx|
  {
    if f + 1 < |idx| then idx[f + 1] else total
  }

  /** From record i to record j addresses strictly increase from one to the next. */
  ghost predicate Rising(linfo: seq<nat>, i: nat, j: nat) {
    forall k :: i < k < j && k < |linfo| ==> linfo[k - 1] < linfo[k]
  }

  /** The address lies within function f. A function whose records reach from the first
      address to the last passes as well: its length is 0 in 64 bits. */
  ghost predicate Fits(p: Input, f: nat, addr: nat)
    requires f < |p.ksymFunc| == |p.ksymLen|
  {
    addr < p.ksymFunc[f] + p.ksymLen[f] || (p.ksymFunc[f] == 0 && addr == TWO64 - 1)
  }

  /** The records i to j form a complete function whose successor starts at j: it begins at
      its symbol, rises, does not pass the next symbol, and fits its length. */
  ghost predicate Complete(p: Input, f: nat, i: nat, j: nat)
    requires f + 1 < |p.ksymFunc| && |p.ksymLen| == |p.ksymFunc|
  {
    && i < j < |p.linfo|
    && Rising(p.linfo, i, j)
    && (forall k :: i < k < j ==> p.linfo[k] != p.ksymFunc[f + 1])
    && Fits(p, f, p.linfo[j - 1])
  }

  /** The 64-bit length from a function's start up to and including an address. */
  function Span(last: nat, start: nat): nat {
    (last - start + 1) % TWO64
  }

  /** Comparing that length is asking whether the address fits. */
  lemma SpanFits(p: Input, f: nat, addr: nat)
    requires f < |p.ksymFunc| == |p.ksymLen| && p.ksymFunc[f] <= addr < TWO64
    ensures Span(addr, p.ksymFunc[f]) <= p.ksymLen[f] <==> Fits(p, f, addr)
  {
  }

  /** The first n functions are indexed: each starts at its symbol, and each but the n-th is
      complete. */
  ghost predicate Indexed(p: Input, idx: seq<nat>, n: nat)
    requires |p.ksymLen| == |p.ksymFunc|
  {
    && 0 < n <= |p.ksymFunc| && n <= |idx| && idx[0] == 0
    && (forall f :: 0 <= f < n ==> idx[f] < |p.linfo| && p.linfo[idx[f]] == p.ksymFunc[f])
    && (forall f: nat :: f + 1 < n ==> Complete(p, f, idx[f], idx[f + 1]))
  }

  /** A full index. */
  ghost predicate IsIndex(p: Input, idx: seq<nat>)
    requires |p.ksymLen| == |p.ksymFunc|
  {
    |idx| == |p.ksymFunc| && Indexed(p, idx, |idx|)
  }

  /** An index follows the scan: it agrees with what was found, and its next start is not
      before the scan. */
  ghost predicate Follows(idx: seq<nat>, found: seq<nat>, i: nat) {
    && |found| <= |idx| && (forall f :: 0 <= f < |found| ==> idx[f] == found[f])
    && (|found| < |idx| ==> i <= idx[|found|])
  }

  ghost predicate AllFollow(p: Input, found: seq<nat>, i: nat)
    requires |p.ksymLen| == |p.ksymFunc|
  {
    forall idx :: IsIndex(p, idx) ==> Follows(idx, found, i)
  }

  /** The scan is inside function |found| - 1. */
  ghost predicate Scanned(p: Input, found: seq<nat>, i: nat)
    requires |p.ksymLen| == |p.ksymFunc|
  {
    var n := |found|;
    && 0 < n && Indexed(p, found, n) && found[n - 1] < i <= |p.linfo|
    && (n < |p.ksymFunc| ==> Rising(p.linfo, found[n - 1], i)
                             && forall k :: found[n - 1] < k < i ==> p.linfo[k] != p.ksymFunc[n])
  }

  lemma NextFound(p: Input, found: seq<nat>, i: nat)
    requires WellFormed(p) && Scanned(p, found, i) && i < |p.linfo| && |found| < |p.ksymFunc|
    requires p.linfo[i] == p.ksymFunc[|found|]
    requires Fits(p, |found| - 1, p.linfo[i - 1])
    ensures Scanned(p, found + [i], i + 1)
  {
    var n, found' := |found|, found + [i];
    forall f: nat | f + 1 < n + 1 ensures Complete(p, f, found'[f], found'[f + 1]) {
      if f + 1 < n { assert Complete(p, f, found[f], found[f + 1]); }
    }
  }

  /** If record i starts the next function, every index says so. */
  lemma NextForced(p: Input, found: seq<nat>, i: nat, idx: seq<nat>)
    requires WellFormed(p) && Scanned(p, found, i) && i < |p.linfo| && |found| < |p.ksymFunc|
    requires p.linfo[i] == p.ksymFunc[|found|] && IsIndex(p, idx) && Follows(idx, found, i)
    ensures idx[|found|] == i
    ensures Fits(p, |found| - 1, p.linfo[i - 1])
  {
    var n := |found|;
    assert Complete(p, n - 1, idx[n - 1], idx[n]);
  }

  /** If record i does not start the next function, it has to rise. */
  lemma RiseForced(p: Input, found: seq<nat>, i: nat, idx: seq<nat>)
    requires WellFormed(p) && Scanned(p, found, i) && i < |p.linfo| && |found| < |p.ksymFunc|
    requires p.linfo[i] != p.ksymFunc[|found|] && IsIndex(p, idx) && Follows(idx, found, i)
    ensures i < idx[|found|] && p.linfo[i - 1] < p.linfo[i]
  {
    var n := |found|;
    assert p.linfo[idx[n]] == p.ksymFunc[n];
    assert Complete(p, n - 1, idx[n - 1], idx[n]);
  }

  lemma StartsRise(p: Input, idx: seq<nat>, f: nat)
    requires WellFormed(p) && IsIndex(p, idx) && f < |idx|
    ensures f + 1 < |idx| ==> idx[f] < idx[f + 1]
  {
    if f + 1 < |idx| { assert Complete(p, f, idx[f], idx[f + 1]); }
  }

  ghost predicate NoIndex(p: Input)
    requires |p.ksymLen| == |p.ksymFunc|
  {
    forall idx :: !IsIndex(p, idx)
  }

  /** The states of the scan: what is found so far is forced, and record i comes next. */
  ghost function Scans(p: Input): iset<(seq<nat>, nat)>
    requires |p.ksymLen| == |p.ksymFunc|
  {
    iset s: (seq<nat>, nat) | Scanned(p, s.0, s.1) && AllFollow(p, s.0, s.1)
  }

  lemma ScanStarts(p: Input)
    requires WellFormed(p)
    ensures if p.ksymFunc[0] == p.linfo[0] then ([0], 1) in Scans(p) else NoIndex(p)
  {
    if p.ksymFunc[0] == p.linfo[0] {
      forall idx | IsIndex(p, idx) ensures Follows(idx, [0], 1) {
        StartsRise(p, idx, 0);
      }
    }
  }

  lemma ScanFinds(p: Input, found: seq<nat>, i: nat)
    requires WellFormed(p) && (found, i) in Scans(p) && i < |p.linfo| && 0 < |found| < |p.ksymFunc| && 0 < i
    requires p.linfo[i] == p.ksymFunc[|found|]
    ensures if Fits(p, |found| - 1, p.linfo[i - 1]) then (found + [i], i + 1) in Scans(p) else NoIndex(p)
  {
    assert AllFollow(p, found, i);
    if Fits(p, |found| - 1, p.linfo[i - 1]) { NextFound(p, found, i); }
    forall idx | IsIndex(p, idx)
      ensures Fits(p, |found| - 1, p.linfo[i - 1])
      ensures Follows(idx, found + [i], i + 1)
    {
      NextForced(p, found, i, idx);
      StartsRise(p, idx, |found|);
    }
  }

  lemma ScanPasses(p: Input, found: seq<nat>, i: nat)
    requires WellFormed(p) && (found, i) in Scans(p) && 0 < i < |p.linfo| && |found| < |p.ksymFunc|
    requires p.linfo[i] != p.ksymFunc[|found|]
    ensures if p.linfo[i - 1] < p.linfo[i] then (found, i + 1) in Scans(p) else NoIndex(p)
  {
    assert AllFollow(p, found, i);
    forall idx | IsIndex(p, idx) ensures p.linfo[i - 1] < p.linfo[i] && Follows(idx, found, i + 1) {
      RiseForced(p, found, i, idx);
    }
  }

  lemma ScanEnds(p: Input, found: seq<nat>, i: nat)
    requires WellFormed(p) && (found, i) in Scans(p) && (i >= |p.linfo| || |found| >= |p.ksymFunc|)
    ensures |found| == |p.ksymFunc| ==> IsIndex(p, found) && forall idx :: IsIndex(p, idx) ==> idx == found
    ensures |found| != |p.ksymFunc| ==> NoIndex(p)
  {
    assert AllFollow(p, found, i);
    forall idx | IsIndex(p, idx) ensures |found| == |p.ksymFunc| && idx == found {
      assert Follows(idx, found, i);
    }
  }

  lemma ScanInside(p: Input, found: seq<nat>, i: nat)
    requires WellFormed(p) && (found, i) in Scans(p)
    ensures 0 < |found| <= |p.ksymFunc| && found[|found| - 1] < i <= |p.linfo|
  {
  }

  /** The scan stands at or behind the start of its function. */
  lemma ScanStands(p: Input, found: seq<nat>, i: nat)
    requires WellFormed(p) && (found, i) in Scans(p) && 0 < |found| < |p.ksymFunc| && 0 < i <= |p.linfo|
    ensures p.ksymFunc[|found| - 1] <= p.linfo[i - 1]
  {
    var start := found[|found| - 1];
    if start < i - 1 { RisesTo(p.linfo, start, i, start + 1, i - 1); }
  }

  /** What the check of the length decides when the next function is found. */
  lemma ScanChecks(p: Input, found: seq<nat>, i: nat, ok: bool)
    requires WellFormed(p) && (found, i) in Scans(p) && i < |p.linfo| && 0 < |found| < |p.ksymFunc| && 0 < i
    requires p.linfo[i] == p.ksymFunc[|found|]
    requires ok <==> Span(p.linfo[i - 1], p.ksymFunc[|found| - 1]) <= p.ksymLen[|found| - 1]
    ensures if ok then (found + [i], i + 1) in Scans(p) else NoIndex(p)
  {
    ScanStands(p, found, i);
    SpanFits(p, |found| - 1, p.linfo[i - 1]);
    ScanFinds(p, found, i);
  }

  /** The records of every function found so far but the last are counted. */
  ghost predicate Counted(found: seq<nat>, nr: seq<nat>) {
    |found| == |nr| + 1 && forall f :: 0 <= f < |nr| ==> found[f] + nr[f] == found[f + 1] && nr[f] > 0
  }

  /** Consecutive ranges that use up all records. */
  ghost predicate Partition(idx: seq<nat>, nr: seq<nat>, total: nat) {
    && |nr| == |idx|
    && forall f :: 0 <= f < |nr| ==> idx[f] + nr[f] == EndOf(idx, f, total) && nr[f] > 0
  }

  lemma CountOne(found: seq<nat>, nr: seq<nat>, i: nat, found': seq<nat>, nr': seq<nat>)
    requires Counted(found, nr) && found[|nr|] < i && found' == found + [i] && nr' == nr + [i - found[|nr|]]
    ensures Counted(found', nr')
  {
  }

  lemma CountLast(found: seq<nat>, nr: seq<nat>, total: nat, nr': seq<nat>)
    requires Counted(found, nr) && found[|nr|] < total && nr' == nr + [total - found[|nr|]]
    ensures Partition(found, nr', total)
  {
  }

  // ----- What an index is, record by record -----

  /** The records i to j of a function rise from its symbol on, do not meet the next symbol,
      and lie within the function. The last alternative is the one case in which the 64-bit
      length wraps around. */
  ghost predicate LaidRange(p: Input, f: nat, i: nat, j: nat)
    requires f + 1 < |p.ksymFunc| == |p.ksymLen| && i < j <= |p.linfo|
  {
    forall k :: i <= k < j ==>
      && p.ksymFunc[f] <= p.linfo[k]
      && (p.linfo[k] < p.ksymFunc[f] + p.ksymLen[f]
          || (p.ksymFunc[f] == 0 && p.linfo[j - 1] == 0xffff_ffff_ffff_ffff))
      && (i < k ==> p.linfo[k - 1] < p.linfo[k] && p.linfo[k] != p.ksymFunc[f + 1])
  }

  /** Every function starts at its symbol, in order, and has its records where they belong;
      where the last function ends is not known. */
  ghost predicate LaidOut(p: Input, idx: seq<nat>)
    requires WellFormed(p)
  {
    && |idx| == |p.ksymFunc| && idx[0] == 0
    && (forall f :: 0 <= f < |idx| ==> idx[f] < |p.linfo| && p.linfo[idx[f]] == p.ksymFunc[f])
    && (forall f: nat :: f + 1 < |idx| ==> idx[f] < idx[f + 1] && LaidRange(p, f, idx[f], idx[f + 1]))
  }

  lemma CompleteIsLaid(p: Input, f: nat, i: nat, j: nat)
    requires WellFormed(p) && f + 1 < |p.ksymFunc| && i < j < |p.linfo| && p.linfo[i] == p.ksymFunc[f]
    ensures Complete(p, f, i, j) <==> LaidRange(p, f, i, j)
  {
    if Complete(p, f, i, j) {
      forall k | i <= k < j ensures p.linfo[i] <= p.linfo[k] <= p.linfo[j - 1] {
        if i < k { RisesTo(p.linfo, i, j, i + 1, k); }
        if k < j - 1 { RisesTo(p.linfo, i, j, k + 1, j - 1); }
      }
    }
    if LaidRange(p, f, i, j) {
      forall k | i < k < j ensures p.linfo[k - 1] < p.linfo[k] && p.linfo[k] != p.ksymFunc[f + 1] {
        assert p.ksymFunc[f] <= p.linfo[k];
      }
      assert p.ksymFunc[f] <= p.linfo[j - 1];
    }
  }

  lemma IndexIsLaid(p: Input, idx: seq<nat>)
    requires WellFormed(p)
    ensures IsIndex(p, idx) <==> LaidOut(p, idx)
  {
    if IsIndex(p, idx) {
      forall f: nat | f + 1 < |idx| ensures idx[f] < idx[f + 1] && LaidRange(p, f, idx[f], idx[f + 1]) {
        assert Complete(p, f, idx[f], idx[f + 1]);
        CompleteIsLaid(p, f, idx[f], idx[f + 1]);
      }
    }
    if LaidOut(p, idx) {
      forall f: nat | f + 1 < |idx| ensures Complete(p, f, idx[f], idx[f + 1]) {
        CompleteIsLaid(p, f, idx[f], idx[f + 1]);
      }
    }
  }

  /** No way to lay the records out. */
  ghost predicate NoLayout(p: Input)
    requires WellFormed(p)
  {
    forall idx :: !LaidOut(p, idx)
  }

  lemma NoIndexNoLayout(p: Input)
    requires WellFormed(p) && NoIndex(p)
    ensures NoLayout(p)
  {
    forall idx ensures !LaidOut(p, idx) { IndexIsLaid(p, idx); }
  }

  /** The only full index. */
  ghost predicate OnlyIndex(p: Input, idx: seq<nat>)
    requires |p.ksymLen| == |p.ksymFunc|
  {
    IsIndex(p, idx) && forall other :: IsIndex(p, other) ==> other == idx
  }

  /** The only way to lay the records out. */
  ghost predicate OnlyLayout(p: Input, idx: seq<nat>)
    requires WellFormed(p)
  {
    LaidOut(p, idx) && forall other :: LaidOut(p, other) ==> other == idx
  }

  lemma OnlyIndexOnlyLayout(p: Input, idx: seq<nat>)
    requires WellFormed(p) && OnlyIndex(p, idx)
    ensures OnlyLayout(p, idx)
  {
    IndexIsLaid(p, idx);
    forall other | LaidOut(p, other) ensures other == idx { IndexIsLaid(p, other); }
  }

  /** The scan at record i, with the counts of the functions before the current one. */
  ghost predicate Scanning(p: Input, idx: seq<nat>, nr: seq<nat>, i: nat)
    requires |p.ksymLen| == |p.ksymFunc|
  {
    (idx, i) in Scans(p) && 0 < |idx| && 0 < i <= |p.linfo| && idx[|idx| - 1] < i && Counted(idx, nr)
  }

  /** One record: the start of the next function, or one more record of this one. */
  method ScanRecord(p: Input, idx: seq<nat>, nr: seq<nat>, i: nat, prev: nat)
      returns (ok: bool, idx': seq<nat>, nr': seq<nat>, prev': nat)
    requires WellFormed(p) && Scanning(p, idx, nr, i) && prev == idx[|idx| - 1]
    requires i < |p.linfo| && |idx| < |p.ksymFunc|
    ensures ok ==> Scanning(p, idx', nr', i + 1) && prev' == idx'[|idx'| - 1]
    ensures !ok ==> NoIndex(p)
  {
    var f := |idx|;
    if p.ksymFunc[f] == p.linfo[i] {
      ok := Span(p.linfo[i - 1], p.ksymFunc[f - 1]) <= p.ksymLen[f - 1];
      ScanChecks(p, idx, i, ok);
      idx', nr', prev' := idx + [i], nr + [i - prev], i;
      CountOne(idx, nr, i, idx', nr');
    } else {
      ScanPasses(p, idx, i);
      ok := p.linfo[i - 1] < p.linfo[i];
      idx', nr', prev' := idx, nr, prev;
    }
  }

  /** What the end of the scan decides. */
  lemma ScanDecides(p: Input, idx: seq<nat>, nr: seq<nat>, i: nat, nr': seq<nat>)
    requires WellFormed(p) && Scanning(p, idx, nr, i) && (i >= |p.linfo| || |idx| >= |p.ksymFunc|)
    requires idx[|idx| - 1] < |p.linfo| ==> nr' == nr + [|p.linfo| - idx[|idx| - 1]]
    ensures |idx| == |p.ksymFunc| ==> IsIndex(p, idx) && OnlyLayout(p, idx) && Partition(idx, nr', |p.linfo|)
    ensures |idx| != |p.ksymFunc| ==> NoLayout(p)
  {
    ScanInside(p, idx, i);
    ScanEnds(p, idx, i);
    if |idx| == |p.ksymFunc| {
      OnlyIndexOnlyLayout(p, idx);
      CountLast(idx, nr, |p.linfo|, nr');
    } else {
      NoIndexNoLayout(p);
    }
  }

  /** Splits the records among the functions. It succeeds exactly if they can be laid out,
      and then finds the only way, with the number of records of each function. */
  method DissectJitedFunc(p: Input) returns (ok: bool, idx: seq<nat>, nr: seq<nat>)
    requires WellFormed(p)
    ensures ok ==> IsIndex(p, idx) && OnlyLayout(p, idx) && Partition(idx, nr, |p.linfo|)
    ensures !ok ==> NoLayout(p)
  {
    ScanStarts(p);
    idx, nr := [0], [];
    if p.ksymFunc[0] != p.linfo[0] {
      NoIndexNoLayout(p);
      return false, idx, nr;
    }
    var i, prev := 1, 0;
    while i < |p.linfo| && |idx| < |p.ksymFunc|
      invariant Scanning(p, idx, nr, i) && prev == idx[|idx| - 1]
    {
      ok, idx, nr, prev := ScanRecord(p, idx, nr, i, prev);
      if !ok {
        NoIndexNoLayout(p);
        return false, idx, nr;
      }
      i := i + 1;
    }
    ghost var done := nr + [|p.linfo| - prev];
    ScanDecides(p, idx, nr, i, done);
    if |idx| != |p.ksymFunc| {
      return false, idx, nr;
    }
    return true, idx, nr + [|p.linfo| - prev];
  }

  // ----- Looking up -----

  /** The record before the first one in [from, to) that lies beyond the key. */
  ghost predicate LastNotBeyond(keys: seq<nat>, from: nat, to: nat, key: nat, r: nat) {
    && from <= r < to <= |keys|
    && (forall k :: from <= k <= r ==> keys[k] <= key)
    && (r + 1 < to ==> key < keys[r + 1])
  }

  /** The records of the range whose key does not exceed the given are those up to r, and r
      has the greatest key of them. */
  ghost predicate Greatest(keys: seq<nat>, from: nat, to: nat, key: nat, r: nat)
    requires from <= r < to <= |keys|
  {
    forall k :: from <= k < to ==> (keys[k] <= key <==> k <= r) && (k < r ==> keys[k] < keys[r])
  }

  /** Where the keys rise, the walk ends at the greatest record that is not beyond. */
  lemma GreatestNotBeyond(keys: seq<nat>, from: nat, to: nat, key: nat, r: nat)
    requires LastNotBeyond(keys, from, to, key, r) && Rising(keys, from, to)
    ensures Greatest(keys, from, to, key, r)
  {
    forall k | from <= k < to ensures (keys[k] <= key <==> k <= r) && (k < r ==> keys[k] < keys[r]) {
      if r < k { RisesTo(keys, from, to, r + 1, k); }
      if k < r { RisesTo(keys, from, to, k + 1, r); }
    }
  }

  lemma {:induction false} RisesTo(keys: seq<nat>, from: nat, to: nat, i: nat, j: nat)
    requires Rising(keys, from, to) && to <= |keys| && from < i <= j < to
    ensures keys[i - 1] < keys[i] <= keys[j]
  {
    if i < j { RisesTo(keys, from, to, i, j - 1); }
  }

  /** The walk shared by both lookups. */
  method WalkUp(keys: seq<nat>, from: nat, to: nat, key: nat) returns (r: nat)
    requires from < to <= |keys| && keys[from] <= key
    ensures LastNotBeyond(keys, from, to, key, r)
  {
    var i := 0;
    while i < to - from
      invariant 0 <= i <= to - from
      invariant forall k :: from <= k < from + i ==> keys[k] <= key
    {
      if key < keys[from + i] {
        break;
      }
      i := i + 1;
    }
    r := from + i - 1;
  }

  /** The record of function `f` for an address, skipping the first `skip` records. */
  method LfindAddrFunc(p: Input, idx: seq<nat>, nr: seq<nat>, addr: nat, f: nat, skip: nat) returns (r: Option<nat>)
    requires WellFormed(p) && IsIndex(p, idx) && Partition(idx, nr, |p.linfo|)
    ensures r.None? <==> f >= |idx| || skip >= nr[f] || addr < p.linfo[idx[f] + skip]
    ensures r.Some? ==> LastNotBeyond(p.linfo, idx[f] + skip, idx[f] + nr[f], addr, r.value)
    ensures r.Some? && f + 1 < |idx| ==> Greatest(p.linfo, idx[f] + skip, idx[f] + nr[f], addr, r.value)
  {
    if f >= |idx| {
      return None;
    }
    if skip >= nr[f] {
      return None;
    }
    var start := idx[f] + skip;
    assert EndOf(idx, f, |p.linfo|) <= |p.linfo|;
    if addr < p.linfo[start] {
      return None;
    }
    var found := WalkUp(p.linfo, start, idx[f] + nr[f], addr);
    if f + 1 < |idx| {
      assert Complete(p, f, idx[f], idx[f + 1]);
      GreatestNotBeyond(p.linfo, start, idx[f + 1], addr, found);
    }
    return Some(found);
  }

  /** The record for an instruction offset. */
  method Lfind(insnOff: seq<nat>, off: nat, skip: nat) returns (r: Option<nat>)
    ensures r.None? <==> skip >= |insnOff| || off < insnOff[skip]
    ensures r.Some? ==> LastNotBeyond(insnOff, skip, |insnOff|, off, r.value)
    ensures r.Some? && Rising(insnOff, skip, |insnOff|) ==> Greatest(insnOff, skip, |insnOff|, off, r.value)
  {
    if skip >= |insnOff| {
      return None;
    }
    if off < insnOff[skip] {
      return None;
    }
    var found := WalkUp(insnOff, skip, |insnOff|, off);
    if Rising(insnOff, skip, |insnOff|) { GreatestNotBeyond(insnOff, skip, |insnOff|, off, found); }
    return Some(found);
  }
}
