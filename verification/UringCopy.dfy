/** Copying a file through a ring of asynchronous reads and writes that complete in any
    order. */
module UringCopy {
  import opened Common

  const QUEUE_DEPTH: nat := 2
  const BLOCK_SZ: nat := 16 * 1024

  /** A piece of the file and where it belongs. */
  datatype Block = Block(off: nat, data: seq<byte>)

  /** One request: where its piece starts and how long it is. */
  datatype Request = Request(off: nat, len: nat)

  ghost predicate Inside(input: seq<byte>, r: Request) {
    r.off + r.len <= |input|
  }

  /** What a full-length read of the request brings. */
  function Content(input: seq<byte>, r: Request): Block
    requires Inside(input, r)
  {
    Block(r.off, input[r.off..r.off + r.len])
  }

  ghost predicate AllInside(input: seq<byte>, rs: seq<Request>) {
    forall i :: 0 <= i < |rs| ==> Inside(input, rs[i])
  }

  ghost function Contents(input: seq<byte>, rs: seq<Request>): multiset<Block>
    requires AllInside(input, rs)
  {
    if rs == [] then multiset{} else Contents(input, rs[..|rs| - 1]) + multiset{Content(input, rs[|rs| - 1])}
  }

  ghost function TotalLen(rs: seq<Request>): nat {
    if rs == [] then 0 else TotalLen(rs[..|rs| - 1]) + rs[|rs| - 1].len
  }

  /** The file cut into pieces of BLOCK_SZ and a shorter last one. */
  function Blocks(input: seq<byte>, from: nat): seq<Block>
    requires from <= |input|
    decreases |input| - from
  {
    if from == |input| then []
    else var n := if |input| - from < BLOCK_SZ then |input| - from else BLOCK_SZ;
      [Block(from, input[from..from + n])] + Blocks(input, from + n)
  }

  function Without<T>(s: seq<T>, k: nat): seq<T>
    requires k < |s|
  {
    s[..k] + s[k + 1..]
  }

  lemma ContentsAppend(input: seq<byte>, rs: seq<Request>, r: Request)
    requires AllInside(input, rs) && Inside(input, r)
    ensures AllInside(input, rs + [r]) && Contents(input, rs + [r]) == Contents(input, rs) + multiset{Content(input, r)}
    ensures TotalLen(rs + [r]) == TotalLen(rs) + r.len
  {
    assert (rs + [r])[..|rs|] == rs;
  }

  lemma {:induction false} LenWithout(rs: seq<Request>, k: nat, rs': seq<Request>)
    requires k < |rs| && rs' == Without(rs, k)
    ensures TotalLen(rs) == TotalLen(rs') + rs[k].len
  {
    var last := |rs| - 1;
    if k < last {
      var init := rs[..last];
      LenWithout(init, k, Without(init, k));
      assert rs'[..last - 1] == Without(init, k);
    } else {
      assert rs' == rs[..last];
    }
  }

  /** Completing one of the requests takes its piece out, whichever it is. */
  lemma {:induction false} ContentsWithout(input: seq<byte>, rs: seq<Request>, k: nat, rs': seq<Request>, b: Block)
    requires AllInside(input, rs) && k < |rs| && rs' == Without(rs, k) && b == Content(input, rs[k])
    ensures AllInside(input, rs')
    ensures Contents(input, rs) == Contents(input, rs') + multiset{b}
  {
    var last := |rs| - 1;
    if k < last {
      var init, z := rs[..last], rs[last];
      var init' := Without(init, k);
      ContentsWithout(input, init, k, init', b);
      WithoutLast(rs, k, init', rs');
      ContentsAppend(input, init, z);
      ContentsAppend(input, init', z);
      assert rs == init + [z];
      Swap(Contents(input, init'), multiset{b}, multiset{Content(input, z)});
    } else {
      assert rs' == rs[..last];
    }
  }

  lemma WithoutLast<T>(s: seq<T>, k: nat, init: seq<T>, s': seq<T>)
    requires k < |s| - 1 && init == Without(s[..|s| - 1], k) && s' == Without(s, k)
    ensures s' == init + [s[|s| - 1]]
  {
  }

  // ----- What every state of the copy keeps -----

  /** `log` holds the pieces queued for writing so far, `reading` the reads in flight. The
      counters fit the ring, the byte counts add up, and the pieces queued, in flight and
      still unread are the pieces of the file, each once. */
  ghost predicate Copying(input: seq<byte>, insize: nat, offset: nat, writeLeft: nat,
                          reading: seq<Request>, writing: seq<Block>, log: seq<Block>)
  {
    && |reading| + |writing| <= QUEUE_DEPTH
    && offset + insize == |input|
    && AllInside(input, reading) && NoneEmpty(reading)
    && writeLeft == insize + TotalLen(reading)
    && Conserved(input, offset, reading, log)
  }

  ghost predicate Conserved(input: seq<byte>, offset: nat, reading: seq<Request>, log: seq<Block>)
    requires offset <= |input| && AllInside(input, reading)
  {
    Pieces(input, offset, reading, log) == Unread(input, 0)
  }

  /** The pieces queued for writing, in flight, and unread. */
  ghost function Pieces(input: seq<byte>, offset: nat, reading: seq<Request>, log: seq<Block>): multiset<Block>
    requires offset <= |input| && AllInside(input, reading)
  {
    multiset(log) + Contents(input, reading) + Unread(input, offset)
  }

  /** The pieces from `offset` on. */
  ghost function Unread(input: seq<byte>, offset: nat): multiset<Block>
    requires offset <= |input|
  {
    multiset(Blocks(input, offset))
  }

  ghost predicate NoneEmpty(rs: seq<Request>) {
    forall i :: 0 <= i < |rs| ==> rs[i].len > 0
  }

  lemma StillReading(rs: seq<Request>)
    requires NoneEmpty(rs)
    ensures TotalLen(rs) > 0 <==> |rs| > 0
  {
  }

  lemma BlocksStep(input: seq<byte>, offset: nat, n: nat, offset': nat, r: Request)
    requires offset < |input| && n == (if |input| - offset < BLOCK_SZ then |input| - offset else BLOCK_SZ)
    requires offset' == offset + n && r == Request(offset, n)
    ensures Unread(input, offset) == multiset{Content(input, r)} + Unread(input, offset')
  {
    var b, rest := Content(input, r), Blocks(input, offset');
    assert Blocks(input, offset) == [b] + rest;
  }

  lemma Regroup<T>(a: multiset<T>, b: multiset<T>, c: multiset<T>, d: multiset<T>)
    ensures a + b + (c + d) == a + (b + c) + d
  {
  }

  lemma Swap<T>(a: multiset<T>, b: multiset<T>, c: multiset<T>)
    ensures a + b + c == a + c + b
  {
  }

  lemma IssueConserves(input: seq<byte>, offset: nat, offset': nat, reading: seq<Request>, log: seq<Block>,
                       n: nat, r: Request, reading': seq<Request>)
    requires offset < |input| && AllInside(input, reading) && Conserved(input, offset, reading, log)
    requires n == (if |input| - offset < BLOCK_SZ then |input| - offset else BLOCK_SZ)
    requires offset' == offset + n && r == Request(offset, n) && reading' == reading + [r]
    ensures AllInside(input, reading') && Conserved(input, offset', reading', log)
  {
    ContentsAppend(input, reading, r);
    BlocksStep(input, offset, n, offset', r);
    Regroup(multiset(log), Contents(input, reading), multiset{Content(input, r)}, Unread(input, offset'));
  }

  lemma IssueShape(input: seq<byte>, reading: seq<Request>, r: Request, reading': seq<Request>)
    requires AllInside(input, reading) && NoneEmpty(reading) && Inside(input, r) && r.len > 0
    requires reading' == reading + [r]
    ensures AllInside(input, reading') && NoneEmpty(reading') && |reading'| == |reading| + 1
    ensures TotalLen(reading') == TotalLen(reading) + r.len
  {
    ContentsAppend(input, reading, r);
  }

  lemma ReadConserves(input: seq<byte>, offset: nat, reading: seq<Request>, log: seq<Block>,
                      k: nat, reading': seq<Request>, b: Block, log': seq<Block>)
    requires offset <= |input| && AllInside(input, reading) && k < |reading| && b == Content(input, reading[k])
    requires reading' == Without(reading, k) && log' == log + [b] && Conserved(input, offset, reading, log)
    ensures AllInside(input, reading') && Conserved(input, offset, reading', log')
  {
    ContentsWithout(input, reading, k, reading', b);
    assert multiset(log') == multiset(log) + multiset{b};
  }

  lemma ReadShape(input: seq<byte>, reading: seq<Request>, k: nat, reading': seq<Request>)
    requires AllInside(input, reading) && NoneEmpty(reading) && k < |reading| && reading' == Without(reading, k)
    ensures AllInside(input, reading') && NoneEmpty(reading') && |reading'| == |reading| - 1
    ensures TotalLen(reading) == TotalLen(reading') + reading[k].len
  {
    LenWithout(reading, k, reading');
  }

  /** A write that completes was queued before. */
  ghost predicate Accounted(done: seq<Block>, writing: seq<Block>, log: seq<Block>) {
    Together(done, writing) == multiset(log)
  }

  ghost function Together(done: seq<Block>, writing: seq<Block>): multiset<Block> {
    multiset(done) + multiset(writing)
  }

  lemma QueuedAccounted(done: seq<Block>, writing: seq<Block>, log: seq<Block>, b: Block)
    requires Accounted(done, writing, log)
    ensures Accounted(done, writing + [b], log + [b])
  {
  }

  lemma DoneAccounted(done: seq<Block>, writing: seq<Block>, log: seq<Block>, k: nat)
    requires Accounted(done, writing, log) && k < |writing|
    ensures Accounted(done + [writing[k]], Without(writing, k), log)
  {
    assert writing == writing[..k] + [writing[k]] + writing[k + 1..];
  }

  /** Something is in flight whenever bytes are left and no read can be queued. */
  lemma NeverIdle(input: seq<byte>, insize: nat, offset: nat, writeLeft: nat, reading: seq<Request>,
                  writing: seq<Block>, log: seq<Block>)
    requires Copying(input, insize, offset, writeLeft, reading, writing, log) && writeLeft > 0
    requires insize > 0 ==> |reading| + |writing| > 0
    ensures |reading| + |writing| > 0
  {
    StillReading(reading);
  }

  lemma AllQueued(input: seq<byte>, offset: nat, reading: seq<Request>, writing: seq<Block>, log: seq<Block>)
    requires Copying(input, 0, offset, 0, reading, writing, log)
    ensures reading == [] && multiset(log) == multiset(Blocks(input, 0))
  {
    StillReading(reading);
    assert Blocks(input, offset) == [];
  }

  /** One moment of the copy. */
  datatype Moment = Moment(insize: int, offset: int, writeLeft: int, numReads: int, numWrites: int,
                           reading: seq<Request>, writing: seq<Block>, done: seq<Block>, log: seq<Block>)

  ghost predicate Consistent(input: seq<byte>, m: Moment) {
    && 0 <= m.insize && 0 <= m.offset && 0 <= m.writeLeft
    && Copying(input, m.insize, m.offset, m.writeLeft, m.reading, m.writing, m.log)
    && Accounted(m.done, m.writing, m.log)
    && m.numReads == |m.reading| && m.numWrites == |m.writing|
  }

  ghost function Moments(input: seq<byte>): iset<Moment> {
    iset m: Moment | Consistent(input, m)
  }

  /** What is left to do: every byte is read, then written. */
  ghost function Remaining(m: Moment): int {
    3 * m.insize + 2 * |m.reading| + |m.writing|
  }

  function ThisSize(insize: int): int {
    if insize > BLOCK_SZ then BLOCK_SZ else insize
  }

  lemma StartMoment(input: seq<byte>)
    ensures Moment(|input|, 0, |input|, 0, 0, [], [], [], []) in Moments(input)
  {
    assert Pieces(input, 0, [], []) == Unread(input, 0);
  }

  /** The parts of a consistent moment. */
  lemma MomentParts(input: seq<byte>, m: Moment)
    ensures m in Moments(input) <==> Consistent(input, m)
  {
  }

  lemma IssueConsistent(input: seq<byte>, m: Moment, n: nat, offset': nat, reading': seq<Request>, m': Moment)
    requires Consistent(input, m) && n <= m.insize && m.numReads + m.numWrites < QUEUE_DEPTH && offset' == m.offset + n
    requires m' == m.(insize := m.insize - n, offset := offset', numReads := m.numReads + 1, reading := reading')
    requires AllInside(input, reading') && NoneEmpty(reading') && |reading'| == |m.reading| + 1
    requires TotalLen(reading') == TotalLen(m.reading) + n && Conserved(input, offset', reading', m.log)
    ensures Consistent(input, m')
  {
  }

  /** Queueing a read keeps the counters, the byte balance and the tiling. */
  lemma IssueMoment(input: seq<byte>, m: Moment, n: nat, r: Request, offset': nat, reading': seq<Request>, m': Moment)
    requires Consistent(input, m) && m.insize > 0 && m.numReads + m.numWrites < QUEUE_DEPTH
    requires n == ThisSize(m.insize) && r == Request(m.offset, n) && reading' == m.reading + [r]
    requires offset' == m.offset + n
    requires m' == m.(insize := m.insize - n, offset := offset', numReads := m.numReads + 1, reading := reading')
    ensures Consistent(input, m')
  {
    IssueShape(input, m.reading, r, reading');
    IssueConserves(input, m.offset, offset', m.reading, m.log, n, r, reading');
    IssueConsistent(input, m, n, offset', reading', m');
  }

  lemma IssueProgress(m: Moment, r: Request, m': Moment)
    requires r.len > 0 && m'.insize == m.insize - r.len && m'.reading == m.reading + [r] && m'.writing == m.writing
    ensures Remaining(m') < Remaining(m)
  {
  }

  lemma ReadConsistent(input: seq<byte>, m: Moment, len: nat, b: Block, reading': seq<Request>, m': Moment)
    requires Consistent(input, m) && m.numReads > 0
    requires m' == m.(writeLeft := m.writeLeft - len, numReads := m.numReads - 1, numWrites := m.numWrites + 1,
                      reading := reading', writing := m.writing + [b], log := m.log + [b])
    requires AllInside(input, reading') && NoneEmpty(reading') && |reading'| == |m.reading| - 1
    requires TotalLen(m.reading) == TotalLen(reading') + len && Conserved(input, m.offset, reading', m.log + [b])
    requires Accounted(m.done, m.writing + [b], m.log + [b])
    ensures Consistent(input, m')
  {
  }

  /** So does a completed read, whichever it is: its piece moves to the write queue. */
  lemma ReadMoment(input: seq<byte>, m: Moment, k: nat, b: Block, reading': seq<Request>, m': Moment)
    requires Consistent(input, m) && k < |m.reading| && b == Content(input, m.reading[k])
    requires reading' == Without(m.reading, k)
    requires m' == m.(writeLeft := m.writeLeft - m.reading[k].len,
                      numReads := m.numReads - 1, numWrites := m.numWrites + 1,
                      reading := reading', writing := m.writing + [b], log := m.log + [b])
    ensures Consistent(input, m')
  {
    ReadShape(input, m.reading, k, reading');
    ReadConserves(input, m.offset, m.reading, m.log, k, reading', b, m.log + [b]);
    QueuedAccounted(m.done, m.writing, m.log, b);
    ReadConsistent(input, m, m.reading[k].len, b, reading', m');
  }

  lemma ReadProgress(m: Moment, k: nat, b: Block, m': Moment)
    requires k < |m.reading| && m'.insize == m.insize
    requires m'.reading == Without(m.reading, k) && m'.writing == m.writing + [b]
    ensures Remaining(m') < Remaining(m)
  {
  }

  lemma WriteMoment(input: seq<byte>, m: Moment, k: nat, m': Moment)
    requires m in Moments(input) && k < |m.writing|
    requires m' == m.(numWrites := m.numWrites - 1, writing := Without(m.writing, k), done := m.done + [m.writing[k]])
    ensures m' in Moments(input) && Remaining(m') < Remaining(m)
  {
    DoneAccounted(m.done, m.writing, m.log, k);
  }

  lemma MomentBusy(input: seq<byte>, m: Moment)
    requires m in Moments(input)
    ensures m.insize > 0 ==> m.writeLeft > 0
    ensures m.writeLeft > 0 && (m.insize > 0 ==> m.numReads + m.numWrites > 0) ==> |m.reading| + |m.writing| > 0
    ensures m.numReads == |m.reading| && m.numWrites == |m.writing| && m.numReads + m.numWrites <= QUEUE_DEPTH
    ensures 0 <= m.insize && 0 <= m.offset && 0 <= m.writeLeft
  {
    StillReading(m.reading);
    if m.writeLeft > 0 && (m.insize > 0 ==> m.numReads + m.numWrites > 0) {
      NeverIdle(input, m.insize, m.offset, m.writeLeft, m.reading, m.writing, m.log);
    }
  }

  lemma MomentEnd(input: seq<byte>, m: Moment)
    requires m in Moments(input) && m.insize == 0 && m.writeLeft == 0
    ensures m.reading == [] && multiset(m.log) == multiset(Blocks(input, 0)) && Accounted(m.done, m.writing, m.log)
  {
    AllQueued(input, m.offset, m.reading, m.writing, m.log);
  }

  class Copier {
    const input: seq<byte>
    var insize: int
    var offset: int
    var writeLeft: int
    var numReads: int
    var numWrites: int
    /** The requests the ring holds, and the writes it has completed. */
    var reading: seq<Request>
    var writing: seq<Block>
    var done: seq<Block>
    /** Every write queued so far. */
    var log: seq<Block>

    ghost function Now(): Moment
      reads this
    {
      Moment(insize, offset, writeLeft, numReads, numWrites, reading, writing, done, log)
    }

    ghost predicate Valid()
      reads this
    {
      Now() in Moments(input)
    }

    constructor (input: seq<byte>)
      ensures this.input == input && Valid() && log == []
    {
      this.input := input;
      insize, offset, writeLeft := |input|, 0, |input|;
      numReads, numWrites := 0, 0;
      reading, writing, done, log := [], [], [], [];
      new;
      StartMoment(input);
    }

    /** Queues a read of the next piece. */
    method QueueRead()
      requires Valid() && insize > 0 && numReads + numWrites < QUEUE_DEPTH
      modifies this
      ensures Valid() && Remaining(Now()) < old(Remaining(Now()))
      ensures 0 <= insize < old(insize) && numReads + numWrites > 0
      ensures writeLeft == old(writeLeft) && log == old(log) && done == old(done)
    {
      MomentBusy(input, Now());
      var thisSize := if insize > BLOCK_SZ then BLOCK_SZ else insize;
      var r := Request(offset, thisSize);
      ghost var before := Now();
      reading := reading + [r];
      insize, offset, numReads := insize - thisSize, offset + thisSize, numReads + 1;
      MomentParts(input, before);
      IssueMoment(input, before, thisSize, r, offset, reading, Now());
      MomentParts(input, Now());
      IssueProgress(before, r, Now());
    }

    /** Queues reads until the ring is full or the file is used up; queueing one may fail
        while others are in flight. */
    method QueueReads()
      requires Valid()
      modifies this
      ensures Valid() && Remaining(Now()) <= old(Remaining(Now()))
      ensures insize > 0 ==> numReads + numWrites > 0
      ensures writeLeft == old(writeLeft) && log == old(log) && done == old(done)
    {
      while insize > 0
        invariant Valid() && Remaining(Now()) <= old(Remaining(Now()))
        invariant writeLeft == old(writeLeft) && log == old(log) && done == old(done)
        decreases insize
      {
        if numReads + numWrites >= QUEUE_DEPTH {
          break;
        }
        if numReads + numWrites > 0 {
          if * { break; }
        }
        QueueRead();
      }
    }

    /** A read has completed in full: what it brought is queued for writing. */
    method QueueWrite(k: nat)
      requires Valid() && k < |reading|
      modifies this
      ensures Valid() && Remaining(Now()) < old(Remaining(Now()))
      ensures k < |old(reading)| && Inside(input, old(reading)[k])
      ensures log == old(log) + [Content(input, old(reading)[k])] && done == old(done)
    {
      var data := reading[k];
      var b := Content(input, data);
      ghost var before := Now();
      reading, writing, log := Without(reading, k), writing + [b], log + [b];
      writeLeft, numReads, numWrites := writeLeft - data.len, numReads - 1, numWrites + 1;
      MomentParts(input, before);
      ReadMoment(input, before, k, b, reading, Now());
      MomentParts(input, Now());
      ReadProgress(before, k, b, Now());
    }

    /** A write has completed in full. */
    method FinishWrite(k: nat)
      requires Valid() && k < |writing|
      modifies this
      ensures Valid() && Remaining(Now()) < old(Remaining(Now()))
      ensures k < |old(writing)| && done == old(done) + [old(writing)[k]] && log == old(log)
    {
      ghost var before := Now();
      done, writing, numWrites := done + [writing[k]], Without(writing, k), numWrites - 1;
      WriteMoment(input, before, k, Now());
    }

    /** One completion, any of those in flight. */
    method Complete()
      requires Valid() && |reading| + |writing| > 0
      modifies this
      ensures Valid() && Remaining(Now()) < old(Remaining(Now()))
    {
      var isRead: bool :| if isRead then |reading| > 0 else |writing| > 0;
      if isRead {
        var k: nat :| k < |reading|;
        QueueWrite(k);
      } else {
        var k: nat :| k < |writing|;
        FinishWrite(k);
      }
    }

    /** The copy, for every order of completions: each piece of the file is queued for
        writing exactly once, with its own offset and bytes. On return `done` are the writes
        that have completed and `writing` those still in flight. */
    method CopyFile()
      requires Valid()
      modifies this
      ensures Valid() && reading == []
      ensures multiset(log) == multiset(Blocks(input, 0))
      ensures Accounted(done, writing, log)
    {
      MomentBusy(input, Now());
      while insize != 0 || writeLeft != 0
        invariant Valid()
        decreases Remaining(Now())
      {
        ghost var start := Remaining(Now());
        MomentBusy(input, Now());
        QueueReads();
        MomentBusy(input, Now());
        var gotComp := false;
        while writeLeft != 0
          invariant Valid()
          invariant if gotComp then Remaining(Now()) < start else |reading| + |writing| > 0 && Remaining(Now()) <= start
          invariant !gotComp ==> writeLeft > 0
          decreases Remaining(Now())
        {
          MomentBusy(input, Now());
          if gotComp {
            if |reading| + |writing| == 0 { break; }
            if * { break; }
          }
          Complete();
          gotComp := true;
        }
      }
      MomentEnd(input, Now());
    }
  }
}
