/** What the queued writes do to the output file, in whatever order they land, and what a
    short completion would have done. */
module UringLanding {
  import opened Common
  import opened UringCopy

  function Zeros(n: nat): (z: seq<byte>)
    ensures |z| == n
  {
    if n == 0 then [] else Zeros(n - 1) + [0]
  }

  /** A positioned write: a gap before it reads as zeros. */
  function Land(file: seq<byte>, b: Block): seq<byte> {
    var n := b.off + |b.data|;
    var start := if |file| < b.off then file + Zeros(b.off - |file|) else file[..b.off];
    start + b.data + if n < |file| then file[n..] else []
  }

  function LandAll(file: seq<byte>, bs: seq<Block>): seq<byte> {
    if bs == [] then file else Land(LandAll(file, bs[..|bs| - 1]), bs[|bs| - 1])
  }

  ghost predicate Covers(b: Block, i: nat) {
    b.off <= i < b.off + |b.data|
  }

  /** The piece holds the input's own bytes. */
  ghost predicate PieceOf(input: seq<byte>, b: Block) {
    b.off + |b.data| <= |input| && b.data == input[b.off..b.off + |b.data|]
  }

  ghost predicate AllPieces(input: seq<byte>, bs: seq<Block>) {
    forall b :: b in bs ==> PieceOf(input, b)
  }

  lemma {:induction false} BlocksArePieces(input: seq<byte>, from: nat)
    requires from <= |input|
    ensures AllPieces(input, Blocks(input, from))
    decreases |input| - from
  {
    if from < |input| {
      var n := if |input| - from < BLOCK_SZ then |input| - from else BLOCK_SZ;
      BlocksArePieces(input, from + n);
    }
  }

  lemma {:induction false} BlocksCover(input: seq<byte>, from: nat, i: nat) returns (b: Block)
    requires from <= i < |input|
    ensures b in Blocks(input, from) && Covers(b, i)
    decreases |input| - from
  {
    var n := if |input| - from < BLOCK_SZ then |input| - from else BLOCK_SZ;
    if i < from + n {
      b := Block(from, input[from..from + n]);
    } else {
      b := BlocksCover(input, from + n, i);
    }
  }

  /** The pieces follow each other without gap or overlap up to the end of the file. */
  lemma {:induction false} BlocksTile(input: seq<byte>, from: nat, i: nat)
    requires from <= |input| && i < |Blocks(input, from)|
    ensures Blocks(input, from)[i].off == from + i * BLOCK_SZ
    ensures var b := Blocks(input, from)[i];
            b.off + |b.data| == if i + 1 < |Blocks(input, from)| then Blocks(input, from)[i + 1].off else |input|
    decreases i
  {
    var n := if |input| - from < BLOCK_SZ then |input| - from else BLOCK_SZ;
    var rest := Blocks(input, from + n);
    assert Blocks(input, from) == [Block(from, input[from..from + n])] + rest;
    if i > 0 {
      BlocksTile(input, from + n, i - 1);
    } else if rest != [] {
      assert rest[0].off == from + n;
    }
  }

  lemma LandOne(file: seq<byte>, b: Block, i: nat)
    ensures |Land(file, b)| == if |file| < b.off + |b.data| then b.off + |b.data| else |file|
    ensures i < |Land(file, b)| ==>
              Land(file, b)[i] == if Covers(b, i) then b.data[i - b.off] else if i < |file| then file[i] else 0
  {
    if |file| < b.off { ZerosAre(b.off - |file|, if |file| <= i < b.off then i - |file| else 0); }
  }

  lemma {:induction false} ZerosAre(n: nat, i: nat)
    requires i < n
    ensures Zeros(n)[i] == 0
  {
    if i < n - 1 { ZerosAre(n - 1, i); }
  }

  ghost predicate Touched(bs: seq<Block>, i: nat) {
    exists k :: 0 <= k < |bs| && Covers(bs[k], i)
  }

  /** A byte written at least once is the input's, whatever came after. */
  lemma {:induction false} LandedByte(input: seq<byte>, file: seq<byte>, bs: seq<Block>, i: nat)
    requires AllPieces(input, bs)
    requires |file| <= |input| && Touched(bs, i)
    ensures i < |LandAll(file, bs)| && i < |input| && LandAll(file, bs)[i] == input[i]
  {
    var last := bs[|bs| - 1];
    var before := LandAll(file, bs[..|bs| - 1]);
    assert PieceOf(input, last);
    LandOne(before, last, i);
    if !Covers(last, i) {
      var k :| 0 <= k < |bs| && Covers(bs[k], i);
      assert bs[..|bs| - 1][k] == bs[k];
      LandedByte(input, file, bs[..|bs| - 1], i);
    }
  }

  lemma {:induction false} LandedLength(input: seq<byte>, file: seq<byte>, bs: seq<Block>)
    requires AllPieces(input, bs)
    requires |file| <= |input|
    ensures |LandAll(file, bs)| <= |input|
  {
    if bs != [] {
      var last := bs[|bs| - 1];
      assert PieceOf(input, last);
      LandedLength(input, file, bs[..|bs| - 1]);
      LandOne(LandAll(file, bs[..|bs| - 1]), last, 0);
    }
  }

  ghost predicate AllTouched(input: seq<byte>, bs: seq<Block>) {
    forall i: nat :: 0 <= i < |input| ==> Touched(bs, i)
  }

  lemma CoveringCopies(input: seq<byte>, file: seq<byte>, landed: seq<Block>, out: seq<byte>)
    requires |file| <= |input| && AllPieces(input, landed) && AllTouched(input, landed)
    requires out == LandAll(file, landed)
    ensures out == input
  {
    LandedLength(input, file, landed);
    forall i: nat | i < |input| ensures SameAt(out, input, i) {
      assert Touched(landed, i);
      LandedByte(input, file, landed, i);
    }
    SameEverywhere(out, input);
  }

  ghost predicate SameAt(s: seq<byte>, s': seq<byte>, i: nat) {
    i < |s| && i < |s'| && s[i] == s'[i]
  }

  lemma SameEverywhere(s: seq<byte>, s': seq<byte>)
    requires |s| <= |s'| && forall i: nat :: i < |s'| ==> SameAt(s, s', i)
    ensures s == s'
  {
    assert |s'| > 0 ==> SameAt(s, s', |s'| - 1);
    forall i | 0 <= i < |s| ensures s[i] == s'[i] { assert SameAt(s, s', i); }
  }

  lemma SamePieces(bs: seq<Block>, bs': seq<Block>, b: Block)
    requires multiset(bs) == multiset(bs') && b in bs
    ensures b in bs'
  {
    assert b in multiset(bs);
  }

  /** Once the writes that the copy queued have landed, in any order at all, the output is
      the input. */
  lemma AnyOrderCopies(input: seq<byte>, file: seq<byte>, landed: seq<Block>)
    requires |file| <= |input| && multiset(landed) == multiset(Blocks(input, 0))
    ensures LandAll(file, landed) == input
  {
    var blocks := Blocks(input, 0);
    BlocksArePieces(input, 0);
    forall b | b in landed ensures PieceOf(input, b) {
      SamePieces(landed, blocks, b);
    }
    forall i | 0 <= i < |input| ensures Touched(landed, i) {
      var b := BlocksCover(input, 0, i);
      SamePieces(blocks, landed, b);
    }
    CoveringCopies(input, file, landed, LandAll(file, landed));
  }

  // ----- Short completions -----

  /** The lengths of the completions of one read of n bytes. */
  predicate Chunks(ks: seq<nat>, n: nat) {
    if ks == [] then n == 0 else 0 < ks[|ks| - 1] <= n && Chunks(ks[..|ks| - 1], n - ks[|ks| - 1])
  }

  /** What the first n bytes of the buffer of a read of `block` hold after completions of
      these lengths: the request is queued again with a later buffer but with the same file
      offset, so every completion brings the start of the piece. */
  function Requeued(block: seq<byte>, ks: seq<nat>, n: nat): seq<byte>
    requires n <= |block| && Chunks(ks, n)
    decreases |ks|
  {
    if ks == [] then [] else Requeued(block, ks[..|ks| - 1], n - ks[|ks| - 1]) + block[..ks[|ks| - 1]]
  }

  ghost predicate Uniform(block: seq<byte>) {
    forall i, j :: 0 <= i < |block| && 0 <= j < |block| ==> block[i] == block[j]
  }

  lemma {:induction false} UniformRequeued(block: seq<byte>, ks: seq<nat>, n: nat)
    requires Uniform(block) && n <= |block| && Chunks(ks, n)
    ensures Requeued(block, ks, n) == block[..n]
    decreases |ks|
  {
    if ks != [] {
      var k := ks[|ks| - 1];
      UniformRequeued(block, ks[..|ks| - 1], n - k);
      assert block[n - k..n] == block[..k];
      assert block[..n] == block[..n - k] + block[n - k..n];
    }
  }

  /** However the completions of a read of the piece come, the buffer is right. */
  ghost predicate Harmless(block: seq<byte>) {
    forall ks :: Chunks(ks, |block|) ==> Requeued(block, ks, |block|) == block
  }

  lemma UniformIsHarmless(block: seq<byte>)
    requires Uniform(block)
    ensures Harmless(block)
  {
    forall ks | Chunks(ks, |block|) ensures Requeued(block, ks, |block|) == block {
      UniformRequeued(block, ks, |block|);
      assert block[..|block|] == block;
    }
  }

  lemma HarmlessIsUniform(block: seq<byte>)
    requires Harmless(block)
    ensures Uniform(block)
  {
    if |block| > 1 {
      OneThenRest(block);
      forall i | 0 <= i < |block| ensures block[i] == block[0] {
        AllEqualFirst(block, i);
      }
    }
  }

  /** A read comes out right for every way of completing short exactly if all bytes of its
      piece are the same. */
  lemma ShortReadsHarmlessIff(block: seq<byte>)
    ensures Harmless(block) <==> Uniform(block)
  {
    if Uniform(block) { UniformIsHarmless(block); }
    if Harmless(block) { HarmlessIsUniform(block); }
  }

  /** One byte first, then all the others. */
  lemma OneThenRest(block: seq<byte>)
    requires |block| > 1
    ensures Chunks([1, |block| - 1], |block|)
    ensures Requeued(block, [1, |block| - 1], |block|) == block[..1] + block[..|block| - 1]
  {
    var n := |block|;
    var ks: seq<nat>, one: seq<nat> := [1, n - 1], [1];
    OneFirst(block, one);
    assert ks[..1] == one && ks[|ks| - 1] == n - 1;
    assert Requeued(block, ks, n) == Requeued(block, one, 1) + block[..n - 1];
  }

  lemma OneFirst(block: seq<byte>, one: seq<nat>)
    requires |block| > 1 && one == [1]
    ensures Chunks(one, 1) && Requeued(block, one, 1) == block[..1]
  {
    assert one[..0] == [];
  }

  lemma {:induction false} AllEqualFirst(block: seq<byte>, i: nat)
    requires |block| > 1 && i < |block| && block[..1] + block[..|block| - 1] == block
    ensures block[i] == block[0]
  {
    if i > 0 {
      assert block[i] == (block[..1] + block[..|block| - 1])[i];
      AllEqualFirst(block, i - 1);
    }
  }

  // ----- Short writes -----

  /** The file after writes of the first n bytes of a piece that completed with these
      lengths: again the buffer moves on and the file offset does not. */
  function WrittenShort(file: seq<byte>, b: Block, ks: seq<nat>, n: nat): seq<byte>
    requires n <= |b.data| && Chunks(ks, n)
    decreases |ks|
  {
    if ks == [] then file
    else
      var m := n - ks[|ks| - 1];
      Land(WrittenShort(file, b, ks[..|ks| - 1], m), Block(b.off, b.data[m..n]))
  }

  /** However the completions of a write of the piece come, the file is right. */
  ghost predicate HarmlessWrite(file: seq<byte>, b: Block) {
    forall ks :: Chunks(ks, |b.data|) ==> WrittenShort(file, b, ks, |b.data|) == Land(file, b)
  }

  /** The file holds the piece already, but for its first byte. */
  ghost predicate HoldsRest(file: seq<byte>, b: Block) {
    && b.data != [] && |file| >= b.off + |b.data|
    && file[b.off + 1..b.off + |b.data|] == b.data[1..]
  }

  lemma UniformLand(file: seq<byte>, b: Block, m: nat, n: nat)
    requires |b.data| > 1 && Uniform(b.data) && HoldsRest(file, b) && m < n <= |b.data|
    ensures Land(file, Block(b.off, b.data[m..n])) == file[b.off := b.data[0]]
  {
    var part := Block(b.off, b.data[m..n]);
    LandOne(file, part, 0);
    forall i: nat | i < |file| ensures Land(file, part)[i] == file[b.off := b.data[0]][i] {
      LandOne(file, part, i);
      if b.off < i < b.off + |b.data| {
        assert file[b.off + 1..b.off + |b.data|][i - b.off - 1] == b.data[1..][i - b.off - 1];
      }
    }
  }

  lemma {:induction false} UniformWritten(file: seq<byte>, b: Block, ks: seq<nat>, n: nat)
    requires |b.data| > 1 && Uniform(b.data) && HoldsRest(file, b) && n <= |b.data| && Chunks(ks, n)
    ensures WrittenShort(file, b, ks, n) == if ks == [] then file else file[b.off := b.data[0]]
    decreases |ks|
  {
    if ks != [] {
      var m := n - ks[|ks| - 1];
      UniformWritten(file, b, ks[..|ks| - 1], m);
      var before := WrittenShort(file, b, ks[..|ks| - 1], m);
      assert before[b.off + 1..b.off + |b.data|] == file[b.off + 1..b.off + |b.data|];
      UniformLand(before, b, m, n);
    }
  }

  lemma HeldIsHarmless(file: seq<byte>, b: Block)
    requires |b.data| > 1 && Uniform(b.data) && HoldsRest(file, b)
    ensures HarmlessWrite(file, b)
  {
    forall ks | Chunks(ks, |b.data|) ensures WrittenShort(file, b, ks, |b.data|) == Land(file, b) {
      UniformWritten(file, b, ks, |b.data|);
      UniformLand(file, b, 0, |b.data|);
      assert b.data[0..|b.data|] == b.data;
    }
  }

  lemma OneByteIsHarmless(file: seq<byte>, b: Block)
    requires |b.data| == 1
    ensures HarmlessWrite(file, b)
  {
    forall ks | Chunks(ks, |b.data|) ensures WrittenShort(file, b, ks, |b.data|) == Land(file, b) {
      assert Chunks(ks[..|ks| - 1], 0);
      assert b.data[0..1] == b.data;
    }
  }

  /** One completion for every byte. */
  function Ones(n: nat): (ks: seq<nat>)
    ensures |ks| == n
  {
    if n == 0 then [] else Ones(n - 1) + [1]
  }

  lemma {:induction false} OnesAdd(n: nat)
    ensures Chunks(Ones(n), n)
  {
    if n > 0 {
      OnesAdd(n - 1);
      assert Ones(n)[..n - 1] == Ones(n - 1);
    }
  }

  /** They leave the file alone but for the first byte of the piece. */
  lemma {:induction false} OnesWritten(file: seq<byte>, b: Block, n: nat, i: nat)
    requires 0 < n <= |b.data| && i != b.off && Chunks(Ones(n), n)
    ensures |WrittenShort(file, b, Ones(n), n)| == if |file| < b.off + 1 then b.off + 1 else |file|
    ensures i < |file| ==> WrittenShort(file, b, Ones(n), n)[i] == file[i]
  {
    assert Ones(n)[..n - 1] == Ones(n - 1);
    if n > 1 { OnesWritten(file, b, n - 1, i); }
    LandOne(WrittenShort(file, b, Ones(n - 1), n - 1), Block(b.off, b.data[n - 1..n]), i);
  }

  lemma HarmlessHolds(file: seq<byte>, b: Block, i: nat)
    requires 0 < i < |b.data| && Chunks(Ones(|b.data|), |b.data|)
    requires WrittenShort(file, b, Ones(|b.data|), |b.data|) == Land(file, b)
    ensures |file| >= b.off + |b.data| && file[b.off + i] == b.data[i]
  {
    OnesWritten(file, b, |b.data|, b.off + i);
    LandOne(file, b, b.off + i);
  }

  lemma HarmlessIsHeld(file: seq<byte>, b: Block)
    requires |b.data| > 1 && HarmlessWrite(file, b)
    ensures HoldsRest(file, b)
  {
    var n := |b.data|;
    OnesAdd(n);
    assert WrittenShort(file, b, Ones(n), n) == Land(file, b);
    HarmlessHolds(file, b, 1);
    var held := file[b.off + 1..b.off + n];
    forall i: nat | i < n - 1 ensures held[i] == b.data[1..][i] {
      HarmlessHolds(file, b, i + 1);
    }
  }

  /** The first byte alone, then the rest: all but the last byte are overwritten by their
      successors. */
  lemma HarmlessWriteIsUniform(file: seq<byte>, b: Block)
    requires |b.data| > 1 && HarmlessWrite(file, b)
    ensures Uniform(b.data)
  {
    var n := |b.data|;
    var first, ks: seq<nat> := Land(file, Block(b.off, b.data[0..1])), [1, n - 1];
    FirstThenRest(file, b, ks);
    forall i: nat | i < n - 1 ensures b.data[i] == b.data[i + 1] {
      LandOne(file, b, b.off + i);
      LandOne(first, Block(b.off, b.data[1..n]), b.off + i);
    }
    assert b.data[..1] + b.data[..n - 1] == b.data;
    forall i | 0 <= i < n ensures b.data[i] == b.data[0] {
      AllEqualFirst(b.data, i);
    }
  }

  lemma FirstThenRest(file: seq<byte>, b: Block, ks: seq<nat>)
    requires |b.data| > 1 && ks == [1, |b.data| - 1]
    ensures Chunks(ks, |b.data|)
    ensures WrittenShort(file, b, ks, |b.data|) ==
              Land(Land(file, Block(b.off, b.data[0..1])), Block(b.off, b.data[1..|b.data|]))
  {
    var one: seq<nat> := [1];
    assert ks[..1] == one && one[..0] == [];
    assert WrittenShort(file, b, one[..0], 0) == file;
    assert WrittenShort(file, b, one, 1) == Land(file, Block(b.off, b.data[0..1]));
  }

  /** A write comes out right for every way of completing short exactly if the piece is a
      single byte, or all its bytes are the same and the file holds them already, but for
      the first. */
  lemma ShortWritesHarmlessIff(file: seq<byte>, b: Block)
    requires b.data != []
    ensures HarmlessWrite(file, b) <==> |b.data| == 1 || (Uniform(b.data) && HoldsRest(file, b))
  {
    if |b.data| == 1 {
      OneByteIsHarmless(file, b);
    } else if Uniform(b.data) && HoldsRest(file, b) {
      HeldIsHarmless(file, b);
    } else if HarmlessWrite(file, b) {
      HarmlessIsHeld(file, b);
      HarmlessWriteIsUniform(file, b);
    }
  }
}
