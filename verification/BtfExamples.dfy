/** Small graphs on which the ordering pass does something unexpected. */
module BtfExamples {
  import opened BtfGraph
  import opened BtfOrder
  import opened BtfRepeats
  import opened BtfFunctions
  import opened BtfDump
  import opened BtfLoops
  import opened BtfTwice
  import opened BtfWitness
  import opened BtfDuplicates

  // ----- The emit queue can hold a function typedef twice -----

  /** typedef int fn(struct A); struct A { fn *cb; }; */
  function CallbackGraph(): Graph {
    [Void, Int, Typedef(3, false), FuncProto(1, [4]), Composite(false, true, [5]), Ptr(2)]
  }

  lemma QueueMayRepeat(g: Graph, rank: seq<nat>)
    requires g == CallbackGraph() && rank == [0, 0, 2, 1, 0, 3]
    ensures Ranked(g, rank) && CLike(g, rank)
    ensures var (s, r) := Order(g, rank, Fresh(g).order, 2, false);
            r == 1 && s.queue == [2, 4, 2]
  {
    CallbackCLike(g, rank);
    var s0 := Fresh(g).order;
    assert s0 == State([Ordered, NotOrdered, NotOrdered, NotOrdered, NotOrdered, NotOrdered], [], []);
    var s1 := State([Ordered, Ordered, NotOrdered, NotOrdered, NotOrdered, NotOrdered], [], [1]);
    assert Finish(g, s0, 1) == s1;
    CallbackStruct(g, rank, s1);
    CallbackTypedef(g, rank, s0, s1, Order(g, rank, s1, 4, false).0);
  }

  lemma CallbackTypedef(g: Graph, rank: seq<nat>, s0: State, s1: State, s5: State)
    requires g == CallbackGraph() && rank == [0, 0, 2, 1, 0, 3] && Ranked(g, rank)
    requires s0.marks == [Ordered, NotOrdered, NotOrdered, NotOrdered, NotOrdered, NotOrdered]
    requires s1 == Finish(g, s0, 1) && Order(g, rank, s1, 4, false) == (s5, 1) && s5.queue == [2, 4]
    requires s5.marks == [Ordered, Ordered, Ordered, NotOrdered, Ordered, Ordered]
    ensures var (s, r) := Order(g, rank, s0, 2, false);
            r == 1 && s.queue == [2, 4, 2]
  {
    assert OrderEach(g, rank, s5, [], false, 1) == (s5, 0);
    assert OrderEach(g, rank, s1, [4], false, 1) == (s5, 1);
    assert Order(g, rank, s0, 1, false) == (s1, 0);
    assert Order(g, rank, s0, 3, false) == (s5, 1);
  }

  lemma CallbackRanked(g: Graph, rank: seq<nat>)
    requires g == CallbackGraph() && rank == [0, 0, 2, 1, 0, 3]
    ensures Ranked(g, rank)
  {
    assert forall i :: 0 <= i < |g| ==> LeadsDown(g[i], rank, rank[i]);
  }

  lemma CallbackCLike(g: Graph, rank: seq<nat>)
    requires g == CallbackGraph() && rank == [0, 0, 2, 1, 0, 3]
    ensures Ranked(g, rank) && CLike(g, rank)
  {
    CallbackRanked(g, rank);
    forall i, c | 0 <= i < |g| && (g[i].Composite? || g[i].Array? || g[i].FuncProto?) && c in Children(g[i])
      ensures !IsFn(g, rank, c)
    {
      assert i == 3 || i == 4;
      assert c == 1 || c == 4 || c == 5;
    }
  }

  /** Ordering struct A from inside the typedef queues the typedef first. */
  lemma CallbackStruct(g: Graph, rank: seq<nat>, s1: State)
    requires g == CallbackGraph() && rank == [0, 0, 2, 1, 0, 3] && Ranked(g, rank)
    requires s1 == State([Ordered, Ordered, NotOrdered, NotOrdered, NotOrdered, NotOrdered], [], [1])
    ensures var (s5, r) := Order(g, rank, s1, 4, false);
            r == 1 && s5.queue == [2, 4] && s5.marks == [Ordered, Ordered, Ordered, NotOrdered, Ordered, Ordered]
  {
    var s2 := State([Ordered, Ordered, NotOrdered, NotOrdered, Ordering, NotOrdered], [], [1]);
    assert s1.marks[4 := Ordering] == s2.marks;
    var s4 := State([Ordered, Ordered, Ordered, NotOrdered, Ordering, Ordered], [2], [1, 2, 5]);
    CallbackMember(g, rank, s2, s4);
    assert Finish(g, s4, 4).queue == [2, 4];
  }

  lemma CallbackMember(g: Graph, rank: seq<nat>, s2: State, s4: State)
    requires g == CallbackGraph() && rank == [0, 0, 2, 1, 0, 3] && Ranked(g, rank)
    requires s2 == State([Ordered, Ordered, NotOrdered, NotOrdered, Ordering, NotOrdered], [], [1])
    requires s4 == State([Ordered, Ordered, Ordered, NotOrdered, Ordering, Ordered], [2], [1, 2, 5])
    ensures OrderEach(g, rank, s2, [5], false, |g| + 1) == (s4, 1)
  {
    var s3 := State([Ordered, Ordered, Ordered, NotOrdered, Ordering, NotOrdered], [2], [1, 2]);
    assert Finish(g, s2, 2) == s3;
    assert Finish(g, s3, 5) == s4;
    CallbackPointer(g, rank, s2, s3, s4);
    assert OrderEach(g, rank, s4, [], false, |g| + 1) == (s4, 0);
  }

  lemma CallbackPointer(g: Graph, rank: seq<nat>, s2: State, s3: State, s4: State)
    requires g == CallbackGraph() && rank == [0, 0, 2, 1, 0, 3] && Ranked(g, rank)
    requires s2.marks == [Ordered, Ordered, NotOrdered, NotOrdered, Ordering, NotOrdered]
    requires s3 == Finish(g, s2, 2) && s4 == Finish(g, s3, 5)
    ensures Order(g, rank, s2, 5, false) == (s4, 1)
  {
    CallbackAgain(g, rank, s2, s3);
  }

  /** The second visit to the typedef, through the pointer inside struct A. */
  lemma CallbackAgain(g: Graph, rank: seq<nat>, s2: State, s3: State)
    requires g == CallbackGraph() && rank == [0, 0, 2, 1, 0, 3] && Ranked(g, rank)
    requires s2.marks == [Ordered, Ordered, NotOrdered, NotOrdered, Ordering, NotOrdered]
    requires s3 == Finish(g, s2, 2)
    ensures Order(g, rank, s2, 2, true) == (s3, 1)
  {
    CallbackProto(g, rank, s2);
  }

  /** The prototype behind it, through the pointer. */
  lemma CallbackProto(g: Graph, rank: seq<nat>, s2: State)
    requires g == CallbackGraph() && rank == [0, 0, 2, 1, 0, 3] && Ranked(g, rank)
    requires s2.marks == [Ordered, Ordered, NotOrdered, NotOrdered, Ordering, NotOrdered]
    ensures Order(g, rank, s2, 3, true) == (s2, 1)
  {
    assert Order(g, rank, s2, 1, true) == (s2, 1);
    assert Order(g, rank, s2, 4, true) == (s2, 0);
    assert OrderEach(g, rank, s2, [], true, 1) == (s2, 0);
    assert OrderEach(g, rank, s2, [4], true, 1) == (s2, 0);
  }

  /** Along the literal flags the typedef needs struct A, which the first entry does not
      come after. */
  lemma FirstEntryOutOfOrder(g: Graph, rank: seq<nat>)
    requires g == CallbackGraph() && rank == [0, 0, 2, 1, 0, 3]
    ensures Ranked(g, rank) && CLike(g, rank)
    ensures Order(g, rank, Fresh(g).order, 2, false).0.queue == [2, 4, 2]
    ensures Reaches(g, rank, true, Node(2, false), Node(4, false), 1)
    ensures IsDefinition(g, Node(4, false)) && Queueable(g, 4)
  {
    QueueMayRepeat(g, rank);
    var p := [Node(2, false), Node(3, false), Node(4, false)];
    assert Path(g, rank, true, p);
    assert p[0] == Node(2, false) && p[|p| - 1] == Node(4, false);
  }

  // ----- One that leads back to itself may need help to repeat -----

  /** typedef struct R fn(int); struct R { fn *cb; }; */
  function ResultGraph(): Graph {
    [Void, Int, Typedef(3, false), FuncProto(4, [1]), Composite(false, true, [5]), Ptr(2)]
  }

  /** A first request does not queue it twice: nothing on its way down is finished when the
      typedef is met again. */
  lemma LoopNeedNotRepeat(g: Graph, rank: seq<nat>)
    requires g == ResultGraph() && rank == [0, 0, 2, 1, 0, 3]
    ensures Ranked(g, rank) && CLike(g, rank) && LoopingFn(g, rank, 2)
    ensures var (s, r) := Order(g, rank, Fresh(g).order, 2, false);
            r == 1 && s.queue == [4, 2]
  {
    ResultCLike(g, rank);
    ResultLoops(g, rank);
    var s0 := Fresh(g).order;
    assert s0 == State([Ordered, NotOrdered, NotOrdered, NotOrdered, NotOrdered, NotOrdered], [], []);
    ResultStruct(g, rank, s0);
    ResultTypedef(g, rank, s0, Order(g, rank, s0, 4, false).0);
  }

  /** A request for int before it has the typedef queued twice. */
  lemma ResultRepeats(g: Graph, rank: seq<nat>, calls: seq<nat>)
    requires g == ResultGraph() && rank == [0, 0, 2, 1, 0, 3] && calls == [1, 2]
    ensures Ranked(g, rank) && Run(g, rank, calls).Finished?
    ensures Twice(Run(g, rank, calls).session.queued, 2) && !NeverRepeats(g, rank)
  {
    LoopNeedNotRepeat(g, rank);
    FreshLoopReportedIff(g, rank, 2);
    assert Order(g, rank, Fresh(g).order.(queue := []), 2, false) == Order(g, rank, Fresh(g).order, 2, false);
    assert Dump(g, rank, Fresh(g), 2).1 == 0;
    assert Proto(g, rank, 2) == 3;
    ScalarRepeats(g, rank, 2, 1, calls);
  }

  lemma ResultRanked(g: Graph, rank: seq<nat>)
    requires g == ResultGraph() && rank == [0, 0, 2, 1, 0, 3]
    ensures Ranked(g, rank)
  {
    assert forall i :: 0 <= i < |g| ==> LeadsDown(g[i], rank, rank[i]);
  }

  lemma ResultCLike(g: Graph, rank: seq<nat>)
    requires g == ResultGraph() && rank == [0, 0, 2, 1, 0, 3]
    ensures Ranked(g, rank) && CLike(g, rank)
  {
    ResultRanked(g, rank);
    forall i, c | 0 <= i < |g| && (g[i].Composite? || g[i].Array? || g[i].FuncProto?) && c in Children(g[i])
      ensures !IsFn(g, rank, c)
    {
      assert i == 3 || i == 4;
      assert c == 1 || c == 4 || c == 5;
    }
  }

  lemma ResultTypedef(g: Graph, rank: seq<nat>, s0: State, s4: State)
    requires g == ResultGraph() && rank == [0, 0, 2, 1, 0, 3] && Ranked(g, rank)
    requires s0.marks == [Ordered, NotOrdered, NotOrdered, NotOrdered, NotOrdered, NotOrdered]
    requires Order(g, rank, s0, 4, false) == (s4, 1)
    requires s4.queue == [4] && s4.marks == [Ordered, Ordered, NotOrdered, NotOrdered, Ordered, Ordered]
    ensures var (s, r) := Order(g, rank, s0, 2, false);
            r == 1 && s.queue == [4, 2]
  {
    assert Order(g, rank, s4, 1, false) == (s4, 1);
    assert OrderEach(g, rank, s4, [], false, 1) == (s4, 0);
    assert OrderEach(g, rank, s4, [1], false, 1) == (s4, 1);
    assert Order(g, rank, s0, 3, false) == (s4, 1);
  }

  lemma ResultLoops(g: Graph, rank: seq<nat>)
    requires g == ResultGraph() && rank == [0, 0, 2, 1, 0, 3] && Ranked(g, rank)
    ensures LoopingFn(g, rank, 2)
  {
    var p := [Node(2, false), Node(3, false), Node(4, false), Node(5, false), Node(2, true)];
    assert Path(g, rank, true, p);
    assert Reaches(g, rank, true, Node(2, false), Node(2, true), 1);
  }

  /** While struct R is being ordered, the typedef behind its pointer is all weak. */
  lemma ResultStruct(g: Graph, rank: seq<nat>, s0: State)
    requires g == ResultGraph() && rank == [0, 0, 2, 1, 0, 3] && Ranked(g, rank)
    requires s0 == State([Ordered, NotOrdered, NotOrdered, NotOrdered, NotOrdered, NotOrdered], [], [])
    ensures var (s4, r) := Order(g, rank, s0, 4, false);
            r == 1 && s4.queue == [4] && s4.marks == [Ordered, Ordered, NotOrdered, NotOrdered, Ordered, Ordered]
  {
    var s1 := State([Ordered, NotOrdered, NotOrdered, NotOrdered, Ordering, NotOrdered], [], []);
    assert s0.marks[4 := Ordering] == s1.marks;
    var s2 := State([Ordered, Ordered, NotOrdered, NotOrdered, Ordering, NotOrdered], [], [1]);
    assert Finish(g, s1, 1) == s2;
    ResultProto(g, rank, s1, s2);
    var s3 := State([Ordered, Ordered, NotOrdered, NotOrdered, Ordering, Ordered], [], [1, 5]);
    assert Finish(g, s2, 5) == s3;
    assert Order(g, rank, s1, 5, false) == (s3, 0);
    assert OrderEach(g, rank, s3, [], false, |g| + 1) == (s3, 0);
    assert OrderEach(g, rank, s1, [5], false, |g| + 1) == (s3, 0);
  }

  lemma ResultProto(g: Graph, rank: seq<nat>, s1: State, s2: State)
    requires g == ResultGraph() && rank == [0, 0, 2, 1, 0, 3] && Ranked(g, rank)
    requires s1 == State([Ordered, NotOrdered, NotOrdered, NotOrdered, Ordering, NotOrdered], [], [])
    requires s2 == Finish(g, s1, 1)
    ensures Order(g, rank, s1, 2, true) == (s2, 0)
  {
    assert Order(g, rank, s1, 4, true) == (s1, 0);
    assert Order(g, rank, s1, 1, true) == (s2, 0);
    assert OrderEach(g, rank, s2, [], true, 1) == (s2, 0);
    assert OrderEach(g, rank, s1, [1], true, 1) == (s2, 0);
    assert Order(g, rank, s1, 3, true) == (s2, 0);
  }

  // ----- And one that leads to a single struct never repeats -----

  /** typedef struct R fn(); struct R { fn *cb; }; */
  function SingleGraph(): Graph {
    [Void, Typedef(2, false), FuncProto(3, []), Composite(false, true, [4]), Ptr(1)]
  }

  /** The typedef leads back to itself, but only by way of struct R, which is not finished
      when the typedef is met again: all runs are duplicate-free. */
  lemma SingleNeverRepeats(g: Graph, rank: seq<nat>)
    requires g == SingleGraph() && rank == [0, 2, 1, 0, 3]
    ensures Ranked(g, rank) && CLike(g, rank) && LoopingFn(g, rank, 1) && NeverRepeats(g, rank)
  {
    SingleCLike(g, rank);
    SingleLoops(g, rank);
    SingleNone(g, rank);
    RunQueueDuplicateFree(g, rank);
  }

  lemma SingleNone(g: Graph, rank: seq<nat>)
    requires g == SingleGraph() && rank == [0, 2, 1, 0, 3] && Ranked(g, rank) && CLike(g, rank)
    ensures NoneMayRepeat(g, rank)
  {
    assert Proto(g, rank, 1) == 2;
    OnePartNeverRepeats(g, rank, 1, 3);
    forall x | 0 <= x < |g| ensures !MayRepeat(g, rank, x) {
      if x != 1 { assert !g[x].Typedef?; }
    }
  }

  lemma SingleRanked(g: Graph, rank: seq<nat>)
    requires g == SingleGraph() && rank == [0, 2, 1, 0, 3]
    ensures Ranked(g, rank)
  {
    assert forall i :: 0 <= i < |g| ==> LeadsDown(g[i], rank, rank[i]);
  }

  lemma SingleCLike(g: Graph, rank: seq<nat>)
    requires g == SingleGraph() && rank == [0, 2, 1, 0, 3]
    ensures Ranked(g, rank) && CLike(g, rank)
  {
    SingleRanked(g, rank);
    forall i, c | 0 <= i < |g| && (g[i].Composite? || g[i].Array? || g[i].FuncProto?) && c in Children(g[i])
      ensures !IsFn(g, rank, c)
    {
      assert i == 2 || i == 3;
      assert c == 3 || c == 4;
    }
  }

  lemma SingleLoops(g: Graph, rank: seq<nat>)
    requires g == SingleGraph() && rank == [0, 2, 1, 0, 3] && Ranked(g, rank)
    ensures LoopingFn(g, rank, 1)
  {
    var p := [Node(1, false), Node(2, false), Node(3, false), Node(4, false), Node(1, true)];
    assert Path(g, rank, true, p);
    assert Reaches(g, rank, true, Node(1, false), Node(1, true), 1);
  }

  // ----- With a second struct it does -----

  /** typedef struct B fn(struct A); struct A { fn *cb; }; struct B { int n; }; */
  function PairGraph(): Graph {
    [Void, Int, Typedef(3, false), FuncProto(5, [4]), Composite(false, true, [6]), Composite(false, true, [1]), Ptr(2)]
  }

  /** Struct B does not need what the path through struct A passes. */
  lemma PairRepeats(g: Graph, rank: seq<nat>)
    requires g == PairGraph() && rank == [0, 0, 2, 1, 0, 0, 3]
    ensures Ranked(g, rank) && CLike(g, rank) && AllStructs(g, rank, 2) && Repeats(g, rank, 2)
  {
    PairCLike(g, rank);
    PairStructs(g, rank);
    PairMayRepeat(g, rank);
    PairNoCycle(g, rank);
    RepeatsIff(g, rank, 2);
  }

  lemma PairRanked(g: Graph, rank: seq<nat>)
    requires g == PairGraph() && rank == [0, 0, 2, 1, 0, 0, 3]
    ensures Ranked(g, rank)
  {
    assert forall i :: 0 <= i < |g| ==> LeadsDown(g[i], rank, rank[i]);
  }

  lemma PairCLike(g: Graph, rank: seq<nat>)
    requires g == PairGraph() && rank == [0, 0, 2, 1, 0, 0, 3]
    ensures Ranked(g, rank) && CLike(g, rank)
  {
    PairRanked(g, rank);
    forall i, c | 0 <= i < |g| && (g[i].Composite? || g[i].Array? || g[i].FuncProto?) && c in Children(g[i])
      ensures !IsFn(g, rank, c)
    {
      assert i == 3 || i == 4 || i == 5;
      assert c == 1 || c == 4 || c == 5 || c == 6;
    }
  }

  lemma PairStructs(g: Graph, rank: seq<nat>)
    requires g == PairGraph() && rank == [0, 0, 2, 1, 0, 0, 3] && Ranked(g, rank)
    ensures AllStructs(g, rank, 2) && OnWay(g, rank, 2, 5)
  {
    assert AllStructs(g, rank, 4) && AllStructs(g, rank, 5);
    assert AllStructs(g, rank, 3) && OnWay(g, rank, 3, 5);
  }

  /** All that struct B reaches. */
  ghost predicate FromB(n: Node) {
    n.id == 1 || n == Node(5, false)
  }

  /** All that struct A reaches in one or more links. */
  ghost predicate FromA(n: Node) {
    n.id == 6 || (n.tp && 1 <= n.id <= 5)
  }

  lemma PairMayRepeat(g: Graph, rank: seq<nat>)
    requires g == PairGraph() && rank == [0, 0, 2, 1, 0, 0, 3] && Ranked(g, rank) && OnWay(g, rank, 2, 5)
    ensures MayRepeat(g, rank, 2)
  {
    var p := [Node(2, false), Node(3, false), Node(4, false), Node(6, false), Node(2, true)];
    assert Path(g, rank, true, p);
    PathReaches(g, rank, true, p, 1);
    assert !NeededBy(g, rank, 5, 4) by { PairNotNeeded(g, rank, 4); }
    assert !NeededBy(g, rank, 5, 6) by { PairNotNeeded(g, rank, 6); }
    assert Escapes(g, rank, 2, 5, p);
  }

  lemma PairNotNeeded(g: Graph, rank: seq<nat>, k: Id)
    requires g == PairGraph() && rank == [0, 0, 2, 1, 0, 0, 3] && Ranked(g, rank) && (k == 4 || k == 6)
    ensures !NeededBy(g, rank, 5, k)
  {
    if NeededBy(g, rank, 5, k) {
      var b: bool :| Reaches(g, rank, true, Node(5, false), Node(k, b), 0);
      var R := iset n: Node | FromB(n);
      PairFromB(g, rank, R);
      ReachedWithin(g, rank, R, Node(5, false), Node(k, b));
    }
  }

  lemma PairFromB(g: Graph, rank: seq<nat>, R: iset<Node>)
    requires g == PairGraph() && rank == [0, 0, 2, 1, 0, 0, 3] && Ranked(g, rank)
    requires R == iset n: Node | FromB(n)
    ensures ClosedSet(g, rank, R)
  {
    forall a: Node, b: Node | a in R && Step(g, rank, true, a, b) ensures b in R {
      assert FromB(a);
      assert a.id == 1 || a.id == 5;
    }
  }

  lemma PairFromA(g: Graph, rank: seq<nat>, R: iset<Node>)
    requires g == PairGraph() && rank == [0, 0, 2, 1, 0, 0, 3] && Ranked(g, rank)
    requires R == iset n: Node | FromA(n)
    ensures ClosedSet(g, rank, R)
  {
    forall a: Node, b: Node | a in R && Step(g, rank, true, a, b) ensures b in R {
      assert FromA(a);
      PairStep(g, rank, a, b);
    }
  }

  lemma PairStep(g: Graph, rank: seq<nat>, a: Node, b: Node)
    requires g == PairGraph() && rank == [0, 0, 2, 1, 0, 0, 3] && Ranked(g, rank)
    requires FromA(a) && Step(g, rank, true, a, b)
    ensures FromA(b)
  {
    if a.id == 6 {
      assert b == Node(2, true);
    } else if a.id == 2 {
      assert b == Node(3, true);
    } else {
      assert a.id == 3;
    }
  }

  lemma PairNoCycle(g: Graph, rank: seq<nat>)
    requires g == PairGraph() && rank == [0, 0, 2, 1, 0, 0, 3] && Ranked(g, rank)
    ensures !StrongCycle(g, rank, true, Node(2, false))
  {
    forall a: Node, b: Node |
      && a.id < |g| && g[a.id].Composite? && a.id == b.id
      && !Weak(g, a.id, a.tp) && !Weak(g, b.id, b.tp)
      && Reaches(g, rank, true, Node(2, false), a, 0)
      ensures !Reaches(g, rank, true, a, b, 1)
    {
      if Reaches(g, rank, true, a, b, 1) { PairNoReturn(g, rank, a, b); }
    }
  }

  lemma PairNoReturn(g: Graph, rank: seq<nat>, a: Node, b: Node)
    requires g == PairGraph() && rank == [0, 0, 2, 1, 0, 0, 3] && Ranked(g, rank)
    requires a.id == 4 || a.id == 5
    requires a.id == b.id && !a.tp && !b.tp
    ensures !Reaches(g, rank, true, a, b, 1)
  {
    if Reaches(g, rank, true, a, b, 1) {
      var c := ReachedNext(g, rank, a, b);
      if a.id == 5 {
        var R := iset n: Node | n.id == 1;
        ReachedWithin(g, rank, R, c, b);
      } else {
        var R := iset n: Node | FromA(n);
        PairFromA(g, rank, R);
        ReachedWithin(g, rank, R, c, b);
      }
    }
  }

  /** What is reached stays within a closed set. */
  lemma ReachedWithin(g: Graph, rank: seq<nat>, R: iset<Node>, from: Node, to: Node)
    requires Ranked(g, rank) && ClosedSet(g, rank, R) && from in R && Reaches(g, rank, true, from, to, 0)
    ensures to in R
  {
    var p: seq<Node> :| Path(g, rank, true, p) && |p| > 0 && p[0] == from && p[|p| - 1] == to;
    PathWithin(g, rank, R, p);
  }

  lemma {:induction false} PathWithin(g: Graph, rank: seq<nat>, R: iset<Node>, p: seq<Node>)
    requires Ranked(g, rank) && ClosedSet(g, rank, R) && Path(g, rank, true, p) && p[0] in R
    ensures p[|p| - 1] in R
    decreases |p|
  {
    if |p| > 1 {
      PathTail(g, rank, true, p);
      PathWithin(g, rank, R, p[1..]);
    }
  }

  lemma ReachedNext(g: Graph, rank: seq<nat>, from: Node, to: Node) returns (next: Node)
    requires Ranked(g, rank) && Reaches(g, rank, true, from, to, 1)
    ensures Step(g, rank, true, from, next) && Reaches(g, rank, true, next, to, 0)
  {
    var p: seq<Node> :| Path(g, rank, true, p) && |p| > 1 && p[0] == from && p[|p| - 1] == to;
    PathTail(g, rank, true, p);
    next := p[1];
    PathReaches(g, rank, true, p[1..], 0);
  }

  // ----- A typedef ordered early hides a strong cycle -----

  /** typedef void fn(struct A); struct A { struct A a; }; struct B { fn *cb; }; */
  function HiddenGraph(): Graph {
    [Void, Typedef(2, false), FuncProto(0, [3]), Composite(false, true, [3]), Composite(false, true, [5]), Ptr(1)]
  }

  /** After a request for struct B, which has ordered the typedef behind its pointer, a
      request for the typedef succeeds; a fresh dumper refuses it. */
  lemma CycleMayHide(g: Graph, rank: seq<nat>)
    requires g == HiddenGraph() && rank == [0, 2, 1, 0, 0, 3]
    ensures Ranked(g, rank) && CLike(g, rank) && Valid(g, rank, Fresh(g))
    ensures StrongCycle(g, rank, true, Node(1, false))
    ensures var (d, r) := Dump(g, rank, Fresh(g), 4);
            r == 0 && Valid(g, rank, d) && Dump(g, rank, d, 1).1 == 0
    ensures Dump(g, rank, Fresh(g), 1).1 == ELOOP
  {
    HiddenCLike(g, rank);
    HiddenCycle(g, rank);
    FreshLoopReportedIff(g, rank, 1);
    var s0 := Fresh(g).order;
    assert s0 == State([Ordered, NotOrdered, NotOrdered, NotOrdered, NotOrdered, NotOrdered], [], []);
    HiddenStruct(g, rank, s0);
    var (d, r) := Dump(g, rank, Fresh(g), 4);
    DumpKeepsValid(g, rank, Fresh(g), 4, d, r);
    LoopReportedIff(g, rank, d, 1);
    DumpKeepsValid(g, rank, d, 1, Dump(g, rank, d, 1).0, Dump(g, rank, d, 1).1);
  }

  lemma HiddenRanked(g: Graph, rank: seq<nat>)
    requires g == HiddenGraph() && rank == [0, 2, 1, 0, 0, 3]
    ensures Ranked(g, rank)
  {
    assert forall i :: 0 <= i < |g| ==> LeadsDown(g[i], rank, rank[i]);
  }

  lemma HiddenCLike(g: Graph, rank: seq<nat>)
    requires g == HiddenGraph() && rank == [0, 2, 1, 0, 0, 3]
    ensures Ranked(g, rank) && CLike(g, rank)
  {
    HiddenRanked(g, rank);
    forall i, c | 0 <= i < |g| && (g[i].Composite? || g[i].Array? || g[i].FuncProto?) && c in Children(g[i])
      ensures !IsFn(g, rank, c)
    {
      assert i == 2 || i == 3 || i == 4;
      assert c == 0 || c == 3 || c == 5;
    }
  }

  lemma HiddenCycle(g: Graph, rank: seq<nat>)
    requires g == HiddenGraph() && rank == [0, 2, 1, 0, 0, 3] && Ranked(g, rank)
    ensures StrongCycle(g, rank, true, Node(1, false))
  {
    var a := Node(3, false);
    var p, q := [Node(1, false), Node(2, false), a], [a, a];
    assert Path(g, rank, true, p) && p[0] == Node(1, false) && p[|p| - 1] == a;
    assert Path(g, rank, true, q) && q[0] == a && q[|q| - 1] == a;
    assert Reaches(g, rank, true, Node(1, false), a, 0);
    assert Reaches(g, rank, true, a, a, 1);
  }

  /** Ordering struct B orders the typedef, to which the prototype's `void` counts as
      ordered. */
  lemma HiddenStruct(g: Graph, rank: seq<nat>, s0: State)
    requires g == HiddenGraph() && rank == [0, 2, 1, 0, 0, 3] && Ranked(g, rank)
    requires s0 == State([Ordered, NotOrdered, NotOrdered, NotOrdered, NotOrdered, NotOrdered], [], [])
    ensures var (s, r) := Order(g, rank, s0, 4, false);
            r == 1 && s.marks[1].Ordered?
  {
    var s1 := State([Ordered, NotOrdered, NotOrdered, NotOrdered, Ordering, NotOrdered], [], []);
    assert s0.marks[4 := Ordering] == s1.marks;
    var s2 := State([Ordered, Ordered, NotOrdered, NotOrdered, Ordering, NotOrdered], [1], [1]);
    assert Finish(g, s1, 1) == s2;
    HiddenProto(g, rank, s1);
    assert Order(g, rank, s1, 1, true) == (s2, 1);
    var s3 := Finish(g, s2, 5);
    assert Order(g, rank, s1, 5, false) == (s3, 1);
    assert OrderEach(g, rank, s3, [], false, |g| + 1) == (s3, 0);
    assert OrderEach(g, rank, s1, [5], false, |g| + 1) == (s3, 1);
  }

  lemma HiddenProto(g: Graph, rank: seq<nat>, s1: State)
    requires g == HiddenGraph() && rank == [0, 2, 1, 0, 0, 3] && Ranked(g, rank)
    requires s1.marks == [Ordered, NotOrdered, NotOrdered, NotOrdered, Ordering, NotOrdered]
    ensures Order(g, rank, s1, 2, true) == (s1, 1)
  {
    assert Order(g, rank, s1, 0, true) == (s1, 1);
    assert Order(g, rank, s1, 3, true) == (s1, 0);
    assert OrderEach(g, rank, s1, [], true, 1) == (s1, 0);
    assert OrderEach(g, rank, s1, [3], true, 1) == (s1, 0);
  }
}
