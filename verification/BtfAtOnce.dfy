/** Function typedefs that the first request of a new dumper already queues twice. */
module BtfAtOnce {
  import opened BtfGraph
  import opened BtfOrder
  import opened BtfRepeats
  import opened BtfFunctions
  import opened BtfCut
  import opened BtfDump
  import opened BtfLoops
  import opened BtfTwice
  import opened BtfWitness

  /** Through typedefs, modifiers and arrays the type ends in a scalar or a pointer. */
  ghost predicate EndsPlain(g: Graph, rank: seq<nat>, id: Id)
    requires Ranked(g, rank) && id < |g|
    decreases rank[id]
  {
    match g[id]
    case Array(e, _) => EndsPlain(g, rank, e)
    case Mod(t) => EndsPlain(g, rank, t)
    case Typedef(t, _) => EndsPlain(g, rank, t)
    case _ => Plain(g, id)
  }

  // ----- The second visit to the return type -----

  /** Visiting such a type again changes nothing. */
  lemma {:induction false} AgainNothing(g: Graph, rank: seq<nat>, s: State, id: Id, s1: State, r: int)
    requires Ranked(g, rank) && id < |g| && MarksOk(g, s) && EndsPlain(g, rank, id)
    requires (s1, r) == Order(g, rank, s, id, false) && r >= 0
    ensures Order(g, rank, s1, id, false) == (s1, 1)
    decreases rank[id]
  {
    OrderKeepsMarks(g, rank, s, id, false, s1, r);
    if s.marks[id].NotOrdered? {
      match g[id]
      case Array(e, _) => AgainNothing(g, rank, s, e, s1, r);
      case Mod(t) => AgainNothing(g, rank, s, t, s1, r);
      case _ =>
    }
  }

  /** A visit to an unordered function type does what it does after a visit to its return
      type alone. */
  lemma {:induction false} ReturnFirst(g: Graph, rank: seq<nat>, s: State, y: Id, ret: Id, s1: State, r1: int)
    requires Ranked(g, rank) && y < |g| && MarksOk(g, s) && IsFn(g, rank, y)
    requires ret == g[Proto(g, rank, y)].ret && EndsPlain(g, rank, ret)
    requires (s1, r1) == Order(g, rank, s, ret, false) && FnUnordered(g, rank, s, y)
    requires FnUnordered(g, rank, s1, y) && Order(g, rank, s, y, false).1 >= 0
    ensures Order(g, rank, s1, y, false).0 == Order(g, rank, s, y, false).0
    ensures Order(g, rank, s1, y, false).1 >= 0
    decreases rank[y]
  {
    match g[y]
    case Mod(t) => ReturnFirst(g, rank, s, t, ret, s1, r1);
    case Typedef(t, _) => ReturnFirst(g, rank, s, t, ret, s1, r1);
    case FuncProto(_, _) => AgainNothing(g, rank, s, ret, s1, r1);
  }

  lemma {:induction false} ReturnSucceeds(g: Graph, rank: seq<nat>, s: State, y: Id, ret: Id)
    requires Ranked(g, rank) && y < |g| == |s.marks| && IsFn(g, rank, y) && ret == g[Proto(g, rank, y)].ret
    requires ret < |g| && FnUnordered(g, rank, s, y) && Order(g, rank, s, y, false).1 >= 0
    ensures Order(g, rank, s, ret, false).1 >= 0
    decreases rank[y]
  {
    match g[y]
    case Mod(t) => ReturnSucceeds(g, rank, s, t, ret);
    case Typedef(t, _) => ReturnSucceeds(g, rank, s, t, ret);
    case FuncProto(_, _) =>
  }

  // ----- What the visit to the return type finishes -----

  lemma {:induction false} EndFinished(g: Graph, rank: seq<nat>, F: set<Id>, id: Id) returns (c: Id)
    requires Ranked(g, rank) && id < |g| && EndsPlain(g, rank, id) && Done(g, rank, F, id, false)
    ensures c in F && OnWay(g, rank, id, c)
    decreases rank[id]
  {
    match g[id]
    case Array(e, _) => c := EndFinished(g, rank, F, e);
    case Mod(t) => c := EndFinished(g, rank, F, t);
    case _ => c := id;
  }

  /** The nodes on a weak way down from the return type. */
  ghost function Downward(g: Graph, rank: seq<nat>, ret: Id): iset<Node>
    requires Ranked(g, rank) && ret < |g|
  {
    iset n: Node |
      && n.id < |g| && rank[n.id] <= rank[ret]
      && (WeakOnly(g, rank, n.id, n.tp) || (EndsPlain(g, rank, n.id) && WeakOnly(g, rank, n.id, true)))
  }

  lemma DownwardStep(g: Graph, rank: seq<nat>, ret: Id, a: Node, b: Node)
    requires Ranked(g, rank) && ret < |g| && a in Downward(g, rank, ret) && Step(g, rank, true, a, b)
    ensures b in Downward(g, rank, ret)
  {
    ChildInRange(g, a.id, b.id);
    if WeakOnly(g, rank, a.id, a.tp) { WeakStep(g, rank, a, b); }
  }

  /** Nothing that could lead back up is finished. */
  ghost predicate Low(g: Graph, rank: seq<nat>, ret: Id, fin: seq<Id>)
    requires Ranked(g, rank) && ret < |g|
  {
    forall y :: y in fin ==>
      && y < |g| && rank[y] <= rank[ret] && !g[y].Composite?
      && (g[y].Ptr? ==> WeakOnly(g, rank, y, false))
  }

  lemma ReturnLow(g: Graph, rank: seq<nat>, s: State, ret: Id, s1: State)
    requires Ranked(g, rank) && ret < |g| == |s.marks| && s.finished == []
    requires EndsPlain(g, rank, ret) && WeakOnly(g, rank, ret, true)
    requires s1 == Order(g, rank, s, ret, false).0
    ensures Low(g, rank, ret, s1.finished)
  {
    var R := Downward(g, rank, ret);
    forall a: Node, b: Node | a in R && Step(g, rank, true, a, b) ensures b in R {
      DownwardStep(g, rank, ret, a, b);
    }
    OrderNewIn(g, rank, s, ret, false, s1, R);
    forall k | 0 <= k < |s1.finished| ensures s1.finished[k] < |g| && Visited(g, R, s1.finished[k]) { }
    forall y | y in s1.finished
      ensures y < |g| && rank[y] <= rank[ret] && !g[y].Composite? && (g[y].Ptr? ==> WeakOnly(g, rank, y, false))
    {
      var k :| 0 <= k < |s1.finished| && s1.finished[k] == y;
      assert Visited(g, R, s1.finished[k]);
    }
  }

  lemma LowLeavesLoop(g: Graph, rank: seq<nat>, s: State, x: Id, ret: Id) returns (p: seq<Node>)
    requires Ranked(g, rank) && CLike(g, rank) && Inv(g, rank, s) && x < |g| && LoopingFn(g, rank, x)
    requires ret < |g| && rank[ret] < rank[Proto(g, rank, x)] && Low(g, rank, ret, s.finished)
    ensures Path(g, rank, true, p) && |p| > 1 && p[0] == Node(x, false) && p[|p| - 1] == Node(x, true)
    ensures Avoids(p, s.finished) && ChainClear(g, rank, x, s.finished)
  {
    p := LoopPath(g, rank, x);
    forall i | 0 <= i < |p| - 1 && (g[p[i].id].Composite? || g[p[i].id].Ptr?) ensures p[i].id !in s.finished {
      if p[i].id in s.finished { PlainLeadsDown(g, rank, p, i, p[i].id); }
    }
    PathClear(g, rank, s, x, p);
  }

  // ----- One request -----

  /** The state after a visit to the return type alone. */
  ghost predicate ReturnVisited(g: Graph, rank: seq<nat>, s: State, x: Id, ret: Id)
    requires Ranked(g, rank) && x < |g| && IsFn(g, rank, x)
  {
    && Inv(g, rank, s) && (forall i :: 0 <= i < |g| ==> !s.marks[i].Ordering?)
    && ret == g[Proto(g, rank, x)].ret && ret < |g| && EndsPlain(g, rank, ret)
    && rank[ret] < rank[Proto(g, rank, x)]
    && Low(g, rank, ret, s.finished) && Done(g, rank, Elems(s.finished), ret, false)
  }

  lemma {:induction false} WeakReturn(g: Graph, rank: seq<nat>, y: Id, ret: Id)
    requires Ranked(g, rank) && y < |g| && IsFn(g, rank, y) && WeakOnly(g, rank, y, true)
    requires ret == g[Proto(g, rank, y)].ret && ret < |g|
    ensures WeakOnly(g, rank, ret, true)
    decreases rank[y]
  {
    match g[y]
    case Mod(t) => WeakReturn(g, rank, t, ret);
    case Typedef(t, _) => WeakReturn(g, rank, t, ret);
    case FuncProto(_, _) =>
  }

  lemma VisitReturn(g: Graph, rank: seq<nat>, s: State, x: Id, t: Id, ret: Id) returns (s1: State, r1: int)
    requires Ranked(g, rank) && Inv(g, rank, s) && s.finished == [] && x < |g| && IsFn(g, rank, x)
    requires (forall i :: 0 <= i < |g| ==> !s.marks[i].Ordering?) && g[x].Typedef? && t == g[x].target
    requires ret == g[Proto(g, rank, x)].ret && ret < |g| && EndsPlain(g, rank, ret) && WeakOnly(g, rank, t, true)
    requires FnUnordered(g, rank, s, t) && Order(g, rank, s, t, false).1 >= 0
    ensures (s1, r1) == Order(g, rank, s, ret, false) && ReturnVisited(g, rank, s1, x, ret)
  {
    ReturnSucceeds(g, rank, s, t, ret);
    s1, r1 := Order(g, rank, s, ret, false).0, Order(g, rank, s, ret, false).1;
    OrderSound(g, rank, s, ret, false, s1, r1);
    WeakReturn(g, rank, t, ret);
    ReturnLow(g, rank, s, ret, s1);
    assert LeadsDown(g[Proto(g, rank, x)], rank, rank[Proto(g, rank, x)]);
  }

  /** After a visit to the return type, ordering the target finishes the typedef. */
  lemma BelowAfterReturn(
    g: Graph, rank: seq<nat>, s1: State, x: Id, t: Id, ret: Id, p: seq<Node>, s': State, r: int)
    requires Ranked(g, rank) && CLike(g, rank) && x < |g| && g[x].Typedef? && IsFn(g, rank, x)
    requires ReturnVisited(g, rank, s1, x, ret) && t == g[x].target
    requires Path(g, rank, true, p) && |p| > 1 && p[0] == Node(x, false) && p[|p| - 1] == Node(x, true)
    requires Avoids(p, s1.finished) && FnUnordered(g, rank, s1, x)
    requires (s', r) == Order(g, rank, s1, t, false) && r >= 0
    ensures x in s'.finished
  {
    var F, h := Elems(s1.finished), Rest(g, rank, s1);
    var c := EndFinished(g, rank, F, ret);
    PartOnWay(g, rank, t, ret);
    WayThrough(g, rank, t, ret, c);
    FinishedOnWay(g, h, rank, F, t, true, c);
    PathAvoids(g, h, rank, F, p);
    PathReaches(h, rank, true, p, 1);
    FinishedBelowIffRest(g, rank, s1, h, x, false, t, s', r);
  }

  lemma FinishesBelow(g: Graph, rank: seq<nat>, s: State, x: Id, t: Id, ret: Id)
    requires Ranked(g, rank) && CLike(g, rank) && Inv(g, rank, s) && s.finished == []
    requires x < |g| && LoopingFn(g, rank, x) && t == g[x].target
    requires forall i :: 0 <= i < |g| ==> !s.marks[i].Ordering?
    requires ret == g[Proto(g, rank, x)].ret && ret < |g| && EndsPlain(g, rank, ret) && WeakOnly(g, rank, t, true)
    requires FnUnordered(g, rank, s, x) && Order(g, rank, s, t, false).1 >= 0
    ensures x in Order(g, rank, s, t, false).0.finished
  {
    var s1, r1 := VisitReturn(g, rank, s, x, t, ret);
    var p := LowLeavesLoop(g, rank, s1, x, ret);
    ChainUnordered(g, rank, s1, x);
    ReturnFirst(g, rank, s, t, ret, s1, r1);
    var (s', r) := Order(g, rank, s1, t, false);
    BelowAfterReturn(g, rank, s1, x, t, ret, p, s', r);
  }

  lemma FreshSucceeds(g: Graph, rank: seq<nat>, x: Id, t: Id)
    requires Ranked(g, rank) && CLike(g, rank) && x < |g| && g[x].Typedef? && t == g[x].target
    requires !StrongCycle(g, rank, true, Node(x, false)) && Valid(g, rank, Fresh(g))
    ensures Dump(g, rank, Fresh(g), x).1 == 0 && Order(g, rank, Fresh(g).order, t, false).1 >= 0
  {
    var d := Fresh(g);
    LoopReportedIff(g, rank, d, x);
    var (d', r) := Dump(g, rank, d, x);
    DumpKeepsValid(g, rank, d, x, d', r);
    assert d.order.(queue := []) == d.order;
  }

  /** A typedef whose return type is a scalar or a pointer: the first request queues it
      twice. */
  lemma ReturnRepeats(g: Graph, rank: seq<nat>, x: Id, ret: Id, calls: seq<nat>)
    requires Ranked(g, rank) && CLike(g, rank) && x < |g| && LoopingFn(g, rank, x) && calls == [x]
    requires !StrongCycle(g, rank, true, Node(x, false)) && ret == g[Proto(g, rank, x)].ret && ret < |g|
    requires EndsPlain(g, rank, ret) && WeakOnly(g, rank, g[x].target, true)
    ensures Run(g, rank, calls).Finished? && Twice(Run(g, rank, calls).session.queued, x)
  {
    var d, t := Fresh(g), g[x].target;
    FreshRun(g, rank);
    FreshUnordered(g, rank, x);
    FreshSucceeds(g, rank, x, t);
    FinishesBelow(g, rank, d.order, x, t, ret);
    assert d.order.(queue := []) == d.order;
    CallTwiceIff(g, rank, d, x, t, Order(g, rank, d.order, t, false).0);
    RunNext(g, rank, [], x, d, calls);
    TwiceLater([], Dump(g, rank, d, x).0.order.queue, x);
  }

  /** Or one whose way down is strong anyway. */
  lemma AtOnceRepeats(g: Graph, rank: seq<nat>, x: Id, ret: Id, calls: seq<nat>)
    requires Ranked(g, rank) && CLike(g, rank) && x < |g| && LoopingFn(g, rank, x)
    requires !StrongCycle(g, rank, true, Node(x, false)) && ret == g[Proto(g, rank, x)].ret && ret < |g|
    requires EndsPlain(g, rank, ret) || !WeakOnly(g, rank, g[x].target, true)
    requires calls == [x]
    ensures Run(g, rank, calls).Finished? && Twice(Run(g, rank, calls).session.queued, x)
  {
    if WeakOnly(g, rank, g[x].target, true) {
      ReturnRepeats(g, rank, x, ret, calls);
    } else {
      StrongRepeats(g, rank, x, calls);
    }
  }
}
