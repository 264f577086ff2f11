/** Function typedefs that lead back to themselves, and not to structs only: a run that queues
    each of them twice. */
module BtfWitness {
  import opened BtfGraph
  import opened BtfOrder
  import opened BtfRepeats
  import opened BtfFunctions
  import opened BtfCut
  import opened BtfDump
  import opened BtfLoops
  import opened BtfTwice

  // ----- A way down that is strong anyway -----

  /** With nothing finished, nothing is cut. */
  lemma NothingCut(g: Graph, rank: seq<nat>, s: State)
    requires Ranked(g, rank) && Inv(g, rank, s) && s.finished == []
    ensures Rest(g, rank, s) == g
  {
  }

  lemma StrongRepeats(g: Graph, rank: seq<nat>, x: Id, calls: seq<nat>)
    requires Ranked(g, rank) && CLike(g, rank) && x < |g| && LoopingFn(g, rank, x) && calls == [x]
    requires !WeakOnly(g, rank, g[x].target, true) && !StrongCycle(g, rank, true, Node(x, false))
    ensures Run(g, rank, calls).Finished? && Twice(Run(g, rank, calls).session.queued, x)
  {
    FreshRun(g, rank);
    FreshUnordered(g, rank, x);
    NothingCut(g, rank, Fresh(g).order);
    var p := LoopPath(g, rank, x);
    RequestRepeats(g, rank, [], Fresh(g), x, p, calls);
  }

  // ----- A scalar or a pointer on the way down -----

  /** Requesting the deepest scalar or pointer on a weak way finishes it and nothing else. */
  lemma PlainVisit(g: Graph, rank: seq<nat>, s: State, c: Id)
    requires Ranked(g, rank) && c < |g| == |s.marks| && c != 0 && Deepest(g, rank, c) && WeakOnly(g, rank, c, false)
    requires forall i :: 0 < i < |g| ==> s.marks[i].NotOrdered?
    ensures Order(g, rank, s, c, false) == (Finish(g, s, c), 0)
  {
    if g[c].Ptr? {
      var t := g[c].target;
      forall d: nat | OnWay(g, rank, t, d) && d < |g| ensures s.marks[d].NotOrdered? && !Plain(g, d) {
        WayDown(g, rank, t, d);
        assert OnWay(g, rank, c, d);
        WayNotVoid(g, rank, t, true, d);
      }
      VisitLeavesNothing(g, rank, s, t, true);
    }
  }

  lemma {:induction false} WayNotVoid(g: Graph, rank: seq<nat>, id: Id, tp: bool, d: Id)
    requires Ranked(g, rank) && id < |g| && WeakOnly(g, rank, id, tp) && OnWay(g, rank, id, d)
    ensures d != 0
    decreases rank[id]
  {
    if id != d {
      match g[id]
      case Ptr(t) => WayNotVoid(g, rank, t, true, d);
      case Array(e, _) => WayNotVoid(g, rank, e, false, d);
      case Mod(t) => WayNotVoid(g, rank, t, tp, d);
      case Typedef(t, _) => WayNotVoid(g, rank, t, tp, d);
      case FuncProto(r, ps) =>
        if OnWay(g, rank, r, d) {
          WayNotVoid(g, rank, r, tp, d);
        } else {
          var i :| 0 <= i < |ps| && OnWay(g, rank, ps[i], d);
          WayNotVoid(g, rank, ps[i], tp, d);
        }
    }
  }

  /** The state of a new dumper after a request for such a type. */
  lemma PlainRequest(g: Graph, rank: seq<nat>, c: Id, calls: seq<nat>) returns (d: Session)
    requires Ranked(g, rank) && c < |g| && calls == [c] && Deepest(g, rank, c) && WeakOnly(g, rank, c, false)
    ensures Run(g, rank, calls) == Finished(d) && Valid(g, rank, d) && d.order.finished == [c]
  {
    FreshRun(g, rank);
    PlainVisit(g, rank, Fresh(g).order, c);
    d := Dump(g, rank, Fresh(g), c).0;
    RunNext(g, rank, [], c, Fresh(g), calls);
    DumpKeepsValid(g, rank, Fresh(g), c, d, 0);
  }

  lemma PlainLeadsDown(g: Graph, rank: seq<nat>, p: seq<Node>, i: nat, c: Id)
    requires Ranked(g, rank) && Path(g, rank, true, p) && i < |p| && p[i].id == c
    requires Plain(g, c) && WeakOnly(g, rank, c, false)
    ensures rank[p[|p| - 1].id] <= rank[c]
  {
    PathSuffix(g, rank, true, p, i, p[i..]);
    assert WeakOnly(g, rank, c, p[i].tp);
    WeakPathDown(g, rank, p[i..]);
  }

  /** Nothing of the chain and of a path back is finished then. */
  lemma PlainClear(g: Graph, rank: seq<nat>, x: Id, c: Id, p: seq<Node>)
    requires Ranked(g, rank) && x < |g| && IsFn(g, rank, x) && c < |g| && Plain(g, c)
    requires rank[c] < rank[x] && WeakOnly(g, rank, c, false)
    requires Path(g, rank, true, p) && |p| > 1 && p[|p| - 1].id == x
    ensures Avoids(p, [c]) && ChainClear(g, rank, x, [c])
  {
    forall i | 0 <= i < |p| - 1 ensures p[i].id != c {
      if p[i].id == c { PlainLeadsDown(g, rank, p, i, c); }
    }
  }

  lemma PlainPath(g: Graph, rank: seq<nat>, x: Id, c: Id) returns (p: seq<Node>)
    requires Ranked(g, rank) && CLike(g, rank) && x < |g| && LoopingFn(g, rank, x)
    requires c < |g| && OnWay(g, rank, g[x].target, c) && Plain(g, c) && WeakOnly(g, rank, c, false)
    ensures Path(g, rank, true, p) && |p| > 1 && p[0] == Node(x, false) && p[|p| - 1] == Node(x, true)
    ensures Avoids(p, [c]) && ChainClear(g, rank, x, [c])
  {
    WayDown(g, rank, g[x].target, c);
    p := LoopPath(g, rank, x);
    PlainClear(g, rank, x, c, p);
  }

  lemma PlainThenTypedef(g: Graph, rank: seq<nat>, x: Id, c: Id, p: seq<Node>, calls: seq<nat>)
    requires Ranked(g, rank) && CLike(g, rank) && x < |g| && g[x].Typedef? && IsFn(g, rank, x)
    requires !StrongCycle(g, rank, true, Node(x, false))
    requires c < |g| && OnWay(g, rank, g[x].target, c) && Deepest(g, rank, c) && calls == [c] + [x]
    requires Path(g, rank, true, p) && |p| > 1 && p[0] == Node(x, false) && p[|p| - 1] == Node(x, true)
    requires WeakOnly(g, rank, c, false) && Avoids(p, [c]) && ChainClear(g, rank, x, [c])
    ensures Run(g, rank, calls).Finished? && Twice(Run(g, rank, calls).session.queued, x)
  {
    var d := PlainRequest(g, rank, c, [c]);
    WayThenRepeats(g, rank, [c], d, x, c, p, calls);
  }

  /** A request for a scalar or weak pointer on the way down, then one for the typedef. */
  lemma PlainRepeats(g: Graph, rank: seq<nat>, x: Id, c: Id, calls: seq<nat>)
    requires Ranked(g, rank) && CLike(g, rank) && x < |g| && LoopingFn(g, rank, x)
    requires !StrongCycle(g, rank, true, Node(x, false)) && c < |g| && OnWay(g, rank, g[x].target, c)
    requires Deepest(g, rank, c) && WeakOnly(g, rank, c, false) && calls == [c, x]
    ensures Run(g, rank, calls).Finished? && Twice(Run(g, rank, calls).session.queued, x)
  {
    var p := PlainPath(g, rank, x, c);
    PlainThenTypedef(g, rank, x, c, p, calls);
  }

  lemma {:induction false} PartOnWay(g: Graph, rank: seq<nat>, y: Id, c: Id)
    requires Ranked(g, rank) && y < |g| && IsFn(g, rank, y) && c in Children(g[Proto(g, rank, y)])
    ensures OnWay(g, rank, y, c)
    decreases rank[y]
  {
    match g[y]
    case Mod(t) => PartOnWay(g, rank, t, c);
    case Typedef(t, _) => PartOnWay(g, rank, t, c);
    case FuncProto(r, ps) =>
      ChildInRange(g, y, c);
      assert OnWay(g, rank, c, c);
      if c != r { var i :| 0 <= i < |ps| && ps[i] == c; }
  }

  /** Any scalar among the parts of its prototype does. */
  lemma ScalarRepeats(g: Graph, rank: seq<nat>, x: Id, c: Id, calls: seq<nat>)
    requires Ranked(g, rank) && CLike(g, rank) && x < |g| && LoopingFn(g, rank, x)
    requires !StrongCycle(g, rank, true, Node(x, false)) && c in Children(g[Proto(g, rank, x)]) && c < |g|
    requires (g[c].Int? || g[c].Float? || g[c].Other?) && calls == [c, x]
    ensures Run(g, rank, calls).Finished? && Twice(Run(g, rank, calls).session.queued, x)
  {
    PartOnWay(g, rank, g[x].target, c);
    PlainRepeats(g, rank, x, c, calls);
  }

  lemma {:induction false} PlainOnWay(g: Graph, rank: seq<nat>, id: Id, tp: bool) returns (c: Id)
    requires Ranked(g, rank) && id < |g| && WeakOnly(g, rank, id, tp) && (!AllStructs(g, rank, id) || !tp)
    ensures c < |g| && OnWay(g, rank, id, c) && Plain(g, c)
    decreases rank[id]
  {
    match g[id]
    case Array(e, _) => c := PlainOnWay(g, rank, e, false);
    case Mod(t) => c := PlainOnWay(g, rank, t, tp);
    case Typedef(t, _) => c := PlainOnWay(g, rank, t, tp);
    case FuncProto(r, ps) =>
      if !AllStructs(g, rank, r) || !tp {
        c := PlainOnWay(g, rank, r, tp);
      } else {
        var i :| 0 <= i < |ps| && !AllStructs(g, rank, ps[i]);
        c := PlainOnWay(g, rank, ps[i], tp);
      }
    case _ => c := id;
  }

  lemma NotStructsRepeats(g: Graph, rank: seq<nat>, x: Id)
    requires Ranked(g, rank) && CLike(g, rank) && x < |g| && LoopingFn(g, rank, x) && !AllStructs(g, rank, x)
    requires !StrongCycle(g, rank, true, Node(x, false))
    ensures Repeats(g, rank, x)
  {
    var t := g[x].target;
    if WeakOnly(g, rank, t, true) {
      var e := PlainOnWay(g, rank, t, true);
      var c := DeepestFound(g, rank, e);
      WayThrough(g, rank, t, e, c);
      WayWeak(g, rank, t, true, c);
      PlainRepeats(g, rank, x, c, [c, x]);
    } else {
      StrongRepeats(g, rank, x, [x]);
    }
  }
}
