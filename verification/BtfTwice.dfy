/** Exactly when a function typedef is queued twice: by one call, and by some run. */
module BtfTwice {
  import opened BtfGraph
  import opened BtfOrder
  import opened BtfRepeats
  import opened BtfFunctions
  import opened BtfCut
  import opened BtfDump
  import opened BtfLoops

  ghost predicate Twice(queue: seq<Id>, x: Id) {
    exists i, j :: 0 <= i < j < |queue| && queue[i] == x && queue[j] == x
  }

  lemma {:induction false} QueueFrom(g: Graph, fin: seq<Id>, x: Id)
    requires x in QueueOf(g, fin)
    ensures x in fin
  {
    var m := |fin| - 1;
    if x in QueueOf(g, fin[..m]) { QueueFrom(g, fin[..m], x); }
  }

  lemma LastTwice(queue: seq<Id>, x: Id)
    ensures Twice(queue + [x], x) <==> x in queue
  {
    var q := queue + [x];
    if x in queue {
      var i :| 0 <= i < |queue| && queue[i] == x;
      assert q[i] == x && q[|queue|] == x;
    }
  }

  /** What a list of finished types adds to the queue, seen from one that was not in it. */
  lemma NewlyQueued(g: Graph, fin: seq<Id>, past: seq<Id>, fin': seq<Id>, queue: seq<Id>, x: Id)
    requires past == QueueOf(g, fin) && QueueOf(g, fin') == past + queue
    requires x < |g| && Queueable(g, x) && x !in fin
    ensures x in queue <==> x in fin'
  {
    if x in fin' { QueueHolds(g, fin', x); }
    if x in past { QueueFrom(g, fin, x); }
    if x in queue { QueueFrom(g, fin', x); }
  }

  /** A first request for a function typedef queues it twice if and only if ordering its
      target finishes it as well. */
  lemma CallTwiceIff(g: Graph, rank: seq<nat>, d: Session, id: nat, t: Id, s1: State)
    requires Ranked(g, rank) && Valid(g, rank, d) && id < |g| && g[id].Typedef? && IsFn(g, rank, id)
    requires t == g[id].target && id !in d.order.finished && Dump(g, rank, d, id).1 == 0
    requires s1 == Order(g, rank, d.order.(queue := []), t, false).0
    ensures Twice(Dump(g, rank, d, id).0.order.queue, id) <==> id in s1.finished
  {
    var s0 := d.order.(queue := []);
    CallQueues(g, rank, d.queued, s0, t, s1);
    NewlyQueued(g, d.order.finished, d.queued, s1.finished, s1.queue, id);
    LastTwice(s1.queue, id);
    assert s0.marks[id].NotOrdered?;
    assert Order(g, rank, s0, id, false).0 == Finish(g, s1, id);
  }

  /** In every reachable state: if something on the weak way down is finished, or strong
      anyway, then a first request for a function typedef queues it twice if and only if no
      typedef below it is ordered and it leads back to itself through unfinished types. */
  lemma QueuedTwiceIff(g: Graph, rank: seq<nat>, d: Session, h: Graph, id: nat, t: Id)
    requires Ranked(g, rank) && CLike(g, rank) && Valid(g, rank, d) && id < |g| && h == Rest(g, rank, d.order)
    requires g[id].Typedef? && IsFn(g, rank, id) && t == g[id].target && id !in d.order.finished
    requires !WeakOnly(h, rank, t, true) && Dump(g, rank, d, id).1 == 0
    ensures Twice(Dump(g, rank, d, id).0.order.queue, id) <==>
              FnUnordered(g, rank, d.order, t) && Reaches(h, rank, true, Node(id, false), Node(id, true), 1)
  {
    var s0 := d.order.(queue := []);
    var (s1, r1) := Order(g, rank, s0, t, false);
    assert s0.marks[id].NotOrdered?;
    FinishedBelowIffRest(g, rank, s0, h, id, false, t, s1, r1);
    SameMarksUnordered(g, rank, d.order, s0, t);
    CallTwiceIff(g, rank, d, id, t, s1);
  }

  /** A literal path can be followed with fewer flags: what is reached through a pointer
      may as well be reached without. */
  lemma {:induction false} FewerFlags(g: Graph, rank: seq<nat>, p: seq<Node>, tp: bool) returns (q: seq<Node>)
    requires Ranked(g, rank) && Path(g, rank, true, p) && (tp ==> p[0].tp)
    ensures Path(g, rank, true, q) && |q| == |p| && q[0] == Node(p[0].id, tp)
    ensures q[|q| - 1].id == p[|p| - 1].id
    decreases |p|
  {
    var a := Node(p[0].id, tp);
    if |p| == 1 {
      q := [a];
    } else {
      PathTail(g, rank, true, p);
      var tp' := match g[a.id]
        case Ptr(_) => true
        case Array(_, _) => false
        case Composite(_, _, _) => false
        case _ => tp;
      var rest := FewerFlags(g, rank, p[1..], tp');
      q := [a] + rest;
      PathPrepend(g, rank, true, a, rest, q);
    }
  }

  lemma LoopsFromBelow(g: Graph, rank: seq<nat>, x: Id)
    requires Ranked(g, rank) && CLike(g, rank) && x < |g| && LoopingFn(g, rank, x)
    ensures Reaches(g, rank, true, Node(x, false), Node(x, true), 1)
  {
    var a: bool, b: bool :| Reaches(g, rank, true, Node(x, a), Node(x, b), 1);
    var p: seq<Node> :| Path(g, rank, true, p) && |p| > 1 && p[0] == Node(x, a) && p[|p| - 1] == Node(x, b);
    var q := FewerFlags(g, rank, p, false);
    var to := q[|q| - 1];
    PathReaches(g, rank, true, q, 1);
    var c := ReachedThroughPart(g, rank, Node(x, false), to);
  }

  lemma LoopPath(g: Graph, rank: seq<nat>, x: Id) returns (p: seq<Node>)
    requires Ranked(g, rank) && CLike(g, rank) && x < |g| && LoopingFn(g, rank, x)
    ensures Path(g, rank, true, p) && |p| > 1 && p[0] == Node(x, false) && p[|p| - 1] == Node(x, true)
  {
    LoopsFromBelow(g, rank, x);
    p :| Path(g, rank, true, p) && |p| > 1 && p[0] == Node(x, false) && p[|p| - 1] == Node(x, true);
  }

  // ----- What stays unordered -----

  /** Nothing of the chain is finished. */
  ghost predicate ChainClear(g: Graph, rank: seq<nat>, x: Id, fin: seq<Id>)
    requires Ranked(g, rank) && x < |g| && IsFn(g, rank, x)
  {
    forall z :: InChain(g, rank, x, z) ==> z !in fin
  }

  lemma {:induction false} ChainUnordered(g: Graph, rank: seq<nat>, s: State, y: Id)
    requires Ranked(g, rank) && Inv(g, rank, s) && y < |g| && IsFn(g, rank, y)
    requires forall i :: 0 <= i < |g| ==> !s.marks[i].Ordering?
    requires ChainClear(g, rank, y, s.finished)
    ensures FnUnordered(g, rank, s, y)
    decreases rank[y]
  {
    assert InChain(g, rank, y, y);
    match g[y]
    case Typedef(t, _) =>
      forall z | InChain(g, rank, t, z) ensures z !in s.finished { assert InChain(g, rank, y, z); }
      ChainUnordered(g, rank, s, t);
    case Mod(t) =>
      forall z | InChain(g, rank, t, z) ensures z !in s.finished { assert InChain(g, rank, y, z); }
      ChainUnordered(g, rank, s, t);
    case _ =>
  }

  /** A link to a type of the chain starts in the chain, unless it is a pointer. */
  lemma ChainBack(g: Graph, rank: seq<nat>, x: Id, a: Node, b: Node)
    requires Ranked(g, rank) && CLike(g, rank) && x < |g| && IsFn(g, rank, x)
    requires Step(g, rank, true, a, b) && InChain(g, rank, x, b.id)
    ensures g[a.id].Ptr? || InChain(g, rank, x, a.id)
  {
  }

  /** No struct and no pointer of the path is finished. */
  ghost predicate CarriersClear(g: Graph, p: seq<Node>, fin: seq<Id>)
    requires forall i :: 0 <= i < |p| ==> p[i].id < |g|
  {
    forall i :: 0 <= i < |p| - 1 && (g[p[i].id].Composite? || g[p[i].id].Ptr?) ==> p[i].id !in fin
  }

  /** A path that is not in the chain leaves the function types before it gets there. */
  lemma {:induction false} LeavesFn(g: Graph, rank: seq<nat>, p: seq<Node>, i: nat) returns (m: nat)
    requires Ranked(g, rank) && CLike(g, rank) && Path(g, rank, true, p) && i < |p|
    requires IsFn(g, rank, p[|p| - 1].id) && !InChain(g, rank, p[|p| - 1].id, p[i].id)
    ensures i <= m < |p| - 1 && !IsFn(g, rank, p[m].id)
    decreases |p| - i
  {
    if IsFn(g, rank, p[i].id) {
      if InChain(g, rank, p[|p| - 1].id, p[i + 1].id) {
        ChainBack(g, rank, p[|p| - 1].id, p[i], p[i + 1]);
      }
      m := LeavesFn(g, rank, p, i + 1);
    } else {
      m := i;
    }
  }

  lemma IntoFn(g: Graph, rank: seq<nat>, a: Node, b: Node)
    requires Ranked(g, rank) && CLike(g, rank) && Step(g, rank, true, a, b) && b.id < |g|
    requires !IsFn(g, rank, a.id) && IsFn(g, rank, b.id)
    ensures g[a.id].Ptr?
  {
  }

  /** Outside the chain there is a struct or pointer ahead on the path. */
  lemma NextCarrier(g: Graph, rank: seq<nat>, p: seq<Node>, i: nat) returns (k: nat)
    requires Ranked(g, rank) && CLike(g, rank) && Path(g, rank, true, p) && i < |p| - 1
    requires IsFn(g, rank, p[|p| - 1].id) && !InChain(g, rank, p[|p| - 1].id, p[i].id)
    ensures i <= k < |p| - 1 && (g[p[k].id].Composite? || g[p[k].id].Ptr?)
  {
    var m := LeavesFn(g, rank, p, i);
    k := LastBeforeFn(g, rank, p, m, |p| - 1);
    IntoFn(g, rank, p[k], p[k + 1]);
  }

  /** A finished type of the path has the structs and pointers ahead finished as well. */
  lemma CarrierFinished(g: Graph, rank: seq<nat>, s: State, p: seq<Node>, i: nat, k: nat)
    requires Ranked(g, rank) && CLike(g, rank) && Inv(g, rank, s) && Path(g, rank, true, p)
    requires i <= k < |p| - 1 && p[i].id in s.finished && (p[i].tp || !IsFn(g, rank, p[i].id))
    requires g[p[k].id].Composite? || g[p[k].id].Ptr?
    ensures p[k].id in s.finished
  {
    var n :| 0 <= n < |s.finished| && s.finished[n] == p[i].id;
    assert Ready(g, rank, Elems(s.finished[..n]), s.finished[n]);
    DoneAlong(g, rank, s.finished, p, i, k);
    assert Step(g, rank, true, p[k], p[k + 1]);
  }

  lemma LaterNotFn(g: Graph, rank: seq<nat>, p: seq<Node>, j: nat, i: nat)
    requires Ranked(g, rank) && CLike(g, rank) && Path(g, rank, true, p) && j <= i < |p|
    requires p[j].tp || !IsFn(g, rank, p[j].id)
    ensures p[i].tp || !IsFn(g, rank, p[i].id)
  {
    PathSuffix(g, rank, true, p, j, p[j..]);
    LiteralPathIsPath(g, rank, p[j..], i - j);
  }

  /** So if the structs and pointers of a path back to x are clear, all of it is. */
  lemma PathClear(g: Graph, rank: seq<nat>, s: State, x: Id, p: seq<Node>)
    requires Ranked(g, rank) && CLike(g, rank) && Inv(g, rank, s) && x < |g| && IsFn(g, rank, x)
    requires Path(g, rank, true, p) && |p| > 1 && p[0].id == x == p[|p| - 1].id
    requires CarriersClear(g, p, s.finished) && ChainClear(g, rank, x, s.finished)
    ensures Avoids(p, s.finished)
  {
    forall i | 0 <= i < |p| - 1 ensures p[i].id !in s.finished {
      if p[i].id in s.finished {
        var j := PathPassesPart(g, rank, p);
        LaterNotFn(g, rank, p, j, i);
        var k := NextCarrier(g, rank, p, i);
        CarrierFinished(g, rank, s, p, i, k);
      }
    }
  }

  // ----- Runs -----

  lemma RunNext(g: Graph, rank: seq<nat>, calls: seq<nat>, id: nat, d: Session, calls': seq<nat>)
    requires Ranked(g, rank) && Run(g, rank, calls) == Finished(d) && calls' == calls + [id]
    requires Valid(g, rank, d) && Dump(g, rank, d, id).1 != ELOOP
    ensures Run(g, rank, calls') == Finished(Dump(g, rank, d, id).0)
  {
    assert calls'[..|calls|] == calls;
  }

  /** Some run queues the type twice. */
  ghost predicate Repeats(g: Graph, rank: seq<nat>, x: Id)
    requires Ranked(g, rank)
  {
    exists calls :: Run(g, rank, calls).Finished? && Twice(Run(g, rank, calls).session.queued, x)
  }

  ghost predicate Avoids(p: seq<Node>, fin: seq<Id>) {
    forall i :: 0 <= i < |p| - 1 ==> p[i].id !in fin
  }

  /** What it takes before a last request for x: a type on the way down is finished, or the
      way is strong anyway, and a path back to x is not. */
  lemma RequestRepeats(
    g: Graph, rank: seq<nat>, calls: seq<nat>, d: Session, x: Id, p: seq<Node>, calls': seq<nat>)
    requires calls' == calls + [x]
    requires Ranked(g, rank) && CLike(g, rank) && Run(g, rank, calls) == Finished(d) && Valid(g, rank, d)
    requires x < |g| && g[x].Typedef? && IsFn(g, rank, x) && FnUnordered(g, rank, d.order, x)
    requires !StrongCycle(g, rank, true, Node(x, false))
    requires Path(g, rank, true, p) && |p| > 1 && p[0] == Node(x, false) && p[|p| - 1] == Node(x, true)
    requires Avoids(p, d.order.finished)
    requires !WeakOnly(Rest(g, rank, d.order), rank, g[x].target, true)
    ensures Run(g, rank, calls').Finished? && Twice(Run(g, rank, calls').session.queued, x)
  {
    var h, t := Rest(g, rank, d.order), g[x].target;
    LoopReportedIff(g, rank, d, x);
    var (d', r) := Dump(g, rank, d, x);
    DumpKeepsValid(g, rank, d, x, d', r);
    PathAvoids(g, h, rank, Elems(d.order.finished), p);
    PathReaches(h, rank, true, p, 1);
    QueuedTwiceIff(g, rank, d, h, x, t);
    RunNext(g, rank, calls, x, d, calls');
    TwiceLater(d.queued, d'.order.queue, x);
  }

  lemma TwiceLater(a: seq<Id>, b: seq<Id>, x: Id)
    requires Twice(b, x)
    ensures Twice(a + b, x)
  {
    var i, j :| 0 <= i < j < |b| && b[i] == x && b[j] == x;
    assert (a + b)[|a| + i] == x && (a + b)[|a| + j] == x;
  }

  lemma FreshRun(g: Graph, rank: seq<nat>)
    requires Ranked(g, rank)
    ensures Valid(g, rank, Fresh(g)) && Run(g, rank, []) == Finished(Fresh(g))
    ensures Fresh(g).order.finished == []
  {
    FreshValid(g, rank);
  }

  /** With something on the way finished, but nothing of the chain and of the path. */
  lemma WayThenRepeats(
    g: Graph, rank: seq<nat>, calls: seq<nat>, d: Session, x: Id, c: Id, p: seq<Node>, calls': seq<nat>)
    requires calls' == calls + [x]
    requires Ranked(g, rank) && CLike(g, rank) && Run(g, rank, calls) == Finished(d) && Valid(g, rank, d)
    requires x < |g| && g[x].Typedef? && IsFn(g, rank, x) && !StrongCycle(g, rank, true, Node(x, false))
    requires Path(g, rank, true, p) && |p| > 1 && p[0] == Node(x, false) && p[|p| - 1] == Node(x, true)
    requires Avoids(p, d.order.finished) && c in d.order.finished && OnWay(g, rank, g[x].target, c)
    requires ChainClear(g, rank, x, d.order.finished)
    ensures Run(g, rank, calls').Finished? && Twice(Run(g, rank, calls').session.queued, x)
  {
    ChainUnordered(g, rank, d.order, x);
    FinishedOnWay(g, Rest(g, rank, d.order), rank, Elems(d.order.finished), g[x].target, true, c);
    RequestRepeats(g, rank, calls, d, x, p, calls');
  }
}
