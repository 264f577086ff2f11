/** Function typedefs that lead to structs only: with an escape, a run that queues them twice. */
module BtfEscape {
  import opened BtfGraph
  import opened BtfOrder
  import opened BtfRepeats
  import opened BtfFunctions
  import opened BtfCut
  import opened BtfDump
  import opened BtfLoops
  import opened BtfTwice

  // ----- The pointers to the typedef that do not lie on the path -----

  /** A pointer, not on the path, to the prototype of x or a typedef of it. */
  ghost predicate Entry(g: Graph, rank: seq<nat>, x: Id, p: seq<Node>, z: Id)
    requires Ranked(g, rank) && x < |g| && IsFn(g, rank, x)
  {
    && z < |g| && g[z].Ptr? && InChain(g, rank, x, g[z].target)
    && forall i :: 0 <= i < |p| ==> p[i].id != z
  }

  lemma {:induction false} ChainStructs(g: Graph, rank: seq<nat>, y: Id)
    requires Ranked(g, rank) && y < |g| && IsFn(g, rank, y)
    ensures AllStructs(g, rank, y) <==> AllStructs(g, rank, Proto(g, rank, y))
    decreases rank[y]
  {
    match g[y]
    case Typedef(t, _) => ChainStructs(g, rank, t);
    case Mod(t) => ChainStructs(g, rank, t);
    case _ =>
  }

  /** Requesting such a pointer finishes it and nothing else, as long as nothing but pointers
      is finished. */
  lemma EntryVisit(g: Graph, rank: seq<nat>, s: State, x: Id, p: seq<Node>, z: Id)
    requires Ranked(g, rank) && Inv(g, rank, s) && x < |g| && IsFn(g, rank, x) && AllStructs(g, rank, x)
    requires Entry(g, rank, x, p, z) && z !in s.finished
    requires forall y :: y in s.finished ==> y < |g| && g[y].Ptr?
    ensures Order(g, rank, s, z, false) == (Finish(g, s, z), 0)
  {
    var t := g[z].target;
    ChainStructs(g, rank, x);
    ChainStructs(g, rank, t);
    if StructIn(g, rank, Elems(s.finished), t) {
      var c := StructInWay(g, rank, Elems(s.finished), t);
    }
    QuietVisit(g, rank, s, t);
    assert s.marks[z].NotOrdered?;
  }

  lemma EntryRequest(g: Graph, rank: seq<nat>, x: Id, p: seq<Node>, calls0: seq<nat>, d0: Session, z: Id)
      returns (d: Session)
    requires Ranked(g, rank) && x < |g| && IsFn(g, rank, x) && AllStructs(g, rank, x)
    requires Run(g, rank, calls0) == Finished(d0) && Valid(g, rank, d0)
    requires Entry(g, rank, x, p, z) && z !in d0.order.finished
    requires forall y :: y in d0.order.finished ==> y < |g| && g[y].Ptr?
    ensures Run(g, rank, calls0 + [z]) == Finished(d) && Valid(g, rank, d)
    ensures d.order.finished == d0.order.finished + [z]
  {
    EntryVisit(g, rank, d0.order.(queue := []), x, p, z);
    d := Dump(g, rank, d0, z).0;
    RunNext(g, rank, calls0, z, d0, calls0 + [z]);
    DumpKeepsValid(g, rank, d0, z, d, 0);
  }

  /** Of the types below n, exactly the entries are finished. */
  ghost predicate OnlyEntries(g: Graph, rank: seq<nat>, x: Id, p: seq<Node>, n: nat, fin: seq<Id>)
    requires Ranked(g, rank) && x < |g| && IsFn(g, rank, x)
  {
    forall y: nat :: y in fin <==> y < n && Entry(g, rank, x, p, y)
  }

  lemma OnlyEntriesNext(g: Graph, rank: seq<nat>, x: Id, p: seq<Node>, n: nat, fin: seq<Id>)
    requires Ranked(g, rank) && x < |g| && IsFn(g, rank, x) && OnlyEntries(g, rank, x, p, n, fin)
    ensures OnlyEntries(g, rank, x, p, n + 1, if Entry(g, rank, x, p, n) then fin + [n] else fin)
    ensures n !in fin && forall y: nat :: y in fin ==> y < |g| && g[y].Ptr?
  {
  }

  lemma EntryNext(g: Graph, rank: seq<nat>, x: Id, p: seq<Node>, n: nat, calls0: seq<nat>, d0: Session)
      returns (calls: seq<nat>, d: Session)
    requires Ranked(g, rank) && x < |g| && IsFn(g, rank, x) && AllStructs(g, rank, x)
    requires Run(g, rank, calls0) == Finished(d0) && Valid(g, rank, d0)
    requires OnlyEntries(g, rank, x, p, n, d0.order.finished)
    ensures Run(g, rank, calls) == Finished(d) && Valid(g, rank, d)
    ensures OnlyEntries(g, rank, x, p, n + 1, d.order.finished)
  {
    OnlyEntriesNext(g, rank, x, p, n, d0.order.finished);
    if Entry(g, rank, x, p, n) {
      calls := calls0 + [n];
      d := EntryRequest(g, rank, x, p, calls0, d0, n);
    } else {
      calls, d := calls0, d0;
    }
  }

  /** Requesting all of them in turn. */
  lemma {:induction false} EntryRun(g: Graph, rank: seq<nat>, x: Id, p: seq<Node>, n: nat)
      returns (calls: seq<nat>, d: Session)
    requires Ranked(g, rank) && x < |g| && IsFn(g, rank, x) && AllStructs(g, rank, x)
    ensures Run(g, rank, calls) == Finished(d) && Valid(g, rank, d)
    ensures OnlyEntries(g, rank, x, p, n, d.order.finished)
  {
    if n == 0 {
      FreshRun(g, rank);
      calls, d := [], Fresh(g);
    } else {
      calls, d := EntryRun(g, rank, x, p, n - 1);
      calls, d := EntryNext(g, rank, x, p, n - 1, calls, d);
    }
  }

  // ----- The request for the part c -----

  /** What `c` can reach without getting into the chain of x. */
  ghost function Reached(g: Graph, rank: seq<nat>, x: Id, c: Id): iset<Node>
    requires Ranked(g, rank) && x < |g| && IsFn(g, rank, x)
  {
    iset n: Node | Reaches(g, rank, true, Node(c, false), n, 0) && !InChain(g, rank, x, n.id)
  }

  /** An entry that `c` needs is finished, so a way into the chain through it is cut. */
  lemma ReachedOutside(g: Graph, rank: seq<nat>, x: Id, c: Id, p: seq<Node>, a: Node, b: Node)
    requires Ranked(g, rank) && CLike(g, rank) && x < |g| && IsFn(g, rank, x) && Escapes(g, rank, x, c, p)
    requires a in Reached(g, rank, x, c) && Step(g, rank, true, a, b) && !Entry(g, rank, x, p, a.id)
    ensures !InChain(g, rank, x, b.id)
  {
    if InChain(g, rank, x, b.id) {
      ChainBack(g, rank, x, a, b);
      assert NeededBy(g, rank, c, a.id);
    }
  }

  lemma ReachedStep(g: Graph, h: Graph, rank: seq<nat>, F: set<Id>, x: Id, c: Id, p: seq<Node>, a: Node, b: Node)
    requires Ranked(g, rank) && CLike(g, rank) && x < |g| && IsFn(g, rank, x) && Escapes(g, rank, x, c, p)
    requires 0 !in F && h == Cut(g, F) && Ranked(h, rank)
    requires forall y :: y in F <==> Entry(g, rank, x, p, y)
    requires a in Reached(g, rank, x, c) && Step(h, rank, true, a, b)
    ensures b in Reached(g, rank, x, c)
  {
    assert a.id !in F && g[a.id] == h[a.id];
    assert Step(g, rank, true, a, b);
    ChildInRange(g, a.id, b.id);
    ReachesStep(g, rank, true, Node(c, false), a, b, 0);
    ReachedOutside(g, rank, x, c, p, a, b);
  }

  lemma ReachedClosed(g: Graph, h: Graph, rank: seq<nat>, F: set<Id>, x: Id, c: Id, p: seq<Node>)
    requires Ranked(g, rank) && CLike(g, rank) && x < |g| && IsFn(g, rank, x) && Escapes(g, rank, x, c, p)
    requires 0 !in F && h == Cut(g, F) && Ranked(h, rank)
    requires forall y :: y in F <==> Entry(g, rank, x, p, y)
    ensures ClosedSet(h, rank, Reached(g, rank, x, c)) && Node(c, false) in Reached(g, rank, x, c)
  {
    ReachesSelf(g, rank, true, Node(c, false));
    forall a: Node, b: Node | a in Reached(g, rank, x, c) && Step(h, rank, true, a, b)
      ensures b in Reached(g, rank, x, c)
    {
      ReachedStep(g, h, rank, F, x, c, p, a, b);
    }
  }

  /** What is finished when `c` has been requested: the entries, and what `c` reaches. */
  ghost predicate PartFinished(g: Graph, rank: seq<nat>, x: Id, c: Id, p: seq<Node>, fin: seq<Id>)
    requires Ranked(g, rank) && x < |g| && IsFn(g, rank, x)
  {
    forall y :: y in fin ==> y < |g| && (Entry(g, rank, x, p, y) || Visited(g, Reached(g, rank, x, c), y))
  }

  lemma PartVisit(g: Graph, rank: seq<nat>, s: State, x: Id, c: Id, p: seq<Node>, s': State, r: int)
    requires Ranked(g, rank) && CLike(g, rank) && Inv(g, rank, s)
    requires x < |g| && IsFn(g, rank, x) && Escapes(g, rank, x, c, p)
    requires forall y :: y in s.finished <==> Entry(g, rank, x, p, y)
    requires (s', r) == Order(g, rank, s, c, false)
    ensures PartFinished(g, rank, x, c, p, s'.finished)
  {
    var F, h, R := Elems(s.finished), Rest(g, rank, s), Reached(g, rank, x, c);
    ReachedClosed(g, h, rank, F, x, c, p);
    var (b, q) := Order(h, rank, s, c, false);
    CutOrder(g, h, rank, F, s, s, c, false, s', r, b, q);
    OrderNewIn(h, rank, s, c, false, b, R);
    forall y | y in s'.finished
      ensures y < |g| && (Entry(g, rank, x, p, y) || Visited(g, R, y))
    {
      var k :| 0 <= k < |s'.finished| && s'.finished[k] == y;
      if k >= |s.finished| {
        assert Visited(h, R, y);
        if y !in F { assert h[y] == g[y]; }
      } else {
        assert y in s.finished;
      }
    }
  }

  lemma PartLeavesCarriers(g: Graph, rank: seq<nat>, x: Id, c: Id, p: seq<Node>, fin: seq<Id>)
    requires Ranked(g, rank) && x < |g| && IsFn(g, rank, x) && Escapes(g, rank, x, c, p)
    requires PartFinished(g, rank, x, c, p, fin)
    ensures CarriersClear(g, p, fin)
    ensures ChainClear(g, rank, x, fin)
  {
    forall i | 0 <= i < |p| - 1 && (g[p[i].id].Composite? || g[p[i].id].Ptr?) ensures p[i].id !in fin {
      if p[i].id in fin {
        assert Visited(g, Reached(g, rank, x, c), p[i].id);
        assert NeededBy(g, rank, c, p[i].id);
      }
    }
  }

  lemma CycleStep(g: Graph, rank: seq<nat>, a: Node, b: Node)
    requires Ranked(g, rank) && Step(g, rank, true, a, b) && StrongCycle(g, rank, true, b)
    ensures StrongCycle(g, rank, true, a)
  {
    var m: Node, n: Node :|
      && m.id < |g| && g[m.id].Composite? && m.id == n.id
      && !Weak(g, m.id, m.tp) && !Weak(g, n.id, n.tp)
      && Reaches(g, rank, true, b, m, 0)
      && Reaches(g, rank, true, m, n, 1);
    var p: seq<Node> :| Path(g, rank, true, p) && |p| > 0 && p[0] == b && p[|p| - 1] == m;
    PathPrepend(g, rank, true, a, p, [a] + p);
    PathReaches(g, rank, true, [a] + p, 0);
  }

  /** A strong cycle below a part is one below the typedef. */
  lemma {:induction false} CycleAbove(g: Graph, rank: seq<nat>, id: Id, c: Id)
    requires Ranked(g, rank) && id < |g| && AllStructs(g, rank, id) && OnWay(g, rank, id, c)
    requires StrongCycle(g, rank, true, Node(c, false))
    ensures StrongCycle(g, rank, true, Node(id, false))
    decreases rank[id]
  {
    if id != c {
      var b := id;
      match g[id] {
        case Mod(t) => b := t;
        case Typedef(t, _) => b := t;
        case FuncProto(r, ps) =>
          if OnWay(g, rank, r, c) {
            b := r;
          } else {
            var i :| 0 <= i < |ps| && OnWay(g, rank, ps[i], c);
            b := ps[i];
          }
      }
      CycleAbove(g, rank, b, c);
      CycleStep(g, rank, Node(id, false), Node(b, false));
    }
  }

  lemma PartSucceeds(g: Graph, rank: seq<nat>, x: Id, c: Id, d: Session)
    requires Ranked(g, rank) && CLike(g, rank) && x < |g| && AllStructs(g, rank, x) && OnWay(g, rank, x, c)
    requires c < |g| && g[c].Composite? && !StrongCycle(g, rank, true, Node(x, false)) && Valid(g, rank, d)
    ensures DumpedWell(g, rank, d, c, Dump(g, rank, d, c).0, 0)
    ensures Dump(g, rank, d, c).1 == 0 && c in Dump(g, rank, d, c).0.order.finished
  {
    if StrongCycle(g, rank, true, Node(c, false)) { CycleAbove(g, rank, x, c); }
    LoopReportedIff(g, rank, d, c);
    var (d', r) := Dump(g, rank, d, c);
    DumpKeepsValid(g, rank, d, c, d', r);
  }

  lemma PartDump(g: Graph, rank: seq<nat>, x: Id, c: Id, p: seq<Node>, d: Session)
    requires Ranked(g, rank) && CLike(g, rank) && x < |g| && IsFn(g, rank, x) && Escapes(g, rank, x, c, p)
    requires Valid(g, rank, d) && OnlyEntries(g, rank, x, p, |g|, d.order.finished)
    requires Dump(g, rank, d, c).1 == 0
    ensures PartFinished(g, rank, x, c, p, Dump(g, rank, d, c).0.order.finished)
  {
    var s0 := d.order.(queue := []);
    var (s, r) := Order(g, rank, s0, c, false);
    PartVisit(g, rank, s0, x, c, p, s, r);
  }

  /** The request for the part, after those for the entries. */
  lemma PartRequest(g: Graph, rank: seq<nat>, x: Id, c: Id, p: seq<Node>, calls: seq<nat>, d: Session)
      returns (d': Session)
    requires Ranked(g, rank) && CLike(g, rank) && x < |g| && IsFn(g, rank, x) && AllStructs(g, rank, x)
    requires Escapes(g, rank, x, c, p) && !StrongCycle(g, rank, true, Node(x, false))
    requires Run(g, rank, calls) == Finished(d) && Valid(g, rank, d)
    requires OnlyEntries(g, rank, x, p, |g|, d.order.finished)
    ensures Run(g, rank, calls + [c]) == Finished(d') && Valid(g, rank, d')
    ensures c in d'.order.finished && PartFinished(g, rank, x, c, p, d'.order.finished)
  {
    PartSucceeds(g, rank, x, c, d);
    d' := Dump(g, rank, d, c).0;
    RunNext(g, rank, calls, c, d, calls + [c]);
    PartDump(g, rank, x, c, p, d);
  }

  lemma AllClear(g: Graph, rank: seq<nat>, s: State, x: Id, c: Id, p: seq<Node>)
    requires Ranked(g, rank) && CLike(g, rank) && Inv(g, rank, s)
    requires x < |g| && g[x].Typedef? && IsFn(g, rank, x) && Escapes(g, rank, x, c, p)
    requires PartFinished(g, rank, x, c, p, s.finished)
    ensures Avoids(p, s.finished) && ChainClear(g, rank, x, s.finished) && OnWay(g, rank, g[x].target, c)
  {
    PartLeavesCarriers(g, rank, x, c, p, s.finished);
    PathClear(g, rank, s, x, p);
  }

  /** With the entries finished, a request for the part and then one for the typedef. */
  lemma PartThenTypedef(g: Graph, rank: seq<nat>, x: Id, c: Id, p: seq<Node>, calls: seq<nat>, d: Session)
    requires Ranked(g, rank) && CLike(g, rank) && x < |g| && g[x].Typedef? && IsFn(g, rank, x)
    requires AllStructs(g, rank, x) && Escapes(g, rank, x, c, p) && !StrongCycle(g, rank, true, Node(x, false))
    requires Run(g, rank, calls) == Finished(d) && Valid(g, rank, d)
    requires OnlyEntries(g, rank, x, p, |g|, d.order.finished)
    ensures Repeats(g, rank, x)
  {
    var d' := PartRequest(g, rank, x, c, p, calls, d);
    AllClear(g, rank, d'.order, x, c, p);
    var calls1 := calls + [c];
    WayThenRepeats(g, rank, calls1, d', x, c, p, calls1 + [x]);
  }

  lemma EscapeRepeats(g: Graph, rank: seq<nat>, x: Id, c: Id, p: seq<Node>)
    requires Ranked(g, rank) && CLike(g, rank) && x < |g| && g[x].Typedef? && IsFn(g, rank, x)
    requires AllStructs(g, rank, x) && Escapes(g, rank, x, c, p) && !StrongCycle(g, rank, true, Node(x, false))
    ensures Repeats(g, rank, x)
  {
    var calls, d := EntryRun(g, rank, x, p, |g|);
    PartThenTypedef(g, rank, x, c, p, calls, d);
  }
}
