/** Function types in the ordering pass: what a visit does to the parts of a prototype, and
    exactly when a function typedef is ordered twice in one visit. */
module BtfFunctions {
  import opened BtfGraph
  import opened BtfOrder
  import opened BtfRepeats

  /** The prototype that a function type leads to. */
  ghost function Proto(g: Graph, rank: seq<nat>, id: Id): (p: Id)
    requires Ranked(g, rank) && id < |g| && IsFn(g, rank, id)
    ensures p < |g| && g[p].FuncProto? && rank[p] <= rank[id]
    decreases rank[id]
  {
    match g[id]
    case Typedef(t, _) => Proto(g, rank, t)
    case Mod(t) => Proto(g, rank, t)
    case _ => id
  }

  /** No typedef on the way down to the prototype is ordered yet. */
  ghost predicate FnUnordered(g: Graph, rank: seq<nat>, s: State, id: Id)
    requires Ranked(g, rank) && id < |g| == |s.marks| && IsFn(g, rank, id)
    decreases rank[id]
  {
    && s.marks[id].NotOrdered?
    && match g[id]
       case Typedef(t, _) => FnUnordered(g, rank, s, t)
       case Mod(t) => FnUnordered(g, rank, s, t)
       case _ => true
  }

  /** Every part of the prototype has all it needs. */
  ghost predicate PartsDone(g: Graph, rank: seq<nat>, F: set<Id>, id: Id, tp: bool)
    requires Ranked(g, rank) && id < |g| && IsFn(g, rank, id)
  {
    forall c :: c in Children(g[Proto(g, rank, id)]) ==> c < |g| && Done(g, rank, F, c, tp)
  }

  lemma PartsMonotone(g: Graph, rank: seq<nat>, F: set<Id>, F': set<Id>, id: Id, tp: bool)
    requires Ranked(g, rank) && id < |g| && IsFn(g, rank, id) && F <= F' && PartsDone(g, rank, F, id, tp)
    ensures PartsDone(g, rank, F', id, tp)
  {
    forall c | c in Children(g[Proto(g, rank, id)]) ensures c < |g| && Done(g, rank, F', c, tp) {
      DoneMonotone(g, rank, F, F', c, tp);
    }
  }

  lemma ProtoPartsDone(g: Graph, rank: seq<nat>, F: set<Id>, id: Id, tp: bool)
    requires Ranked(g, rank) && id < |g| && g[id].FuncProto? && Done(g, rank, F, id, tp)
    ensures PartsDone(g, rank, F, id, tp)
  {
    var ps := g[id].params;
    forall c | c in Children(g[id]) ensures c < |g| && Done(g, rank, F, c, tp) {
      if c != g[id].ret {
        var i :| 0 <= i < |ps| && ps[i] == c;
      }
    }
  }

  /** A visit to an unordered function type orders what its parts need. */
  lemma {:induction false} VisitDoesParts(
    g: Graph, rank: seq<nat>, s: State, id: Id, tp: bool, s': State, r: int)
    requires Ranked(g, rank) && id < |g| && Inv(g, rank, s) && IsFn(g, rank, id) && FnUnordered(g, rank, s, id)
    requires (s', r) == Order(g, rank, s, id, tp) && r >= 0
    ensures PartsDone(g, rank, Elems(s'.finished), id, tp)
    decreases rank[id]
  {
    match g[id]
    case Mod(t) => VisitDoesParts(g, rank, s, t, tp, s', r);
    case Typedef(t, _) =>
      var (s1, r1) := Order(g, rank, s, t, tp);
      VisitDoesParts(g, rank, s, t, tp, s1, r1);
      PartsMonotone(g, rank, Elems(s1.finished), Elems(s'.finished), t, tp);
    case FuncProto(_, _) =>
      OrderSound(g, rank, s, id, tp, s', r);
      ProtoPartsDone(g, rank, Elems(s'.finished), id, tp);
  }

  /** Of the function types only typedefs are ever marked. */
  lemma OnlyTypedefsMarked(g: Graph, rank: seq<nat>, s: State, id: Id)
    requires Ranked(g, rank) && id < |g| && Inv(g, rank, s) && IsFn(g, rank, id) && !s.marks[id].NotOrdered?
    ensures g[id].Typedef? && s.marks[id].Ordered?
  {
    if s.marks[id].Ordered? {
      var k :| 0 <= k < |s.finished| && s.finished[k] == id;
      assert Ready(g, rank, Elems(s.finished[..k]), s.finished[k]);
    }
  }

  ghost predicate NewBelow(g: Graph, rank: seq<nat>, s: State, s': State, id: Id)
    requires Ranked(g, rank) && id < |g|
  {
    forall x :: x in s'.finished ==> x in s.finished || (x < |g| && rank[x] <= rank[id])
  }

  /** A visit to any other function type finds a typedef on the way down ordered: it does
      not fail and goes no further. */
  lemma {:induction false} VisitStops(g: Graph, rank: seq<nat>, s: State, id: Id, tp: bool, s': State, r: int)
    requires Ranked(g, rank) && id < |g| && Inv(g, rank, s) && IsFn(g, rank, id) && !FnUnordered(g, rank, s, id)
    requires (s', r) == Order(g, rank, s, id, tp)
    ensures r == 1 && NewBelow(g, rank, s, s', id)
    decreases rank[id]
  {
    if !s.marks[id].NotOrdered? {
      OnlyTypedefsMarked(g, rank, s, id);
    } else {
      match g[id]
      case Mod(t) => VisitStops(g, rank, s, t, tp, s', r);
      case Typedef(t, _) =>
        var (s1, r1) := Order(g, rank, s, t, tp);
        VisitStops(g, rank, s, t, tp, s1, r1);
    }
  }

  // ----- Literal paths from a function type -----

  /** Both lead to the same prototype. */
  ghost predicate InChain(g: Graph, rank: seq<nat>, x: Id, y: Id)
    requires Ranked(g, rank) && x < |g| && IsFn(g, rank, x)
  {
    y < |g| && IsFn(g, rank, y) && Proto(g, rank, y) == Proto(g, rank, x)
  }

  /** The path stays with the prototype of its first type up to there. */
  ghost predicate InChainUpTo(g: Graph, rank: seq<nat>, p: seq<Node>, i: nat)
    requires Ranked(g, rank) && 0 < i <= |p| && p[0].id < |g| && IsFn(g, rank, p[0].id)
  {
    forall k :: 0 <= k < i ==> InChain(g, rank, p[0].id, p[k].id)
  }

  lemma InChainCons(g: Graph, rank: seq<nat>, p: seq<Node>, q: seq<Node>, i: nat)
    requires Ranked(g, rank) && 0 < i < |p| && q == p[1..] && p[0].id < |g| && IsFn(g, rank, p[0].id)
    requires InChain(g, rank, p[0].id, q[0].id) && InChainUpTo(g, rank, q, i)
    ensures InChainUpTo(g, rank, p, i + 1)
  {
    forall k | 0 <= k < i + 1 ensures InChain(g, rank, p[0].id, p[k].id) {
      if k > 0 { assert InChain(g, rank, q[0].id, q[k - 1].id); }
    }
  }

  lemma ChainStep(g: Graph, rank: seq<nat>, a: Node, b: Node)
    requires Ranked(g, rank) && Step(g, rank, true, a, b) && IsFn(g, rank, a.id) && !g[a.id].FuncProto?
    ensures InChain(g, rank, a.id, b.id) && b.tp == a.tp && rank[b.id] < rank[a.id]
  {
  }

  /** A literal path that leaves the typedefs of a function type passes a part of its
      prototype. */
  lemma {:induction false} PathPassesPart(g: Graph, rank: seq<nat>, p: seq<Node>) returns (i: nat)
    requires Ranked(g, rank) && Path(g, rank, true, p) && |p| > 1 && IsFn(g, rank, p[0].id)
    requires var last := p[|p| - 1].id; !IsFn(g, rank, last) || rank[last] >= rank[p[0].id]
    ensures 0 < i < |p| && p[i].id in Children(g[Proto(g, rank, p[0].id)]) && p[i].tp == p[0].tp
    ensures InChainUpTo(g, rank, p, i)
    decreases rank[p[0].id]
  {
    PathTail(g, rank, true, p);
    if g[p[0].id].FuncProto? {
      i := 1;
    } else {
      ChainStep(g, rank, p[0], p[1]);
      var j := PathPassesPart(g, rank, p[1..]);
      InChainCons(g, rank, p, p[1..], j);
      i := j + 1;
    }
  }

  /** On a C-like graph what a function type reaches literally, one of its parts reaches
      along the links of the topological order. */
  lemma ReachedThroughPart(g: Graph, rank: seq<nat>, root: Node, to: Node) returns (c: Node)
    requires Ranked(g, rank) && CLike(g, rank) && root.id < |g| && IsFn(g, rank, root.id)
    requires Reaches(g, rank, true, root, to, 1) && to.id < |g|
    requires !IsFn(g, rank, to.id) || rank[to.id] >= rank[root.id]
    ensures c.id in Children(g[Proto(g, rank, root.id)]) && c.tp == root.tp
    ensures c.id < |g| && !IsFn(g, rank, c.id)
    ensures Reaches(g, rank, true, c, to, 0) && Reaches(g, rank, false, c, to, 0)
    ensures to.tp || !IsFn(g, rank, to.id)
  {
    var p: seq<Node> :| Path(g, rank, true, p) && |p| > 1 && p[0] == root && p[|p| - 1] == to;
    var i := PathPassesPart(g, rank, p);
    c := p[i];
    PartPath(g, rank, p[i..], p, i);
  }

  lemma PartPath(g: Graph, rank: seq<nat>, q: seq<Node>, p: seq<Node>, i: nat)
    requires Ranked(g, rank) && CLike(g, rank) && Path(g, rank, true, p) && i < |p| && q == p[i..]
    requires p[i].id < |g| && !IsFn(g, rank, p[i].id)
    ensures Reaches(g, rank, true, p[i], p[|p| - 1], 0) && Reaches(g, rank, false, p[i], p[|p| - 1], 0)
    ensures p[|p| - 1].tp || !IsFn(g, rank, p[|p| - 1].id)
  {
    PathSuffix(g, rank, true, p, i, q);
    PathReaches(g, rank, true, q, 0);
    LiteralPathIsPath(g, rank, q, |q| - 1);
    PathReaches(g, rank, false, q, 0);
  }

  // ----- Exactly when a visit fails -----

  /** If the parts of a function type have all they need, no strong cycle can be reached
      from it, along the literal flags. */
  lemma PartsRuleOutCycles(g: Graph, rank: seq<nat>, fin: seq<Id>, root: Node)
    requires Ranked(g, rank) && CLike(g, rank) && Topological(g, rank, fin) && CompositesOnce(g, fin)
    requires root.id < |g| && IsFn(g, rank, root.id) && PartsDone(g, rank, Elems(fin), root.id, root.tp)
    ensures !StrongCycle(g, rank, true, root)
  {
    forall a: Node, b: Node |
      && a.id < |g| && g[a.id].Composite? && a.id == b.id
      && !Weak(g, a.id, a.tp) && !Weak(g, b.id, b.tp)
      && Reaches(g, rank, true, root, a, 0)
      ensures !Reaches(g, rank, true, a, b, 1)
    {
      var p: seq<Node> :| Path(g, rank, true, p) && |p| > 0 && p[0] == root && p[|p| - 1] == a;
      assert Reaches(g, rank, true, root, a, 1);
      var c := ReachedThroughPart(g, rank, root, a);
      if Reaches(g, rank, true, a, b, 1) {
        assert StrongCycle(g, rank, true, c);
        LiteralCycleIsCycle(g, rank, c);
        DoneRulesOutCycles(g, rank, fin, c);
      }
    }
  }

  /** On a C-like graph, with nothing being ordered, a visit fails exactly if a strong cycle
      can be reached along the literal flags and no typedef on the way down from a function
      type is ordered already. */
  lemma VisitFailsIff(g: Graph, rank: seq<nat>, s: State, id: Id)
    requires Ranked(g, rank) && CLike(g, rank) && id < |g| && Inv(g, rank, s)
    requires forall i :: 0 <= i < |g| ==> !s.marks[i].Ordering?
    ensures Order(g, rank, s, id, false).1 < 0 <==>
              (IsFn(g, rank, id) ==> FnUnordered(g, rank, s, id)) && StrongCycle(g, rank, true, Node(id, false))
  {
    var (s', r) := Order(g, rank, s, id, false);
    if r < 0 {
      FailureMeansCycle(g, rank, s, id, false);
      if IsFn(g, rank, id) && !FnUnordered(g, rank, s, id) { VisitStops(g, rank, s, id, false, s', r); }
    } else {
      OrderSound(g, rank, s, id, false, s', r);
      if !IsFn(g, rank, id) {
        DoneRulesOutCycles(g, rank, s'.finished, Node(id, false));
        if StrongCycle(g, rank, true, Node(id, false)) { LiteralCycleIsCycle(g, rank, Node(id, false)); }
      } else if FnUnordered(g, rank, s, id) {
        VisitDoesParts(g, rank, s, id, false, s', r);
        PartsRuleOutCycles(g, rank, s'.finished, Node(id, false));
      }
    }
  }

  // ----- Exactly when a function typedef is finished twice -----

  /** If something on its way down is strong behind a pointer, a function typedef is finished
      while its target is ordered if and only if the visit gets down to the prototype and the
      typedef leads back to itself. */
  lemma FinishedBelowIff(g: Graph, rank: seq<nat>, s: State, id: Id, tp: bool, t: Id, s1: State, r: int)
    requires Ranked(g, rank) && CLike(g, rank) && id < |g| && Inv(g, rank, s)
    requires g[id].Typedef? && IsFn(g, rank, id) && t == g[id].target && id !in s.finished
    requires !WeakOnly(g, rank, t, true)
    requires (s1, r) == Order(g, rank, s, t, tp) && r >= 0
    ensures id in s1.finished <==>
              FnUnordered(g, rank, s, t) && Reaches(g, rank, true, Node(id, tp), Node(id, true), 1)
  {
    OrderSound(g, rank, s, t, tp, s1, r);
    if id in s1.finished {
      if !FnUnordered(g, rank, s, t) { VisitStops(g, rank, s, t, tp, s1, r); }
      var b := FinishedBelowLoops(g, rank, s, id, tp, s1);
      var c := ReachedThroughPart(g, rank, Node(id, tp), Node(id, b));
    }
    if FnUnordered(g, rank, s, t) && Reaches(g, rank, true, Node(id, tp), Node(id, true), 1) {
      VisitDoesParts(g, rank, s, t, tp, s1, r);
      var c := ReachedThroughPart(g, rank, Node(id, tp), Node(id, true));
      ReachedIsDone(g, rank, s1.finished, c, Node(id, true));
    }
  }
}
