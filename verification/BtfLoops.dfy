/** Exactly when a call reports a type loop. */
module BtfLoops {
  import opened BtfGraph
  import opened BtfOrder
  import opened BtfFunctions
  import opened BtfDump

  // ----- Exactly when a call finds a type loop -----

  /** On a C-like graph, in every reachable state, a call is refused exactly if a strong
      cycle can be reached along the literal flags and, for a function type, no typedef on
      the way down to the prototype is ordered already. */
  lemma LoopReportedIff(g: Graph, rank: seq<nat>, d: Session, id: nat)
    requires Ranked(g, rank) && CLike(g, rank) && Valid(g, rank, d) && id < |g|
    ensures Dump(g, rank, d, id).1 == ELOOP <==>
              && (IsFn(g, rank, id) ==> FnUnordered(g, rank, d.order, id))
              && StrongCycle(g, rank, true, Node(id, false))
  {
    var s0 := d.order.(queue := []);
    VisitFailsIff(g, rank, s0, id);
    if IsFn(g, rank, id) { SameMarksUnordered(g, rank, d.order, s0, id); }
    if Order(g, rank, s0, id, false).1 < 0 { FailureMeansCycle(g, rank, s0, id, false); }
  }

  lemma {:induction false} SameMarksUnordered(g: Graph, rank: seq<nat>, s: State, s': State, id: Id)
    requires Ranked(g, rank) && id < |g| == |s.marks| && IsFn(g, rank, id) && s'.marks == s.marks
    ensures FnUnordered(g, rank, s, id) <==> FnUnordered(g, rank, s', id)
    decreases rank[id]
  {
    match g[id]
    case Typedef(t, _) => SameMarksUnordered(g, rank, s, s', t);
    case Mod(t) => SameMarksUnordered(g, rank, s, s', t);
    case _ =>
  }

  lemma {:induction false} FreshUnordered(g: Graph, rank: seq<nat>, id: Id)
    requires Ranked(g, rank) && id < |g| && IsFn(g, rank, id)
    ensures FnUnordered(g, rank, Fresh(g).order, id)
    decreases rank[id]
  {
    match g[id]
    case Typedef(t, _) => FreshUnordered(g, rank, t);
    case Mod(t) => FreshUnordered(g, rank, t);
    case _ =>
  }

  /** A fresh dumper refuses a type exactly if a strong cycle can be reached from it. */
  lemma FreshLoopReportedIff(g: Graph, rank: seq<nat>, id: nat)
    requires Ranked(g, rank) && CLike(g, rank) && id < |g|
    ensures Valid(g, rank, Fresh(g))
    ensures Dump(g, rank, Fresh(g), id).1 == ELOOP <==> StrongCycle(g, rank, true, Node(id, false))
  {
    FreshValid(g, rank);
    LoopReportedIff(g, rank, Fresh(g), id);
    if IsFn(g, rank, id) { FreshUnordered(g, rank, id); }
  }
}
