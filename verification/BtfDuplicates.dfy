/** Exactly which types some run queues twice, and exactly when no run does. */
module BtfDuplicates {
  import opened BtfGraph
  import opened BtfRepeats
  import opened BtfFunctions
  import opened BtfDump
  import opened BtfTwice
  import opened BtfWitness
  import opened BtfEscape

  lemma OnlyThoseRepeat(g: Graph, rank: seq<nat>, calls: seq<nat>, x: Id)
    requires Ranked(g, rank) && CLike(g, rank) && Run(g, rank, calls).Finished?
    requires Twice(Run(g, rank, calls).session.queued, x)
    ensures x < |g| && MayRepeat(g, rank, x)
  {
    var queue := Run(g, rank, calls).session.queued;
    var i, j :| 0 <= i < j < |queue| && queue[i] == x && queue[j] == x;
    RunQueuesOnce(g, rank, calls, i, j);
  }

  /** Apart from strong cycles: exactly the function typedefs that may repeat are queued twice
      by some run. */
  lemma RepeatsIff(g: Graph, rank: seq<nat>, x: Id)
    requires Ranked(g, rank) && CLike(g, rank) && x < |g|
    requires LoopingFn(g, rank, x) ==> !StrongCycle(g, rank, true, Node(x, false))
    ensures Repeats(g, rank, x) <==> MayRepeat(g, rank, x)
  {
    if Repeats(g, rank, x) {
      var calls :| Run(g, rank, calls).Finished? && Twice(Run(g, rank, calls).session.queued, x);
      OnlyThoseRepeat(g, rank, calls, x);
    }
    if MayRepeat(g, rank, x) {
      if AllStructs(g, rank, x) {
        var c, p :| Escapes(g, rank, x, c, p);
        EscapeRepeats(g, rank, x, c, p);
      } else {
        NotStructsRepeats(g, rank, x);
      }
    }
  }

  /** A typedef of a prototype with only one struct in it leads back to itself by way of that
      struct: no run queues it twice. */
  lemma OnePartNeverRepeats(g: Graph, rank: seq<nat>, x: Id, c: Id)
    requires Ranked(g, rank) && CLike(g, rank) && x < |g| && g[x].Typedef? && IsFn(g, rank, x)
    requires c < |g| && g[c].Composite? && g[c].named
    requires forall d :: d in Children(g[Proto(g, rank, x)]) ==> d == c
    ensures !MayRepeat(g, rank, x) && !Repeats(g, rank, x)
  {
    var y := Proto(g, rank, x);
    ChainStructs(g, rank, x);
    assert AllStructs(g, rank, y) by {
      assert forall i :: 0 <= i < |g[y].params| ==> g[y].params[i] in Children(g[y]);
      assert g[y].ret in Children(g[y]);
    }
    forall e, p ensures !Escapes(g, rank, x, e, p) {
      if Escapes(g, rank, x, e, p) { PassesOnlyPart(g, rank, x, c, e, p); }
    }
    forall calls | Run(g, rank, calls).Finished? ensures !Twice(Run(g, rank, calls).session.queued, x) {
      if Twice(Run(g, rank, calls).session.queued, x) { OnlyThoseRepeat(g, rank, calls, x); }
    }
  }

  lemma PassesOnlyPart(g: Graph, rank: seq<nat>, x: Id, c: Id, e: Id, p: seq<Node>)
    requires Ranked(g, rank) && x < |g| && g[x].Typedef? && IsFn(g, rank, x) && c < |g| && g[c].Composite?
    requires forall d :: d in Children(g[Proto(g, rank, x)]) ==> d == c
    ensures !Escapes(g, rank, x, e, p)
  {
    if Escapes(g, rank, x, e, p) {
      OnlyPartOnWay(g, rank, x, c, e);
      var i := PathPassesPart(g, rank, p);
      ReachesSelf(g, rank, true, Node(c, false));
      assert NeededBy(g, rank, c, p[i].id);
    }
  }

  lemma {:induction false} OnlyPartOnWay(g: Graph, rank: seq<nat>, y: Id, c: Id, e: Id)
    requires Ranked(g, rank) && y < |g| && IsFn(g, rank, y) && c < |g| && g[c].Composite?
    requires forall d :: d in Children(g[Proto(g, rank, y)]) ==> d == c
    requires e < |g| && g[e].Composite? && OnWay(g, rank, y, e)
    ensures e == c
    decreases rank[y]
  {
    match g[y]
    case Mod(t) => OnlyPartOnWay(g, rank, t, c, e);
    case Typedef(t, _) => OnlyPartOnWay(g, rank, t, c, e);
    case FuncProto(r, ps) =>
      assert r in Children(g[y]);
      assert forall i :: 0 <= i < |ps| ==> ps[i] in Children(g[y]);
  }

  // ----- Whole graphs -----

  /** No run queues a type twice. */
  ghost predicate NeverRepeats(g: Graph, rank: seq<nat>)
    requires Ranked(g, rank)
  {
    forall calls, x :: Run(g, rank, calls).Finished? ==> !Twice(Run(g, rank, calls).session.queued, x)
  }

  ghost predicate NoneMayRepeat(g: Graph, rank: seq<nat>)
    requires Ranked(g, rank)
  {
    forall x :: 0 <= x < |g| ==> !MayRepeat(g, rank, x)
  }

  /** Without such typedefs the queue of every run is duplicate-free. */
  lemma RunQueueDuplicateFree(g: Graph, rank: seq<nat>)
    requires Ranked(g, rank) && CLike(g, rank) && NoneMayRepeat(g, rank)
    ensures NeverRepeats(g, rank)
  {
    forall calls, x | Run(g, rank, calls).Finished? ensures !Twice(Run(g, rank, calls).session.queued, x) {
      if Twice(Run(g, rank, calls).session.queued, x) { OnlyThoseRepeat(g, rank, calls, x); }
    }
  }

  /** On a C-like graph in which no function typedef that leads back to itself reaches a
      strong cycle, the queues of all runs are duplicate-free if and only if no typedef may
      repeat. */
  lemma NeverRepeatsIff(g: Graph, rank: seq<nat>)
    requires Ranked(g, rank) && CLike(g, rank)
    requires forall x :: 0 <= x < |g| && LoopingFn(g, rank, x) ==> !StrongCycle(g, rank, true, Node(x, false))
    ensures NeverRepeats(g, rank) <==> NoneMayRepeat(g, rank)
  {
    if NoneMayRepeat(g, rank) {
      RunQueueDuplicateFree(g, rank);
    } else {
      var x :| 0 <= x < |g| && MayRepeat(g, rank, x);
      RepeatsIff(g, rank, x);
    }
  }
}
