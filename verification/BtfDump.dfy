/** Whole runs of the dumper: any sequence of dump calls on a fresh dumper. */
module BtfDump {
  import opened BtfGraph
  import opened BtfOrder
  import opened BtfRepeats
  import opened BtfEmit
  import opened BtfEmitProof

  /** `queued` is the concatenation of the emit queues of all calls so far. */
  datatype Session = Session(order: State, emission: Emission, queued: seq<Id>)

  function Fresh(g: Graph): Session {
    Session(
      State(seq(|g|, i => if i == 0 then Ordered else NotOrdered), [], []),
      Emission(seq(|g|, i => if i == 0 then Emitted else NotEmitted), seq(|g|, _ => false), []),
      [])
  }

  ghost function EmitQueue(g: Graph, rank: seq<nat>, e: Emission, queue: seq<Id>): (e': Emission)
    requires Ranked(g, rank) && Sized(g, e)
    requires InGraph(g, queue)
    ensures Sized(g, e')
  {
    if queue == [] then e
    else
      var n := |queue| - 1;
      Emit(g, rank, EmitQueue(g, rank, e, queue[..n]), queue[n], 0)
  }

  /** One dump call: order the type and what it needs, then print the emit queue. */
  ghost function Dump(g: Graph, rank: seq<nat>, d: Session, id: nat): (res: (Session, int))
    requires Ranked(g, rank) && Valid(g, rank, d)
  {
    if id >= |g| then (d, EINVAL)
    else
      var (s, r) := Order(g, rank, d.order.(queue := []), id, false);
      if r < 0 then (d.(order := s), r)
      else
        CallQueues(g, rank, d.queued, d.order.(queue := []), id, s);
        (Session(s, EmitQueue(g, rank, d.emission, s.queue), d.queued + s.queue), 0)
  }

  /** What holds between calls. */
  ghost predicate Valid(g: Graph, rank: seq<nat>, d: Session)
    requires Ranked(g, rank)
  {
    && Inv(g, rank, d.order)
    && (forall i :: 0 <= i < |g| ==> !d.order.marks[i].Ordering?)
    && (CLike(g, rank) ==> OnlyFnRepeats(g, rank, d.order.finished))
    && d.queued == QueueOf(g, d.order.finished)
    && EmitInv(g, rank, d.emission)
    && (forall i :: 0 <= i < |g| ==> !d.emission.marks[i].Emitting?)
    && AllOut(g, d.emission, Elems(d.order.finished))
  }

  lemma FreshValid(g: Graph, rank: seq<nat>)
    requires Ranked(g, rank)
    ensures Valid(g, rank, Fresh(g))
  {
    assert forall i :: 0 <= i < |g| ==> InStep(g, Fresh(g).emission, i);
  }

  // ----- Positions in the queue and in the finishing order -----

  /** The n-th queue entry was finished right after the ones before it in the queue. */
  lemma {:induction false} QueuePosition(g: Graph, fin: seq<Id>, n: nat) returns (j: nat)
    requires n < |QueueOf(g, fin)|
    ensures j < |fin| && fin[j] == QueueOf(g, fin)[n] && fin[j] < |g| && Queueable(g, fin[j])
    ensures QueueOf(g, fin[..j]) == QueueOf(g, fin)[..n]
  {
    var m := |fin| - 1;
    var q := QueueOf(g, fin[..m]);
    if n < |q| {
      j := QueuePosition(g, fin[..m], n);
      assert fin[..m][..j] == fin[..j];
      assert QueueOf(g, fin)[..n] == q[..n];
    } else {
      j := m;
      assert QueueOf(g, fin)[..n] == q;
    }
  }

  lemma {:induction false} QueueHolds(g: Graph, fin: seq<Id>, x: Id)
    requires x in fin && x < |g| && Queueable(g, x)
    ensures x in QueueOf(g, fin)
  {
    var m := |fin| - 1;
    if x != fin[m] {
      assert x in fin[..m];
      QueueHolds(g, fin[..m], x);
    }
  }

  /** Every entry of a queue has been printed. */
  ghost predicate QueueOut(g: Graph, e: Emission, queue: seq<Id>)
    requires Sized(g, e)
  {
    forall x :: x in queue && x < |g| ==> e.marks[x].Emitted?
  }

  lemma QueueOutIsAllOut(g: Graph, e: Emission, fin: seq<Id>)
    requires Sized(g, e) && QueueOut(g, e, QueueOf(g, fin))
    ensures AllOut(g, e, Elems(fin))
  {
    forall x | x in Elems(fin) && x < |g| && Queueable(g, x) ensures e.marks[x].Emitted? {
      QueueHolds(g, fin, x);
    }
  }

  lemma QueueOutNext(g: Graph, e: Emission, e': Emission, past: seq<Id>, queue: seq<Id>, n: nat)
    requires Sized(g, e) && Sized(g, e') && n < |queue| && queue[n] < |g|
    requires QueueOut(g, e, past + queue[..n]) && Grows(e, e') && e'.marks[queue[n]].Emitted?
    ensures QueueOut(g, e', past + queue[..n + 1])
  {
    assert forall x :: x in past + queue[..n + 1] ==> x in past + queue[..n] || x == queue[n];
  }

  /** Printing one more queue entry, when all entries before it are out. */
  lemma EmitNext(
    g: Graph, rank: seq<nat>, fin: seq<Id>, past: seq<Id>, queue: seq<Id>, n: nat, e1: Emission, e': Emission)
    requires Ranked(g, rank) && Topological(g, rank, fin) && CompositesOnce(g, fin)
    requires QueueOf(g, fin) == past + queue && n < |queue| && queue[n] < |g|
    requires EmitInv(g, rank, e1) && (forall i :: 0 <= i < |g| ==> !e1.marks[i].Emitting?)
    requires QueueOut(g, e1, past + queue[..n])
    requires e' == Emit(g, rank, e1, queue[n], 0)
    ensures EmitInv(g, rank, e') && Grows(e1, e')
    ensures QueueOut(g, e', past + queue[..n + 1])
  {
    var j := QueuePosition(g, fin, |past| + n);
    assert QueueOf(g, fin[..j]) == past + queue[..n];
    QueueOutIsAllOut(g, e1, fin[..j]);
    EmitTop(g, rank, fin, j, e1, e');
    QueueOutNext(g, e1, e', past, queue, n);
  }

  /** Printing the queue of a call up to its n-th entry. */
  lemma {:induction false} EmitQueueSound(
    g: Graph, rank: seq<nat>, fin: seq<Id>, past: seq<Id>, queue: seq<Id>, e: Emission, n: nat, e': Emission)
    requires Ranked(g, rank) && Topological(g, rank, fin) && CompositesOnce(g, fin)
    requires QueueOf(g, fin) == past + queue && n <= |queue| && InGraph(g, queue)
    requires EmitInv(g, rank, e) && (forall i :: 0 <= i < |g| ==> !e.marks[i].Emitting?)
    requires QueueOut(g, e, past)
    requires e' == EmitQueue(g, rank, e, queue[..n])
    ensures EmitInv(g, rank, e') && Grows(e, e')
    ensures QueueOut(g, e', past + queue[..n])
  {
    if n > 0 {
      assert queue[..n][..n - 1] == queue[..n - 1];
      var e1 := EmitQueue(g, rank, e, queue[..n - 1]);
      EmitQueueSound(g, rank, fin, past, queue, e, n - 1, e1);
      EmitNext(g, rank, fin, past, queue, n - 1, e1, e');
    }
  }

  lemma {:induction false} QueueInRange(g: Graph, fin: seq<Id>)
    ensures InGraph(g, QueueOf(g, fin))
  {
    if fin != [] { QueueInRange(g, fin[..|fin| - 1]); }
  }

  lemma SuffixInGraph(g: Graph, a: seq<Id>, b: seq<Id>)
    requires InGraph(g, a + b)
    ensures InGraph(g, b)
  {
    forall i | 0 <= i < |b| ensures b[i] < |g| {
      assert b[i] == (a + b)[|a| + i];
    }
  }

  /** The queue that a call computes holds types of the graph, those it finished. */
  lemma CallQueues(g: Graph, rank: seq<nat>, past: seq<Id>, s0: State, id: nat, s: State)
    requires Ranked(g, rank) && id < |g| == |s0.marks|
    requires s0.queue == [] && past == QueueOf(g, s0.finished)
    requires s == Order(g, rank, s0, id, false).0
    ensures QueueOf(g, s.finished) == past + s.queue
    ensures InGraph(g, s.queue)
  {
    assert s0 in Listing(g, past) by { assert past + [] == past; }
    OrderQueues(g, rank, past, s0, id, false, s);
    QueueInRange(g, s.finished);
    SuffixInGraph(g, past, s.queue);
  }

  /** What a call returns, and what it keeps. */
  ghost predicate DumpedWell(g: Graph, rank: seq<nat>, d: Session, id: nat, d': Session, r: int)
    requires Ranked(g, rank)
  {
    && (r == EINVAL <==> id >= |g|)
    && (r == EINVAL ==> d' == d)
    && (r == 0 || r == EINVAL || r == ELOOP)
    && (r == 0 ==>
          && Valid(g, rank, d')
          && d.emission.out <= d'.emission.out
          && d.queued <= d'.queued
          && d.order.finished <= d'.order.finished
          && id < |g| && Done(g, rank, Elems(d'.order.finished), id, false))
  }

  /** A call that does not fail keeps the session valid, and everything that the requested
      type needs is then finished. */
  lemma DumpKeepsValid(g: Graph, rank: seq<nat>, d: Session, id: nat, d': Session, r: int)
    requires Ranked(g, rank) && Valid(g, rank, d)
    requires (d', r) == Dump(g, rank, d, id)
    ensures DumpedWell(g, rank, d, id, d', r)
  {
    if id < |g| {
      var s0 := d.order.(queue := []);
      var (s, ro) := Order(g, rank, s0, id, false);
      if ro < 0 {
        FailureMeansCycle(g, rank, s0, id, false);
      } else {
        OrderSound(g, rank, s0, id, false, s, ro);
        CallQueues(g, rank, d.queued, s0, id, s);
        if CLike(g, rank) { OrderNoRepeats(g, rank, s0, id, false, s, ro); }
        DumpPrints(g, rank, d, s, d'.emission);
      }
    }
  }

  lemma DumpPrints(g: Graph, rank: seq<nat>, d: Session, s: State, e': Emission)
    requires Ranked(g, rank) && Valid(g, rank, d) && Inv(g, rank, s)
    requires QueueOf(g, s.finished) == d.queued + s.queue && InGraph(g, s.queue)
    requires e' == EmitQueue(g, rank, d.emission, s.queue)
    ensures EmitInv(g, rank, e') && Grows(d.emission, e') && AllOut(g, e', Elems(s.finished))
  {
    forall x | x in d.queued && x < |g| ensures d.emission.marks[x].Emitted? {
      var n :| 0 <= n < |d.queued| && d.queued[n] == x;
      var j := QueuePosition(g, d.order.finished, n);
      assert x in Elems(d.order.finished);
    }
    assert s.queue[..|s.queue|] == s.queue;
    EmitQueueSound(g, rank, s.finished, d.queued, s.queue, d.emission, |s.queue|, e');
    forall x | x in Elems(s.finished) && x < |g| && Queueable(g, x) ensures e'.marks[x].Emitted? {
      QueueHolds(g, s.finished, x);
    }
  }

  // ----- Whole runs -----

  /** The types that, embedded, need nothing beyond what is finished. */
  ghost function Satisfied(g: Graph, rank: seq<nat>, d: Session): set<Id>
    requires Ranked(g, rank)
  {
    set x | 0 <= x < |g| && Done(g, rank, Elems(d.order.finished), x, false)
  }

  /** A call satisfies the requested type and keeps satisfied what was. */
  lemma DumpSatisfies(g: Graph, rank: seq<nat>, d: Session, id: nat, d': Session, r: int)
    requires Ranked(g, rank) && DumpedWell(g, rank, d, id, d', r) && r != ELOOP
    ensures Satisfied(g, rank, d) <= Satisfied(g, rank, d')
    ensures id < |g| ==> id in Satisfied(g, rank, d')
  {
    if r == 0 {
      assert forall x :: x in d.order.finished ==> x in d'.order.finished;
      forall x | x in Satisfied(g, rank, d) ensures x in Satisfied(g, rank, d') {
        DoneMonotone(g, rank, Elems(d.order.finished), Elems(d'.order.finished), x, false);
      }
    }
  }

  /** The session has served the calls: it is valid and all they asked for is finished. */
  ghost predicate Served(g: Graph, rank: seq<nat>, d: Session, calls: seq<nat>)
    requires Ranked(g, rank)
  {
    Valid(g, rank, d) && AllIn(calls, |g|, Satisfied(g, rank, d))
  }

  ghost predicate AllIn(calls: seq<nat>, n: nat, done: set<Id>) {
    forall c :: 0 <= c < |calls| && calls[c] < n ==> calls[c] in done
  }

  lemma AllInNext(calls: seq<nat>, k: nat, n: nat, done: set<Id>, done': set<Id>)
    requires |calls| == k + 1 && AllIn(calls[..k], n, done) && done <= done' && (calls[k] < n ==> calls[k] in done')
    ensures AllIn(calls, n, done')
  {
    forall c | 0 <= c < |calls| && calls[c] < n ensures calls[c] in done' {
      if c < k { assert calls[..k][c] == calls[c]; }
    }
  }

  lemma DumpServes(g: Graph, rank: seq<nat>, d: Session, calls: seq<nat>, n: nat, d': Session, r: int)
    requires Ranked(g, rank) && |calls| == n + 1 && Served(g, rank, d, calls[..n])
    requires (d', r) == Dump(g, rank, d, calls[n]) && r != ELOOP
    ensures Served(g, rank, d', calls)
  {
    DumpKeepsValid(g, rank, d, calls[n], d', r);
    DumpSatisfies(g, rank, d, calls[n], d', r);
    AllInNext(calls, n, |g|, Satisfied(g, rank, d), Satisfied(g, rank, d'));
  }

  datatype Outcome = Finished(session: Session) | Failed

  /** A fresh dumper serving calls in order, up to the first call that finds a type loop;
      a call with an id out of range is refused and changes nothing. */
  ghost function Run(g: Graph, rank: seq<nat>, calls: seq<nat>): (res: Outcome)
    requires Ranked(g, rank)
    ensures res.Finished? ==> Served(g, rank, res.session, calls)
  {
    if calls == [] then
      FreshValid(g, rank);
      Finished(Fresh(g))
    else
      var n := |calls| - 1;
      var before := Run(g, rank, calls[..n]);
      if before.Failed? then Failed
      else
        var (d, r) := Dump(g, rank, before.session, calls[n]);
        if r == ELOOP then Failed
        else
          DumpServes(g, rank, before.session, calls, n, d, r);
          Finished(d)
  }

  /** In the output of every run, each definition comes after all it uses: embedded structs,
      unions, enums and typedefs are fully printed earlier, and a struct used behind a pointer
      is defined or forward-declared earlier or is the one being defined. Nothing is printed
      twice. */
  lemma RunDeclaresBeforeUse(g: Graph, rank: seq<nat>, calls: seq<nat>)
    requires Ranked(g, rank) && Run(g, rank, calls).Finished?
    ensures DeclaredBeforeUse(g, rank, Run(g, rank, calls).session.emission.out)
  {
    assert Served(g, rank, Run(g, rank, calls).session, calls);
  }

  /** Over all calls of a run, what a queued type strongly depends on is queued before it. */
  lemma RunQueueIsTopological(g: Graph, rank: seq<nat>, calls: seq<nat>, i: nat, y: Node)
    requires Ranked(g, rank) && Run(g, rank, calls).Finished?
    requires i < |Run(g, rank, calls).session.queued|
    requires Reaches(g, rank, false, Node(Run(g, rank, calls).session.queued[i], false), y, 1)
    requires y.id < |g| && IsDefinition(g, y) && Queueable(g, y.id)
    ensures y.id in Run(g, rank, calls).session.queued[..i]
  {
    var fin := Run(g, rank, calls).session.order.finished;
    var j := QueuePosition(g, fin, i);
    StrongDependenciesPrecede(g, rank, fin, j, y);
    QueueHolds(g, fin[..j], y.id);
  }

  /** On C-like graphs the same along the flags exactly as the code passes them on, where a
      function typedef counts as reached through a pointer. */
  lemma RunQueueIsTopologicalLiterally(g: Graph, rank: seq<nat>, calls: seq<nat>, i: nat, x: Id, y: Node)
    requires Ranked(g, rank) && CLike(g, rank) && Run(g, rank, calls).Finished?
    requires i < |Run(g, rank, calls).session.queued| && x == Run(g, rank, calls).session.queued[i] && x < |g|
    requires Reaches(g, rank, true, Node(x, IsFn(g, rank, x)), y, 1)
    requires y.id < |g| && IsDefinition(g, y) && Queueable(g, y.id)
    ensures y.id in Run(g, rank, calls).session.queued[..i]
  {
    var fin := Run(g, rank, calls).session.order.finished;
    var j := QueuePosition(g, fin, i);
    LiteralDependenciesPrecede(g, rank, fin, j, y);
    QueueHolds(g, fin[..j], y.id);
  }

  /** On C-like graphs, whatever is queued twice is a typedef of a function type that leads
      back to itself and, if it leads to structs only, has an escape. */
  lemma RunQueuesOnce(g: Graph, rank: seq<nat>, calls: seq<nat>, i: nat, j: nat)
    requires Ranked(g, rank) && CLike(g, rank) && Run(g, rank, calls).Finished?
    requires i < j < |Run(g, rank, calls).session.queued|
    requires Run(g, rank, calls).session.queued[i] == Run(g, rank, calls).session.queued[j]
    ensures var x := Run(g, rank, calls).session.queued[i];
            x < |g| && MayRepeat(g, rank, x)
  {
    var d := Run(g, rank, calls).session;
    var fin := d.order.finished;
    var a := QueuePosition(g, fin, i);
    var b := QueuePosition(g, fin, j);
    assert |QueueOf(g, fin[..a])| == i && |QueueOf(g, fin[..b])| == j;
  }

  /** The definition of a type stands in the output, unless the compiler has it built in. */
  ghost predicate DefinedIn(g: Graph, id: Id, out: seq<Item>)
    requires id < |g|
  {
    match g[id]
    case Composite(_, _, _) => StructDef(id) in out
    case Enum(_) => EnumDef(id) in out
    case Fwd(_) => FwdDef(id) in out
    case Typedef(_, builtin) => builtin || TypedefDef(id) in out
    case _ => true
  }

  /** Every definition that a requested type strongly needs has been printed by the end. */
  lemma {:induction false} RunPrintsAllNeeded(g: Graph, rank: seq<nat>, calls: seq<nat>, c: nat, y: Node)
    requires Ranked(g, rank) && Run(g, rank, calls).Finished?
    requires c < |calls| && calls[c] < |g|
    requires Reaches(g, rank, false, Node(calls[c], false), y, 0)
    requires y.id < |g| && IsDefinition(g, y) && Queueable(g, y.id)
    ensures Run(g, rank, calls).session.emission.marks[y.id].Emitted?
    ensures DefinedIn(g, y.id, Run(g, rank, calls).session.emission.out)
  {
    var d := Run(g, rank, calls).session;
    assert calls[c] in Satisfied(g, rank, d);
    ReachedIsDone(g, rank, d.order.finished, Node(calls[c], false), y);
    assert y.id in Elems(d.order.finished);
    assert InStep(g, d.emission, y.id);
  }

  /** Of what a requested type strongly needs, exactly this gets a definition of its own by
      the end: named structs and unions, typedefs that the compiler does not have built in,
      named enums, and those anonymous enums that no type names; an anonymous enum that is
      named by another type is printed in line there. */
  lemma RunPrintsExactly(g: Graph, rank: seq<nat>, calls: seq<nat>, c: nat, y: Node)
    requires Ranked(g, rank) && Run(g, rank, calls).Finished?
    requires c < |calls| && calls[c] < |g|
    requires Reaches(g, rank, false, Node(calls[c], false), y, 0)
    requires y.id < |g| && IsDefinition(g, y)
    ensures var out := Run(g, rank, calls).session.emission.out;
            match g[y.id]
            case Composite(_, named, _) => StructDef(y.id) in out <==> named
            case Enum(named) => EnumDef(y.id) in out <==> named || !Named(g, y.id)
            case Typedef(_, builtin) => TypedefDef(y.id) in out <==> !builtin
            case Fwd(named) => named || !Named(g, y.id) ==> FwdDef(y.id) in out
            case _ => true
  {
    var d := Run(g, rank, calls).session;
    ReferencedIsNamed(g, y.id);
    if Queueable(g, y.id) { RunPrintsAllNeeded(g, rank, calls, c, y); }
    assert InStep(g, d.emission, y.id);
  }

  /** Whatever else a run prints: it never prints an anonymous enum by itself that is part of
      another type. */
  lemma RunPrintsNoInnerEnum(g: Graph, rank: seq<nat>, calls: seq<nat>, x: Id)
    requires Ranked(g, rank) && Run(g, rank, calls).Finished?
    requires EnumDef(x) in Run(g, rank, calls).session.emission.out
    ensures x < |g| && (g[x] == Enum(true) || (g[x] == Enum(false) && !Named(g, x)))
  {
    var d := Run(g, rank, calls).session;
    var i :| 0 <= i < |d.emission.out| && d.emission.out[i] == EnumDef(x);
    assert ItemOk(g, rank, d.emission.out[..i], d.emission.out[i]);
    assert InStep(g, d.emission, x);
    ReferencedIsNamed(g, x);
  }
}
