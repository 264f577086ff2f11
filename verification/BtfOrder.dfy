/** The first pass of the dumper: a depth-first topological sort of type definitions
    over strong links, as a function of its state, and what that function achieves. */
module BtfOrder {
  import opened BtfGraph

  const ELOOP: int := -40
  const EINVAL: int := -22

  datatype Mark = NotOrdered | Ordering | Ordered

  /** `marks` are the per-type order states and `queue` the emit queue. `finished` is a
      history: every type in the order in which it was marked as ordered. */
  datatype State = State(marks: seq<Mark>, queue: seq<Id>, finished: seq<Id>)

  function Finish(g: Graph, s: State, id: Id): State
    requires id < |g| == |s.marks|
  {
    State(s.marks[id := Ordered],
          if Queueable(g, id) then s.queue + [id] else s.queue,
          s.finished + [id])
  }

  function Enter(s: State, id: Id): State
    requires id < |s.marks|
  {
    s.(marks := s.marks[id := Ordering])
  }

  /** The structs and unions the sort has not entered yet: what bounds its depth. */
  ghost function Unentered(g: Graph, s: State): set<Id>
    requires |g| == |s.marks|
  {
    set i | 0 <= i < |g| && g[i].Composite? && s.marks[i].NotOrdered?
  }

  lemma EnterShrinks(g: Graph, s: State, id: Id)
    requires id < |g| == |s.marks| && g[id].Composite? && s.marks[id].NotOrdered?
    ensures Unentered(g, Enter(s, id)) < Unentered(g, s)
  {
    assert id in Unentered(g, s) && id !in Unentered(g, Enter(s, id));
  }

  /** Orders one type; the result is 1 for a strong link, 0 for a weak one. */
  ghost function Order(g: Graph, rank: seq<nat>, s: State, id: Id, tp: bool): (res: (State, int))
    requires Ranked(g, rank) && id < |g| == |s.marks|
    ensures |res.0.marks| == |g| && Unentered(g, res.0) <= Unentered(g, s)
    decreases Unentered(g, s), rank[id]
  {
    if s.marks[id].Ordered? then
      (s, 1)
    else if s.marks[id].Ordering? then
      (s, if Weak(g, id, tp) then 0 else ELOOP)
    else
      match g[id]
      case Int => (Finish(g, s, id), 0)
      case Float => (Finish(g, s, id), 0)
      case Other(_) => (Finish(g, s, id), 0)
      case Ptr(t) =>
        var (s1, r) := Order(g, rank, s, t, true);
        (Finish(g, s1, id), r)
      case Array(e, _) => Order(g, rank, s, e, false)
      case Composite(_, _, ms) =>
        if Weak(g, id, tp) then
          (s, 0)
        else
          EnterShrinks(g, s, id);
          var (s1, r) := OrderEach(g, rank, Enter(s, id), ms, false, |g| + 1);
          if r < 0 then (s1, r) else (Finish(g, s1, id), 1)
      case Enum(_) => (Finish(g, s, id), 1)
      case Fwd(_) => (Finish(g, s, id), 1)
      case Typedef(t, _) =>
        var (s1, r) := Order(g, rank, s, t, tp);
        if r < 0 then (s1, r)
        else if tp && r == 0 then (s1, 0)
        else (Finish(g, s1, id), 1)
      case Mod(t) => Order(g, rank, s, t, tp)
      case FuncProto(ret, ps) =>
        var (s1, r) := Order(g, rank, s, ret, tp);
        if r < 0 then (s1, r)
        else
          var (s2, r') := OrderEach(g, rank, s1, ps, tp, rank[id]);
          (s2, if r' < 0 then r' else if r > 0 then 1 else r')
      case Void => (s, EINVAL)
  }

  /** Orders types one after the other up to the first failure; strong if any is. */
  ghost function OrderEach(g: Graph, rank: seq<nat>, s: State, ids: seq<Id>, tp: bool, lim: nat): (res: (State, int))
    requires Ranked(g, rank) && |g| == |s.marks|
    requires forall i :: 0 <= i < |ids| ==> ids[i] < |g| && rank[ids[i]] < lim
    ensures |res.0.marks| == |g| && Unentered(g, res.0) <= Unentered(g, s)
    decreases Unentered(g, s), lim, |ids|
  {
    if ids == [] then
      (s, 0)
    else
      var (s1, r) := Order(g, rank, s, ids[0], tp);
      if r < 0 then (s1, r)
      else
        var (s2, r') := OrderEach(g, rank, s1, ids[1..], tp, lim);
        (s2, if r' < 0 then r' else if r > 0 then 1 else r')
  }

  // ----- What every call keeps -----

  ghost predicate InGraph(g: Graph, ids: seq<Id>) {
    forall i :: 0 <= i < |ids| ==> ids[i] < |g|
  }

  /** The entries that finishing these types adds to the emit queue. */
  function QueueOf(g: Graph, fin: seq<Id>): seq<Id> {
    if fin == [] then []
    else
      var n := |fin| - 1;
      QueueOf(g, fin[..n]) + if fin[n] < |g| && Queueable(g, fin[n]) then [fin[n]] else []
  }

  ghost predicate MarksOk(g: Graph, s: State) {
    && |s.marks| == |g|
    && s.marks[0].Ordered?
    && (forall i :: 0 <= i < |g| && s.marks[i].Ordering? ==> g[i].Composite?)
  }

  ghost predicate Inv(g: Graph, rank: seq<nat>, s: State)
    requires Ranked(g, rank)
  {
    && MarksOk(g, s)
    && 0 !in s.finished
    && (forall i :: 0 < i < |g| ==> (s.marks[i].Ordered? <==> i in s.finished))
    && Topological(g, rank, s.finished)
    && CompositesOnce(g, s.finished)
    && AnyFirst(g, rank, s.finished)
  }

  /** If a type leads to structs only, one of them is among the given types. */
  ghost predicate AnyIn(g: Graph, rank: seq<nat>, fin: seq<Id>, id: Id)
    requires Ranked(g, rank) && id < |g|
  {
    AllStructs(g, rank, id) ==> StructIn(g, rank, Elems(fin), id)
  }

  /** Whatever leads to structs only is finished after one of them. */
  ghost predicate AnyFirst(g: Graph, rank: seq<nat>, fin: seq<Id>)
    requires Ranked(g, rank)
  {
    forall y :: y in fin && y < |g| ==> AnyIn(g, rank, fin, y)
  }

  ghost predicate AllAllStructs(g: Graph, rank: seq<nat>, ids: seq<Id>)
    requires Ranked(g, rank) && InGraph(g, ids)
  {
    forall i :: 0 <= i < |ids| ==> AllStructs(g, rank, ids[i])
  }

  ghost predicate SomeAnyIn(g: Graph, rank: seq<nat>, fin: seq<Id>, ids: seq<Id>)
    requires Ranked(g, rank) && InGraph(g, ids)
  {
    AllAllStructs(g, rank, ids) ==> exists i :: 0 <= i < |ids| && StructIn(g, rank, Elems(fin), ids[i])
  }

  ghost predicate SameOrdering(s: State, s': State) {
    && |s.marks| == |s'.marks|
    && (forall i :: 0 <= i < |s.marks| ==> (s.marks[i].Ordering? <==> s'.marks[i].Ordering?))
  }

  /** `s'` continues `s`: more types are finished, the same ones are being ordered. */
  ghost predicate Continues(s: State, s': State) {
    SameOrdering(s, s') && s.finished <= s'.finished
  }

  lemma TopologicalAppend(g: Graph, rank: seq<nat>, fin: seq<Id>, id: Id)
    requires Ranked(g, rank) && Topological(g, rank, fin)
    requires id < |g| && Ready(g, rank, Elems(fin), id)
    ensures Topological(g, rank, fin + [id])
  {
    var fin' := fin + [id];
    forall k | 0 <= k < |fin'| ensures Ready(g, rank, Elems(fin'[..k]), fin'[k]) {
      assert fin'[..k] == fin[..k];
      if k == |fin| { assert fin[..k] == fin; }
    }
  }

  /** Finishing a type whose needs are met keeps the invariant. */
  lemma FinishInv(g: Graph, rank: seq<nat>, s: State, id: Id)
    requires Ranked(g, rank) && Inv(g, rank, s) && 0 < id < |g|
    requires Ready(g, rank, Elems(s.finished), id)
    requires g[id].Composite? ==> id !in s.finished
    requires AnyIn(g, rank, s.finished + [id], id)
    ensures Inv(g, rank, Finish(g, s, id))
  {
    var s' := Finish(g, s, id);
    TopologicalAppend(g, rank, s.finished, id);
    forall i | 0 < i < |g| ensures s'.marks[i].Ordered? <==> i in s'.finished {
      if i == id { assert s'.finished[|s.finished|] == id; }
    }
    AnyFirstAppend(g, rank, s.finished, id);
  }

  lemma AnyInMonotone(g: Graph, rank: seq<nat>, fin: seq<Id>, fin': seq<Id>, id: Id)
    requires Ranked(g, rank) && id < |g| && fin <= fin' && AnyIn(g, rank, fin, id)
    ensures AnyIn(g, rank, fin', id)
  {
    if AllStructs(g, rank, id) { StructInMonotone(g, rank, Elems(fin), Elems(fin'), id); }
  }

  lemma AnyFirstAppend(g: Graph, rank: seq<nat>, fin: seq<Id>, id: Id)
    requires Ranked(g, rank) && AnyFirst(g, rank, fin) && id < |g| && AnyIn(g, rank, fin + [id], id)
    ensures AnyFirst(g, rank, fin + [id])
  {
    var fin' := fin + [id];
    forall y | y in fin' && y < |g| ensures AnyIn(g, rank, fin', y) {
      if y in fin { AnyInMonotone(g, rank, fin, fin', y); }
    }
  }

  /** What leads to structs only and needs nothing more has one of them finished. */
  lemma {:induction false} DoneAny(g: Graph, rank: seq<nat>, fin: seq<Id>, id: Id)
    requires Ranked(g, rank) && id < |g| && AllStructs(g, rank, id) && AnyFirst(g, rank, fin)
    requires Done(g, rank, Elems(fin), id, false)
    ensures StructIn(g, rank, Elems(fin), id)
    decreases rank[id]
  {
    match g[id]
    case Mod(t) => DoneAny(g, rank, fin, t);
    case FuncProto(r, _) => DoneAny(g, rank, fin, r);
    case Typedef(_, _) => assert AnyIn(g, rank, fin, id);
    case _ =>
  }

  /** `s` may have the type marked as being ordered; apart from that it continues `s0`. */
  lemma FinishContinues(g: Graph, s0: State, s: State, id: Id)
    requires id < |g| == |s0.marks| == |s.marks| && !s0.marks[id].Ordering?
    requires forall i :: 0 <= i < |g| && i != id ==> (s0.marks[i].Ordering? <==> s.marks[i].Ordering?)
    requires s0.finished <= s.finished
    ensures Continues(s0, Finish(g, s, id))
    ensures id in Elems(Finish(g, s, id).finished)
    ensures Elems(s.finished) <= Elems(Finish(g, s, id).finished)
  {
    assert Finish(g, s, id).finished[|s.finished|] == id;
  }

  // ----- Ordering is sound -----

  // The lemmas below take the outcome of a call as a parameter, equal to the function's value.

  ghost predicate OrderedWell(g: Graph, rank: seq<nat>, s: State, id: Id, tp: bool, s': State, r: int)
    requires Ranked(g, rank) && id < |g|
  {
    && 0 <= r <= 1
    && Inv(g, rank, s')
    && Continues(s, s')
    && Done(g, rank, Elems(s'.finished), id, tp)
    && (r == 1 && !IsFn(g, rank, id) ==> Done(g, rank, Elems(s'.finished), id, false))
    && (r == 0 ==> WeakOnly(g, rank, id, tp))
    && (r == 1 ==> AnyIn(g, rank, s'.finished, id))
  }

  ghost predicate OrderedAllWell(g: Graph, rank: seq<nat>, s: State, ids: seq<Id>, tp: bool, s': State, r: int)
    requires Ranked(g, rank)
    requires forall i :: 0 <= i < |ids| ==> ids[i] < |g|
  {
    && 0 <= r <= 1
    && Inv(g, rank, s')
    && Continues(s, s')
    && AllDone(g, rank, Elems(s'.finished), ids, tp)
    && (r == 0 ==> AllWeakOnly(g, rank, ids, tp))
    && (r == 1 ==> SomeAnyIn(g, rank, s'.finished, ids))
  }

  ghost predicate AllDone(g: Graph, rank: seq<nat>, F: set<Id>, ids: seq<Id>, tp: bool)
    requires Ranked(g, rank)
    requires forall i :: 0 <= i < |ids| ==> ids[i] < |g|
  {
    forall i :: 0 <= i < |ids| ==> Done(g, rank, F, ids[i], tp)
  }

  ghost predicate AllWeakOnly(g: Graph, rank: seq<nat>, ids: seq<Id>, tp: bool)
    requires Ranked(g, rank)
    requires forall i :: 0 <= i < |ids| ==> ids[i] < |g|
  {
    forall i :: 0 <= i < |ids| ==> WeakOnly(g, rank, ids[i], tp)
  }

  lemma AllDoneCons(g: Graph, rank: seq<nat>, F: set<Id>, F': set<Id>, ids: seq<Id>, tp: bool)
    requires Ranked(g, rank) && F <= F' && ids != []
    requires forall i :: 0 <= i < |ids| ==> ids[i] < |g|
    requires Done(g, rank, F, ids[0], tp) && AllDone(g, rank, F', ids[1..], tp)
    ensures AllDone(g, rank, F', ids, tp)
  {
    DoneMonotone(g, rank, F, F', ids[0], tp);
    assert forall i :: 0 < i < |ids| ==> ids[i] == ids[1..][i - 1];
  }

  lemma AllWeakOnlyCons(g: Graph, rank: seq<nat>, ids: seq<Id>, tp: bool)
    requires Ranked(g, rank) && ids != []
    requires forall i :: 0 <= i < |ids| ==> ids[i] < |g|
    requires WeakOnly(g, rank, ids[0], tp) && AllWeakOnly(g, rank, ids[1..], tp)
    ensures AllWeakOnly(g, rank, ids, tp)
  {
    assert forall i :: 0 < i < |ids| ==> ids[i] == ids[1..][i - 1];
  }

  lemma SomeAnyCons(g: Graph, rank: seq<nat>, fin: seq<Id>, fin': seq<Id>, ids: seq<Id>, r1: int, r2: int)
    requires Ranked(g, rank) && fin <= fin' && ids != [] && InGraph(g, ids)
    requires (r1 == 1 && AnyIn(g, rank, fin, ids[0])) || (r2 == 1 && SomeAnyIn(g, rank, fin', ids[1..]))
    ensures SomeAnyIn(g, rank, fin', ids)
  {
    if AllAllStructs(g, rank, ids) {
      assert AllAllStructs(g, rank, ids[1..]);
      if r1 == 1 && AnyIn(g, rank, fin, ids[0]) {
        AnyInMonotone(g, rank, fin, fin', ids[0]);
        assert AllStructs(g, rank, ids[0]);
        assert StructIn(g, rank, Elems(fin'), ids[0]);
      } else {
        var i :| 0 <= i < |ids[1..]| && StructIn(g, rank, Elems(fin'), ids[1..][i]);
        assert StructIn(g, rank, Elems(fin'), ids[i + 1]);
      }
    }
  }

  /** A call that does not fail leaves a topological order in which the requested type has
      everything it needs, and tells strong from weak correctly. */
  lemma {:induction false} OrderSound(
    g: Graph, rank: seq<nat>, s: State, id: Id, tp: bool, s': State, r: int)
    requires Ranked(g, rank) && id < |g| && Inv(g, rank, s)
    requires (s', r) == Order(g, rank, s, id, tp) && r >= 0
    ensures OrderedWell(g, rank, s, id, tp, s', r)
    decreases Unentered(g, s), rank[id]
  {
    if s.marks[id].NotOrdered? {
      match g[id]
      case Ptr(t) =>
        var (s1, r1) := Order(g, rank, s, t, true);
        OrderSound(g, rank, s, t, true, s1, r1);
        PtrSound(g, rank, s, id, tp, s1, r1);
      case Array(e, _) =>
        OrderSound(g, rank, s, e, false, s', r);
        ThroughSound(g, rank, s, id, tp, e, false, s', r);
      case Mod(t) =>
        OrderSound(g, rank, s, t, tp, s', r);
        ThroughSound(g, rank, s, id, tp, t, tp, s', r);
      case Typedef(t, _) =>
        var (s1, r1) := Order(g, rank, s, t, tp);
        OrderSound(g, rank, s, t, tp, s1, r1);
        TypedefSound(g, rank, s, id, tp, s1, r1);
      case FuncProto(ret, ps) =>
        var (s1, r1) := Order(g, rank, s, ret, tp);
        OrderSound(g, rank, s, ret, tp, s1, r1);
        OrderParamsSound(g, rank, s, id, tp, s1, r1);
      case Composite(_, _, ms) => if !Weak(g, id, tp) { OrderMembersSound(g, rank, s, id, tp); }
      case _ => LeafSound(g, rank, s, id, tp, r);
    } else {
      MarkedSound(g, rank, s, id, tp, r);
    }
  }

  lemma {:induction false} OrderEachSound(
    g: Graph, rank: seq<nat>, s: State, ids: seq<Id>, tp: bool, lim: nat, s': State, r: int)
    requires Ranked(g, rank) && Inv(g, rank, s)
    requires forall i :: 0 <= i < |ids| ==> ids[i] < |g| && rank[ids[i]] < lim
    requires (s', r) == OrderEach(g, rank, s, ids, tp, lim) && r >= 0
    ensures OrderedAllWell(g, rank, s, ids, tp, s', r)
    decreases Unentered(g, s), lim, |ids|
  {
    if ids != [] {
      var (s1, r1) := Order(g, rank, s, ids[0], tp);
      OrderSound(g, rank, s, ids[0], tp, s1, r1);
      var r2 := OrderEach(g, rank, s1, ids[1..], tp, lim).1;
      OrderEachSound(g, rank, s1, ids[1..], tp, lim, s', r2);
      AllDoneCons(g, rank, Elems(s1.finished), Elems(s'.finished), ids, tp);
      if r == 0 { AllWeakOnlyCons(g, rank, ids, tp); }
      if r == 1 { SomeAnyCons(g, rank, s1.finished, s'.finished, ids, r1, r2); }
    }
  }

  lemma {:induction false} OrderParamsSound(
    g: Graph, rank: seq<nat>, s: State, id: Id, tp: bool, s1: State, r1: int)
    requires Ranked(g, rank) && id < |g| && Inv(g, rank, s) && g[id].FuncProto?
    requires OrderedWell(g, rank, s, g[id].ret, tp, s1, r1) && Unentered(g, s1) <= Unentered(g, s)
    requires OrderEach(g, rank, s1, g[id].params, tp, rank[id]).1 >= 0
    ensures var (s2, r2) := OrderEach(g, rank, s1, g[id].params, tp, rank[id]);
            OrderedWell(g, rank, s, id, tp, s2, if r1 > 0 then 1 else r2)
    decreases Unentered(g, s), rank[id], |g[id].params| + 1
  {
    var (s2, r2) := OrderEach(g, rank, s1, g[id].params, tp, rank[id]);
    OrderEachSound(g, rank, s1, g[id].params, tp, rank[id], s2, r2);
    ProtoSound(g, rank, s, id, tp, s1, r1, s2, r2);
  }

  lemma {:induction false} OrderMembersSound(g: Graph, rank: seq<nat>, s: State, id: Id, tp: bool)
    requires Ranked(g, rank) && id < |g| && Inv(g, rank, s)
    requires g[id].Composite? && s.marks[id].NotOrdered? && !Weak(g, id, tp)
    requires OrderEach(g, rank, Enter(s, id), g[id].members, false, |g| + 1).1 >= 0
    ensures var s1 := OrderEach(g, rank, Enter(s, id), g[id].members, false, |g| + 1).0;
            OrderedWell(g, rank, s, id, tp, Finish(g, s1, id), 1)
    decreases Unentered(g, s), rank[id], 0
  {
    EnterInv(g, rank, s, id);
    var (s1, r1) := OrderEach(g, rank, Enter(s, id), g[id].members, false, |g| + 1);
    OrderEachSound(g, rank, Enter(s, id), g[id].members, false, |g| + 1, s1, r1);
    CompositeSound(g, rank, s, id, tp, s1, r1);
  }

  lemma ThroughSound(
    g: Graph, rank: seq<nat>, s: State, id: Id, tp: bool, t: Id, tp': bool, s': State, r: int)
    requires Ranked(g, rank) && id < |g| && t < |g|
    requires (g[id].Array? && g[id].elem == t && !tp') || (g[id] == Mod(t) && tp' == tp)
    requires OrderedWell(g, rank, s, t, tp', s', r)
    ensures OrderedWell(g, rank, s, id, tp, s', r)
  {
  }

  lemma MarkedSound(g: Graph, rank: seq<nat>, s: State, id: Id, tp: bool, r: int)
    requires Ranked(g, rank) && Inv(g, rank, s) && id < |g|
    requires (s.marks[id].Ordered? && r == 1) || (s.marks[id].Ordering? && Weak(g, id, tp) && r == 0)
    ensures OrderedWell(g, rank, s, id, tp, s, r)
  {
    if 0 < id && s.marks[id].Ordered? {
      assert s.finished[..|s.finished|] == s.finished;
      FinishedIsReady(g, rank, s.finished, |s.finished|, id);
    }
  }

  lemma LeafSound(g: Graph, rank: seq<nat>, s: State, id: Id, tp: bool, r: int)
    requires Ranked(g, rank) && Inv(g, rank, s) && id < |g| && s.marks[id].NotOrdered?
    requires || (r == 0 && (g[id].Int? || g[id].Float? || g[id].Other?))
             || (r == 1 && (g[id].Enum? || g[id].Fwd?))
    ensures OrderedWell(g, rank, s, id, tp, Finish(g, s, id), r)
  {
    FinishInv(g, rank, s, id);
    FinishContinues(g, s, s, id);
  }

  lemma PtrSound(g: Graph, rank: seq<nat>, s: State, id: Id, tp: bool, s1: State, r: int)
    requires Ranked(g, rank) && id < |g| && Inv(g, rank, s)
    requires g[id].Ptr? && s.marks[id].NotOrdered?
    requires OrderedWell(g, rank, s, g[id].target, true, s1, r)
    ensures OrderedWell(g, rank, s, id, tp, Finish(g, s1, id), r)
  {
    FinishInv(g, rank, s1, id);
    FinishContinues(g, s, s1, id);
  }

  lemma ProtoSound(
    g: Graph, rank: seq<nat>, s: State, id: Id, tp: bool, s1: State, r1: int, s2: State, r2: int)
    requires Ranked(g, rank) && id < |g| && g[id].FuncProto?
    requires OrderedWell(g, rank, s, g[id].ret, tp, s1, r1)
    requires OrderedAllWell(g, rank, s1, g[id].params, tp, s2, r2)
    ensures OrderedWell(g, rank, s, id, tp, s2, if r1 > 0 then 1 else r2)
  {
    DoneMonotone(g, rank, Elems(s1.finished), Elems(s2.finished), g[id].ret, tp);
    assert Done(g, rank, Elems(s2.finished), id, tp);
    if AllStructs(g, rank, id) && (r1 == 1 || r2 == 1) { ProtoAny(g, rank, s1.finished, s2.finished, id, r1, r2); }
  }

  lemma ProtoAny(g: Graph, rank: seq<nat>, fin: seq<Id>, fin': seq<Id>, id: Id, r1: int, r2: int)
    requires Ranked(g, rank) && id < |g| && g[id].FuncProto? && AllStructs(g, rank, id) && fin <= fin'
    requires (r1 == 1 && AnyIn(g, rank, fin, g[id].ret)) || (r2 == 1 && SomeAnyIn(g, rank, fin', g[id].params))
    ensures StructIn(g, rank, Elems(fin'), id)
  {
    if r1 == 1 && AnyIn(g, rank, fin, g[id].ret) {
      AnyInMonotone(g, rank, fin, fin', g[id].ret);
    } else {
      assert AllAllStructs(g, rank, g[id].params);
    }
  }

  lemma CompositeSound(g: Graph, rank: seq<nat>, s: State, id: Id, tp: bool, s1: State, r: int)
    requires Ranked(g, rank) && id < |g| && Inv(g, rank, s)
    requires g[id].Composite? && s.marks[id].NotOrdered? && !Weak(g, id, tp)
    requires OrderedAllWell(g, rank, Enter(s, id), g[id].members, false, s1, r)
    ensures OrderedWell(g, rank, s, id, tp, Finish(g, s1, id), 1)
  {
    assert Enter(s, id).marks[id].Ordering?;
    FinishInv(g, rank, s1, id);
    FinishContinues(g, s, s1, id);
  }

  lemma TypedefSound(g: Graph, rank: seq<nat>, s: State, id: Id, tp: bool, s1: State, r: int)
    requires Ranked(g, rank) && id < |g| && Inv(g, rank, s)
    requires g[id].Typedef? && s.marks[id].NotOrdered?
    requires OrderedWell(g, rank, s, g[id].target, tp, s1, r)
    ensures if tp && r == 0 then OrderedWell(g, rank, s, id, tp, s1, 0)
            else OrderedWell(g, rank, s, id, tp, Finish(g, s1, id), 1)
  {
    if !(tp && r == 0) {
      if !tp && IsFn(g, rank, id) { DoneThroughPtr(g, rank, Elems(s1.finished), g[id].target); }
      if r == 0 && AllStructs(g, rank, id) { DoneAny(g, rank, s1.finished, g[id].target); }
      AnyInMonotone(g, rank, s1.finished, s1.finished + [id], id);
      FinishInv(g, rank, s1, id);
      FinishContinues(g, s, s1, id);
    }
  }

  // ----- Ordering fails only on a strong cycle -----

  /** What is being ordered is the same before and after a call that does not fail. */
  lemma {:induction false} OrderKeepsMarks(
    g: Graph, rank: seq<nat>, s: State, id: Id, tp: bool, s': State, r: int)
    requires Ranked(g, rank) && id < |g| && MarksOk(g, s)
    requires (s', r) == Order(g, rank, s, id, tp) && r >= 0
    ensures MarksOk(g, s') && SameOrdering(s, s')
    decreases Unentered(g, s), rank[id]
  {
    if s.marks[id].NotOrdered? {
      match g[id]
      case Ptr(t) => OrderKeepsMarks(g, rank, s, t, true, Order(g, rank, s, t, true).0, r);
      case Array(e, _) => OrderKeepsMarks(g, rank, s, e, false, s', r);
      case Mod(t) => OrderKeepsMarks(g, rank, s, t, tp, s', r);
      case Typedef(t, _) =>
        var (s1, r1) := Order(g, rank, s, t, tp);
        OrderKeepsMarks(g, rank, s, t, tp, s1, r1);
      case FuncProto(ret, ps) =>
        var (s1, r1) := Order(g, rank, s, ret, tp);
        OrderKeepsMarks(g, rank, s, ret, tp, s1, r1);
        OrderEachKeepsMarks(g, rank, s1, ps, tp, rank[id], s', OrderEach(g, rank, s1, ps, tp, rank[id]).1);
      case Composite(_, _, ms) =>
        if !Weak(g, id, tp) { OrderMembersKeepMarks(g, rank, s, id, s'); }
      case _ =>
    }
  }

  lemma {:induction false} OrderMembersKeepMarks(g: Graph, rank: seq<nat>, s: State, id: Id, s': State)
    requires Ranked(g, rank) && id < |g| && MarksOk(g, s)
    requires g[id].Composite? && s.marks[id].NotOrdered?
    requires var (s1, r1) := OrderEach(g, rank, Enter(s, id), g[id].members, false, |g| + 1);
             r1 >= 0 && s' == Finish(g, s1, id)
    ensures MarksOk(g, s') && SameOrdering(s, s')
    decreases Unentered(g, s), rank[id], 0
  {
    EnterShrinks(g, s, id);
    var (s1, r1) := OrderEach(g, rank, Enter(s, id), g[id].members, false, |g| + 1);
    OrderEachKeepsMarks(g, rank, Enter(s, id), g[id].members, false, |g| + 1, s1, r1);
  }

  lemma {:induction false} OrderEachKeepsMarks(
    g: Graph, rank: seq<nat>, s: State, ids: seq<Id>, tp: bool, lim: nat, s': State, r: int)
    requires Ranked(g, rank) && MarksOk(g, s)
    requires forall i :: 0 <= i < |ids| ==> ids[i] < |g| && rank[ids[i]] < lim
    requires (s', r) == OrderEach(g, rank, s, ids, tp, lim) && r >= 0
    ensures MarksOk(g, s') && SameOrdering(s, s')
    decreases Unentered(g, s), lim, |ids|
  {
    if ids != [] {
      var (s1, r1) := Order(g, rank, s, ids[0], tp);
      OrderKeepsMarks(g, rank, s, ids[0], tp, s1, r1);
      OrderEachKeepsMarks(g, rank, s1, ids[1..], tp, lim, s', OrderEach(g, rank, s1, ids[1..], tp, lim).1);
    }
  }

  /** Nodes that can be visited, and pairs of them connected by one or more links; both
      are closed under following a link. */
  datatype Links = Links(visited: iset<Node>, connected: iset<(Node, Node)>)

  ghost predicate Closed(g: Graph, rank: seq<nat>, l: Links)
    requires Ranked(g, rank)
  {
    && (forall a: Node, b: Node :: a in l.visited && Step(g, rank, true, a, b) ==> b in l.visited)
    && (forall a: Node, b: Node :: Step(g, rank, true, a, b) ==> (a, b) in l.connected)
    && (forall a: Node, b: Node, c: Node ::
          (a, b) in l.connected && Step(g, rank, true, b, c) ==> (a, c) in l.connected)
  }

  /** The walk stands at `n`, below every type being ordered; `via` holds the flag with
      which each of those was entered. */
  ghost predicate StandsAt(g: Graph, s: State, l: Links, via: map<Id, bool>, n: Node)
    requires |s.marks| == |g|
  {
    && n in l.visited
    && forall c :: 0 <= c < |g| && s.marks[c].Ordering? ==>
         && c in via && !Weak(g, c, via[c])
         && Node(c, via[c]) in l.visited
         && (Node(c, via[c]), n) in l.connected
  }

  ghost predicate AllStandAt(g: Graph, s: State, l: Links, via: map<Id, bool>, ids: seq<Id>, tp: bool)
    requires |s.marks| == |g|
  {
    forall i :: 0 <= i < |ids| ==> StandsAt(g, s, l, via, Node(ids[i], tp))
  }

  lemma StandsAtStep(g: Graph, rank: seq<nat>, s: State, l: Links, via: map<Id, bool>, n: Node, n': Node)
    requires Ranked(g, rank) && |s.marks| == |g| && Closed(g, rank, l)
    requires StandsAt(g, s, l, via, n) && Step(g, rank, true, n, n')
    ensures StandsAt(g, s, l, via, n')
  {
  }

  lemma StandAtParams(g: Graph, rank: seq<nat>, s: State, s': State, l: Links, via: map<Id, bool>, id: Id, tp: bool)
    requires Ranked(g, rank) && |s.marks| == |g| && SameOrdering(s, s') && Closed(g, rank, l)
    requires id < |g| && g[id].FuncProto? && StandsAt(g, s, l, via, Node(id, tp))
    ensures AllStandAt(g, s', l, via, g[id].params, tp)
  {
    forall i | 0 <= i < |g[id].params| ensures StandsAt(g, s', l, via, Node(g[id].params[i], tp)) {
      StandsAtStep(g, rank, s, l, via, Node(id, tp), Node(g[id].params[i], tp));
    }
  }

  lemma StandAtMembers(g: Graph, rank: seq<nat>, s: State, l: Links, via: map<Id, bool>, id: Id, tp: bool)
    requires Ranked(g, rank) && |s.marks| == |g| && Closed(g, rank, l)
    requires id < |g| && g[id].Composite? && !Weak(g, id, tp)
    requires !s.marks[id].Ordering? && StandsAt(g, s, l, via, Node(id, tp))
    ensures AllStandAt(g, Enter(s, id), l, via[id := tp], g[id].members, false)
  {
    var ms := g[id].members;
    forall i | 0 <= i < |ms| ensures StandsAt(g, Enter(s, id), l, via[id := tp], Node(ms[i], false)) {
      assert Step(g, rank, true, Node(id, tp), Node(ms[i], false));
      StandsAtStep(g, rank, s, l, via, Node(id, tp), Node(ms[i], false));
    }
  }

  lemma StandAtRest(g: Graph, s: State, s': State, l: Links, via: map<Id, bool>, ids: seq<Id>, tp: bool)
    requires |s.marks| == |g| && SameOrdering(s, s') && ids != []
    requires AllStandAt(g, s, l, via, ids, tp)
    ensures AllStandAt(g, s', l, via, ids[1..], tp)
  {
    forall i | 0 <= i < |ids[1..]| ensures StandsAt(g, s', l, via, Node(ids[1..][i], tp)) {
      assert StandsAt(g, s, l, via, Node(ids[i + 1], tp));
    }
  }

  /** `a` and `b` are visits to one struct or union, both strong, the second below the first. */
  ghost predicate ClosesCycle(g: Graph, l: Links, a: Node, b: Node) {
    && a.id < |g| && g[a.id].Composite? && a.id == b.id
    && !Weak(g, a.id, a.tp) && !Weak(g, b.id, b.tp)
    && a in l.visited && (a, b) in l.connected
  }

  /** A call fails only with the loop error, and then the visits that close a strong cycle
      can be named. */
  lemma {:induction false} OrderFailsOnCycle(
    g: Graph, rank: seq<nat>, s: State, id: Id, tp: bool, r: int, l: Links, via: map<Id, bool>)
    returns (a: Node, b: Node)
    requires Ranked(g, rank) && id < |g| && MarksOk(g, s) && Closed(g, rank, l)
    requires StandsAt(g, s, l, via, Node(id, tp))
    requires r == Order(g, rank, s, id, tp).1 && r < 0
    ensures r == ELOOP && ClosesCycle(g, l, a, b)
    decreases Unentered(g, s), rank[id]
  {
    if s.marks[id].Ordering? {
      a, b := Node(id, via[id]), Node(id, tp);
    } else {
      match g[id]
      case Ptr(t) => a, b := OrderFailsBelow(g, rank, s, id, tp, t, true, r, l, via);
      case Array(e, _) => a, b := OrderFailsBelow(g, rank, s, id, tp, e, false, r, l, via);
      case Mod(t) => a, b := OrderFailsBelow(g, rank, s, id, tp, t, tp, r, l, via);
      case Typedef(t, _) => a, b := OrderFailsBelow(g, rank, s, id, tp, t, tp, r, l, via);
      case FuncProto(ret, ps) =>
        var (s1, r1) := Order(g, rank, s, ret, tp);
        if r1 < 0 {
          a, b := OrderFailsBelow(g, rank, s, id, tp, ret, tp, r, l, via);
        } else {
          OrderKeepsMarks(g, rank, s, ret, tp, s1, r1);
          StandAtParams(g, rank, s, s1, l, via, id, tp);
          a, b := OrderEachFailsOnCycle(g, rank, s1, ps, tp, rank[id], r, l, via);
        }
      case Composite(_, _, ms) =>
        EnterShrinks(g, s, id);
        StandAtMembers(g, rank, s, l, via, id, tp);
        a, b := OrderEachFailsOnCycle(g, rank, Enter(s, id), ms, false, |g| + 1, r, l, via[id := tp]);
    }
  }

  /** The step to the single type that a pointer, array, typedef or modifier leads to. */
  lemma {:induction false} OrderFailsBelow(
    g: Graph, rank: seq<nat>, s: State, id: Id, tp: bool, t: Id, tp': bool, r: int, l: Links, via: map<Id, bool>)
    returns (a: Node, b: Node)
    requires Ranked(g, rank) && id < |g| && t < |g| && MarksOk(g, s) && rank[t] < rank[id] && Closed(g, rank, l)
    requires StandsAt(g, s, l, via, Node(id, tp))
    requires Step(g, rank, true, Node(id, tp), Node(t, tp'))
    requires r == Order(g, rank, s, t, tp').1 && r < 0
    ensures r == ELOOP && ClosesCycle(g, l, a, b)
    decreases Unentered(g, s), rank[id], 0
  {
    StandsAtStep(g, rank, s, l, via, Node(id, tp), Node(t, tp'));
    a, b := OrderFailsOnCycle(g, rank, s, t, tp', r, l, via);
  }

  lemma {:induction false} OrderEachFailsOnCycle(
    g: Graph, rank: seq<nat>, s: State, ids: seq<Id>, tp: bool, lim: nat, r: int, l: Links, via: map<Id, bool>)
    returns (a: Node, b: Node)
    requires Ranked(g, rank) && MarksOk(g, s) && Closed(g, rank, l)
    requires forall i :: 0 <= i < |ids| ==> ids[i] < |g| && rank[ids[i]] < lim
    requires AllStandAt(g, s, l, via, ids, tp)
    requires r == OrderEach(g, rank, s, ids, tp, lim).1 && r < 0
    ensures r == ELOOP && ClosesCycle(g, l, a, b)
    decreases Unentered(g, s), lim, |ids|
  {
    assert StandsAt(g, s, l, via, Node(ids[0], tp));
    var (s1, r1) := Order(g, rank, s, ids[0], tp);
    if r1 < 0 {
      a, b := OrderFailsOnCycle(g, rank, s, ids[0], tp, r1, l, via);
    } else {
      OrderKeepsMarks(g, rank, s, ids[0], tp, s1, r1);
      StandAtRest(g, s, s1, l, via, ids, tp);
      a, b := OrderEachFailsOnCycle(g, rank, s1, ids[1..], tp, lim, r, l, via);
    }
  }

  lemma LinksFrom(g: Graph, rank: seq<nat>, root: Node) returns (l: Links)
    requires Ranked(g, rank) && root.id < |g|
    ensures Closed(g, rank, l) && root in l.visited
    ensures forall a: Node :: a in l.visited ==> Reaches(g, rank, true, root, a, 0)
    ensures forall a: Node, b: Node :: (a, b) in l.connected ==> Reaches(g, rank, true, a, b, 1)
  {
    l := Links(iset a: Node | Reaches(g, rank, true, root, a, 0),
               iset a: Node, b: Node | Reaches(g, rank, true, a, b, 1) :: (a, b));
    ReachesSelf(g, rank, true, root);
    forall a: Node, b: Node | a in l.visited && Step(g, rank, true, a, b) ensures b in l.visited {
      ReachesStep(g, rank, true, root, a, b, 0);
    }
    forall a: Node, b: Node | Step(g, rank, true, a, b) ensures (a, b) in l.connected {
      ReachesSelf(g, rank, true, a);
      ReachesStep(g, rank, true, a, a, b, 0);
    }
    forall a: Node, b: Node, c: Node | (a, b) in l.connected && Step(g, rank, true, b, c)
      ensures (a, c) in l.connected
    {
      ReachesStep(g, rank, true, a, b, c, 1);
    }
  }

  /** If nothing is being ordered, a failing call means that a strong cycle can be reached. */
  lemma FailureMeansCycle(g: Graph, rank: seq<nat>, s: State, id: Id, tp: bool)
    requires Ranked(g, rank) && id < |g| && MarksOk(g, s)
    requires forall i :: 0 <= i < |g| ==> !s.marks[i].Ordering?
    requires Order(g, rank, s, id, tp).1 < 0
    ensures Order(g, rank, s, id, tp).1 == ELOOP && StrongCycle(g, rank, true, Node(id, tp))
  {
    var l := LinksFrom(g, rank, Node(id, tp));
    var r := Order(g, rank, s, id, tp).1;
    var a, b := OrderFailsOnCycle(g, rank, s, id, tp, r, l, map[]);
  }

  lemma EnterInv(g: Graph, rank: seq<nat>, s: State, id: Id)
    requires Ranked(g, rank) && id < |g| && Inv(g, rank, s)
    requires g[id].Composite? && s.marks[id].NotOrdered?
    ensures Inv(g, rank, Enter(s, id))
    ensures Unentered(g, Enter(s, id)) < Unentered(g, s)
  {
    EnterShrinks(g, s, id);
  }

  // ----- The queue lists what was finished -----

  /** The states in which all entries queued, `past` ones included, are those of the
      finished types. */
  ghost function Listing(g: Graph, past: seq<Id>): iset<State> {
    iset s: State | QueueOf(g, s.finished) == past + s.queue
  }

  lemma FinishQueues(g: Graph, past: seq<Id>, s: State, id: Id)
    requires id < |g| == |s.marks| && s in Listing(g, past)
    ensures Finish(g, s, id) in Listing(g, past)
  {
    assert (s.finished + [id])[..|s.finished|] == s.finished;
  }

  lemma {:induction false} OrderQueues(
    g: Graph, rank: seq<nat>, past: seq<Id>, s: State, id: Id, tp: bool, s': State)
    requires Ranked(g, rank) && id < |g| == |s.marks| && s in Listing(g, past)
    requires s' == Order(g, rank, s, id, tp).0
    ensures s' in Listing(g, past)
    decreases Unentered(g, s), rank[id]
  {
    if s.marks[id].NotOrdered? {
      match g[id]
      case Ptr(t) =>
        var s1 := Order(g, rank, s, t, true).0;
        OrderQueues(g, rank, past, s, t, true, s1);
        FinishQueues(g, past, s1, id);
      case Array(e, _) => OrderQueues(g, rank, past, s, e, false, s');
      case Mod(t) => OrderQueues(g, rank, past, s, t, tp, s');
      case Typedef(t, _) =>
        var s1 := Order(g, rank, s, t, tp).0;
        OrderQueues(g, rank, past, s, t, tp, s1);
        FinishQueues(g, past, s1, id);
      case FuncProto(ret, ps) =>
        var s1 := Order(g, rank, s, ret, tp).0;
        OrderQueues(g, rank, past, s, ret, tp, s1);
        OrderEachQueues(g, rank, past, s1, ps, tp, rank[id], OrderEach(g, rank, s1, ps, tp, rank[id]).0);
      case Composite(_, _, ms) =>
        if !Weak(g, id, tp) { OrderMembersQueue(g, rank, past, s, id, tp, s'); }
      case Void =>
      case _ => FinishQueues(g, past, s, id);
    }
  }

  lemma {:induction false} OrderMembersQueue(
    g: Graph, rank: seq<nat>, past: seq<Id>, s: State, id: Id, tp: bool, s': State)
    requires Ranked(g, rank) && id < |g| == |s.marks| && s in Listing(g, past)
    requires g[id].Composite? && s.marks[id].NotOrdered? && !Weak(g, id, tp)
    requires s' == Order(g, rank, s, id, tp).0
    ensures s' in Listing(g, past)
    decreases Unentered(g, s), rank[id], 0
  {
    var ms := g[id].members;
    EnterShrinks(g, s, id);
    var s1 := OrderEach(g, rank, Enter(s, id), ms, false, |g| + 1).0;
    OrderEachQueues(g, rank, past, Enter(s, id), ms, false, |g| + 1, s1);
    FinishQueues(g, past, s1, id);
  }

  lemma {:induction false} OrderEachQueues(
    g: Graph, rank: seq<nat>, past: seq<Id>, s: State, ids: seq<Id>, tp: bool, lim: nat, s': State)
    requires Ranked(g, rank) && |g| == |s.marks| && s in Listing(g, past)
    requires forall i :: 0 <= i < |ids| ==> ids[i] < |g| && rank[ids[i]] < lim
    requires s' == OrderEach(g, rank, s, ids, tp, lim).0
    ensures s' in Listing(g, past)
    decreases Unentered(g, s), lim, |ids|
  {
    if ids != [] {
      var (s1, r1) := Order(g, rank, s, ids[0], tp);
      OrderQueues(g, rank, past, s, ids[0], tp, s1);
      if r1 >= 0 { OrderEachQueues(g, rank, past, s1, ids[1..], tp, lim, s'); }
    }
  }
}
