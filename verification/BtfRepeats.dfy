/** Which types a visit can finish twice: on C-like graphs only typedefs of function types
    that lead back to themselves, and of those only the ones whose own needs allow it. */
module BtfRepeats {
  import opened BtfGraph
  import opened BtfOrder

  /** A typedef of a function type that leads back to itself. */
  ghost predicate LoopingFn(g: Graph, rank: seq<nat>, id: Id)
    requires Ranked(g, rank) && id < |g|
  {
    && g[id].Typedef? && IsFn(g, rank, id)
    && exists a: bool, b: bool :: Reaches(g, rank, true, Node(id, a), Node(id, b), 1)
  }

  /** One that leads back to itself and, if it leads to structs only, can do so without
      anything that one of these needs. */
  ghost predicate MayRepeat(g: Graph, rank: seq<nat>, id: Id)
    requires Ranked(g, rank) && id < |g|
  {
    && LoopingFn(g, rank, id)
    && (AllStructs(g, rank, id) ==> exists c, p :: Escapes(g, rank, id, c, p))
  }

  /** No type is finished twice, except possibly such a function typedef. */
  ghost predicate OnlyFnRepeats(g: Graph, rank: seq<nat>, fin: seq<Id>)
    requires Ranked(g, rank)
  {
    forall i, j :: 0 <= i < j < |fin| && fin[i] == fin[j] && fin[i] < |g| ==> MayRepeat(g, rank, fin[i])
  }

  ghost predicate ClosedSet(g: Graph, rank: seq<nat>, R: iset<Node>)
    requires Ranked(g, rank)
  {
    forall a: Node, b: Node :: a in R && Step(g, rank, true, a, b) ==> b in R
  }

  /** Reached in R, and not only where a forward declaration is enough. */
  ghost predicate Visited(g: Graph, R: iset<Node>, id: Id)
    requires id < |g|
  {
    Node(id, false) in R || (Node(id, true) in R && !Weak(g, id, true))
  }

  /** Everything finished since `s` belongs to R. */
  ghost predicate NewIn(g: Graph, s: State, s': State, R: iset<Node>) {
    && s.finished <= s'.finished
    && forall i :: |s.finished| <= i < |s'.finished| ==> s'.finished[i] < |g| && Visited(g, R, s'.finished[i])
  }

  lemma NewInFinish(g: Graph, s: State, s1: State, id: Id, R: iset<Node>)
    requires id < |g| == |s1.marks| && NewIn(g, s, s1, R) && Visited(g, R, id)
    ensures NewIn(g, s, Finish(g, s1, id), R)
  {
  }

  lemma NewInBoth(g: Graph, s: State, s1: State, s2: State, R: iset<Node>)
    requires NewIn(g, s, s1, R) && NewIn(g, s1, s2, R)
    ensures NewIn(g, s, s2, R)
  {
  }

  /** A call finishes only what it can reach. */
  lemma {:induction false} OrderNewIn(g: Graph, rank: seq<nat>, s: State, id: Id, tp: bool, s': State, R: iset<Node>)
    requires Ranked(g, rank) && id < |g| == |s.marks| && ClosedSet(g, rank, R) && Node(id, tp) in R
    requires s' == Order(g, rank, s, id, tp).0
    ensures NewIn(g, s, s', R)
    decreases Unentered(g, s), rank[id]
  {
    if s.marks[id].NotOrdered? {
      match g[id]
      case Ptr(t) =>
        assert Step(g, rank, true, Node(id, tp), Node(t, true));
        var s1 := Order(g, rank, s, t, true).0;
        OrderNewIn(g, rank, s, t, true, s1, R);
        NewInFinish(g, s, s1, id, R);
      case Array(e, _) =>
        assert Step(g, rank, true, Node(id, tp), Node(e, false));
        OrderNewIn(g, rank, s, e, false, s', R);
      case Mod(t) =>
        assert Step(g, rank, true, Node(id, tp), Node(t, tp));
        OrderNewIn(g, rank, s, t, tp, s', R);
      case Typedef(t, _) =>
        assert Step(g, rank, true, Node(id, tp), Node(t, tp));
        var s1 := Order(g, rank, s, t, tp).0;
        OrderNewIn(g, rank, s, t, tp, s1, R);
        NewInFinish(g, s, s1, id, R);
      case FuncProto(ret, ps) =>
        assert Step(g, rank, true, Node(id, tp), Node(ret, tp));
        var (s1, r1) := Order(g, rank, s, ret, tp);
        OrderNewIn(g, rank, s, ret, tp, s1, R);
        if r1 >= 0 { OrderParamsNewIn(g, rank, s, id, tp, s1, s', R); }
      case Composite(_, _, ms) => if !Weak(g, id, tp) { OrderMembersNewIn(g, rank, s, id, tp, s', R); }
      case Void =>
      case _ => NewInFinish(g, s, s, id, R);
    }
  }

  lemma {:induction false} OrderParamsNewIn(
    g: Graph, rank: seq<nat>, s: State, id: Id, tp: bool, s1: State, s': State, R: iset<Node>)
    requires Ranked(g, rank) && id < |g| == |s.marks| == |s1.marks| && g[id].FuncProto?
    requires Unentered(g, s1) <= Unentered(g, s) && ClosedSet(g, rank, R) && Node(id, tp) in R && NewIn(g, s, s1, R)
    requires s' == OrderEach(g, rank, s1, g[id].params, tp, rank[id]).0
    ensures NewIn(g, s, s', R)
    decreases Unentered(g, s), rank[id], |g[id].params| + 1
  {
    var ps := g[id].params;
    forall i | 0 <= i < |ps| ensures Node(ps[i], tp) in R {
      assert Step(g, rank, true, Node(id, tp), Node(ps[i], tp));
    }
    OrderEachNewIn(g, rank, s1, ps, tp, rank[id], s', R);
    NewInBoth(g, s, s1, s', R);
  }

  lemma {:induction false} OrderMembersNewIn(
    g: Graph, rank: seq<nat>, s: State, id: Id, tp: bool, s': State, R: iset<Node>)
    requires Ranked(g, rank) && id < |g| == |s.marks| && ClosedSet(g, rank, R) && Node(id, tp) in R
    requires g[id].Composite? && s.marks[id].NotOrdered? && !Weak(g, id, tp)
    requires s' == Order(g, rank, s, id, tp).0
    ensures NewIn(g, s, s', R)
    decreases Unentered(g, s), rank[id], 0
  {
    EnterShrinks(g, s, id);
    var ms := g[id].members;
    forall i | 0 <= i < |ms| ensures Node(ms[i], false) in R {
      assert Step(g, rank, true, Node(id, tp), Node(ms[i], false));
    }
    var s1 := OrderEach(g, rank, Enter(s, id), ms, false, |g| + 1).0;
    OrderEachNewIn(g, rank, Enter(s, id), ms, false, |g| + 1, s1, R);
    NewInFinish(g, s, s1, id, R);
  }

  lemma {:induction false} OrderEachNewIn(
    g: Graph, rank: seq<nat>, s: State, ids: seq<Id>, tp: bool, lim: nat, s': State, R: iset<Node>)
    requires Ranked(g, rank) && |g| == |s.marks| && ClosedSet(g, rank, R)
    requires forall i :: 0 <= i < |ids| ==> ids[i] < |g| && rank[ids[i]] < lim
    requires forall i :: 0 <= i < |ids| ==> Node(ids[i], tp) in R
    requires s' == OrderEach(g, rank, s, ids, tp, lim).0
    ensures NewIn(g, s, s', R)
    decreases Unentered(g, s), lim, |ids|
  {
    if ids != [] {
      var (s1, r1) := Order(g, rank, s, ids[0], tp);
      OrderNewIn(g, rank, s, ids[0], tp, s1, R);
      if r1 >= 0 {
        OrderEachNewIn(g, rank, s1, ids[1..], tp, lim, s', R);
        NewInBoth(g, s, s1, s', R);
      }
    }
  }

  /** A typedef that is finished while its target is being ordered leads back to itself. */
  lemma FinishedBelowLoops(g: Graph, rank: seq<nat>, s: State, id: Id, tp: bool, s1: State) returns (b: bool)
    requires Ranked(g, rank) && id < |g| == |s.marks| && g[id].Typedef? && IsFn(g, rank, id)
    requires s1 == Order(g, rank, s, g[id].target, tp).0 && id !in s.finished && id in s1.finished
    ensures LoopingFn(g, rank, id) && Reaches(g, rank, true, Node(id, tp), Node(id, b), 1)
  {
    var from := Node(id, tp);
    var R := iset a: Node | Reaches(g, rank, true, from, a, 1);
    var t := Node(g[id].target, tp);
    ReachesSelf(g, rank, true, from);
    ReachesStep(g, rank, true, from, from, t, 0);
    forall a: Node, b: Node | a in R && Step(g, rank, true, a, b) ensures b in R {
      ReachesStep(g, rank, true, from, a, b, 1);
    }
    OrderNewIn(g, rank, s, t.id, tp, s1, R);
    var k :| 0 <= k < |s1.finished| && s1.finished[k] == id;
    assert k >= |s.finished|;
    assert Visited(g, R, s1.finished[k]);
    b := Node(id, true) in R;
  }

  // ----- Function types that lead to structs only -----

  /** The way of the walk from x to n: a literal path whose structs are being ordered. */
  ghost predicate Trail(g: Graph, rank: seq<nat>, s: State, x: Id, p: seq<Node>, n: Node)
    requires Ranked(g, rank) && |s.marks| == |g|
  {
    && Path(g, rank, true, p) && p[0] == Node(x, false) && p[|p| - 1] == n
    && forall i :: 0 <= i < |p| - 1 && g[p[i].id].Composite? ==> s.marks[p[i].id].Ordering?
  }

  /** From its i-th node on the path is among function types. */
  ghost predicate FnFrom(g: Graph, rank: seq<nat>, p: seq<Node>, i: nat)
    requires Ranked(g, rank) && forall k :: 0 <= k < |p| ==> p[k].id < |g|
  {
    forall k :: i <= k < |p| ==> IsFn(g, rank, p[k].id)
  }

  /** The pointer through which the path last got to a function type is not ordered yet. */
  ghost predicate PointerOpen(g: Graph, rank: seq<nat>, s: State, p: seq<Node>)
    requires Ranked(g, rank) && |s.marks| == |g| && forall k :: 0 <= k < |p| ==> p[k].id < |g|
  {
    forall k :: 0 < k < |p| && g[p[k - 1].id].Ptr? && FnFrom(g, rank, p, k) ==> s.marks[p[k - 1].id].NotOrdered?
  }

  /** The trail where the walk stands at n, in the state in which it visits n. */
  ghost predicate StandsOn(g: Graph, rank: seq<nat>, s: State, x: Id, p: seq<Node>, n: Node)
    requires Ranked(g, rank) && |s.marks| == |g|
  {
    Trail(g, rank, s, x, p, n) && PointerOpen(g, rank, s, p)
  }

  lemma TrailStep(g: Graph, rank: seq<nat>, s: State, x: Id, p: seq<Node>, n: Node, m: Node, q: seq<Node>)
    requires Ranked(g, rank) && |s.marks| == |g| && Trail(g, rank, s, x, p, n)
    requires n.id < |g| && Step(g, rank, true, n, m) && q == p + [m]
    requires g[n.id].Composite? ==> s.marks[n.id].Ordering?
    ensures m.id < |g| && Trail(g, rank, s, x, q, m)
  {
    PathAppend(g, rank, true, p, m);
  }

  /** On to a type that is no function type. */
  lemma StandsOnNext(g: Graph, rank: seq<nat>, s: State, x: Id, p: seq<Node>, n: Node, m: Node, q: seq<Node>)
    requires Ranked(g, rank) && |s.marks| == |g| && Trail(g, rank, s, x, p, n)
    requires n.id < |g| && Step(g, rank, true, n, m) && q == p + [m] && m.id < |g| && !IsFn(g, rank, m.id)
    requires g[n.id].Composite? ==> s.marks[n.id].Ordering?
    ensures StandsOn(g, rank, s, x, q, m)
  {
    TrailStep(g, rank, s, x, p, n, m, q);
    forall k | 0 < k < |q| ensures !FnFrom(g, rank, q, k) {
      assert !IsFn(g, rank, q[|q| - 1].id);
    }
  }

  /** On to the one type that an unordered type leads to. */
  lemma StandsOnThrough(g: Graph, rank: seq<nat>, s: State, x: Id, p: seq<Node>, n: Node, m: Node, q: seq<Node>)
    requires Ranked(g, rank) && |s.marks| == |g| && StandsOn(g, rank, s, x, p, n)
    requires n.id < |g| && Step(g, rank, true, n, m) && q == p + [m]
    requires !g[n.id].Composite? && s.marks[n.id].NotOrdered?
    ensures m.id < |g| && StandsOn(g, rank, s, x, q, m)
  {
    TrailStep(g, rank, s, x, p, n, m, q);
    forall k | 0 < k < |q| && g[q[k - 1].id].Ptr? && FnFrom(g, rank, q, k) ensures s.marks[q[k - 1].id].NotOrdered? {
      assert q[k - 1] == p[k - 1];
      if k < |p| {
        forall l | k <= l < |p| ensures IsFn(g, rank, p[l].id) { assert q[l] == p[l]; }
        assert FnFrom(g, rank, p, k);
      }
    }
  }

  lemma TrailStays(g: Graph, rank: seq<nat>, s: State, s1: State, x: Id, p: seq<Node>, n: Node)
    requires Ranked(g, rank) && |s.marks| == |g| && Trail(g, rank, s, x, p, n)
    requires |s1.marks| == |g| && forall i :: 0 <= i < |g| && s.marks[i].Ordering? ==> s1.marks[i].Ordering?
    ensures Trail(g, rank, s1, x, p, n)
  {
  }

  /** The states in which the walk goes on from the end of the trail, with x not finished. */
  ghost function Walks(g: Graph, rank: seq<nat>, x: Id, p: seq<Node>, n: Node): iset<State>
    requires Ranked(g, rank)
  {
    iset s: State |
      && Inv(g, rank, s) && x !in s.finished && Trail(g, rank, s, x, p, n)
      && n.id < |g| && (g[n.id].Composite? ==> s.marks[n.id].Ordering?)
  }

  lemma WalkGoesOn(g: Graph, rank: seq<nat>, s: State, s1: State, x: Id, p: seq<Node>, n: Node)
    requires Ranked(g, rank) && s in Walks(g, rank, x, p, n)
    requires Inv(g, rank, s1) && Continues(s, s1) && x !in s1.finished
    ensures s1 in Walks(g, rank, x, p, n)
  {
    TrailStays(g, rank, s, s1, x, p, n);
  }

  // ----- A part that is finished when the typedef is met again -----

  /** Everything later on the path has what it needs, once a node on it has. */
  lemma DoneAlong(g: Graph, rank: seq<nat>, fin: seq<Id>, p: seq<Node>, i: nat, k: nat)
    requires Ranked(g, rank) && CLike(g, rank) && Topological(g, rank, fin) && Path(g, rank, true, p)
    requires i <= k < |p| && (p[i].tp || !IsFn(g, rank, p[i].id)) && Done(g, rank, Elems(fin), p[i].id, p[i].tp)
    ensures Done(g, rank, Elems(fin), p[k].id, p[k].tp)
  {
    var q := p[i..k + 1];
    assert q == p[i..][..k - i + 1];
    PathSuffix(g, rank, true, p, i, p[i..]);
    PathPrefix(g, rank, true, p[i..], k - i + 1, q);
    LiteralPathIsPath(g, rank, q, |q| - 1);
    assert Path(g, rank, false, q);
    assert fin[..|fin|] == fin;
    DonePath(g, rank, fin, |fin|, q);
  }

  /** What a finished struct needs is finished. */
  lemma NeededIsFinished(g: Graph, rank: seq<nat>, s: State, c: Id, k: Id)
    requires Ranked(g, rank) && CLike(g, rank) && Inv(g, rank, s) && c < |g| && g[c].Composite? && c in s.finished
    requires k < |g| && NeededBy(g, rank, c, k) && (g[k].Composite? || g[k].Ptr?)
    ensures k in s.finished
  {
    var b: bool :| Reaches(g, rank, true, Node(c, false), Node(k, b), 0) && !Weak(g, k, b);
    var p: seq<Node> :|
      Path(g, rank, true, p) && |p| > 0 && p[0] == Node(c, false) && p[|p| - 1] == Node(k, b);
    DoneAlong(g, rank, s.finished, p, 0, |p| - 1);
  }

  /** On a trail that has come back to the typedef, a finished part needs nothing. */
  lemma TrailNotNeeded(g: Graph, rank: seq<nat>, s: State, x: Id, p: seq<Node>, i: nat, c: Id)
    requires Ranked(g, rank) && CLike(g, rank) && Inv(g, rank, s) && x < |g| && IsFn(g, rank, x)
    requires StandsOn(g, rank, s, x, p, Node(x, true)) && i < |p| - 1
    requires g[p[i].id].Composite? || g[p[i].id].Ptr?
    requires c < |g| && g[c].Composite? && c in s.finished
    ensures !NeededBy(g, rank, c, p[i].id)
  {
    if NeededBy(g, rank, c, p[i].id) {
      NeededIsFinished(g, rank, s, c, p[i].id);
      assert 0 < p[i].id;
      if g[p[i].id].Ptr? { var k := FinishedPointer(g, rank, s, p, i); }
    }
  }

  /** A finished pointer on the path leads to a struct or pointer on it that is not open. */
  lemma FinishedPointer(g: Graph, rank: seq<nat>, s: State, p: seq<Node>, i: nat) returns (k: nat)
    requires Ranked(g, rank) && CLike(g, rank) && Inv(g, rank, s) && Path(g, rank, true, p)
    requires i < |p| - 1 && g[p[i].id].Ptr? && p[i].id in s.finished && IsFn(g, rank, p[|p| - 1].id)
    ensures i <= k < |p| - 1 && 0 < p[k].id && s.marks[p[k].id].Ordered?
    ensures g[p[k].id].Composite? || (g[p[k].id].Ptr? && FnFrom(g, rank, p, k + 1))
  {
    k := LastBeforeFn(g, rank, p, i, |p| - 1);
    assert Step(g, rank, true, p[k], p[k + 1]);
    DoneAlong(g, rank, s.finished, p, i, k);
  }

  /** The node, from the i-th on, through which the path last got to a function type. */
  lemma {:induction false} LastBeforeFn(g: Graph, rank: seq<nat>, p: seq<Node>, i: nat, n: nat) returns (k: nat)
    requires Ranked(g, rank) && Path(g, rank, true, p) && i < n < |p| && FnFrom(g, rank, p, n)
    requires !IsFn(g, rank, p[i].id)
    ensures i <= k < n && !IsFn(g, rank, p[k].id) && FnFrom(g, rank, p, k + 1)
  {
    if IsFn(g, rank, p[n - 1].id) {
      k := LastBeforeFn(g, rank, p, i, n - 1);
    } else {
      k := n - 1;
    }
  }

  /** There is no path of the typedef back to itself that a part of it allows. */
  ghost predicate NoEscape(g: Graph, rank: seq<nat>, x: Id)
    requires Ranked(g, rank) && x < |g|
  {
    && g[x].Typedef? && IsFn(g, rank, x) && AllStructs(g, rank, x)
    && forall c, p :: !Escapes(g, rank, x, c, p)
  }

  ghost function Trapped(g: Graph, rank: seq<nat>): iset<Id>
    requires Ranked(g, rank)
  {
    iset x: Id | x < |g| && NoEscape(g, rank, x)
  }

  lemma PartEscapes(g: Graph, rank: seq<nat>, s: State, x: Id, p: seq<Node>) returns (c: Id)
    requires Ranked(g, rank) && CLike(g, rank) && Inv(g, rank, s) && x < |g| && IsFn(g, rank, x)
    requires StandsOn(g, rank, s, x, p, Node(x, true)) && |p| > 1 && StructIn(g, rank, Elems(s.finished), x)
    ensures Escapes(g, rank, x, c, p)
  {
    c := StructInWay(g, rank, Elems(s.finished), x);
    forall i | 0 <= i < |p| - 1 && (g[p[i].id].Composite? || g[p[i].id].Ptr?)
      ensures !NeededBy(g, rank, c, p[i].id)
    {
      TrailNotNeeded(g, rank, s, x, p, i, c);
    }
  }

  lemma NoPartFinished(g: Graph, rank: seq<nat>, s: State, x: Id, p: seq<Node>)
    requires Ranked(g, rank) && CLike(g, rank) && Inv(g, rank, s) && x in Trapped(g, rank)
    requires StandsOn(g, rank, s, x, p, Node(x, true))
    ensures !StructIn(g, rank, Elems(s.finished), x)
  {
    if StructIn(g, rank, Elems(s.finished), x) { var c := PartEscapes(g, rank, s, x, p); }
  }

  /** Behind a pointer, a type that leads to structs only leaves no trace before one of them
      is finished. */
  lemma {:induction false} QuietVisit(g: Graph, rank: seq<nat>, s: State, id: Id)
    requires Ranked(g, rank) && id < |g| && Inv(g, rank, s)
    requires AllStructs(g, rank, id) && !StructIn(g, rank, Elems(s.finished), id)
    ensures Order(g, rank, s, id, true) == (s, 0)
    decreases rank[id], if g[id].FuncProto? then |g[id].params| + 1 else 0
  {
    if s.marks[id].Ordered? { QuietUnmarked(g, rank, s, id); }
    match g[id]
    case Typedef(t, _) => QuietVisit(g, rank, s, t);
    case Mod(t) => QuietVisit(g, rank, s, t);
    case FuncProto(r, ps) =>
      QuietVisit(g, rank, s, r);
      QuietEach(g, rank, s, ps, rank[id]);
    case _ =>
  }

  lemma QuietUnmarked(g: Graph, rank: seq<nat>, s: State, id: Id)
    requires Ranked(g, rank) && id < |g| && Inv(g, rank, s) && s.marks[id].Ordered?
    requires AllStructs(g, rank, id)
    ensures StructIn(g, rank, Elems(s.finished), id)
  {
    assert AnyIn(g, rank, s.finished, id);
  }

  lemma {:induction false} QuietEach(g: Graph, rank: seq<nat>, s: State, ids: seq<Id>, lim: nat)
    requires Ranked(g, rank) && Inv(g, rank, s)
    requires forall i :: 0 <= i < |ids| ==> ids[i] < |g| && rank[ids[i]] < lim
    requires AllAllStructs(g, rank, ids)
    requires forall i :: 0 <= i < |ids| ==> !StructIn(g, rank, Elems(s.finished), ids[i])
    ensures OrderEach(g, rank, s, ids, true, lim) == (s, 0)
    decreases lim, |ids|
  {
    if ids != [] {
      QuietVisit(g, rank, s, ids[0]);
      QuietEach(g, rank, s, ids[1..], lim);
    }
  }

  // ----- Without an escape the typedef is never finished below itself -----

  lemma {:induction false} OrderAvoids(
    g: Graph, rank: seq<nat>, s: State, id: Id, tp: bool, s': State, r: int, x: Id, p: seq<Node>)
    requires Ranked(g, rank) && id < |g| == |s.marks| && (s', r) == Order(g, rank, s, id, tp) && r >= 0
    requires CLike(g, rank) && Inv(g, rank, s) && x in Trapped(g, rank) && x !in s.finished
    requires StandsOn(g, rank, s, x, p, Node(id, tp)) && (tp || !IsFn(g, rank, id))
    ensures x !in s'.finished
    decreases Unentered(g, s), rank[id]
  {
    if s.marks[id].NotOrdered? && id == x {
      NoPartFinished(g, rank, s, x, p);
      QuietVisit(g, rank, s, x);
    } else if s.marks[id].NotOrdered? {
      match g[id]
      case Ptr(t) => AvoidsThrough(g, rank, s, id, tp, t, true, x, p);
      case Array(e, _) =>
        assert e in Children(g[id]);
        AvoidsThrough(g, rank, s, id, tp, e, false, x, p);
      case Mod(t) => AvoidsThrough(g, rank, s, id, tp, t, tp, x, p);
      case Typedef(t, _) => AvoidsThrough(g, rank, s, id, tp, t, tp, x, p);
      case FuncProto(ret, ps) => AvoidsParts(g, rank, s, id, tp, s', r, x, p);
      case Composite(_, _, ms) =>
        if !Weak(g, id, tp) {
          var e := Enter(s, id);
          var (s1, r1) := OrderEach(g, rank, e, ms, false, |g| + 1);
          AvoidsMembers(g, rank, s, id, tp, e, s1, r1, x, p);
        }
      case _ =>
    }
  }

  /** The step to one type that a node leads to. */
  lemma {:induction false} AvoidsThrough(
    g: Graph, rank: seq<nat>, s: State, id: Id, tp: bool, t: Id, tp': bool, x: Id, p: seq<Node>)
    requires Ranked(g, rank) && id < |g| == |s.marks| && t < |g| && rank[t] < rank[id]
    requires Order(g, rank, s, t, tp').1 >= 0
    requires CLike(g, rank) && Inv(g, rank, s) && x in Trapped(g, rank) && x !in s.finished
    requires StandsOn(g, rank, s, x, p, Node(id, tp)) && s.marks[id].NotOrdered? && !g[id].Composite?
    requires Step(g, rank, true, Node(id, tp), Node(t, tp')) && (tp' || !IsFn(g, rank, t))
    ensures x !in Order(g, rank, s, t, tp').0.finished
    decreases Unentered(g, s), rank[id], 0
  {
    var m := Node(t, tp');
    StandsOnThrough(g, rank, s, x, p, Node(id, tp), m, p + [m]);
    var (s1, r1) := Order(g, rank, s, t, tp');
    OrderAvoids(g, rank, s, t, tp', s1, r1, x, p + [m]);
  }

  /** The walk is about to visit these types, which all hang on the end of the trail and are
      no function types. */
  ghost predicate HangOn(g: Graph, rank: seq<nat>, n: Node, ids: seq<Id>, tp: bool, lim: nat)
    requires Ranked(g, rank)
  {
    forall i :: 0 <= i < |ids| ==>
      && ids[i] < |g| && rank[ids[i]] < lim
      && Step(g, rank, true, n, Node(ids[i], tp)) && !IsFn(g, rank, ids[i])
  }

  lemma PartsHang(g: Graph, rank: seq<nat>, id: Id, tp: bool)
    requires Ranked(g, rank) && CLike(g, rank) && id < |g|
    ensures g[id].FuncProto? ==> HangOn(g, rank, Node(id, tp), g[id].params, tp, rank[id])
    ensures g[id].FuncProto? ==> HangOn(g, rank, Node(id, tp), [g[id].ret], tp, rank[id])
    ensures g[id].Composite? && !Weak(g, id, tp) ==>
              HangOn(g, rank, Node(id, tp), g[id].members, false, |g| + 1)
  {
    assert LeadsDown(g[id], rank, rank[id]) && InRange(g[id], |g|);
    forall c | c in Children(g[id]) && (g[id].FuncProto? || g[id].Composite?) ensures !IsFn(g, rank, c) { }
  }

  lemma {:induction false} AvoidsParts(
    g: Graph, rank: seq<nat>, s: State, id: Id, tp: bool, s': State, r: int, x: Id, p: seq<Node>)
    requires Ranked(g, rank) && id < |g| == |s.marks| && g[id].FuncProto? && s.marks[id].NotOrdered?
    requires (s', r) == Order(g, rank, s, id, tp) && r >= 0
    requires CLike(g, rank) && Inv(g, rank, s) && x in Trapped(g, rank) && x !in s.finished
    requires Trail(g, rank, s, x, p, Node(id, tp))
    ensures x !in s'.finished
    decreases Unentered(g, s), rank[id], |g[id].params| + 1
  {
    var n, ret, ps := Node(id, tp), g[id].ret, g[id].params;
    PartsHang(g, rank, id, tp);
    var (s1, r1) := Order(g, rank, s, ret, tp);
    assert [ret][0] == ret;
    StandsOnNext(g, rank, s, x, p, n, Node(ret, tp), p + [Node(ret, tp)]);
    OrderAvoids(g, rank, s, ret, tp, s1, r1, x, p + [Node(ret, tp)]);
    OrderSound(g, rank, s, ret, tp, s1, r1);
    WalkGoesOn(g, rank, s, s1, x, p, n);
    var (s2, r2) := OrderEach(g, rank, s1, ps, tp, rank[id]);
    OrderEachAvoids(g, rank, s1, ps, tp, rank[id], s2, r2, x, p, n);
  }

  lemma {:induction false} AvoidsMembers(
    g: Graph, rank: seq<nat>, s: State, id: Id, tp: bool, e: State, s1: State, r1: int, x: Id, p: seq<Node>)
    requires Ranked(g, rank) && id < |g| == |s.marks| == |e.marks| && g[id].Composite? && !Weak(g, id, tp)
    requires s.marks[id].NotOrdered? && e == Enter(s, id)
    requires (s1, r1) == OrderEach(g, rank, e, g[id].members, false, |g| + 1) && r1 >= 0
    requires CLike(g, rank) && Inv(g, rank, s) && x in Trapped(g, rank) && x !in s.finished
    requires Trail(g, rank, s, x, p, Node(id, tp))
    ensures x !in s1.finished
    decreases Unentered(g, s), rank[id], 0
  {
    EnterTrail(g, rank, s, id, tp, x, p, e);
    OrderEachAvoids(g, rank, e, g[id].members, false, |g| + 1, s1, r1, x, p, Node(id, tp));
  }

  lemma EnterTrail(g: Graph, rank: seq<nat>, s: State, id: Id, tp: bool, x: Id, p: seq<Node>, e: State)
    requires Ranked(g, rank) && CLike(g, rank) && id < |g| && g[id].Composite? && !Weak(g, id, tp)
    requires Inv(g, rank, s) && Trail(g, rank, s, x, p, Node(id, tp)) && s.marks[id].NotOrdered?
    requires x !in s.finished && e == Enter(s, id)
    ensures |e.marks| == |g| && Unentered(g, e) < Unentered(g, s)
    ensures e in Walks(g, rank, x, p, Node(id, tp))
    ensures HangOn(g, rank, Node(id, tp), g[id].members, false, |g| + 1)
  {
    EnterInv(g, rank, s, id);
    EnterShrinks(g, s, id);
    PartsHang(g, rank, id, tp);
    TrailStays(g, rank, s, e, x, p, Node(id, tp));
  }

  lemma {:induction false} OrderEachAvoids(
    g: Graph, rank: seq<nat>, s: State, ids: seq<Id>, tp: bool, lim: nat, s': State, r: int,
    x: Id, p: seq<Node>, n: Node)
    requires Ranked(g, rank) && |g| == |s.marks| && HangOn(g, rank, n, ids, tp, lim)
    requires (s', r) == OrderEach(g, rank, s, ids, tp, lim) && r >= 0
    requires CLike(g, rank) && x in Trapped(g, rank) && s in Walks(g, rank, x, p, n)
    ensures x !in s'.finished
    decreases Unentered(g, s), lim, |ids|
  {
    if ids != [] {
      var m := Node(ids[0], tp);
      StandsOnNext(g, rank, s, x, p, n, m, p + [m]);
      var (s1, r1) := Order(g, rank, s, ids[0], tp);
      OrderAvoids(g, rank, s, ids[0], tp, s1, r1, x, p + [m]);
      OrderSound(g, rank, s, ids[0], tp, s1, r1);
      WalkGoesOn(g, rank, s, s1, x, p, n);
      var r2 := OrderEach(g, rank, s1, ids[1..], tp, lim).1;
      OrderEachAvoids(g, rank, s1, ids[1..], tp, lim, s', r2, x, p, n);
    }
  }

  /** Down the typedefs to the prototype, with the flag false. */
  lemma {:induction false} ChainAvoids(
    g: Graph, rank: seq<nat>, s: State, y: Id, s': State, r: int, x: Id, p: seq<Node>)
    requires Ranked(g, rank) && y < |g| == |s.marks| && (s', r) == Order(g, rank, s, y, false) && r >= 0
    requires CLike(g, rank) && Inv(g, rank, s) && x in Trapped(g, rank) && x !in s.finished
    requires IsFn(g, rank, y) && rank[y] < rank[x] && Trail(g, rank, s, x, p, Node(y, false))
    ensures x !in s'.finished
    decreases rank[y]
  {
    if s.marks[y].NotOrdered? {
      match g[y]
      case Mod(t) =>
        TrailStep(g, rank, s, x, p, Node(y, false), Node(t, false), p + [Node(t, false)]);
        ChainAvoids(g, rank, s, t, s', r, x, p + [Node(t, false)]);
      case Typedef(t, _) =>
        TrailStep(g, rank, s, x, p, Node(y, false), Node(t, false), p + [Node(t, false)]);
        var (s1, r1) := Order(g, rank, s, t, false);
        ChainAvoids(g, rank, s, t, s1, r1, x, p + [Node(t, false)]);
      case FuncProto(_, _) => AvoidsParts(g, rank, s, y, false, s', r, x, p);
    }
  }

  /** Behind a pointer, a type that leads to structs only finishes typedefs at most. */
  lemma {:induction false} PointerAvoids(g: Graph, rank: seq<nat>, s: State, y: Id, s': State, r: int, x: Id)
    requires Ranked(g, rank) && y < |g| && x < |g| && Inv(g, rank, s) && AllStructs(g, rank, y)
    requires rank[y] < rank[x] && x !in s.finished && (s', r) == Order(g, rank, s, y, true) && r >= 0
    ensures x !in s'.finished
    decreases rank[y], if g[y].FuncProto? then |g[y].params| + 1 else 0
  {
    if s.marks[y].NotOrdered? {
      match g[y]
      case Mod(t) => PointerAvoids(g, rank, s, t, s', r, x);
      case Typedef(t, _) =>
        var (s1, r1) := Order(g, rank, s, t, true);
        PointerAvoids(g, rank, s, t, s1, r1, x);
      case FuncProto(ret, ps) =>
        var (s1, r1) := Order(g, rank, s, ret, true);
        PointerAvoids(g, rank, s, ret, s1, r1, x);
        OrderSound(g, rank, s, ret, true, s1, r1);
        PointerAvoidsEach(g, rank, s1, ps, rank[y], s', OrderEach(g, rank, s1, ps, true, rank[y]).1, x);
      case _ =>
    }
  }

  lemma {:induction false} PointerAvoidsEach(
    g: Graph, rank: seq<nat>, s: State, ids: seq<Id>, lim: nat, s': State, r: int, x: Id)
    requires Ranked(g, rank) && x < |g| && Inv(g, rank, s) && lim < rank[x]
    requires forall i :: 0 <= i < |ids| ==> ids[i] < |g| && rank[ids[i]] < lim
    requires AllAllStructs(g, rank, ids)
    requires x !in s.finished && (s', r) == OrderEach(g, rank, s, ids, true, lim) && r >= 0
    ensures x !in s'.finished
    decreases lim, |ids|
  {
    if ids != [] {
      var (s1, r1) := Order(g, rank, s, ids[0], true);
      PointerAvoids(g, rank, s, ids[0], s1, r1, x);
      OrderSound(g, rank, s, ids[0], true, s1, r1);
      PointerAvoidsEach(g, rank, s1, ids[1..], lim, s', OrderEach(g, rank, s1, ids[1..], true, lim).1, x);
    }
  }

  lemma FirstTrail(g: Graph, rank: seq<nat>, s: State, x: Id, t: Id, p: seq<Node>)
    requires Ranked(g, rank) && x < |g| == |s.marks| && g[x].Typedef? && IsFn(g, rank, x) && t == g[x].target
    requires p == [Node(x, false)] + [Node(t, false)]
    ensures Trail(g, rank, s, x, p, Node(t, false)) && IsFn(g, rank, t) && rank[t] < rank[x]
  {
    var from := Node(x, false);
    assert Trail(g, rank, s, x, [from], from);
    TrailStep(g, rank, s, x, [from], from, Node(t, false), p);
  }

  lemma FirstAvoids(g: Graph, rank: seq<nat>, s: State, x: Id, t: Id, s1: State, r1: int)
    requires Ranked(g, rank) && x < |g| == |s.marks| && t < |g| && (s1, r1) == Order(g, rank, s, t, false) && r1 >= 0
    requires g[x].Typedef? && IsFn(g, rank, x) && t == g[x].target
    requires CLike(g, rank) && Inv(g, rank, s) && x in Trapped(g, rank) && x !in s.finished
    ensures x !in s1.finished
  {
    var p := [Node(x, false)] + [Node(t, false)];
    FirstTrail(g, rank, s, x, t, p);
    ChainAvoids(g, rank, s, t, s1, r1, x, p);
  }

  lemma FinishedBelowMayRepeat(g: Graph, rank: seq<nat>, s: State, id: Id, tp: bool, s1: State, r1: int)
    requires Ranked(g, rank) && CLike(g, rank) && id < |g| && Inv(g, rank, s) && g[id].Typedef? && IsFn(g, rank, id)
    requires (s1, r1) == Order(g, rank, s, g[id].target, tp) && r1 >= 0
    requires id !in s.finished && id in s1.finished
    ensures MayRepeat(g, rank, id)
  {
    var t := g[id].target;
    var b := FinishedBelowLoops(g, rank, s, id, tp, s1);
    if AllStructs(g, rank, id) && forall c, p :: !Escapes(g, rank, id, c, p) {
      assert id in Trapped(g, rank);
      if tp {
        PointerAvoids(g, rank, s, t, s1, r1, id);
      } else {
        FirstAvoids(g, rank, s, id, t, s1, r1);
      }
    }
  }

  /** `c` is a struct or union met strongly from `id` with none in between. */
  ghost predicate MeetsFirst(g: Graph, rank: seq<nat>, id: Id, tp: bool, c: Id)
    requires Ranked(g, rank) && id < |g|
    decreases rank[id]
  {
    match g[id]
    case Ptr(t) => MeetsFirst(g, rank, t, true, c)
    case Array(e, _) => MeetsFirst(g, rank, e, false, c)
    case Mod(t) => MeetsFirst(g, rank, t, tp, c)
    case Typedef(t, _) => MeetsFirst(g, rank, t, tp, c)
    case FuncProto(r, ps) =>
      MeetsFirst(g, rank, r, tp, c) || exists i :: 0 <= i < |ps| && MeetsFirst(g, rank, ps[i], tp, c)
    case Composite(_, _, _) => !Weak(g, id, tp) && c == id
    case _ => false
  }

  lemma {:induction false} MeetsFirstEmbedded(g: Graph, rank: seq<nat>, id: Id, c: Id)
    requires Ranked(g, rank) && id < |g| && MeetsFirst(g, rank, id, true, c)
    ensures MeetsFirst(g, rank, id, false, c)
    decreases rank[id]
  {
    match g[id]
    case Mod(t) => MeetsFirstEmbedded(g, rank, t, c);
    case Typedef(t, _) => MeetsFirstEmbedded(g, rank, t, c);
    case FuncProto(r, ps) =>
      if MeetsFirst(g, rank, r, true, c) {
        MeetsFirstEmbedded(g, rank, r, c);
      } else {
        var i :| 0 <= i < |ps| && MeetsFirst(g, rank, ps[i], true, c);
        MeetsFirstEmbedded(g, rank, ps[i], c);
      }
    case _ =>
  }

  lemma {:induction false} MetIsFinished(g: Graph, rank: seq<nat>, fin: seq<Id>, n: nat, id: Id, tp: bool, c: Id)
    requires Ranked(g, rank) && CLike(g, rank) && Topological(g, rank, fin) && n <= |fin|
    requires id < |g| && (tp || !IsFn(g, rank, id))
    requires Done(g, rank, Elems(fin[..n]), id, tp) && MeetsFirst(g, rank, id, tp, c)
    ensures c < |g| && g[c].Composite? && c in Elems(fin[..n])
    decreases rank[id]
  {
    var F := Elems(fin[..n]);
    if id in F { FinishedIsReady(g, rank, fin, n, id); }
    match g[id]
    case Ptr(t) => MetIsFinished(g, rank, fin, n, t, true, c);
    case Array(e, _) =>
      assert e in Children(g[id]);
      MetIsFinished(g, rank, fin, n, e, false, c);
    case Mod(t) => MetIsFinished(g, rank, fin, n, t, tp, c);
    case Typedef(t, _) =>
      if id in F && !IsFn(g, rank, id) && tp { DoneThroughPtr(g, rank, F, t); }
      MetIsFinished(g, rank, fin, n, t, tp, c);
    case FuncProto(r, ps) =>
      if MeetsFirst(g, rank, r, tp, c) {
        MetIsFinished(g, rank, fin, n, r, tp, c);
      } else {
        var i :| 0 <= i < |ps| && MeetsFirst(g, rank, ps[i], tp, c);
        MetIsFinished(g, rank, fin, n, ps[i], tp, c);
      }
    case _ =>
  }

  /** What a call finished lies below `id` in rank or inside a struct it met strongly. */
  ghost predicate NewWithin(g: Graph, rank: seq<nat>, s: State, s': State, id: Id, tp: bool)
    requires Ranked(g, rank) && id < |g|
  {
    forall i :: |s.finished| <= i < |s'.finished| && s'.finished[i] < |g| ==>
      || rank[s'.finished[i]] <= rank[id]
      || exists j :: i < j < |s'.finished| && MeetsFirst(g, rank, id, tp, s'.finished[j])
  }

  ghost predicate NewWithinEach(g: Graph, rank: seq<nat>, s: State, s': State, ids: seq<Id>, tp: bool, lim: nat)
    requires Ranked(g, rank)
    requires forall i :: 0 <= i < |ids| ==> ids[i] < |g|
  {
    forall i :: |s.finished| <= i < |s'.finished| && s'.finished[i] < |g| ==>
      || rank[s'.finished[i]] < lim
      || exists j, m :: i < j < |s'.finished| && 0 <= m < |ids| && MeetsFirst(g, rank, ids[m], tp, s'.finished[j])
  }

  /** A struct met on the way down from `id` is not finished after `id`. */
  lemma MetBefore(g: Graph, rank: seq<nat>, fin: seq<Id>, k: nat, j: nat, t: Id, tp: bool)
    requires Ranked(g, rank) && CLike(g, rank) && Topological(g, rank, fin) && CompositesOnce(g, fin)
    requires k < j < |fin| && t < |g|
    requires || (g[fin[k]] == Ptr(t) && tp)
             || (g[fin[k]].Typedef? && g[fin[k]].target == t && !IsFn(g, rank, fin[k]))
    ensures !MeetsFirst(g, rank, t, tp, fin[j])
  {
    if MeetsFirst(g, rank, t, tp, fin[j]) {
      assert Ready(g, rank, Elems(fin[..k]), fin[k]);
      if g[fin[k]].Typedef? && tp { MeetsFirstEmbedded(g, rank, t, fin[j]); }
      MetIsFinished(g, rank, fin, k, t, g[fin[k]].Ptr?, fin[j]);
    }
  }

  /** A pointer or non-function typedef is not finished while what it leads to is ordered. */
  lemma NotFinishedBelow(g: Graph, rank: seq<nat>, s: State, s1: State, id: Id, t: Id, tp: bool)
    requires Ranked(g, rank) && CLike(g, rank) && Inv(g, rank, s) && Inv(g, rank, s1)
    requires id < |g| && t < |g| && s.finished <= s1.finished && id !in s.finished
    requires rank[t] < rank[id] && NewWithin(g, rank, s, s1, t, tp)
    requires (g[id] == Ptr(t) && tp) || (g[id].Typedef? && g[id].target == t && !IsFn(g, rank, id))
    ensures id !in s1.finished
  {
    forall k | 0 <= k < |s1.finished| ensures s1.finished[k] != id {
      if s1.finished[k] == id && k >= |s.finished| {
        var j :| k < j < |s1.finished| && MeetsFirst(g, rank, t, tp, s1.finished[j]);
        MetBefore(g, rank, s1.finished, k, j, t, tp);
      }
    }
  }

  ghost predicate NoNewRepeats(g: Graph, rank: seq<nat>, s: State, id: Id, tp: bool, s': State)
    requires Ranked(g, rank) && id < |g|
  {
    && OnlyFnRepeats(g, rank, s'.finished)
    && (tp || !IsFn(g, rank, id) ==> NewWithin(g, rank, s, s', id, tp))
  }

  lemma FinishNoRepeats(g: Graph, rank: seq<nat>, s: State, s1: State, id: Id, tp: bool, t: Id, tp': bool)
    requires Ranked(g, rank) && id < |g| == |s1.marks| && t < |g| && rank[t] < rank[id]
    requires (g[id].Ptr? && g[id].target == t && tp') || (g[id].Typedef? && g[id].target == t && tp' == tp)
    requires id !in s1.finished || MayRepeat(g, rank, id)
    requires NoNewRepeats(g, rank, s, t, tp', s1)
    ensures NoNewRepeats(g, rank, s, id, tp, Finish(g, s1, id))
  {
    var s' := Finish(g, s1, id);
    if tp || !IsFn(g, rank, id) {
      forall i | |s.finished| <= i < |s'.finished| && s'.finished[i] < |g| && rank[s'.finished[i]] > rank[id]
        ensures exists j :: i < j < |s'.finished| && MeetsFirst(g, rank, id, tp, s'.finished[j])
      {
        assert s'.finished[i] == s1.finished[i];
        var j :| i < j < |s1.finished| && MeetsFirst(g, rank, t, tp', s1.finished[j]);
        assert s'.finished[j] == s1.finished[j];
      }
    }
  }

  lemma {:induction false} OrderNoRepeats(
    g: Graph, rank: seq<nat>, s: State, id: Id, tp: bool, s': State, r: int)
    requires Ranked(g, rank) && CLike(g, rank) && id < |g| && Inv(g, rank, s)
    requires OnlyFnRepeats(g, rank, s.finished)
    requires (s', r) == Order(g, rank, s, id, tp) && r >= 0
    ensures NoNewRepeats(g, rank, s, id, tp, s')
    decreases Unentered(g, s), rank[id]
  {
    if s.marks[id].NotOrdered? {
      match g[id]
      case Ptr(t) =>
        var s1 := Order(g, rank, s, t, true).0;
        OrderNoRepeats(g, rank, s, t, true, s1, r);
        OrderSound(g, rank, s, t, true, s1, r);
        PtrNoRepeats(g, rank, s, id, tp, s1);
      case Array(e, _) =>
        assert e in Children(g[id]);
        OrderNoRepeats(g, rank, s, e, false, s', r);
        NewWithinLift(g, rank, s, s', id, tp, e, false);
      case Mod(t) =>
        OrderNoRepeats(g, rank, s, t, tp, s', r);
        NewWithinLift(g, rank, s, s', id, tp, t, tp);
      case Typedef(t, _) =>
        var (s1, r1) := Order(g, rank, s, t, tp);
        OrderNoRepeats(g, rank, s, t, tp, s1, r1);
        OrderSound(g, rank, s, t, tp, s1, r1);
        if IsFn(g, rank, id) && id in s1.finished { FinishedBelowMayRepeat(g, rank, s, id, tp, s1, r1); }
        TypedefNoRepeats(g, rank, s, id, tp, s1);
      case FuncProto(_, _) => OrderProtoNoRepeats(g, rank, s, id, tp, s', r);
      case Composite(_, _, ms) =>
        if !Weak(g, id, tp) { OrderMembersNoRepeats(g, rank, s, id, tp, s'); }
      case _ => LeafNoRepeats(g, rank, s, id, tp);
    }
  }

  lemma {:induction false} OrderProtoNoRepeats(
    g: Graph, rank: seq<nat>, s: State, id: Id, tp: bool, s': State, r: int)
    requires Ranked(g, rank) && CLike(g, rank) && id < |g| && Inv(g, rank, s)
    requires OnlyFnRepeats(g, rank, s.finished) && g[id].FuncProto? && s.marks[id].NotOrdered?
    requires (s', r) == Order(g, rank, s, id, tp) && r >= 0
    ensures NoNewRepeats(g, rank, s, id, tp, s')
    decreases Unentered(g, s), rank[id], |g[id].params| + 2
  {
    var ret := g[id].ret;
    var (s1, r1) := Order(g, rank, s, ret, tp);
    assert ret in Children(g[id]);
    OrderNoRepeats(g, rank, s, ret, tp, s1, r1);
    OrderSound(g, rank, s, ret, tp, s1, r1);
    OrderParamsNoRepeats(g, rank, s, id, tp, s1, s', r);
  }

  lemma LeafNoRepeats(g: Graph, rank: seq<nat>, s: State, id: Id, tp: bool)
    requires Ranked(g, rank) && id < |g| && Inv(g, rank, s) && s.marks[id].NotOrdered?
    requires OnlyFnRepeats(g, rank, s.finished)
    ensures NoNewRepeats(g, rank, s, id, tp, Finish(g, s, id))
  {
    assert id !in s.finished;
  }

  lemma NewWithinLift(g: Graph, rank: seq<nat>, s: State, s': State, id: Id, tp: bool, t: Id, tp': bool)
    requires Ranked(g, rank) && id < |g| && t < |g| && rank[t] < rank[id]
    requires || (g[id].Array? && g[id].elem == t && !tp')
             || ((g[id] == Mod(t) || (g[id].Typedef? && g[id].target == t)) && tp' == tp)
    requires NoNewRepeats(g, rank, s, t, tp', s') && (tp' || !IsFn(g, rank, t) || IsFn(g, rank, id))
    ensures NoNewRepeats(g, rank, s, id, tp, s')
  {
    if NewWithin(g, rank, s, s', t, tp') {
      forall i | |s.finished| <= i < |s'.finished| && s'.finished[i] < |g| && rank[s'.finished[i]] > rank[id]
        ensures exists j :: i < j < |s'.finished| && MeetsFirst(g, rank, id, tp, s'.finished[j])
      {
        var j :| i < j < |s'.finished| && MeetsFirst(g, rank, t, tp', s'.finished[j]);
        assert MeetsFirst(g, rank, id, tp, s'.finished[j]);
      }
    }
  }

  lemma PtrNoRepeats(g: Graph, rank: seq<nat>, s: State, id: Id, tp: bool, s1: State)
    requires Ranked(g, rank) && CLike(g, rank) && id < |g| && Inv(g, rank, s) && Inv(g, rank, s1)
    requires g[id].Ptr? && s.marks[id].NotOrdered? && s.finished <= s1.finished
    requires NoNewRepeats(g, rank, s, g[id].target, true, s1)
    ensures NoNewRepeats(g, rank, s, id, tp, Finish(g, s1, id))
  {
    NotFinishedBelow(g, rank, s, s1, id, g[id].target, true);
    FinishNoRepeats(g, rank, s, s1, id, tp, g[id].target, true);
  }

  lemma TypedefNoRepeats(g: Graph, rank: seq<nat>, s: State, id: Id, tp: bool, s1: State)
    requires Ranked(g, rank) && CLike(g, rank) && id < |g| && Inv(g, rank, s) && Inv(g, rank, s1)
    requires g[id].Typedef? && s.marks[id].NotOrdered? && s.finished <= s1.finished
    requires NoNewRepeats(g, rank, s, g[id].target, tp, s1)
    requires IsFn(g, rank, id) && id in s1.finished ==> MayRepeat(g, rank, id)
    ensures NoNewRepeats(g, rank, s, id, tp, Finish(g, s1, id)) && NoNewRepeats(g, rank, s, id, tp, s1)
  {
    if !IsFn(g, rank, id) { NotFinishedBelow(g, rank, s, s1, id, g[id].target, tp); }
    FinishNoRepeats(g, rank, s, s1, id, tp, g[id].target, tp);
    NewWithinLift(g, rank, s, s1, id, tp, g[id].target, tp);
  }

  lemma {:induction false} OrderParamsNoRepeats(
    g: Graph, rank: seq<nat>, s: State, id: Id, tp: bool, s1: State, s': State, r: int)
    requires Ranked(g, rank) && CLike(g, rank) && id < |g| && Inv(g, rank, s1)
    requires |s.marks| == |g| && Unentered(g, s1) <= Unentered(g, s)
    requires g[id].FuncProto? && NoNewRepeats(g, rank, s, g[id].ret, tp, s1)
    requires s' == OrderEach(g, rank, s1, g[id].params, tp, rank[id]).0
    requires OrderEach(g, rank, s1, g[id].params, tp, rank[id]).1 >= 0
    ensures NoNewRepeats(g, rank, s, id, tp, s')
    decreases Unentered(g, s), rank[id], |g[id].params| + 1
  {
    var ps := g[id].params;
    var r2 := OrderEach(g, rank, s1, ps, tp, rank[id]).1;
    assert g[id].ret in Children(g[id]);
    assert forall i :: 0 <= i < |ps| ==> ps[i] in Children(g[id]);
    OrderEachNoRepeats(g, rank, s1, ps, tp, rank[id], s', r2);
    OrderEachSound(g, rank, s1, ps, tp, rank[id], s', r2);
    NewWithinProto(g, rank, s, s1, s', id, tp);
  }

  lemma NewWithinProto(g: Graph, rank: seq<nat>, s: State, s1: State, s': State, id: Id, tp: bool)
    requires Ranked(g, rank) && id < |g| && g[id].FuncProto?
    requires s1.finished <= s'.finished
    requires NewWithin(g, rank, s, s1, g[id].ret, tp)
    requires NewWithinEach(g, rank, s1, s', g[id].params, tp, rank[id])
    ensures NewWithin(g, rank, s, s', id, tp)
  {
    var ret, ps := g[id].ret, g[id].params;
    forall i | |s.finished| <= i < |s'.finished| && s'.finished[i] < |g| && rank[s'.finished[i]] > rank[id]
      ensures exists j :: i < j < |s'.finished| && MeetsFirst(g, rank, id, tp, s'.finished[j])
    {
      if i < |s1.finished| {
        assert s'.finished[i] == s1.finished[i];
        var j :| i < j < |s1.finished| && MeetsFirst(g, rank, ret, tp, s1.finished[j]);
        assert s'.finished[j] == s1.finished[j];
        assert MeetsFirst(g, rank, id, tp, s'.finished[j]);
      } else {
        var j, m :| i < j < |s'.finished| && 0 <= m < |ps| && MeetsFirst(g, rank, ps[m], tp, s'.finished[j]);
        assert MeetsFirst(g, rank, id, tp, s'.finished[j]);
      }
    }
  }

  lemma {:induction false} OrderMembersNoRepeats(
    g: Graph, rank: seq<nat>, s: State, id: Id, tp: bool, s': State)
    requires Ranked(g, rank) && CLike(g, rank) && id < |g| && Inv(g, rank, s)
    requires OnlyFnRepeats(g, rank, s.finished)
    requires g[id].Composite? && s.marks[id].NotOrdered? && !Weak(g, id, tp)
    requires var (s1, r) := OrderEach(g, rank, Enter(s, id), g[id].members, false, |g| + 1);
             r >= 0 && s' == Finish(g, s1, id)
    ensures NoNewRepeats(g, rank, s, id, tp, s')
    decreases Unentered(g, s), rank[id], 0
  {
    var ms := g[id].members;
    var (s1, r) := OrderEach(g, rank, Enter(s, id), ms, false, |g| + 1);
    EnterInv(g, rank, s, id);
    assert forall i :: 0 <= i < |ms| ==> ms[i] in Children(g[id]);
    OrderEachNoRepeats(g, rank, Enter(s, id), ms, false, |g| + 1, s1, r);
    OrderEachSound(g, rank, Enter(s, id), ms, false, |g| + 1, s1, r);
    assert Enter(s, id).marks[id].Ordering?;
    FinishCompositeNoRepeats(g, rank, s, s1, id, tp);
  }

  lemma FinishCompositeNoRepeats(g: Graph, rank: seq<nat>, s: State, s1: State, id: Id, tp: bool)
    requires Ranked(g, rank) && id < |g| == |s1.marks|
    requires OnlyFnRepeats(g, rank, s1.finished) && id !in s1.finished
    requires g[id].Composite? && !Weak(g, id, tp)
    ensures NoNewRepeats(g, rank, s, id, tp, Finish(g, s1, id))
  {
    var s' := Finish(g, s1, id);
    assert s'.finished[|s1.finished|] == id;
    assert MeetsFirst(g, rank, id, tp, s'.finished[|s1.finished|]);
  }

  lemma NewWithinCons(g: Graph, rank: seq<nat>, s: State, s1: State, s': State, ids: seq<Id>, tp: bool, lim: nat)
    requires Ranked(g, rank) && ids != []
    requires forall i :: 0 <= i < |ids| ==> ids[i] < |g| && rank[ids[i]] < lim
    requires s1.finished <= s'.finished
    requires NewWithin(g, rank, s, s1, ids[0], tp)
    requires NewWithinEach(g, rank, s1, s', ids[1..], tp, lim)
    ensures NewWithinEach(g, rank, s, s', ids, tp, lim)
  {
    forall i | |s.finished| <= i < |s'.finished| && s'.finished[i] < |g| && rank[s'.finished[i]] >= lim
      ensures exists j, m :: i < j < |s'.finished| && 0 <= m < |ids| && MeetsFirst(g, rank, ids[m], tp, s'.finished[j])
    {
      if i < |s1.finished| {
        assert s'.finished[i] == s1.finished[i];
        var j :| i < j < |s1.finished| && MeetsFirst(g, rank, ids[0], tp, s1.finished[j]);
        assert s'.finished[j] == s1.finished[j];
      } else {
        var j, m :| i < j < |s'.finished| && 0 <= m < |ids[1..]|
                  && MeetsFirst(g, rank, ids[1..][m], tp, s'.finished[j]);
        assert ids[1..][m] == ids[m + 1];
      }
    }
  }

  lemma {:induction false} OrderEachNoRepeats(
    g: Graph, rank: seq<nat>, s: State, ids: seq<Id>, tp: bool, lim: nat, s': State, r: int)
    requires Ranked(g, rank) && CLike(g, rank) && Inv(g, rank, s)
    requires OnlyFnRepeats(g, rank, s.finished)
    requires forall i :: 0 <= i < |ids| ==> ids[i] < |g| && rank[ids[i]] < lim
    requires forall i :: 0 <= i < |ids| ==> !IsFn(g, rank, ids[i])
    requires (s', r) == OrderEach(g, rank, s, ids, tp, lim) && r >= 0
    ensures OnlyFnRepeats(g, rank, s'.finished) && NewWithinEach(g, rank, s, s', ids, tp, lim)
    decreases Unentered(g, s), lim, |ids|
  {
    if ids != [] {
      var (s1, r1) := Order(g, rank, s, ids[0], tp);
      OrderNoRepeats(g, rank, s, ids[0], tp, s1, r1);
      OrderSound(g, rank, s, ids[0], tp, s1, r1);
      var r2 := OrderEach(g, rank, s1, ids[1..], tp, lim).1;
      OrderEachNoRepeats(g, rank, s1, ids[1..], tp, lim, s', r2);
      OrderEachSound(g, rank, s1, ids[1..], tp, lim, s', r2);
      NewWithinCons(g, rank, s, s1, s', ids, tp, lim);
    }
  }
}
