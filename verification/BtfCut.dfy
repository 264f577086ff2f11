/** The graph seen from a state of the ordering pass: types that are finished already lead
    nowhere any more. What a visit does depends on that graph only. */
module BtfCut {
  import opened BtfGraph
  import opened BtfOrder
  import opened BtfRepeats
  import opened BtfFunctions

  /** The graph with some types replaced by definitions without any links. */
  function Cut(g: Graph, F: set<Id>): (h: Graph)
    requires 0 !in F
    ensures |h| == |g| && forall i :: 0 <= i < |g| ==> h[i] == if i in F then Enum(true) else g[i]
  {
    var h := seq(|g|, i requires 0 <= i < |g| => if i in F then Enum(true) else g[i]);
    assert forall i :: 0 <= i < |h| ==> InRange(h[i], |h|);
    h
  }

  /** The graph that is left in a state. */
  ghost function Rest(g: Graph, rank: seq<nat>, s: State): (h: Graph)
    requires Ranked(g, rank) && Inv(g, rank, s)
    ensures |h| == |g| && Ranked(h, rank)
  {
    CutRanked(g, rank, Elems(s.finished));
    Cut(g, Elems(s.finished))
  }

  lemma CutRanked(g: Graph, rank: seq<nat>, F: set<Id>)
    requires Ranked(g, rank) && 0 !in F
    ensures Ranked(Cut(g, F), rank)
  {
    var h := Cut(g, F);
    forall i | 0 <= i < |h| ensures LeadsDown(h[i], rank, rank[i]) {
      assert LeadsDown(g[i], rank, rank[i]);
    }
  }

  lemma {:induction false} CutIsFn(g: Graph, h: Graph, rank: seq<nat>, F: set<Id>, id: Id)
    requires 0 !in F && h == Cut(g, F) && Ranked(g, rank) && Ranked(h, rank) && id < |g| && IsFn(h, rank, id)
    ensures IsFn(g, rank, id) && id !in F
    decreases rank[id]
  {
    match g[id]
    case Typedef(t, _) => CutIsFn(g, h, rank, F, t);
    case Mod(t) => CutIsFn(g, h, rank, F, t);
    case _ =>
  }

  lemma CutCLike(g: Graph, h: Graph, rank: seq<nat>, F: set<Id>)
    requires 0 !in F && h == Cut(g, F) && Ranked(g, rank) && Ranked(h, rank) && CLike(g, rank)
    ensures CLike(h, rank)
  {
    forall i, c | 0 <= i < |h| && (h[i].Composite? || h[i].Array? || h[i].FuncProto?) && c in Children(h[i])
      ensures !IsFn(h, rank, c)
    {
      assert h[i] == g[i];
      ChildInRange(g, i, c);
      if IsFn(h, rank, c) { CutIsFn(g, h, rank, F, c); }
    }
  }

  // ----- The same visit on both graphs -----

  /** Equal but for the queue, which also depends on what is referenced. */
  ghost predicate Alike(s: State, s': State) {
    s.marks == s'.marks && s.finished == s'.finished
  }

  ghost predicate AllOrdered(s: State, F: set<Id>) {
    forall y :: y in F ==> y < |s.marks| && s.marks[y].Ordered?
  }

  ghost predicate SameOutcome(F: set<Id>, a: State, r: int, b: State, q: int) {
    Alike(a, b) && r == q && AllOrdered(a, F)
  }

  /** Types that are ordered are not looked into, so the visit is the same on the cut graph. */
  lemma {:induction false} CutOrder(
    g: Graph, h: Graph, rank: seq<nat>, F: set<Id>, s: State, s': State, id: Id, tp: bool,
    a: State, r: int, b: State, q: int)
    requires 0 !in F && h == Cut(g, F) && Ranked(g, rank) && Ranked(h, rank)
    requires id < |g| == |s.marks| && Alike(s, s') && AllOrdered(s, F)
    requires (a, r) == Order(g, rank, s, id, tp) && (b, q) == Order(h, rank, s', id, tp)
    ensures SameOutcome(F, a, r, b, q)
    decreases Unentered(g, s), rank[id]
  {
    if s.marks[id].NotOrdered? {
      assert h[id] == g[id];
      match g[id]
      case Ptr(t) =>
        var (a1, r1) := Order(g, rank, s, t, true);
        var (b1, q1) := Order(h, rank, s', t, true);
        CutOrder(g, h, rank, F, s, s', t, true, a1, r1, b1, q1);
      case Array(e, _) => CutOrder(g, h, rank, F, s, s', e, false, a, r, b, q);
      case Mod(t) => CutOrder(g, h, rank, F, s, s', t, tp, a, r, b, q);
      case Typedef(t, _) =>
        var (a1, r1) := Order(g, rank, s, t, tp);
        var (b1, q1) := Order(h, rank, s', t, tp);
        CutOrder(g, h, rank, F, s, s', t, tp, a1, r1, b1, q1);
      case FuncProto(_, _) => CutOrderParts(g, h, rank, F, s, s', id, tp, a, r, b, q);
      case Composite(_, _, ms) =>
        if !Weak(g, id, tp) { CutOrderMembers(g, h, rank, F, s, s', id, tp, a, r, b, q); }
      case _ =>
    }
  }

  lemma {:induction false} CutOrderParts(
    g: Graph, h: Graph, rank: seq<nat>, F: set<Id>, s: State, s': State, id: Id, tp: bool,
    a: State, r: int, b: State, q: int)
    requires 0 !in F && h == Cut(g, F) && Ranked(g, rank) && Ranked(h, rank)
    requires id < |g| == |s.marks| && Alike(s, s') && AllOrdered(s, F)
    requires g[id].FuncProto? && s.marks[id].NotOrdered? && h[id] == g[id]
    requires (a, r) == Order(g, rank, s, id, tp) && (b, q) == Order(h, rank, s', id, tp)
    ensures SameOutcome(F, a, r, b, q)
    decreases Unentered(g, s), rank[id], |g[id].params| + 1
  {
    var ret, ps := g[id].ret, g[id].params;
    var (a1, r1) := Order(g, rank, s, ret, tp);
    var (b1, q1) := Order(h, rank, s', ret, tp);
    CutOrder(g, h, rank, F, s, s', ret, tp, a1, r1, b1, q1);
    if r1 >= 0 {
      var (a2, r2) := OrderEach(g, rank, a1, ps, tp, rank[id]);
      var (b2, q2) := OrderEach(h, rank, b1, ps, tp, rank[id]);
      CutOrderEach(g, h, rank, F, a1, b1, ps, tp, rank[id], a2, r2, b2, q2);
    }
  }

  lemma {:induction false} CutOrderMembers(
    g: Graph, h: Graph, rank: seq<nat>, F: set<Id>, s: State, s': State, id: Id, tp: bool,
    a: State, r: int, b: State, q: int)
    requires 0 !in F && h == Cut(g, F) && Ranked(g, rank) && Ranked(h, rank)
    requires id < |g| == |s.marks| && Alike(s, s') && AllOrdered(s, F)
    requires g[id].Composite? && s.marks[id].NotOrdered? && !Weak(g, id, tp) && h[id] == g[id]
    requires (a, r) == Order(g, rank, s, id, tp) && (b, q) == Order(h, rank, s', id, tp)
    ensures SameOutcome(F, a, r, b, q)
    decreases Unentered(g, s), rank[id], 0
  {
    var ms := g[id].members;
    EnterShrinks(g, s, id);
    var (a1, r1) := OrderEach(g, rank, Enter(s, id), ms, false, |g| + 1);
    var (b1, q1) := OrderEach(h, rank, Enter(s', id), ms, false, |g| + 1);
    CutOrderEach(g, h, rank, F, Enter(s, id), Enter(s', id), ms, false, |g| + 1, a1, r1, b1, q1);
  }

  lemma {:induction false} CutOrderEach(
    g: Graph, h: Graph, rank: seq<nat>, F: set<Id>, s: State, s': State, ids: seq<Id>, tp: bool, lim: nat,
    a: State, r: int, b: State, q: int)
    requires 0 !in F && h == Cut(g, F) && Ranked(g, rank) && Ranked(h, rank)
    requires |g| == |s.marks| && Alike(s, s') && AllOrdered(s, F)
    requires forall i :: 0 <= i < |ids| ==> ids[i] < |g| && rank[ids[i]] < lim
    requires (a, r) == OrderEach(g, rank, s, ids, tp, lim) && (b, q) == OrderEach(h, rank, s', ids, tp, lim)
    ensures SameOutcome(F, a, r, b, q)
    decreases Unentered(g, s), lim, |ids|
  {
    if ids != [] {
      var (a1, r1) := Order(g, rank, s, ids[0], tp);
      var (b1, q1) := Order(h, rank, s', ids[0], tp);
      CutOrder(g, h, rank, F, s, s', ids[0], tp, a1, r1, b1, q1);
      if r1 >= 0 {
        var (a2, r2) := OrderEach(g, rank, a1, ids[1..], tp, lim);
        var (b2, q2) := OrderEach(h, rank, b1, ids[1..], tp, lim);
        CutOrderEach(g, h, rank, F, a1, b1, ids[1..], tp, lim, a2, r2, b2, q2);
      }
    }
  }

  /** What is left in a state is in order as well: everything finished is a definition. */
  lemma RestInv(g: Graph, h: Graph, rank: seq<nat>, s: State)
    requires Ranked(g, rank) && Inv(g, rank, s) && h == Rest(g, rank, s)
    ensures Inv(h, rank, s)
  {
    var fin := s.finished;
    forall k | 0 <= k < |fin| ensures fin[k] < |h| && Ready(h, rank, Elems(fin[..k]), fin[k]) {
      assert fin[k] in Elems(fin);
      assert Ready(g, rank, Elems(fin[..k]), fin[k]);
    }
    forall y | y in fin && y < |h| ensures AnyIn(h, rank, fin, y) {
      assert y in Elems(fin);
    }
  }

  // ----- Exactly when a function typedef is finished twice -----

  lemma {:induction false} CutUnordered(g: Graph, h: Graph, rank: seq<nat>, s: State, id: Id)
    requires Ranked(g, rank) && Inv(g, rank, s) && h == Rest(g, rank, s)
    requires id < |g| && IsFn(g, rank, id) && FnUnordered(g, rank, s, id)
    ensures IsFn(h, rank, id) && FnUnordered(h, rank, s, id)
    decreases rank[id]
  {
    assert id !in Elems(s.finished);
    match g[id]
    case Typedef(t, _) => CutUnordered(g, h, rank, s, t);
    case Mod(t) => CutUnordered(g, h, rank, s, t);
    case _ =>
  }

  /** In every state: if something on the weak way down is finished, or strong anyway, then a
      function typedef is finished while its target is ordered if and only if the visit gets
      down to the prototype and the typedef leads back to itself through unfinished types. */
  lemma FinishedBelowIffRest(
    g: Graph, rank: seq<nat>, s: State, h: Graph, id: Id, tp: bool, t: Id, s1: State, r: int)
    requires Ranked(g, rank) && CLike(g, rank) && id < |g| && Inv(g, rank, s) && h == Rest(g, rank, s)
    requires g[id].Typedef? && IsFn(g, rank, id) && t == g[id].target && id !in s.finished
    requires !WeakOnly(h, rank, t, true)
    requires (s1, r) == Order(g, rank, s, t, tp) && r >= 0
    ensures id in s1.finished <==>
              FnUnordered(g, rank, s, t) && Reaches(h, rank, true, Node(id, tp), Node(id, true), 1)
  {
    if FnUnordered(g, rank, s, t) {
      var F := Elems(s.finished);
      CutUnordered(g, h, rank, s, t);
      CutCLike(g, h, rank, F);
      RestInv(g, h, rank, s);
      var (b, q) := Order(h, rank, s, t, tp);
      CutOrder(g, h, rank, F, s, s, t, tp, s1, r, b, q);
      FinishedBelowIff(h, rank, s, id, tp, t, b, q);
    } else {
      VisitStops(g, rank, s, t, tp, s1, r);
    }
  }

  /** A literal path that meets no cut type on its way is one of the cut graph. */
  lemma PathAvoids(g: Graph, h: Graph, rank: seq<nat>, F: set<Id>, p: seq<Node>)
    requires 0 !in F && h == Cut(g, F) && Ranked(g, rank) && Ranked(h, rank) && Path(g, rank, true, p)
    requires forall i :: 0 <= i < |p| - 1 ==> p[i].id !in F
    ensures Path(h, rank, true, p)
  {
    forall i | 0 <= i < |p| - 1 ensures Step(h, rank, true, p[i], p[i + 1]) {
      assert Step(g, rank, true, p[i], p[i + 1]);
    }
  }

  // ----- Which parts a function typedef is finished before -----

  /** On the graph that is left: a visit through a pointer to a function typedef finishes a
      struct exactly if it is needed behind the pointer. */
  lemma StructBehindPointer(h: Graph, rank: seq<nat>, s: State, x: Id, t: Id, c: Id, s1: State, r1: int)
    requires Ranked(h, rank) && CLike(h, rank) && Inv(h, rank, s) && x < |h| && h[x].Typedef? && t == h[x].target
    requires IsFn(h, rank, x) && FnUnordered(h, rank, s, t) && c < |h| && h[c].Composite? && c !in s.finished
    requires (s1, r1) == Order(h, rank, s, t, true) && r1 >= 0
    ensures c in s1.finished <==>
              exists b: bool :: Reaches(h, rank, true, Node(x, true), Node(c, b), 1) && !Weak(h, c, b)
  {
    if c in s1.finished { var b := NewIsReached(h, rank, s, x, t, c, s1); }
    if b: bool :| Reaches(h, rank, true, Node(x, true), Node(c, b), 1) && !Weak(h, c, b) {
      VisitDoesParts(h, rank, s, t, true, s1, r1);
      OrderSound(h, rank, s, t, true, s1, r1);
      var d := ReachedThroughPart(h, rank, Node(x, true), Node(c, b));
      ReachedIsDone(h, rank, s1.finished, d, Node(c, b));
    }
  }

  lemma NewIsReached(h: Graph, rank: seq<nat>, s: State, x: Id, t: Id, c: Id, s1: State) returns (b: bool)
    requires Ranked(h, rank) && x < |h| == |s.marks| && h[x].Typedef? && t == h[x].target
    requires s1 == Order(h, rank, s, t, true).0 && c < |h| && c !in s.finished && c in s1.finished
    ensures Reaches(h, rank, true, Node(x, true), Node(c, b), 1) && !Weak(h, c, b)
  {
    var from := Node(x, true);
    var R := iset a: Node | Reaches(h, rank, true, from, a, 1);
    ReachesSelf(h, rank, true, from);
    ReachesStep(h, rank, true, from, from, Node(t, true), 0);
    forall a: Node, b: Node | a in R && Step(h, rank, true, a, b) ensures b in R {
      ReachesStep(h, rank, true, from, a, b, 1);
    }
    OrderNewIn(h, rank, s, t, true, s1, R);
    var k :| 0 <= k < |s1.finished| && s1.finished[k] == c;
    assert Visited(h, R, s1.finished[k]);
    b := Node(c, false) !in R;
  }

  /** Met through a pointer, with something on its way down finished already or strong anyway,
      a function typedef is finished at once, but an unfinished struct only if it is needed
      behind the pointer. So the entry of the typedef stands before those of its other parts,
      which it literally needs. */
  lemma EarlyEntryIff(g: Graph, rank: seq<nat>, s: State, h: Graph, x: Id, c: Id, s': State, r: int)
    requires Ranked(g, rank) && CLike(g, rank) && Inv(g, rank, s) && h == Rest(g, rank, s) && x < |g|
    requires g[x].Typedef? && IsFn(g, rank, x) && FnUnordered(g, rank, s, x)
    requires !WeakOnly(h, rank, g[x].target, true)
    requires c < |g| && g[c].Composite? && c !in s.finished
    requires (s', r) == Order(g, rank, s, x, true) && r >= 0
    ensures r == 1 && s'.finished != [] && s'.finished[|s'.finished| - 1] == x
    ensures c !in s'.finished <==>
              forall b: bool :: Reaches(h, rank, true, Node(x, true), Node(c, b), 1) ==> Weak(g, c, b)
    ensures c in Children(g[Proto(g, rank, x)]) ==> Reaches(g, rank, true, Node(x, false), Node(c, false), 1)
  {
    var F, t := Elems(s.finished), g[x].target;
    var (s1, r1) := Order(g, rank, s, t, true);
    var (b, q) := Order(h, rank, s, t, true);
    CutOrder(g, h, rank, F, s, s, t, true, s1, r1, b, q);
    CutUnordered(g, h, rank, s, x);
    CutCLike(g, h, rank, F);
    RestInv(g, h, rank, s);
    OrderSound(h, rank, s, t, true, b, q);
    StructBehindPointer(h, rank, s, x, t, c, b, q);
    if c in Children(g[Proto(g, rank, x)]) { PartReached(g, rank, x, c); }
  }

  lemma {:induction false} PartReached(g: Graph, rank: seq<nat>, y: Id, c: Id)
    requires Ranked(g, rank) && y < |g| && IsFn(g, rank, y) && c in Children(g[Proto(g, rank, y)]) && c < |g|
    ensures Reaches(g, rank, true, Node(y, false), Node(c, false), 1)
    decreases rank[y]
  {
    var a, to := Node(y, false), Node(c, false);
    if g[y].FuncProto? {
      ReachesSelf(g, rank, true, a);
      ReachesStep(g, rank, true, a, a, to, 0);
    } else {
      var t := g[y].target;
      PartReached(g, rank, t, c);
      var p: seq<Node> :| Path(g, rank, true, p) && |p| > 1 && p[0] == Node(t, false) && p[|p| - 1] == to;
      PathPrepend(g, rank, true, a, p, [a] + p);
      PathReaches(g, rank, true, [a] + p, 1);
    }
  }

  // ----- What stands on the weak way down -----

  /** With a type on the way finished, the way is no longer weak. */
  lemma {:induction false} FinishedOnWay(g: Graph, h: Graph, rank: seq<nat>, F: set<Id>, id: Id, tp: bool, c: Id)
    requires 0 !in F && h == Cut(g, F) && Ranked(g, rank) && Ranked(h, rank) && id < |g|
    requires OnWay(g, rank, id, c) && c in F
    ensures !WeakOnly(h, rank, id, tp)
    decreases rank[id]
  {
    if id !in F {
      match g[id]
      case Ptr(t) => FinishedOnWay(g, h, rank, F, t, true, c);
      case Array(e, _) => FinishedOnWay(g, h, rank, F, e, false, c);
      case Mod(t) => FinishedOnWay(g, h, rank, F, t, tp, c);
      case Typedef(t, _) => FinishedOnWay(g, h, rank, F, t, tp, c);
      case FuncProto(r, ps) =>
        if OnWay(g, rank, r, c) {
          FinishedOnWay(g, h, rank, F, r, tp, c);
        } else {
          var i :| 0 <= i < |ps| && OnWay(g, rank, ps[i], c);
          FinishedOnWay(g, h, rank, F, ps[i], tp, c);
        }
    }
  }

  /** Scalars and pointers: ordered when met, and never strong. */
  predicate Plain(g: Graph, id: Id)
    requires id < |g|
  {
    g[id].Int? || g[id].Float? || g[id].Other? || g[id].Ptr?
  }

  lemma {:induction false} WayDown(g: Graph, rank: seq<nat>, id: Id, c: Id)
    requires Ranked(g, rank) && id < |g| && OnWay(g, rank, id, c)
    ensures c < |g| && rank[c] <= rank[id]
    decreases rank[id]
  {
    if id != c {
      match g[id]
      case Ptr(t) => WayDown(g, rank, t, c);
      case Array(e, _) => WayDown(g, rank, e, c);
      case Mod(t) => WayDown(g, rank, t, c);
      case Typedef(t, _) => WayDown(g, rank, t, c);
      case FuncProto(r, ps) =>
        if OnWay(g, rank, r, c) {
          WayDown(g, rank, r, c);
        } else {
          var i :| 0 <= i < |ps| && OnWay(g, rank, ps[i], c);
          WayDown(g, rank, ps[i], c);
        }
    }
  }

  lemma {:induction false} WayWeak(g: Graph, rank: seq<nat>, id: Id, tp: bool, c: Id)
    requires Ranked(g, rank) && id < |g| && OnWay(g, rank, id, c) && WeakOnly(g, rank, id, tp)
    requires c < |g| && Plain(g, c)
    ensures WeakOnly(g, rank, c, false)
    decreases rank[id]
  {
    if id != c {
      match g[id]
      case Ptr(t) => WayWeak(g, rank, t, true, c);
      case Array(e, _) => WayWeak(g, rank, e, false, c);
      case Mod(t) => WayWeak(g, rank, t, tp, c);
      case Typedef(t, _) => WayWeak(g, rank, t, tp, c);
      case FuncProto(r, ps) =>
        if OnWay(g, rank, r, c) {
          WayWeak(g, rank, r, tp, c);
        } else {
          var i :| 0 <= i < |ps| && OnWay(g, rank, ps[i], c);
          WayWeak(g, rank, ps[i], tp, c);
        }
    }
  }

  lemma {:induction false} WayThrough(g: Graph, rank: seq<nat>, id: Id, c: Id, d: Id)
    requires Ranked(g, rank) && id < |g| && OnWay(g, rank, id, c) && c < |g| && OnWay(g, rank, c, d)
    ensures OnWay(g, rank, id, d)
    decreases rank[id]
  {
    if id != c {
      match g[id]
      case Ptr(t) => WayThrough(g, rank, t, c, d);
      case Array(e, _) => WayThrough(g, rank, e, c, d);
      case Mod(t) => WayThrough(g, rank, t, c, d);
      case Typedef(t, _) => WayThrough(g, rank, t, c, d);
      case FuncProto(r, ps) =>
        if OnWay(g, rank, r, c) {
          WayThrough(g, rank, r, c, d);
        } else {
          var i :| 0 <= i < |ps| && OnWay(g, rank, ps[i], c);
          WayThrough(g, rank, ps[i], c, d);
        }
    }
  }

  /** The only scalar or pointer on the way down from `c` is `c`. */
  ghost predicate Deepest(g: Graph, rank: seq<nat>, c: Id)
    requires Ranked(g, rank) && c < |g|
  {
    Plain(g, c) && forall d: nat :: OnWay(g, rank, c, d) && d < |g| && Plain(g, d) ==> d == c
  }

  lemma {:induction false} DeepestFound(g: Graph, rank: seq<nat>, c: Id) returns (d: Id)
    requires Ranked(g, rank) && c < |g| && Plain(g, c)
    ensures d < |g| && OnWay(g, rank, c, d) && Deepest(g, rank, d)
    decreases rank[c]
  {
    if Deepest(g, rank, c) {
      d := c;
    } else {
      var t := g[c].target;
      var e: nat :| OnWay(g, rank, c, e) && e < |g| && Plain(g, e) && e != c;
      WayDown(g, rank, t, e);
      d := DeepestFound(g, rank, e);
      WayThrough(g, rank, c, e, d);
    }
  }

  /** A weak way down without scalars and pointers leaves no trace. */
  lemma {:induction false} VisitLeavesNothing(g: Graph, rank: seq<nat>, s: State, id: Id, tp: bool)
    requires Ranked(g, rank) && id < |g| == |s.marks| && WeakOnly(g, rank, id, tp)
    requires forall d: nat :: OnWay(g, rank, id, d) && d < |g| ==> s.marks[d].NotOrdered? && !Plain(g, d)
    ensures Order(g, rank, s, id, tp) == (s, 0)
    decreases rank[id]
  {
    assert OnWay(g, rank, id, id);
    match g[id]
    case Array(e, _) => VisitLeavesNothing(g, rank, s, e, false);
    case Mod(t) => VisitLeavesNothing(g, rank, s, t, tp);
    case Typedef(t, _) => VisitLeavesNothing(g, rank, s, t, tp);
    case FuncProto(r, ps) =>
      VisitLeavesNothing(g, rank, s, r, tp);
      forall i | 0 <= i < |ps| ensures Order(g, rank, s, ps[i], tp) == (s, 0) {
        VisitLeavesNothing(g, rank, s, ps[i], tp);
      }
      EachLeavesNothing(g, rank, s, ps, tp, rank[id]);
    case _ =>
  }

  lemma {:induction false} EachLeavesNothing(g: Graph, rank: seq<nat>, s: State, ids: seq<Id>, tp: bool, lim: nat)
    requires Ranked(g, rank) && |g| == |s.marks|
    requires forall i :: 0 <= i < |ids| ==> ids[i] < |g| && rank[ids[i]] < lim
    requires forall i :: 0 <= i < |ids| ==> Order(g, rank, s, ids[i], tp) == (s, 0)
    ensures OrderEach(g, rank, s, ids, tp, lim) == (s, 0)
    decreases |ids|
  {
    if ids != [] {
      assert Order(g, rank, s, ids[0], tp) == (s, 0);
      EachLeavesNothing(g, rank, s, ids[1..], tp, lim);
    }
  }

  /** From a weak type a literal path only goes down. */
  lemma {:induction false} WeakPathDown(g: Graph, rank: seq<nat>, p: seq<Node>)
    requires Ranked(g, rank) && Path(g, rank, true, p) && WeakOnly(g, rank, p[0].id, p[0].tp)
    ensures rank[p[|p| - 1].id] <= rank[p[0].id]
    decreases |p|
  {
    if |p| > 1 {
      PathTail(g, rank, true, p);
      WeakStep(g, rank, p[0], p[1]);
      WeakPathDown(g, rank, p[1..]);
    }
  }

  lemma WeakStep(g: Graph, rank: seq<nat>, a: Node, b: Node)
    requires Ranked(g, rank) && Step(g, rank, true, a, b) && WeakOnly(g, rank, a.id, a.tp)
    ensures b.id < |g| && WeakOnly(g, rank, b.id, b.tp) && rank[b.id] < rank[a.id]
  {
    ChildInRange(g, a.id, b.id);
    match g[a.id]
    case FuncProto(r, ps) =>
      if b.id != r { var i :| 0 <= i < |ps| && ps[i] == b.id; }
    case _ =>
  }
}
