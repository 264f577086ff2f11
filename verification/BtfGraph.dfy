/** The BTF type graph that the C dumper walks, the links it follows, and the
    notion of a type being fully ordered with respect to a set of finished types. */
module BtfGraph {

  type Id = nat

  /** One constructor per group of BTF kinds that the dumper treats alike. `named`
      says that `name_off` is not 0. The type id 0 is `void`. */
  datatype Kind =
    | Void
    | Int
    | Float
    | Ptr(target: Id)
    | Array(elem: Id, index: Id)
    | Composite(isUnion: bool, named: bool, members: seq<Id>)
    | Enum(named: bool)
    | Fwd(named: bool)
    | Typedef(target: Id, builtin: bool)  // builtin: the blacklisted __builtin_va_list
    | Mod(target: Id)                     // volatile, const, restrict, type tag
    | FuncProto(ret: Id, params: seq<Id>)
    | Other(refs: seq<Id>)                // func, var, datasec, decl tag

  /** The types that walking a type may lead to. */
  function Children(k: Kind): seq<Id> {
    match k
    case Ptr(t) => [t]
    case Array(e, _) => [e]
    case Composite(_, _, ms) => ms
    case Typedef(t, _) => [t]
    case Mod(t) => [t]
    case FuncProto(r, ps) => [r] + ps
    case _ => []
  }

  /** The types that get marked as referenced because of this one; a prototype
      marks its parameters only. */
  function Marks(k: Kind): seq<Id> {
    match k
    case Ptr(t) => [t]
    case Array(e, i) => [i, e]
    case Composite(_, _, ms) => ms
    case Typedef(t, _) => [t]
    case Mod(t) => [t]
    case FuncProto(_, ps) => ps
    case Other(rs) => rs
    case _ => []
  }

  ghost predicate WellFormed(g: seq<Kind>) {
    && |g| > 0
    && (forall i :: 0 <= i < |g| ==> (g[i].Void? <==> i == 0))
    && (forall i :: 0 <= i < |g| ==> InRange(g[i], |g|))
  }

  ghost predicate InRange(k: Kind, n: nat) {
    match k
    case Ptr(t) => t < n
    case Array(e, _) => e < n
    case Composite(_, _, ms) => forall j :: 0 <= j < |ms| ==> ms[j] < n
    case Typedef(t, _) => t < n
    case Mod(t) => t < n
    case FuncProto(r, ps) => r < n && forall j :: 0 <= j < |ps| ==> ps[j] < n
    case _ => true
  }

  type Graph = g: seq<Kind> | WellFormed(g) witness [Void]

  lemma ChildInRange(g: Graph, id: Id, c: Id)
    requires id < |g| && c in Children(g[id])
    ensures c < |g|
  {
    match g[id]
    case FuncProto(r, ps) => assert c == r || c in ps;
    case _ =>
  }

  ghost predicate MarksInRange(g: Graph) {
    forall i, x :: 0 <= i < |g| && x in Marks(g[i]) ==> x < |g|
  }

  predicate Referenced(g: Graph, id: Id) {
    exists i :: 0 <= i < |g| && id in Marks(g[i])
  }

  /** The kind names the type: as what a pointer, typedef or modifier stands for, as element
      or index of an array, as a member, as a parameter, or in one of the other kinds. The
      result of a prototype does not count. */
  ghost predicate Names(k: Kind, x: Id) {
    match k
    case Ptr(t) => x == t
    case Typedef(t, _) => x == t
    case Mod(t) => x == t
    case Array(e, i) => x == e || x == i
    case Composite(_, _, ms) => exists j :: 0 <= j < |ms| && ms[j] == x
    case FuncProto(_, ps) => exists j :: 0 <= j < |ps| && ps[j] == x
    case Other(rs) => exists j :: 0 <= j < |rs| && rs[j] == x
    case _ => false
  }

  ghost predicate Named(g: Graph, x: Id) {
    exists i :: 0 <= i < |g| && Names(g[i], x)
  }

  lemma MarksAreNames(k: Kind, x: Id)
    ensures x in Marks(k) <==> Names(k, x)
  {
  }

  lemma ReferencedIsNamed(g: Graph, x: Id)
    ensures Referenced(g, x) <==> Named(g, x)
  {
    forall i | 0 <= i < |g| ensures x in Marks(g[i]) <==> Names(g[i], x) { MarksAreNames(g[i], x); }
  }

  /** A certificate that every reference cycle passes through a struct or union:
      outside those, references go down in rank. */
  ghost predicate Ranked(g: Graph, rank: seq<nat>) {
    && |rank| == |g|
    && (forall i :: 0 <= i < |g| ==> rank[i] <= |g|)
    && (forall i :: 0 <= i < |g| ==> LeadsDown(g[i], rank, rank[i]))
  }

  ghost predicate LeadsDown(k: Kind, rank: seq<nat>, r: nat)
    requires InRange(k, |rank|)
  {
    match k
    case Ptr(t) => rank[t] < r
    case Array(e, _) => rank[e] < r
    case Typedef(t, _) => rank[t] < r
    case Mod(t) => rank[t] < r
    case FuncProto(t, ps) => rank[t] < r && forall j :: 0 <= j < |ps| ==> rank[ps[j]] < r
    case _ => true
  }

  /** The kinds that become entries of the emit queue once they are ordered. */
  predicate Queueable(g: Graph, id: Id)
    requires id < |g|
  {
    match g[id]
    case Composite(_, named, _) => named
    case Enum(named) => named || !Referenced(g, id)
    case Fwd(named) => named || !Referenced(g, id)
    case Typedef(_, _) => true
    case _ => false
  }

  /** A named struct or union behind a pointer: a forward declaration is enough. */
  predicate Weak(g: Graph, id: Id, tp: bool)
    requires id < |g|
  {
    tp && g[id].Composite? && g[id].named
  }

  /** The type is a function type, possibly behind typedefs and modifiers. */
  ghost predicate IsFn(g: Graph, rank: seq<nat>, id: Id)
    requires Ranked(g, rank) && id < |g|
    decreases rank[id]
  {
    match g[id]
    case FuncProto(_, _) => true
    case Typedef(t, _) => IsFn(g, rank, t)
    case Mod(t) => IsFn(g, rank, t)
    case _ => false
  }

  /** Through typedefs, modifiers and the parts of a prototype the type leads to named structs
      and unions only. */
  ghost predicate AllStructs(g: Graph, rank: seq<nat>, id: Id)
    requires Ranked(g, rank) && id < |g|
    decreases rank[id]
  {
    match g[id]
    case Composite(_, named, _) => named
    case Typedef(t, _) => AllStructs(g, rank, t)
    case Mod(t) => AllStructs(g, rank, t)
    case FuncProto(r, ps) => AllStructs(g, rank, r) && forall i :: 0 <= i < |ps| ==> AllStructs(g, rank, ps[i])
    case _ => false
  }

  /** It leads to some struct or union in F. */
  ghost predicate StructIn(g: Graph, rank: seq<nat>, F: set<Id>, id: Id)
    requires Ranked(g, rank) && id < |g|
    decreases rank[id]
  {
    match g[id]
    case Composite(_, _, _) => id in F
    case Typedef(t, _) => StructIn(g, rank, F, t)
    case Mod(t) => StructIn(g, rank, F, t)
    case FuncProto(r, ps) => StructIn(g, rank, F, r) || exists i :: 0 <= i < |ps| && StructIn(g, rank, F, ps[i])
    case _ => false
  }

  lemma {:induction false} StructInMonotone(g: Graph, rank: seq<nat>, F: set<Id>, F': set<Id>, id: Id)
    requires Ranked(g, rank) && id < |g| && F <= F' && StructIn(g, rank, F, id)
    ensures StructIn(g, rank, F', id)
    decreases rank[id]
  {
    match g[id]
    case Typedef(t, _) => StructInMonotone(g, rank, F, F', t);
    case Mod(t) => StructInMonotone(g, rank, F, F', t);
    case FuncProto(r, ps) =>
      if StructIn(g, rank, F, r) {
        StructInMonotone(g, rank, F, F', r);
      } else {
        var i :| 0 <= i < |ps| && StructIn(g, rank, F, ps[i]);
        StructInMonotone(g, rank, F, F', ps[i]);
      }
    case _ =>
  }

  /** `Done(F, id, tp)`: reached with the flag `tp`, the type needs nothing beyond the
      finished types in F. Through a pointer a named struct needs nothing; a typedef
      then needs nothing of its own if everything it leads to is weak. */
  ghost predicate Done(g: Graph, rank: seq<nat>, F: set<Id>, id: Id, tp: bool)
    requires Ranked(g, rank) && id < |g|
    decreases rank[id]
  {
    match g[id]
    case Void => true
    case Array(e, _) => Done(g, rank, F, e, false)
    case Mod(t) => Done(g, rank, F, t, tp)
    case FuncProto(r, ps) =>
      Done(g, rank, F, r, tp) && forall i :: 0 <= i < |ps| ==> Done(g, rank, F, ps[i], tp)
    case Composite(_, _, _) => id in F || Weak(g, id, tp)
    case Typedef(t, _) =>
      id in F || (tp && WeakOnly(g, rank, t, true) && Done(g, rank, F, t, true))
    case _ => id in F
  }

  /** Nothing strong is met on the way down: no enum, no embedded or anonymous struct. */
  ghost predicate WeakOnly(g: Graph, rank: seq<nat>, id: Id, tp: bool)
    requires Ranked(g, rank) && id < |g|
    decreases rank[id]
  {
    match g[id]
    case Int => true
    case Float => true
    case Other(_) => true
    case Ptr(t) => WeakOnly(g, rank, t, true)
    case Array(e, _) => WeakOnly(g, rank, e, false)
    case Mod(t) => WeakOnly(g, rank, t, tp)
    case Typedef(t, _) => tp && WeakOnly(g, rank, t, tp)
    case FuncProto(r, ps) =>
      WeakOnly(g, rank, r, tp) && forall i :: 0 <= i < |ps| ==> WeakOnly(g, rank, ps[i], tp)
    case Composite(_, _, _) => Weak(g, id, tp)
    case _ => false
  }

  /** What must hold of the types finished earlier when `id` itself is finished. */
  ghost predicate Ready(g: Graph, rank: seq<nat>, F: set<Id>, id: Id)
    requires Ranked(g, rank) && id < |g|
  {
    match g[id]
    case Ptr(t) => Done(g, rank, F, t, true)
    case Composite(_, _, ms) => forall i :: 0 <= i < |ms| ==> Done(g, rank, F, ms[i], false)
    case Typedef(t, _) => Done(g, rank, F, t, IsFn(g, rank, id))
    case Void => false  // these kinds never carry a mark of their own
    case Array(_, _) => false
    case Mod(_) => false
    case FuncProto(_, _) => false
    case _ => true
  }

  function Elems(s: seq<Id>): set<Id> { set x | x in s }

  /** The order in which types were finished respects what each of them needs. */
  ghost predicate Topological(g: Graph, rank: seq<nat>, fin: seq<Id>)
    requires Ranked(g, rank)
  {
    && (forall k :: 0 <= k < |fin| ==> fin[k] < |g|)
    && (forall k :: 0 <= k < |fin| ==> Ready(g, rank, Elems(fin[..k]), fin[k]))
  }

  lemma {:induction false} DoneMonotone(g: Graph, rank: seq<nat>, F: set<Id>, F': set<Id>, id: Id, tp: bool)
    requires Ranked(g, rank) && id < |g| && F <= F'
    requires Done(g, rank, F, id, tp)
    ensures Done(g, rank, F', id, tp)
    decreases rank[id]
  {
    match g[id]
    case Array(e, _) => DoneMonotone(g, rank, F, F', e, false);
    case Mod(t) => DoneMonotone(g, rank, F, F', t, tp);
    case FuncProto(r, ps) =>
      DoneMonotone(g, rank, F, F', r, tp);
      forall i | 0 <= i < |ps| ensures Done(g, rank, F', ps[i], tp) {
        DoneMonotone(g, rank, F, F', ps[i], tp);
      }
    case Typedef(t, _) => if id !in F { DoneMonotone(g, rank, F, F', t, true); }
    case _ =>
  }

  lemma {:induction false} DoneThroughPtr(g: Graph, rank: seq<nat>, F: set<Id>, id: Id)
    requires Ranked(g, rank) && id < |g|
    requires Done(g, rank, F, id, false)
    ensures Done(g, rank, F, id, true)
    decreases rank[id]
  {
    match g[id]
    case Mod(t) => DoneThroughPtr(g, rank, F, t);
    case FuncProto(r, ps) =>
      DoneThroughPtr(g, rank, F, r);
      forall i | 0 <= i < |ps| ensures Done(g, rank, F, ps[i], true) {
        DoneThroughPtr(g, rank, F, ps[i]);
      }
    case _ =>
  }

  lemma {:induction false} WeakOnlyThroughPtr(g: Graph, rank: seq<nat>, id: Id)
    requires Ranked(g, rank) && id < |g|
    requires WeakOnly(g, rank, id, false)
    ensures WeakOnly(g, rank, id, true)
    decreases rank[id]
  {
    match g[id]
    case Mod(t) => WeakOnlyThroughPtr(g, rank, t);
    case FuncProto(r, ps) =>
      WeakOnlyThroughPtr(g, rank, r);
      forall i | 0 <= i < |ps| ensures WeakOnly(g, rank, ps[i], true) {
        WeakOnlyThroughPtr(g, rank, ps[i]);
      }
    case _ =>
  }

  lemma ReadyMonotone(g: Graph, rank: seq<nat>, F: set<Id>, F': set<Id>, id: Id)
    requires Ranked(g, rank) && id < |g| && F <= F'
    requires Ready(g, rank, F, id)
    ensures Ready(g, rank, F', id)
  {
    match g[id]
    case Ptr(t) => DoneMonotone(g, rank, F, F', t, true);
    case Composite(_, _, ms) =>
      forall i | 0 <= i < |ms| ensures Done(g, rank, F', ms[i], false) {
        DoneMonotone(g, rank, F, F', ms[i], false);
      }
    case Typedef(t, _) => DoneMonotone(g, rank, F, F', t, IsFn(g, rank, id));
    case _ =>
  }

  /** Every finished type has all it needs among the finished types. */
  lemma FinishedIsReady(g: Graph, rank: seq<nat>, fin: seq<Id>, n: nat, id: Id)
    requires Ranked(g, rank) && Topological(g, rank, fin) && n <= |fin|
    requires id in Elems(fin[..n])
    ensures id < |g| && Ready(g, rank, Elems(fin[..n]), id)
  {
    var k :| 0 <= k < n && fin[..n][k] == id;
    assert fin[k] == id;
    assert Elems(fin[..k]) <= Elems(fin[..n]) by {
      forall x | x in fin[..k] ensures x in fin[..n] {
        var j :| 0 <= j < k && fin[..k][j] == x;
        assert fin[..n][j] == x;
      }
    }
    ReadyMonotone(g, rank, Elems(fin[..k]), Elems(fin[..n]), id);
  }

  // ----- Links, as the dumper follows them -----

  datatype Node = Node(id: Id, tp: bool)

  /** One link. With `literal` the flag flows exactly as in the recursive walk. Without
      it the parts of a function typedef count as reached through a pointer, because such
      a typedef may have been finished by an earlier visit through a pointer. */
  ghost predicate Step(g: Graph, rank: seq<nat>, literal: bool, a: Node, b: Node)
    requires Ranked(g, rank)
  {
    && a.id < |g|
    && b.id in Children(g[a.id])
    && match g[a.id]
       case Ptr(_) => b.tp
       case Array(_, _) => !b.tp
       case Composite(_, _, _) => !Weak(g, a.id, a.tp) && !b.tp
       case Typedef(_, _) => b.tp == (a.tp || (!literal && IsFn(g, rank, a.id)))
       case _ => b.tp == a.tp
  }

  ghost predicate Path(g: Graph, rank: seq<nat>, literal: bool, p: seq<Node>)
    requires Ranked(g, rank)
  {
    && |p| > 0
    && (forall i :: 0 <= i < |p| ==> p[i].id < |g|)
    && (forall i :: 0 <= i < |p| - 1 ==> Step(g, rank, literal, p[i], p[i + 1]))
  }

  lemma PathTail(g: Graph, rank: seq<nat>, literal: bool, p: seq<Node>)
    requires Ranked(g, rank) && Path(g, rank, literal, p) && |p| > 1
    ensures Path(g, rank, literal, p[1..]) && Step(g, rank, literal, p[0], p[1])
  {
    assert Step(g, rank, literal, p[0], p[0 + 1]);
    forall i | 0 <= i < |p[1..]| - 1 ensures Step(g, rank, literal, p[1..][i], p[1..][i + 1]) {
      assert Step(g, rank, literal, p[i + 1], p[(i + 1) + 1]);
    }
  }

  /** `to` is reached from `from` in `least` or more links. */
  ghost predicate Reaches(g: Graph, rank: seq<nat>, literal: bool, from: Node, to: Node, least: nat)
    requires Ranked(g, rank)
  {
    exists p :: Path(g, rank, literal, p) && |p| > least && p[0] == from && p[|p| - 1] == to
  }

  lemma PathAppend(g: Graph, rank: seq<nat>, literal: bool, p: seq<Node>, to: Node)
    requires Ranked(g, rank) && Path(g, rank, literal, p) && Step(g, rank, literal, p[|p| - 1], to)
    ensures Path(g, rank, literal, p + [to])
  {
    ChildInRange(g, p[|p| - 1].id, to.id);
    var q := p + [to];
    forall i | 0 <= i < |q| - 1 ensures Step(g, rank, literal, q[i], q[i + 1]) {
      if i < |p| - 1 {
        assert Step(g, rank, literal, p[i], p[i + 1]);
      }
    }
  }

  lemma PathPrepend(g: Graph, rank: seq<nat>, literal: bool, a: Node, p: seq<Node>, q: seq<Node>)
    requires Ranked(g, rank) && Path(g, rank, literal, p) && a.id < |g| && Step(g, rank, literal, a, p[0])
    requires q == [a] + p
    ensures Path(g, rank, literal, q)
  {
    forall i | 0 <= i < |q| - 1 ensures Step(g, rank, literal, q[i], q[i + 1]) {
      if i > 0 { assert Step(g, rank, literal, p[i - 1], p[(i - 1) + 1]); }
    }
  }

  lemma PathSuffix(g: Graph, rank: seq<nat>, literal: bool, p: seq<Node>, i: nat, q: seq<Node>)
    requires Ranked(g, rank) && Path(g, rank, literal, p) && i < |p| && q == p[i..]
    ensures Path(g, rank, literal, q)
  {
    forall k | 0 <= k < |q| - 1 ensures Step(g, rank, literal, q[k], q[k + 1]) {
      assert Step(g, rank, literal, p[i + k], p[(i + k) + 1]);
    }
  }

  lemma PathPrefix(g: Graph, rank: seq<nat>, literal: bool, p: seq<Node>, n: nat, q: seq<Node>)
    requires Ranked(g, rank) && Path(g, rank, literal, p) && 0 < n <= |p| && q == p[..n]
    ensures Path(g, rank, literal, q)
  {
    forall k | 0 <= k < |q| - 1 ensures Step(g, rank, literal, q[k], q[k + 1]) {
      assert Step(g, rank, literal, p[k], p[k + 1]);
    }
  }

  lemma PathReaches(g: Graph, rank: seq<nat>, literal: bool, p: seq<Node>, least: nat)
    requires Ranked(g, rank) && Path(g, rank, literal, p) && |p| > least
    ensures Reaches(g, rank, literal, p[0], p[|p| - 1], least)
  {
  }

  lemma ReplaceHead(g: Graph, rank: seq<nat>, literal: bool, a: Node, p: seq<Node>)
    requires Ranked(g, rank) && Path(g, rank, literal, p) && |p| > 1
    requires a.id < |g| && Step(g, rank, literal, a, p[1])
    ensures Reaches(g, rank, literal, a, p[|p| - 1], 1)
  {
    PathTail(g, rank, literal, p);
    var q := [a] + p[1..];
    PathPrepend(g, rank, literal, a, p[1..], q);
    PathReaches(g, rank, literal, q, 1);
  }

  lemma ReachesStep(g: Graph, rank: seq<nat>, literal: bool, from: Node, mid: Node, to: Node, least: nat)
    requires Ranked(g, rank)
    requires Reaches(g, rank, literal, from, mid, least)
    requires Step(g, rank, literal, mid, to)
    ensures Reaches(g, rank, literal, from, to, least + 1)
    ensures Reaches(g, rank, literal, from, to, least)
  {
    var p: seq<Node> :| Path(g, rank, literal, p) && |p| > least && p[0] == from && p[|p| - 1] == mid;
    PathAppend(g, rank, literal, p, to);
    var q := p + [to];
    assert Path(g, rank, literal, q) && |q| > least + 1 && q[0] == from && q[|q| - 1] == to;
  }

  lemma ReachesSelf(g: Graph, rank: seq<nat>, literal: bool, n: Node)
    requires Ranked(g, rank) && n.id < |g|
    ensures Reaches(g, rank, literal, n, n, 0)
  {
    assert Path(g, rank, literal, [n]);
    assert [n][0] == n;
  }

  /** From `root` one strongly reaches a struct or union that strongly reaches itself:
      no order of definitions can satisfy that. */
  ghost predicate StrongCycle(g: Graph, rank: seq<nat>, literal: bool, root: Node)
    requires Ranked(g, rank)
  {
    exists a: Node, b: Node ::
      && a.id < |g| && g[a.id].Composite? && a.id == b.id
      && !Weak(g, a.id, a.tp) && !Weak(g, b.id, b.tp)
      && Reaches(g, rank, literal, root, a, 0)
      && Reaches(g, rank, literal, a, b, 1)
  }

  /** No struct member, array element or prototype part has a function type, as C demands. */
  ghost predicate CLike(g: Graph, rank: seq<nat>)
    requires Ranked(g, rank)
  {
    forall i, c :: 0 <= i < |g| && (g[i].Composite? || g[i].Array? || g[i].FuncProto?) && c in Children(g[i])
      ==> !IsFn(g, rank, c)
  }

  /** `c` is met on the way down from `id`, before the members of any struct. */
  ghost predicate OnWay(g: Graph, rank: seq<nat>, id: Id, c: Id)
    requires Ranked(g, rank) && id < |g|
    decreases rank[id]
  {
    || id == c
    || match g[id]
       case Ptr(t) => OnWay(g, rank, t, c)
       case Array(e, _) => OnWay(g, rank, e, c)
       case Mod(t) => OnWay(g, rank, t, c)
       case Typedef(t, _) => OnWay(g, rank, t, c)
       case FuncProto(r, ps) => OnWay(g, rank, r, c) || exists i :: 0 <= i < |ps| && OnWay(g, rank, ps[i], c)
       case _ => false
  }

  lemma {:induction false} StructInWay(g: Graph, rank: seq<nat>, F: set<Id>, id: Id) returns (c: Id)
    requires Ranked(g, rank) && id < |g| && StructIn(g, rank, F, id)
    ensures c < |g| && g[c].Composite? && c in F && OnWay(g, rank, id, c)
    decreases rank[id]
  {
    match g[id]
    case Composite(_, _, _) => c := id;
    case Typedef(t, _) => c := StructInWay(g, rank, F, t);
    case Mod(t) => c := StructInWay(g, rank, F, t);
    case FuncProto(r, ps) =>
      if StructIn(g, rank, F, r) {
        c := StructInWay(g, rank, F, r);
      } else {
        var i :| 0 <= i < |ps| && StructIn(g, rank, F, ps[i]);
        c := StructInWay(g, rank, F, ps[i]);
      }
  }

  /** A literal path from `c` meets `k`, and not only where a declaration is enough. */
  ghost predicate NeededBy(g: Graph, rank: seq<nat>, c: Id, k: Id)
    requires Ranked(g, rank) && k < |g|
  {
    exists b: bool :: Reaches(g, rank, true, Node(c, false), Node(k, b), 0) && !Weak(g, k, b)
  }

  /** A literal path from x back to itself, on which no struct or pointer is needed by the
      struct c, to which x leads as well. */
  ghost predicate Escapes(g: Graph, rank: seq<nat>, x: Id, c: Id, p: seq<Node>)
    requires Ranked(g, rank) && x < |g|
  {
    && Path(g, rank, true, p) && |p| > 1 && p[0] == Node(x, false) && p[|p| - 1] == Node(x, true)
    && c < |g| && g[c].Composite? && OnWay(g, rank, x, c)
    && forall i :: 0 <= i < |p| - 1 && (g[p[i].id].Composite? || g[p[i].id].Ptr?) ==> !NeededBy(g, rank, c, p[i].id)
  }

  // ----- Consequences of a topological order -----

  /** Being done is closed under links. */
  lemma DoneStep(g: Graph, rank: seq<nat>, fin: seq<Id>, n: nat, a: Node, b: Node)
    requires Ranked(g, rank) && Topological(g, rank, fin) && n <= |fin|
    requires a.id < |g| && Done(g, rank, Elems(fin[..n]), a.id, a.tp)
    requires Step(g, rank, false, a, b)
    ensures b.id < |g| && Done(g, rank, Elems(fin[..n]), b.id, b.tp)
  {
    var F := Elems(fin[..n]);
    if a.id in F {
      FinishedIsReady(g, rank, fin, n, a.id);
    }
    match g[a.id]
    case Typedef(t, _) =>
      if a.id in F && !IsFn(g, rank, a.id) && a.tp { DoneThroughPtr(g, rank, F, t); }
    case FuncProto(r, ps) =>
      if b.id != r { var i :| 0 <= i < |ps| && ps[i] == b.id; }
    case Composite(_, _, ms) =>
      var i :| 0 <= i < |ms| && ms[i] == b.id;
    case _ =>
  }

  lemma {:induction false} DonePath(g: Graph, rank: seq<nat>, fin: seq<Id>, n: nat, p: seq<Node>)
    requires Ranked(g, rank) && Topological(g, rank, fin) && n <= |fin|
    requires Path(g, rank, false, p)
    requires Done(g, rank, Elems(fin[..n]), p[0].id, p[0].tp)
    ensures Done(g, rank, Elems(fin[..n]), p[|p| - 1].id, p[|p| - 1].tp)
    decreases |p|
  {
    if |p| > 1 {
      DoneStep(g, rank, fin, n, p[0], p[1]);
      PathTail(g, rank, false, p);
      DonePath(g, rank, fin, n, p[1..]);
    }
  }

  /** The kinds that carry a definition and are therefore finished when strongly reached. */
  predicate IsDefinition(g: Graph, n: Node)
    requires n.id < |g|
  {
    match g[n.id]
    case Composite(_, _, _) => !Weak(g, n.id, n.tp)
    case Enum(_) => true
    case Fwd(_) => true
    case Typedef(_, _) => !n.tp
    case _ => false
  }

  /** Whatever a finished type strongly leads to, over any number of links, was finished
      before it. */
  lemma StrongDependenciesPrecede(g: Graph, rank: seq<nat>, fin: seq<Id>, k: nat, y: Node)
    requires Ranked(g, rank) && Topological(g, rank, fin) && k < |fin|
    requires Reaches(g, rank, false, Node(fin[k], false), y, 1)
    requires y.id < |g| && IsDefinition(g, y)
    ensures y.id in fin[..k]
  {
    var p: seq<Node> :| Path(g, rank, false, p) && |p| > 1 && p[0] == Node(fin[k], false) && p[|p| - 1] == y;
    assert Ready(g, rank, Elems(fin[..k]), fin[k]);
    PathTail(g, rank, false, p);
    match g[fin[k]] {
      case Composite(_, _, ms) => var i :| 0 <= i < |ms| && ms[i] == p[1].id;
      case _ =>
    }
    DonePath(g, rank, fin, k, p[1..]);
  }

  /** Structs and unions are finished at most once. */
  ghost predicate CompositesOnce(g: Graph, fin: seq<Id>) {
    forall i, j :: 0 <= i < j < |fin| && fin[i] == fin[j] && fin[i] < |g| ==> !g[fin[i]].Composite?
  }

  /** A non-weak struct or union has the same links whatever flag it is reached with. */
  lemma ReachesFromEmbedded(g: Graph, rank: seq<nat>, literal: bool, a: Node, b: Node)
    requires Ranked(g, rank) && a.id < |g| && g[a.id].Composite? && !Weak(g, a.id, a.tp)
    requires Reaches(g, rank, literal, a, b, 1)
    ensures Reaches(g, rank, literal, Node(a.id, false), b, 1)
  {
    var q: seq<Node> :| Path(g, rank, literal, q) && |q| > 1 && q[0] == a && q[|q| - 1] == b;
    PathTail(g, rank, literal, q);
    ReplaceHead(g, rank, literal, Node(a.id, false), q);
  }

  lemma NoSelfReach(g: Graph, rank: seq<nat>, fin: seq<Id>, a: Node, b: Node)
    requires Ranked(g, rank) && Topological(g, rank, fin) && CompositesOnce(g, fin)
    requires a.id < |g| && g[a.id].Composite? && !Weak(g, a.id, a.tp) && a.id in fin
    requires a.id == b.id && !Weak(g, b.id, b.tp)
    ensures !Reaches(g, rank, false, a, b, 1)
  {
    if Reaches(g, rank, false, a, b, 1) {
      var k :| 0 <= k < |fin| && fin[k] == a.id;
      ReachesFromEmbedded(g, rank, false, a, b);
      StrongDependenciesPrecede(g, rank, fin, k, b);
    }
  }

  lemma ReachedIsDone(g: Graph, rank: seq<nat>, fin: seq<Id>, root: Node, a: Node)
    requires Ranked(g, rank) && Topological(g, rank, fin)
    requires root.id < |g| && Done(g, rank, Elems(fin), root.id, root.tp)
    requires Reaches(g, rank, false, root, a, 0)
    ensures a.id < |g| && Done(g, rank, Elems(fin), a.id, a.tp)
  {
    var p: seq<Node> :| Path(g, rank, false, p) && |p| > 0 && p[0] == root && p[|p| - 1] == a;
    assert fin[..|fin|] == fin;
    DonePath(g, rank, fin, |fin|, p);
  }

  /** If everything the root needs is finished, no strong cycle is reachable from it. */
  lemma DoneRulesOutCycles(g: Graph, rank: seq<nat>, fin: seq<Id>, root: Node)
    requires Ranked(g, rank) && Topological(g, rank, fin) && CompositesOnce(g, fin)
    requires root.id < |g| && Done(g, rank, Elems(fin), root.id, root.tp)
    ensures !StrongCycle(g, rank, false, root)
  {
    forall a: Node, b: Node |
      && a.id < |g| && g[a.id].Composite? && a.id == b.id
      && !Weak(g, a.id, a.tp) && !Weak(g, b.id, b.tp)
      && Reaches(g, rank, false, root, a, 0)
      ensures !Reaches(g, rank, false, a, b, 1)
    {
      ReachedIsDone(g, rank, fin, root, a);
      NoSelfReach(g, rank, fin, a, b);
    }
  }

  // ----- The literal links and the weakened ones agree on C-like graphs -----

  lemma LiteralStepIsStep(g: Graph, rank: seq<nat>, a: Node, b: Node)
    requires Ranked(g, rank) && CLike(g, rank)
    requires Step(g, rank, true, a, b) && b.id < |g| && (a.tp || !IsFn(g, rank, a.id))
    ensures Step(g, rank, false, a, b)
    ensures b.tp || !IsFn(g, rank, b.id)
  {
  }

  lemma {:induction false} LiteralPathIsPath(g: Graph, rank: seq<nat>, p: seq<Node>, n: nat)
    requires Ranked(g, rank) && CLike(g, rank)
    requires Path(g, rank, true, p) && (p[0].tp || !IsFn(g, rank, p[0].id)) && n < |p|
    ensures forall i :: 0 <= i < n ==> Step(g, rank, false, p[i], p[i + 1])
    ensures p[n].tp || !IsFn(g, rank, p[n].id)
  {
    if n > 0 {
      LiteralPathIsPath(g, rank, p, n - 1);
      assert Step(g, rank, true, p[n - 1], p[(n - 1) + 1]);
      LiteralStepIsStep(g, rank, p[n - 1], p[n]);
    }
  }

  /** The links from a finished type are the same whichever flag a function typedef has. */
  lemma RestartPath(g: Graph, rank: seq<nat>, p: seq<Node>)
    requires Ranked(g, rank) && Path(g, rank, false, p) && |p| > 1 && p[0].tp == IsFn(g, rank, p[0].id)
    requires IsFn(g, rank, p[0].id) ==> g[p[0].id].Typedef?
    ensures Reaches(g, rank, false, Node(p[0].id, false), p[|p| - 1], 1)
  {
    PathTail(g, rank, false, p);
    var a := Node(p[0].id, false);
    SameLinks(g, rank, p[0], a, p[1]);
    ReplaceHead(g, rank, false, a, p);
  }

  lemma SameLinks(g: Graph, rank: seq<nat>, x: Node, a: Node, b: Node)
    requires Ranked(g, rank) && x.id < |g| && Step(g, rank, false, x, b) && a == Node(x.id, false)
    requires x.tp == IsFn(g, rank, x.id) && (x.tp ==> g[x.id].Typedef?)
    ensures Step(g, rank, false, a, b)
  {
  }

  /** What a finished type leads to along the literal flags was finished before it; a
      function typedef counts as reached through a pointer. */
  lemma LiteralDependenciesPrecede(g: Graph, rank: seq<nat>, fin: seq<Id>, k: nat, y: Node)
    requires Ranked(g, rank) && CLike(g, rank) && Topological(g, rank, fin) && k < |fin| && fin[k] < |g|
    requires Reaches(g, rank, true, Node(fin[k], IsFn(g, rank, fin[k])), y, 1)
    requires y.id < |g| && IsDefinition(g, y)
    ensures y.id in fin[..k]
  {
    var x := Node(fin[k], IsFn(g, rank, fin[k]));
    assert Ready(g, rank, Elems(fin[..k]), fin[k]);
    var p: seq<Node> :| Path(g, rank, true, p) && |p| > 1 && p[0] == x && p[|p| - 1] == y;
    LiteralPathIsPath(g, rank, p, |p| - 1);
    RestartPath(g, rank, p);
    StrongDependenciesPrecede(g, rank, fin, k, y);
  }

  lemma LiteralCycleIsCycle(g: Graph, rank: seq<nat>, root: Node)
    requires Ranked(g, rank) && CLike(g, rank)
    requires root.id < |g| && (root.tp || !IsFn(g, rank, root.id))
    requires StrongCycle(g, rank, true, root)
    ensures StrongCycle(g, rank, false, root)
  {
    var a: Node, b: Node :|
      && a.id < |g| && g[a.id].Composite? && a.id == b.id
      && !Weak(g, a.id, a.tp) && !Weak(g, b.id, b.tp)
      && Reaches(g, rank, true, root, a, 0)
      && Reaches(g, rank, true, a, b, 1);
    var p: seq<Node> :| Path(g, rank, true, p) && |p| > 0 && p[0] == root && p[|p| - 1] == a;
    LiteralPathIsPath(g, rank, p, |p| - 1);
    var q: seq<Node> :| Path(g, rank, true, q) && |q| > 1 && q[0] == a && q[|q| - 1] == b;
    LiteralPathIsPath(g, rank, q, |q| - 1);
    assert Reaches(g, rank, false, root, a, 0);
    assert Reaches(g, rank, false, a, b, 1);
  }

  // ----- A rank exists exactly when every cycle passes through a struct or union -----

  ghost predicate PlainPath(g: Graph, p: seq<Id>) {
    && |p| > 0
    && (forall i :: 0 <= i < |p| ==> p[i] < |g| && !g[p[i]].Composite?)
    && (forall i :: 0 <= i < |p| - 1 ==> p[i + 1] in Children(g[p[i]]))
  }

  ghost predicate PlainReaches(g: Graph, a: Id, b: Id) {
    exists p :: PlainPath(g, p) && p[0] == a && p[|p| - 1] == b
  }

  ghost predicate CyclesPassComposites(g: Graph) {
    forall p :: PlainPath(g, p) && |p| > 1 ==> p[0] != p[|p| - 1]
  }

  ghost function PlainSet(g: Graph, a: Id): set<Id> {
    set b | 0 <= b < |g| && PlainReaches(g, a, b)
  }

  lemma PlainPrepend(g: Graph, a: Id, p: seq<Id>, q: seq<Id>)
    requires PlainPath(g, p) && a < |g| && !g[a].Composite? && p[0] in Children(g[a]) && q == [a] + p
    ensures PlainPath(g, q) && |q| > 1 && q[0] == a && q[|q| - 1] == p[|p| - 1]
  {
    forall i | 0 <= i < |q| - 1 ensures q[i + 1] in Children(g[q[i]]) {
      if i > 0 { assert p[(i - 1) + 1] in Children(g[p[i - 1]]); }
    }
  }

  lemma PlainSetShrinks(g: Graph, a: Id, c: Id)
    requires CyclesPassComposites(g)
    requires a < |g| && !g[a].Composite? && c in Children(g[a])
    ensures PlainSet(g, c) < PlainSet(g, a)
  {
    assert PlainPath(g, [a]) && [a][0] == a;
    assert a in PlainSet(g, a);
    forall b | b in PlainSet(g, c) ensures b in PlainSet(g, a) && b != a {
      var p: seq<Id> :| PlainPath(g, p) && p[0] == c && p[|p| - 1] == b;
      PlainPrepend(g, a, p, [a] + p);
    }
  }

  lemma {:induction false} SubsetSize(s: set<Id>, n: nat)
    requires forall x :: x in s ==> x < n
    ensures |s| <= n
  {
    if n > 0 {
      SubsetSize(s - {n - 1}, n - 1);
    } else {
      assert s == {};
    }
  }

  lemma {:induction false} StrictSubsetSize(s: set<Id>, t: set<Id>)
    requires s < t
    ensures |s| < |t|
  {
    var x :| x in t && x !in s;
    if s != {} {
      var y :| y in s;
      StrictSubsetSize(s - {y}, t - {y});
    }
  }

  /** The walk's termination certificate exists for every graph whose cycles all pass
      through a struct or union. */
  lemma RankExists(g: Graph) returns (rank: seq<nat>)
    requires CyclesPassComposites(g)
    ensures Ranked(g, rank)
  {
    rank := seq(|g|, (i: int) requires 0 <= i < |g| => |PlainSet(g, i)|);
    forall i, c | 0 <= i < |g| && !g[i].Composite? && c in Children(g[i])
      ensures c < |g| && rank[c] < rank[i]
    {
      ChildInRange(g, i, c);
      PlainSetShrinks(g, i, c);
      StrictSubsetSize(PlainSet(g, c), PlainSet(g, i));
    }
    forall i | 0 <= i < |g| ensures LeadsDown(g[i], rank, rank[i]) {
      match g[i]
      case FuncProto(r, ps) =>
        assert r in Children(g[i]);
        assert forall j :: 0 <= j < |ps| ==> ps[j] in Children(g[i]);
      case Ptr(t) => assert t in Children(g[i]);
      case Array(t, _) => assert t in Children(g[i]);
      case Typedef(t, _) => assert t in Children(g[i]);
      case Mod(t) => assert t in Children(g[i]);
      case _ =>
    }
    forall i | 0 <= i < |g| ensures rank[i] <= |g| {
      SubsetSize(PlainSet(g, i), |g|);
    }
  }

  /** ... and for no other graph. */
  lemma {:induction false} RankedPathDescends(g: Graph, rank: seq<nat>, p: seq<Id>)
    requires Ranked(g, rank) && PlainPath(g, p) && |p| > 1
    ensures rank[p[|p| - 1]] < rank[p[0]]
  {
    assert p[0 + 1] in Children(g[p[0]]);
    if |p| > 2 {
      forall i | 0 <= i < |p| - 2 ensures p[1..][i + 1] in Children(g[p[1..][i]]) {
        assert p[(i + 1) + 1] in Children(g[p[i + 1]]);
      }
      RankedPathDescends(g, rank, p[1..]);
    }
  }

  lemma RankedMeansNoPlainCycle(g: Graph, rank: seq<nat>)
    requires Ranked(g, rank)
    ensures CyclesPassComposites(g)
  {
    forall p | PlainPath(g, p) && |p| > 1 ensures p[0] != p[|p| - 1] {
      RankedPathDescends(g, rank, p);
    }
  }
}
