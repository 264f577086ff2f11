/** The second pass of the dumper: printing definitions, with forward declarations put in
    where they are needed, and the C rule its output has to obey. */
module BtfEmit {
  import opened BtfGraph

  datatype Mark = NotEmitted | Emitting | Emitted

  /** The top-level declarations that get printed. */
  datatype Item =
    | StructFwd(id: Id)   // struct X;
    | StructDef(id: Id)   // struct X { ... };
    | EnumDef(id: Id)
    | FwdDef(id: Id)      // the declaration a BTF forward stands for
    | TypedefDef(id: Id)

  datatype Emission = Emission(marks: seq<Mark>, fwd: seq<bool>, out: seq<Item>)

  predicate Sized(g: Graph, e: Emission) {
    |e.marks| == |g| == |e.fwd|
  }

  function Put(e: Emission, item: Item): Emission {
    e.(out := e.out + [item])
  }

  function SetMark(e: Emission, id: Id, m: Mark): Emission
    requires id < |e.marks|
  {
    e.(marks := e.marks[id := m])
  }

  function PutFwd(e: Emission, id: Id): Emission
    requires id < |e.fwd|
  {
    Put(e, StructFwd(id)).(fwd := e.fwd[id := true])
  }

  /** The structs and unions that are not open: what bounds the depth of the walk. */
  ghost function Unopened(g: Graph, e: Emission): set<Id>
    requires Sized(g, e)
  {
    set i | 0 <= i < |g| && g[i].Composite? && e.marks[i].NotEmitted?
  }

  /** Prints a type. `cont` is the containing definition, 0 at top level. */
  ghost function Emit(g: Graph, rank: seq<nat>, e: Emission, id: Id, cont: Id): (e': Emission)
    requires Ranked(g, rank) && id < |g| && Sized(g, e)
    ensures Sized(g, e') && Unopened(g, e') <= Unopened(g, e)
    decreases Unopened(g, e), rank[id]
  {
    if e.marks[id].Emitted? then
      e
    else if e.marks[id].Emitting? then
      if e.fwd[id] then e
      else
        match g[id]
        case Composite(_, named, _) => if id == cont || !named then e else PutFwd(e, id)
        case Typedef(_, builtin) =>
          var e1 := if builtin then e else Put(e, TypedefDef(id));
          e1.(fwd := e.fwd[id := true])
        case _ => e
    else
      match g[id]
      case Int => SetMark(e, id, Emitted)
      case Enum(_) => SetMark(if cont == 0 then Put(e, EnumDef(id)) else e, id, Emitted)
      case Fwd(_) => SetMark(Put(e, FwdDef(id)), id, Emitted)
      case Ptr(t) => Emit(g, rank, e, t, cont)
      case Mod(t) => Emit(g, rank, e, t, cont)
      case Array(t, _) => Emit(g, rank, e, t, cont)
      case Typedef(t, builtin) =>
        var e1 := Emit(g, rank, SetMark(e, id, Emitting), t, id);
        SetMark(if !e1.fwd[id] && !builtin then Put(e1, TypedefDef(id)) else e1, id, Emitted)
      case Composite(_, named, ms) =>
        var e0 := SetMark(e, id, Emitting);
        assert id in Unopened(g, e) && id !in Unopened(g, e0);
        var e1 := if cont == 0 || !named then EmitEach(g, rank, e0, ms, if named then id else cont, |g| + 1)
                  else if !e.fwd[id] && id != cont then PutFwd(e0, id)
                  else e0;
        if cont == 0 then SetMark(Put(e1, StructDef(id)), id, Emitted)
        else SetMark(e1, id, NotEmitted)
      case FuncProto(r, ps) =>
        EmitEach(g, rank, Emit(g, rank, e, r, cont), ps, cont, rank[id])
      case _ => e
  }

  ghost function EmitEach(g: Graph, rank: seq<nat>, e: Emission, ids: seq<Id>, cont: Id, lim: nat): (e': Emission)
    requires Ranked(g, rank) && Sized(g, e)
    requires forall i :: 0 <= i < |ids| ==> ids[i] < |g| && rank[ids[i]] < lim
    ensures Sized(g, e') && Unopened(g, e') <= Unopened(g, e)
    decreases Unopened(g, e), lim, |ids|
  {
    if ids == [] then e
    else EmitEach(g, rank, Emit(g, rank, e, ids[0], cont), ids[1..], cont, lim)
  }

  // ----- Declared before use -----

  /** From a use of a type in a declaration to the uses that printing it brings along.
      The flag says whether an incomplete type would do: behind a pointer and in a
      prototype it does, as an array element it does not. Names are not looked behind. */
  ghost predicate UseStep(g: Graph, a: Node, b: Node) {
    && a.id < |g|
    && b.id in Children(g[a.id])
    && match g[a.id]
       case Ptr(_) => b.tp
       case FuncProto(_, _) => b.tp
       case Array(_, _) => !b.tp
       case Mod(_) => b.tp == a.tp
       case Composite(_, named, _) => !named && !b.tp
       case _ => false
  }

  ghost predicate UsePath(g: Graph, p: seq<Node>) {
    && |p| > 0
    && (forall i :: 0 <= i < |p| ==> p[i].id < |g|)
    && (forall i :: 0 <= i < |p| - 1 ==> UseStep(g, p[i], p[i + 1]))
  }

  /** An object of this type can be declared after `out`: whatever named struct or union
      determines its size is defined there. */
  ghost predicate Complete(g: Graph, rank: seq<nat>, out: seq<Item>, id: Id)
    requires Ranked(g, rank) && id < |g|
    decreases rank[id]
  {
    match g[id]
    case Array(t, _) => Complete(g, rank, out, t)
    case Mod(t) => Complete(g, rank, out, t)
    case Typedef(t, _) => Complete(g, rank, out, t)
    case Composite(_, named, _) => named ==> StructDef(id) in out
    case _ => true
  }

  /** The use `n`, inside the definition of `self` (0 if none), is covered by `out`. */
  ghost predicate Covered(g: Graph, rank: seq<nat>, out: seq<Item>, self: Id, n: Node)
    requires Ranked(g, rank) && n.id < |g|
  {
    match g[n.id]
    case Composite(_, named, _) =>
      named ==>
        || StructDef(n.id) in out
        || (n.tp && (StructFwd(n.id) in out || n.id == self))
    case Enum(named) => named ==> EnumDef(n.id) in out
    case Fwd(_) => FwdDef(n.id) in out
    case Typedef(_, builtin) =>
      (builtin || TypedefDef(n.id) in out) && (!n.tp ==> Complete(g, rank, out, n.id))
    case _ => true
  }

  ghost predicate UsesCovered(g: Graph, rank: seq<nat>, out: seq<Item>, self: Id, n: Node)
    requires Ranked(g, rank)
  {
    forall p :: UsePath(g, p) && p[0] == n ==> Covered(g, rank, out, self, p[|p| - 1])
  }

  /** A declaration printed after `out` names only what `out` has declared. */
  ghost predicate ItemOk(g: Graph, rank: seq<nat>, out: seq<Item>, item: Item)
    requires Ranked(g, rank)
  {
    && item.id < |g|
    && match item
       case StructFwd(x) => g[x].Composite? && g[x].named && StructDef(x) !in out
       case StructDef(x) =>
         && g[x].Composite? && g[x].named
         && forall i :: 0 <= i < |g[x].members| ==> UsesCovered(g, rank, out, x, Node(g[x].members[i], false))
       case EnumDef(x) => g[x].Enum?
       case FwdDef(x) => g[x].Fwd?
       case TypedefDef(x) => g[x].Typedef? && !g[x].builtin && UsesCovered(g, rank, out, 0, Node(g[x].target, true))
  }

  /** Every declaration in the output is preceded by all it needs, and none is repeated. */
  ghost predicate DeclaredBeforeUse(g: Graph, rank: seq<nat>, out: seq<Item>)
    requires Ranked(g, rank)
  {
    && (forall i :: 0 <= i < |out| ==> ItemOk(g, rank, out[..i], out[i]))
    && (forall i, j :: 0 <= i < j < |out| ==> out[i] != out[j])
  }

  lemma {:induction false} CompleteMonotone(g: Graph, rank: seq<nat>, out: seq<Item>, out': seq<Item>, id: Id)
    requires Ranked(g, rank) && id < |g| && out <= out' && Complete(g, rank, out, id)
    ensures Complete(g, rank, out', id)
    decreases rank[id]
  {
    match g[id]
    case Array(t, _) => CompleteMonotone(g, rank, out, out', t);
    case Mod(t) => CompleteMonotone(g, rank, out, out', t);
    case Typedef(t, _) => CompleteMonotone(g, rank, out, out', t);
    case _ =>
  }

  lemma CoveredMonotone(g: Graph, rank: seq<nat>, out: seq<Item>, out': seq<Item>, self: Id, n: Node)
    requires Ranked(g, rank) && n.id < |g| && out <= out' && Covered(g, rank, out, self, n)
    ensures Covered(g, rank, out', self, n)
  {
    if g[n.id].Typedef? && !n.tp { CompleteMonotone(g, rank, out, out', n.id); }
  }

  lemma UsesMonotone(g: Graph, rank: seq<nat>, out: seq<Item>, out': seq<Item>, self: Id, n: Node)
    requires Ranked(g, rank) && out <= out' && UsesCovered(g, rank, out, self, n)
    ensures UsesCovered(g, rank, out', self, n)
  {
    forall p | UsePath(g, p) && p[0] == n ensures Covered(g, rank, out', self, p[|p| - 1]) {
      CoveredMonotone(g, rank, out, out', self, p[|p| - 1]);
    }
  }

  /** A use is covered with all it brings along if it and every next use are. */
  lemma UsesFromSteps(g: Graph, rank: seq<nat>, out: seq<Item>, self: Id, n: Node)
    requires Ranked(g, rank) && n.id < |g| && Covered(g, rank, out, self, n)
    requires forall m :: UseStep(g, n, m) ==> UsesCovered(g, rank, out, self, m)
    ensures UsesCovered(g, rank, out, self, n)
  {
    forall p | UsePath(g, p) && p[0] == n ensures Covered(g, rank, out, self, p[|p| - 1]) {
      if |p| > 1 {
        var q := p[1..];
        assert UseStep(g, p[0], p[0 + 1]);
        forall i | 0 <= i < |q| - 1 ensures UseStep(g, q[i], q[i + 1]) {
          assert UseStep(g, p[i + 1], p[(i + 1) + 1]);
        }
        assert UsePath(g, q) && q[0] == p[1] && q[|q| - 1] == p[|p| - 1];
      }
    }
  }
}
