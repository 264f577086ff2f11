/** Printing in the order computed by the first pass declares everything before its use. */
module BtfEmitProof {
  import opened BtfGraph
  import opened BtfEmit

  /** The per-type state and the output tell the same story about type `i`. */
  ghost predicate InStep(g: Graph, e: Emission, i: Id)
    requires i < |g| && Sized(g, e)
  {
    match g[i]
    case Composite(_, named, _) =>
      && (e.marks[i].Emitted? <==> StructDef(i) in e.out)
      && (e.fwd[i] <==> StructFwd(i) in e.out)
      && (e.marks[i].Emitted? ==> named)
    case Typedef(_, builtin) =>
      && !e.fwd[i]
      && (TypedefDef(i) in e.out <==> e.marks[i].Emitted? && !builtin)
    case Enum(_) =>
      && (EnumDef(i) in e.out ==> e.marks[i].Emitted? && Queueable(g, i))
      && (e.marks[i].Emitted? && Queueable(g, i) ==> EnumDef(i) in e.out)
    case Fwd(_) => FwdDef(i) in e.out <==> e.marks[i].Emitted?
    case Ptr(_) => e.marks[i].NotEmitted?
    case Array(_, _) => e.marks[i].NotEmitted?
    case Mod(_) => e.marks[i].NotEmitted?
    case FuncProto(_, _) => e.marks[i].NotEmitted?
    case _ => true
  }

  ghost predicate EmitInv(g: Graph, rank: seq<nat>, e: Emission)
    requires Ranked(g, rank)
  {
    && Sized(g, e)
    && e.marks[0].Emitted?
    && (forall i :: 0 <= i < |g| ==> InStep(g, e, i))
    && (forall i :: 0 <= i < |g| && e.marks[i].Emitting? ==> g[i].Composite? || g[i].Typedef?)
    && DeclaredBeforeUse(g, rank, e.out)
  }

  /** The output only grows, what was printed stays printed, what was open stays open. */
  ghost predicate Grows(e: Emission, e': Emission) {
    && |e.marks| == |e'.marks|
    && e.out <= e'.out
    && (forall i :: 0 <= i < |e.marks| ==> (e.marks[i].Emitting? <==> e'.marks[i].Emitting?))
    && (forall i :: 0 <= i < |e.marks| && e.marks[i].Emitted? ==> e'.marks[i].Emitted?)
  }

  /** Everything in F that has a definition of its own has been printed. */
  ghost predicate AllOut(g: Graph, e: Emission, F: set<Id>)
    requires Sized(g, e)
  {
    forall x :: x in F && x < |g| && Queueable(g, x) ==> e.marks[x].Emitted?
  }

  /** The walk stands inside a definition, at a type that needs only the first `k`
      finished types, all of which are printed; nothing open is among them. */
  ghost predicate Inside(g: Graph, rank: seq<nat>, fin: seq<Id>, k: nat, e: Emission, id: Id, tp: bool)
    requires Ranked(g, rank) && Sized(g, e) && id < |g| && k <= |fin|
  {
    && Done(g, rank, Elems(fin[..k]), id, tp)
    && AllOut(g, e, Elems(fin[..k]))
    && (forall i :: 0 <= i < |g| && e.marks[i].Emitting? ==> i !in fin[..k])
    && (forall i :: 0 <= i < |g| && e.marks[i].Emitting? && g[i].Typedef? && WeakOnly(g, rank, i, true) ==>
          WeakOnly(g, rank, id, tp) && rank[i] > rank[id])
  }

  ghost predicate AllInside(g: Graph, rank: seq<nat>, fin: seq<Id>, k: nat, e: Emission, ids: seq<Id>, tp: bool)
    requires Ranked(g, rank) && Sized(g, e) && k <= |fin|
    requires forall i :: 0 <= i < |ids| ==> ids[i] < |g|
  {
    forall i :: 0 <= i < |ids| ==> Inside(g, rank, fin, k, e, ids[i], tp)
  }

  lemma PutDeclared(g: Graph, rank: seq<nat>, out: seq<Item>, item: Item)
    requires Ranked(g, rank) && DeclaredBeforeUse(g, rank, out)
    requires ItemOk(g, rank, out, item) && item !in out
    ensures DeclaredBeforeUse(g, rank, out + [item])
  {
    var out' := out + [item];
    forall i | 0 <= i < |out'| ensures ItemOk(g, rank, out'[..i], out'[i]) {
      assert out'[..i] == out[..i];
      if i == |out| { assert out[..i] == out; }
    }
  }

  /** Printing an item about `id` and changing only its state leaves all others in step. */
  lemma OthersInStep(g: Graph, e: Emission, e': Emission, id: Id)
    requires Sized(g, e) && Sized(g, e') && id < |g|
    requires forall i :: 0 <= i < |g| ==> InStep(g, e, i)
    requires forall i :: 0 <= i < |g| && i != id ==> e'.marks[i] == e.marks[i] && e'.fwd[i] == e.fwd[i]
    requires forall it: Item :: it.id != id ==> (it in e.out <==> it in e'.out)
    ensures forall i :: 0 <= i < |g| && i != id ==> InStep(g, e', i)
  {
    forall i | 0 <= i < |g| && i != id ensures InStep(g, e', i) {
      assert InStep(g, e, i);
    }
  }

  lemma PrefixMono(g: Graph, fin: seq<Id>, j: nat, k: nat)
    requires j <= k <= |fin|
    ensures Elems(fin[..j]) <= Elems(fin[..k])
  {
    forall x | x in fin[..j] ensures x in fin[..k] {
      var i :| 0 <= i < j && fin[..j][i] == x;
      assert fin[..k][i] == x;
    }
  }

  /** Embedding a type is fine once all it needs is printed. */
  lemma {:induction false} DoneIsComplete(g: Graph, rank: seq<nat>, fin: seq<Id>, k: nat, e: Emission, id: Id)
    requires Ranked(g, rank) && Topological(g, rank, fin) && k <= |fin| && id < |g|
    requires EmitInv(g, rank, e) && AllOut(g, e, Elems(fin[..k]))
    requires IsFn(g, rank, id) || Done(g, rank, Elems(fin[..k]), id, false)
    ensures Complete(g, rank, e.out, id)
    decreases rank[id]
  {
    match g[id]
    case Array(t, _) => DoneIsComplete(g, rank, fin, k, e, t);
    case Mod(t) => DoneIsComplete(g, rank, fin, k, e, t);
    case Typedef(t, _) =>
      if !IsFn(g, rank, id) { FinishedIsReady(g, rank, fin, k, id); }
      DoneIsComplete(g, rank, fin, k, e, t);
    case Composite(_, named, _) => if named { assert InStep(g, e, id); }
    case _ =>
  }

  // ----- One case of the walk at a time -----

  /** Nothing is printed for a type that is already out, or that has no definition. */
  lemma StayCase(g: Graph, rank: seq<nat>, fin: seq<Id>, k: nat, e: Emission, id: Id, cont: Id, tp: bool)
    requires Ranked(g, rank) && Topological(g, rank, fin) && k <= |fin| && id < |g|
    requires EmitInv(g, rank, e) && Inside(g, rank, fin, k, e, id, tp)
    requires e.marks[id].Emitted? || g[id].Int? || g[id].Float? || g[id].Other? || g[id].Void?
             || (g[id].Enum? && !g[id].named)
    ensures UsesCovered(g, rank, e.out, cont, Node(id, tp))
  {
    assert InStep(g, e, id);
    if g[id].Typedef? && !tp { DoneIsComplete(g, rank, fin, k, e, id); }
    assert Covered(g, rank, e.out, cont, Node(id, tp));
    forall m | UseStep(g, Node(id, tp), m) ensures false { }
    UsesFromSteps(g, rank, e.out, cont, Node(id, tp));
  }

  /** Behind a pointer, a named struct is declared unless that has been done. */
  lemma NamedEmits(g: Graph, rank: seq<nat>, e: Emission, id: Id, cont: Id, e': Emission)
    requires Ranked(g, rank) && 0 < id < |g| && cont != 0 && Sized(g, e)
    requires g[id].Composite? && g[id].named && !e.marks[id].Emitted?
    requires e' == Emit(g, rank, e, id, cont)
    ensures e' == if e.fwd[id] || id == cont then e else PutFwd(e, id)
  {
    assert e.marks[id := Emitting][id := NotEmitted] == e.marks[id := NotEmitted];
    assert e.marks[id].NotEmitted? ==> e.marks[id := NotEmitted] == e.marks;
  }

  lemma FwdPut(g: Graph, rank: seq<nat>, e: Emission, id: Id, e': Emission)
    requires Ranked(g, rank) && 0 < id < |g| && EmitInv(g, rank, e) && e' == PutFwd(e, id)
    requires g[id].Composite? && g[id].named && !e.marks[id].Emitted? && !e.fwd[id]
    ensures EmitInv(g, rank, e') && Grows(e, e') && StructFwd(id) in e'.out
  {
    assert InStep(g, e, id);
    PutDeclared(g, rank, e.out, StructFwd(id));
    assert e'.out[|e.out|] == StructFwd(id);
    OthersInStep(g, e, e', id);
  }

  /** A named struct inside a definition: a forward declaration, unless it is there already
      or the struct is the one being defined. */
  lemma NamedCase(g: Graph, rank: seq<nat>, fin: seq<Id>, k: nat, e: Emission, id: Id, cont: Id, tp: bool, e': Emission)
    requires Ranked(g, rank) && k <= |fin| && 0 < id < |g| && cont != 0
    requires EmitInv(g, rank, e) && Inside(g, rank, fin, k, e, id, tp)
    requires g[id].Composite? && g[id].named && !e.marks[id].Emitted?
    requires e' == Emit(g, rank, e, id, cont)
    ensures EmitInv(g, rank, e') && Grows(e, e') && UsesCovered(g, rank, e'.out, cont, Node(id, tp))
  {
    assert InStep(g, e, id);
    assert tp;
    NamedEmits(g, rank, e, id, cont, e');
    if !(e.fwd[id] || id == cont) { FwdPut(g, rank, e, id, e'); }
    assert Covered(g, rank, e'.out, cont, Node(id, tp));
    forall m | UseStep(g, Node(id, tp), m) ensures false { }
    UsesFromSteps(g, rank, e'.out, cont, Node(id, tp));
  }

  /** A BTF forward with no name of its own is printed where it is met. */
  lemma FwdCase(g: Graph, rank: seq<nat>, fin: seq<Id>, k: nat, e: Emission, id: Id, cont: Id, tp: bool, e': Emission)
    requires Ranked(g, rank) && k <= |fin| && id < |g| && cont != 0
    requires EmitInv(g, rank, e) && Inside(g, rank, fin, k, e, id, tp)
    requires g[id].Fwd? && e.marks[id].NotEmitted?
    requires e' == Emit(g, rank, e, id, cont)
    ensures EmitInv(g, rank, e') && Grows(e, e') && UsesCovered(g, rank, e'.out, cont, Node(id, tp))
  {
    FwdPrinted(g, rank, e, id);
    forall m | UseStep(g, Node(id, tp), m) ensures false { }
    UsesFromSteps(g, rank, e'.out, cont, Node(id, tp));
  }

  lemma FwdPrinted(g: Graph, rank: seq<nat>, e: Emission, id: Id)
    requires Ranked(g, rank) && id < |g| && EmitInv(g, rank, e)
    requires g[id].Fwd? && e.marks[id].NotEmitted?
    ensures var e' := SetMark(Put(e, FwdDef(id)), id, Emitted);
            EmitInv(g, rank, e') && Grows(e, e') && FwdDef(id) in e'.out
  {
    var e' := SetMark(Put(e, FwdDef(id)), id, Emitted);
    assert InStep(g, e, id);
    PutDeclared(g, rank, e.out, FwdDef(id));
    assert e'.out[|e.out|] == FwdDef(id);
    OthersInStep(g, e, e', id);
  }

  lemma EnumPassed(g: Graph, rank: seq<nat>, e: Emission, id: Id)
    requires Ranked(g, rank) && id < |g| && EmitInv(g, rank, e) && g[id].Enum? && e.marks[id].NotEmitted?
    requires !Queueable(g, id)
    ensures EmitInv(g, rank, SetMark(e, id, Emitted)) && Grows(e, SetMark(e, id, Emitted))
  {
    assert InStep(g, e, id);
    OthersInStep(g, e, SetMark(e, id, Emitted), id);
  }

  /** An anonymous enum met inside a definition is printed in line there. */
  lemma EnumCase(g: Graph, rank: seq<nat>, fin: seq<Id>, k: nat, e: Emission, id: Id, cont: Id, tp: bool, e': Emission)
    requires Ranked(g, rank) && Topological(g, rank, fin) && k <= |fin| && id < |g| && cont != 0
    requires EmitInv(g, rank, e) && Inside(g, rank, fin, k, e, id, tp)
    requires g[id].Enum? && e.marks[id].NotEmitted?
    requires e' == Emit(g, rank, e, id, cont)
    ensures EmitInv(g, rank, e') && Grows(e, e') && UsesCovered(g, rank, e'.out, cont, Node(id, tp))
  {
    assert !Queueable(g, id);
    EnumPassed(g, rank, e, id);
    forall m | UseStep(g, Node(id, tp), m) ensures false { }
    UsesFromSteps(g, rank, e'.out, cont, Node(id, tp));
  }

  lemma InsideGrows(g: Graph, rank: seq<nat>, fin: seq<Id>, k: nat, e: Emission, e': Emission, id: Id, tp: bool)
    requires Ranked(g, rank) && Sized(g, e) && Sized(g, e') && id < |g| && k <= |fin|
    requires Inside(g, rank, fin, k, e, id, tp) && Grows(e, e')
    ensures Inside(g, rank, fin, k, e', id, tp)
  {
  }

  /** The next type below a pointer, array or modifier. */
  lemma InsideStep(g: Graph, rank: seq<nat>, fin: seq<Id>, k: nat, e: Emission, id: Id, tp: bool, t: Id, tp': bool)
    requires Ranked(g, rank) && Topological(g, rank, fin) && Sized(g, e) && id < |g| && k <= |fin|
    requires Inside(g, rank, fin, k, e, id, tp)
    requires UseStep(g, Node(id, tp), Node(t, tp')) && !g[id].Composite?
    ensures t < |g| && rank[t] < rank[id] && Inside(g, rank, fin, k, e, t, tp')
  {
    var F := Elems(fin[..k]);
    match g[id]
    case Ptr(_) => FinishedIsReady(g, rank, fin, k, id);
    case FuncProto(r, ps) =>
      assert t == r || t in ps;
      if !tp {
        DoneThroughPtr(g, rank, F, t);
        if WeakOnly(g, rank, t, false) { WeakOnlyThroughPtr(g, rank, t); }
      }
    case _ =>
  }

  /** Inside a definition the walk keeps the output well declared and covers the type. */
  lemma {:induction false} EmitSound(
    g: Graph, rank: seq<nat>, fin: seq<Id>, k: nat, e: Emission, id: Id, cont: Id, tp: bool, e': Emission)
    requires Ranked(g, rank) && Topological(g, rank, fin) && CompositesOnce(g, fin)
    requires k <= |fin| && id < |g| && cont != 0
    requires EmitInv(g, rank, e) && Inside(g, rank, fin, k, e, id, tp)
    requires e' == Emit(g, rank, e, id, cont)
    ensures EmitInv(g, rank, e') && Grows(e, e') && UsesCovered(g, rank, e'.out, cont, Node(id, tp))
    decreases Unopened(g, e), rank[id]
  {
    if e.marks[id].Emitted? {
      StayCase(g, rank, fin, k, e, id, cont, tp);
    } else {
      match g[id]
      case Ptr(t) => EmitBelow(g, rank, fin, k, e, id, cont, tp, t, true, e');
      case Array(t, _) => EmitBelow(g, rank, fin, k, e, id, cont, tp, t, false, e');
      case Mod(t) => EmitBelow(g, rank, fin, k, e, id, cont, tp, t, tp, e');
      case FuncProto(_, _) => EmitProto(g, rank, fin, k, e, id, cont, tp, e');
      case Typedef(t, _) => EmitWeakTypedef(g, rank, fin, k, e, id, cont, tp, e');
      case Composite(_, named, _) =>
        if named {
          NamedCase(g, rank, fin, k, e, id, cont, tp, e');
        } else {
          EmitAnonymous(g, rank, fin, k, e, id, cont, tp, e');
        }
      case Fwd(_) => FwdCase(g, rank, fin, k, e, id, cont, tp, e');
      case Enum(_) => EnumCase(g, rank, fin, k, e, id, cont, tp, e');
      case Int => IntCase(g, rank, fin, k, e, id, cont, tp, e');
      case _ => StayCase(g, rank, fin, k, e, id, cont, tp);
    }
  }

  lemma IntCase(g: Graph, rank: seq<nat>, fin: seq<Id>, k: nat, e: Emission, id: Id, cont: Id, tp: bool, e': Emission)
    requires Ranked(g, rank) && Topological(g, rank, fin) && k <= |fin| && id < |g|
    requires EmitInv(g, rank, e) && Inside(g, rank, fin, k, e, id, tp) && g[id].Int? && e.marks[id].NotEmitted?
    requires e' == Emit(g, rank, e, id, cont)
    ensures EmitInv(g, rank, e') && Grows(e, e') && UsesCovered(g, rank, e'.out, cont, Node(id, tp))
  {
    OthersInStep(g, e, e', id);
    StayCase(g, rank, fin, k, e, id, cont, tp);
  }

  lemma {:induction false} EmitBelow(
    g: Graph, rank: seq<nat>, fin: seq<Id>, k: nat, e: Emission, id: Id, cont: Id, tp: bool,
    t: Id, tp': bool, e': Emission)
    requires Ranked(g, rank) && Topological(g, rank, fin) && CompositesOnce(g, fin)
    requires k <= |fin| && id < |g| && cont != 0
    requires EmitInv(g, rank, e) && Inside(g, rank, fin, k, e, id, tp)
    requires (g[id] == Ptr(t) && tp') || (g[id].Array? && g[id].elem == t && !tp') || (g[id] == Mod(t) && tp' == tp)
    requires e' == Emit(g, rank, e, t, cont)
    ensures EmitInv(g, rank, e') && Grows(e, e') && UsesCovered(g, rank, e'.out, cont, Node(id, tp))
    decreases Unopened(g, e), rank[id], 0
  {
    InsideStep(g, rank, fin, k, e, id, tp, t, tp');
    EmitSound(g, rank, fin, k, e, t, cont, tp', e');
    forall m | UseStep(g, Node(id, tp), m) ensures m == Node(t, tp') { }
    UsesFromSteps(g, rank, e'.out, cont, Node(id, tp));
  }

  lemma {:induction false} EmitProto(
    g: Graph, rank: seq<nat>, fin: seq<Id>, k: nat, e: Emission, id: Id, cont: Id, tp: bool, e': Emission)
    requires Ranked(g, rank) && Topological(g, rank, fin) && CompositesOnce(g, fin)
    requires k <= |fin| && id < |g| && cont != 0
    requires EmitInv(g, rank, e) && Inside(g, rank, fin, k, e, id, tp)
    requires g[id].FuncProto?
    requires e' == EmitEach(g, rank, Emit(g, rank, e, g[id].ret, cont), g[id].params, cont, rank[id])
    ensures EmitInv(g, rank, e') && Grows(e, e') && UsesCovered(g, rank, e'.out, cont, Node(id, tp))
    decreases Unopened(g, e), rank[id], |g[id].params| + 1
  {
    var r, ps := g[id].ret, g[id].params;
    InsideStep(g, rank, fin, k, e, id, tp, r, true);
    var e1 := Emit(g, rank, e, r, cont);
    EmitSound(g, rank, fin, k, e, r, cont, true, e1);
    ParamsInside(g, rank, fin, k, e, e1, id, tp);
    EmitEachSound(g, rank, fin, k, e1, ps, cont, true, rank[id], e');
    UsesMonotone(g, rank, e1.out, e'.out, cont, Node(r, true));
    ProtoUses(g, rank, e'.out, cont, id, tp);
  }

  lemma ParamsInside(
    g: Graph, rank: seq<nat>, fin: seq<Id>, k: nat, e: Emission, e1: Emission, id: Id, tp: bool)
    requires Ranked(g, rank) && Topological(g, rank, fin) && Sized(g, e) && Sized(g, e1) && id < |g| && k <= |fin|
    requires Inside(g, rank, fin, k, e, id, tp) && g[id].FuncProto? && Grows(e, e1)
    ensures AllInside(g, rank, fin, k, e1, g[id].params, true)
  {
    var ps := g[id].params;
    forall i | 0 <= i < |ps| ensures Inside(g, rank, fin, k, e1, ps[i], true) {
      InsideStep(g, rank, fin, k, e, id, tp, ps[i], true);
      InsideGrows(g, rank, fin, k, e, e1, ps[i], true);
    }
  }

  ghost predicate AllUsesCovered(g: Graph, rank: seq<nat>, out: seq<Item>, self: Id, ids: seq<Id>, tp: bool)
    requires Ranked(g, rank)
  {
    forall i :: 0 <= i < |ids| ==> UsesCovered(g, rank, out, self, Node(ids[i], tp))
  }

  lemma ProtoUses(g: Graph, rank: seq<nat>, out: seq<Item>, self: Id, id: Id, tp: bool)
    requires Ranked(g, rank) && id < |g| && g[id].FuncProto?
    requires UsesCovered(g, rank, out, self, Node(g[id].ret, true))
    requires AllUsesCovered(g, rank, out, self, g[id].params, true)
    ensures UsesCovered(g, rank, out, self, Node(id, tp))
  {
    var r, ps := g[id].ret, g[id].params;
    forall m | UseStep(g, Node(id, tp), m) ensures UsesCovered(g, rank, out, self, m) {
      if m.id != r {
        var i :| 0 <= i < |ps| && ps[i] == m.id;
        assert UsesCovered(g, rank, out, self, Node(ps[i], true));
      }
    }
    UsesFromSteps(g, rank, out, self, Node(id, tp));
  }

  lemma {:induction false} EmitEachSound(
    g: Graph, rank: seq<nat>, fin: seq<Id>, k: nat, e: Emission, ids: seq<Id>, cont: Id, tp: bool, lim: nat,
    e': Emission)
    requires Ranked(g, rank) && Topological(g, rank, fin) && CompositesOnce(g, fin)
    requires k <= |fin| && cont != 0 && EmitInv(g, rank, e)
    requires forall i :: 0 <= i < |ids| ==> ids[i] < |g| && rank[ids[i]] < lim
    requires AllInside(g, rank, fin, k, e, ids, tp)
    requires e' == EmitEach(g, rank, e, ids, cont, lim)
    ensures EmitInv(g, rank, e') && Grows(e, e') && AllUsesCovered(g, rank, e'.out, cont, ids, tp)
    decreases Unopened(g, e), lim, |ids|
  {
    if ids != [] {
      var e1 := Emit(g, rank, e, ids[0], cont);
      assert Inside(g, rank, fin, k, e, ids[0], tp);
      EmitSound(g, rank, fin, k, e, ids[0], cont, tp, e1);
      RestInside(g, rank, fin, k, e, e1, ids, tp);
      EmitEachSound(g, rank, fin, k, e1, ids[1..], cont, tp, lim, e');
      UsesMonotone(g, rank, e1.out, e'.out, cont, Node(ids[0], tp));
      AllUsesCons(g, rank, e'.out, cont, ids, tp);
    }
  }

  lemma RestInside(
    g: Graph, rank: seq<nat>, fin: seq<Id>, k: nat, e: Emission, e1: Emission, ids: seq<Id>, tp: bool)
    requires Ranked(g, rank) && Sized(g, e) && Sized(g, e1) && k <= |fin| && ids != []
    requires forall i :: 0 <= i < |ids| ==> ids[i] < |g|
    requires AllInside(g, rank, fin, k, e, ids, tp) && Grows(e, e1)
    ensures AllInside(g, rank, fin, k, e1, ids[1..], tp)
  {
    forall i | 0 <= i < |ids[1..]| ensures Inside(g, rank, fin, k, e1, ids[1..][i], tp) {
      InsideGrows(g, rank, fin, k, e, e1, ids[i + 1], tp);
    }
  }

  lemma AllUsesCons(g: Graph, rank: seq<nat>, out: seq<Item>, self: Id, ids: seq<Id>, tp: bool)
    requires Ranked(g, rank) && ids != []
    requires UsesCovered(g, rank, out, self, Node(ids[0], tp)) && AllUsesCovered(g, rank, out, self, ids[1..], tp)
    ensures AllUsesCovered(g, rank, out, self, ids, tp)
  {
    forall i | 0 <= i < |ids| ensures UsesCovered(g, rank, out, self, Node(ids[i], tp)) {
      if i > 0 { assert ids[1..][i - 1] == ids[i]; }
    }
  }

  /** Opening a type changes nothing else. */
  lemma OpenKeeps(g: Graph, rank: seq<nat>, e: Emission, id: Id)
    requires Ranked(g, rank) && EmitInv(g, rank, e) && id < |g| && e.marks[id].NotEmitted?
    requires g[id].Composite? || g[id].Typedef?
    ensures EmitInv(g, rank, SetMark(e, id, Emitting))
    ensures g[id].Typedef? ==> Unopened(g, SetMark(e, id, Emitting)) == Unopened(g, e)
    ensures g[id].Composite? ==> Unopened(g, SetMark(e, id, Emitting)) < Unopened(g, e)
  {
    var e0 := SetMark(e, id, Emitting);
    assert InStep(g, e, id);
    OthersInStep(g, e, e0, id);
    if g[id].Composite? {
      assert id in Unopened(g, e) && id !in Unopened(g, e0);
    }
  }

  lemma SelfIrrelevant(g: Graph, rank: seq<nat>, out: seq<Item>, self: Id, n: Node)
    requires Ranked(g, rank) && self < |g| && !g[self].Composite?
    requires UsesCovered(g, rank, out, self, n)
    ensures UsesCovered(g, rank, out, 0, n)
  {
    forall p | UsePath(g, p) && p[0] == n ensures Covered(g, rank, out, 0, p[|p| - 1]) {
      assert Covered(g, rank, out, self, p[|p| - 1]);
    }
  }

  /** Closing the type `id`, opened in `e` and still open in `e1`: print `items` and mark it. */
  lemma CloseGrows(g: Graph, e: Emission, e1: Emission, e': Emission, id: Id, m: Mark)
    requires Sized(g, e) && Sized(g, e1) && id < |g| && e.marks[id].NotEmitted? && !m.Emitting?
    requires Grows(SetMark(e, id, Emitting), e1)
    requires e'.marks == e1.marks[id := m] && e1.out <= e'.out
    ensures Grows(e, e')
  {
    var e0 := SetMark(e, id, Emitting);
    forall i | 0 <= i < |e.marks|
      ensures e.marks[i].Emitting? <==> e'.marks[i].Emitting?
      ensures e.marks[i].Emitted? ==> e'.marks[i].Emitted?
    {
      assert e0.marks[i].Emitting? <==> e1.marks[i].Emitting?;
    }
  }

  lemma TypedefClosed(g: Graph, rank: seq<nat>, e1: Emission, id: Id)
    requires Ranked(g, rank) && EmitInv(g, rank, e1) && 0 < id < |g| && g[id].Typedef? && e1.marks[id].Emitting?
    requires UsesCovered(g, rank, e1.out, 0, Node(g[id].target, true))
    ensures EmitInv(g, rank, SetMark(if !g[id].builtin then Put(e1, TypedefDef(id)) else e1, id, Emitted))
  {
    assert InStep(g, e1, id);
    if g[id].builtin {
      OthersInStep(g, e1, SetMark(e1, id, Emitted), id);
    } else {
      TypedefPut(g, rank, e1, id);
    }
  }

  lemma TypedefPut(g: Graph, rank: seq<nat>, e1: Emission, id: Id)
    requires Ranked(g, rank) && EmitInv(g, rank, e1) && 0 < id < |g| && g[id].Typedef? && e1.marks[id].Emitting?
    requires UsesCovered(g, rank, e1.out, 0, Node(g[id].target, true)) && !g[id].builtin
    ensures EmitInv(g, rank, SetMark(Put(e1, TypedefDef(id)), id, Emitted))
  {
    var e' := SetMark(Put(e1, TypedefDef(id)), id, Emitted);
    assert InStep(g, e1, id);
    PutDeclared(g, rank, e1.out, TypedefDef(id));
    assert e'.out[|e1.out|] == TypedefDef(id);
    OthersInStep(g, e1, e', id);
  }

  lemma StructClosed(g: Graph, rank: seq<nat>, e1: Emission, id: Id)
    requires Ranked(g, rank) && EmitInv(g, rank, e1) && 0 < id < |g| && g[id].Composite? && g[id].named
    requires e1.marks[id].Emitting?
    requires AllUsesCovered(g, rank, e1.out, id, g[id].members, false)
    ensures EmitInv(g, rank, SetMark(Put(e1, StructDef(id)), id, Emitted))
  {
    var e' := SetMark(Put(e1, StructDef(id)), id, Emitted);
    assert InStep(g, e1, id);
    PutDeclared(g, rank, e1.out, StructDef(id));
    assert e'.out[|e1.out|] == StructDef(id);
    OthersInStep(g, e1, e', id);
  }

  lemma AnonymousClosed(g: Graph, rank: seq<nat>, e1: Emission, id: Id)
    requires Ranked(g, rank) && EmitInv(g, rank, e1) && 0 < id < |g| && g[id].Composite? && e1.marks[id].Emitting?
    ensures EmitInv(g, rank, SetMark(e1, id, NotEmitted))
  {
    assert InStep(g, e1, id);
    OthersInStep(g, e1, SetMark(e1, id, NotEmitted), id);
  }

  /** A typedef is printed after what its target brings along. */
  lemma {:induction false} TypedefPrinted(
    g: Graph, rank: seq<nat>, fin: seq<Id>, k: nat, e: Emission, id: Id, e1: Emission)
    requires Ranked(g, rank) && Topological(g, rank, fin) && CompositesOnce(g, fin)
    requires k <= |fin| && 0 < id < |g|
    requires EmitInv(g, rank, e) && g[id].Typedef? && e.marks[id].NotEmitted?
    requires Inside(g, rank, fin, k, SetMark(e, id, Emitting), g[id].target, true)
    requires e1 == Emit(g, rank, SetMark(e, id, Emitting), g[id].target, id)
    ensures !e1.fwd[id]
    ensures var e' := SetMark(if !g[id].builtin then Put(e1, TypedefDef(id)) else e1, id, Emitted);
            EmitInv(g, rank, e') && Grows(e, e')
    decreases Unopened(g, e), rank[id], 0
  {
    var t := g[id].target;
    OpenKeeps(g, rank, e, id);
    EmitSound(g, rank, fin, k, SetMark(e, id, Emitting), t, id, true, e1);
    assert InStep(g, e1, id);
    SelfIrrelevant(g, rank, e1.out, id, Node(t, true));
    TypedefClosed(g, rank, e1, id);
    CloseGrows(g, e, e1, SetMark(if !g[id].builtin then Put(e1, TypedefDef(id)) else e1, id, Emitted), id, Emitted);
  }

  /** A typedef that the first pass left to be printed on demand, behind a pointer. */
  lemma {:induction false} EmitWeakTypedef(
    g: Graph, rank: seq<nat>, fin: seq<Id>, k: nat, e: Emission, id: Id, cont: Id, tp: bool, e': Emission)
    requires Ranked(g, rank) && Topological(g, rank, fin) && CompositesOnce(g, fin)
    requires k <= |fin| && 0 < id < |g| && cont != 0
    requires EmitInv(g, rank, e) && Inside(g, rank, fin, k, e, id, tp)
    requires g[id].Typedef? && !e.marks[id].Emitted?
    requires e' == Emit(g, rank, e, id, cont)
    ensures EmitInv(g, rank, e') && Grows(e, e') && UsesCovered(g, rank, e'.out, cont, Node(id, tp))
    decreases Unopened(g, e), rank[id], 1
  {
    WeakTypedefInside(g, rank, fin, k, e, id, tp);
    TypedefPrinted(g, rank, fin, k, e, id, Emit(g, rank, SetMark(e, id, Emitting), g[id].target, id));
    assert InStep(g, e', id);
    forall m | UseStep(g, Node(id, tp), m) ensures false { }
    UsesFromSteps(g, rank, e'.out, cont, Node(id, tp));
  }

  /** A typedef that is not printed yet is not open either, and its target is weak. */
  lemma WeakTypedefInside(g: Graph, rank: seq<nat>, fin: seq<Id>, k: nat, e: Emission, id: Id, tp: bool)
    requires Ranked(g, rank) && k <= |fin| && id < |g| && Sized(g, e)
    requires Inside(g, rank, fin, k, e, id, tp)
    requires g[id].Typedef? && !e.marks[id].Emitted?
    ensures tp && e.marks[id].NotEmitted?
    ensures Inside(g, rank, fin, k, SetMark(e, id, Emitting), g[id].target, true)
  {
    assert id !in Elems(fin[..k]);
    assert tp && WeakOnly(g, rank, g[id].target, true);
    assert e.marks[id].NotEmitted?;
  }

  /** Opening the struct finished at position `j` leaves its members inside position `j`. */
  lemma MembersInside(g: Graph, rank: seq<nat>, fin: seq<Id>, j: nat, e: Emission)
    requires Ranked(g, rank) && Topological(g, rank, fin) && CompositesOnce(g, fin)
    requires j < |fin| && Sized(g, e) && g[fin[j]].Composite?
    requires AllOut(g, e, Elems(fin[..j]))
    requires forall i :: 0 <= i < |g| && e.marks[i].Emitting? ==> i !in fin[..j]
    requires forall i :: 0 <= i < |g| && e.marks[i].Emitting? && g[i].Typedef? ==> !WeakOnly(g, rank, i, true)
    ensures var ms := g[fin[j]].members;
            AllInside(g, rank, fin, j, SetMark(e, fin[j], Emitting), ms, false)
  {
    assert Ready(g, rank, Elems(fin[..j]), fin[j]);
    assert fin[j] !in fin[..j];
  }

  /** Opening a struct and walking its members covers every one of them. */
  lemma {:induction false} MembersSound(
    g: Graph, rank: seq<nat>, fin: seq<Id>, j: nat, e: Emission, cont: Id, e1: Emission)
    requires Ranked(g, rank) && Topological(g, rank, fin) && CompositesOnce(g, fin)
    requires j < |fin| && cont != 0 && EmitInv(g, rank, e)
    requires g[fin[j]].Composite? && e.marks[fin[j]].NotEmitted?
    requires AllInside(g, rank, fin, j, SetMark(e, fin[j], Emitting), g[fin[j]].members, false)
    requires e1 == EmitEach(g, rank, SetMark(e, fin[j], Emitting), g[fin[j]].members, cont, |g| + 1)
    ensures EmitInv(g, rank, e1) && Grows(SetMark(e, fin[j], Emitting), e1) && e1.marks[fin[j]].Emitting?
    ensures AllUsesCovered(g, rank, e1.out, cont, g[fin[j]].members, false)
    decreases Unopened(g, e), rank[fin[j]], 0
  {
    OpenKeeps(g, rank, e, fin[j]);
    EmitEachSound(g, rank, fin, j, SetMark(e, fin[j], Emitting), g[fin[j]].members, cont, false, |g| + 1, e1);
    assert SetMark(e, fin[j], Emitting).marks[fin[j]].Emitting?;
  }

  lemma AnonymousUses(g: Graph, rank: seq<nat>, out: seq<Item>, self: Id, id: Id, tp: bool)
    requires Ranked(g, rank) && id < |g| && g[id].Composite? && !g[id].named
    requires AllUsesCovered(g, rank, out, self, g[id].members, false)
    ensures UsesCovered(g, rank, out, self, Node(id, tp))
  {
    var ms := g[id].members;
    forall m | UseStep(g, Node(id, tp), m) ensures UsesCovered(g, rank, out, self, m) {
      var i :| 0 <= i < |ms| && ms[i] == m.id;
      assert UsesCovered(g, rank, out, self, Node(ms[i], false));
    }
    UsesFromSteps(g, rank, out, self, Node(id, tp));
  }

  /** Where an anonymous struct was finished; its members are inside that position. */
  lemma AnonymousInside(g: Graph, rank: seq<nat>, fin: seq<Id>, k: nat, e: Emission, id: Id, tp: bool)
    returns (j: nat)
    requires Ranked(g, rank) && Topological(g, rank, fin) && CompositesOnce(g, fin) && k <= |fin| && id < |g|
    requires Sized(g, e) && Inside(g, rank, fin, k, e, id, tp)
    requires g[id].Composite? && !g[id].named && !e.marks[id].Emitted?
    ensures j < |fin| && fin[j] == id && e.marks[id].NotEmitted?
    ensures AllInside(g, rank, fin, j, SetMark(e, id, Emitting), g[id].members, false)
  {
    j :| 0 <= j < k && fin[..k][j] == id;
    assert !WeakOnly(g, rank, id, tp);
    PrefixMono(g, fin, j, k);
    assert forall x :: x in fin[..j] ==> x in Elems(fin[..j]);
    MembersInside(g, rank, fin, j, e);
  }

  lemma {:induction false} EmitAnonymous(
    g: Graph, rank: seq<nat>, fin: seq<Id>, k: nat, e: Emission, id: Id, cont: Id, tp: bool, e': Emission)
    requires Ranked(g, rank) && Topological(g, rank, fin) && CompositesOnce(g, fin)
    requires k <= |fin| && id < |g| && cont != 0
    requires EmitInv(g, rank, e) && Inside(g, rank, fin, k, e, id, tp)
    requires g[id].Composite? && !g[id].named && !e.marks[id].Emitted?
    requires e' == Emit(g, rank, e, id, cont)
    ensures EmitInv(g, rank, e') && Grows(e, e') && UsesCovered(g, rank, e'.out, cont, Node(id, tp))
    decreases Unopened(g, e), rank[id], 1
  {
    var j := AnonymousInside(g, rank, fin, k, e, id, tp);
    var e1 := EmitEach(g, rank, SetMark(e, id, Emitting), g[id].members, cont, |g| + 1);
    MembersSound(g, rank, fin, j, e, cont, e1);
    AnonymousClosed(g, rank, e1, id);
    CloseGrows(g, e, e1, SetMark(e1, id, NotEmitted), id, NotEmitted);
    AnonymousUses(g, rank, e1.out, cont, id, tp);
  }

  // ----- Top level -----

  lemma StructPrinted(g: Graph, rank: seq<nat>, fin: seq<Id>, j: nat, e: Emission, e1: Emission)
    requires Ranked(g, rank) && Topological(g, rank, fin) && CompositesOnce(g, fin) && j < |fin|
    requires EmitInv(g, rank, e) && AllOut(g, e, Elems(fin[..j]))
    requires forall i :: 0 <= i < |g| ==> !e.marks[i].Emitting?
    requires g[fin[j]].Composite? && g[fin[j]].named && e.marks[fin[j]].NotEmitted?
    requires e1 == EmitEach(g, rank, SetMark(e, fin[j], Emitting), g[fin[j]].members, fin[j], |g| + 1)
    ensures var e' := SetMark(Put(e1, StructDef(fin[j])), fin[j], Emitted);
            EmitInv(g, rank, e') && Grows(e, e')
  {
    var id := fin[j];
    MembersInside(g, rank, fin, j, e);
    MembersSound(g, rank, fin, j, e, id, e1);
    StructClosed(g, rank, e1, id);
    CloseGrows(g, e, e1, SetMark(Put(e1, StructDef(id)), id, Emitted), id, Emitted);
  }

  lemma EnumPrinted(g: Graph, rank: seq<nat>, e: Emission, id: Id)
    requires Ranked(g, rank) && id < |g| && EmitInv(g, rank, e)
    requires g[id].Enum? && e.marks[id].NotEmitted? && Queueable(g, id)
    ensures var e' := SetMark(Put(e, EnumDef(id)), id, Emitted);
            EmitInv(g, rank, e') && Grows(e, e')
  {
    var e' := SetMark(Put(e, EnumDef(id)), id, Emitted);
    assert InStep(g, e, id);
    PutDeclared(g, rank, e.out, EnumDef(id));
    assert e'.out[|e.out|] == EnumDef(id);
    OthersInStep(g, e, e', id);
  }

  /** Printing the next queue entry, after all that was finished before it is out. */
  lemma EmitTop(g: Graph, rank: seq<nat>, fin: seq<Id>, j: nat, e: Emission, e': Emission)
    requires Ranked(g, rank) && Topological(g, rank, fin) && CompositesOnce(g, fin) && j < |fin|
    requires EmitInv(g, rank, e) && AllOut(g, e, Elems(fin[..j]))
    requires forall i :: 0 <= i < |g| ==> !e.marks[i].Emitting?
    requires Queueable(g, fin[j])
    requires e' == Emit(g, rank, e, fin[j], 0)
    ensures EmitInv(g, rank, e') && Grows(e, e') && e'.marks[fin[j]].Emitted?
  {
    var id := fin[j];
    assert Ready(g, rank, Elems(fin[..j]), fin[j]);
    if e.marks[id].NotEmitted? {
      match g[id]
      case Composite(_, _, ms) =>
        StructPrinted(g, rank, fin, j, e, EmitEach(g, rank, SetMark(e, id, Emitting), ms, id, |g| + 1));
      case Enum(_) => EnumPrinted(g, rank, e, id);
      case Fwd(_) => FwdPrinted(g, rank, e, id);
      case Typedef(t, _) =>
        if !IsFn(g, rank, id) { DoneThroughPtr(g, rank, Elems(fin[..j]), t); }
        TypedefPrinted(g, rank, fin, j, e, id, Emit(g, rank, SetMark(e, id, Emitting), t, id));
    }
  }
}
