/** The dumper object itself: per-type state and queues updated in place by recursive
    methods with loops, tied to the functions of the two passes. */
module BtfDumper {
  import opened BtfGraph
  import O = BtfOrder
  import E = BtfEmit
  import opened BtfDump

  class Dumper {
    const g: Graph
    ghost const rank: seq<nat>

    var orderState: seq<O.Mark>
    var referenced: seq<bool>
    var emitQueue: seq<Id>
    var emitState: seq<E.Mark>
    var fwdEmitted: seq<bool>
    var output: seq<E.Item>
    ghost var finished: seq<Id>
    ghost var queued: seq<Id>

    ghost function Order(): O.State
      reads this
    {
      O.State(orderState, emitQueue, finished)
    }

    ghost function Emission(): E.Emission
      reads this
    {
      E.Emission(emitState, fwdEmitted, output)
    }

    ghost function Snapshot(): Session
      reads this
    {
      Session(Order(), Emission(), queued)
    }

    ghost predicate Shaped()
      reads this
    {
      && Ranked(g, rank)
      && |orderState| == |g| == |emitState| == |fwdEmitted| == |referenced|
      && (forall i :: 0 <= i < |g| ==> (referenced[i] <==> Referenced(g, i)))
    }

    /** Holds after creation and after every call that did not report a type loop. */
    ghost predicate Good()
      reads this
    {
      Shaped() && Valid(g, rank, Snapshot())
    }

    constructor (types: Graph)
      requires CyclesPassComposites(types) && MarksInRange(types)
      ensures g == types && Good() && Snapshot() == Fresh(types)
    {
      g := types;
      ghost var r := RankExists(types);
      rank := r;
      orderState := seq(|types|, i => if i == 0 then O.Ordered else O.NotOrdered);
      emitState := seq(|types|, i => if i == 0 then E.Emitted else E.NotEmitted);
      fwdEmitted := seq(|types|, _ => false);
      emitQueue, output, finished, queued := [], [], [], [];
      new;
      MarkReferenced();
      forall x | 0 <= x < |g| ensures Referenced(g, x) <==> Named(g, x) { ReferencedIsNamed(g, x); }
      FreshValid(g, rank);
      assert Snapshot() == Fresh(g);
    }

    /** Marks every type that some type names. */
    method MarkReferenced()
      requires MarksInRange(g)
      modifies this`referenced
      ensures |referenced| == |g|
      ensures forall i :: 0 <= i < |g| ==> (referenced[i] <==> Named(g, i))
    {
      referenced := seq(|g|, _ => false);
      for i := 0 to |g|
        invariant |referenced| == |g|
        invariant forall x :: 0 <= x < |g| ==> (referenced[x] <==> exists k :: 0 <= k < i && x in Marks(g[k]))
      {
        var marks := Marks(g[i]);
        ghost var before := referenced;
        for j := 0 to |marks|
          invariant |referenced| == |g|
          invariant forall x :: 0 <= x < |g| ==> (referenced[x] <==> before[x] || x in marks[..j])
        {
          assert marks[j] in Marks(g[i]);
          referenced := referenced[marks[j] := true];
        }
        assert marks[..|marks|] == marks;
        forall x | 0 <= x < |g| ensures referenced[x] <==> exists k :: 0 <= k < i + 1 && x in Marks(g[k]) {
          if referenced[x] && x in marks { assert 0 <= i < i + 1 && x in Marks(g[i]); }
        }
      }
      forall x | 0 <= x < |g| ensures Referenced(g, x) <==> Named(g, x) { ReferencedIsNamed(g, x); }
    }

    method FinishType(id: Id)
      requires Shaped() && id < |g|
      modifies this`orderState, this`emitQueue, this`finished
      ensures Shaped() && Order() == O.Finish(g, old(Order()), id)
    {
      var queue := match g[id]
        case Composite(_, named, _) => named
        case Enum(named) => named || !referenced[id]
        case Fwd(named) => named || !referenced[id]
        case Typedef(_, _) => true
        case _ => false;
      if queue {
        emitQueue := emitQueue + [id];
      }
      orderState := orderState[id := O.Ordered];
      finished := finished + [id];
    }

    /** Orders a type and what it needs; 1 strong, 0 weak, negative on a type loop. */
    method OrderType(id: Id, throughPtr: bool) returns (r: int)
      requires Shaped() && id < |g|
      modifies this`orderState, this`emitQueue, this`finished
      ensures Shaped() && (Order(), r) == O.Order(g, rank, old(Order()), id, throughPtr)
      decreases O.Unentered(g, Order()), rank[id]
    {
      if orderState[id].Ordered? { return 1; }
      var t := g[id];
      if orderState[id].Ordering? {
        if t.Composite? && throughPtr && t.named { return 0; }
        return O.ELOOP;
      }
      match t
      case Int => FinishType(id); return 0;
      case Float => FinishType(id); return 0;
      case Other(_) => FinishType(id); return 0;
      case Ptr(target) =>
        r := OrderType(target, true);
        FinishType(id);
      case Array(elem, _) => r := OrderType(elem, false);
      case Composite(_, _, members) => r := OrderComposite(id, throughPtr);
      case Enum(_) => FinishType(id); return 1;
      case Fwd(_) => FinishType(id); return 1;
      case Typedef(target, _) =>
        var isStrong := OrderType(target, throughPtr);
        if isStrong < 0 { return isStrong; }
        if throughPtr && isStrong == 0 { return 0; }
        FinishType(id);
        return 1;
      case Mod(target) => r := OrderType(target, throughPtr);
      case FuncProto(ret, params) => r := OrderProto(id, throughPtr);
      case Void => return O.EINVAL;
    }

    method OrderComposite(id: Id, throughPtr: bool) returns (r: int)
      requires Shaped() && id < |g| && g[id].Composite? && orderState[id].NotOrdered?
      modifies this`orderState, this`emitQueue, this`finished
      ensures Shaped() && (Order(), r) == O.Order(g, rank, old(Order()), id, throughPtr)
      decreases O.Unentered(g, Order()), rank[id], 0
    {
      if throughPtr && g[id].named { return 0; }
      ghost var start := Order();
      orderState := orderState[id := O.Ordering];
      ghost var s0 := Order();
      assert id in O.Unentered(g, start) && id !in O.Unentered(g, s0);
      var members := g[id].members;
      ghost var whole := O.OrderEach(g, rank, s0, members, false, |g| + 1);
      assert members[0..] == members;
      for i := 0 to |members|
        invariant Shaped() && O.Unentered(g, Order()) <= O.Unentered(g, s0)
        invariant var rest := O.OrderEach(g, rank, Order(), members[i..], false, |g| + 1);
                  rest.0 == whole.0 && (if rest.1 < 0 then whole.1 == rest.1 else whole.1 >= 0)
      {
        assert members[i..][1..] == members[i + 1..];
        var err := OrderType(members[i], false);
        if err < 0 { return err; }
      }
      FinishType(id);
      r := 1;
    }

    method OrderProto(id: Id, throughPtr: bool) returns (r: int)
      requires Shaped() && id < |g| && g[id].FuncProto? && orderState[id].NotOrdered?
      modifies this`orderState, this`emitQueue, this`finished
      ensures Shaped() && (Order(), r) == O.Order(g, rank, old(Order()), id, throughPtr)
      decreases O.Unentered(g, Order()), rank[id], 0
    {
      var err := OrderType(g[id].ret, throughPtr);
      if err < 0 { return err; }
      var isStrong := err > 0;
      ghost var first := err;
      ghost var s1 := Order();
      var params := g[id].params;
      ghost var whole := O.OrderEach(g, rank, s1, params, throughPtr, rank[id]);
      ghost var answer := if whole.1 < 0 then whole.1 else if first > 0 then 1 else whole.1;
      assert params[0..] == params;
      for i := 0 to |params|
        invariant Shaped() && O.Unentered(g, Order()) <= O.Unentered(g, s1)
        invariant var rest := O.OrderEach(g, rank, Order(), params[i..], throughPtr, rank[id]);
                  rest.0 == whole.0 && answer == if rest.1 < 0 then rest.1 else if isStrong then 1 else rest.1
      {
        assert params[i..][1..] == params[i + 1..];
        err := OrderType(params[i], throughPtr);
        if err < 0 { return err; }
        if err > 0 { isStrong := true; }
      }
      r := if isStrong then 1 else 0;
    }

    /** Prints a type and the forward declarations it needs. */
    method EmitType(id: Id, cont: Id)
      requires Shaped() && id < |g|
      modifies this`emitState, this`fwdEmitted, this`output
      ensures Shaped() && Emission() == E.Emit(g, rank, old(Emission()), id, cont)
      decreases E.Unopened(g, Emission()), rank[id]
    {
      if emitState[id].Emitted? { return; }
      var t := g[id];
      if emitState[id].Emitting? {
        EmitAgain(id, cont);
        return;
      }
      match t
      case Int => emitState := emitState[id := E.Emitted];
      case Enum(_) =>
        if cont == 0 { output := output + [E.EnumDef(id)]; }
        emitState := emitState[id := E.Emitted];
      case Fwd(_) =>
        output := output + [E.FwdDef(id)];
        emitState := emitState[id := E.Emitted];
      case Ptr(target) => EmitType(target, cont);
      case Mod(target) => EmitType(target, cont);
      case Array(elem, _) => EmitType(elem, cont);
      case Typedef(target, builtin) =>
        ghost var e := Emission();
        emitState := emitState[id := E.Emitting];
        assert E.Unopened(g, Emission()) == E.Unopened(g, e);
        assert Emission() == E.SetMark(e, id, E.Emitting);
        EmitType(target, id);
        if !fwdEmitted[id] && !builtin { output := output + [E.TypedefDef(id)]; }
        emitState := emitState[id := E.Emitted];
      case Composite(_, _, _) => EmitComposite(id, cont);
      case FuncProto(ret, params) =>
        EmitType(ret, cont);
        EmitAll(params, cont, rank[id]);
      case _ =>
    }

    /** A type met again while it is being printed: a forward declaration if it needs one. */
    method EmitAgain(id: Id, cont: Id)
      requires Shaped() && id < |g| && emitState[id].Emitting?
      modifies this`emitState, this`fwdEmitted, this`output
      ensures Shaped() && Emission() == E.Emit(g, rank, old(Emission()), id, cont)
    {
      if fwdEmitted[id] { return; }
      match g[id]
      case Composite(_, named, _) =>
        if id == cont || !named { return; }
        output := output + [E.StructFwd(id)];
        fwdEmitted := fwdEmitted[id := true];
      case Typedef(_, builtin) =>
        if !builtin { output := output + [E.TypedefDef(id)]; }
        fwdEmitted := fwdEmitted[id := true];
      case _ =>
    }

    method EmitComposite(id: Id, cont: Id)
      requires Shaped() && id < |g| && g[id].Composite? && emitState[id].NotEmitted?
      modifies this`emitState, this`fwdEmitted, this`output
      ensures Shaped() && Emission() == E.Emit(g, rank, old(Emission()), id, cont)
      decreases E.Unopened(g, Emission()), rank[id], 0
    {
      ghost var e := Emission();
      emitState := emitState[id := E.Emitting];
      assert id in E.Unopened(g, e) && id !in E.Unopened(g, Emission());
      if cont == 0 || !g[id].named {
        EmitAll(g[id].members, if g[id].named then id else cont, |g| + 1);
      } else if !fwdEmitted[id] && id != cont {
        output := output + [E.StructFwd(id)];
        fwdEmitted := fwdEmitted[id := true];
      }
      if cont == 0 {
        output := output + [E.StructDef(id)];
        emitState := emitState[id := E.Emitted];
      } else {
        emitState := emitState[id := E.NotEmitted];
      }
    }

    /** The member and parameter loops. */
    method EmitAll(ids: seq<Id>, cont: Id, ghost lim: nat)
      requires Shaped()
      requires forall i :: 0 <= i < |ids| ==> ids[i] < |g| && rank[ids[i]] < lim
      modifies this`emitState, this`fwdEmitted, this`output
      ensures Shaped() && Emission() == E.EmitEach(g, rank, old(Emission()), ids, cont, lim)
      decreases E.Unopened(g, Emission()), lim, 0
    {
      ghost var e := Emission();
      assert ids[0..] == ids;
      for i := 0 to |ids|
        invariant Shaped() && E.Unopened(g, Emission()) <= E.Unopened(g, e)
        invariant E.EmitEach(g, rank, Emission(), ids[i..], cont, lim) == E.EmitEach(g, rank, e, ids, cont, lim)
      {
        assert ids[i..][1..] == ids[i + 1..];
        EmitType(ids[i], cont);
      }
    }

    /** Prints the queue computed by the ordering pass. */
    method EmitQueued()
      requires Shaped() && O.InGraph(g, emitQueue)
      modifies this`emitState, this`fwdEmitted, this`output
      ensures Shaped() && Emission() == EmitQueue(g, rank, old(Emission()), emitQueue)
    {
      ghost var e := Emission();
      for i := 0 to |emitQueue|
        invariant Shaped() && Emission() == EmitQueue(g, rank, e, emitQueue[..i])
      {
        assert emitQueue[..i + 1][..i] == emitQueue[..i];
        EmitType(emitQueue[i], 0);
      }
      assert emitQueue[..|emitQueue|] == emitQueue;
    }

    /** Dumps a type in compilable C, with everything it depends on. */
    method DumpType(id: nat) returns (r: int)
      requires Good()
      modifies this`orderState, this`emitQueue, this`finished, this`queued
      modifies this`emitState, this`fwdEmitted, this`output
      ensures (Snapshot(), r) == Dump(g, rank, old(Snapshot()), id)
      ensures r != O.ELOOP ==> Good() && old(output) <= output && E.DeclaredBeforeUse(g, rank, output)
    {
      ghost var d := Snapshot();
      if id >= |g| { return O.EINVAL; }
      emitQueue := [];
      assert Order() == d.order.(queue := []);
      var err := OrderType(id, false);
      if err < 0 {
        DumpKeepsValid(g, rank, d, id, Snapshot(), err);
        return err;
      }
      CallQueues(g, rank, d.queued, d.order.(queue := []), id, Order());
      EmitQueued();
      queued := queued + emitQueue;
      r := 0;
      DumpKeepsValid(g, rank, d, id, Snapshot(), r);
    }
  }
}
