/** The declarations on which printing and reading back is the identity. */
module DeclaratorExact {
  import opened Common
  import opened Declarator
  import opened DeclaratorProof

  /** No qualifier stands directly on an array or a function, and no parameter is `void`, at
      any depth; a last unnamed `void` behind others is the ellipsis. */
  ghost predicate Kept(c: Chain)
    decreases ChainSize(c), 0
  {
    KeptLayers(c.layers)
  }

  ghost predicate KeptLayers(ls: seq<Layer>)
    decreases LayersSize(ls), 1
  {
    if ls == [] then true
    else
      TailSize(ls);
      && (ls[0].Qualifier? && |ls| > 1 ==> ls[1].Qualifier? || ls[1].Pointer?)
      && (ls[0].FuncOf? && ls[0].params != [] ==> ls[0].params[0].chain != VoidType && KeptParams(ls[0].params))
      && KeptLayers(ls[1..])
  }

  ghost predicate KeptParams(ps: seq<Param>)
    decreases ParamsSize(ps), 0
  {
    || ps == [] || ps == [Param("", VoidType)]
    || (ps[0].chain != VoidType && Kept(ps[0].chain) && KeptParams(ps[1..]))
  }

  lemma {:induction false} NormKept(c: Chain)
    requires Kept(c)
    ensures Norm(c) == c
    decreases ChainSize(c), 0
  {
    NormLayersKept(c.layers);
  }

  lemma {:induction false} NormLayersKept(ls: seq<Layer>)
    requires KeptLayers(ls)
    ensures NormLayers(ls) == ls
    decreases LayersSize(ls), 1
  {
    if ls != [] {
      TailSize(ls);
      NormLayersKept(ls[1..]);
      match ls[0]
      case Qualifier(_) => QualifierKept(ls[1..]);
      case FuncOf(ps) => if ps != [] { NormParamsKept(ps); }
      case _ =>
    }
  }

  lemma {:induction false} QualifierKept(ls: seq<Layer>)
    requires KeptLayers(ls) && (ls != [] ==> ls[0].Qualifier? || ls[0].Pointer?)
    ensures Keeps(ls)
    decreases |ls|
  {
    if ls != [] && ls[0].Qualifier? { QualifierKept(ls[1..]); }
  }

  lemma {:induction false} NormParamsKept(ps: seq<Param>)
    requires KeptParams(ps)
    ensures NormList(ps) == ps
    decreases ParamsSize(ps), 0
  {
    if ps != [] && ps != [Param("", VoidType)] {
      NormKept(ps[0].chain);
      NormParamsKept(ps[1..]);
      assert ps == [ps[0]] + ps[1..];
    }
  }

  /** On such declarations printing loses nothing: the text reads back as what was printed. */
  lemma PrintReadsBackExactly(c: Chain, name: string)
    requires Kept(c)
    ensures ReadDecl(Print(c, name) + [Semicolon]) == Some((c, name, [Semicolon]))
  {
    PrintReadsBack(c, name);
    NormKept(c);
  }
}
