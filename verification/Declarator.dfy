/** C declarations: how the dumper prints a chain of BTF types, and how C reads it back
    (section 6.7.6 of ISO/IEC 9899:2011). */
module Declarator {
  import opened Common

  datatype Qual = Const | Volatile | Restrict

  /** What a chain of types ends in; the name of anything but `void` is opaque here. */
  datatype Base = Void | Named(name: string)

  datatype Layer =
    | Pointer
    | Qualifier(q: Qual)
    | ArrayOf(n: nat)
    | FuncOf(params: seq<Param>)

  datatype Param = Param(name: string, chain: Chain)

  /** A declared type: layers over a base, the outermost layer first. */
  datatype Chain = Chain(layers: seq<Layer>, base: Base)

  const VoidType := Chain([], Void)

  datatype Token =
    | Word(base: Base)       // a type name
    | QualWord(q: Qual)
    | Ident(name: string)    // the declared name
    | Star
    | LPar
    | RPar
    | Dim(n: nat)            // [n]
    | Comma
    | Ellipsis
    | Semicolon

  // ----- Sizes, for termination -----

  ghost function ChainSize(c: Chain): nat {
    1 + LayersSize(c.layers)
  }

  ghost function LayersSize(ls: seq<Layer>): nat {
    if ls == [] then 0 else LayersSize(ls[..|ls| - 1]) + LayerSize(ls[|ls| - 1])
  }

  ghost function LayerSize(l: Layer): nat {
    match l
    case FuncOf(ps) => 1 + ParamsSize(ps)
    case _ => 1
  }

  ghost function ParamsSize(ps: seq<Param>): nat {
    if ps == [] then 1 else ChainSize(ps[0].chain) + 1 + ParamsSize(ps[1..])
  }

  // ----- Printing, with the types of a chain on a stack, the base on top -----

  function TakeQuals(st: seq<Layer>): (n: nat)
    ensures n <= |st|
    ensures forall i :: n <= i < |st| ==> st[i].Qualifier?
    ensures n > 0 ==> !st[n - 1].Qualifier?
  {
    if st == [] || !st[|st| - 1].Qualifier? then |st| else TakeQuals(st[..|st| - 1])
  }

  /** The qualifiers in the order in which popping them off the stack prints them. */
  function QualWords(qs: seq<Layer>): seq<Token>
    requires forall i :: 0 <= i < |qs| ==> qs[i].Qualifier?
  {
    if qs == [] then [] else [QualWord(qs[|qs| - 1].q)] + QualWords(qs[..|qs| - 1])
  }

  function NameTokens(name: string): seq<Token> {
    if name == "" then [] else [Ident(name)]
  }

  lemma {:induction false} PrefixSize(st: seq<Layer>, n: nat)
    requires n <= |st|
    ensures LayersSize(st[..n]) <= LayersSize(st)
    ensures n < |st| ==> LayersSize(st[..n]) < LayersSize(st)
  {
    if n < |st| {
      var m := |st| - 1;
      assert st[..m][..n] == st[..n];
      PrefixSize(st[..m], n);
    } else {
      assert st[..n] == st;
    }
  }

  /** The part of a declaration after the type specifiers, for the layers on the stack. */
  ghost function Tail(st: seq<Layer>, name: string): seq<Token>
    decreases LayersSize(st), 0
  {
    if st == [] then NameTokens(name)
    else
      var m := |st| - 1;
      var rest := st[..m];
      assert LayersSize(st) == LayersSize(rest) + LayerSize(st[m]);
      match st[m]
      case Pointer => [Star] + Tail(rest, name)
      case Qualifier(q) => [QualWord(q)] + Tail(rest, name)
      case ArrayOf(n) =>
        var k := TakeQuals(rest);
        PrefixSize(rest, k);
        if k == 0 then NameTokens(name) + [Dim(n)]
        else if rest[k - 1].ArrayOf? then Tail(rest[..k], name) + [Dim(n)]
        else [LPar] + Tail(rest[..k], name) + [RPar, Dim(n)]
      case FuncOf(ps) =>
        var k := TakeQuals(rest);
        PrefixSize(rest, k);
        (if k == 0 then NameTokens(name) else [LPar] + Tail(rest[..k], name) + [RPar])
        + [LPar] + ParamTokens(ps) + [RPar]
  }

  ghost function ParamTokens(ps: seq<Param>): seq<Token>
    decreases ParamsSize(ps), 1
  {
    if |ps| == 1 && ps[0].chain == VoidType then [] else ParamList(ps)
  }

  ghost function ParamList(ps: seq<Param>): seq<Token>
    decreases ParamsSize(ps), 0
  {
    if ps == [] then []
    else if |ps| == 1 then
      if ps[0].chain == VoidType then [Ellipsis] else Print(ps[0].chain, ps[0].name)
    else Print(ps[0].chain, ps[0].name) + [Comma] + ParamList(ps[1..])
  }

  /** A declaration of `name` with the type `c`. */
  ghost function Print(c: Chain, name: string): seq<Token>
    decreases ChainSize(c), 0
  {
    var k := TakeQuals(c.layers);
    PrefixSize(c.layers, k);
    QualWords(c.layers[k..]) + [Word(c.base)] + Tail(c.layers[..k], name)
  }

  // ----- Reading declarations, by the C grammar -----

  /** Declarators (section 6.7.6), parentheses already resolved. */
  datatype Dtor =
    | DName(name: string)
    | DPointer(quals: seq<Qual>, d: Dtor)
    | DArray(d: Dtor, n: nat)
    | DFunc(d: Dtor, params: seq<Param>)

  /** `T D` declares a name with this type, where `T` has the given layers: each form of D
      adds its layer to T and hands on to the declarator inside it (sections 6.7.6.1 to 3). */
  function TypeOf(d: Dtor, t: seq<Layer>): seq<Layer> {
    match d
    case DName(_) => t
    case DPointer(qs, d1) => TypeOf(d1, Qualify(qs, [Pointer] + t))
    case DArray(d1, n) => TypeOf(d1, [ArrayOf(n)] + t)
    case DFunc(d1, ps) => TypeOf(d1, [FuncOf(ps)] + t)
  }

  function Qualify(qs: seq<Qual>, t: seq<Layer>): seq<Layer> {
    if qs == [] then t else Qualify(qs[1..], [Qualifier(qs[0])] + t)
  }

  function NameOf(d: Dtor): string {
    match d
    case DName(x) => x
    case DPointer(_, d1) => NameOf(d1)
    case DArray(d1, _) => NameOf(d1)
    case DFunc(d1, _) => NameOf(d1)
  }

  function ReadQuals(ts: seq<Token>): (r: (seq<Qual>, seq<Token>))
    ensures |r.1| <= |ts|
  {
    if ts != [] && ts[0].QualWord? then
      var (qs, rest) := ReadQuals(ts[1..]);
      ([ts[0].q] + qs, rest)
    else ([], ts)
  }

  /** specifiers declarator */
  function ReadDecl(ts: seq<Token>): (r: Option<(Chain, string, seq<Token>)>)
    ensures r.Some? ==> |r.value.2| < |ts|
    decreases |ts|, 3
  {
    var (qs, r0) := ReadQuals(ts);
    if r0 == [] || !r0[0].Word? then None
    else
      match ReadDeclarator(r0[1..])
      case None => None
      case Some((d, r1)) => Some((Chain(TypeOf(d, Qualify(qs, [])), r0[0].base), NameOf(d), r1))
  }

  /** declarator: pointer? direct-declarator, the name possibly absent */
  function ReadDeclarator(ts: seq<Token>): (r: Option<(Dtor, seq<Token>)>)
    ensures r.Some? ==> |r.value.1| <= |ts|
    decreases |ts|, 2
  {
    if ts != [] && ts[0].Star? then
      var (qs, r0) := ReadQuals(ts[1..]);
      match ReadDeclarator(r0)
      case None => None
      case Some((d, r1)) => Some((DPointer(qs, d), r1))
    else ReadDirect(ts)
  }

  /** After `(`, these begin a declarator; anything else begins a parameter list. */
  predicate BeginsDeclarator(ts: seq<Token>) {
    ts != [] && (ts[0].Star? || ts[0].LPar? || ts[0].Dim? || ts[0].Ident?)
  }

  function ReadDirect(ts: seq<Token>): (r: Option<(Dtor, seq<Token>)>)
    ensures r.Some? ==> |r.value.1| <= |ts|
    decreases |ts|, 1
  {
    if ts != [] && ts[0].Ident? then ReadSuffixes(DName(ts[0].name), ts[1..])
    else if ts != [] && ts[0].LPar? && BeginsDeclarator(ts[1..]) then
      match ReadDeclarator(ts[1..])
      case None => None
      case Some((d, r)) => if r != [] && r[0].RPar? then ReadSuffixes(d, r[1..]) else None
    else ReadSuffixes(DName(""), ts)
  }

  function ReadSuffixes(d: Dtor, ts: seq<Token>): (r: Option<(Dtor, seq<Token>)>)
    ensures r.Some? ==> |r.value.1| <= |ts|
    decreases |ts|, 0
  {
    if ts != [] && ts[0].Dim? then ReadSuffixes(DArray(d, ts[0].n), ts[1..])
    else if ts != [] && ts[0].LPar? then
      match ReadParams(ts[1..])
      case None => None
      case Some((ps, r)) => ReadSuffixes(DFunc(d, ps), r)
    else Some((d, ts))
  }

  /** Everything up to and including the closing parenthesis. */
  function ReadParams(ts: seq<Token>): (r: Option<(seq<Param>, seq<Token>)>)
    ensures r.Some? ==> |r.value.1| < |ts|
    decreases |ts|, 5
  {
    if ts != [] && ts[0].RPar? then Some(([], ts[1..])) else ReadParamList(ts)
  }

  function ReadParamList(ts: seq<Token>): (r: Option<(seq<Param>, seq<Token>)>)
    ensures r.Some? ==> |r.value.1| < |ts|
    decreases |ts|, 4
  {
    match ReadDecl(ts)
    case None => None
    case Some((c, name, r)) =>
      if r == [] then None
      else if r[0].RPar? then Some(([Param(name, c)], r[1..]))
      else if !r[0].Comma? then None
      else if |r| > 2 && r[1].Ellipsis? && r[2].RPar? then
        Some(([Param(name, c), Param("", VoidType)], r[3..]))
      else
        match ReadParamList(r[1..])
        case None => None
        case Some((ps, r')) => Some(([Param(name, c)] + ps, r'))
  }

  // ----- What printing forgets -----

  predicate Keeps(ls: seq<Layer>)  // is what the qualifiers in front of `ls` apply to qualifiable?
  {
    if ls == [] then true
    else if ls[0].Qualifier? then Keeps(ls[1..])
    else ls[0].Pointer?
  }

  /** Drops the qualifiers that apply directly to an array or a function, and normalises
      parameter lists: a lone `void` is no parameter, a last `void` is the ellipsis. */
  ghost function Norm(c: Chain): Chain
    decreases ChainSize(c), 0
  {
    Chain(NormLayers(c.layers), c.base)
  }

  ghost function NormLayers(ls: seq<Layer>): seq<Layer>
    decreases LayersSize(ls), 1
  {
    if ls == [] then []
    else
      TailSize(ls);
      match ls[0]
      case Qualifier(_) => (if Keeps(ls[1..]) then [ls[0]] else []) + NormLayers(ls[1..])
      case FuncOf(ps) => [FuncOf(NormParams(ps))] + NormLayers(ls[1..])
      case _ => [ls[0]] + NormLayers(ls[1..])
  }

  ghost function NormParams(ps: seq<Param>): seq<Param>
    decreases ParamsSize(ps), 1
  {
    if |ps| == 1 && ps[0].chain == VoidType then [] else NormList(ps)
  }

  ghost function NormList(ps: seq<Param>): seq<Param>
    decreases ParamsSize(ps), 0
  {
    if ps == [] then []
    else if |ps| == 1 && ps[0].chain == VoidType then [Param("", VoidType)]
    else [Param(ps[0].name, Norm(ps[0].chain))] + NormList(ps[1..])
  }

  /** Sizes do not depend on the end from which they are summed. */
  lemma {:induction false} TailSize(ls: seq<Layer>)
    requires ls != []
    ensures LayersSize(ls) == LayerSize(ls[0]) + LayersSize(ls[1..])
  {
    var m := |ls| - 1;
    if m == 0 {
      assert ls[..m] == [] && ls[1..] == [];
    } else {
      TailSize(ls[..m]);
      assert ls[..m][1..] == ls[1..][..m - 1];
    }
  }
}
