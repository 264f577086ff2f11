/** The declarator printer as it runs: one shared stack of types, local views into it, and
    output that grows. */
module DeclaratorPrinter {
  import opened Declarator
  import P = DeclaratorProof

  /** A stack entry: a type that leads on to another one, or the end of a chain. */
  datatype Entry = Mid(layer: Layer) | Bottom(base: Base)

  ghost function LayersOf(ids: seq<Entry>, n: nat): (ls: seq<Layer>)
    requires n <= |ids| && forall i :: 0 <= i < n ==> ids[i].Mid?
    ensures |ls| == n && forall i :: 0 <= i < n ==> ls[i] == ids[i].layer
  {
    seq(n, i requires 0 <= i < n => ids[i].layer)
  }

  /** A local view: types that lead on, possibly with the end of their chain on top. */
  ghost predicate IsView(ids: seq<Entry>, cnt: nat) {
    cnt <= |ids| && forall i :: 0 <= i < cnt - 1 ==> ids[i].Mid?
  }

  /** What emitting the view has to print. */
  ghost function Expected(ids: seq<Entry>, cnt: nat, name: string): seq<Token>
    requires IsView(ids, cnt)
  {
    if cnt > 0 && ids[cnt - 1].Bottom? then Print(Chain(LayersOf(ids, cnt - 1), ids[cnt - 1].base), name)
    else Tail(LayersOf(ids, cnt), name)
  }

  ghost function ViewSize(ids: seq<Entry>, cnt: nat): nat
    requires IsView(ids, cnt)
  {
    1 + LayersSize(LayersOf(ids, if cnt > 0 && ids[cnt - 1].Bottom? then cnt - 1 else cnt))
  }

  lemma LayersOfPrefix(ids: seq<Entry>, n: nat, k: nat)
    requires k <= n <= |ids| && forall i :: 0 <= i < n ==> ids[i].Mid?
    ensures LayersOf(ids, n)[..k] == LayersOf(ids, k)
  {
  }

  /** The end of the chain: the qualifiers under it, then its name, then the rest. */
  lemma ExpectBottom(ids: seq<Entry>, cnt: nat, k: nat, name: string, want: seq<Token>, rest: seq<Token>)
    requires IsView(ids, cnt) && cnt > 0 && ids[cnt - 1].Bottom? && k == TakeQuals(LayersOf(ids, cnt - 1))
    requires want == Expected(ids, cnt, name) && rest == Expected(ids, k, name)
    ensures want == QualWords(LayersOf(ids, cnt - 1)[k..]) + [Word(ids[cnt - 1].base)] + rest
  {
    LayersOfPrefix(ids, cnt - 1, k);
  }

  lemma ExpectPointer(ids: seq<Entry>, cnt: nat, name: string, want: seq<Token>, rest: seq<Token>)
    requires IsView(ids, cnt) && cnt > 0 && ids[cnt - 1] == Mid(Pointer)
    requires want == Expected(ids, cnt, name) && rest == Expected(ids, cnt - 1, name)
    ensures want == [Star] + rest
  {
    LayersOfPrefix(ids, cnt, cnt - 1);
    P.TailPopsPointer(LayersOf(ids, cnt), name, want);
  }

  lemma ExpectQualifier(ids: seq<Entry>, cnt: nat, name: string, want: seq<Token>, rest: seq<Token>)
    requires IsView(ids, cnt) && cnt > 0 && ids[cnt - 1].Mid? && ids[cnt - 1].layer.Qualifier?
    requires want == Expected(ids, cnt, name) && rest == Expected(ids, cnt - 1, name)
    ensures want == [QualWord(ids[cnt - 1].layer.q)] + rest
  {
    LayersOfPrefix(ids, cnt, cnt - 1);
    P.TailPopsOne(LayersOf(ids, cnt), name, want);
  }

  lemma ExpectNothing(ids: seq<Entry>, name: string, rest: seq<Token>)
    requires IsView(ids, 0) && rest == Expected(ids, 0, name)
    ensures rest == NameTokens(name)
  {
    P.TailEmpty(LayersOf(ids, 0), name, rest);
  }

  lemma ExpectArray(ids: seq<Entry>, cnt: nat, k: nat, name: string, want: seq<Token>, rest: seq<Token>)
    requires IsView(ids, cnt) && cnt > 0 && ids[cnt - 1].Mid? && ids[cnt - 1].layer.ArrayOf?
    requires k == TakeQuals(LayersOf(ids, cnt - 1))
    requires want == Expected(ids, cnt, name) && rest == Expected(ids, k, name)
    ensures var n := ids[cnt - 1].layer.n;
            want == if k == 0 || ids[k - 1].layer.ArrayOf? then rest + [Dim(n)] else [LPar] + rest + [RPar, Dim(n)]
  {
    LayersOfPrefix(ids, cnt, cnt - 1);
    LayersOfPrefix(ids, cnt, k);
    var st := LayersOf(ids, cnt);
    assert st[cnt - 1] == ids[cnt - 1].layer && (k > 0 ==> st[k - 1] == ids[k - 1].layer);
    P.TailArray(st, name, k, want, rest);
  }

  lemma ExpectFunc(
    ids: seq<Entry>, cnt: nat, k: nat, name: string, want: seq<Token>, rest: seq<Token>, list: seq<Token>)
    requires IsView(ids, cnt) && cnt > 0 && ids[cnt - 1].Mid? && ids[cnt - 1].layer.FuncOf?
    requires k == TakeQuals(LayersOf(ids, cnt - 1)) && list == ParamTokens(ids[cnt - 1].layer.params)
    requires want == Expected(ids, cnt, name) && rest == Expected(ids, k, name)
    ensures want == (if k == 0 then rest else [LPar] + rest + [RPar]) + [LPar] + list + [RPar]
  {
    LayersOfPrefix(ids, cnt, cnt - 1);
    LayersOfPrefix(ids, cnt, k);
    P.TailFunc(LayersOf(ids, cnt), name, k, want, rest, list);
  }

  lemma ViewSmaller(ids: seq<Entry>, c: nat, k: nat)
    requires IsView(ids, c) && k < c && ids[c - 1].Mid?
    ensures ViewSize(ids, k) < ViewSize(ids, c)
    ensures ids[c - 1].layer.FuncOf? ==> ParamsSize(ids[c - 1].layer.params) < ViewSize(ids, c)
  {
    LayersOfPrefix(ids, c, k);
    PrefixSize(LayersOf(ids, c), k);
    LayerSmaller(LayersOf(ids, c), c - 1);
  }

  lemma ViewShrinks(ids: seq<Entry>, cnt: nat, c: nat)
    requires IsView(ids, cnt) && c <= cnt
    ensures ViewSize(ids, c) <= ViewSize(ids, cnt)
  {
    if c < cnt {
      var n := if ids[cnt - 1].Bottom? then cnt - 1 else cnt;
      LayersOfPrefix(ids, n, c);
      PrefixSize(LayersOf(ids, n), c);
    }
  }

  lemma {:induction false} ParamSmaller(ps: seq<Param>, i: nat)
    requires i < |ps|
    ensures ChainSize(ps[i].chain) < ParamsSize(ps)
  {
    if i > 0 { ParamSmaller(ps[1..], i - 1); }
  }

  lemma {:induction false} LayerSmaller(ls: seq<Layer>, i: nat)
    requires i < |ls|
    ensures LayerSize(ls[i]) <= LayersSize(ls)
  {
    var m := |ls| - 1;
    if i < m { LayerSmaller(ls[..m], i); }
  }

  lemma {:induction false} QualWordsGrow(ls: seq<Layer>, c: nat)
    requires 0 < c <= |ls| && forall i :: c - 1 <= i < |ls| ==> ls[i].Qualifier?
    ensures QualWords(ls[c - 1..]) == QualWords(ls[c..]) + [QualWord(ls[c - 1].q)]
    decreases |ls|
  {
    var m := |ls| - 1;
    if c - 1 == m {
      assert ls[c..] == [] && ls[c - 1..] == [ls[m]];
    } else {
      QualWordsGrow(ls[..m], c);
      assert ls[c - 1..][..m - c + 1] == ls[..m][c - 1..];
      assert ls[c..][..m - c] == ls[..m][c..];
    }
  }

  /** What is left of a parameter list after its first i parameters, i > 0. */
  ghost function ListRest(ps: seq<Param>, i: nat): seq<Token>
    requires i <= |ps|
  {
    if i == |ps| then [] else [Comma] + ParamList(ps[i..])
  }

  ghost function ParamText(ps: seq<Param>, i: nat): seq<Token>
    requires i < |ps|
  {
    if i == |ps| - 1 && ps[i].chain == VoidType then [Ellipsis] else Print(ps[i].chain, ps[i].name)
  }

  lemma ListNext(ps: seq<Param>, i: nat, list: seq<Token>, text: seq<Token>)
    requires i < |ps| && list == ParamList(ps[i..]) && text == ParamText(ps, i)
    ensures list == text + ListRest(ps, i + 1)
  {
    assert ps[i..][1..] == ps[i + 1..];
    if i == |ps| - 1 { assert text + [] == text; }
  }

  /** A chain as it lies on the stack. */
  function Entries(c: Chain): seq<Entry> {
    seq(|c.layers| + 1, i requires 0 <= i <= |c.layers| => if i < |c.layers| then Mid(c.layers[i]) else Bottom(c.base))
  }

  lemma EntriesView(c: Chain, name: string)
    ensures IsView(Entries(c), |c.layers| + 1)
    ensures Expected(Entries(c), |c.layers| + 1, name) == Print(c, name)
    ensures ViewSize(Entries(c), |c.layers| + 1) == ChainSize(c)
  {
    assert LayersOf(Entries(c), |c.layers|) == c.layers;
  }

  class Printer {
    var out: seq<Token>
    var declStack: seq<Entry>

    constructor ()
      ensures out == [] && declStack == []
    {
      out, declStack := [], [];
    }

    /** Prints a declaration of `name` with the type at the head of the chain `c`. */
    method EmitTypeDecl(c: Chain, name: string)
      modifies this
      ensures out == old(out) + Print(c, name) && declStack == old(declStack)
      decreases ChainSize(c), 2
    {
      var start := |declStack|;
      PushChain(c);
      var ids := declStack[start..];
      assert ids == Entries(c);
      EntriesView(c, name);
      EmitTypeChain(ids, |ids|, name);
      declStack := declStack[..start];
    }

    /** Pushes the types of a chain, each before the one it leads to. */
    method PushChain(c: Chain)
      modifies this`declStack
      ensures declStack == old(declStack) + Entries(c)
    {
      for i := 0 to |c.layers|
        invariant declStack == old(declStack) + Entries(c)[..i]
      {
        declStack := declStack + [Mid(c.layers[i])];
        assert Entries(c)[..i + 1] == Entries(c)[..i] + [Mid(c.layers[i])];
      }
      declStack := declStack + [Bottom(c.base)];
      assert Entries(c) == Entries(c)[..|c.layers|] + [Bottom(c.base)];
    }

    /** Prints the qualifiers on top of the view; the new count leaves them out. */
    method EmitMods(ids: seq<Entry>, cnt: nat) returns (c: nat)
      requires cnt <= |ids| && forall i :: 0 <= i < cnt ==> ids[i].Mid?
      modifies this`out
      ensures c == TakeQuals(LayersOf(ids, cnt))
      ensures out == old(out) + QualWords(LayersOf(ids, cnt)[c..])
    {
      c := cnt;
      ghost var ls := LayersOf(ids, cnt);
      ghost var words := QualWords(ls[c..]);
      assert ls[c..] == [];
      while c > 0 && ids[c - 1].layer.Qualifier?
        invariant c <= cnt && forall i :: c <= i < cnt ==> ls[i].Qualifier?
        invariant words == QualWords(ls[c..]) && out == old(out) + words
      {
        var word := QualWord(ids[c - 1].layer.q);
        QualWordsGrow(ls, c);
        P.Assoc(old(out), words, [word]);
        out := out + [word];
        words := words + [word];
        c := c - 1;
      }
      P.TakeQualsUnique(ls, c);
    }

    /** Skips the qualifiers on top of the view. */
    method DropMods(ids: seq<Entry>, cnt: nat) returns (c: nat)
      requires cnt <= |ids| && forall i :: 0 <= i < cnt ==> ids[i].Mid?
      ensures c == TakeQuals(LayersOf(ids, cnt))
    {
      c := cnt;
      while c > 0 && ids[c - 1].layer.Qualifier?
        invariant c <= cnt && forall i :: c <= i < cnt ==> ids[i].layer.Qualifier?
      {
        c := c - 1;
      }
      P.TakeQualsUnique(LayersOf(ids, cnt), c);
    }

    /** Prints the types of a view from the top down, consuming all of it. */
    method EmitTypeChain(ids: seq<Entry>, cnt: nat, name: string)
      requires IsView(ids, cnt)
      modifies this
      ensures out == old(out) + Expected(ids, cnt, name) && declStack == old(declStack)
      decreases ViewSize(ids, cnt), 1
    {
      var c: nat := cnt;
      ghost var want := old(out) + Expected(ids, cnt, name);
      while c > 0
        invariant c <= cnt && declStack == old(declStack)
        invariant IsView(ids, c) && (c < cnt ==> c == 0 || ids[c - 1].Mid?)
        invariant out + Expected(ids, c, name) == want
      {
        ViewShrinks(ids, cnt, c);
        if ids[c - 1].Mid? && ids[c - 1].layer.ArrayOf? {
          EmitArray(ids, c, name);
          return;
        }
        if ids[c - 1].Mid? && ids[c - 1].layer.FuncOf? {
          EmitFunc(ids, c, name);
          return;
        }
        c := EmitOne(ids, c, name);
      }
      ExpectNothing(ids, name, Expected(ids, 0, name));
      EmitName(name);
    }

    /** The end of the chain with its qualifiers, a pointer, or a qualifier of a pointer. */
    method EmitOne(ids: seq<Entry>, c: nat, ghost name: string) returns (k: nat)
      requires IsView(ids, c) && c > 0
      requires ids[c - 1].Mid? ==> ids[c - 1].layer.Pointer? || ids[c - 1].layer.Qualifier?
      modifies this`out
      ensures k < c && IsView(ids, k)
      ensures out + Expected(ids, k, name) == old(out) + Expected(ids, c, name)
    {
      ghost var all := Expected(ids, c, name);
      if ids[c - 1].Bottom? {
        k := EmitBase(ids, c, name);
        return;
      }
      var token := if ids[c - 1].layer.Pointer? then Star else QualWord(ids[c - 1].layer.q);
      out := out + [token];
      k := c - 1;
      ghost var rest := Expected(ids, k, name);
      if ids[c - 1].layer.Pointer? {
        ExpectPointer(ids, c, name, all, rest);
      } else {
        ExpectQualifier(ids, c, name, all, rest);
      }
      P.Assoc(old(out), [token], rest);
    }

    method EmitBase(ids: seq<Entry>, c: nat, ghost name: string) returns (k: nat)
      requires IsView(ids, c) && c > 0 && ids[c - 1].Bottom?
      modifies this`out
      ensures k < c && IsView(ids, k)
      ensures out + Expected(ids, k, name) == old(out) + Expected(ids, c, name)
    {
      k := EmitMods(ids, c - 1);
      ghost var words := QualWords(LayersOf(ids, c - 1)[k..]);
      out := out + [Word(ids[c - 1].base)];
      ghost var all, rest := Expected(ids, c, name), Expected(ids, k, name);
      ExpectBottom(ids, c, k, name, all, rest);
      Regroup(old(out), words, [Word(ids[c - 1].base)], rest);
    }

    method EmitName(name: string)
      modifies this`out
      ensures out == old(out) + NameTokens(name)
    {
      if name != "" {
        out := out + [Ident(name)];
      }
    }

    /** An array: its element type is printed already, the rest goes in front of the bound. */
    method EmitArray(ids: seq<Entry>, c: nat, name: string)
      requires IsView(ids, c) && c > 0 && ids[c - 1].Mid? && ids[c - 1].layer.ArrayOf?
      modifies this
      ensures out == old(out) + Expected(ids, c, name) && declStack == old(declStack)
      decreases ViewSize(ids, c), 0
    {
      var n := ids[c - 1].layer.n;
      var k := DropMods(ids, c - 1);
      ghost var rest := Expected(ids, k, name);
      ExpectArray(ids, c, k, name, Expected(ids, c, name), rest);
      if k == 0 {
        ExpectNothing(ids, name, rest);
        EmitName(name);
        out := out + [Dim(n)];
        P.Assoc(old(out), rest, [Dim(n)]);
        return;
      }
      var multidim := ids[k - 1].layer.ArrayOf?;
      if !multidim { out := out + [LPar]; }
      ViewSmaller(ids, c, k);
      EmitTypeChain(ids, k, name);
      if !multidim { out := out + [RPar]; }
      out := out + [Dim(n)];
      P.Assoc(old(out), rest, [Dim(n)]);
      Grouped(old(out), rest, n);
    }

    /** A function: the rest of the view, in parentheses if there is any, then the parameters. */
    method EmitFunc(ids: seq<Entry>, c: nat, name: string)
      requires IsView(ids, c) && c > 0 && ids[c - 1].Mid? && ids[c - 1].layer.FuncOf?
      modifies this
      ensures out == old(out) + Expected(ids, c, name) && declStack == old(declStack)
      decreases ViewSize(ids, c), 0
    {
      var ps := ids[c - 1].layer.params;
      var k := DropMods(ids, c - 1);
      ViewSmaller(ids, c, k);
      ghost var rest, list := Expected(ids, k, name), ParamTokens(ps);
      ExpectFunc(ids, c, k, name, Expected(ids, c, name), rest, list);
      if k > 0 {
        out := out + [LPar];
        EmitTypeChain(ids, k, name);
        out := out + [RPar];
      } else {
        ExpectNothing(ids, name, rest);
        EmitName(name);
      }
      out := out + [LPar];
      EmitParams(ps);
      out := out + [RPar];
      Called(old(out), rest, list);
    }

    /** The parameters of a function, without the parentheses around them. */
    method EmitParams(ps: seq<Param>)
      modifies this
      ensures out == old(out) + ParamTokens(ps) && declStack == old(declStack)
      decreases ParamsSize(ps), 0
    {
      if |ps| == 1 && ps[0].chain == VoidType { return; }
      ghost var want := old(out) + ParamList(ps);
      assert ps[0..] == ps;
      for i := 0 to |ps|
        invariant declStack == old(declStack)
        invariant out + (if i == 0 then ParamList(ps) else ListRest(ps, i)) == want
      {
        if i > 0 {
          P.Assoc(out, [Comma], ParamList(ps[i..]));
          out := out + [Comma];
        }
        EmitParam(ps, i);
      }
    }

    method EmitParam(ps: seq<Param>, i: nat)
      requires i < |ps|
      modifies this
      ensures out + ListRest(ps, i + 1) == old(out) + ParamList(ps[i..]) && declStack == old(declStack)
      decreases ParamsSize(ps), 0, 0
    {
      ghost var text := ParamText(ps, i);
      if i == |ps| - 1 && ps[i].chain == VoidType {
        out := out + [Ellipsis];
      } else {
        ParamSmaller(ps, i);
        EmitTypeDecl(ps[i].chain, ps[i].name);
      }
      ListNext(ps, i, ParamList(ps[i..]), text);
      P.Assoc(old(out), text, ListRest(ps, i + 1));
    }
  }

  lemma Regroup(a: seq<Token>, b: seq<Token>, c: seq<Token>, d: seq<Token>)
    ensures a + (b + c + d) == a + b + c + d
  {
  }

  lemma Grouped(a: seq<Token>, rest: seq<Token>, n: nat)
    ensures a + [LPar] + rest + [RPar] + [Dim(n)] == a + ([LPar] + rest + [RPar, Dim(n)])
  {
  }

  lemma Called(a: seq<Token>, rest: seq<Token>, list: seq<Token>)
    ensures a + rest + [LPar] + list + [RPar] == a + (rest + [LPar] + list + [RPar])
    ensures a + [LPar] + rest + [RPar] + [LPar] + list + [RPar] == a + ([LPar] + rest + [RPar] + [LPar] + list + [RPar])
  {
  }
}
