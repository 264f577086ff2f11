/** Reading back what was printed gives the declared type again. */
module DeclaratorProof {
  import opened Common
  import opened Declarator

  /** The declarator that the layers on a stack amount to. */
  ghost function Shape(st: seq<Layer>, name: string): Dtor
    requires st != [] ==> !st[|st| - 1].Qualifier?
  {
    if st == [] then DName(name)
    else
      var m := |st| - 1;
      var k := TakeQuals(st[..m]);
      var inner := Shape(st[..k], name);
      match st[m]
      case Pointer => DPointer(Quals(st[k..m]), inner)
      case ArrayOf(n) => DArray(inner, n)
      case FuncOf(ps) => DFunc(inner, NormParams(ps))
  }

  /** Qualifiers in the order in which they are popped off the stack. */
  function Quals(qs: seq<Layer>): seq<Qual>
    requires forall i :: 0 <= i < |qs| ==> qs[i].Qualifier?
  {
    if qs == [] then [] else [qs[|qs| - 1].q] + Quals(qs[..|qs| - 1])
  }

  lemma Assoc<T>(a: seq<T>, b: seq<T>, c: seq<T>)
    ensures a + b + c == a + (b + c)
  {
  }

  // ----- Qualifiers -----

  lemma {:induction false} ReadsQuals(
    qs: seq<Layer>, rest: seq<Token>, ts: seq<Token>, got: (seq<Qual>, seq<Token>))
    requires forall i :: 0 <= i < |qs| ==> qs[i].Qualifier?
    requires rest != [] ==> !rest[0].QualWord?
    requires ts == QualWords(qs) + rest && got == ReadQuals(ts)
    ensures got == (Quals(qs), rest)
  {
    if qs == [] {
      assert ts == rest;
    } else {
      var m := |qs| - 1;
      var words := QualWords(qs[..m]);
      assert ts == [QualWord(qs[m].q)] + words + rest;
      assert ts[1..] == words + rest;
      ReadsQuals(qs[..m], rest, ts[1..], ReadQuals(ts[1..]));
    }
  }

  lemma {:induction false} QualifyRestores(qs: seq<Layer>, t: seq<Layer>, words: seq<Qual>, res: seq<Layer>)
    requires forall i :: 0 <= i < |qs| ==> qs[i].Qualifier?
    requires words == Quals(qs) && res == Qualify(words, t)
    ensures res == qs + t
  {
    if qs == [] {
      assert qs + t == t;
    } else {
      var init, q := qs[..|qs| - 1], qs[|qs| - 1];
      var t1 := [q] + t;
      assert words[1..] == Quals(init);
      QualifyRestores(init, t1, Quals(init), Qualify(Quals(init), t1));
      assert init + t1 == qs + t;
    }
  }

  /** The count without the qualifiers on top is determined by what it leaves. */
  lemma {:induction false} TakeQualsUnique(st: seq<Layer>, n: nat)
    requires n <= |st| && (forall i :: n <= i < |st| ==> st[i].Qualifier?) && (n > 0 ==> !st[n - 1].Qualifier?)
    ensures n == TakeQuals(st)
  {
  }

  lemma TakeQualsPops(st: seq<Layer>)
    requires st != [] && st[|st| - 1].Qualifier?
    ensures TakeQuals(st) == TakeQuals(st[..|st| - 1])
  {
  }

  lemma TailPopsOne(st: seq<Layer>, name: string, ts: seq<Token>)
    requires st != [] && st[|st| - 1].Qualifier? && ts == Tail(st, name)
    ensures ts == [QualWord(st[|st| - 1].q)] + Tail(st[..|st| - 1], name)
  {
  }

  lemma QualWordsPop(st: seq<Layer>, k: nat)
    requires k < |st| && forall i :: k <= i < |st| ==> st[i].Qualifier?
    ensures QualWords(st[k..]) == [QualWord(st[|st| - 1].q)] + QualWords(st[..|st| - 1][k..])
  {
    var m := |st| - 1;
    assert st[k..][..m - k] == st[..m][k..];
  }

  lemma {:induction false} TailPopsQuals(st: seq<Layer>, name: string, k: nat, ts: seq<Token>, ti: seq<Token>)
    requires k == TakeQuals(st) && ts == Tail(st, name) && ti == Tail(st[..k], name)
    ensures ts == QualWords(st[k..]) + ti
  {
    if k == |st| {
      assert st[k..] == [] && st[..k] == st;
    } else {
      var m := |st| - 1;
      TakeQualsPops(st);
      TailPopsOne(st, name, ts);
      var ts' := Tail(st[..m], name);
      assert st[..m][..k] == st[..k];
      TailPopsQuals(st[..m], name, k, ts', ti);
      QualWordsPop(st, k);
      Assoc([QualWord(st[m].q)], QualWords(st[..m][k..]), ti);
    }
  }

  // ----- One layer of the printer and of the declarator -----

  lemma TailPopsPointer(st: seq<Layer>, name: string, ts: seq<Token>)
    requires st != [] && st[|st| - 1].Pointer? && ts == Tail(st, name)
    ensures ts == [Star] + Tail(st[..|st| - 1], name)
  {
  }

  lemma TailPointer(st: seq<Layer>, name: string, k: nat, ts: seq<Token>, ti: seq<Token>)
    requires st != [] && st[|st| - 1].Pointer? && ts == Tail(st, name)
    requires k == TakeQuals(st[..|st| - 1]) && ti == Tail(st[..k], name)
    ensures ts == [Star] + QualWords(st[k..|st| - 1]) + ti
  {
    var m := |st| - 1;
    TailPopsPointer(st, name, ts);
    var ts' := Tail(st[..m], name);
    assert st[..m][..k] == st[..k] && st[..m][k..] == st[k..m];
    TailPopsQuals(st[..m], name, k, ts', ti);
    Assoc([Star], QualWords(st[k..m]), ti);
  }

  lemma TailArray(st: seq<Layer>, name: string, k: nat, ts: seq<Token>, ti: seq<Token>)
    requires st != [] && st[|st| - 1].ArrayOf? && ts == Tail(st, name)
    requires k == TakeQuals(st[..|st| - 1]) && ti == Tail(st[..k], name)
    ensures var n := st[|st| - 1].n;
            ts == if k == 0 || st[k - 1].ArrayOf? then ti + [Dim(n)] else [LPar] + ti + [RPar, Dim(n)]
  {
    assert st[..|st| - 1][..k] == st[..k];
  }

  lemma TailFunc(st: seq<Layer>, name: string, k: nat, ts: seq<Token>, ti: seq<Token>, list: seq<Token>)
    requires st != [] && st[|st| - 1].FuncOf? && ts == Tail(st, name)
    requires k == TakeQuals(st[..|st| - 1]) && ti == Tail(st[..k], name)
    requires list == ParamTokens(st[|st| - 1].params)
    ensures ts == (if k == 0 then ti else [LPar] + ti + [RPar]) + [LPar] + list + [RPar]
  {
    assert st[..|st| - 1][..k] == st[..k];
  }

  lemma ShapeTop(st: seq<Layer>, name: string, k: nat, d: Dtor, di: Dtor)
    requires st != [] && !st[|st| - 1].Qualifier? && k == TakeQuals(st[..|st| - 1])
    requires d == Shape(st, name) && di == Shape(st[..k], name)
    ensures match st[|st| - 1]
            case Pointer => d == DPointer(Quals(st[k..|st| - 1]), di)
            case ArrayOf(n) => d == DArray(di, n)
            case FuncOf(ps) => d == DFunc(di, NormParams(ps))
  {
  }

  // ----- First tokens -----

  predicate Stop(ts: seq<Token>) {
    ts == [] || ts[0].RPar? || ts[0].Comma? || ts[0].Semicolon?
  }

  /** What can follow a declarator that is still open for suffixes. */
  predicate After(ts: seq<Token>) {
    || Stop(ts)
    || ts[0].Dim?
    || (ts[0].LPar? && |ts| > 1 && (ts[1].RPar? || ts[1].QualWord? || ts[1].Word?))
  }

  /** Layers that read as a direct declarator: not a pointer on top. */
  predicate Direct(st: seq<Layer>) {
    st != [] ==> st[|st| - 1].ArrayOf? || st[|st| - 1].FuncOf?
  }

  lemma {:induction false} TailFirst(st: seq<Layer>, name: string, tt: seq<Token>, ts: seq<Token>, all: seq<Token>)
    requires st != [] && !st[|st| - 1].Qualifier?
    requires tt == Tail(st, name) && all == tt + ts
    ensures BeginsDeclarator(all)
    ensures Direct(st) ==> !all[0].Star?
  {
    var m := |st| - 1;
    var k := TakeQuals(st[..m]);
    var ti := Tail(st[..k], name);
    if k == 0 { TailEmpty(st[..k], name, ti); }
    match st[m]
    case Pointer => TailPointer(st, name, k, tt, ti);
    case FuncOf(ps) => TailFunc(st, name, k, tt, ti, ParamTokens(ps));
    case ArrayOf(n) =>
      TailArray(st, name, k, tt, ti);
      if k > 0 && st[k - 1].ArrayOf? {
        TailFirst(st[..k], name, ti, [Dim(n)] + ts, ti + ([Dim(n)] + ts));
        assert all == ti + ([Dim(n)] + ts);
      }
  }

  lemma TailEmpty(st: seq<Layer>, name: string, ti: seq<Token>)
    requires st == [] && ti == Tail(st, name)
    ensures ti == NameTokens(name)
  {
  }

  lemma PrintFirst(c: Chain, name: string, ts: seq<Token>)
    requires ts == Print(c, name)
    ensures ts != [] && (ts[0].QualWord? || ts[0].Word?)
  {
  }

  /** A parameter list that prints as nothing has no parameters. */
  lemma ParamsEmpty(ps: seq<Param>, ts: seq<Token>)
    requires ts == ParamTokens(ps)
    ensures ts == [] <==> NormParams(ps) == []
    ensures ts != [] ==> ts == ParamList(ps) && NormParams(ps) == NormList(ps)
    ensures ts != [] ==> ps != [] && !(|ps| == 1 && ps[0].chain == VoidType)
    ensures ts != [] ==> (ts[0].QualWord? || ts[0].Word?)
  {
    if ps != [] && !(|ps| == 1 && ps[0].chain == VoidType) {
      PrintFirst(ps[0].chain, ps[0].name, Print(ps[0].chain, ps[0].name));
      assert ts == ParamList(ps);
      assert ts[0] == Print(ps[0].chain, ps[0].name)[0];
    }
  }

  // ----- Reading declarators -----

  // `got` is what reading gives, `want` what it has to give.

  lemma {:induction false} DirectReads(
    st: seq<Layer>, name: string, rest: seq<Token>, ts: seq<Token>, got: Option<(Dtor, seq<Token>)>)
    requires Direct(st) && After(rest)
    requires ts == Tail(st, name) + rest && got == ReadDirect(ts)
    ensures got == ReadSuffixes(Shape(st, name), rest)
    decreases LayersSize(st), 2
  {
    if st == [] {
      NameReads(name, rest, ts, got);
    } else if st[|st| - 1].ArrayOf? {
      ArrayReads(st, name, rest, ts, got);
    } else {
      FuncReads(st, name, rest, ts, got);
    }
  }

  lemma NameReads(name: string, rest: seq<Token>, ts: seq<Token>, got: Option<(Dtor, seq<Token>)>)
    requires After(rest) && ts == NameTokens(name) + rest && got == ReadDirect(ts)
    ensures got == ReadSuffixes(DName(name), rest)
  {
    if name == "" {
      assert ts == rest;
    } else {
      assert ts[1..] == rest;
    }
  }

  /** `( declarator )` followed by suffixes. */
  lemma {:induction false} GroupReads(
    st: seq<Layer>, name: string, ti: seq<Token>, rest: seq<Token>, ts: seq<Token>,
    got: Option<(Dtor, seq<Token>)>)
    requires st != [] && !st[|st| - 1].Qualifier? && ti == Tail(st, name)
    requires ts == [LPar] + ti + [RPar] + rest && got == ReadDirect(ts)
    ensures got == ReadSuffixes(Shape(st, name), rest)
    decreases LayersSize(st), 4
  {
    var after := [RPar] + rest;
    assert ts[1..] == ti + after;
    TailFirst(st, name, ti, after, ts[1..]);
    DeclaratorReads(st, name, after, ts[1..], ReadDeclarator(ts[1..]));
    assert after[1..] == rest;
    GroupResult(ts, Shape(st, name), after, got);
  }

  lemma GroupResult(ts: seq<Token>, d: Dtor, after: seq<Token>, got: Option<(Dtor, seq<Token>)>)
    requires ts != [] && ts[0].LPar? && BeginsDeclarator(ts[1..]) && got == ReadDirect(ts)
    requires ReadDeclarator(ts[1..]) == Some((d, after)) && after != [] && after[0].RPar?
    ensures got == ReadSuffixes(d, after[1..])
  {
  }

  lemma SuffixArray(d: Dtor, n: nat, rest: seq<Token>, want: Option<(Dtor, seq<Token>)>)
    requires want == ReadSuffixes(d, [Dim(n)] + rest)
    ensures want == ReadSuffixes(DArray(d, n), rest)
  {
    assert ([Dim(n)] + rest)[1..] == rest;
  }

  lemma SuffixFunc(d: Dtor, ts: seq<Token>, ps: seq<Param>, rest: seq<Token>, want: Option<(Dtor, seq<Token>)>)
    requires ts != [] && ts[0].LPar? && ReadParams(ts[1..]) == Some((ps, rest))
    requires want == ReadSuffixes(d, ts)
    ensures want == ReadSuffixes(DFunc(d, ps), rest)
  {
  }

  lemma GroupedArray(ti: seq<Token>, n: nat, rest: seq<Token>)
    ensures [LPar] + ti + [RPar, Dim(n)] + rest == [LPar] + ti + [RPar] + ([Dim(n)] + rest)
  {
  }

  lemma CalledName(ti: seq<Token>, list: seq<Token>, rest: seq<Token>)
    ensures ti + [LPar] + list + [RPar] + rest == ti + ([LPar] + list + [RPar] + rest)
  {
  }

  lemma {:induction false} ArrayReads(
    st: seq<Layer>, name: string, rest: seq<Token>, ts: seq<Token>, got: Option<(Dtor, seq<Token>)>)
    requires st != [] && st[|st| - 1].ArrayOf?
    requires ts == Tail(st, name) + rest && got == ReadDirect(ts)
    ensures got == ReadSuffixes(Shape(st, name), rest)
    decreases LayersSize(st), 1
  {
    var n := st[|st| - 1].n;
    var k := TakeQuals(st[..|st| - 1]);
    var inner, after := st[..k], [Dim(n)] + rest;
    var ti, di := Tail(inner, name), Shape(inner, name);
    PrefixSize(st, k);
    ArrayTokens(st, name, k, rest, ts, ti, after);
    ArrayInner(inner, name, ti, after, ts, got);
    SuffixArray(di, n, rest, got);
    ShapeTop(st, name, k, Shape(st, name), di);
  }

  lemma {:induction false} ArrayInner(
    inner: seq<Layer>, name: string, ti: seq<Token>, after: seq<Token>, ts: seq<Token>,
    got: Option<(Dtor, seq<Token>)>)
    requires inner != [] ==> !inner[|inner| - 1].Qualifier?
    requires ti == Tail(inner, name) && after != [] && after[0].Dim? && got == ReadDirect(ts)
    requires ts == if inner == [] || inner[|inner| - 1].ArrayOf? then ti + after else [LPar] + ti + [RPar] + after
    ensures got == ReadSuffixes(Shape(inner, name), after)
    decreases LayersSize(inner), 5
  {
    if inner == [] || inner[|inner| - 1].ArrayOf? {
      DirectReads(inner, name, after, ts, got);
    } else {
      GroupReads(inner, name, ti, after, ts, got);
    }
  }

  lemma ArrayTokens(
    st: seq<Layer>, name: string, k: nat, rest: seq<Token>, ts: seq<Token>, ti: seq<Token>, after: seq<Token>)
    requires st != [] && st[|st| - 1].ArrayOf? && k == TakeQuals(st[..|st| - 1])
    requires ts == Tail(st, name) + rest && ti == Tail(st[..k], name) && after == [Dim(st[|st| - 1].n)] + rest
    ensures ts == if k == 0 || st[k - 1].ArrayOf? then ti + after else [LPar] + ti + [RPar] + after
  {
    var n := st[|st| - 1].n;
    TailArray(st, name, k, Tail(st, name), ti);
    Assoc(ti, [Dim(n)], rest);
    GroupedArray(ti, n, rest);
  }

  lemma {:induction false} FuncReads(
    st: seq<Layer>, name: string, rest: seq<Token>, ts: seq<Token>, got: Option<(Dtor, seq<Token>)>)
    requires st != [] && st[|st| - 1].FuncOf?
    requires ts == Tail(st, name) + rest && got == ReadDirect(ts)
    ensures got == ReadSuffixes(Shape(st, name), rest)
    decreases LayersSize(st), 1
  {
    var m := |st| - 1;
    var ps := st[m].params;
    var k := TakeQuals(st[..m]);
    var inner := st[..k];
    var ti, di, list := Tail(inner, name), Shape(inner, name), ParamTokens(ps);
    FuncSizes(st, k);
    TailFunc(st, name, k, Tail(st, name), ti, list);
    ShapeTop(st, name, k, Shape(st, name), di);
    var after := [LPar] + list + [RPar] + rest;
    ParamsAfter(ps, list, after, rest);
    ParamsRead(ps, rest, after[1..], ReadParams(after[1..]));
    if k == 0 {
      CalledName(ti, list, rest);
      DirectReads(inner, name, after, ts, got);
    } else {
      CalledName([LPar] + ti + [RPar], list, rest);
      GroupReads(inner, name, ti, after, ts, got);
    }
    SuffixFunc(di, after, NormParams(ps), rest, got);
  }

  lemma FuncSizes(st: seq<Layer>, k: nat)
    requires st != [] && st[|st| - 1].FuncOf? && k < |st|
    ensures LayersSize(st[..k]) < LayersSize(st) && ParamsSize(st[|st| - 1].params) < LayersSize(st)
  {
    PrefixSize(st, k);
    assert LayersSize(st) == LayersSize(st[..|st| - 1]) + LayerSize(st[|st| - 1]);
  }

  lemma ParamsAfter(ps: seq<Param>, list: seq<Token>, after: seq<Token>, rest: seq<Token>)
    requires list == ParamTokens(ps) && after == [LPar] + list + [RPar] + rest
    ensures After(after) && after[1..] == list + [RPar] + rest
  {
    ParamsEmpty(ps, list);
    assert list != [] ==> after[1] == list[0];
  }

  lemma {:induction false} DeclaratorReads(
    st: seq<Layer>, name: string, rest: seq<Token>, ts: seq<Token>, got: Option<(Dtor, seq<Token>)>)
    requires st != [] ==> !st[|st| - 1].Qualifier?
    requires Stop(rest)
    requires ts == Tail(st, name) + rest && got == ReadDeclarator(ts)
    ensures got == Some((Shape(st, name), rest))
    decreases LayersSize(st), 3
  {
    if Direct(st) {
      NotStar(st, name, rest, ts);
      DirectReads(st, name, rest, ts, ReadDirect(ts));
      DirectResult(ts, Shape(st, name), rest, got);
    } else {
      PointerReads(st, name, rest, ts, got);
    }
  }

  lemma {:induction false} PointerReads(
    st: seq<Layer>, name: string, rest: seq<Token>, ts: seq<Token>, got: Option<(Dtor, seq<Token>)>)
    requires st != [] && st[|st| - 1].Pointer? && Stop(rest)
    requires ts == Tail(st, name) + rest && got == ReadDeclarator(ts)
    ensures got == Some((Shape(st, name), rest))
    decreases LayersSize(st), 2
  {
    var k := TakeQuals(st[..|st| - 1]);
    var inner := st[..k];
    var ti, di := Tail(inner, name), Shape(inner, name);
    var after := ti + rest;
    PrefixSize(st, k);
    PointerStart(st, name, k, rest, ts, ti, after);
    DeclaratorReads(inner, name, rest, after, ReadDeclarator(after));
    PointerResult(ts, Quals(st[k..|st| - 1]), after, di, rest, got);
    ShapeTop(st, name, k, Shape(st, name), di);
  }

  lemma PointerStart(
    st: seq<Layer>, name: string, k: nat, rest: seq<Token>, ts: seq<Token>, ti: seq<Token>, after: seq<Token>)
    requires st != [] && st[|st| - 1].Pointer? && Stop(rest) && k == TakeQuals(st[..|st| - 1])
    requires ts == Tail(st, name) + rest && ti == Tail(st[..k], name) && after == ti + rest
    ensures ts != [] && ts[0].Star? && ReadQuals(ts[1..]) == (Quals(st[k..|st| - 1]), after)
  {
    var qs := st[k..|st| - 1];
    TailPointer(st, name, k, Tail(st, name), ti);
    PointerTokens(QualWords(qs), ti, rest);
    NotQual(st[..k], name, rest, after);
    ReadsQuals(qs, after, ts[1..], ReadQuals(ts[1..]));
  }

  lemma PointerTokens(qs: seq<Token>, ti: seq<Token>, rest: seq<Token>)
    ensures ([Star] + qs + ti + rest)[1..] == qs + (ti + rest)
  {
  }

  lemma NotStar(st: seq<Layer>, name: string, rest: seq<Token>, ts: seq<Token>)
    requires Direct(st) && Stop(rest) && ts == Tail(st, name) + rest
    ensures ts != [] ==> !ts[0].Star?
  {
    if st == [] { TailEmpty(st, name, Tail(st, name)); } else { TailFirst(st, name, Tail(st, name), rest, ts); }
  }

  lemma NotQual(st: seq<Layer>, name: string, rest: seq<Token>, ts: seq<Token>)
    requires st != [] ==> !st[|st| - 1].Qualifier?
    requires Stop(rest) && ts == Tail(st, name) + rest
    ensures ts != [] ==> !ts[0].QualWord?
  {
    if st == [] { TailEmpty(st, name, Tail(st, name)); } else { TailFirst(st, name, Tail(st, name), rest, ts); }
  }

  lemma DirectResult(ts: seq<Token>, d: Dtor, rest: seq<Token>, got: Option<(Dtor, seq<Token>)>)
    requires got == ReadDeclarator(ts) && (ts != [] ==> !ts[0].Star?)
    requires ReadDirect(ts) == ReadSuffixes(d, rest) && Stop(rest)
    ensures got == Some((d, rest))
  {
  }

  lemma PointerResult(
    ts: seq<Token>, qs: seq<Qual>, after: seq<Token>, d: Dtor, rest: seq<Token>, got: Option<(Dtor, seq<Token>)>)
    requires ts != [] && ts[0].Star? && got == ReadDeclarator(ts)
    requires ReadQuals(ts[1..]) == (qs, after) && ReadDeclarator(after) == Some((d, rest))
    ensures got == Some((DPointer(qs, d), rest))
  {
  }

  // ----- Reading parameter lists -----

  lemma {:induction false} ParamsRead(
    ps: seq<Param>, rest: seq<Token>, ts: seq<Token>, got: Option<(seq<Param>, seq<Token>)>)
    requires ts == ParamTokens(ps) + [RPar] + rest && got == ReadParams(ts)
    ensures got == Some((NormParams(ps), rest))
    decreases ParamsSize(ps), 6
  {
    var list := ParamTokens(ps);
    ParamsEmpty(ps, list);
    if list == [] {
      assert ts[1..] == rest;
    } else {
      assert ts[0] == list[0];
      ListReads(ps, rest, ts, ReadParamList(ts));
    }
  }

  lemma {:induction false} ListReads(
    ps: seq<Param>, rest: seq<Token>, ts: seq<Token>, got: Option<(seq<Param>, seq<Token>)>)
    requires ps != [] && !(|ps| == 1 && ps[0].chain == VoidType)
    requires ts == ParamList(ps) + [RPar] + rest && got == ReadParamList(ts)
    ensures got == Some((NormList(ps), rest))
    decreases ParamsSize(ps), 5
  {
    var c, x := ps[0].chain, ps[0].name;
    var tp := Print(c, x);
    var list := if |ps| == 1 then [] else ParamList(ps[1..]);
    ListTokens(ps, ParamList(ps), tp, list);
    var after := if |ps| == 1 then [RPar] + rest else [Comma] + (list + [RPar] + rest);
    ListSplits(tp, list, rest);
    DeclReads(c, x, after, ts, ReadDecl(ts));
    NormListFirst(ps, NormList(ps));
    if |ps| == 1 {
      LastParam(ts, Norm(c), x, rest, got);
    } else if |ps| == 2 && ps[1].chain == VoidType {
      LastEllipsis(ts, Norm(c), x, rest, got);
    } else {
      ListFirst(ps[1..], list);
      var more := list + [RPar] + rest;
      ListReads(ps[1..], rest, more, ReadParamList(more));
      MoreParams(ts, Norm(c), x, more, NormList(ps[1..]), rest, got);
    }
  }

  lemma ListSplits(tp: seq<Token>, list: seq<Token>, rest: seq<Token>)
    ensures tp + [RPar] + rest == tp + ([RPar] + rest)
    ensures tp + [Comma] + list + [RPar] + rest == tp + ([Comma] + (list + [RPar] + rest))
  {
  }

  lemma ListTokens(ps: seq<Param>, all: seq<Token>, tp: seq<Token>, list: seq<Token>)
    requires ps != [] && !(|ps| == 1 && ps[0].chain == VoidType)
    requires all == ParamList(ps) && tp == Print(ps[0].chain, ps[0].name)
    requires list == if |ps| == 1 then [] else ParamList(ps[1..])
    ensures all == if |ps| == 1 then tp else tp + [Comma] + list
    ensures |ps| == 2 && ps[1].chain == VoidType ==> list == [Ellipsis]
  {
  }

  lemma NormListFirst(ps: seq<Param>, norm: seq<Param>)
    requires ps != [] && !(|ps| == 1 && ps[0].chain == VoidType) && norm == NormList(ps)
    ensures norm == [Param(ps[0].name, Norm(ps[0].chain))] + NormList(ps[1..])
    ensures |ps| == 1 ==> norm == [Param(ps[0].name, Norm(ps[0].chain))]
    ensures |ps| == 2 && ps[1].chain == VoidType ==>
              norm == [Param(ps[0].name, Norm(ps[0].chain)), Param("", VoidType)]
  {
  }

  lemma ListFirst(ps: seq<Param>, list: seq<Token>)
    requires ps != [] && !(|ps| == 1 && ps[0].chain == VoidType) && list == ParamList(ps)
    ensures list != [] && (list[0].QualWord? || list[0].Word?)
  {
    PrintFirst(ps[0].chain, ps[0].name, Print(ps[0].chain, ps[0].name));
    assert list[0] == Print(ps[0].chain, ps[0].name)[0];
  }

  lemma LastParam(ts: seq<Token>, c: Chain, x: string, rest: seq<Token>, got: Option<(seq<Param>, seq<Token>)>)
    requires ReadDecl(ts) == Some((c, x, [RPar] + rest)) && got == ReadParamList(ts)
    ensures got == Some(([Param(x, c)], rest))
  {
    assert ([RPar] + rest)[1..] == rest;
  }

  lemma LastEllipsis(ts: seq<Token>, c: Chain, x: string, rest: seq<Token>, got: Option<(seq<Param>, seq<Token>)>)
    requires ReadDecl(ts) == Some((c, x, [Comma] + ([Ellipsis] + [RPar] + rest))) && got == ReadParamList(ts)
    ensures got == Some(([Param(x, c), Param("", VoidType)], rest))
  {
    assert ([Comma] + ([Ellipsis] + [RPar] + rest))[3..] == rest;
  }

  lemma MoreParams(
    ts: seq<Token>, c: Chain, x: string, more: seq<Token>, ps: seq<Param>, rest: seq<Token>,
    got: Option<(seq<Param>, seq<Token>)>)
    requires ReadDecl(ts) == Some((c, x, [Comma] + more)) && got == ReadParamList(ts)
    requires more != [] && !more[0].Ellipsis?
    requires ReadParamList(more) == Some((ps, rest))
    ensures got == Some(([Param(x, c)] + ps, rest))
  {
    assert ([Comma] + more)[1..] == more;
  }

  // ----- The type that is read -----

  /** Taking the first layer off. */
  lemma NormFirst(ls: seq<Layer>, norm: seq<Layer>)
    requires ls != [] && norm == NormLayers(ls)
    ensures norm == NormHead(ls[0], Keeps(ls[1..])) + NormLayers(ls[1..])
  {
  }

  ghost function NormHead(l: Layer, keep: bool): seq<Layer> {
    match l
    case Qualifier(_) => if keep then [l] else []
    case FuncOf(ps) => [FuncOf(NormParams(ps))]
    case _ => [l]
  }

  lemma {:induction false} NormQuals(qs: seq<Layer>, x: Layer, norm: seq<Layer>)
    requires forall i :: 0 <= i < |qs| ==> qs[i].Qualifier?
    requires !x.Qualifier? && norm == NormLayers(qs + [x])
    ensures norm == (if x.Pointer? then qs else []) + NormHead(x, true)
    ensures Keeps(qs + [x]) == x.Pointer?
    decreases |qs|
  {
    NormFirst(qs + [x], norm);
    if qs == [] {
      assert (qs + [x])[1..] == [];
    } else {
      assert (qs + [x])[1..] == qs[1..] + [x];
      NormQuals(qs[1..], x, NormLayers(qs[1..] + [x]));
      assert [qs[0]] + qs[1..] == qs;
    }
  }

  lemma {:induction false} KeepsSplits(a: seq<Layer>, b: seq<Layer>)
    requires a != [] && !a[|a| - 1].Qualifier?
    ensures Keeps(a + b) == Keeps(a)
  {
    if a[0].Qualifier? {
      assert (a + b)[1..] == a[1..] + b;
      KeepsSplits(a[1..], b);
    }
  }

  lemma NormHeadKeeps(l: Layer, k: bool, k': bool)
    requires l.Qualifier? ==> k == k'
    ensures NormHead(l, k) == NormHead(l, k')
  {
  }

  lemma {:induction false} NormSplits(a: seq<Layer>, b: seq<Layer>, norm: seq<Layer>, na: seq<Layer>, nb: seq<Layer>)
    requires a != [] ==> !a[|a| - 1].Qualifier?
    requires norm == NormLayers(a + b) && na == NormLayers(a) && nb == NormLayers(b)
    ensures norm == na + nb
    decreases |a|
  {
    if a == [] {
      assert a + b == b;
    } else {
      assert (a + b)[1..] == a[1..] + b;
      var rest, ra := NormLayers(a[1..] + b), NormLayers(a[1..]);
      NormSplits(a[1..], b, rest, ra, nb);
      NormFirst(a + b, norm);
      NormFirst(a, na);
      if a[0].Qualifier? { KeepsSplits(a[1..], b); }
      NormHeadKeeps(a[0], Keeps(a[1..] + b), Keeps(a[1..]));
      Assoc(NormHead(a[0], Keeps(a[1..])), ra, nb);
    }
  }

  lemma {:induction false} ShapeType(
    st: seq<Layer>, name: string, t: seq<Layer>, d: Dtor, norm: seq<Layer>, got: seq<Layer>)
    requires st != [] ==> !st[|st| - 1].Qualifier?
    requires d == Shape(st, name) && norm == NormLayers(st) && got == TypeOf(d, t)
    ensures got == norm + t
    decreases |st|
  {
    if st != [] {
      var m := |st| - 1;
      var k := TakeQuals(st[..m]);
      var inner, qs, x := st[..k], st[k..m], st[m];
      var di, ni, nx := Shape(inner, name), NormLayers(inner), NormLayers(qs + [x]);
      SplitTop(st, k);
      ShapeTop(st, name, k, d, di);
      NormSplits(inner, qs + [x], norm, ni, nx);
      NormQuals(qs, x, nx);
      LayerType(x, qs, nx, t, d, di);
      ShapeType(inner, name, nx + t, di, ni, got);
      Assoc(ni, nx, t);
    }
  }

  lemma {:induction false} ShapeName(st: seq<Layer>, name: string)
    requires st != [] ==> !st[|st| - 1].Qualifier?
    ensures NameOf(Shape(st, name)) == name
    decreases |st|
  {
    if st != [] { ShapeName(st[..TakeQuals(st[..|st| - 1])], name); }
  }

  lemma SplitTop(st: seq<Layer>, k: nat)
    requires k < |st|
    ensures st == st[..k] + (st[k..|st| - 1] + [st[|st| - 1]])
  {
  }

  /** One layer of a declarator adds the layer, with the qualifiers that are kept. */
  lemma LayerType(x: Layer, qs: seq<Layer>, nx: seq<Layer>, t: seq<Layer>, d: Dtor, di: Dtor)
    requires forall i :: 0 <= i < |qs| ==> qs[i].Qualifier?
    requires !x.Qualifier? && nx == (if x.Pointer? then qs else []) + NormHead(x, true)
    requires match x
             case Pointer => d == DPointer(Quals(qs), di)
             case ArrayOf(n) => d == DArray(di, n)
             case FuncOf(ps) => d == DFunc(di, NormParams(ps))
    ensures TypeOf(d, t) == TypeOf(di, nx + t)
  {
    if x.Pointer? {
      QualifyRestores(qs, [Pointer] + t, Quals(qs), Qualify(Quals(qs), [Pointer] + t));
      Assoc(qs, [Pointer], t);
    } else {
      assert nx == NormHead(x, true);
    }
  }

  lemma {:induction false} NormOnlyQuals(qs: seq<Layer>)
    requires forall i :: 0 <= i < |qs| ==> qs[i].Qualifier?
    ensures NormLayers(qs) == qs && Keeps(qs)
  {
    if qs != [] {
      NormOnlyQuals(qs[1..]);
      assert [qs[0]] + qs[1..] == qs;
    }
  }

  lemma DeclStart(
    c: Chain, name: string, k: nat, rest: seq<Token>, ts: seq<Token>, tail: seq<Token>, after: seq<Token>)
    requires k == TakeQuals(c.layers) && ts == Print(c, name) + rest && tail == Tail(c.layers[..k], name)
    requires after == [Word(c.base)] + (tail + rest)
    ensures ReadQuals(ts) == (Quals(c.layers[k..]), after) && after[1..] == tail + rest
  {
    var qs := c.layers[k..];
    assert ts == QualWords(qs) + after;
    ReadsQuals(qs, after, ts, ReadQuals(ts));
  }

  /** Printing a declaration of any chain of pointers, arrays, functions and qualifiers, and
      reading it by the C grammar, gives back the name and the same chain, up to the
      qualifiers that were directly on arrays and functions and the treatment of `void`
      parameters. The name, and any parameter's name, may be empty. */
  lemma {:induction false} DeclReads(
    c: Chain, name: string, rest: seq<Token>, ts: seq<Token>, got: Option<(Chain, string, seq<Token>)>)
    requires Stop(rest)
    requires ts == Print(c, name) + rest && got == ReadDecl(ts)
    ensures got == Some((Norm(c), name, rest))
    decreases ChainSize(c), 4
  {
    var k := TakeQuals(c.layers);
    var st := c.layers[..k];
    var tail := Tail(st, name);
    var after := [Word(c.base)] + (tail + rest);
    PrefixSize(c.layers, k);
    DeclStart(c, name, k, rest, ts, tail, after);
    DeclaratorReads(st, name, rest, after[1..], ReadDeclarator(after[1..]));
    DeclResult(ts, Quals(c.layers[k..]), after, Shape(st, name), rest, got);
    DeclType(c, name, k);
  }

  lemma DeclResult(
    ts: seq<Token>, qs: seq<Qual>, after: seq<Token>, d: Dtor, rest: seq<Token>,
    got: Option<(Chain, string, seq<Token>)>)
    requires got == ReadDecl(ts) && ReadQuals(ts) == (qs, after) && after != [] && after[0].Word?
    requires ReadDeclarator(after[1..]) == Some((d, rest))
    ensures got == Some((Chain(TypeOf(d, Qualify(qs, [])), after[0].base), NameOf(d), rest))
  {
  }

  lemma DeclType(c: Chain, name: string, k: nat)
    requires k == TakeQuals(c.layers)
    ensures var d := Shape(c.layers[..k], name);
            TypeOf(d, Qualify(Quals(c.layers[k..]), [])) == NormLayers(c.layers) && NameOf(d) == name
  {
    var st, qs := c.layers[..k], c.layers[k..];
    QualifyRestores(qs, [], Quals(qs), Qualify(Quals(qs), []));
    assert qs + [] == qs;
    ShapeType(st, name, qs, Shape(st, name), NormLayers(st), TypeOf(Shape(st, name), qs));
    ShapeName(st, name);
    assert c.layers == st + qs;
    NormSplits(st, qs, NormLayers(c.layers), NormLayers(st), NormLayers(qs));
    NormOnlyQuals(qs);
  }

  /** The same for a whole declaration. */
  lemma PrintReadsBack(c: Chain, name: string)
    ensures ReadDecl(Print(c, name) + [Semicolon]) == Some((Norm(c), name, [Semicolon]))
  {
    var ts := Print(c, name) + [Semicolon];
    DeclReads(c, name, [Semicolon], ts, ReadDecl(ts));
  }

  /** Two declarations printed alike declare the same name with the same type, once both are
      normalised. */
  lemma PrintedAlike(c: Chain, x: string, c': Chain, x': string)
    requires Print(c, x) == Print(c', x')
    ensures x == x' && Norm(c) == Norm(c')
  {
    PrintReadsBack(c, x);
    PrintReadsBack(c', x');
  }
}
