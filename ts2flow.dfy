/**
 * Conversion of TypeScript type annotations to Flow type annotations
 * (lib/AST/TS2Flow.cpp).
 *
 * The AST is a value: every node kind the converter treats specially has a
 * constructor, and any other node is `Other`, whose children are its fields
 * in order: a single-node field or a node list. Source ranges are not modelled; diagnostics carry the node they are
 * about. The converter's error manager is the `errors` field of `Converter`.
 */
module Ts2Flow {
  import opened Wrappers

  // ---------------------------------------------------------------------
  // The AST
  // ---------------------------------------------------------------------

  /** The TS keyword types the converter knows. */
  datatype Keyword = AnyKw | NumberKw | BooleanKw | StringKw | SymbolKw | VoidKw | UndefinedKw | UnknownKw | NeverKw | BigIntKw

  /** The Flow keyword type annotations. */
  datatype FlowKeyword = AnyType | NumberType | BooleanType | StringType | SymbolType | VoidType | MixedType | EmptyType | BigIntType

  /** The literal inside a TS literal type, with its source text where the Flow node keeps it. */
  datatype Literal =
    | NullLiteral
    | NumericLiteral(num: real, numRaw: string)
    | StringLiteral(str: string, strRaw: string)
    | BooleanLiteral(b: bool, boolRaw: string)
    | BigIntLiteral(bigint: string)
    | OtherLiteral(literalKind: string)

  /** The TS modifiers of a class property. */
  datatype Modifiers = Modifiers(readonly: bool, accessibility: bool)

  datatype Node =
    // TS nodes
    | TSTypeAnnotation(tsAnnotation: Option<Node>)
    | TSKeyword(keyword: Keyword)
    | TSLiteralType(literal: Literal)
    | TSArrayType(tsElement: Option<Node>)
    | TSTypeReference(tsTypeName: Node, tsRefParams: Option<Node>)
    | TSTypeAliasDeclaration(tsAliasId: Node, tsAliasParams: Option<Node>, tsAliased: Option<Node>)
    | TSFunctionType(tsParams: seq<Node>, tsReturn: Option<Node>, tsFnParams: Option<Node>)
    | TSOther(tsKind: string)
    // Flow nodes
    | TypeAnnotation(annotation: Option<Node>)
    | KeywordTypeAnnotation(flowKeyword: FlowKeyword)
    | NullLiteralTypeAnnotation
    | NumberLiteralTypeAnnotation(numValue: real, numText: string)
    | StringLiteralTypeAnnotation(strValue: string, strText: string)
    | BooleanLiteralTypeAnnotation(boolValue: bool, boolText: string)
    | BigIntLiteralTypeAnnotation(bigintText: string)
    | ArrayTypeAnnotation(elementType: Option<Node>)
    | GenericTypeAnnotation(genericId: Node, genericParams: Option<Node>)
    | TypeAlias(aliasId: Node, aliasParams: Option<Node>, right: Option<Node>)
    | FunctionTypeAnnotation(params: seq<Node>, thisParam: Option<Node>, returnType: Option<Node>,
                             rest: Option<Node>, fnTypeParams: Option<Node>)
    | FunctionTypeParam(paramName: Option<Node>, paramType: Node, paramOptional: bool)
    // Other ESTree nodes
    | Identifier(name: string, idAnnotation: Option<Node>, optional: bool)
    | RestElement(argument: Node)
    | FunctionDeclaration(declParams: seq<Node>, declBody: Node, declReturn: Option<Node>)
    | ClassProperty(propValue: Option<Node>, propAnnotation: Option<Node>, modifiers: Option<Modifiers>)
    | Other(kind: string, children: seq<Child>)

  /** A field of an `Other` node: a single node (a null field is absent), or a node list. */
  datatype Child = Slot(node: Node) | List(nodes: seq<Node>)

  /** The node is one of the TS node kinds. */
  predicate IsTs(n: Node)
  {
    n.TSTypeAnnotation? || n.TSKeyword? || n.TSLiteralType? || n.TSArrayType? || n.TSTypeReference? ||
    n.TSTypeAliasDeclaration? || n.TSFunctionType? || n.TSOther?
  }

  /** The diagnostics the conversion and its validation report. */
  datatype Diag =
    | UnsupportedConversion(node: Node)
    | UnsupportedLiteral(literal: Literal)
    | UnimplementedTypeParams
    | FailedFunctionType(param: Node)
    | FailedTypeAnnotation(ident: Node)
    | FailedRestElement(restElement: Node)
    | UnsupportedModifiers
    | RemainingTs(remaining: Node, parent: Option<Node>)

  // ---------------------------------------------------------------------
  // Keyword and literal types (lines 188-236)
  // ---------------------------------------------------------------------

  /** The Flow annotation for each TS keyword. */
  function FlowKeywordOf(k: Keyword): FlowKeyword
  {
    match k
    case AnyKw => AnyType
    case NumberKw => NumberType
    case BooleanKw => BooleanType
    case StringKw => StringType
    case SymbolKw => SymbolType
    case VoidKw => VoidType
    case UndefinedKw => VoidType
    case UnknownKw => MixedType
    case NeverKw => EmptyType
    case BigIntKw => BigIntType
  }

  /**
   * The keyword mapping loses information only where `void` and `undefined`
   * both become `void`, and every Flow keyword type is produced.
   */
  lemma KeywordMapping(a: Keyword, b: Keyword, f: FlowKeyword)
    ensures FlowKeywordOf(a) == FlowKeywordOf(b) <==> a == b || (a in {VoidKw, UndefinedKw} && b in {VoidKw, UndefinedKw})
    ensures exists k :: FlowKeywordOf(k) == f
  {
    match f
    case AnyType => assert FlowKeywordOf(AnyKw) == f;
    case NumberType => assert FlowKeywordOf(NumberKw) == f;
    case BooleanType => assert FlowKeywordOf(BooleanKw) == f;
    case StringType => assert FlowKeywordOf(StringKw) == f;
    case SymbolType => assert FlowKeywordOf(SymbolKw) == f;
    case VoidType => assert FlowKeywordOf(VoidKw) == f;
    case MixedType => assert FlowKeywordOf(UnknownKw) == f;
    case EmptyType => assert FlowKeywordOf(NeverKw) == f;
    case BigIntType => assert FlowKeywordOf(BigIntKw) == f;
  }

  /** The Flow literal type for a TS literal type, or an error for an unsupported literal. */
  function LiteralConverted(l: Literal): (r: (Option<Node>, seq<Diag>))
    ensures r.0.None? <==> l.OtherLiteral?
    ensures r.1 == if l.OtherLiteral? then [UnsupportedLiteral(l)] else []
  {
    match l
    case NullLiteral => (Some(NullLiteralTypeAnnotation), [])
    case NumericLiteral(v, raw) => (Some(NumberLiteralTypeAnnotation(v, raw)), [])
    case StringLiteral(v, raw) => (Some(StringLiteralTypeAnnotation(v, raw)), [])
    case BooleanLiteral(v, raw) => (Some(BooleanLiteralTypeAnnotation(v, raw)), [])
    case BigIntLiteral(v) => (Some(BigIntLiteralTypeAnnotation(v)), [])
    case OtherLiteral(_) => (None, [UnsupportedLiteral(l)])
  }

  /** The literal a Flow literal type annotation denotes. */
  function LiteralOf(n: Node): Option<Literal>
  {
    match n
    case NullLiteralTypeAnnotation => Some(NullLiteral)
    case NumberLiteralTypeAnnotation(v, raw) => Some(NumericLiteral(v, raw))
    case StringLiteralTypeAnnotation(v, raw) => Some(StringLiteral(v, raw))
    case BooleanLiteralTypeAnnotation(v, raw) => Some(BooleanLiteral(v, raw))
    case BigIntLiteralTypeAnnotation(v) => Some(BigIntLiteral(v))
    case _ => None
  }

  /** A converted literal type denotes the same literal, with the same value and source text. */
  lemma LiteralRoundTrip(l: Literal)
    requires !l.OtherLiteral?
    ensures LiteralOf(LiteralConverted(l).0.value) == Some(l)
  {
  }

  // ---------------------------------------------------------------------
  // convertTSNode and the function-type conversion (lines 150-354)
  // ---------------------------------------------------------------------

  /** The error for type parameters, which are not converted. */
  function TypeParamsDiags(tp: Option<Node>): seq<Diag>
  {
    if tp.Some? then [UnimplementedTypeParams] else []
  }

  /** A TypeAnnotation wrapper is dropped around a parameter's type. */
  function Unwrapped(a: Option<Node>): Option<Node>
  {
    if a.Some? && a.value.TypeAnnotation? then a.value.annotation else a
  }

  /** The parameter list starts with an identifier named `this`. */
  predicate HasThis(ps: seq<Node>)
  {
    ps != [] && ps[0].Identifier? && ps[0].name == "this"
  }

  /** The parameter list ends with a rest element. */
  predicate HasRest(ps: seq<Node>)
  {
    ps != [] && ps[|ps| - 1].RestElement?
  }

  /**
   * convertTSNode: a missing node or a node that is not a TS node is
   * returned as it is; a supported TS node becomes its Flow counterpart;
   * any other TS node is an error and yields nothing.
   */
  function Converted(o: Option<Node>): (r: (Option<Node>, seq<Diag>))
    ensures o.None? || !IsTs(o.value) ==> r == (o, [])
    ensures o.Some? && o.value.TSOther? ==> r == (None, [UnsupportedConversion(o.value)])
    decreases o
  {
    if o.None? || !IsTs(o.value) then (o, [])
    else
      match o.value
      case TSTypeAnnotation(a) =>
        var c := Converted(a);
        (Some(TypeAnnotation(c.0)), c.1)
      case TSKeyword(k) => (Some(KeywordTypeAnnotation(FlowKeywordOf(k))), [])
      case TSLiteralType(l) => LiteralConverted(l)
      case TSArrayType(e) =>
        var c := Converted(e);
        (Some(ArrayTypeAnnotation(c.0)), c.1)
      case TSTypeReference(typeName, tp) => (Some(GenericTypeAnnotation(typeName, tp)), TypeParamsDiags(tp))
      case TSTypeAliasDeclaration(id, tp, a) =>
        var c := Converted(a);
        (Some(TypeAlias(id, tp, c.0)), TypeParamsDiags(tp) + c.1)
      case TSFunctionType(_, _, _) => FunctionTypeConverted(o.value)
      case TSOther(_) => (None, [UnsupportedConversion(o.value)])
      case _ => (o, [])
  }

  /**
   * convertIdentifierToFunctionTypeParam: the parameter's type is its
   * converted annotation without the TypeAnnotation wrapper, and a parameter
   * without one is an error. A `this` parameter has no name; any other keeps
   * the identifier as its name, with the annotation and the optional flag
   * cleared.
   */
  function IdParamConverted(id: Node): (r: (Option<Node>, seq<Diag>))
    requires id.Identifier?
    ensures r.0.None? <==> Unwrapped(Converted(id.idAnnotation).0).None?
    ensures r.0.Some? ==>
      r.0.value.FunctionTypeParam? &&
      r.0.value.paramType == Unwrapped(Converted(id.idAnnotation).0).value &&
      r.0.value.paramOptional == id.optional &&
      r.0.value.paramName == (if id.name == "this" then None else Some(Identifier(id.name, None, false)))
    decreases id
  {
    var c := Converted(id.idAnnotation);
    var ty := Unwrapped(c.0);
    if ty.None? then (None, c.1 + [FailedTypeAnnotation(id)])
    else
      var name := if id.name == "this" then None else Some(Identifier(id.name, None, false));
      (Some(FunctionTypeParam(name, ty.value, id.optional)), c.1)
  }

  /** What the parameter conversion as written does: it returns, or it dereferences a null node. */
  datatype IdParamOutcome = Returns(param: Option<Node>, diags: seq<Diag>) | NullDereference

  /**
   * convertIdentifierToFunctionTypeParam as written: the TypeAnnotation
   * wrapper is tested with `dyn_cast`, which must not be given a null node,
   * before the null check that was meant to report the missing type.
   */
  function IdParamAsWritten(id: Node): (r: IdParamOutcome)
    requires id.Identifier?
    ensures r.NullDereference? <==> Converted(id.idAnnotation).0.None?
  {
    var c := Converted(id.idAnnotation);
    if c.0.None? then NullDereference
    else
      var ty := if c.0.value.TypeAnnotation? then c.0.value.annotation else c.0;
      if ty.None? then Returns(None, c.1 + [FailedTypeAnnotation(id)])
      else
        var name := if id.name == "this" then None else Some(Identifier(id.name, None, false));
        Returns(Some(FunctionTypeParam(name, ty.value, id.optional)), c.1)
  }

  /** Wherever the code as written does not dereference null, it agrees with the corrected conversion. */
  lemma IdParamAsWrittenAgrees(id: Node)
    requires id.Identifier? && Converted(id.idAnnotation).0.Some?
    ensures IdParamAsWritten(id) == Returns(IdParamConverted(id).0, IdParamConverted(id).1)
  {
  }

  /**
   * A function-type parameter without a type annotation reaches `dyn_cast`
   * with a null node, where the corrected conversion reports that the type
   * annotation could not be converted.
   */
  lemma UnannotatedParamDereferencesNull(name: string, optional: bool)
    ensures IdParamAsWritten(Identifier(name, None, optional)) == NullDereference
    ensures IdParamConverted(Identifier(name, None, optional)) == (None, [FailedTypeAnnotation(Identifier(name, None, optional))])
  {
    var id := Identifier(name, None, optional);
    assert Converted(None) == (None, []);
    assert [] + [FailedTypeAnnotation(id)] == [FailedTypeAnnotation(id)];
  }

  /** So the corrected conversion of `(x) => void` fails with both diagnostics instead. */
  lemma UnannotatedFunctionTypeFails()
    ensures var x := Identifier("x", None, false);
      FunctionTypeConverted(TSFunctionType([x], Some(TSKeyword(VoidKw)), None)) ==
        (None, [FailedTypeAnnotation(x), FailedFunctionType(x)])
  {
    var x := Identifier("x", None, false);
    UnannotatedParamDereferencesNull("x", false);
    assert !HasThis([x]) && !HasRest([x]);
    assert [x][..0] == [] && [x][0] == x;
    assert ParamsConverted([]) == (Some([]), []);
    assert [] + [FailedTypeAnnotation(x)] + [FailedFunctionType(x)] == [FailedTypeAnnotation(x), FailedFunctionType(x)];
    assert ParamsConverted([x]) == (None, [FailedTypeAnnotation(x), FailedFunctionType(x)]);
    assert Converted(Some(TSKeyword(VoidKw))).1 == [];
    var d := ParamsConverted([x]).1;
    assert TypeParamsDiags(None) + [] + [] + [] + d == d;
  }

  /** convertRestElementToFunctionTypeParam: only an identifier argument converts. */
  function RestConverted(r: Node): (Option<Node>, seq<Diag>)
    requires r.RestElement?
    decreases r
  {
    if r.argument.Identifier? then IdParamConverted(r.argument)
    else (None, [FailedRestElement(r)])
  }

  /**
   * The loop over the remaining parameters: every one must be an identifier
   * that converts; the first that is not ends the conversion with an error.
   */
  function ParamsConverted(ps: seq<Node>): (r: (Option<seq<Node>>, seq<Diag>))
    ensures r.0.Some? ==> |r.0.value| == |ps|
    ensures r.0.None? ==> r.1 != [] && r.1[|r.1| - 1].FailedFunctionType?
    decreases ps
  {
    if ps == [] then (Some([]), [])
    else
      var acc := ParamsConverted(ps[..|ps| - 1]);
      var p := ps[|ps| - 1];
      if acc.0.None? then acc
      else if !p.Identifier? then (None, acc.1 + [FailedFunctionType(p)])
      else
        var c := IdParamConverted(p);
        if c.0.None? then (None, acc.1 + c.1 + [FailedFunctionType(p)])
        else (Some(acc.0.value + [c.0.value]), acc.1 + c.1)
  }

  /** The parameters left once a leading `this` and a trailing rest element are taken out. */
  function MiddleParams(ps: seq<Node>): seq<Node>
  {
    var p1 := if HasThis(ps) then ps[1..] else ps;
    if HasRest(p1) then p1[..|p1| - 1] else p1
  }

  /** The conversion of a TS function type. */
  function FunctionTypeConverted(n: Node): (r: (Option<Node>, seq<Diag>))
    requires n.TSFunctionType?
    ensures r.0.Some? ==>
      r.0.value.FunctionTypeAnnotation? && r.0.value.returnType == Converted(n.tsReturn).0 &&
      r.0.value.fnTypeParams == n.tsFnParams
    ensures TypeParamsDiags(n.tsFnParams) <= r.1
    decreases n
  {
    var ret := Converted(n.tsReturn);
    var p0 := n.tsParams;
    var th := if HasThis(p0) then IdParamConverted(p0[0]) else (None, []);
    var p1 := if HasThis(p0) then p0[1..] else p0;
    var rs := if HasRest(p1) then RestConverted(p1[|p1| - 1]) else (None, []);
    var p2 := if HasRest(p1) then p1[..|p1| - 1] else p1;
    var ps := ParamsConverted(p2);
    var diags := TypeParamsDiags(n.tsFnParams) + ret.1 + th.1 + rs.1 + ps.1;
    if ps.0.None? then (None, diags)
    else (Some(FunctionTypeAnnotation(ps.0.value, th.0, ret.0, rs.0, n.tsFnParams)), diags)
  }

  /**
   * The parameter loop succeeds exactly when every parameter is an identifier
   * whose conversion succeeds, and then yields their conversions in order;
   * when it fails, its last diagnostic names the parameter that stopped it.
   */
  lemma {:induction false} ParamsMeaning(ps: seq<Node>)
    ensures var r := ParamsConverted(ps);
      (r.0.Some? <==> forall i :: 0 <= i < |ps| ==> ps[i].Identifier? && IdParamConverted(ps[i]).0.Some?) &&
      (r.0.Some? ==> (|r.0.value| == |ps| &&
         forall i :: 0 <= i < |ps| ==> ps[i].Identifier? && r.0.value[i] == IdParamConverted(ps[i]).0.value)) &&
      (r.0.None? ==> r.1 != [] && r.1[|r.1| - 1].FailedFunctionType?)
  {
    if ps != [] {
      var n := |ps| - 1;
      var p := ps[..n];
      ParamsMeaning(p);
      assert forall i :: 0 <= i < n ==> p[i] == ps[i];
    }
  }

  /**
   * A converted function type takes its `this` slot from a leading `this`
   * identifier and its rest slot from a trailing rest element, both removed
   * from the parameters, and keeps every other parameter, converted, in order.
   */
  lemma FunctionTypeShape(n: Node)
    requires n.TSFunctionType?
    ensures var r := FunctionTypeConverted(n);
      var mid := MiddleParams(n.tsParams);
      (r.0.Some? <==> forall i :: 0 <= i < |mid| ==> mid[i].Identifier? && IdParamConverted(mid[i]).0.Some?) &&
      (r.0.Some? ==>
         r.0.value.FunctionTypeAnnotation? &&
         (r.0.value.thisParam.Some? ==> HasThis(n.tsParams)) &&
         (HasThis(n.tsParams) ==> r.0.value.thisParam == IdParamConverted(n.tsParams[0]).0) &&
         r.0.value.returnType == Converted(n.tsReturn).0 &&
         |r.0.value.params| == |mid| &&
         forall i :: 0 <= i < |mid| ==> r.0.value.params[i] == IdParamConverted(mid[i]).0.value)
  {
    ParamsMeaning(MiddleParams(n.tsParams));
  }

  /** A middle parameter that is not an identifier makes the whole conversion fail. */
  lemma NonIdentifierFails(n: Node, i: int)
    requires n.TSFunctionType?
    requires 0 <= i < |MiddleParams(n.tsParams)| && !MiddleParams(n.tsParams)[i].Identifier?
    ensures FunctionTypeConverted(n).0.None?
  {
    FunctionTypeShape(n);
  }

  // ---------------------------------------------------------------------
  // The tree walk (lines 90-137)
  // ---------------------------------------------------------------------

  /**
   * The converter's walk over a node that is not in a node list: identifiers,
   * function declarations and class properties have their annotations
   * converted; node lists are walked with replacement. Annotation nodes are
   * left as they are.
   */
  function Walked(n: Node): (r: (Node, seq<Diag>))
    decreases n, 1
  {
    match n
    case Identifier(name, a, opt) =>
      var c := Converted(a);
      (Identifier(name, c.0, opt), c.1)
    case FunctionDeclaration(ps, body, ret) =>
      var c := Converted(ret);
      var w := WalkedList(ps);
      var b := Walked(body);
      (FunctionDeclaration(w.0, b.0, c.0), c.1 + w.1 + b.1)
    case ClassProperty(value, a, mods) =>
      var c := Converted(a);
      var m := if mods.Some? && (mods.value.readonly || mods.value.accessibility) then [UnsupportedModifiers] else [];
      var v := if value.Some? then var w := Walked(value.value); (Some(w.0), w.1) else (None, []);
      (ClassProperty(v.0, c.0, None), c.1 + m + v.1)
    case RestElement(arg) =>
      var w := Walked(arg);
      (RestElement(w.0), w.1)
    case Other(kind, children) =>
      var w := WalkedChildren(children);
      (Other(kind, w.0), w.1)
    case _ => (n, [])
  }

  /** The fields of a node, walked in order. */
  function WalkedChildren(cs: seq<Child>): (r: (seq<Child>, seq<Diag>))
    decreases cs, 1
  {
    if cs == [] then ([], [])
    else
      var acc := WalkedChildren(cs[..|cs| - 1]);
      var w := WalkedChild(cs[|cs| - 1]);
      (acc.0 + [w.0], acc.1 + w.1)
  }

  /**
   * visitESTreeChildren on one field: a node list is walked with
   * replacement, a single node is only visited, so a TS node there stays.
   */
  function WalkedChild(c: Child): (r: (Child, seq<Diag>))
    decreases c, 0
  {
    match c
    case Slot(x) => var w := Walked(x); (Slot(w.0), w.1)
    case List(ns) => var w := WalkedList(ns); (List(w.0), w.1)
  }

  /**
   * visit(NodeList): a TS node is replaced, at its position, by its
   * conversion when that succeeds and kept otherwise; any other node is walked.
   */
  function WalkedList(list: seq<Node>): (r: (seq<Node>, seq<Diag>))
    decreases list, 0
  {
    if list == [] then ([], [])
    else
      var acc := WalkedList(list[..|list| - 1]);
      var x := list[|list| - 1];
      if IsTs(x) then
        var c := Converted(Some(x));
        (acc.0 + [if c.0.Some? then c.0.value else x], acc.1 + c.1)
      else
        var w := Walked(x);
        (acc.0 + [w.0], acc.1 + w.1)
  }

  /** The list keeps its length, and each position holds what its own element turns into. */
  lemma {:induction false} WalkedListMeaning(list: seq<Node>)
    ensures var out := WalkedList(list).0;
      |out| == |list| &&
      forall i :: 0 <= i < |list| ==>
        out[i] == (if !IsTs(list[i]) then Walked(list[i]).0
                   else if Converted(Some(list[i])).0.Some? then Converted(Some(list[i])).0.value
                   else list[i])
  {
    if list != [] {
      var n := |list| - 1;
      var p := list[..n];
      WalkedListMeaning(p);
      var out := WalkedList(list).0;
      var q := WalkedList(p).0;
      assert out[..n] == q;
      forall i | 0 <= i < n
        ensures out[i] == (if !IsTs(list[i]) then Walked(list[i]).0
                           else if Converted(Some(list[i])).0.Some? then Converted(Some(list[i])).0.value
                           else list[i])
      {
        assert out[i] == q[i] && p[i] == list[i];
      }
    }
  }

  /** The fields keep their number and kind, and each turns into what it would alone. */
  lemma {:induction false} WalkedChildrenMeaning(cs: seq<Child>)
    ensures var out := WalkedChildren(cs).0;
      |out| == |cs| &&
      forall i :: 0 <= i < |cs| ==> out[i] == WalkedChild(cs[i]).0 && out[i].Slot? == cs[i].Slot?
  {
    if cs != [] {
      var n := |cs| - 1;
      var p := cs[..n];
      WalkedChildrenMeaning(p);
      var out := WalkedChildren(cs).0;
      var q := WalkedChildren(p).0;
      assert out[..n] == q;
      forall i | 0 <= i < n
        ensures out[i] == WalkedChild(cs[i]).0 && out[i].Slot? == cs[i].Slot?
      {
        assert out[i] == q[i] && p[i] == cs[i];
      }
    }
  }

  /**
   * Only node lists convert: a TS node in a single-node field is left as it
   * is, and the validator then reports it, so the program is rejected.
   */
  lemma SlotKeepsTs(kind: string, x: Node, parent: Option<Node>)
    requires IsTs(x)
    ensures WalkedChild(Slot(x)) == (Slot(x), [])
    ensures Walked(Other(kind, [Slot(x)])) == (Other(kind, [Slot(x)]), [])
    ensures Remaining(Other(kind, [Slot(x)]), parent) == [RemainingTs(x, Some(Other(kind, [Slot(x)])))]
  {
    var cs := [Slot(x)];
    assert Walked(x) == (x, []) by {
      match x
      case TSTypeAnnotation(_) =>
      case TSKeyword(_) =>
      case TSLiteralType(_) =>
      case TSArrayType(_) =>
      case TSTypeReference(_, _) =>
      case TSTypeAliasDeclaration(_, _, _) =>
      case TSFunctionType(_, _, _) =>
      case TSOther(_) =>
    }
    assert cs[..0] == [];
    assert WalkedChild(Slot(x)) == (Slot(x), []);
    assert WalkedChildren(cs) == ([] + [Slot(x)], [] + []);
    assert WalkedChildren(cs).0 == [Slot(x)] && WalkedChildren(cs).1 == [];
    assert Walked(Other(kind, cs)) == (Other(kind, WalkedChildren(cs).0), WalkedChildren(cs).1);
    assert RemainingChild(Slot(x), Other(kind, cs)) == [RemainingTs(x, Some(Other(kind, cs)))];
    assert RemainingChildren(cs, Other(kind, cs)) == [] + [RemainingTs(x, Some(Other(kind, cs)))];
  }

  /** In a node list the same TS node is replaced by its conversion when that succeeds. */
  lemma ListConvertsTs(x: Node)
    requires IsTs(x) && Converted(Some(x)).0.Some?
    ensures WalkedChild(List([x])).0 == List([Converted(Some(x)).0.value])
  {
    WalkedListMeaning([x]);
  }

  // ---------------------------------------------------------------------
  // TS2FlowValidator (lines 18-57)
  // ---------------------------------------------------------------------

  /** The errors the validator reports below `n`: one per outermost TS node, with its parent. */
  function Remaining(n: Node, parent: Option<Node>): seq<Diag>
    decreases n, 2
  {
    if IsTs(n) then [RemainingTs(n, parent)]
    else
      match n
      case TypeAnnotation(a) => RemainingOpt(a, n)
      case ArrayTypeAnnotation(e) => RemainingOpt(e, n)
      case GenericTypeAnnotation(id, tp) => Remaining(id, Some(n)) + RemainingOpt(tp, n)
      case TypeAlias(id, tp, r) => Remaining(id, Some(n)) + RemainingOpt(tp, n) + RemainingOpt(r, n)
      case FunctionTypeAnnotation(ps, th, ret, rs, tp) =>
        RemainingList(ps, n) + RemainingOpt(th, n) + RemainingOpt(ret, n) + RemainingOpt(rs, n) + RemainingOpt(tp, n)
      case FunctionTypeParam(name, ty, _) => RemainingOpt(name, n) + Remaining(ty, Some(n))
      case Identifier(_, a, _) => RemainingOpt(a, n)
      case RestElement(arg) => Remaining(arg, Some(n))
      case FunctionDeclaration(ps, body, ret) => RemainingList(ps, n) + Remaining(body, Some(n)) + RemainingOpt(ret, n)
      case ClassProperty(value, a, _) => RemainingOpt(value, n) + RemainingOpt(a, n)
      case Other(_, children) => RemainingChildren(children, n)
      case _ => []
  }

  function RemainingChildren(cs: seq<Child>, parent: Node): seq<Diag>
    decreases cs, 1
  {
    if cs == [] then []
    else RemainingChildren(cs[..|cs| - 1], parent) + RemainingChild(cs[|cs| - 1], parent)
  }

  function RemainingChild(c: Child, parent: Node): seq<Diag>
    decreases c, 0
  {
    match c
    case Slot(x) => Remaining(x, Some(parent))
    case List(ns) => RemainingList(ns, parent)
  }

  function RemainingOpt(o: Option<Node>, parent: Node): seq<Diag>
    decreases o, 1
  {
    if o.None? then [] else Remaining(o.value, Some(parent))
  }

  function RemainingList(list: seq<Node>, parent: Node): seq<Diag>
    decreases list, 1
  {
    if list == [] then []
    else RemainingList(list[..|list| - 1], parent) + Remaining(list[|list| - 1], Some(parent))
  }

  /** Some TS node occurs anywhere in the tree. */
  predicate ContainsTs(n: Node)
    decreases n, 1
  {
    IsTs(n) ||
    match n
    case TypeAnnotation(a) => OptContainsTs(a)
    case ArrayTypeAnnotation(e) => OptContainsTs(e)
    case GenericTypeAnnotation(id, tp) => ContainsTs(id) || OptContainsTs(tp)
    case TypeAlias(id, tp, r) => ContainsTs(id) || OptContainsTs(tp) || OptContainsTs(r)
    case FunctionTypeAnnotation(ps, th, ret, rs, tp) =>
      (exists i :: 0 <= i < |ps| && ContainsTs(ps[i])) ||
      OptContainsTs(th) || OptContainsTs(ret) || OptContainsTs(rs) || OptContainsTs(tp)
    case FunctionTypeParam(name, ty, _) => OptContainsTs(name) || ContainsTs(ty)
    case Identifier(_, a, _) => OptContainsTs(a)
    case RestElement(arg) => ContainsTs(arg)
    case FunctionDeclaration(ps, body, ret) =>
      (exists i :: 0 <= i < |ps| && ContainsTs(ps[i])) || ContainsTs(body) || OptContainsTs(ret)
    case ClassProperty(value, a, _) => OptContainsTs(value) || OptContainsTs(a)
    case Other(_, children) => exists i :: 0 <= i < |children| && ChildContainsTs(children[i])
    case _ => false
  }

  predicate ChildContainsTs(c: Child)
    decreases c, 0
  {
    match c
    case Slot(x) => ContainsTs(x)
    case List(ns) => exists i :: 0 <= i < |ns| && ContainsTs(ns[i])
  }

  predicate OptContainsTs(o: Option<Node>)
    decreases o, 0
  {
    o.Some? && ContainsTs(o.value)
  }

  /** The validator reports nothing below a node exactly when no TS node occurs in it. */
  lemma {:induction false} RemainingMeaning(n: Node, parent: Option<Node>)
    ensures Remaining(n, parent) == [] <==> !ContainsTs(n)
    decreases n, 2
  {
    if !IsTs(n) {
      match n
      case TypeAnnotation(a) => RemainingOptMeaning(a, n);
      case ArrayTypeAnnotation(e) => RemainingOptMeaning(e, n);
      case GenericTypeAnnotation(id, tp) =>
        RemainingMeaning(id, Some(n));
        RemainingOptMeaning(tp, n);
      case TypeAlias(id, tp, r) =>
        RemainingMeaning(id, Some(n));
        RemainingOptMeaning(tp, n);
        RemainingOptMeaning(r, n);
      case FunctionTypeAnnotation(ps, th, ret, rs, tp) =>
        RemainingListMeaning(ps, n);
        RemainingOptMeaning(th, n);
        RemainingOptMeaning(ret, n);
        RemainingOptMeaning(rs, n);
        RemainingOptMeaning(tp, n);
      case FunctionTypeParam(name, ty, _) =>
        RemainingOptMeaning(name, n);
        RemainingMeaning(ty, Some(n));
      case Identifier(_, a, _) => RemainingOptMeaning(a, n);
      case RestElement(arg) => RemainingMeaning(arg, Some(n));
      case FunctionDeclaration(ps, body, ret) =>
        RemainingListMeaning(ps, n);
        RemainingMeaning(body, Some(n));
        RemainingOptMeaning(ret, n);
      case ClassProperty(value, a, _) =>
        RemainingOptMeaning(value, n);
        RemainingOptMeaning(a, n);
      case Other(_, children) => RemainingChildrenMeaning(children, n);
      case _ =>
    }
  }

  lemma {:induction false} RemainingOptMeaning(o: Option<Node>, parent: Node)
    ensures RemainingOpt(o, parent) == [] <==> !OptContainsTs(o)
    decreases o, 1
  {
    if o.Some? {
      RemainingMeaning(o.value, Some(parent));
    }
  }

  lemma {:induction false} RemainingListMeaning(list: seq<Node>, parent: Node)
    ensures RemainingList(list, parent) == [] <==> !exists i :: 0 <= i < |list| && ContainsTs(list[i])
    decreases list, 1
  {
    if list != [] {
      var n := |list| - 1;
      var p := list[..n];
      RemainingListMeaning(p, parent);
      RemainingMeaning(list[n], Some(parent));
      if exists i :: 0 <= i < |list| && ContainsTs(list[i]) {
        var i :| 0 <= i < |list| && ContainsTs(list[i]);
        if i < n {
          assert p[i] == list[i];
        }
      }
      if exists i :: 0 <= i < n && ContainsTs(p[i]) {
        var i :| 0 <= i < n && ContainsTs(p[i]);
        assert p[i] == list[i];
      }
    }
  }

  lemma {:induction false} RemainingChildrenMeaning(cs: seq<Child>, parent: Node)
    ensures RemainingChildren(cs, parent) == [] <==> !exists i :: 0 <= i < |cs| && ChildContainsTs(cs[i])
    decreases cs, 1
  {
    if cs != [] {
      var n := |cs| - 1;
      var p := cs[..n];
      RemainingChildrenMeaning(p, parent);
      RemainingChildMeaning(cs[n], parent);
      if exists i :: 0 <= i < |cs| && ChildContainsTs(cs[i]) {
        var i :| 0 <= i < |cs| && ChildContainsTs(cs[i]);
        if i < n {
          assert p[i] == cs[i];
        }
      }
      if exists i :: 0 <= i < n && ChildContainsTs(p[i]) {
        var i :| 0 <= i < n && ChildContainsTs(p[i]);
        assert p[i] == cs[i];
      }
    }
  }

  lemma {:induction false} RemainingChildMeaning(c: Child, parent: Node)
    ensures RemainingChild(c, parent) == [] <==> !ChildContainsTs(c)
    decreases c, 0
  {
    match c
    case Slot(x) => RemainingMeaning(x, Some(parent));
    case List(ns) => RemainingListMeaning(ns, parent);
  }

  /**
   * convertTSToFlow, as a value: nothing if errors were reported before or
   * during the walk or if the validator finds a TS node left; otherwise the
   * walked program.
   */
  function ProgramConverted(errors0: seq<Diag>, program: Node): (Option<Node>, seq<Diag>)
  {
    if errors0 != [] then (None, errors0)
    else
      var w := Walked(program);
      if w.1 != [] then (None, w.1)
      else
        var v := Remaining(w.0, None);
        if v != [] then (None, v) else (Some(w.0), [])
  }

  /** The conversion succeeds exactly when no error is reported and no TS node remains. */
  lemma ProgramConvertedMeaning(errors0: seq<Diag>, program: Node)
    ensures var r := ProgramConverted(errors0, program);
      (r.0.Some? <==> errors0 == [] && Walked(program).1 == [] && !ContainsTs(Walked(program).0)) &&
      (r.0.Some? ==> r.0.value == Walked(program).0)
  {
    RemainingMeaning(Walked(program).0, None);
  }

  // ---------------------------------------------------------------------
  // The converter
  // ---------------------------------------------------------------------

  /** TS2FlowConverter, with the diagnostics it has reported. */
  class Converter {
    var errors: seq<Diag>

    constructor(errors: seq<Diag>)
      ensures this.errors == errors
    {
      this.errors := errors;
    }

    /** convertTSNode. */
    method ConvertTSNode(o: Option<Node>) returns (r: Option<Node>)
      modifies this
      ensures r == Converted(o).0 && errors == old(errors) + Converted(o).1
      decreases o
    {
      if o.None? || !IsTs(o.value) {
        return o;
      }
      var n := o.value;
      match n {
        case TSTypeAnnotation(a) =>
          var c := ConvertTSNode(a);
          r := Some(TypeAnnotation(c));
        case TSKeyword(k) =>
          r := Some(KeywordTypeAnnotation(FlowKeywordOf(k)));
        case TSLiteralType(l) =>
          var c := LiteralConverted(l);
          errors := errors + c.1;
          r := c.0;
        case TSArrayType(e) =>
          var c := ConvertTSNode(e);
          r := Some(ArrayTypeAnnotation(c));
        case TSTypeReference(typeName, tp) =>
          if tp.Some? {
            errors := errors + [UnimplementedTypeParams];
          }
          r := Some(GenericTypeAnnotation(typeName, tp));
        case TSTypeAliasDeclaration(id, tp, a) =>
          if tp.Some? {
            errors := errors + [UnimplementedTypeParams];
          }
          var c := ConvertTSNode(a);
          r := Some(TypeAlias(id, tp, c));
        case TSFunctionType(_, _, _) =>
          r := ConvertFunctionType(n);
        case TSOther(_) =>
          errors := errors + [UnsupportedConversion(n)];
          r := None;
      }
    }

    /** convertIdentifierToFunctionTypeParam. */
    method ConvertIdentifierToFunctionTypeParam(id: Node) returns (r: Option<Node>)
      requires id.Identifier?
      modifies this
      ensures r == IdParamConverted(id).0 && errors == old(errors) + IdParamConverted(id).1
      decreases id
    {
      var ty := ConvertTSNode(id.idAnnotation);
      if ty.Some? && ty.value.TypeAnnotation? {
        ty := ty.value.annotation;
      }
      if ty.None? {
        errors := errors + [FailedTypeAnnotation(id)];
        return None;
      }
      var name: Option<Node> := None;
      if id.name != "this" {
        name := Some(Identifier(id.name, None, false));
      }
      r := Some(FunctionTypeParam(name, ty.value, id.optional));
    }

    /** convertRestElementToFunctionTypeParam. */
    method ConvertRestElementToFunctionTypeParam(rest: Node) returns (r: Option<Node>)
      requires rest.RestElement?
      modifies this
      ensures r == RestConverted(rest).0 && errors == old(errors) + RestConverted(rest).1
      decreases rest
    {
      if rest.argument.Identifier? {
        r := ConvertIdentifierToFunctionTypeParam(rest.argument);
      } else {
        errors := errors + [FailedRestElement(rest)];
        r := None;
      }
    }

    /** The parameter loop of the function-type conversion. */
    method ConvertParams(ps: seq<Node>) returns (r: Option<seq<Node>>)
      modifies this
      ensures r == ParamsConverted(ps).0 && errors == old(errors) + ParamsConverted(ps).1
      decreases ps
    {
      var params: seq<Node> := [];
      ghost var d: seq<Diag> := [];
      var k := 0;
      while k < |ps|
        invariant k <= |ps|
        invariant errors == old(errors) + d
        invariant ParamsConverted(ps[..k]) == (Some(params), d)
      {
        assert ps[..k + 1][..k] == ps[..k];
        var p := ps[k];
        var converted: Option<Node> := None;
        if p.Identifier? {
          converted := ConvertIdentifierToFunctionTypeParam(p);
          AppendAssoc(old(errors), d, IdParamConverted(p).1);
          d := d + IdParamConverted(p).1;
        }
        if converted.None? {
          errors := errors + [FailedFunctionType(p)];
          AppendAssoc(old(errors), d, [FailedFunctionType(p)]);
          d := d + [FailedFunctionType(p)];
          assert ParamsConverted(ps[..k + 1]) == (None, d);
          ParamsFailureSticks(ps, k + 1);
          return None;
        }
        params := params + [converted.value];
        k := k + 1;
      }
      assert ps[..k] == ps;
      r := Some(params);
    }

    /** convertTSNode on a TSFunctionType. */
    method ConvertFunctionType(n: Node) returns (r: Option<Node>)
      requires n.TSFunctionType?
      modifies this
      ensures r == FunctionTypeConverted(n).0 && errors == old(errors) + FunctionTypeConverted(n).1
      decreases n
    {
      ghost var e0 := errors;
      if n.tsFnParams.Some? {
        errors := errors + [UnimplementedTypeParams];
      }
      ghost var d := TypeParamsDiags(n.tsFnParams);
      assert errors == e0 + d;
      var returnType := ConvertTSNode(n.tsReturn);
      AppendAssoc(e0, d, Converted(n.tsReturn).1);
      d := d + Converted(n.tsReturn).1;
      var params := n.tsParams;
      var thisNode: Option<Node> := None;
      if HasThis(params) {
        thisNode := ConvertIdentifierToFunctionTypeParam(params[0]);
        AppendAssoc(e0, d, IdParamConverted(params[0]).1);
        d := d + IdParamConverted(params[0]).1;
        params := params[1..];
      } else {
        assert d + [] == d;
      }
      ghost var p1 := params;
      var restNode: Option<Node> := None;
      if HasRest(params) {
        restNode := ConvertRestElementToFunctionTypeParam(params[|params| - 1]);
        AppendAssoc(e0, d, RestConverted(p1[|p1| - 1]).1);
        d := d + RestConverted(p1[|p1| - 1]).1;
        params := params[..|params| - 1];
      } else {
        assert d + [] == d;
      }
      var converted := ConvertParams(params);
      AppendAssoc(e0, d, ParamsConverted(params).1);
      d := d + ParamsConverted(params).1;
      assert d == FunctionTypeConverted(n).1;
      if converted.None? {
        return None;
      }
      r := Some(FunctionTypeAnnotation(converted.value, thisNode, returnType, restNode, n.tsFnParams));
    }

    /** visit for a node outside a node list. */
    method Visit(n: Node) returns (m: Node)
      modifies this
      ensures m == Walked(n).0 && errors == old(errors) + Walked(n).1
      decreases n, 1
    {
      match n {
        case Identifier(name, a, opt) =>
          var c := ConvertTSNode(a);
          m := Identifier(name, c, opt);
        case FunctionDeclaration(_, _, _) =>
          m := VisitFunctionDeclaration(n);
        case ClassProperty(_, _, _) =>
          m := VisitClassProperty(n);
        case RestElement(arg) =>
          var w := Visit(arg);
          m := RestElement(w);
        case Other(kind, children) =>
          var w := VisitChildren(children);
          m := Other(kind, w);
        case _ =>
          m := n;
      }
    }

    /** visit(FunctionDeclaration): the return type, then the parameters, then the body. */
    method VisitFunctionDeclaration(n: Node) returns (m: Node)
      requires n.FunctionDeclaration?
      modifies this
      ensures m == Walked(n).0 && errors == old(errors) + Walked(n).1
      decreases n, 0
    {
      var ps, body, ret := n.declParams, n.declBody, n.declReturn;
      ghost var e0 := errors;
      var c := ConvertTSNode(ret);
      var w := VisitList(ps);
      AppendAssoc(e0, Converted(ret).1, WalkedList(ps).1);
      var b := Visit(body);
      AppendAssoc(e0, Converted(ret).1 + WalkedList(ps).1, Walked(body).1);
      m := FunctionDeclaration(w, b, c);
    }

    /** visit(ClassProperty): the annotation, the rejected modifiers, then the value. */
    method VisitClassProperty(n: Node) returns (m: Node)
      requires n.ClassProperty?
      modifies this
      ensures m == Walked(n).0 && errors == old(errors) + Walked(n).1
      decreases n, 0
    {
      var value, a, mods := n.propValue, n.propAnnotation, n.modifiers;
      ghost var e0 := errors;
      var c := ConvertTSNode(a);
      ghost var d := Converted(a).1;
      if mods.Some? && (mods.value.readonly || mods.value.accessibility) {
        errors := errors + [UnsupportedModifiers];
        d := d + [UnsupportedModifiers];
      }
      assert errors == e0 + d;
      var v: Option<Node> := None;
      if value.Some? {
        var w := Visit(value.value);
        AppendAssoc(e0, d, Walked(value.value).1);
        v := Some(w);
      } else {
        assert errors == e0 + d + [];
      }
      m := ClassProperty(v, c, None);
    }

    /** visit(NodeList): replaces each TS node in place by its conversion when that succeeds. */
    method VisitList(list: seq<Node>) returns (out: seq<Node>)
      modifies this
      ensures out == WalkedList(list).0 && errors == old(errors) + WalkedList(list).1
      decreases list, 0
    {
      out := list;
      var k := 0;
      while k < |list|
        invariant k <= |list| && |out| == |list|
        invariant out[..k] == WalkedList(list[..k]).0 && out[k..] == list[k..]
        invariant errors == old(errors) + WalkedList(list[..k]).1
      {
        assert list[..k + 1][..k] == list[..k];
        var node := out[k];
        assert node == list[k];
        if IsTs(node) {
          var result := ConvertTSNode(Some(node));
          AppendAssoc(old(errors), WalkedList(list[..k]).1, Converted(Some(node)).1);
          if result.Some? {
            out := out[k := result.value];
          }
        } else {
          var w := Visit(node);
          AppendAssoc(old(errors), WalkedList(list[..k]).1, Walked(node).1);
          out := out[k := w];
        }
        assert out[..k + 1] == out[..k] + [out[k]];
        k := k + 1;
      }
      assert list[..k] == list && out[..k] == out;
    }

    /** visitESTreeChildren: each field in order, a node list with replacement. */
    method VisitChildren(cs: seq<Child>) returns (out: seq<Child>)
      modifies this
      ensures out == WalkedChildren(cs).0 && errors == old(errors) + WalkedChildren(cs).1
      decreases cs, 1
    {
      out := [];
      var k := 0;
      while k < |cs|
        invariant k <= |cs|
        invariant out == WalkedChildren(cs[..k]).0
        invariant errors == old(errors) + WalkedChildren(cs[..k]).1
      {
        assert cs[..k + 1][..k] == cs[..k];
        var w := VisitChild(cs[k]);
        AppendAssoc(old(errors), WalkedChildren(cs[..k]).1, WalkedChild(cs[k]).1);
        out := out + [w];
        k := k + 1;
      }
      assert cs[..k] == cs;
    }

    /** One field: a single node is visited, a node list walked with replacement. */
    method VisitChild(c: Child) returns (w: Child)
      modifies this
      ensures w == WalkedChild(c).0 && errors == old(errors) + WalkedChild(c).1
      decreases c, 0
    {
      match c {
        case Slot(x) =>
          var y := Visit(x);
          w := Slot(y);
        case List(ns) =>
          var ys := VisitList(ns);
          w := List(ys);
      }
    }

    /** convert: the walk, then the validator, each only if no error is pending. */
    method Convert(program: Node) returns (r: Option<Node>)
      modifies this
      ensures (r, errors) == ProgramConverted(old(errors), program)
    {
      if errors != [] {
        return None;
      }
      var walked := Visit(program);
      assert errors == Walked(program).1;
      if errors != [] {
        return None;
      }
      errors := errors + Remaining(walked, None);
      assert errors == Remaining(walked, None);
      if errors != [] {
        return None;
      }
      r := Some(walked);
    }
  }

  lemma AppendAssoc(a: seq<Diag>, b: seq<Diag>, c: seq<Diag>)
    ensures a + b + c == a + (b + c)
  {
  }

  /** Once the parameter loop has failed on a prefix, it stays failed with the same diagnostics. */
  lemma {:induction false} ParamsFailureSticks(ps: seq<Node>, k: int)
    requires 0 <= k <= |ps|
    requires ParamsConverted(ps[..k]).0.None?
    ensures ParamsConverted(ps) == ParamsConverted(ps[..k])
    decreases |ps| - k
  {
    if k < |ps| {
      assert ps[..k + 1][..k] == ps[..k];
      ParamsFailureSticks(ps, k + 1);
    } else {
      assert ps[..k] == ps;
    }
  }
}
