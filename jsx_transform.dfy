/**
 * The JSX-to-call transform of the flow bundler
 * (benchmarks/build-helpers/flow-bundler/src/transforms/transformJSX.js).
 *
 * Every JSX element becomes `M$react_index$jsx(type, props, key)`, every
 * fragment `M$react_index$jsx(M$react_index$Fragment, {children}, null)`.
 * A thrown Error is the `Thrown` outcome; its code frame is not modelled.
 */
module JsxTransform {
  import opened Wrappers
  import JsxText

  /** The name of an opening element. */
  datatype JsxName =
    | JsxIdentifier(id: string)
    | JsxMemberExpression(nameObject: JsxName, nameProperty: string)
    | JsxNamespacedName(namespace: string, local: string)

  /** The expressions the transform reads and builds; `Opaque` is any other expression with its operands. */
  datatype Expr =
    | StringLiteral(str: string)
    | BooleanLiteral(b: bool)
    | NullLiteral
    | Identifier(name: string)
    | MemberExpression(memberObject: Expr, memberProperty: string)
    | CallExpression(callee: Expr, arguments: seq<Expr>)
    | ObjectExpression(properties: seq<Prop>)
    | ArrayExpression(elements: seq<Expr>)
    | Jsx(node: JsxNode)
    | JsxEmptyExpression
    | Opaque(kind: string, operands: seq<Expr>)

  datatype Prop = ObjectProperty(key: Expr, value: Expr) | SpreadElement(argument: Expr)

  /** The value of a JSX attribute. `OtherValue` stands for an element or fragment used as a value. */
  datatype AttrValue =
    | ExpressionContainer(expression: Expr)
    | Literal(literal: string)
    | EmptyValue
    | OtherValue(valueKind: string)

  datatype Attribute =
    | JsxAttribute(attrName: string, attrValue: Option<AttrValue>)
    | JsxSpreadAttribute(spreadArgument: Expr)
    | OtherAttribute(attributeKind: string)

  /** The two JSX nodes that are expressions. */
  datatype JsxNode =
    | JsxElement(name: JsxName, attributes: seq<Attribute>, children: seq<Child>)
    | JsxFragment(children: seq<Child>)

  datatype Child =
    | NodeChild(jsx: JsxNode)
    | JsxTextChild(text: string)
    | JsxEmptyChild
    | JsxExpressionContainer(containerExpression: Expr)
    | OtherChild(childKind: string)

  /** The Errors the transform throws. */
  datatype JsxError =
    | EmptyNameTypeError
    | NamespacedNameNotSupported
    | UnknownElementType
    | UnknownAttributeValue
    | UnknownAttribute
    | UnknownChild
    | ExpectedNonEmpty

  datatype Outcome<T> = Done(value: T) | Thrown(error: JsxError)

  const JsxFunctionName := "M$react_index$jsx"
  const FragmentName := "M$react_index$Fragment"
  const KeyName := "key"
  const ChildrenName := "children"

  /** The expression holds no JSX element or fragment. */
  predicate JsxFree(e: Expr)
    decreases e, 1
  {
    match e
    case MemberExpression(o, _) => JsxFree(o)
    case CallExpression(callee, args) => JsxFree(callee) && AllJsxFree(args)
    case ObjectExpression(ps) => PropsJsxFree(ps)
    case ArrayExpression(es) => AllJsxFree(es)
    case Opaque(_, es) => AllJsxFree(es)
    case Jsx(_) => false
    case _ => true
  }

  predicate AllJsxFree(es: seq<Expr>)
    decreases es, 0
  {
    forall i | 0 <= i < |es| :: JsxFree(es[i])
  }

  predicate PropJsxFree(p: Prop)
    decreases p, 0
  {
    match p
    case ObjectProperty(k, v) => JsxFree(k) && JsxFree(v)
    case SpreadElement(arg) => JsxFree(arg)
  }

  predicate PropsJsxFree(ps: seq<Prop>)
    decreases ps, 1
  {
    forall i | 0 <= i < |ps| :: PropJsxFree(ps[i])
  }

  // ---------------------------------------------------------------------
  // Element names (lines 48-110)
  // ---------------------------------------------------------------------

  /**
   * String.prototype.toLowerCase on one UTF-16 unit, for the Latin-1 range:
   * the capitals A-Z and U+00C0-U+00DE (except the multiplication sign)
   * move up by 0x20; every other unit is left as it is.
   */
  function ToLower(c: char): (r: char)
    ensures 'A' <= c <= 'Z' ==> r == (c as int + 32) as char
    ensures 'a' <= c <= 'z' || '0' <= c <= '9' || c == '_' || c == '$' ==> r == c
  {
    if 'A' <= c <= 'Z' || ('\U{00C0}' <= c <= '\U{00DE}' && c != '\U{00D7}') then (c as int + 32) as char else c
  }

  /** A name whose first character is its own lower case and holds no '$' names an intrinsic element. */
  predicate IsIntrinsic(id: string)
    requires id != []
  {
    id[0] == ToLower(id[0]) && '$' !in id
  }

  /** Lower-case first letters name intrinsic elements, capitals (Latin-1 ones too) and renamed names name components. */
  lemma IntrinsicNames()
    ensures IsIntrinsic("div") && IsIntrinsic("_x")
    ensures !IsIntrinsic("Button") && !IsIntrinsic("\U{00C9}lan") && !IsIntrinsic("a$1")
  {
    assert "a$1"[1] == '$';
  }

  /** convertJSXMemberExpression. */
  function MemberOf(m: JsxName): (r: Outcome<Expr>)
    requires m.JsxMemberExpression?
    ensures r.Done? ==> JsxFree(r.value)
  {
    match m.nameObject
    case JsxIdentifier(o) => Done(MemberExpression(Identifier(o), m.nameProperty))
    case JsxMemberExpression(_, _) =>
      var inner := MemberOf(m.nameObject);
      if inner.Thrown? then inner else Done(MemberExpression(inner.value, m.nameProperty))
    case JsxNamespacedName(_, _) => Thrown(NamespacedNameNotSupported)
  }

  /** convertOpeningElementToJSXName. */
  function ElementType(name: JsxName): (r: Outcome<Expr>)
    ensures r.Done? ==> JsxFree(r.value)
    ensures name.JsxIdentifier? && name.id != [] ==>
      r == Done(if IsIntrinsic(name.id) then StringLiteral(name.id) else Identifier(name.id))
  {
    match name
    case JsxIdentifier(id) =>
      if id == [] then Thrown(EmptyNameTypeError)
      else if IsIntrinsic(id) then Done(StringLiteral(id))
      else Done(Identifier(id))
    case JsxMemberExpression(_, _) => MemberOf(name)
    case JsxNamespacedName(_, _) => Thrown(UnknownElementType)
  }

  /** The dotted path a JSX member name spells, when its root is an identifier. */
  function JsxPath(n: JsxName): Option<seq<string>>
  {
    match n
    case JsxIdentifier(id) => Some([id])
    case JsxMemberExpression(o, p) =>
      var q := JsxPath(o);
      if q.None? then None else Some(q.value + [p])
    case JsxNamespacedName(_, _) => None
  }

  /** The dotted path a chain of non-computed member accesses on an identifier spells. */
  function ExprPath(e: Expr): Option<seq<string>>
  {
    match e
    case Identifier(name) => Some([name])
    case MemberExpression(o, p) =>
      var q := ExprPath(o);
      if q.None? then None else Some(q.value + [p])
    case _ => None
  }

  /**
   * A member name converts exactly when its root is an identifier, into the
   * member expression spelling the same dotted path.
   */
  lemma {:induction false} MemberPath(m: JsxName)
    requires m.JsxMemberExpression?
    ensures MemberOf(m).Done? <==> JsxPath(m).Some?
    ensures MemberOf(m).Done? ==> ExprPath(MemberOf(m).value) == JsxPath(m)
    ensures MemberOf(m).Thrown? ==> MemberOf(m).error == NamespacedNameNotSupported
  {
    if m.nameObject.JsxMemberExpression? {
      MemberPath(m.nameObject);
    }
  }

  /**
   * The element type: a non-empty identifier, or a member name rooted at an
   * identifier, which becomes the member expression spelling the same path.
   * An empty name fails on `name[0].toLowerCase()`; a namespaced name is not
   * supported.
   */
  lemma ElementTypeMeaning(name: JsxName)
    ensures ElementType(name).Done? <==>
      (name.JsxIdentifier? && name.id != []) || (name.JsxMemberExpression? && JsxPath(name).Some?)
    ensures name.JsxMemberExpression? && ElementType(name).Done? ==> ExprPath(ElementType(name).value) == JsxPath(name)
    ensures name.JsxIdentifier? && name.id == [] ==> ElementType(name) == Thrown(EmptyNameTypeError)
    ensures name.JsxNamespacedName? ==> ElementType(name) == Thrown(UnknownElementType)
  {
    if name.JsxMemberExpression? {
      MemberPath(name);
    }
  }

  // ---------------------------------------------------------------------
  // Attribute values, attributes, children (lines 112-338)
  // ---------------------------------------------------------------------

  /** The attribute sets the key rather than a props entry. */
  predicate IsKey(a: Attribute)
  {
    a.JsxAttribute? && a.attrName == KeyName
  }

  /** convertJSXAttributeValueToExpression. */
  function AttrValueExpr(v: Option<AttrValue>): (r: Outcome<Expr>)
    ensures v.None? || v.value.EmptyValue? ==> r == Done(BooleanLiteral(true))
    ensures v.Some? && v.value.ExpressionContainer? && v.value.expression.JsxEmptyExpression? ==> r == Done(BooleanLiteral(true))
    ensures v.Some? && v.value.Literal? ==> r == Done(StringLiteral(v.value.literal))
    ensures v.Some? && v.value.OtherValue? ==> r == Thrown(UnknownAttributeValue)
    ensures r.Thrown? ==> v.Some? && (v.value.OtherValue? || v.value.ExpressionContainer?)
    ensures r.Done? ==> JsxFree(r.value)
    decreases v, 2
  {
    if v.None? then Done(BooleanLiteral(true))
    else
      match v.value
      case ExpressionContainer(e) =>
        if e.JsxEmptyExpression? then Done(BooleanLiteral(true)) else TransformExpr(e)
      case Literal(l) => Done(StringLiteral(l))
      case EmptyValue => Done(BooleanLiteral(true))
      case OtherValue(_) => Thrown(UnknownAttributeValue)
  }

  /** The property key for an attribute name: a string key when it holds '-'. */
  function PropertyKey(name: string): (r: Expr)
    ensures r.StringLiteral? <==> '-' in name
    ensures r == StringLiteral(name) || r == Identifier(name)
  {
    if '-' in name then StringLiteral(name) else Identifier(name)
  }

  /**
   * The props entry for an attribute other than `key`. The spread argument
   * is transformed like any other expression; see SpreadAsWritten.
   */
  function AttrProp(a: Attribute): (r: Outcome<Prop>)
    requires !IsKey(a)
    ensures r.Done? ==> PropJsxFree(r.value)
    ensures r.Done? && a.JsxAttribute? ==> r.value.ObjectProperty? && r.value.key == PropertyKey(a.attrName)
    ensures r.Done? && a.JsxSpreadAttribute? ==> r.value.SpreadElement?
    ensures a.OtherAttribute? ==> r == Thrown(UnknownAttribute)
    decreases a, 2
  {
    match a
    case JsxAttribute(name, v) =>
      var e := AttrValueExpr(v);
      if e.Thrown? then Thrown(e.error) else Done(ObjectProperty(PropertyKey(name), e.value))
    case JsxSpreadAttribute(arg) =>
      var e := TransformExpr(arg);
      if e.Thrown? then Thrown(e.error) else Done(SpreadElement(e.value))
    case OtherAttribute(_) => Thrown(UnknownAttribute)
  }

  /** The attribute map of convertJSXElementToProps: the props entries in order and the key. */
  function AttrsFold(attrs: seq<Attribute>): (r: Outcome<(seq<Prop>, Expr)>)
    ensures r.Done? ==> PropsJsxFree(r.value.0) && JsxFree(r.value.1)
    decreases attrs, 3
  {
    if attrs == [] then Done(([], NullLiteral))
    else
      var acc := AttrsFold(attrs[..|attrs| - 1]);
      var a := attrs[|attrs| - 1];
      if acc.Thrown? then acc
      else if IsKey(a) then
        var k := AttrValueExpr(a.attrValue);
        if k.Thrown? then Thrown(k.error) else Done((acc.value.0, k.value))
      else
        var p := AttrProp(a);
        if p.Thrown? then Thrown(p.error) else Done((acc.value.0 + [p.value], acc.value.1))
  }

  /** convertJSXElementToProps: the attributes, then a `children` entry when there are children. */
  function PropsOf(n: JsxNode): (r: Outcome<(seq<Prop>, Expr)>)
    requires n.JsxElement?
    ensures r.Done? ==> PropsJsxFree(r.value.0) && JsxFree(r.value.1)
    decreases n, 0
  {
    var a := AttrsFold(n.attributes);
    if a.Thrown? then a
    else if |n.children| > 0 then
      var ch := ConvertChildren(n.children);
      if ch.Thrown? then Thrown(ch.error)
      else Done((a.value.0 + [ObjectProperty(Identifier(ChildrenName), ch.value)], a.value.1))
    else a
  }

  /** The children mapped with convertJSXChild, the null results dropped. */
  function ChildrenFold(cs: seq<Child>): (r: Outcome<seq<Expr>>)
    ensures r.Done? ==> AllJsxFree(r.value)
    decreases cs, 0
  {
    if cs == [] then Done([])
    else
      var acc := ChildrenFold(cs[..|cs| - 1]);
      if acc.Thrown? then acc
      else
        var r := ConvertChild(cs[|cs| - 1]);
        if r.Thrown? then Thrown(r.error)
        else if r.value.None? then acc
        else Done(acc.value + [r.value.value])
  }

  /** convertJSXChildren: a single remaining child is passed as it is, any other number as an array. */
  function ConvertChildren(cs: seq<Child>): (r: Outcome<Expr>)
    ensures r.Done? ==> JsxFree(r.value)
    decreases cs, 1
  {
    var f := ChildrenFold(cs);
    if f.Thrown? then Thrown(f.error)
    else if |f.value| == 1 then Done(f.value[0])
    else Done(ArrayExpression(f.value))
  }

  /** The JSXElement and JSXFragment cases of convertJSXChild, which never yield null. */
  function ConvertNode(n: JsxNode): (r: Outcome<Expr>)
    ensures r.Done? ==> JsxFree(r.value)
    decreases n, 1
  {
    match n
    case JsxElement(name, _, _) =>
      var p := PropsOf(n);
      if p.Thrown? then Thrown(p.error)
      else
        var t := ElementType(name);
        if t.Thrown? then Thrown(t.error)
        else Done(CallExpression(Identifier(JsxFunctionName), [t.value, ObjectExpression(p.value.0), p.value.1]))
    case JsxFragment(children) =>
      var ch := ConvertChildren(children);
      if ch.Thrown? then Thrown(ch.error)
      else
        var props := [ObjectProperty(Identifier(ChildrenName), ch.value)];
        assert PropJsxFree(props[0]);
        var args := [Identifier(FragmentName), ObjectExpression(props), NullLiteral];
        assert JsxFree(args[1]);
        Done(CallExpression(Identifier(JsxFunctionName), args))
  }

  /** A text child that normalises to the empty string; convertJSXChild returns null for it. */
  predicate Dropped(c: Child)
  {
    c.JsxTextChild? && JsxText.NormalizedText(c.text) == []
  }

  /** convertJSXChild: None where the source returns null. */
  function ConvertChild(c: Child): (r: Outcome<Option<Expr>>)
    ensures r.Done? && r.value.None? <==> Dropped(c)
    ensures r.Done? && r.value.Some? ==> JsxFree(r.value.value)
    ensures c.JsxTextChild? && !Dropped(c) ==> r == Done(Some(StringLiteral(JsxText.NormalizedText(c.text))))
    ensures r.Thrown? ==> c.NodeChild? || c.JsxExpressionContainer? || (c.OtherChild? && r.error == UnknownChild)
    decreases c, 2
  {
    match c
    case NodeChild(n) =>
      var r := ConvertNode(n);
      if r.Thrown? then Thrown(r.error) else Done(Some(r.value))
    case JsxTextChild(text) =>
      var s := JsxText.NormalizedText(text);
      if s == [] then Done(None) else Done(Some(StringLiteral(s)))
    case JsxEmptyChild => Done(Some(NullLiteral))
    case JsxExpressionContainer(e) =>
      if e.JsxEmptyExpression? then Done(Some(NullLiteral))
      else
        var t := TransformExpr(e);
        if t.Thrown? then Thrown(t.error) else Done(Some(t.value))
    case OtherChild(_) => Thrown(UnknownChild)
  }

  /**
   * transformExpression: every JSX element or fragment inside the expression
   * is replaced by its conversion; the result holds no JSX, and an expression
   * without JSX comes back unchanged.
   */
  function TransformExpr(e: Expr): (r: Outcome<Expr>)
    ensures r.Done? ==> JsxFree(r.value)
    ensures JsxFree(e) ==> r == Done(e)
    decreases e, 1
  {
    match e
    case MemberExpression(o, p) =>
      var r := TransformExpr(o);
      if r.Thrown? then r else Done(MemberExpression(r.value, p))
    case CallExpression(callee, args) =>
      var c := TransformExpr(callee);
      if c.Thrown? then c
      else
        var a := TransformExprs(args);
        if a.Thrown? then Thrown(a.error) else Done(CallExpression(c.value, a.value))
    case ObjectExpression(ps) =>
      var r := TransformProps(ps);
      if r.Thrown? then Thrown(r.error) else Done(ObjectExpression(r.value))
    case ArrayExpression(es) =>
      var r := TransformExprs(es);
      if r.Thrown? then Thrown(r.error) else Done(ArrayExpression(r.value))
    case Opaque(kind, es) =>
      var r := TransformExprs(es);
      if r.Thrown? then Thrown(r.error) else Done(Opaque(kind, r.value))
    case Jsx(n) => ConvertNode(n)
    case _ => Done(e)
  }

  function TransformExprs(es: seq<Expr>): (r: Outcome<seq<Expr>>)
    ensures r.Done? ==> |r.value| == |es| && AllJsxFree(r.value)
    ensures AllJsxFree(es) ==> r == Done(es)
    decreases es, 0
  {
    if es == [] then Done([])
    else
      var acc := TransformExprs(es[..|es| - 1]);
      if acc.Thrown? then acc
      else
        var r := TransformExpr(es[|es| - 1]);
        if r.Thrown? then Thrown(r.error)
        else
          assert AllJsxFree(es) ==> es == es[..|es| - 1] + [es[|es| - 1]];
          Done(acc.value + [r.value])
  }

  function TransformProps(ps: seq<Prop>): (r: Outcome<seq<Prop>>)
    ensures r.Done? ==> |r.value| == |ps| && PropsJsxFree(r.value)
    ensures PropsJsxFree(ps) ==> r == Done(ps)
    decreases ps, 0
  {
    if ps == [] then Done([])
    else
      var acc := TransformProps(ps[..|ps| - 1]);
      if acc.Thrown? then acc
      else
        var r := TransformProp(ps[|ps| - 1]);
        if r.Thrown? then Thrown(r.error)
        else
          assert PropsJsxFree(ps) ==> ps == ps[..|ps| - 1] + [ps[|ps| - 1]];
          Done(acc.value + [r.value])
  }

  function TransformProp(p: Prop): (r: Outcome<Prop>)
    ensures r.Done? ==> PropJsxFree(r.value)
    ensures PropJsxFree(p) ==> r == Done(p)
    decreases p, 2
  {
    match p
    case ObjectProperty(key, value) =>
      var k := TransformExpr(key);
      if k.Thrown? then Thrown(k.error)
      else
        var v := TransformExpr(value);
        if v.Thrown? then Thrown(v.error) else Done(ObjectProperty(k.value, v.value))
    case SpreadElement(arg) =>
      var r := TransformExpr(arg);
      if r.Thrown? then Thrown(r.error) else Done(SpreadElement(r.value))
  }

  /**
   * The JSXElement and JSXFragment visitors (lines 341-356): the outermost
   * JSX node is replaced by its conversion, and a null conversion is an error.
   */
  function VisitJsxNode(n: JsxNode): (r: Outcome<Expr>)
    ensures r == ConvertNode(n)
  {
    var c := ConvertChild(NodeChild(n));
    if c.Thrown? then Thrown(c.error)
    else if c.value.None? then Thrown(ExpectedNonEmpty)
    else Done(c.value.value)
  }

  // ---------------------------------------------------------------------
  // What the attribute map computes
  // ---------------------------------------------------------------------

  /** The attributes that become props entries, in order. */
  function NonKey(attrs: seq<Attribute>): (r: seq<Attribute>)
    ensures |r| <= |attrs|
    ensures forall j | 0 <= j < |r| :: !IsKey(r[j])
  {
    if attrs == [] then []
    else NonKey(attrs[..|attrs| - 1]) + (if IsKey(attrs[|attrs| - 1]) then [] else [attrs[|attrs| - 1]])
  }

  /** The index of the last `key` attribute. */
  function LastKeyIndex(attrs: seq<Attribute>): (r: Option<nat>)
    ensures r.Some? ==> r.value < |attrs| && IsKey(attrs[r.value]) && forall j | r.value < j < |attrs| :: !IsKey(attrs[j])
    ensures r.None? ==> forall j | 0 <= j < |attrs| :: !IsKey(attrs[j])
  {
    if attrs == [] then None
    else if IsKey(attrs[|attrs| - 1]) then Some(|attrs| - 1)
    else LastKeyIndex(attrs[..|attrs| - 1])
  }

  /** The key the element passes: the value of its last `key` attribute, else null. */
  function KeyOf(attrs: seq<Attribute>): Outcome<Expr>
  {
    match LastKeyIndex(attrs)
    case None => Done(NullLiteral)
    case Some(i) => AttrValueExpr(attrs[i].attrValue)
  }

  /** The error that converting one attribute throws, if any. */
  function AttrFailure(a: Attribute): Option<JsxError>
  {
    if IsKey(a) then
      var k := AttrValueExpr(a.attrValue);
      if k.Thrown? then Some(k.error) else None
    else
      var p := AttrProp(a);
      if p.Thrown? then Some(p.error) else None
  }

  /** Attribute i is the first whose conversion throws, and it throws err. */
  predicate AttrFailsFirstAt(attrs: seq<Attribute>, i: int, err: JsxError)
  {
    0 <= i < |attrs| && AttrFailure(attrs[i]) == Some(err) &&
    forall j | 0 <= j < i :: AttrFailure(attrs[j]).None?
  }

  /** The attribute map succeeds exactly when every attribute converts. */
  lemma {:induction false} AttrsDoneMeaning(attrs: seq<Attribute>)
    ensures AttrsFold(attrs).Done? <==> forall i | 0 <= i < |attrs| :: AttrFailure(attrs[i]).None?
  {
    if attrs != [] {
      var pre := attrs[..|attrs| - 1];
      AttrsDoneMeaning(pre);
      assert forall i | 0 <= i < |pre| :: pre[i] == attrs[i];
    }
  }

  /** A failing attribute map throws the error of its first failing attribute. */
  lemma {:induction false} AttrsFirstFailure(attrs: seq<Attribute>)
    ensures AttrsFold(attrs).Thrown? ==> exists i :: AttrFailsFirstAt(attrs, i, AttrsFold(attrs).error)
  {
    if attrs != [] && AttrsFold(attrs).Thrown? {
      var pre := attrs[..|attrs| - 1];
      var err := AttrsFold(attrs).error;
      assert forall i | 0 <= i < |pre| :: pre[i] == attrs[i];
      if AttrsFold(pre).Thrown? {
        AttrsFirstFailure(pre);
        var i :| AttrFailsFirstAt(pre, i, err);
        assert AttrFailsFirstAt(attrs, i, err);
      } else {
        AttrsDoneMeaning(pre);
        assert AttrFailsFirstAt(attrs, |attrs| - 1, err);
      }
    }
  }

  /**
   * A successful attribute map holds one entry per non-key attribute, in
   * order, each that attribute's conversion, and the key of the last `key`
   * attribute.
   */
  lemma {:induction false} AttrsDone(attrs: seq<Attribute>)
    requires AttrsFold(attrs).Done?
    ensures |AttrsFold(attrs).value.0| == |NonKey(attrs)|
    ensures forall j | 0 <= j < |NonKey(attrs)| :: AttrProp(NonKey(attrs)[j]) == Done(AttrsFold(attrs).value.0[j])
    ensures KeyOf(attrs) == Done(AttrsFold(attrs).value.1)
  {
    if attrs != [] {
      var pre := attrs[..|attrs| - 1];
      var a := attrs[|attrs| - 1];
      AttrsDone(pre);
      var props := AttrsFold(pre).value.0;
      if IsKey(a) {
        assert NonKey(attrs) == NonKey(pre) + [];
      } else {
        assert NonKey(attrs) == NonKey(pre) + [a];
        assert LastKeyIndex(attrs) == LastKeyIndex(pre);
        assert AttrsFold(attrs).value.0 == props + [AttrProp(a).value];
      }
    }
  }

  /** Once a prefix of the attributes throws, the whole map throws the same error. */
  lemma {:induction false} AttrsFailureSticks(attrs: seq<Attribute>, i: nat)
    requires i <= |attrs|
    requires AttrsFold(attrs[..i]).Thrown?
    ensures AttrsFold(attrs) == AttrsFold(attrs[..i])
    decreases |attrs| - i
  {
    if i < |attrs| {
      assert attrs[..i + 1][..i] == attrs[..i];
      AttrsFailureSticks(attrs, i + 1);
    } else {
      assert attrs[..i] == attrs;
    }
  }

  /**
   * convertJSXElementToProps as the source writes it: a map over the
   * attributes that reassigns `key` from inside its callback, then the
   * `children` entry pushed on.
   */
  method ConvertElementToProps(n: JsxNode) returns (r: Outcome<(seq<Prop>, Expr)>)
    requires n.JsxElement?
    ensures r == PropsOf(n)
  {
    var key := NullLiteral;
    var props: seq<Prop> := [];
    var attrs := n.attributes;
    var i := 0;
    while i < |attrs|
      invariant 0 <= i <= |attrs|
      invariant AttrsFold(attrs[..i]) == Done((props, key))
    {
      var a := attrs[i];
      assert attrs[..i + 1][..i] == attrs[..i];
      if IsKey(a) {
        var k := AttrValueExpr(a.attrValue);
        if k.Thrown? {
          AttrsFailureSticks(attrs, i + 1);
          return Thrown(k.error);
        }
        key := k.value;
      } else {
        var p := AttrProp(a);
        if p.Thrown? {
          AttrsFailureSticks(attrs, i + 1);
          return Thrown(p.error);
        }
        props := props + [p.value];
      }
      i := i + 1;
    }
    assert attrs[..i] == attrs;
    if |n.children| > 0 {
      var ch := ConvertChildren(n.children);
      if ch.Thrown? {
        return Thrown(ch.error);
      }
      props := props + [ObjectProperty(Identifier(ChildrenName), ch.value)];
    }
    return Done((props, key));
  }

  // ---------------------------------------------------------------------
  // What the children conversion computes
  // ---------------------------------------------------------------------

  /** The children that are not dropped, in order. */
  function KeptChildren(cs: seq<Child>): (r: seq<Child>)
    ensures |r| <= |cs|
    ensures forall j | 0 <= j < |r| :: !Dropped(r[j])
  {
    if cs == [] then []
    else KeptChildren(cs[..|cs| - 1]) + (if Dropped(cs[|cs| - 1]) then [] else [cs[|cs| - 1]])
  }

  /** Child i is the first whose conversion throws, and it throws err. */
  predicate ChildFailsFirstAt(cs: seq<Child>, i: int, err: JsxError)
  {
    0 <= i < |cs| && ConvertChild(cs[i]) == Thrown(err) &&
    forall j | 0 <= j < i :: ConvertChild(cs[j]).Done?
  }

  /** The children convert exactly when each of them does. */
  lemma {:induction false} ChildrenDoneMeaning(cs: seq<Child>)
    ensures ChildrenFold(cs).Done? <==> forall i | 0 <= i < |cs| :: ConvertChild(cs[i]).Done?
  {
    if cs != [] {
      var pre := cs[..|cs| - 1];
      ChildrenDoneMeaning(pre);
      assert forall i | 0 <= i < |pre| :: pre[i] == cs[i];
    }
  }

  /** Failing children throw the error of the first failing child. */
  lemma {:induction false} ChildrenFirstFailure(cs: seq<Child>)
    ensures ChildrenFold(cs).Thrown? ==> exists i :: ChildFailsFirstAt(cs, i, ChildrenFold(cs).error)
  {
    if cs != [] && ChildrenFold(cs).Thrown? {
      var pre := cs[..|cs| - 1];
      var err := ChildrenFold(cs).error;
      assert forall i | 0 <= i < |pre| :: pre[i] == cs[i];
      if ChildrenFold(pre).Thrown? {
        ChildrenFirstFailure(pre);
        var i :| ChildFailsFirstAt(pre, i, err);
        assert ChildFailsFirstAt(cs, i, err);
      } else {
        ChildrenDoneMeaning(pre);
        assert ChildFailsFirstAt(cs, |cs| - 1, err);
      }
    }
  }

  /** Converted children are the conversions of the children that are kept, in order. */
  lemma {:induction false} ChildrenDone(cs: seq<Child>)
    requires ChildrenFold(cs).Done?
    ensures |ChildrenFold(cs).value| == |KeptChildren(cs)|
    ensures forall j | 0 <= j < |KeptChildren(cs)| :: ConvertChild(KeptChildren(cs)[j]) == Done(Some(ChildrenFold(cs).value[j]))
  {
    if cs != [] {
      var pre := cs[..|cs| - 1];
      var c := cs[|cs| - 1];
      ChildrenDone(pre);
      if Dropped(c) {
        assert KeptChildren(cs) == KeptChildren(pre) + [];
      } else {
        assert KeptChildren(cs) == KeptChildren(pre) + [c];
        assert ChildrenFold(cs).value == ChildrenFold(pre).value + [ConvertChild(c).value.value];
      }
    }
  }

  /**
   * convertJSXChildren passes a single kept child's conversion as it is
   * and any other number of kept children as an array of their conversions.
   */
  lemma ConvertChildrenMeaning(cs: seq<Child>)
    ensures ConvertChildren(cs).Done? <==> forall i | 0 <= i < |cs| :: ConvertChild(cs[i]).Done?
    ensures ConvertChildren(cs).Done? && |KeptChildren(cs)| == 1 ==>
      ConvertChild(KeptChildren(cs)[0]) == Done(Some(ConvertChildren(cs).value))
    ensures ConvertChildren(cs).Done? && |KeptChildren(cs)| != 1 ==>
      var v := ConvertChildren(cs).value;
      v.ArrayExpression? && |v.elements| == |KeptChildren(cs)| &&
      forall j | 0 <= j < |v.elements| :: ConvertChild(KeptChildren(cs)[j]) == Done(Some(v.elements[j]))
  {
    ChildrenDoneMeaning(cs);
    if ChildrenFold(cs).Done? {
      ChildrenDone(cs);
    }
  }

  // ---------------------------------------------------------------------
  // What an element and a fragment become
  // ---------------------------------------------------------------------

  /**
   * An element becomes a call of the jsx function on its type, its props
   * object and its key. The attributes are converted before the name, so
   * their error wins; the props hold a `children` entry exactly when the
   * element has children, and it comes last.
   */
  lemma ElementMeaning(n: JsxNode)
    requires n.JsxElement?
    ensures ConvertNode(n).Done? <==>
      AttrsFold(n.attributes).Done? && (|n.children| > 0 ==> ConvertChildren(n.children).Done?) && ElementType(n.name).Done?
    ensures AttrsFold(n.attributes).Thrown? ==> ConvertNode(n) == Thrown(AttrsFold(n.attributes).error)
    ensures ConvertNode(n).Done? ==>
      var call := ConvertNode(n).value;
      call.CallExpression? && call.callee == Identifier(JsxFunctionName) && |call.arguments| == 3 &&
      Done(call.arguments[0]) == ElementType(n.name) &&
      Done(call.arguments[2]) == KeyOf(n.attributes) &&
      call.arguments[1].ObjectExpression? &&
      |call.arguments[1].properties| == |NonKey(n.attributes)| + (if |n.children| > 0 then 1 else 0)
    ensures ConvertNode(n).Done? && |n.children| > 0 ==>
      var props := ConvertNode(n).value.arguments[1].properties;
      props[|props| - 1].ObjectProperty? && props[|props| - 1].key == Identifier(ChildrenName) &&
      Done(props[|props| - 1].value) == ConvertChildren(n.children)
  {
    if AttrsFold(n.attributes).Done? {
      AttrsDone(n.attributes);
    }
  }

  /**
   * A fragment becomes a call of the jsx function on the Fragment name, an
   * object with the single entry `children`, and a null key; an empty
   * fragment still passes `children: []`.
   */
  lemma FragmentMeaning(cs: seq<Child>)
    ensures ConvertNode(JsxFragment(cs)).Done? <==> forall i | 0 <= i < |cs| :: ConvertChild(cs[i]).Done?
    ensures ConvertNode(JsxFragment(cs)).Done? ==>
      exists v :: Done(v) == ConvertChildren(cs) &&
        ConvertNode(JsxFragment(cs)).value == CallExpression(Identifier(JsxFunctionName),
          [Identifier(FragmentName), ObjectExpression([ObjectProperty(Identifier(ChildrenName), v)]), NullLiteral])
    ensures cs == [] ==> ConvertNode(JsxFragment(cs)) == Done(CallExpression(Identifier(JsxFunctionName),
          [Identifier(FragmentName), ObjectExpression([ObjectProperty(Identifier(ChildrenName), ArrayExpression([]))]), NullLiteral]))
  {
    ConvertChildrenMeaning(cs);
    if ConvertNode(JsxFragment(cs)).Done? {
      var v := ConvertChildren(cs).value;
      assert Done(v) == ConvertChildren(cs);
    }
  }

  // ---------------------------------------------------------------------
  // Finding: the spread argument is not transformed (line 171)
  // ---------------------------------------------------------------------

  /**
   * The props entry line 171 builds for a spread attribute: the argument as
   * it is. The visitors of lines 341-356 skip the traversal of the node they
   * replace, so nothing transforms that argument afterwards.
   */
  function SpreadAsWritten(a: Attribute): (r: Prop)
    requires a.JsxSpreadAttribute?
    ensures r.SpreadElement? && r.argument == a.spreadArgument
  {
    SpreadElement(a.spreadArgument)
  }

  /** For an argument without JSX the corrected entry is the one the source builds. */
  lemma SpreadAgrees(a: Attribute)
    requires a.JsxSpreadAttribute? && JsxFree(a.spreadArgument)
    ensures AttrProp(a) == Done(SpreadAsWritten(a))
  {
    var e := TransformExpr(a.spreadArgument);
    assert e == Done(a.spreadArgument);
    assert AttrProp(a) == Done(SpreadElement(e.value));
  }

  /**
   * `<div {...{child: <br/>}} />`: as written the `<br/>` element is left in
   * the output; the corrected entry holds its conversion instead.
   */
  lemma SpreadKeepsJsx()
    ensures
      var br := JsxElement(JsxIdentifier("br"), [], []);
      var a := JsxSpreadAttribute(ObjectExpression([ObjectProperty(Identifier("child"), Jsx(br))]));
      !PropJsxFree(SpreadAsWritten(a)) && AttrProp(a).Done? && PropJsxFree(AttrProp(a).value)
  {
    var br := JsxElement(JsxIdentifier("br"), [], []);
    var ps := [ObjectProperty(Identifier("child"), Jsx(br))];
    assert !PropJsxFree(ps[0]);
    assert !PropsJsxFree(ps);
    assert IsIntrinsic("br");
    assert AttrsFold([]) == Done(([], NullLiteral));
    assert PropsOf(br).Done?;
    assert ConvertNode(br).Done?;
    assert TransformExpr(Jsx(br)).Done?;
    assert TransformProp(ps[0]).Done?;
    assert ps[..0] == [];
    assert TransformProps(ps).Done?;
  }
}
