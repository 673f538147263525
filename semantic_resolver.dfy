/**
 * Early-error rules of the semantic resolver: the directive prologue,
 * declaration-name validity, redeclaration conflicts, private class names
 * (section 15.7.1 of ECMAScript 2024), the names bound by a destructuring
 * pattern, assignment targets, and label / break / continue resolution.
 */
module SemanticResolver {
  import opened Wrappers

  // ---------------------------------------------------------------------------
  // Directive prologue (scanDirectives)

  /** A statement of a function body: a directive (a string-literal expression statement) or anything else. */
  datatype Statement = Directive(text: string) | NonDirective

  /** SourceVisibility, in increasing order of strength. */
  const VisibilityDefault: nat := 0
  const VisibilityShowSource: nat := 1
  const VisibilityHideSource: nat := 2
  const VisibilitySensitive: nat := 3

  /** What the prologue says: the index of the "use strict" directive, the visibility, and the inline hints. */
  datatype FoundDirectives = FoundDirectives(
    useStrictIndex: Option<nat>,
    sourceVisibility: nat,
    alwaysInline: bool,
    noInline: bool)

  /** The visibility a directive asks for (Default for any other directive). */
  function VisibilityOf(text: string): (v: nat)
    ensures v <= VisibilitySensitive
  {
    if text == "show source" then VisibilityShowSource
    else if text == "hide source" then VisibilityHideSource
    else if text == "sensitive" then VisibilitySensitive
    else VisibilityDefault
  }

  /** The number of leading directives: scanning stops at the first other statement. */
  function PrologueLength(body: seq<Statement>): (n: nat)
    ensures n <= |body|
    ensures forall k :: 0 <= k < n ==> body[k].Directive?
    ensures n == |body| || !body[n].Directive?
  {
    if body == [] || !body[0].Directive? then 0 else 1 + PrologueLength(body[1..])
  }

  /** One directive at `index` applied to what has been found so far. */
  function Step(d: FoundDirectives, index: nat, text: string): FoundDirectives
  {
    var useStrict := if text == "use strict" && d.useStrictIndex.None? then Some(index) else d.useStrictIndex;
    var visibility := if VisibilityOf(text) > d.sourceVisibility then VisibilityOf(text) else d.sourceVisibility;
    if text == "inline" then FoundDirectives(useStrict, visibility, true, false)
    else if text == "noinline" then FoundDirectives(useStrict, visibility, false, true)
    else FoundDirectives(useStrict, visibility, d.alwaysInline, d.noInline)
  }

  /** The directives found in the first `n` statements, all of which are directives. */
  function Fold(body: seq<Statement>, n: nat): FoundDirectives
    requires n <= |body| && forall k :: 0 <= k < n ==> body[k].Directive?
  {
    if n == 0 then FoundDirectives(None, VisibilityDefault, false, false)
    else Step(Fold(body, n - 1), n - 1, body[n - 1].text)
  }

  /** The specification of scanDirectives: the fold over the directive prologue. */
  function DirectivesOf(body: seq<Statement>): FoundDirectives
  {
    Fold(body, PrologueLength(body))
  }

  /** scanDirectives: walk the body until the first statement that is not a directive. */
  method ScanDirectives(body: seq<Statement>) returns (d: FoundDirectives)
    ensures d == DirectivesOf(body)
  {
    d := FoundDirectives(None, VisibilityDefault, false, false);
    var i := 0;
    while i < |body|
      invariant i <= PrologueLength(body) && d == Fold(body, i)
    {
      if !body[i].Directive? {
        break;
      }
      var text := body[i].text;
      if text == "use strict" {
        if d.useStrictIndex.None? {
          d := d.(useStrictIndex := Some(i));
        }
      } else if text == "show source" {
        if VisibilityShowSource > d.sourceVisibility {
          d := d.(sourceVisibility := VisibilityShowSource);
        }
      } else if text == "hide source" {
        if VisibilityHideSource > d.sourceVisibility {
          d := d.(sourceVisibility := VisibilityHideSource);
        }
      } else if text == "sensitive" {
        if VisibilitySensitive > d.sourceVisibility {
          d := d.(sourceVisibility := VisibilitySensitive);
        }
      }
      if text == "inline" {
        if d.noInline {
          d := d.(noInline := false);
        }
        d := d.(alwaysInline := true);
      }
      if text == "noinline" {
        if d.alwaysInline {
          d := d.(alwaysInline := false);
        }
        d := d.(noInline := true);
      }
      i := i + 1;
    }
  }

  /** The fold over the first n directives records the index of the first "use strict". */
  lemma {:induction false} FoldUseStrict(body: seq<Statement>, n: nat)
    requires n <= |body| && forall k :: 0 <= k < n ==> body[k].Directive?
    ensures var d := Fold(body, n);
      && (d.useStrictIndex.Some? <==> exists k :: 0 <= k < n && body[k].text == "use strict")
      && (d.useStrictIndex.Some? ==>
            var k := d.useStrictIndex.value;
            k < n && body[k].text == "use strict" && forall j :: 0 <= j < k ==> body[j].text != "use strict")
  {
    if n > 0 {
      FoldUseStrict(body, n - 1);
      if body[n - 1].text == "use strict" {
        assert 0 <= n - 1 < n && body[n - 1].text == "use strict";
      }
      if exists k :: 0 <= k < n && body[k].text == "use strict" {
        var k :| 0 <= k < n && body[k].text == "use strict";
        if k < n - 1 {
          assert 0 <= k < n - 1 && body[k].text == "use strict";
        }
      }
    }
  }

  /** The fold over the first n directives records the strongest visibility asked for. */
  lemma {:induction false} FoldVisibility(body: seq<Statement>, n: nat)
    requires n <= |body| && forall k :: 0 <= k < n ==> body[k].Directive?
    ensures var d := Fold(body, n);
      && (forall k :: 0 <= k < n ==> VisibilityOf(body[k].text) <= d.sourceVisibility)
      && (d.sourceVisibility == VisibilityDefault || exists k :: 0 <= k < n && VisibilityOf(body[k].text) == d.sourceVisibility)
  {
    if n > 0 {
      FoldVisibility(body, n - 1);
      var prev := Fold(body, n - 1).sourceVisibility;
      var t := body[n - 1].text;
      if VisibilityOf(t) > prev {
        assert 0 <= n - 1 < n && VisibilityOf(body[n - 1].text) == Fold(body, n).sourceVisibility;
      } else if prev != VisibilityDefault {
        var k :| 0 <= k < n - 1 && VisibilityOf(body[k].text) == prev;
        assert 0 <= k < n;
      }
    }
  }

  /** Among the first n statements, some directive `hint` is not followed by a directive `other`. */
  ghost predicate LastOf(body: seq<Statement>, n: nat, hint: string, other: string)
    requires n <= |body| && forall k :: 0 <= k < n ==> body[k].Directive?
  {
    exists k :: 0 <= k < n && body[k].text == hint && forall j :: k < j < n ==> body[j].text != other
  }

  /** How one more directive changes which of two hints came last. */
  lemma LastOfStep(body: seq<Statement>, n: nat, hint: string, other: string)
    requires 0 < n <= |body| && forall k :: 0 <= k < n ==> body[k].Directive?
    requires hint != other
    ensures LastOf(body, n, hint, other) <==>
      if body[n - 1].text == hint then true
      else if body[n - 1].text == other then false
      else LastOf(body, n - 1, hint, other)
  {
    var t := body[n - 1].text;
    if t == hint {
      assert 0 <= n - 1 < n && body[n - 1].text == hint;
    } else if t != other {
      if LastOf(body, n - 1, hint, other) {
        var k :| 0 <= k < n - 1 && body[k].text == hint && forall j :: k < j < n - 1 ==> body[j].text != other;
        assert forall j :: k < j < n ==> body[j].text != other;
      }
      if LastOf(body, n, hint, other) {
        var k :| 0 <= k < n && body[k].text == hint && forall j :: k < j < n ==> body[j].text != other;
        assert k < n - 1;
      }
    }
  }

  /** The fold over the first n directives keeps the inline hint of the last 'inline' or 'noinline', so never both. */
  lemma {:induction false} FoldInline(body: seq<Statement>, n: nat)
    requires n <= |body| && forall k :: 0 <= k < n ==> body[k].Directive?
    ensures var d := Fold(body, n);
      && (d.alwaysInline <==> LastOf(body, n, "inline", "noinline"))
      && (d.noInline <==> LastOf(body, n, "noinline", "inline"))
      && !(d.alwaysInline && d.noInline)
  {
    if n > 0 {
      FoldInline(body, n - 1);
      LastOfStep(body, n, "inline", "noinline");
      LastOfStep(body, n, "noinline", "inline");
    }
  }

  /** The fold over a prefix only looks at the prefix. */
  lemma {:induction false} FoldPrefix(body: seq<Statement>, m: nat, n: nat)
    requires n <= m <= |body| && forall k :: 0 <= k < n ==> body[k].Directive?
    ensures Fold(body[..m], n) == Fold(body, n)
  {
    if n > 0 {
      FoldPrefix(body, m, n - 1);
    }
  }

  /** Nothing after the first non-directive statement matters. */
  lemma ScanStopsAtNonDirective(body: seq<Statement>, rest: seq<Statement>)
    ensures DirectivesOf(body[..PrologueLength(body)] + [NonDirective] + rest) == DirectivesOf(body)
  {
    var p := PrologueLength(body);
    var b := body[..p] + [NonDirective] + rest;
    PrologueOf(body[..p], rest);
    assert b[..p + 1][..p] == body[..p];
    FoldPrefix(b, p, p);
    FoldPrefix(body, p, p);
    assert b[..p] == body[..p];
  }

  /** A run of directives followed by another statement is exactly the prologue. */
  lemma {:induction false} PrologueOf(ds: seq<Statement>, rest: seq<Statement>)
    requires forall k :: 0 <= k < |ds| ==> ds[k].Directive?
    ensures PrologueLength(ds + [NonDirective] + rest) == |ds|
  {
    if ds != [] {
      assert (ds + [NonDirective] + rest)[1..] == ds[1..] + [NonDirective] + rest;
      PrologueOf(ds[1..], rest);
    }
  }

  // ---------------------------------------------------------------------------
  // Declarations

  /**
   * Decl::Kind. The let-like kinds come first and the var-like kinds last; the
   * classification follows the order of the enumeration.
   */
  datatype DeclKind =
    | Let | Const | Class | Import | ScopedFunction
    | ES5Catch | Catch | FunctionExprName | ClassExprName | Parameter
    | Var | GlobalProperty | UndeclaredGlobalProperty

  predicate IsLetLike(k: DeclKind)
  {
    k.Let? || k.Const? || k.Class? || k.Import? || k.ScopedFunction?
  }

  predicate IsVarLike(k: DeclKind)
  {
    k.Var? || k.GlobalProperty? || k.UndeclaredGlobalProperty?
  }

  /** validateDeclarationName: the names a declaration of this kind may not use. */
  predicate ValidDeclarationName(kind: DeclKind, name: string, strict: bool)
  {
    && !(strict && (name == "arguments" || name == "eval"))
    && !(strict && kind.Parameter? && name == "let")
    && !((kind.Let? || kind.Const?) && name == "let")
  }

  /**
   * In loose code only a let/const binding named 'let' is refused; strict code
   * also refuses 'arguments' and 'eval' for every kind and a parameter named
   * 'let'. Any other name is accepted everywhere.
   */
  lemma ValidDeclarationNameMeaning(kind: DeclKind, name: string, strict: bool)
    ensures !strict ==> (ValidDeclarationName(kind, name, strict) <==> !((kind.Let? || kind.Const?) && name == "let"))
    ensures name != "arguments" && name != "eval" && name != "let" ==> ValidDeclarationName(kind, name, strict)
    ensures strict && (name == "arguments" || name == "eval") ==> !ValidDeclarationName(kind, name, strict)
    ensures name == "let" && (kind.Let? || kind.Const? || (strict && kind.Parameter?)) ==> !ValidDeclarationName(kind, name, strict)
  {
  }

  /** Where the previous binding of the same name lives, relative to the new declaration. */
  datatype Placement = Placement(sameScope: bool, topLevel: bool, prevInPrevScope: bool)

  /** The redeclaration check of validateAndDeclareIdentifier. */
  predicate RedeclarationError(prevKind: DeclKind, kind: DeclKind, at: Placement, strict: bool)
  {
    || (IsLetLike(prevKind) && IsVarLike(kind))
    || (IsVarLike(prevKind) && IsLetLike(kind) && at.sameScope)
    || (IsLetLike(prevKind) && IsLetLike(kind) && at.sameScope
        && !(!strict && prevKind.ScopedFunction? && kind.ScopedFunction?))
    || (prevKind.Parameter? && IsLetLike(kind) && at.topLevel)
    || ((prevKind.Catch? || prevKind.ES5Catch?) && IsLetLike(kind) && at.prevInPrevScope)
  }

  /** What validateAndDeclareIdentifier does with a declaration. */
  datatype DeclareOutcome =
    | Rejected
      /** The declaration reuses the previous Decl (var after var, and so on). */
    | ReusePrevious
      /** A new binding to the already promoted function Decl. */
    | ReusePromoted
    | DeclareNew

  /** The previous binding of the name, if it is in the current function. */
  datatype PrevDecl = PrevDecl(kind: DeclKind, at: Placement)

  /**
   * validateAndDeclareIdentifier: refuse an invalid name or a conflicting
   * redeclaration; otherwise decide whether the declaration reuses a Decl.
   * `promoted` says the name is among the function's promoted function Decls.
   */
  function Declare(kind: DeclKind, name: string, prev: Option<PrevDecl>, strict: bool, promoted: bool): (r: DeclareOutcome)
    ensures r.Rejected? <==>
      !ValidDeclarationName(kind, name, strict) ||
      (prev.Some? && !prev.value.kind.UndeclaredGlobalProperty? && RedeclarationError(prev.value.kind, kind, prev.value.at, strict))
    ensures r.ReusePrevious? ==> prev.Some? && IsVarLike(prev.value.kind)
    ensures r.ReusePromoted? ==> promoted && kind.ScopedFunction? && prev.Some?
    ensures prev.None? ==> r.Rejected? || r.DeclareNew?
  {
    if !ValidDeclarationName(kind, name, strict) then Rejected
    else match prev
      case None => DeclareNew
      case Some(p) =>
        if p.kind.UndeclaredGlobalProperty? then DeclareNew
        else if RedeclarationError(p.kind, kind, p.at, strict) then Rejected
        else if IsVarLike(p.kind) && IsVarLike(kind) then ReusePrevious
        else if IsVarLike(p.kind) && kind.ScopedFunction? then
          if p.at.sameScope then ReusePrevious else if promoted then ReusePromoted else DeclareNew
        else if p.kind.ES5Catch? && kind.ScopedFunction? then
          if promoted then ReusePromoted else DeclareNew
        else DeclareNew
  }

  /**
   * The case-by-case table of validateAndDeclareIdentifier, for a valid name
   * redeclared in the same function: var after var is valid and reuses the
   * Decl; a scoped function after a var is valid (the two never share a
   * scope, since var is top-level only); a scoped function after a
   * scoped function is refused only in strict code in the same scope; var
   * after let is always refused; a scoped function after let, and let after
   * var, a scoped function or let, are refused iff in the same scope; let
   * after a parameter is refused iff it is top-level, and after a catch
   * variable iff the catch variable is in the enclosing scope.
   */
  lemma RedeclarationRules(at: Placement, strict: bool, name: string, promoted: bool)
    requires ValidDeclarationName(Let, name, strict)
    ensures Declare(Var, name, Some(PrevDecl(Var, at)), strict, promoted) == ReusePrevious
    ensures !at.sameScope ==> Declare(ScopedFunction, name, Some(PrevDecl(Var, at)), strict, promoted) != Rejected
    ensures (Declare(ScopedFunction, name, Some(PrevDecl(ScopedFunction, at)), strict, promoted) == Rejected)
      <==> strict && at.sameScope
    ensures Declare(Var, name, Some(PrevDecl(Let, at)), strict, promoted) == Rejected
    ensures (Declare(ScopedFunction, name, Some(PrevDecl(Let, at)), strict, promoted) == Rejected) <==> at.sameScope
    ensures forall prev :: prev in {Var, ScopedFunction, Let} ==>
      ((Declare(Let, name, Some(PrevDecl(prev, at)), strict, promoted) == Rejected) <==> at.sameScope)
    ensures (Declare(Let, name, Some(PrevDecl(Parameter, at)), strict, promoted) == Rejected) <==> at.topLevel
    ensures (Declare(Let, name, Some(PrevDecl(Catch, at)), strict, promoted) == Rejected) <==> at.prevInPrevScope
  {
  }

  // ---------------------------------------------------------------------------
  // Private names (collectDeclaredPrivateIdentifiers)

  /** A class body element, as far as private names go. */
  datatype ClassElement =
    | PrivateProperty(name: string)
    | PrivateMethod(name: string, isStatic: bool)
    | PrivateAccessor(name: string, isSetter: bool, isStatic: bool)
    | OtherElement

  /** PrivateAccessorInfo. */
  datatype AccessorInfo = AccessorInfo(isAccessor: bool, isStatic: bool, isGetter: bool, isSetter: bool)

  /** The Decl kind given to a private name. */
  datatype PrivateKind = PrivateField | PrivateMethodKind | PrivateGetter | PrivateSetter | PrivateGetterSetter

  datatype PrivateError = Duplicate(index: nat) | StaticMismatch(index: nat)

  datatype PrivateNames = PrivateNames(info: map<string, AccessorInfo>, kinds: map<string, PrivateKind>, errors: seq<PrivateError>)

  /** One class element at `index` applied to the private names declared so far. */
  function DeclarePrivate(st: PrivateNames, index: nat, e: ClassElement): (r: PrivateNames)
    ensures r.errors == st.errors || r.errors == st.errors + [Duplicate(index)] || r.errors == st.errors + [StaticMismatch(index)]
    ensures r.errors != st.errors ==> r.info == st.info && r.kinds == st.kinds
    ensures e.OtherElement? ==> r == st
    ensures !e.OtherElement? ==> r.info.Keys == st.info.Keys + {e.name}
  {
    match e
    case OtherElement => st
    case PrivateProperty(n) =>
      if n in st.info then st.(errors := st.errors + [Duplicate(index)])
      else PrivateNames(st.info[n := AccessorInfo(false, false, false, false)], st.kinds[n := PrivateField], st.errors)
    case PrivateMethod(n, _) =>
      if n in st.info then st.(errors := st.errors + [Duplicate(index)])
      else PrivateNames(st.info[n := AccessorInfo(false, false, false, false)], st.kinds[n := PrivateMethodKind], st.errors)
    case PrivateAccessor(n, isSetter, isStatic) =>
      if n !in st.info then
        PrivateNames(st.info[n := AccessorInfo(true, isStatic, !isSetter, isSetter)],
          st.kinds[n := if isSetter then PrivateSetter else PrivateGetter], st.errors)
      else
        var existing := st.info[n];
        if !existing.isAccessor || (isSetter && existing.isSetter) || (!isSetter && existing.isGetter) then
          st.(errors := st.errors + [Duplicate(index)])
        else if isStatic != existing.isStatic then st.(errors := st.errors + [StaticMismatch(index)])
        else PrivateNames(st.info[n := existing.(isGetter := true, isSetter := true)], st.kinds[n := PrivateGetterSetter], st.errors)
  }

  /** The private names after the first n elements. */
  function PrivateFold(elements: seq<ClassElement>, n: nat): PrivateNames
    requires n <= |elements|
  {
    if n == 0 then PrivateNames(map[], map[], [])
    else DeclarePrivate(PrivateFold(elements, n - 1), n - 1, elements[n - 1])
  }

  /** The accessor info and the Decl kind of every private name agree. */
  predicate PrivateNamesConsistent(st: PrivateNames)
  {
    && st.info.Keys == st.kinds.Keys
    && forall n :: n in st.info ==>
      var i := st.info[n];
      match st.kinds[n]
      case PrivateField => !i.isAccessor
      case PrivateMethodKind => !i.isAccessor
      case PrivateGetter => i.isAccessor && i.isGetter && !i.isSetter
      case PrivateSetter => i.isAccessor && i.isSetter && !i.isGetter
      case PrivateGetterSetter => i.isAccessor && i.isGetter && i.isSetter
  }

  /**
   * Declaring a private name keeps info and kinds consistent; a name's entry is
   * only ever added, or turned from a lone getter or setter into a getter-setter
   * pair; and a name already paired refuses every further declaration.
   */
  lemma DeclarePrivateStep(st: PrivateNames, index: nat, e: ClassElement)
    requires PrivateNamesConsistent(st)
    ensures var st' := DeclarePrivate(st, index, e);
      && PrivateNamesConsistent(st')
      && st.kinds.Keys <= st'.kinds.Keys
      && (forall n :: n in st.kinds && st'.kinds[n] != st.kinds[n] ==>
            (st.kinds[n] == PrivateGetter || st.kinds[n] == PrivateSetter) && st'.kinds[n] == PrivateGetterSetter)
      && (e != OtherElement && e.name in st.kinds && st.kinds[e.name] == PrivateGetterSetter ==>
            st'.kinds == st.kinds && |st'.errors| == |st.errors| + 1)
  {
  }

  /**
   * A getter and a setter of the same static-ness pair up without error; with
   * different static-ness the second is refused; and a third declaration of the
   * name is refused.
   */
  lemma PrivateAccessorPairs(n: string, s: bool, third: ClassElement)
    requires third != OtherElement && third.name == n
    ensures PrivateFold([PrivateAccessor(n, false, s), PrivateAccessor(n, true, s)], 2)
      == PrivateNames(map[n := AccessorInfo(true, s, true, true)], map[n := PrivateGetterSetter], [])
    ensures PrivateFold([PrivateAccessor(n, false, s), PrivateAccessor(n, true, !s)], 2).errors == [StaticMismatch(1)]
    ensures PrivateFold([PrivateAccessor(n, false, s), PrivateAccessor(n, true, s), third], 3).errors == [Duplicate(2)]
  {
    var getter := PrivateNames(map[n := AccessorInfo(true, s, true, false)], map[n := PrivateGetter], []);
    var pair := PrivateNames(map[n := AccessorInfo(true, s, true, true)], map[n := PrivateGetterSetter], []);
    assert PrivateFold([PrivateAccessor(n, false, s), PrivateAccessor(n, true, s)], 1) == getter;
    assert PrivateFold([PrivateAccessor(n, false, s), PrivateAccessor(n, true, !s)], 1) == getter;
    assert PrivateFold([PrivateAccessor(n, false, s), PrivateAccessor(n, true, s), third], 1) == getter;
    assert PrivateFold([PrivateAccessor(n, false, s), PrivateAccessor(n, true, s), third], 2) == pair;
  }

  /** collectDeclaredPrivateIdentifiers: the loop over the class body. */
  method CollectDeclaredPrivateIdentifiers(elements: seq<ClassElement>) returns (st: PrivateNames)
    ensures st == PrivateFold(elements, |elements|)
  {
    st := PrivateNames(map[], map[], []);
    var i := 0;
    while i < |elements|
      invariant i <= |elements| && st == PrivateFold(elements, i)
    {
      var e := elements[i];
      match e {
        case OtherElement =>
        case PrivateProperty(n) =>
          if n in st.info {
            st := st.(errors := st.errors + [Duplicate(i)]);
          } else {
            st := PrivateNames(st.info[n := AccessorInfo(false, false, false, false)], st.kinds[n := PrivateField], st.errors);
          }
        case PrivateMethod(n, _) =>
          if n in st.info {
            st := st.(errors := st.errors + [Duplicate(i)]);
          } else {
            st := PrivateNames(st.info[n := AccessorInfo(false, false, false, false)], st.kinds[n := PrivateMethodKind], st.errors);
          }
        case PrivateAccessor(n, isSetter, isStatic) =>
          var cur := AccessorInfo(true, isStatic, !isSetter, isSetter);
          if n !in st.info {
            st := PrivateNames(st.info[n := cur], st.kinds[n := if isSetter then PrivateSetter else PrivateGetter], st.errors);
          } else {
            var existing := st.info[n];
            if !existing.isAccessor || (cur.isSetter && existing.isSetter) || (cur.isGetter && existing.isGetter) {
              st := st.(errors := st.errors + [Duplicate(i)]);
            } else if cur.isStatic != existing.isStatic {
              st := st.(errors := st.errors + [StaticMismatch(i)]);
            } else {
              st := PrivateNames(st.info[n := existing.(isGetter := true, isSetter := true)], st.kinds[n := PrivateGetterSetter], st.errors);
            }
          }
      }
      i := i + 1;
    }
  }

  // ---------------------------------------------------------------------------
  // Names bound by a destructuring pattern (extractDeclaredIdentsFromID)

  datatype Pattern =
    | Absent
    | Identifier(name: string)
    | EmptyPattern
    | AssignmentPattern(left: Pattern)
    | ArrayPattern(elements: seq<Pattern>)
    | RestElement(argument: Pattern)
    | ObjectPattern(properties: seq<ObjectProperty>)
      /** A Flow component parameter, which binds its `local` pattern. */
    | ComponentParameter(local: Pattern)
      /** Any other node: an invalid destructuring target. */
    | InvalidTarget

  /** An object-pattern entry: `key: value` or `...rest`. */
  datatype ObjectProperty = Property(value: Pattern) | RestProperty(argument: Pattern)

  /** The identifiers a pattern binds, left to right. */
  function BoundNames(p: Pattern): seq<string>
    decreases p, 1
  {
    match p
    case Identifier(n) => [n]
    case AssignmentPattern(l) => BoundNames(l)
    case ArrayPattern(es) => BoundNamesOfElements(p, es)
    case RestElement(a) => BoundNames(a)
    case ObjectPattern(ps) => BoundNamesOfProperties(p, ps)
    case ComponentParameter(l) => BoundNames(l)
    case _ => []
  }

  function BoundNamesOfElements(p: Pattern, es: seq<Pattern>): seq<string>
    requires forall e :: e in es ==> e < p
    decreases p, 0, |es|
  {
    if es == [] then []
    else
      assert es[0] in es && forall e :: e in es[1..] ==> e in es;
      BoundNames(es[0]) + BoundNamesOfElements(p, es[1..])
  }

  function BoundNamesOfProperties(p: Pattern, ps: seq<ObjectProperty>): seq<string>
    requires forall q :: q in ps ==> q < p
    decreases p, 0, |ps|
  {
    if ps == [] then []
    else
      var inner := match ps[0] case Property(v) => v case RestProperty(a) => a;
      assert ps[0] in ps && forall q :: q in ps[1..] ==> q in ps;
      assert inner < ps[0];
      BoundNames(inner) + BoundNamesOfProperties(p, ps[1..])
  }

  /** Whether a pattern holds a default value (an AssignmentPattern) where the walk reports it. */
  function HasDefault(p: Pattern): bool
    decreases p, 1
  {
    match p
    case AssignmentPattern(_) => true
    case ArrayPattern(es) => HasDefaultInElements(p, es)
    case RestElement(a) => HasDefault(a)
    case ObjectPattern(ps) => HasDefaultInProperties(p, ps)
    case ComponentParameter(l) => HasDefault(l)
    case _ => false
  }

  function HasDefaultInElements(p: Pattern, es: seq<Pattern>): bool
    requires forall e :: e in es ==> e < p
    decreases p, 0, |es|
  {
    if es == [] then false
    else
      assert es[0] in es && forall e :: e in es[1..] ==> e in es;
      HasDefault(es[0]) || HasDefaultInElements(p, es[1..])
  }

  function HasDefaultInProperties(p: Pattern, ps: seq<ObjectProperty>): bool
    requires forall q :: q in ps ==> q < p
    decreases p, 0, |ps|
  {
    if ps == [] then false
    else
      var inner := match ps[0] case Property(v) => v case RestProperty(a) => a;
      assert ps[0] in ps && forall q :: q in ps[1..] ==> q in ps;
      assert inner < ps[0];
      HasDefault(inner) || HasDefaultInProperties(p, ps[1..])
  }

  /** How many "invalid destructuring target" errors the walk reports for a pattern. */
  function InvalidTargets(p: Pattern): nat
    decreases p, 1
  {
    match p
    case AssignmentPattern(l) => InvalidTargets(l)
    case ArrayPattern(es) => InvalidInElements(p, es)
    case RestElement(a) => InvalidTargets(a)
    case ObjectPattern(ps) => InvalidInProperties(p, ps)
    case ComponentParameter(l) => InvalidTargets(l)
    case InvalidTarget => 1
    case _ => 0
  }

  function InvalidInElements(p: Pattern, es: seq<Pattern>): nat
    requires forall e :: e in es ==> e < p
    decreases p, 0, |es|
  {
    if es == [] then 0
    else
      assert es[0] in es && forall e :: e in es[1..] ==> e in es;
      InvalidTargets(es[0]) + InvalidInElements(p, es[1..])
  }

  function InvalidInProperties(p: Pattern, ps: seq<ObjectProperty>): nat
    requires forall q :: q in ps ==> q < p
    decreases p, 0, |ps|
  {
    if ps == [] then 0
    else
      var inner := match ps[0] case Property(v) => v case RestProperty(a) => a;
      assert ps[0] in ps && forall q :: q in ps[1..] ==> q in ps;
      assert inner < ps[0];
      InvalidTargets(inner) + InvalidInProperties(p, ps[1..])
  }

  /**
   * extractDeclaredIdentsFromID: appends the bound identifiers to `idents`,
   * says whether the pattern contains a default value, and counts the
   * "invalid destructuring target" errors it reports. An invalid target
   * binds nothing, contains no default and draws one error.
   */
  method ExtractDeclaredIdentsFromID(node: Pattern, idents: seq<string>)
    returns (out: seq<string>, containsExpr: bool, invalid: nat)
    ensures out == idents + BoundNames(node)
    ensures containsExpr == HasDefault(node)
    ensures invalid == InvalidTargets(node)
    decreases node
  {
    match node {
      case Absent =>
        return idents, false, 0;
      case Identifier(n) =>
        return idents + [n], false, 0;
      case EmptyPattern =>
        return idents, false, 0;
      case AssignmentPattern(l) =>
        out, containsExpr, invalid := ExtractDeclaredIdentsFromID(l, idents);
        return out, true, invalid;
      case ArrayPattern(es) =>
        out, containsExpr, invalid := idents, false, 0;
        var i := 0;
        while i < |es|
          invariant i <= |es|
          invariant out + BoundNamesOfElements(node, es[i..]) == idents + BoundNames(node)
          invariant (containsExpr || HasDefaultInElements(node, es[i..])) == HasDefault(node)
          invariant invalid + InvalidInElements(node, es[i..]) == InvalidTargets(node)
        {
          ElementsStep(node, es, i, out);
          var c, n;
          out, c, n := ExtractDeclaredIdentsFromID(es[i], out);
          containsExpr := containsExpr || c;
          invalid := invalid + n;
          i := i + 1;
        }
        return out, containsExpr, invalid;
      case RestElement(a) =>
        out, containsExpr, invalid := ExtractDeclaredIdentsFromID(a, idents);
      case ObjectPattern(ps) =>
        out, containsExpr, invalid := idents, false, 0;
        var i := 0;
        while i < |ps|
          invariant i <= |ps|
          invariant out + BoundNamesOfProperties(node, ps[i..]) == idents + BoundNames(node)
          invariant (containsExpr || HasDefaultInProperties(node, ps[i..])) == HasDefault(node)
          invariant invalid + InvalidInProperties(node, ps[i..]) == InvalidTargets(node)
        {
          var inner := match ps[i] case Property(v) => v case RestProperty(a) => a;
          PropertiesStep(node, ps, i, out, inner);
          var c, n;
          out, c, n := ExtractDeclaredIdentsFromID(inner, out);
          containsExpr := containsExpr || c;
          invalid := invalid + n;
          i := i + 1;
        }
        return out, containsExpr, invalid;
      case ComponentParameter(l) =>
        out, containsExpr, invalid := ExtractDeclaredIdentsFromID(l, idents);
      case InvalidTarget =>
        return idents, false, 1;
    }
  }

  /** One element of an array pattern, as extractDeclaredIdentsFromID's loop takes it. */
  lemma ElementsStep(node: Pattern, es: seq<Pattern>, i: nat, out: seq<string>)
    requires i < |es| && node == ArrayPattern(es)
    ensures es[i] < node
    ensures out + BoundNamesOfElements(node, es[i..])
         == (out + BoundNames(es[i])) + BoundNamesOfElements(node, es[i + 1..])
    ensures HasDefaultInElements(node, es[i..]) == (HasDefault(es[i]) || HasDefaultInElements(node, es[i + 1..]))
    ensures InvalidInElements(node, es[i..]) == InvalidTargets(es[i]) + InvalidInElements(node, es[i + 1..])
  {
    assert es[i] in es;
    assert es[i..][1..] == es[i + 1..];
    AppendAssoc(out, BoundNames(es[i]), BoundNamesOfElements(node, es[i + 1..]));
  }

  /** One property of an object pattern, as extractDeclaredIdentsFromID's loop takes it. */
  lemma PropertiesStep(node: Pattern, ps: seq<ObjectProperty>, i: nat, out: seq<string>, inner: Pattern)
    requires i < |ps| && node == ObjectPattern(ps)
    requires inner == match ps[i] case Property(v) => v case RestProperty(a) => a
    ensures inner < node
    ensures out + BoundNamesOfProperties(node, ps[i..])
         == (out + BoundNames(inner)) + BoundNamesOfProperties(node, ps[i + 1..])
    ensures HasDefaultInProperties(node, ps[i..]) == (HasDefault(inner) || HasDefaultInProperties(node, ps[i + 1..]))
    ensures InvalidInProperties(node, ps[i..]) == InvalidTargets(inner) + InvalidInProperties(node, ps[i + 1..])
  {
    assert ps[i] in ps && inner < ps[i];
    assert ps[i..][1..] == ps[i + 1..];
    AppendAssoc(out, BoundNames(inner), BoundNamesOfProperties(node, ps[i + 1..]));
  }

  /** Array patterns bind their elements' names left to right, and hold a default iff some element does. */
  lemma {:induction false} ArrayPatternConcat(a: seq<Pattern>, b: seq<Pattern>)
    ensures BoundNames(ArrayPattern(a + b)) == BoundNames(ArrayPattern(a)) + BoundNames(ArrayPattern(b))
    ensures HasDefault(ArrayPattern(a + b)) == (HasDefault(ArrayPattern(a)) || HasDefault(ArrayPattern(b)))
    ensures InvalidTargets(ArrayPattern(a + b)) == InvalidTargets(ArrayPattern(a)) + InvalidTargets(ArrayPattern(b))
    decreases |a|
  {
    var p, pa, pb := ArrayPattern(a + b), ArrayPattern(a), ArrayPattern(b);
    ElementsShift(p, pa, pb, a, b);
    ElementsShiftInvalid(p, pa, pb, a, b);
  }

  /** The invalid targets of a split element list add up. */
  lemma {:induction false} ElementsShiftInvalid(p: Pattern, pa: Pattern, pb: Pattern, a: seq<Pattern>, b: seq<Pattern>)
    requires forall e :: e in a + b ==> e < p
    requires forall e :: e in a ==> e < pa
    requires forall e :: e in b ==> e < pb
    ensures InvalidInElements(p, a + b) == InvalidInElements(pa, a) + InvalidInElements(pb, b)
    decreases |a|
  {
    if a == [] {
      assert a + b == b;
      ElementsSameInvalid(p, pb, b);
    } else {
      var ab := a + b;
      assert ab[1..] == a[1..] + b && ab[0] == a[0];
      assert forall e :: e in a[1..] + b ==> e in ab;
      assert forall e :: e in a[1..] ==> e in a;
      ElementsShiftInvalid(p, pa, pb, a[1..], b);
      assert InvalidInElements(p, ab) == InvalidTargets(a[0]) + InvalidInElements(p, a[1..] + b);
    }
  }

  lemma {:induction false} ElementsSameInvalid(p: Pattern, q: Pattern, es: seq<Pattern>)
    requires forall e :: e in es ==> e < p && e < q
    ensures InvalidInElements(p, es) == InvalidInElements(q, es)
    decreases |es|
  {
    if es != [] {
      assert forall e :: e in es[1..] ==> e in es;
      ElementsSameInvalid(p, q, es[1..]);
    }
  }

  lemma {:induction false} ElementsShift(p: Pattern, pa: Pattern, pb: Pattern, a: seq<Pattern>, b: seq<Pattern>)
    requires forall e :: e in a + b ==> e < p
    requires forall e :: e in a ==> e < pa
    requires forall e :: e in b ==> e < pb
    ensures BoundNamesOfElements(p, a + b) == BoundNamesOfElements(pa, a) + BoundNamesOfElements(pb, b)
    ensures HasDefaultInElements(p, a + b) == (HasDefaultInElements(pa, a) || HasDefaultInElements(pb, b))
    decreases |a|
  {
    if a == [] {
      assert a + b == b;
      ElementsSameNames(p, pb, b);
    } else {
      var ab := a + b;
      assert ab[1..] == a[1..] + b && ab[0] == a[0];
      assert forall e :: e in a[1..] + b ==> e in ab;
      assert forall e :: e in a[1..] ==> e in a;
      ElementsShift(p, pa, pb, a[1..], b);
      assert BoundNamesOfElements(p, ab) == BoundNames(a[0]) + BoundNamesOfElements(p, a[1..] + b);
      assert BoundNamesOfElements(pa, a) == BoundNames(a[0]) + BoundNamesOfElements(pa, a[1..]);
      assert HasDefaultInElements(p, ab) == (HasDefault(a[0]) || HasDefaultInElements(p, a[1..] + b));
      assert HasDefaultInElements(pa, a) == (HasDefault(a[0]) || HasDefaultInElements(pa, a[1..]));
      AppendAssoc(BoundNames(a[0]), BoundNamesOfElements(pa, a[1..]), BoundNamesOfElements(pb, b));
    }
  }

  lemma AppendAssoc(x: seq<string>, y: seq<string>, z: seq<string>)
    ensures x + (y + z) == (x + y) + z
  {
  }

  lemma {:induction false} ElementsSameNames(p: Pattern, q: Pattern, es: seq<Pattern>)
    requires forall e :: e in es ==> e < p && e < q
    ensures BoundNamesOfElements(p, es) == BoundNamesOfElements(q, es)
    ensures HasDefaultInElements(p, es) == HasDefaultInElements(q, es)
    decreases |es|
  {
    if es != [] {
      assert forall e :: e in es[1..] ==> e in es;
      ElementsSameNames(p, q, es[1..]);
    }
  }

  // ---------------------------------------------------------------------------
  // Assignment targets (isLValue)

  /**
   * An expression on the left of an assignment. For an identifier, the Decl it
   * resolves to: whether its kind may not be reassigned (const, import, ...)
   * and whether it is the function's Arguments object.
   */
  datatype Expression =
    | MemberExpression
    | IdentifierExpression(name: string, notReassignable: bool, isArgumentsObject: bool)
    | OtherExpression

  /** isLValue. */
  predicate IsLValue(e: Expression, strict: bool, test262: bool)
  {
    match e
    case MemberExpression => true
    case IdentifierExpression(name, notReassignable, isArgumentsObject) =>
      && !(notReassignable && !test262)
      && (if strict then name != "arguments" && name != "eval" else !isArgumentsObject)
    case OtherExpression => false
  }

  /**
   * Member expressions are always assignable and nothing but members and
   * identifiers ever is; strict code never assigns 'arguments' or 'eval';
   * outside test262 mode a const-like binding is never assignable; and an
   * ordinary reassignable binding always is.
   */
  lemma IsLValueMeaning(e: Expression, strict: bool, test262: bool)
    ensures e.MemberExpression? ==> IsLValue(e, strict, test262)
    ensures IsLValue(e, strict, test262) ==> e.MemberExpression? || e.IdentifierExpression?
    ensures e.IdentifierExpression? && strict && (e.name == "arguments" || e.name == "eval") ==> !IsLValue(e, strict, test262)
    ensures e.IdentifierExpression? && e.notReassignable && !test262 ==> !IsLValue(e, strict, test262)
    ensures e.IdentifierExpression? && !e.notReassignable && !e.isArgumentsObject && e.name != "arguments" && e.name != "eval"
      ==> IsLValue(e, strict, test262)
  {
  }

  // ---------------------------------------------------------------------------
  // Labels, break and continue

  /** A statement that can carry a label index. */
  datatype Stmt =
    | LabeledStatement(labelIndex: nat, body: Stmt)
    | LoopStatement(labelIndex: nat)
    | OtherStatement

  /** The loop reached from a labeled statement through directly nested labels, if any. */
  function LabeledLoop(s: Stmt): Option<nat>
  {
    match s
    case LabeledStatement(_, body) => if body.LoopStatement? then Some(body.labelIndex) else LabeledLoop(body)
    case _ => None
  }

  /** Where a label points: its label index, and whether that is a loop. */
  datatype LabelTarget = LabelTarget(labelIndex: nat, isLoop: bool)

  /** The errors label resolution reports. */
  datatype LabelError =
    | DuplicateLabel(name: string)
    | UndefinedLabel(name: string)
    | ContinueToNonLoop(name: string)
    | BreakOutsideLoopOrSwitch
    | ContinueOutsideLoop

  /** The label state of one function: the labels in scope and the innermost loop and loop-or-switch. */
  class LabelContext {
    var labelMap: map<string, LabelTarget>
    var currentLoop: Option<nat>
    var currentLoopOrSwitch: Option<nat>
    var errors: seq<LabelError>

    constructor ()
      ensures labelMap == map[] && currentLoop == None && currentLoopOrSwitch == None && errors == []
    {
      labelMap := map[];
      currentLoop := None;
      currentLoopOrSwitch := None;
      errors := [];
    }

    /**
     * visit(LabeledStatementNode): the target is the loop the label chain
     * leads to, or else the labeled statement; a label already in scope is an
     * error and is not redefined.
     */
    method EnterLabel(name: string, node: Stmt) returns (inserted: bool)
      requires node.LabeledStatement?
      modifies this
      ensures inserted <==> name !in old(labelMap)
      ensures inserted ==> labelMap == old(labelMap)[name :=
        match LabeledLoop(node) case Some(l) => LabelTarget(l, true) case None => LabelTarget(node.labelIndex, false)]
      ensures inserted ==> errors == old(errors)
      ensures !inserted ==> labelMap == old(labelMap) && errors == old(errors) + [DuplicateLabel(name)]
      ensures currentLoop == old(currentLoop) && currentLoopOrSwitch == old(currentLoopOrSwitch)
    {
      var target := LabelTarget(node.labelIndex, false);
      var cur := node;
      while cur.LabeledStatement?
        invariant LabeledLoop(node) == (if cur.LabeledStatement? then LabeledLoop(cur) else None)
        invariant target == LabelTarget(node.labelIndex, false)
        decreases cur
      {
        if cur.body.LoopStatement? {
          target := LabelTarget(cur.body.labelIndex, true);
          break;
        }
        cur := cur.body;
      }
      if name in labelMap {
        errors := errors + [DuplicateLabel(name)];
        return false;
      }
      labelMap := labelMap[name := target];
      return true;
    }

    /** Leaving a labeled statement erases the label if it was inserted there. */
    method ExitLabel(name: string, inserted: bool)
      modifies this
      ensures labelMap == if inserted then old(labelMap) - {name} else old(labelMap)
      ensures errors == old(errors) && currentLoop == old(currentLoop) && currentLoopOrSwitch == old(currentLoopOrSwitch)
    {
      if inserted {
        labelMap := labelMap - {name};
      }
    }

    /** A loop becomes both the current loop and the current loop-or-switch; the old ones are returned for restoring. */
    method EnterLoop(labelIndex: nat) returns (savedLoop: Option<nat>, savedLoopOrSwitch: Option<nat>)
      modifies this
      ensures savedLoop == old(currentLoop) && savedLoopOrSwitch == old(currentLoopOrSwitch)
      ensures currentLoop == Some(labelIndex) && currentLoopOrSwitch == Some(labelIndex)
      ensures labelMap == old(labelMap) && errors == old(errors)
    {
      savedLoop, savedLoopOrSwitch := currentLoop, currentLoopOrSwitch;
      currentLoop, currentLoopOrSwitch := Some(labelIndex), Some(labelIndex);
    }

    /** A switch becomes the current loop-or-switch only. */
    method EnterSwitch(labelIndex: nat) returns (savedLoopOrSwitch: Option<nat>)
      modifies this
      ensures savedLoopOrSwitch == old(currentLoopOrSwitch)
      ensures currentLoopOrSwitch == Some(labelIndex) && currentLoop == old(currentLoop)
      ensures labelMap == old(labelMap) && errors == old(errors)
    {
      savedLoopOrSwitch := currentLoopOrSwitch;
      currentLoopOrSwitch := Some(labelIndex);
    }

    /** SaveAndRestore on exit from a loop or switch. */
    method Restore(savedLoop: Option<nat>, savedLoopOrSwitch: Option<nat>)
      modifies this
      ensures currentLoop == savedLoop && currentLoopOrSwitch == savedLoopOrSwitch
      ensures labelMap == old(labelMap) && errors == old(errors)
    {
      currentLoop, currentLoopOrSwitch := savedLoop, savedLoopOrSwitch;
    }

    /** visit(BreakStatementNode): the label's target, or the innermost loop or switch. */
    method Break(labelName: Option<string>) returns (target: Option<nat>)
      modifies this
      ensures labelName.Some? ==>
        if labelName.value in labelMap then target == Some(labelMap[labelName.value].labelIndex) && errors == old(errors)
        else target == None && errors == old(errors) + [UndefinedLabel(labelName.value)]
      ensures labelName.None? ==>
        if currentLoopOrSwitch.Some? then target == currentLoopOrSwitch && errors == old(errors)
        else target == None && errors == old(errors) + [BreakOutsideLoopOrSwitch]
      ensures labelMap == old(labelMap) && currentLoop == old(currentLoop) && currentLoopOrSwitch == old(currentLoopOrSwitch)
    {
      if labelName.Some? {
        if labelName.value in labelMap {
          target := Some(labelMap[labelName.value].labelIndex);
        } else {
          errors := errors + [UndefinedLabel(labelName.value)];
          target := None;
        }
      } else {
        if currentLoopOrSwitch.Some? {
          target := currentLoopOrSwitch;
        } else {
          errors := errors + [BreakOutsideLoopOrSwitch];
          target := None;
        }
      }
    }

    /** visit(ContinueStatementNode): the label must name a loop; unlabeled, the innermost loop. */
    method Continue(labelName: Option<string>) returns (target: Option<nat>)
      modifies this
      ensures labelName.Some? ==>
        if labelName.value !in labelMap then target == None && errors == old(errors) + [UndefinedLabel(labelName.value)]
        else if labelMap[labelName.value].isLoop then target == Some(labelMap[labelName.value].labelIndex) && errors == old(errors)
        else target == None && errors == old(errors) + [ContinueToNonLoop(labelName.value)]
      ensures labelName.None? ==>
        if currentLoop.Some? then target == currentLoop && errors == old(errors)
        else target == None && errors == old(errors) + [ContinueOutsideLoop]
      ensures labelMap == old(labelMap) && currentLoop == old(currentLoop) && currentLoopOrSwitch == old(currentLoopOrSwitch)
    {
      if labelName.Some? {
        if labelName.value in labelMap {
          if labelMap[labelName.value].isLoop {
            target := Some(labelMap[labelName.value].labelIndex);
          } else {
            errors := errors + [ContinueToNonLoop(labelName.value)];
            target := None;
          }
        } else {
          errors := errors + [UndefinedLabel(labelName.value)];
          target := None;
        }
      } else {
        if currentLoop.Some? {
          target := currentLoop;
        } else {
          errors := errors + [ContinueOutsideLoop];
          target := None;
        }
      }
    }
  }

  /**
   * A label on a loop, directly or through other labels, targets that loop;
   * a label on anything else targets itself and is not a loop label.
   */
  lemma {:induction false} LabeledLoopMeaning(s: Stmt)
    requires s.LabeledStatement?
    ensures s.body.LoopStatement? ==> LabeledLoop(s) == Some(s.body.labelIndex)
    ensures s.body.LabeledStatement? ==> LabeledLoop(s) == LabeledLoop(s.body)
    ensures s.body.OtherStatement? ==> LabeledLoop(s) == None
    decreases s
  {
    if s.body.LabeledStatement? {
      LabeledLoopMeaning(s.body);
    }
  }
}
