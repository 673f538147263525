/**
 * Parts of the Flow type checker (lib/Sema/FlowChecker.h): the key equality of
 * the memo table of generic specialisations, the table itself, and the
 * translation of object, tuple and function type annotations into types.
 *
 * TypeInfo pointers are ids (`nat`); TypeInfo::equals is the parameter `eq`.
 * The annotation callback that turns an annotation node into a type is the
 * parameter `cb`. Diagnostics are an ordered log.
 */
module FlowChecker {
  import opened Wrappers

  // ---------------------------------------------------------------------
  // Type-argument lists as map keys (lines 38-53)
  // ---------------------------------------------------------------------

  /**
   * Where the elements of an ArrayRef live: the two sentinel addresses the
   * map uses for its empty and tombstone keys, a slot of the checker's
   * type-argument storage, or some other buffer.
   */
  datatype Data = EmptyMarker | TombstoneMarker | Stored(slot: nat) | Elsewhere(id: nat)

  /** An ArrayRef<TypeInfo *>: its data address and the TypeInfo pointers it spans. */
  datatype TypeArgsRef = TypeArgsRef(data: Data, elems: seq<nat>)

  /** The map's empty key and tombstone key: zero-length refs at the two sentinel addresses. */
  const EmptyKey := TypeArgsRef(EmptyMarker, [])
  const TombstoneKey := TypeArgsRef(TombstoneMarker, [])

  /** ArrayRef's operator==: the same length and the same pointers, whatever the data address. */
  predicate SameContents(a: TypeArgsRef, b: TypeArgsRef)
  {
    a.elems == b.elems
  }

  predicate AllEquals(a: seq<nat>, b: seq<nat>, eq: (nat, nat) -> bool)
    requires |a| == |b|
  {
    forall i :: 0 <= i < |a| ==> eq(a[i], b[i])
  }

  /** TypeArrayDenseMapInfo::isEqual as written: its sentinel tests use operator==. */
  predicate IsEqual(lhs: TypeArgsRef, rhs: TypeArgsRef, eq: (nat, nat) -> bool)
  {
    if SameContents(lhs, rhs) then true
    else if SameContents(lhs, EmptyKey) || SameContents(lhs, TombstoneKey) ||
            SameContents(rhs, EmptyKey) || SameContents(rhs, TombstoneKey) then false
    else if |lhs.elems| != |rhs.elems| then false
    else AllEquals(lhs.elems, rhs.elems, eq)
  }

  /**
   * What isEqual decides: the same pointers, or two non-empty lists of the
   * same length whose types are pairwise `equals`.
   */
  lemma IsEqualMeaning(lhs: TypeArgsRef, rhs: TypeArgsRef, eq: (nat, nat) -> bool)
    ensures IsEqual(lhs, rhs, eq) <==>
      lhs.elems == rhs.elems ||
      (|lhs.elems| == |rhs.elems| > 0 && forall i :: 0 <= i < |lhs.elems| ==> eq(lhs.elems[i], rhs.elems[i]))
  {
    if lhs.elems != rhs.elems && |lhs.elems| == |rhs.elems| > 0 {
      assert !SameContents(lhs, EmptyKey) && !SameContents(rhs, EmptyKey);
      assert !SameContents(lhs, TombstoneKey) && !SameContents(rhs, TombstoneKey);
    }
  }

  /** The comparison loop of isEqual. */
  method IsEqualLoop(lhs: TypeArgsRef, rhs: TypeArgsRef, eq: (nat, nat) -> bool) returns (r: bool)
    ensures r == IsEqual(lhs, rhs, eq)
  {
    if lhs.elems == rhs.elems {
      return true;
    }
    if lhs.elems == EmptyKey.elems || lhs.elems == TombstoneKey.elems ||
       rhs.elems == EmptyKey.elems || rhs.elems == TombstoneKey.elems {
      return false;
    }
    if |lhs.elems| != |rhs.elems| {
      return false;
    }
    var i := 0;
    while i < |lhs.elems|
      invariant i <= |lhs.elems|
      invariant forall j :: 0 <= j < i ==> eq(lhs.elems[j], rhs.elems[j])
    {
      if !eq(lhs.elems[i], rhs.elems[i]) {
        return false;
      }
      i := i + 1;
    }
    return true;
  }

  /**
   * As written, the sentinel tests compare contents, and every zero-length ref
   * has the same contents as both sentinels: the empty key equals the
   * tombstone key, and each equals any zero-length list of arguments.
   */
  lemma SentinelsCollide(eq: (nat, nat) -> bool, slot: nat)
    ensures IsEqual(EmptyKey, TombstoneKey, eq)
    ensures IsEqual(EmptyKey, TypeArgsRef(Stored(slot), []), eq)
  {
  }

  /** A key at one of the two sentinel addresses. */
  predicate IsSentinel(a: TypeArgsRef)
  {
    a.data == EmptyMarker || a.data == TombstoneMarker
  }

  /** Key equality with the sentinels told apart by their address, as the map requires. */
  predicate KeysEqual(lhs: TypeArgsRef, rhs: TypeArgsRef, eq: (nat, nat) -> bool)
  {
    if IsSentinel(lhs) || IsSentinel(rhs) then lhs.data == rhs.data
    else IsEqual(lhs, rhs, eq)
  }

  /**
   * The corrected equality: a sentinel equals only a key at its own address,
   * the two sentinels differ, every key equals itself, and on keys that are
   * not sentinels it agrees with isEqual as written.
   */
  lemma KeysEqualMeaning(lhs: TypeArgsRef, rhs: TypeArgsRef, eq: (nat, nat) -> bool)
    ensures IsSentinel(lhs) ==> (KeysEqual(lhs, rhs, eq) <==> rhs.data == lhs.data)
    ensures !KeysEqual(EmptyKey, TombstoneKey, eq)
    ensures KeysEqual(lhs, lhs, eq)
    ensures !IsSentinel(lhs) && !IsSentinel(rhs) ==>
      (KeysEqual(lhs, rhs, eq) <==>
         lhs.elems == rhs.elems ||
         (|lhs.elems| == |rhs.elems| > 0 && forall i :: 0 <= i < |lhs.elems| ==> eq(lhs.elems[i], rhs.elems[i])))
  {
    IsEqualMeaning(lhs, rhs, eq);
  }

  // ---------------------------------------------------------------------
  // The specialisation table of a generic (lines 140-208, 230-235)
  // ---------------------------------------------------------------------

  /** The specialisation recorded for the first key equal to `args`, if any. */
  function Lookup(entries: seq<(TypeArgsRef, nat)>, args: TypeArgsRef, eq: (nat, nat) -> bool): (r: Option<nat>)
    ensures r.None? <==> forall i :: 0 <= i < |entries| ==> !KeysEqual(args, entries[i].0, eq)
    ensures r.Some? ==> exists i :: 0 <= i < |entries| && KeysEqual(args, entries[i].0, eq) && entries[i].1 == r.value
  {
    if entries == [] then None
    else if KeysEqual(args, entries[0].0, eq) then Some(entries[0].1)
    else
      var r := Lookup(entries[1..], args, eq);
      assert forall i :: 1 <= i < |entries| ==> entries[i] == entries[1..][i - 1];
      r
  }

  /**
   * Adding an entry changes only the lookups that found nothing before: those
   * equal to the new key now find its specialisation.
   */
  lemma {:induction false} LookupAfterAdd(entries: seq<(TypeArgsRef, nat)>, key: TypeArgsRef, spec: nat, args: TypeArgsRef, eq: (nat, nat) -> bool)
    ensures Lookup(entries + [(key, spec)], args, eq) ==
      if Lookup(entries, args, eq).Some? then Lookup(entries, args, eq)
      else if KeysEqual(args, key, eq) then Some(spec)
      else None
  {
    if entries != [] {
      assert (entries + [(key, spec)])[1..] == entries[1..] + [(key, spec)];
      LookupAfterAdd(entries[1..], key, spec, args, eq);
    }
  }

  /**
   * Every key points into the storage at the vector it spans, and no key
   * equals an earlier one.
   */
  ghost predicate TableValid(entries: seq<(TypeArgsRef, nat)>, storage: seq<seq<nat>>, eq: (nat, nat) -> bool)
  {
    (forall i :: 0 <= i < |entries| ==>
       entries[i].0.data.Stored? && entries[i].0.data.slot < |storage| &&
       storage[entries[i].0.data.slot] == entries[i].0.elems) &&
    (forall i, j :: 0 <= i < j < |entries| ==> !KeysEqual(entries[j].0, entries[i].0, eq))
  }

  /**
   * Storing a new vector and adding an entry for a ref to it keeps the table
   * well formed when no present key equals the new one, and the new key then
   * finds its specialisation.
   */
  lemma AddKeepsValid(entries: seq<(TypeArgsRef, nat)>, storage: seq<seq<nat>>, args: seq<nat>, spec: nat, eq: (nat, nat) -> bool)
    requires TableValid(entries, storage, eq)
    requires Lookup(entries, TypeArgsRef(Stored(|storage|), args), eq).None?
    ensures var key := TypeArgsRef(Stored(|storage|), args);
      TableValid(entries + [(key, spec)], storage + [args], eq) &&
      Lookup(entries + [(key, spec)], key, eq) == Some(spec)
  {
    var key := TypeArgsRef(Stored(|storage|), args);
    var e := entries + [(key, spec)];
    var st := storage + [args];
    LookupAfterAdd(entries, key, spec, key, eq);
    KeysEqualMeaning(key, key, eq);
    forall i | 0 <= i < |e|
      ensures e[i].0.data.Stored? && e[i].0.data.slot < |st| && st[e[i].0.data.slot] == e[i].0.elems
    {
      if i < |entries| {
        assert e[i] == entries[i];
      }
    }
    forall i, j | 0 <= i < j < |e| ensures !KeysEqual(e[j].0, e[i].0, eq) {
      if j < |entries| {
        assert e[j] == entries[j] && e[i] == entries[i];
      } else {
        assert e[i] == entries[i];
      }
    }
  }

  /** The checker itself, reduced to its deque of type-argument vectors. */
  class Checker {
    /** typeArgStorage_: vectors only ever appended, so refs into them stay valid. */
    var typeArgStorage: seq<seq<nat>>

    constructor()
      ensures typeArgStorage == []
    {
      typeArgStorage := [];
    }
  }

  /** A generic declaration's memo table from type-argument lists to specialisations (ids). */
  class GenericInfo {
    /** The entries of `specializations`, in insertion order. */
    var specializations: seq<(TypeArgsRef, nat)>
    /** TypeInfo::equals. */
    const equals: (nat, nat) -> bool

    constructor(equals: (nat, nat) -> bool)
      ensures specializations == [] && this.equals == equals
    {
      specializations := [];
      this.equals := equals;
    }

    /** The table is well formed with respect to the checker's storage. */
    ghost predicate Valid(outer: Checker)
      reads this, outer
    {
      TableValid(specializations, outer.typeArgStorage, equals)
    }

    /** getSpecialization: the specialisation for `args`, or none for an unseen list. */
    function GetSpecialization(args: TypeArgsRef): (r: Option<nat>)
      reads this
      ensures r.None? <==> forall i :: 0 <= i < |specializations| ==> !KeysEqual(args, specializations[i].0, equals)
    {
      Lookup(specializations, args, equals)
    }

    /**
     * addSpecialization: moves the arguments into the checker's storage and
     * records the specialisation under a ref to that stable copy. Adding a list
     * equal to one already present is forbidden.
     */
    method AddSpecialization(outer: Checker, args: seq<nat>, spec: nat) returns (key: TypeArgsRef)
      requires Valid(outer)
      requires GetSpecialization(TypeArgsRef(Stored(|outer.typeArgStorage|), args)).None?
      modifies this, outer
      ensures outer.typeArgStorage == old(outer.typeArgStorage) + [args]
      ensures key == TypeArgsRef(Stored(|old(outer.typeArgStorage)|), args)
      ensures specializations == old(specializations) + [(key, spec)]
      ensures Valid(outer)
      ensures GetSpecialization(key) == Some(spec)
    {
      AddKeepsValid(specializations, outer.typeArgStorage, args, spec, equals);
      outer.typeArgStorage := outer.typeArgStorage + [args];
      key := TypeArgsRef(Stored(|outer.typeArgStorage| - 1), args);
      specializations := specializations + [(key, spec)];
    }
  }

  // ---------------------------------------------------------------------
  // Types and diagnostics produced from annotations
  // ---------------------------------------------------------------------

  datatype FlowType =
    | AnyType
    | Annotated(node: nat)
    | Tuple(types: seq<FlowType>)
    | ExactObject(fields: seq<Field>)
    | Function(returnType: FlowType, thisType: Option<FlowType>, params: seq<Param>)

  datatype Field = Field(name: string, ty: FlowType)

  /** A parameter of a function type: its name (null when absent) and its type (null when unannotated). */
  datatype Param = Param(name: Option<string>, ty: Option<FlowType>)

  /** The diagnostics the checker reports here, one constructor per message. */
  datatype Message =
    | UnsupportedFunctionTypeParams | UnsupportedOptionalParameter | PatternParameter
    | TupleSpread | TupleLabels
    | Indexers | CallProperties | InternalSlots | Inexact
    | UnsupportedProperty | Variance | StaticProperty | ProtoProperty | MethodProperty
    | OptionalProperty | Accessor | UnsupportedKey | DuplicateProperty(name: string)

  /** The text of a message. */
  function Text(m: Message): string
  {
    match m
    case UnsupportedFunctionTypeParams => "unsupported function type params"
    case UnsupportedOptionalParameter => "unsupported optional parameter"
    case PatternParameter => "ft: typing of pattern parameters not implemented, :any assumed"
    case TupleSpread => "ft: tuple spread unsupported"
    case TupleLabels => "ft: tuple labels unsupported"
    case Indexers => "ft: indexers are not supported in object types"
    case CallProperties => "ft: call properties are not supported in object types"
    case InternalSlots => "ft: internal slots are not supported in object types"
    case Inexact => "ft: inexact object types are not supported"
    case UnsupportedProperty => "ft: unsupported object type property"
    case Variance => "ft: object type variance is not supported"
    case StaticProperty => "ft: object type static property is not supported"
    case ProtoProperty => "ft: object type __proto__ property is not supported"
    case MethodProperty => "ft: object type method property is not supported"
    case OptionalProperty => "ft: object type optional property is not supported"
    case Accessor => "ft: object type accessors not supported"
    case UnsupportedKey => "ft: unsupported object type key"
    case DuplicateProperty(name) => "ft: duplicate object type property: " + name
  }

  /** A diagnostic at a node. */
  datatype Diag = Error(node: nat, msg: Message) | Warning(node: nat, msg: Message)

  function MapType(a: Option<nat>, cb: nat -> FlowType): (r: Option<FlowType>)
    ensures r.Some? <==> a.Some?
    ensures a.Some? ==> r.value == cb(a.value)
  {
    match a
    case None => None
    case Some(n) => Some(cb(n))
  }

  // ---------------------------------------------------------------------
  // Object type annotations (lines 871-957)
  // ---------------------------------------------------------------------

  /**
   * A member of an object type annotation: an ObjectTypeProperty with its
   * flags, its key node, the key as an identifier (none when it is not one)
   * and its value annotation; or a member of another kind.
   */
  datatype ObjectMember =
    | Property(node: nat, key: nat, variance: bool, isStatic: bool, proto: bool, isMethod: bool,
               optional: bool, kindIsInit: bool, name: Option<string>, value: nat)
    | NonProperty(node: nat)

  datatype ObjectAnnotation = ObjectAnnotation(
    node: nat, indexers: seq<nat>, callProperties: seq<nat>, internalSlots: seq<nat>,
    inexact: bool, properties: seq<ObjectMember>)

  /** A property of a kind the checker supports (its name may still be a duplicate). */
  predicate Supported(p: ObjectMember)
  {
    p.Property? && !p.variance && !p.isStatic && !p.proto && !p.isMethod && !p.optional &&
    p.kindIsInit && p.name.Some?
  }

  /** The error a member draws, tests in source order, given the names accepted before it. */
  function Rejection(p: ObjectMember, names: set<string>): (r: Option<Diag>)
    ensures r.None? <==> Supported(p) && p.name.value !in names
  {
    if !p.Property? then Some(Error(p.node, UnsupportedProperty))
    else if p.variance then Some(Error(p.node, Variance))
    else if p.isStatic then Some(Error(p.node, StaticProperty))
    else if p.proto then Some(Error(p.node, ProtoProperty))
    else if p.isMethod then Some(Error(p.node, MethodProperty))
    else if p.optional then Some(Error(p.node, OptionalProperty))
    else if !p.kindIsInit then Some(Error(p.node, Accessor))
    else if p.name.None? then Some(Error(p.key, UnsupportedKey))
    else if p.name.value in names then Some(Error(p.key, DuplicateProperty(p.name.value)))
    else None
  }

  /** One turn of the property loop, given the fields, names and diagnostics so far. */
  function ObjectStep(acc: (seq<Field>, set<string>, seq<Diag>), p: ObjectMember, cb: nat -> FlowType): (seq<Field>, set<string>, seq<Diag>)
  {
    match Rejection(p, acc.1)
    case Some(e) => (acc.0, acc.1, acc.2 + [e])
    case None => (acc.0 + [Field(p.name.value, cb(p.value))], acc.1 + {p.name.value}, acc.2)
  }

  /** The property loop over a prefix: the fields, the names set and the diagnostics. */
  function ObjectFold(props: seq<ObjectMember>, cb: nat -> FlowType): (seq<Field>, set<string>, seq<Diag>)
  {
    if props == [] then ([], {}, [])
    else ObjectStep(ObjectFold(props[..|props| - 1], cb), props[|props| - 1], cb)
  }

  /** processObjectTypeAnnotation, as a value: the type and the diagnostics. */
  function ObjectTypeOf(a: ObjectAnnotation, cb: nat -> FlowType): (r: (FlowType, seq<Diag>))
    // An annotation with indexers, call properties, internal slots or
    // inexactness is `any` with one error, at the first offending part in that
    // order; otherwise it is an exact object built by the property loop.
    ensures r.0 == AnyType <==> a.indexers != [] || a.callProperties != [] || a.internalSlots != [] || a.inexact
    ensures r.0 == AnyType ==>
      (|r.1| == 1 && r.1[0].Error? &&
       r.1[0].node == (if a.indexers != [] then a.indexers[0]
                       else if a.callProperties != [] then a.callProperties[0]
                       else if a.internalSlots != [] then a.internalSlots[0]
                       else a.node))
    ensures r.0 != AnyType ==> r == (ExactObject(ObjectFold(a.properties, cb).0), ObjectFold(a.properties, cb).2)
  {
    if a.indexers != [] then
      (AnyType, [Error(a.indexers[0], Indexers)])
    else if a.callProperties != [] then
      (AnyType, [Error(a.callProperties[0], CallProperties)])
    else if a.internalSlots != [] then
      (AnyType, [Error(a.internalSlots[0], InternalSlots)])
    else if a.inexact then
      (AnyType, [Error(a.node, Inexact)])
    else
      var f := ObjectFold(a.properties, cb);
      (ExactObject(f.0), f.2)
  }

  /** The property at `j` is supported and no supported property before it has its name. */
  predicate FirstOfName(props: seq<ObjectMember>, j: int)
    requires 0 <= j < |props|
  {
    Supported(props[j]) &&
    forall i :: 0 <= i < j && Supported(props[i]) ==> props[i].name != props[j].name
  }

  /** The positions of the properties the checker keeps, in order. */
  ghost function Kept(props: seq<ObjectMember>): seq<nat>
  {
    if props == [] then []
    else Kept(props[..|props| - 1]) + (if FirstOfName(props, |props| - 1) then [|props| - 1] else [])
  }

  /** The names of the supported properties. */
  ghost function SupportedNames(props: seq<ObjectMember>): set<string>
  {
    set i | 0 <= i < |props| && Supported(props[i]) :: props[i].name.value
  }

  predicate Increasing(s: seq<nat>)
  {
    forall a, b :: 0 <= a < b < |s| ==> s[a] < s[b]
  }

  /** Kept lists exactly the first property of each supported name, in increasing order. */
  lemma {:induction false} KeptMeaning(props: seq<ObjectMember>)
    ensures Increasing(Kept(props))
    ensures forall k :: 0 <= k < |Kept(props)| ==> Kept(props)[k] < |props|
    ensures forall j :: 0 <= j < |props| ==> (j in Kept(props) <==> FirstOfName(props, j))
  {
    if props != [] {
      var n := |props| - 1;
      var p := props[..n];
      KeptMeaning(p);
      forall j | 0 <= j < n ensures FirstOfName(p, j) == FirstOfName(props, j) {
        assert forall i :: 0 <= i <= j ==> p[i] == props[i];
      }
    }
  }

  /** The names set of the loop holds the names of the supported properties seen so far. */
  lemma {:induction false} ObjectNames(props: seq<ObjectMember>, cb: nat -> FlowType)
    ensures ObjectFold(props, cb).1 == SupportedNames(props)
  {
    if props != [] {
      var n := |props| - 1;
      var p := props[..n];
      ObjectNames(p, cb);
      assert forall i :: 0 <= i < n ==> p[i] == props[i];
      assert SupportedNames(props) == SupportedNames(p) + (if Supported(props[n]) then {props[n].name.value} else {});
    }
  }

  /** The last property is kept exactly when it is supported and its name is new. */
  lemma FirstOfNameLast(props: seq<ObjectMember>)
    requires props != []
    ensures var n := |props| - 1;
      FirstOfName(props, n) <==> Supported(props[n]) && props[n].name.value !in SupportedNames(props[..n])
  {
    var n := |props| - 1;
    var p := props[..n];
    if Supported(props[n]) && props[n].name.value in SupportedNames(p) {
      var i :| 0 <= i < n && Supported(p[i]) && p[i].name.value == props[n].name.value;
      assert p[i] == props[i];
    }
    if Supported(props[n]) && !FirstOfName(props, n) {
      var i :| 0 <= i < n && Supported(props[i]) && props[i].name == props[n].name;
      assert p[i] == props[i];
    }
  }

  /**
   * The loop keeps, in order, one field per kept property, with that
   * property's name and value type.
   */
  lemma {:induction false} ObjectFieldsMeaning(props: seq<ObjectMember>, cb: nat -> FlowType)
    ensures var fields := ObjectFold(props, cb).0;
      var kept := Kept(props);
      |fields| == |kept| &&
      (forall k :: 0 <= k < |kept| ==>
         (kept[k] < |props| && Supported(props[kept[k]]) &&
          fields[k] == Field(props[kept[k]].name.value, cb(props[kept[k]].value))))
  {
    KeptMeaning(props);
    if props != [] {
      var n := |props| - 1;
      var p := props[..n];
      ObjectFieldsMeaning(p, cb);
      KeptMeaning(p);
      ObjectNames(p, cb);
      FirstOfNameLast(props);
      assert forall i :: 0 <= i < n ==> p[i] == props[i];
    }
  }

  /** Every property the loop does not keep is reported exactly once. */
  lemma {:induction false} ObjectReportsRest(props: seq<ObjectMember>, cb: nat -> FlowType)
    ensures |ObjectFold(props, cb).2| + |ObjectFold(props, cb).0| == |props|
  {
    if props != [] {
      ObjectReportsRest(props[..|props| - 1], cb);
    }
  }

  /** The accepted fields keep source order and have pairwise distinct names. */
  lemma ObjectFieldsUnique(props: seq<ObjectMember>, cb: nat -> FlowType)
    ensures var fields := ObjectFold(props, cb).0;
      forall a, b :: 0 <= a < b < |fields| ==> fields[a].name != fields[b].name
  {
    ObjectFieldsMeaning(props, cb);
    KeptMeaning(props);
    var kept := Kept(props);
    var fields := ObjectFold(props, cb).0;
    forall a, b | 0 <= a < b < |fields| ensures fields[a].name != fields[b].name {
      assert kept[a] < kept[b];
      assert kept[a] in kept && kept[b] in kept;
      assert FirstOfName(props, kept[b]);
      assert Supported(props[kept[a]]);
    }
  }

  /** One turn of the property loop of processObjectTypeAnnotation. */
  method ProcessProperty(p: ObjectMember, fields0: seq<Field>, names0: set<string>, diags0: seq<Diag>, cb: nat -> FlowType)
    returns (fields: seq<Field>, names: set<string>, diags: seq<Diag>)
    ensures fields == ObjectStep((fields0, names0, diags0), p, cb).0
    ensures names == ObjectStep((fields0, names0, diags0), p, cb).1
    ensures diags == ObjectStep((fields0, names0, diags0), p, cb).2
  {
    fields, names, diags := fields0, names0, diags0;
    if !p.Property? {
      diags := diags + [Error(p.node, UnsupportedProperty)];
    } else if p.variance {
      diags := diags + [Error(p.node, Variance)];
    } else if p.isStatic {
      diags := diags + [Error(p.node, StaticProperty)];
    } else if p.proto {
      diags := diags + [Error(p.node, ProtoProperty)];
    } else if p.isMethod {
      diags := diags + [Error(p.node, MethodProperty)];
    } else if p.optional {
      diags := diags + [Error(p.node, OptionalProperty)];
    } else if !p.kindIsInit {
      diags := diags + [Error(p.node, Accessor)];
    } else if p.name.None? {
      diags := diags + [Error(p.key, UnsupportedKey)];
    } else if p.name.value in names {
      diags := diags + [Error(p.key, DuplicateProperty(p.name.value))];
    } else {
      names := names + {p.name.value};
      fields := fields + [Field(p.name.value, cb(p.value))];
    }
  }

  /** processObjectTypeAnnotation. */
  method ProcessObjectTypeAnnotation(a: ObjectAnnotation, cb: nat -> FlowType) returns (t: FlowType, diags: seq<Diag>)
    ensures (t, diags) == ObjectTypeOf(a, cb)
  {
    if a.indexers != [] {
      return AnyType, [Error(a.indexers[0], Indexers)];
    }
    if a.callProperties != [] {
      return AnyType, [Error(a.callProperties[0], CallProperties)];
    }
    if a.internalSlots != [] {
      return AnyType, [Error(a.internalSlots[0], InternalSlots)];
    }
    if a.inexact {
      return AnyType, [Error(a.node, Inexact)];
    }
    var fields: seq<Field> := [];
    var names: set<string> := {};
    diags := [];
    var k := 0;
    while k < |a.properties|
      invariant k <= |a.properties|
      invariant (fields, names, diags) == ObjectFold(a.properties[..k], cb)
    {
      assert a.properties[..k + 1][..k] == a.properties[..k];
      fields, names, diags := ProcessProperty(a.properties[k], fields, names, diags, cb);
      k := k + 1;
    }
    assert a.properties[..k] == a.properties;
    t := ExactObject(fields);
  }

  // ---------------------------------------------------------------------
  // Tuple type annotations (lines 852-868)
  // ---------------------------------------------------------------------

  /** An element of a tuple type annotation. */
  datatype TupleElement = Spread(node: nat) | Labeled(node: nat) | Plain(node: nat)

  /** The element loop over a prefix: the element types and the diagnostics. */
  function TupleFold(elems: seq<TupleElement>, cb: nat -> FlowType): (seq<FlowType>, seq<Diag>)
  {
    if elems == [] then ([], [])
    else
      var acc := TupleFold(elems[..|elems| - 1], cb);
      match elems[|elems| - 1]
      case Spread(n) => (acc.0, acc.1 + [Error(n, TupleSpread)])
      case Labeled(n) => (acc.0, acc.1 + [Error(n, TupleLabels)])
      case Plain(n) => (acc.0 + [cb(n)], acc.1)
  }

  /** The positions of the plain elements, in order. */
  ghost function PlainAt(elems: seq<TupleElement>): seq<nat>
  {
    if elems == [] then []
    else PlainAt(elems[..|elems| - 1]) + (if elems[|elems| - 1].Plain? then [|elems| - 1] else [])
  }

  /** PlainAt lists exactly the positions of the plain elements, in increasing order. */
  lemma {:induction false} PlainAtMeaning(elems: seq<TupleElement>)
    ensures Increasing(PlainAt(elems))
    ensures forall k :: 0 <= k < |PlainAt(elems)| ==> PlainAt(elems)[k] < |elems|
    ensures forall j :: 0 <= j < |elems| ==> (j in PlainAt(elems) <==> elems[j].Plain?)
  {
    if elems != [] {
      var p := elems[..|elems| - 1];
      PlainAtMeaning(p);
      assert forall j :: 0 <= j < |p| ==> p[j] == elems[j];
    }
  }

  /**
   * A tuple type keeps the plain elements in order, one type each, and every
   * spread or labeled element is reported once.
   */
  lemma {:induction false} TupleKeepsPlain(elems: seq<TupleElement>, cb: nat -> FlowType)
    ensures var r := TupleFold(elems, cb);
      var at := PlainAt(elems);
      |r.0| == |at| &&
      (forall k :: 0 <= k < |at| ==> (at[k] < |elems| && r.0[k] == cb(elems[at[k]].node))) &&
      |r.0| + |r.1| == |elems|
  {
    PlainAtMeaning(elems);
    if elems != [] {
      var n := |elems| - 1;
      var p := elems[..n];
      TupleKeepsPlain(p, cb);
      PlainAtMeaning(p);
      var r := TupleFold(elems, cb).0;
      var q := TupleFold(p, cb).0;
      var at := PlainAt(elems);
      var aq := PlainAt(p);
      assert at[..|aq|] == aq;
      forall k | 0 <= k < |at| ensures r[k] == cb(elems[at[k]].node) {
        if k < |aq| {
          assert r[k] == q[k] && at[k] == aq[k] && p[aq[k]] == elems[aq[k]];
        }
      }
    }
  }

  /** processTupleTypeAnnotation. */
  method ProcessTupleTypeAnnotation(elems: seq<TupleElement>, cb: nat -> FlowType) returns (t: FlowType, diags: seq<Diag>)
    ensures t == Tuple(TupleFold(elems, cb).0) && diags == TupleFold(elems, cb).1
  {
    var types: seq<FlowType> := [];
    diags := [];
    var k := 0;
    while k < |elems|
      invariant k <= |elems|
      invariant (types, diags) == TupleFold(elems[..k], cb)
    {
      assert elems[..k + 1][..k] == elems[..k];
      var n := elems[k];
      if n.Spread? {
        diags := diags + [Error(n.node, TupleSpread)];
      } else if n.Labeled? {
        diags := diags + [Error(n.node, TupleLabels)];
      } else {
        types := types + [cb(n.node)];
      }
      k := k + 1;
    }
    assert elems[..k] == elems;
    t := Tuple(types);
  }

  // ---------------------------------------------------------------------
  // Function type annotations (lines 819-850)
  // ---------------------------------------------------------------------

  /**
   * A parameter of a function type annotation: a FunctionTypeParam (its
   * identifier, if any, whether it is optional, and its annotation, if any),
   * or a pattern of another kind.
   */
  datatype FnParam =
    | FunctionTypeParam(node: nat, name: Option<string>, optional: bool, annotation: Option<nat>)
    | Pattern(node: nat)

  datatype FunctionAnnotation = FunctionAnnotation(
    node: nat, rest: bool, typeParameters: bool, thisAnnotation: Option<nat>,
    returnType: nat, params: seq<FnParam>)

  /** The decimal spelling of a number, as Twine prints it. */
  function Decimal(n: nat): (r: string)
    ensures |r| > 0 && forall i :: 0 <= i < |r| ==> '0' <= r[i] <= '9'
    decreases n
  {
    var d := ['0' + (n % 10) as char];
    if n < 10 then d else Decimal(n / 10) + d
  }

  /** Different numbers are spelled differently, so synthesised names never clash. */
  lemma {:induction false} DecimalInjective(a: nat, b: nat)
    requires Decimal(a) == Decimal(b)
    ensures a == b
    decreases a
  {
    var da := Decimal(a);
    assert da[|da| - 1] == '0' + (a % 10) as char;
    assert Decimal(b)[|Decimal(b)| - 1] == '0' + (b % 10) as char;
    assert a % 10 == b % 10;
    if a >= 10 && b >= 10 {
      assert Decimal(a / 10) == da[..|da| - 1];
      assert Decimal(b / 10) == Decimal(b)[..|Decimal(b)| - 1];
      DecimalInjective(a / 10, b / 10);
    }
  }

  /** The name given to a pattern parameter at position `idx`. */
  function PatternName(idx: nat): (r: string)
    ensures |r| > 7 && r[..7] == "?param_" && r[7..] == Decimal(idx)
  {
    "?param_" + Decimal(idx)
  }

  /** The entry the parameter loop appends for `p` when `idx` parameters precede it. */
  function ParamOf(p: FnParam, idx: nat, cb: nat -> FlowType): Param
  {
    match p
    case FunctionTypeParam(_, name, _, annotation) => Param(name, MapType(annotation, cb))
    case Pattern(_) => Param(Some(PatternName(idx)), Some(AnyType))
  }

  /** The diagnostics the parameter loop reports for `p`. */
  function ParamDiags(p: FnParam): seq<Diag>
  {
    match p
    case FunctionTypeParam(n, _, optional, _) =>
      if optional then [Error(n, UnsupportedOptionalParameter)] else []
    case Pattern(n) => [Warning(n, PatternParameter)]
  }

  /** One turn of the parameter loop, given the list and diagnostics so far. */
  function ParamsStep(acc: (seq<Param>, seq<Diag>), p: FnParam, cb: nat -> FlowType): (seq<Param>, seq<Diag>)
  {
    (acc.0 + [ParamOf(p, |acc.0|, cb)], acc.1 + ParamDiags(p))
  }

  /** The parameter loop over a prefix: the parameter list and the diagnostics. */
  function ParamsFold(params: seq<FnParam>, cb: nat -> FlowType): (seq<Param>, seq<Diag>)
  {
    if params == [] then ([], [])
    else ParamsStep(ParamsFold(params[..|params| - 1], cb), params[|params| - 1], cb)
  }

  /** The loop appends one entry per parameter, each as ParamOf gives it for its position. */
  lemma {:induction false} ParamsAt(params: seq<FnParam>, cb: nat -> FlowType)
    ensures |ParamsFold(params, cb).0| == |params|
    ensures forall i :: 0 <= i < |params| ==> ParamsFold(params, cb).0[i] == ParamOf(params[i], i, cb)
  {
    if params != [] {
      var n := |params| - 1;
      var p := params[..n];
      ParamsAt(p, cb);
      var r := ParamsFold(params, cb).0;
      var q := ParamsFold(p, cb).0;
      assert r == q + [ParamOf(params[n], n, cb)];
      forall i | 0 <= i < |params| ensures r[i] == ParamOf(params[i], i, cb) {
        if i < n {
          assert r[i] == q[i] && p[i] == params[i];
        }
      }
    }
  }

  /**
   * One parameter per annotation parameter, in order: a FunctionTypeParam keeps
   * its name and its annotation's type, and a pattern at position i becomes
   * `?param_i` of type any.
   */
  lemma ParamsMeaning(params: seq<FnParam>, cb: nat -> FlowType)
    ensures var r := ParamsFold(params, cb);
      |r.0| == |params| &&
      (forall i :: 0 <= i < |params| && params[i].Pattern? ==>
         r.0[i] == Param(Some(PatternName(i)), Some(AnyType))) &&
      (forall i :: 0 <= i < |params| && params[i].FunctionTypeParam? ==>
         r.0[i] == Param(params[i].name, MapType(params[i].annotation, cb)))
  {
    ParamsAt(params, cb);
  }

  /** A parameter that draws a diagnostic: a pattern, or an optional FunctionTypeParam. */
  predicate Flagged(p: FnParam)
  {
    p.Pattern? || p.optional
  }

  /** The positions below `m` of the flagged parameters. */
  ghost function FlaggedBelow(params: seq<FnParam>, m: nat): set<nat>
    requires m <= |params|
  {
    set i: nat | i < m && Flagged(params[i])
  }

  lemma FlaggedBelowNext(params: seq<FnParam>, n: nat)
    requires n < |params|
    ensures |FlaggedBelow(params, n + 1)| == |FlaggedBelow(params, n)| + (if Flagged(params[n]) then 1 else 0)
  {
    var a := FlaggedBelow(params, n);
    var b := FlaggedBelow(params, n + 1);
    var c := if Flagged(params[n]) then a + {n} else a;
    forall i: nat ensures i in b <==> i in c {
    }
    assert b == c;
    assert n !in a;
  }

  /** Each flagged parameter draws exactly one diagnostic, and no other parameter draws one. */
  lemma {:induction false} ParamsDiagCount(params: seq<FnParam>, cb: nat -> FlowType)
    ensures |ParamsFold(params, cb).1| == |FlaggedBelow(params, |params|)|
  {
    if params != [] {
      var n := |params| - 1;
      var p := params[..n];
      ParamsDiagCount(p, cb);
      assert |ParamsFold(params, cb).1| == |ParamsFold(p, cb).1| + |ParamDiags(params[n])|;
      assert FlaggedBelow(p, n) == FlaggedBelow(params, n) by {
        assert forall i :: 0 <= i < n ==> p[i] == params[i];
      }
      FlaggedBelowNext(params, n);
    }
  }

  /** Pattern parameters at different positions get different names. */
  lemma PatternNamesDistinct(i: nat, j: nat)
    requires i != j
    ensures PatternName(i) != PatternName(j)
  {
    if PatternName(i) == PatternName(j) {
      assert PatternName(i)[7..] == PatternName(j)[7..];
      DecimalInjective(i, j);
    }
  }

  /** The diagnostic reported before the parameters, for rest parameters or type parameters. */
  function HeaderDiags(a: FunctionAnnotation): seq<Diag>
  {
    if a.rest || a.typeParameters then [Error(a.node, UnsupportedFunctionTypeParams)] else []
  }

  /** processFunctionTypeAnnotation, as a value: the type and the diagnostics. */
  function FunctionTypeOf(a: FunctionAnnotation, cb: nat -> FlowType): (FlowType, seq<Diag>)
  {
    var ps := ParamsFold(a.params, cb);
    (Function(cb(a.returnType), MapType(a.thisAnnotation, cb), ps.0), HeaderDiags(a) + ps.1)
  }

  /**
   * One turn of the parameter loop of processFunctionTypeAnnotation: appends
   * the parameter to the list and its diagnostics, if any, to the log.
   */
  method ProcessParam(n: FnParam, paramsList0: seq<Param>, diags0: seq<Diag>, cb: nat -> FlowType)
    returns (paramsList: seq<Param>, diags: seq<Diag>)
    ensures paramsList == paramsList0 + [ParamOf(n, |paramsList0|, cb)]
    ensures diags == diags0 + ParamDiags(n)
  {
    paramsList, diags := paramsList0, diags0;
    if n.FunctionTypeParam? {
      if n.optional {
        diags := diags + [Error(n.node, UnsupportedOptionalParameter)];
      }
      var ty: Option<FlowType> := None;
      if n.annotation.Some? {
        ty := Some(cb(n.annotation.value));
      }
      paramsList := paramsList + [Param(n.name, ty)];
    } else {
      diags := diags + [Warning(n.node, PatternParameter)];
      var idx := |paramsList|;
      paramsList := paramsList + [Param(Some("?param_" + Decimal(idx)), Some(AnyType))];
    }
  }

  /** The parameter loop of processFunctionTypeAnnotation, appending to the diagnostics `diags0`. */
  method ProcessParams(params: seq<FnParam>, diags0: seq<Diag>, cb: nat -> FlowType) returns (paramsList: seq<Param>, diags: seq<Diag>)
    ensures paramsList == ParamsFold(params, cb).0
    ensures diags == diags0 + ParamsFold(params, cb).1
  {
    paramsList, diags := [], diags0;
    var k := 0;
    while k < |params|
      invariant k <= |params|
      invariant paramsList == ParamsFold(params[..k], cb).0
      invariant diags == diags0 + ParamsFold(params[..k], cb).1
    {
      assert params[..k + 1][..k] == params[..k];
      ghost var acc := ParamsFold(params[..k], cb);
      paramsList, diags := ProcessParam(params[k], paramsList, diags, cb);
      assert ParamsFold(params[..k + 1], cb) == ParamsStep(acc, params[k], cb);
      assert diags == diags0 + (acc.1 + ParamDiags(params[k]));
      k := k + 1;
    }
    assert params[..k] == params;
  }

  /** processFunctionTypeAnnotation. */
  method ProcessFunctionTypeAnnotation(a: FunctionAnnotation, cb: nat -> FlowType) returns (t: FlowType, diags: seq<Diag>)
    ensures (t, diags) == FunctionTypeOf(a, cb)
  {
    diags := [];
    if a.rest || a.typeParameters {
      diags := diags + [Error(a.node, UnsupportedFunctionTypeParams)];
    }
    var thisType: Option<FlowType> := None;
    if a.thisAnnotation.Some? {
      thisType := Some(cb(a.thisAnnotation.value));
    }
    var returnType := cb(a.returnType);
    assert diags == HeaderDiags(a);
    var paramsList;
    paramsList, diags := ProcessParams(a.params, diags, cb);
    t := Function(returnType, thisType, paramsList);
  }
}
