/**
 * Constant folding of IR literals: truthiness, conversion to number, and the
 * binary operators whose result does not depend on floating-point rounding
 * (NaN, null and undefined, equality, ordering, shifts and string
 * concatenation). Floating-point arithmetic itself is a parameter.
 */
module IREval {
  import opened Wrappers

  /** A JavaScript number: NaN, an infinity, or a finite value (-0 is not distinguished from +0). */
  datatype Num = NaN | Inf(negative: bool) | Finite(value: real)

  /** An IR literal. `OtherLiteral` stands for the non-primitive literals. */
  datatype Literal =
    | LNull
    | LUndefined
    | LBool(b: bool)
    | LNumber(n: Num)
    | LString(s: string)
    | LBigInt(digits: string)
    | OtherLiteral(id: nat)

  /** The binary operator instructions. */
  datatype BinaryOp =
    | Equal | NotEqual | StrictlyEqual | StrictlyNotEqual
    | LessThan | LessThanOrEqual | GreaterThan | GreaterThanOrEqual
    | LeftShift | RightShift | UnsignedRightShift
    | Add | Subtract | Multiply | Divide | Modulo | Exponentiation
    | Or | Xor | And
    | OtherOp

  /** The primitive type of a literal, if it has one. */
  datatype PrimType = NullType | UndefinedType | BooleanType | NumberType | StringType | BigIntType

  function TypeOf(l: Literal): (r: Option<PrimType>)
    ensures r.None? <==> l.OtherLiteral?
  {
    match l
    case LNull => Some(NullType)
    case LUndefined => Some(UndefinedType)
    case LBool(_) => Some(BooleanType)
    case LNumber(_) => Some(NumberType)
    case LString(_) => Some(StringType)
    case LBigInt(_) => Some(BigIntType)
    case OtherLiteral(_) => None
  }

  /** disjointComparisonTypes: both primitive and of different types. */
  predicate DisjointTypes(a: Literal, b: Literal)
  {
    TypeOf(a).Some? && TypeOf(b).Some? && TypeOf(a) != TypeOf(b)
  }

  predicate IsNaN(l: Literal) { l.LNumber? && l.n.NaN? }

  predicate IsNullOrUndefined(l: Literal) { l.LNull? || l.LUndefined? }

  // ---------------------------------------------------------------------------
  // Conversions

  /** evalToBoolean on a literal: no result for kinds it does not know. */
  function EvalToBoolean(l: Literal): (r: Option<bool>)
    ensures r.None? <==> l.LBigInt? || l.OtherLiteral?
  {
    match l
    case LNull => Some(false)
    case LUndefined => Some(false)
    case LBool(b) => Some(b)
    case LNumber(n) => Some(!n.NaN? && n != Finite(0.0))
    case LString(s) => Some(s != [])
    case _ => None
  }

  predicate EvalIsTrue(l: Literal) { EvalToBoolean(l) == Some(true) }

  predicate EvalIsFalse(l: Literal) { EvalToBoolean(l) == Some(false) }

  /**
   * Truthiness: null and undefined are false, a bool is itself, a number is
   * true iff it is neither NaN nor 0, a string iff it is non-empty, and other
   * literals are unknown. evalIsTrue and evalIsFalse never both hold, and
   * neither does when the truth value is unknown.
   */
  lemma TruthinessMeaning(l: Literal)
    ensures IsNullOrUndefined(l) ==> EvalIsFalse(l)
    ensures l.LBool? ==> (EvalIsTrue(l) <==> l.b) && (EvalIsFalse(l) <==> !l.b)
    ensures l.LNumber? ==> (EvalIsTrue(l) <==> !l.n.NaN? && l.n != Finite(0.0))
    ensures l.LString? ==> (EvalIsTrue(l) <==> |l.s| > 0)
    ensures !(EvalIsTrue(l) && EvalIsFalse(l))
    ensures EvalToBoolean(l).None? <==> (l.LBigInt? || l.OtherLiteral?)
    ensures EvalToBoolean(l).None? ==> !EvalIsTrue(l) && !EvalIsFalse(l)
  {
  }

  /** evalToNumber: numbers unchanged, bools as 0/1, undefined as NaN, null as +0. */
  function EvalToNumber(l: Literal): (r: Option<Num>)
    ensures r.Some? <==> l.LNumber? || l.LBool? || l.LUndefined? || l.LNull?
    ensures l.LNumber? ==> r == Some(l.n)
    ensures l.LBool? ==> r == Some(Finite(if l.b then 1.0 else 0.0))
    ensures l.LUndefined? ==> r == Some(NaN)
    ensures l.LNull? ==> r == Some(Finite(0.0))
  {
    match l
    case LNumber(n) => Some(n)
    case LBool(b) => Some(Finite(if b then 1.0 else 0.0))
    case LUndefined => Some(NaN)
    case LNull => Some(Finite(0.0))
    case _ => None
  }

  // ---------------------------------------------------------------------------
  // Integer conversions used by the shift operators

  const TwoTo32: int := 0x1_0000_0000
  const TwoTo31: int := 0x8000_0000

  /** Truncation of a real toward zero. */
  function Truncate(r: real): int
  {
    if r >= 0.0 then r.Floor else -((-r).Floor)
  }

  /** truncateToUInt32: NaN and the infinities give 0; otherwise truncate and wrap modulo 2^32. */
  function ToUint32(n: Num): (r: int)
    ensures 0 <= r < TwoTo32
  {
    match n
    case Finite(v) => Truncate(v) % TwoTo32
    case _ => 0
  }

  /** truncateToInt32: the uint32 value reinterpreted as two's complement. */
  function ToInt32(n: Num): (r: int)
    ensures -TwoTo31 <= r < TwoTo31
  {
    var u := ToUint32(n);
    if u >= TwoTo31 then u - TwoTo32 else u
  }

  function Pow2(k: nat): (r: int)
    ensures r >= 1
  {
    if k == 0 then 1 else 2 * Pow2(k - 1)
  }

  /** An int32 reinterpretation of a value taken modulo 2^32. */
  function AsInt32(x: int): (r: int)
    ensures -TwoTo31 <= r < TwoTo31
  {
    var u := x % TwoTo32;
    if u >= TwoTo31 then u - TwoTo32 else u
  }

  /** An arithmetic right shift by `k` bits: repeated halving rounding toward minus infinity. */
  function ShiftRightBy(x: int, k: nat): int
    decreases k
  {
    if k == 0 then x else ShiftRightBy(x / 2, k - 1)
  }

  /**
   * The three shifts on the converted operands: the count is the low five
   * bits of the right operand; `<<` and `>>` give an int32, `>>>` a uint32.
   */
  function Shift(op: BinaryOp, l: Num, r: Num): int
    requires op == LeftShift || op == RightShift || op == UnsignedRightShift
  {
    var count := ToUint32(r) % 32;
    if op == LeftShift then AsInt32(ToUint32(l) * Pow2(count))
    else if op == RightShift then ShiftRightBy(ToInt32(l), count)
    else ShiftRightBy(ToUint32(l), count)
  }

  /** One bit of `| ^ &`, for bits `a` and `b` that are 0 or 1. */
  function BitOf(op: BinaryOp, a: int, b: int): int
  {
    if op == Or then (if a == 1 || b == 1 then 1 else 0)
    else if op == Xor then (if a != b then 1 else 0)
    else (if a == 1 && b == 1 then 1 else 0)
  }

  /** `| ^ &` on the low `k` bits of two naturals, taken bit by bit from the lowest. */
  function BitsOf(op: BinaryOp, x: nat, y: nat, k: nat): nat
    decreases k
  {
    if k == 0 then 0 else 2 * BitsOf(op, x / 2, y / 2, k - 1) + BitOf(op, x % 2, y % 2)
  }

  /** `| ^ &` on the int32 conversions of both operands, taken bit by bit and read back as an int32. */
  function Bitwise(op: BinaryOp, l: Num, r: Num): int
    requires op == Or || op == Xor || op == And
  {
    AsInt32(BitsOf(op, ToUint32(l), ToUint32(r), 32))
  }

  lemma {:induction false} BitsCommute(op: BinaryOp, x: nat, y: nat, k: nat)
    ensures BitsOf(op, x, y, k) == BitsOf(op, y, x, k)
    decreases k
  {
    if k > 0 {
      BitsCommute(op, x / 2, y / 2, k - 1);
    }
  }

  lemma {:induction false} BitsSelf(x: nat, k: nat)
    ensures BitsOf(And, x, x, k) == BitsOf(Or, x, x, k)
    ensures BitsOf(Xor, x, x, k) == 0 && BitsOf(And, x, 0, k) == 0
    decreases k
  {
    if k > 0 {
      BitsSelf(x / 2, k - 1);
    }
  }

  lemma {:induction false} Pow2Sum(a: nat, b: nat)
    ensures Pow2(a + b) == Pow2(a) * Pow2(b)
    decreases a
  {
    if a > 0 {
      Pow2Sum(a - 1, b);
    }
  }

  lemma Pow2Of32()
    ensures Pow2(32) == TwoTo32
  {
    Pow2Sum(2, 2);
    Pow2Sum(4, 4);
    Pow2Sum(8, 8);
    Pow2Sum(16, 16);
  }

  /** Or-ing with 0 keeps every one of the low `k` bits. */
  lemma {:induction false} BitsOrZero(x: nat, k: nat)
    requires x < Pow2(k)
    ensures BitsOf(Or, x, 0, k) == x
    decreases k
  {
    if k > 0 {
      BitsOrZero(x / 2, k - 1);
    }
  }

  /** The bitwise folds give an int32 and do not depend on operand order. */
  lemma BitwiseCommutes(op: BinaryOp, l: Num, r: Num)
    requires op == Or || op == Xor || op == And
    ensures -TwoTo31 <= Bitwise(op, l, r) < TwoTo31
    ensures Bitwise(op, l, r) == Bitwise(op, r, l)
  {
    BitsCommute(op, ToUint32(l), ToUint32(r), 32);
  }

  /**
   * `| ^ &` fold exactly when both operands are numbers, NaN included, to the
   * int32 of the bitwise operation, whatever IEEE-754 arithmetic `arith` is.
   */
  lemma BitwiseFolds(op: BinaryOp, a: Literal, b: Literal, arith: (BinaryOp, Num, Num) -> Num, arith': (BinaryOp, Num, Num) -> Num)
    requires op == Or || op == Xor || op == And
    ensures EvalBinary(op, a, b, arith) == EvalBinary(op, a, b, arith')
    ensures EvalBinary(op, a, b, arith).Some? <==> a.LNumber? && b.LNumber?
    ensures a.LNumber? && b.LNumber? ==> EvalBinary(op, a, b, arith) == Some(LNumber(Finite(Bitwise(op, a.n, b.n) as real)))
  {
    assert EvalWithNaN(op, a, b, arith) == EvalMain(op, a, b, arith);
    assert EvalMain(op, a, b, arith) == BitwiseLiteral(op, a, b) == EvalMain(op, a, b, arith');
  }

  /** `x & x` and `x | x` agree, while `x ^ x` and `x & 0` are 0. */
  lemma BitwiseSelf(l: Num)
    ensures Bitwise(And, l, l) == Bitwise(Or, l, l)
    ensures Bitwise(Xor, l, l) == 0 && Bitwise(And, l, Finite(0.0)) == 0
  {
    assert ToUint32(Finite(0.0)) == 0;
    BitsSelf(ToUint32(l), 32);
  }

  lemma OrZero32(u: nat)
    requires u < TwoTo32
    ensures BitsOf(Or, u, 0, 32) == u
  {
    Pow2Of32();
    BitsOrZero(u, 32);
  }

  lemma SmallMod(u: int)
    requires 0 <= u < TwoTo32
    ensures u % TwoTo32 == u
  {
  }

  /** `x | 0` is the int32 conversion of `x`. */
  lemma BitwiseOrZero(l: Num)
    ensures Bitwise(Or, l, Finite(0.0)) == ToInt32(l)
  {
    var u := ToUint32(l);
    assert ToUint32(Finite(0.0)) == 0;
    OrZero32(u);
    assert Bitwise(Or, l, Finite(0.0)) == AsInt32(u);
    SmallMod(u);
  }

  /** Shifting right keeps a value within any range around zero. */
  lemma {:induction false} ShiftRightBounds(x: int, k: nat, lo: int, hi: int)
    requires lo <= 0 < hi && lo <= x < hi
    ensures lo <= ShiftRightBy(x, k) < hi
    decreases k
  {
    if k > 0 {
      ShiftRightBounds(x / 2, k - 1, lo, hi);
    }
  }

  /** `<<` and `>>` stay within int32 and `>>>` within uint32. */
  lemma ShiftRanges(op: BinaryOp, l: Num, r: Num)
    requires op == LeftShift || op == RightShift || op == UnsignedRightShift
    ensures op != UnsignedRightShift ==> -TwoTo31 <= Shift(op, l, r) < TwoTo31
    ensures op == UnsignedRightShift ==> 0 <= Shift(op, l, r) < TwoTo32
  {
    var count := ToUint32(r) % 32;
    if op == RightShift {
      ShiftRightBounds(ToInt32(l), count, -TwoTo31, TwoTo31);
    } else if op == UnsignedRightShift {
      ShiftRightBounds(ToUint32(l), count, 0, TwoTo32);
    }
  }

  // ---------------------------------------------------------------------------
  // evalBinaryOperator

  /** Numeric order of two finite-or-infinite numbers. */
  predicate NumLess(a: Num, b: Num)
  {
    match (a, b)
    case (Finite(x), Finite(y)) => x < y
    case (Inf(true), Finite(_)) => true
    case (Inf(true), Inf(false)) => true
    case (Finite(_), Inf(false)) => true
    case _ => false
  }

  datatype NumericOrder = Less | Same | Greater | Unordered

  /** getNumericOrder: only defined when both literals are numbers. */
  function GetNumericOrder(a: Literal, b: Literal): Option<NumericOrder>
  {
    if !a.LNumber? || !b.LNumber? then None
    else if NumLess(a.n, b.n) then Some(Less)
    else if NumLess(b.n, a.n) then Some(Greater)
    else if a.n.NaN? || b.n.NaN? then Some(Unordered)
    else Some(Same)
  }

  /** The result of a comparison given the numeric order, for the orders that decide it. */
  function OrderResult(op: BinaryOp, o: NumericOrder): bool
  {
    match op
    case Equal => o == Same
    case StrictlyEqual => o == Same
    case NotEqual => o != Same
    case StrictlyNotEqual => o != Same
    case LessThan => o == Less
    case LessThanOrEqual => o == Less || o == Same
    case GreaterThan => o == Greater
    case GreaterThanOrEqual => o == Greater || o == Same
    case _ => false
  }

  predicate IsComparison(op: BinaryOp)
  {
    op.Equal? || op.NotEqual? || op.StrictlyEqual? || op.StrictlyNotEqual?
    || op.LessThan? || op.LessThanOrEqual? || op.GreaterThan? || op.GreaterThanOrEqual?
  }

  /** Folding with a numeric order when one is known and decided. */
  function ByOrder(op: BinaryOp, a: Literal, b: Literal): Option<Literal>
  {
    match GetNumericOrder(a, b)
    case Some(o) => if o == Unordered then None else Some(LBool(OrderResult(op, o)))
    case None => None
  }

  /** Folding of string (in)equality. */
  function ByString(op: BinaryOp, a: Literal, b: Literal): Option<Literal>
  {
    if a.LString? && b.LString? then
      Some(LBool(if op == NotEqual || op == StrictlyNotEqual then a.s != b.s else a.s == b.s))
    else None
  }

  function OrElse(x: Option<Literal>, y: Option<Literal>): Option<Literal>
  {
    if x.Some? then x else y
  }

  /**
   * evalBinaryOperator. `arith` is IEEE-754 arithmetic on numbers for + - * / % **;
   * every other case, the int32 bitwise operators included, is decided here.
   */
  function EvalBinary(op: BinaryOp, a: Literal, b: Literal, arith: (BinaryOp, Num, Num) -> Num): (r: Option<Literal>)
    ensures r.Some? ==> (r.value.LBool? <==> IsComparison(op))
    ensures op == OtherOp ==> r.None?
  {
    if IsNaN(a) || IsNaN(b) then EvalWithNaN(op, a, b, arith)
    else EvalMain(op, a, b, arith)
  }

  /** The NaN pre-switch: comparisons, + and arithmetic are decided; shifts and bitwise operators fall through. */
  function EvalWithNaN(op: BinaryOp, a: Literal, b: Literal, arith: (BinaryOp, Num, Num) -> Num): Option<Literal>
  {
    match op
    case Equal => Some(LBool(false))
    case StrictlyEqual => Some(LBool(false))
    case LessThan => Some(LBool(false))
    case LessThanOrEqual => Some(LBool(false))
    case GreaterThan => Some(LBool(false))
    case GreaterThanOrEqual => Some(LBool(false))
    case NotEqual => Some(LBool(true))
    case StrictlyNotEqual => Some(LBool(true))
    case LeftShift => EvalMain(op, a, b, arith)
    case RightShift => EvalMain(op, a, b, arith)
    case UnsignedRightShift => EvalMain(op, a, b, arith)
    case Add =>
      if a.LBigInt? || b.LBigInt? then None
      else if a.LString? then Some(LString(a.s + "NaN"))
      else if b.LString? then Some(LString("NaN" + b.s))
      else Some(LNumber(NaN))
    case Subtract => if a.LBigInt? || b.LBigInt? then None else Some(LNumber(NaN))
    case Multiply => if a.LBigInt? || b.LBigInt? then None else Some(LNumber(NaN))
    case Divide => if a.LBigInt? || b.LBigInt? then None else Some(LNumber(NaN))
    case Modulo => if a.LBigInt? || b.LBigInt? then None else Some(LNumber(NaN))
    case Or => EvalMain(op, a, b, arith)
    case Xor => EvalMain(op, a, b, arith)
    case And => EvalMain(op, a, b, arith)
    case _ => None
  }

  /** The main switch. Literals are uniqued, so `lhs == rhs` is equality of literals. */
  function EvalMain(op: BinaryOp, a: Literal, b: Literal, arith: (BinaryOp, Num, Num) -> Num): Option<Literal>
  {
    match op
    case Equal =>
      if a == b then Some(LBool(true))
      else if IsNullOrUndefined(a) || IsNullOrUndefined(b) then Some(LBool(IsNullOrUndefined(a) && IsNullOrUndefined(b)))
      else OrElse(ByOrder(op, a, b), ByString(op, a, b))
    case NotEqual =>
      if a == b then Some(LBool(false))
      else if IsNullOrUndefined(a) || IsNullOrUndefined(b) then Some(LBool(!(IsNullOrUndefined(a) && IsNullOrUndefined(b))))
      else OrElse(ByOrder(op, a, b), ByString(op, a, b))
    case StrictlyEqual =>
      if a == b then Some(LBool(true))
      else if DisjointTypes(a, b) then Some(LBool(false))
      else OrElse(ByOrder(op, a, b), ByString(op, a, b))
    case StrictlyNotEqual =>
      if a == b then Some(LBool(false))
      else OrElse(ByOrder(op, a, b), ByString(op, a, b))
    case LessThan =>
      if !a.LUndefined? && a == b then Some(LBool(false)) else ByOrder(op, a, b)
    case LessThanOrEqual =>
      if !a.LUndefined? && a == b then Some(LBool(true)) else ByOrder(op, a, b)
    case GreaterThan =>
      if !a.LUndefined? && a == b then Some(LBool(false)) else ByOrder(op, a, b)
    case GreaterThanOrEqual =>
      if !a.LUndefined? && a == b then Some(LBool(true)) else ByOrder(op, a, b)
    case LeftShift => ShiftLiteral(op, a, b)
    case RightShift => ShiftLiteral(op, a, b)
    case UnsignedRightShift => ShiftLiteral(op, a, b)
    case Add => EvalAdd(a, b, arith)
    case Multiply =>
      if a.LNumber? && b.LNumber? then Some(LNumber(arith(op, a.n, b.n)))
      else if (a.LNull? && b.LNumber?) || (b.LNull? && a.LNumber?) || (a.LNull? && b.LNull?) then Some(LNumber(Finite(0.0)))
      else None
    case Subtract => NumericArith(op, a, b, arith)
    case Divide => NumericArith(op, a, b, arith)
    case Modulo => NumericArith(op, a, b, arith)
    case Exponentiation => NumericArith(op, a, b, arith)
    case Or => BitwiseLiteral(op, a, b)
    case Xor => BitwiseLiteral(op, a, b)
    case And => BitwiseLiteral(op, a, b)
    case OtherOp => None
  }

  /** Number-number arithmetic is delegated to `arith`; anything else does not fold. */
  function NumericArith(op: BinaryOp, a: Literal, b: Literal, arith: (BinaryOp, Num, Num) -> Num): Option<Literal>
  {
    if a.LNumber? && b.LNumber? then Some(LNumber(arith(op, a.n, b.n))) else None
  }

  /** `| ^ &` fold when both operands are numbers. */
  function BitwiseLiteral(op: BinaryOp, a: Literal, b: Literal): Option<Literal>
    requires op == Or || op == Xor || op == And
  {
    if a.LNumber? && b.LNumber? then Some(LNumber(Finite(Bitwise(op, a.n, b.n) as real))) else None
  }

  /** A shift folds when both operands convert to numbers. */
  function ShiftLiteral(op: BinaryOp, a: Literal, b: Literal): Option<Literal>
    requires op == LeftShift || op == RightShift || op == UnsignedRightShift
  {
    match (EvalToNumber(a), EvalToNumber(b))
    case (Some(l), Some(r)) => Some(LNumber(Finite(Shift(op, l, r) as real)))
    case _ => None
  }

  /** `+`: numbers add, strings concatenate, and null / undefined combine as the language says. */
  function EvalAdd(a: Literal, b: Literal, arith: (BinaryOp, Num, Num) -> Num): Option<Literal>
  {
    if a.LNumber? && b.LNumber? then Some(LNumber(arith(Add, a.n, b.n)))
    else if a.LString? && b.LString? then Some(LString(a.s + b.s))
    else if a.LNull? && b.LNull? then Some(LNumber(Finite(0.0)))
    else if a.LUndefined? && b.LUndefined? then Some(LNumber(NaN))
    else if a.LNull? && b.LNumber? then Some(b)
    else if a.LNull? && b.LString? then Some(LString("null" + b.s))
    else if b.LNull? && a.LNumber? then Some(a)
    else if b.LNull? && a.LString? then Some(LString(a.s + "null"))
    else if a.LUndefined? && b.LNumber? then Some(LNumber(NaN))
    else if a.LUndefined? && b.LString? then Some(LString("undefined" + b.s))
    else if b.LUndefined? && a.LNumber? then Some(LNumber(NaN))
    else if b.LUndefined? && a.LString? then Some(LString(a.s + "undefined"))
    else None
  }

  // ---------------------------------------------------------------------------
  // Properties

  /** With a NaN operand, == === < <= > >= fold to false and != !== to true. */
  lemma NaNComparisons(op: BinaryOp, a: Literal, b: Literal, arith: (BinaryOp, Num, Num) -> Num)
    requires IsNaN(a) || IsNaN(b)
    requires IsComparison(op)
    ensures EvalBinary(op, a, b, arith) == Some(LBool(op == NotEqual || op == StrictlyNotEqual))
  {
  }

  /**
   * `==`: identical literals are equal; otherwise, with null or undefined on
   * either side, the result is true iff both sides are null or undefined.
   */
  lemma LooseEqualityNullish(a: Literal, b: Literal, arith: (BinaryOp, Num, Num) -> Num)
    ensures a == b && !IsNaN(a) ==> EvalBinary(Equal, a, b, arith) == Some(LBool(true))
    ensures !IsNaN(a) && !IsNaN(b) && (IsNullOrUndefined(a) || IsNullOrUndefined(b)) ==>
      EvalBinary(Equal, a, b, arith) == Some(LBool(IsNullOrUndefined(a) && IsNullOrUndefined(b)))
  {
  }

  /** `==` folds symmetrically. */
  lemma LooseEqualitySymmetric(a: Literal, b: Literal, arith: (BinaryOp, Num, Num) -> Num)
    ensures EvalBinary(Equal, a, b, arith) == EvalBinary(Equal, b, a, arith)
  {
  }

  /** Whenever `==` folds, `!=` folds to its negation, and the other way round. */
  lemma NotEqualIsNegation(a: Literal, b: Literal, arith: (BinaryOp, Num, Num) -> Num)
    ensures EvalBinary(Equal, a, b, arith).Some? <==> EvalBinary(NotEqual, a, b, arith).Some?
    ensures EvalBinary(Equal, a, b, arith).Some? ==>
      EvalBinary(Equal, a, b, arith).value.LBool? && EvalBinary(NotEqual, a, b, arith).value.LBool?
      && EvalBinary(NotEqual, a, b, arith).value.b == !EvalBinary(Equal, a, b, arith).value.b
  {
    if !IsNaN(a) && !IsNaN(b) && a != b && !IsNullOrUndefined(a) && !IsNullOrUndefined(b) {
      var eq, ne := OrElse(ByOrder(Equal, a, b), ByString(Equal, a, b)), OrElse(ByOrder(NotEqual, a, b), ByString(NotEqual, a, b));
      assert EvalBinary(Equal, a, b, arith) == eq && EvalBinary(NotEqual, a, b, arith) == ne;
      assert ByOrder(Equal, a, b).Some? <==> ByOrder(NotEqual, a, b).Some?;
    }
  }

  /** `===`: identical literals are equal and literals of different primitive types are not. */
  lemma StrictEqualityMeaning(a: Literal, b: Literal, arith: (BinaryOp, Num, Num) -> Num)
    ensures a == b && !IsNaN(a) ==> EvalBinary(StrictlyEqual, a, b, arith) == Some(LBool(true))
    ensures DisjointTypes(a, b) ==> EvalBinary(StrictlyEqual, a, b, arith) == Some(LBool(false))
  {
  }

  /** Where both fold, `!==` is the negation of `===` (`!==` folds in fewer cases). */
  lemma StrictNotEqualAgrees(a: Literal, b: Literal, arith: (BinaryOp, Num, Num) -> Num)
    ensures EvalBinary(StrictlyNotEqual, a, b, arith).Some? ==> EvalBinary(StrictlyEqual, a, b, arith).Some?
    ensures EvalBinary(StrictlyNotEqual, a, b, arith).Some? ==>
      EvalBinary(StrictlyNotEqual, a, b, arith).value == LBool(!EvalBinary(StrictlyEqual, a, b, arith).value.b)
    ensures EvalBinary(StrictlyNotEqual, LNull, LUndefined, arith).None?
    ensures EvalBinary(StrictlyEqual, LNull, LUndefined, arith) == Some(LBool(false))
  {
  }

  /** Shifts are decided by the main switch whether or not an operand is NaN. */
  lemma ShiftDispatch(op: BinaryOp, a: Literal, b: Literal, arith: (BinaryOp, Num, Num) -> Num)
    requires op == LeftShift || op == RightShift || op == UnsignedRightShift
    ensures EvalBinary(op, a, b, arith) == ShiftLiteral(op, a, b)
  {
    assert EvalMain(op, a, b, arith) == ShiftLiteral(op, a, b);
  }

  /**
   * Shifts fold exactly when both operands convert to numbers, to an int32
   * (`<<`, `>>`) or uint32 (`>>>`) value, and only the low five bits of the
   * count matter.
   */
  lemma ShiftFolding(op: BinaryOp, a: Literal, b: Literal, b2: Literal, arith: (BinaryOp, Num, Num) -> Num)
    requires op == LeftShift || op == RightShift || op == UnsignedRightShift
    ensures EvalBinary(op, a, b, arith).Some? <==> EvalToNumber(a).Some? && EvalToNumber(b).Some?
    ensures EvalBinary(op, a, b, arith).Some? ==>
      var v := EvalBinary(op, a, b, arith).value;
      v.LNumber? && v.n.Finite? && v.n.value == v.n.value.Floor as real &&
      (if op == UnsignedRightShift then 0 <= v.n.value.Floor < TwoTo32
       else -TwoTo31 <= v.n.value.Floor < TwoTo31)
    ensures EvalToNumber(b).Some? && EvalToNumber(b2).Some?
      && ToUint32(EvalToNumber(b).value) % 32 == ToUint32(EvalToNumber(b2).value) % 32
      ==> EvalBinary(op, a, b, arith) == EvalBinary(op, a, b2, arith)
  {
    ShiftDispatch(op, a, b, arith);
    ShiftDispatch(op, a, b2, arith);
    if EvalToNumber(a).Some? && EvalToNumber(b).Some? {
      var l, r := EvalToNumber(a).value, EvalToNumber(b).value;
      ShiftRanges(op, l, r);
      var k := Shift(op, l, r);
      assert (k as real).Floor == k;
    }
  }

  /** String + string is their concatenation; null, undefined and NaN are spelled out next to a string. */
  lemma StringConcatenation(s: string, t: string, arith: (BinaryOp, Num, Num) -> Num)
    ensures EvalBinary(Add, LString(s), LString(t), arith) == Some(LString(s + t))
    ensures EvalBinary(Add, LNull, LString(t), arith) == Some(LString("null" + t))
    ensures EvalBinary(Add, LString(s), LNull, arith) == Some(LString(s + "null"))
    ensures EvalBinary(Add, LUndefined, LString(t), arith) == Some(LString("undefined" + t))
    ensures EvalBinary(Add, LNumber(NaN), LString(t), arith) == Some(LString("NaN" + t))
  {
  }
}
