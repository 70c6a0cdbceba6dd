/**
 * The comparison evaluator: given the kind of comparison an if-instruction
 * performs, the types of its operands and their constant values, decide
 * whether the comparison holds.
 */
module CmpEvaluator {
  import opened Bytecode

  /** The comparison an if-instruction performs, as the optimiser classifies it. */
  datatype CmpType =
    | Equal | NotEqual | Greater | GreaterEqual | Less | LessEqual
    | EqualZero | NotEqualZero | GreaterZero | GreaterEqualZero | LessZero | LessEqualZero
    | OtherCmp

  /** The arithmetic type a comparison or a fold is carried out in. */
  datatype ArithType = AInt | ALong | AFloat | ADouble | AOther

  /**
   * What `performComparison` yields: a boolean, the IllegalArgumentException
   * it throws, or a comparison the model cannot decide because it needs a
   * floating-point evaluation.
   */
  datatype Verdict = Holds(b: bool) | Illegal | NeedsFloat

  const ZeroKinds: set<CmpType> :=
    {EqualZero, NotEqualZero, GreaterZero, GreaterEqualZero, LessZero, LessEqualZero}

  /** The six comparisons against an implicit zero operand. */
  predicate IsZeroComparison(c: CmpType)
  {
    c == EqualZero || c == GreaterEqualZero || c == LessEqualZero
    || c == GreaterZero || c == LessZero || c == NotEqualZero
  }

  /** The four numeric types map to themselves and every other type to OTHER. */
  function ConvertToOurTypes(t: JType): (r: ArithType)
    ensures r != AOther <==> t in {TInt, TLong, TFloat, TDouble}
    ensures (t == TInt <==> r == AInt) && (t == TLong <==> r == ALong)
    ensures (t == TFloat <==> r == AFloat) && (t == TDouble <==> r == ADouble)
  {
    if t == TDouble then ADouble
    else if t == TFloat then AFloat
    else if t == TInt then AInt
    else if t == TLong then ALong
    else AOther
  }

  predicate AreFloatingType(t1: JType, t2: JType)
  {
    t1 == TDouble || t2 == TDouble || t1 == TFloat || t2 == TFloat
  }

  /** The type both operands are compared in; `t2` is None when there is no second operand. */
  function GetBestType(t1: JType, t2: Option<JType>): ArithType
  {
    if t2.None? then ConvertToOurTypes(t1)
    else if t1 == t2.value then ConvertToOurTypes(t1)
    else if AreFloatingType(t1, t2.value) then
      if ConvertToOurTypes(t1) == ADouble || ConvertToOurTypes(t2.value) == ADouble then ADouble else AFloat
    else if ConvertToOurTypes(t1) == ALong || ConvertToOurTypes(t2.value) == ALong then ALong
    else AInt
  }

  /** The numeric widening order int < long < float < double. */
  function Rank(a: ArithType): nat
  {
    match a
    case AInt => 0
    case ALong => 1
    case AFloat => 2
    case ADouble => 3
    case AOther => 4
  }

  lemma BestTypeIsWidest(t1: JType, t2: JType)
    requires t1 in {TInt, TLong, TFloat, TDouble} && t2 in {TInt, TLong, TFloat, TDouble}
    ensures var b := GetBestType(t1, Some(t2));
      b == (if Rank(ConvertToOurTypes(t1)) >= Rank(ConvertToOurTypes(t2))
            then ConvertToOurTypes(t1) else ConvertToOurTypes(t2))
  {
  }

  /** Without a second type, or with the same type twice, the comparison type is the type's own. */
  lemma BestTypeOfOneType(t: JType)
    ensures GetBestType(t, None) == ConvertToOurTypes(t)
    ensures GetBestType(t, Some(t)) == ConvertToOurTypes(t)
  {
  }

  lemma BestTypeSymmetric(t1: JType, t2: JType)
    ensures GetBestType(t1, Some(t2)) == GetBestType(t2, Some(t1))
  {
  }

  /**
   * Two different non-numeric types (a byte and a short, say) are compared
   * as ints, while one alone, or twice, yields OTHER.
   */
  lemma BestTypeOfSmallTypes(t1: JType, t2: JType)
    requires t1 !in {TInt, TLong, TFloat, TDouble} && t2 !in {TInt, TLong, TFloat, TDouble}
    ensures GetBestType(t1, None) == AOther
    ensures GetBestType(t1, Some(t2)) == if t1 == t2 then AOther else AInt
  {
  }

  /** An operand's value in an integral comparison type, or None when it needs floating point. */
  function IntegralValue(ty: ArithType, n: Num): (r: Option<int>)
    requires ty == AInt || ty == ALong
    ensures r.Some? <==> n.IntV? || n.LongV?
  {
    if ty == AInt then
      (match IntValue(n) case Some(v) => Some(v as int) case None => None)
    else
      (match LongValue(n) case Some(v) => Some(v as int) case None => None)
  }

  /** Shape shared by the five comparison helpers: the relation `rel` on integral values. */
  function Compare(ty: ArithType, n1: Num, n2: Num, rel: (int, int) -> bool): Verdict
  {
    match ty
    case ADouble => NeedsFloat
    case AFloat => NeedsFloat
    case AOther => Illegal
    case _ =>
      var a, b := IntegralValue(ty, n1), IntegralValue(ty, n2);
      if a.Some? && b.Some? then Holds(rel(a.value, b.value)) else NeedsFloat
  }

  function PerformEqualComparison(ty: ArithType, n1: Num, n2: Num): Verdict
  {
    Compare(ty, n1, n2, (a, b) => a == b)
  }

  function PerformGreaterEqualComparison(ty: ArithType, n1: Num, n2: Num): Verdict
  {
    Compare(ty, n1, n2, (a, b) => a >= b)
  }

  function PerformLessEqualComparison(ty: ArithType, n1: Num, n2: Num): Verdict
  {
    Compare(ty, n1, n2, (a, b) => a <= b)
  }

  function PerformLessComparison(ty: ArithType, n1: Num, n2: Num): Verdict
  {
    Compare(ty, n1, n2, (a, b) => a < b)
  }

  function PerformGreaterComparison(ty: ArithType, n1: Num, n2: Num): Verdict
  {
    Compare(ty, n1, n2, (a, b) => a > b)
  }

  function Negate(v: Verdict): Verdict
  {
    if v.Holds? then Holds(!v.b) else v
  }

  /**
   * `performComparison`: `n2` is None when the caller has no second
   * operand, `t2` None when it has no second type.
   */
  function PerformComparison(c: CmpType, t1: JType, t2: Option<JType>, n1: Num, n2: Option<Num>): (r: Verdict)
    ensures c == OtherCmp ==> r == Illegal
    ensures n2.None? && !IsZeroComparison(c) ==> r == Illegal
    ensures GetBestType(t1, t2) == AOther ==> r == Illegal
    ensures GetBestType(t1, t2) in {AFloat, ADouble} && r != Illegal ==> r == NeedsFloat
  {
    var best := GetBestType(t1, t2);
    if n2.None? && !IsZeroComparison(c) then Illegal
    else
      match c
      case Equal => PerformEqualComparison(best, n1, n2.value)
      case NotEqual => Negate(PerformEqualComparison(best, n1, n2.value))
      case EqualZero => PerformEqualComparison(best, n1, IntV(0))
      case NotEqualZero => Negate(PerformEqualComparison(best, n1, IntV(0)))
      case Greater => PerformGreaterComparison(best, n1, n2.value)
      case GreaterEqual => PerformGreaterEqualComparison(best, n1, n2.value)
      case Less => PerformLessComparison(best, n1, n2.value)
      case LessEqual => PerformLessEqualComparison(best, n1, n2.value)
      case GreaterEqualZero => PerformGreaterEqualComparison(best, n1, IntV(0))
      case GreaterZero => PerformGreaterComparison(best, n1, IntV(0))
      case LessEqualZero => PerformLessEqualComparison(best, n1, IntV(0))
      case LessZero => PerformLessComparison(best, n1, IntV(0))
      case OtherCmp => Illegal
  }

  /**
   * What each comparison kind asserts of `number1` and `number2` on
   * integral values; the zero kinds compare `number1` with 0.
   */
  predicate Relation(c: CmpType, a: int, b: int)
    requires c != OtherCmp
  {
    match c
    case Equal => a == b
    case NotEqual => a != b
    case Greater => a > b
    case GreaterEqual => a >= b
    case Less => a < b
    case LessEqual => a <= b
    case EqualZero => a == 0
    case NotEqualZero => a != 0
    case GreaterZero => a > 0
    case GreaterEqualZero => a >= 0
    case LessZero => a < 0
    case LessEqualZero => a <= 0
  }

  /**
   * On two ints (or two longs) every kind is decided, and holds exactly
   * when its relation holds of `number1` and `number2`; a zero kind with no
   * second operand compares `number1` with 0.
   */
  lemma IntegralVerdictIsRelation(c: CmpType, a: Int32, b: Int32, x: Int64, y: Int64)
    requires c != OtherCmp
    ensures PerformComparison(c, TInt, Some(TInt), IntV(a), Some(IntV(b))) == Holds(Relation(c, a, b))
    ensures PerformComparison(c, TLong, Some(TLong), LongV(x), Some(LongV(y))) == Holds(Relation(c, x, y))
    ensures IsZeroComparison(c) ==> PerformComparison(c, TInt, None, IntV(a), None) == Holds(Relation(c, a, b))
    ensures IsZeroComparison(c) ==> PerformComparison(c, TLong, None, LongV(x), None) == Holds(Relation(c, x, y))
  {
  }

  /** NOT_EQUAL (against zero or not) is the negation of EQUAL on the same operands. */
  lemma NotEqualNegatesEqual(t1: JType, t2: Option<JType>, n1: Num, n2: Option<Num>)
    ensures PerformComparison(NotEqual, t1, t2, n1, n2) == Negate(PerformComparison(Equal, t1, t2, n1, n2))
    ensures PerformComparison(NotEqualZero, t1, t2, n1, n2) == Negate(PerformComparison(EqualZero, t1, t2, n1, n2))
  {
  }

  /** A comparison against zero never looks at the second operand. */
  lemma ZeroComparisonIgnoresSecond(c: CmpType, t1: JType, t2: Option<JType>, n1: Num, n2: Option<Num>)
    requires IsZeroComparison(c)
    ensures PerformComparison(c, t1, t2, n1, n2) == PerformComparison(c, t1, t2, n1, None)
  {
  }

  /**
   * In an integral comparison type, with integral operands, the six
   * two-operand comparisons are the usual total order: exactly one of
   * LESS, EQUAL and GREATER holds, LESS is GREATER with the operands
   * swapped, and the non-strict forms are the negations of the strict ones.
   */
  lemma IntegralComparisonsAreTotalOrder(ty: ArithType, n1: Num, n2: Num)
    requires ty == AInt || ty == ALong
    requires (n1.IntV? || n1.LongV?) && (n2.IntV? || n2.LongV?)
    ensures var lt, eq, gt := PerformLessComparison(ty, n1, n2), PerformEqualComparison(ty, n1, n2),
                              PerformGreaterComparison(ty, n1, n2);
      lt.Holds? && eq.Holds? && gt.Holds?
      && (if lt.b then 1 else 0) + (if eq.b then 1 else 0) + (if gt.b then 1 else 0) == 1
    ensures PerformLessComparison(ty, n1, n2) == PerformGreaterComparison(ty, n2, n1)
    ensures PerformGreaterEqualComparison(ty, n1, n2) == Negate(PerformLessComparison(ty, n1, n2))
    ensures PerformLessEqualComparison(ty, n1, n2) == Negate(PerformGreaterComparison(ty, n1, n2))
  {
  }
}
