/**
 * Instruction classification and constant extraction shared by the passes.
 */
module Utils {
  import opened Bytecode
  import opened CmpEvaluator

  /** The arithmetic operation a fold carries out. */
  datatype ArithOpType = OpAdd | OpSub | OpMul | OpDiv | OpOther

  /** LDC, LDC2_W and every constant push (ICONST, BIPUSH, SIPUSH, LCONST, FCONST, DCONST). */
  predicate IsConstantInstruction(ins: Instr)
  {
    ins.Ldc? || ins.Ldc2W? || ins.IConst? || ins.BiPush? || ins.SiPush?
    || ins.LConst? || ins.FConst? || ins.DConst?
  }

  /**
   * The number a constant instruction pushes. An LDC of a String or Class
   * entry, and any pool lookup BCEL rejects (a wrong tag or an index out of
   * range), yield None, as does every non-constant instruction.
   */
  function ExtractConstant(ins: Instr, pool: seq<PoolEntry>): (r: Option<Num>)
    ensures r.Some? ==> IsConstantInstruction(ins)
    ensures ins.IConst? || ins.BiPush? || ins.SiPush? ==> r == Some(IntV(ins.v))
    ensures ins.LConst? ==> r == Some(LongV(ins.lv))
    ensures ins.FConst? ==> r == Some(FloatV(ins.f))
    ensures ins.DConst? ==> r == Some(DoubleV(ins.d))
    ensures ins.Ldc? && ins.index < |pool| && pool[ins.index].PInt? ==> r == Some(IntV(pool[ins.index].i))
    ensures ins.Ldc? && ins.index < |pool| && pool[ins.index].PFloat? ==> r == Some(FloatV(pool[ins.index].f))
    ensures ins.Ldc? && !(ins.index < |pool| && (pool[ins.index].PInt? || pool[ins.index].PFloat?)) ==> r.None?
    ensures ins.Ldc2W? && ins.index < |pool| && pool[ins.index].PLong? ==> r == Some(LongV(pool[ins.index].l))
    ensures ins.Ldc2W? && ins.index < |pool| && pool[ins.index].PDouble? ==> r == Some(DoubleV(pool[ins.index].d))
    ensures ins.Ldc2W? && !(ins.index < |pool| && (pool[ins.index].PLong? || pool[ins.index].PDouble?)) ==> r.None?
  {
    match ins
    case Ldc(k) =>
      if k < |pool| then
        match pool[k]
        case PInt(i) => Some(IntV(i))
        case PFloat(f) => Some(FloatV(f))
        case _ => None
      else None
    case Ldc2W(k) =>
      if k < |pool| then
        match pool[k]
        case PLong(l) => Some(LongV(l))
        case PDouble(d) => Some(DoubleV(d))
        case _ => None
      else None
    case IConst(v) => Some(IntV(v))
    case BiPush(v) => Some(IntV(v))
    case SiPush(v) => Some(IntV(v))
    case LConst(v) => Some(LongV(v))
    case FConst(f) => Some(FloatV(f))
    case DConst(d) => Some(DoubleV(d))
    case _ => None
  }

  /** The pool entry `getConstantPushInstruction` adds for a number of each kind. */
  function PoolEntryFor(n: Num): PoolEntry
  {
    match n
    case IntV(i) => PInt(i)
    case LongV(l) => PLong(l)
    case FloatV(f) => PFloat(f)
    case DoubleV(d) => PDouble(d)
  }

  /** LDC2_W for a long or double, LDC for an int or float, naming pool entry `index`. */
  function PushFor(n: Num, index: nat): Instr
  {
    if n.LongV? || n.DoubleV? then Ldc2W(index) else Ldc(index)
  }

  /**
   * `getConstantPushInstruction`: adds the number to the pool and returns
   * the instruction that loads it back.
   */
  method GetConstantPushInstruction(n: Num, pool: ConstantPool) returns (ins: Instr)
    modifies pool
    ensures pool.entries == old(pool.entries) + [PoolEntryFor(n)]
    ensures ins == PushFor(n, |old(pool.entries)|)
    ensures ExtractConstant(ins, pool.entries) == Some(n)
  {
    var index := pool.Add(PoolEntryFor(n));
    ins := PushFor(n, index);
  }

  /** Pushing a number through a fresh pool entry and extracting it gives the number back. */
  lemma PushRoundTrip(n: Num, pool: seq<PoolEntry>)
    ensures var ins := PushFor(n, |pool|);
      IsConstantInstruction(ins) && ExtractConstant(ins, pool + [PoolEntryFor(n)]) == Some(n)
  {
  }

  /** Appending to the pool changes no constant an instruction already names. */
  lemma ExtractConstantStable(ins: Instr, pool: seq<PoolEntry>, extra: seq<PoolEntry>)
    requires (ins.Ldc? || ins.Ldc2W?) ==> ins.index < |pool|
    ensures ExtractConstant(ins, pool + extra) == ExtractConstant(ins, pool)
  {
  }

  /** The four numeric types map to their arithmetic type, every other type to OTHER. */
  function ExtractArithmeticType(t: JType): (r: ArithType)
    ensures r == ConvertToOurTypes(t)
  {
    if t == TInt then AInt
    else if t == TLong then ALong
    else if t == TFloat then AFloat
    else if t == TDouble then ADouble
    else AOther
  }

  /** IADD ... DDIV: the sixteen add, subtract, multiply and divide opcodes; every other one is OTHER. */
  function ExtractArithmeticOperationType(ins: Instr): (r: ArithOpType)
    requires ins.Arith?
    ensures r != OpOther <==> ins.op in {Add, Sub, Mul, Div}
    ensures r == OpAdd <==> ins.op == Add
    ensures r == OpSub <==> ins.op == Sub
    ensures r == OpMul <==> ins.op == Mul
    ensures r == OpDiv <==> ins.op == Div
  {
    match ins.op
    case Add => OpAdd
    case Sub => OpSub
    case Mul => OpMul
    case Div => OpDiv
    case _ => OpOther
  }

  /** The comparison kind of an if-instruction. */
  function ExtractComparisonType(cond: IfOp): (r: CmpType)
    ensures IsZeroComparison(r) <==> cond in {IfEq, IfNe, IfLt, IfGe, IfGt, IfLe}
    ensures r == OtherCmp <==> cond in {IfNull, IfNonNull}
    ensures cond == IfAcmpEq ==> r == Equal
    ensures cond == IfAcmpNe ==> r == NotEqual
  {
    match cond
    case IfAcmpEq => Equal
    case IfIcmpEq => Equal
    case IfAcmpNe => NotEqual
    case IfIcmpNe => NotEqual
    case IfIcmpGe => GreaterEqual
    case IfIcmpGt => Greater
    case IfIcmpLe => LessEqual
    case IfIcmpLt => Less
    case IfEq => EqualZero
    case IfNe => NotEqualZero
    case IfGt => GreaterZero
    case IfLe => LessEqualZero
    case IfLt => LessZero
    case IfGe => GreaterEqualZero
    case IfNull => OtherCmp
    case IfNonNull => OtherCmp
  }

  /** Turns a comparison against zero into the two-operand comparison of the same relation. */
  function AdjustCmpTypeBecauseItsSpecial(c: CmpType): (r: CmpType)
    ensures !IsZeroComparison(r)
    ensures !IsZeroComparison(c) ==> r == c
  {
    match c
    case EqualZero => Equal
    case NotEqualZero => NotEqual
    case GreaterZero => Greater
    case LessEqualZero => LessEqual
    case LessZero => Less
    case GreaterEqualZero => GreaterEqual
    case _ => c
  }

  /** The zero test (IFxx) with the same relation as a two-operand int test (IF_ICMPxx). */
  function ZeroTestOf(cond: IfOp): IfOp
    requires cond in {IfIcmpEq, IfIcmpNe, IfIcmpLt, IfIcmpGe, IfIcmpGt, IfIcmpLe}
  {
    match cond
    case IfIcmpEq => IfEq
    case IfIcmpNe => IfNe
    case IfIcmpLt => IfLt
    case IfIcmpGe => IfGe
    case IfIcmpGt => IfGt
    case IfIcmpLe => IfLe
  }

  /**
   * Adjusting the kind of a zero test gives the kind of the two-operand
   * test with the same relation, which is how a test after LCMP, FCMPx or
   * DCMPx is evaluated.
   */
  lemma AdjustMatchesTwoOperandTest(cond: IfOp)
    requires cond in {IfIcmpEq, IfIcmpNe, IfIcmpLt, IfIcmpGe, IfIcmpGt, IfIcmpLe}
    ensures AdjustCmpTypeBecauseItsSpecial(ExtractComparisonType(ZeroTestOf(cond))) == ExtractComparisonType(cond)
  {
  }

  /**
   * A comparison against zero gives the same verdict as its adjusted
   * two-operand comparison with an int zero as second operand.
   */
  lemma ZeroComparisonIsComparisonWithZero(c: CmpType, t1: JType, t2: Option<JType>, n1: Num, n2: Option<Num>)
    requires IsZeroComparison(c)
    ensures PerformComparison(c, t1, t2, n1, n2)
         == PerformComparison(AdjustCmpTypeBecauseItsSpecial(c), t1, t2, n1, Some(IntV(0)))
  {
  }

  /** The twelve int conditions: IFxx against zero and IF_ICMPxx on two ints. */
  predicate IsIntCondition(cond: IfOp)
  {
    cond !in {IfAcmpEq, IfAcmpNe, IfNull, IfNonNull}
  }

  /**
   * Whether the JVM takes the branch of an int condition (section 6.5 of
   * the Java Virtual Machine Specification): `if_icmp<cond>` compares
   * `value1`, the deeper operand, with `value2`, the top one;
   * `if<cond>` compares its single operand `value1` with zero.
   */
  predicate JvmHolds(cond: IfOp, value1: int, value2: int)
    requires IsIntCondition(cond)
  {
    match cond
    case IfIcmpEq => value1 == value2
    case IfIcmpNe => value1 != value2
    case IfIcmpLt => value1 < value2
    case IfIcmpGe => value1 >= value2
    case IfIcmpGt => value1 > value2
    case IfIcmpLe => value1 <= value2
    case IfEq => value1 == 0
    case IfNe => value1 != 0
    case IfLt => value1 < 0
    case IfGe => value1 >= 0
    case IfGt => value1 > 0
    case IfLe => value1 <= 0
  }

  /**
   * The comparison kind of every int condition means that condition:
   * `performComparison` on two ints `number1` and `number2` holds exactly
   * when the JVM would branch with `number1` as `value1` and `number2` as
   * `value2`, and a zero test with no second operand exactly when it would
   * branch on `number1`.
   */
  lemma ComparisonTypeMeansCondition(cond: IfOp, a: Int32, b: Int32)
    requires IsIntCondition(cond)
    ensures !IsZeroComparison(ExtractComparisonType(cond)) ==>
      PerformComparison(ExtractComparisonType(cond), TInt, Some(TInt), IntV(a), Some(IntV(b))) == Holds(JvmHolds(cond, a, b))
    ensures IsZeroComparison(ExtractComparisonType(cond)) ==>
      PerformComparison(ExtractComparisonType(cond), TInt, None, IntV(a), None) == Holds(JvmHolds(cond, a, b))
  {
    IntegralVerdictIsRelation(ExtractComparisonType(cond), a, b, 0, 0);
  }

  /** A load of an int, long, float or double local; ALOAD is excluded. */
  predicate IsArithmeticLoadInstruction(ins: Instr)
  {
    ins.Load? && ins.kind != VRef
  }

  /** A store (ISTORE ... ASTORE) to local variable `idx`. */
  predicate StoresTo(ins: Instr, idx: nat)
  {
    ins.Store? && ins.index == idx
  }

  /**
   * BCEL's `TypedInstruction.getType`, or None for an instruction that is
   * not a `TypedInstruction` (a goto or an if, for example). An LDC of a
   * String or Class entry is a reference type, OTHER here. An LDC or LDC2_W
   * naming no entry, or an entry of the wrong tag, cannot occur in a valid
   * class file (BCEL's `getType` would throw); it is given OTHER too, and
   * `ExtractConstant` is None for it.
   */
  function TypeOf(ins: Instr, pool: seq<PoolEntry>): (r: Option<JType>)
    ensures ins.IConst? ==> r == Some(TInt)
    ensures ins.BiPush? ==> r == Some(TByte)
    ensures ins.SiPush? ==> r == Some(TShort)
    ensures IsBranch(ins) ==> r.None?
  {
    match ins
    case IConst(_) => Some(TInt)
    case BiPush(_) => Some(TByte)
    case SiPush(_) => Some(TShort)
    case LConst(_) => Some(TLong)
    case FConst(_) => Some(TFloat)
    case DConst(_) => Some(TDouble)
    case Ldc(k) =>
      if k < |pool| then
        (match pool[k] case PInt(_) => Some(TInt) case PFloat(_) => Some(TFloat) case _ => Some(TOther))
      else Some(TOther)
    case Ldc2W(k) =>
      if k < |pool| then
        (match pool[k] case PLong(_) => Some(TLong) case PDouble(_) => Some(TDouble) case _ => Some(TOther))
      else Some(TOther)
    case Load(kind, _) => Some(VarType(kind))
    case Store(kind, _) => Some(VarType(kind))
    case IInc(_, _) => Some(TInt)
    case Arith(_, k) => Some(NumType(k))
    case Conv(op) => Some(ConvTargetType(op))
    case Cmp3(op) => Some(if op == Lcmp then TLong else if op in {Fcmpl, Fcmpg} then TFloat else TDouble)
    case If(_, _) => None
    case Goto(_) => None
    case Opaque(typed) => if typed then Some(TOther) else None
  }

  function VarType(k: VarKind): JType
  {
    match k
    case VInt => TInt
    case VLong => TLong
    case VFloat => TFloat
    case VDouble => TDouble
    case VRef => TOther
  }

  function NumType(k: NumKind): JType
  {
    match k
    case KInt => TInt
    case KLong => TLong
    case KFloat => TFloat
    case KDouble => TDouble
  }

  /** A conversion's type is the type it converts to; I2B, I2C and I2S give byte, char and short. */
  function ConvTargetType(op: ConvOp): JType
  {
    match op
    case L2I => TInt
    case F2I => TInt
    case D2I => TInt
    case I2L => TLong
    case F2L => TLong
    case D2L => TLong
    case I2F => TFloat
    case L2F => TFloat
    case D2F => TFloat
    case I2D => TDouble
    case L2D => TDouble
    case F2D => TDouble
    case I2B => TByte
    case I2C => TChar
    case I2S => TShort
  }

  /**
   * Every constant instruction with a value has a type, and that type is
   * the type of the value, except BIPUSH and SIPUSH, whose BCEL types are
   * byte and short although they push an int.
   */
  lemma ConstantTypeMatchesValue(ins: Instr, pool: seq<PoolEntry>)
    requires ExtractConstant(ins, pool).Some?
    ensures TypeOf(ins, pool).Some?
    ensures !ins.BiPush? && !ins.SiPush? ==>
      TypeOf(ins, pool) == Some(NumType(KindOf(ExtractConstant(ins, pool).value)))
  {
  }
}
