/**
 * The data model shared by every pass: JVM integers with two's-complement
 * wrap, numeric constants, the closed set of instructions the optimiser
 * inspects, instruction handles with stable identities, and the class's
 * constant pool.
 *
 * Branch targets are handle identities, never positions: a handle's
 * position is its index in the list, recomputed after every edit.
 */
module Bytecode {

  const TWO_32: int := 0x1_0000_0000
  const TWO_64: int := 0x1_0000_0000_0000_0000

  /** A Java `int` (section 2.3 of the Java Virtual Machine Specification). */
  type Int32 = x: int | -0x8000_0000 <= x < 0x8000_0000

  /** A Java `long`. */
  type Int64 = x: int | -0x8000_0000_0000_0000 <= x < 0x8000_0000_0000_0000

  datatype Option<T> = None | Some(value: T)

  /**
   * Two's-complement wrap to 32 bits: the result of iadd, isub, imul and
   * idiv (section 6.5 of the JVM Specification) and of narrowing a long to
   * an int (section 5.1.3 of the Java Language Specification).
   */
  function WrapInt(x: int): (r: Int32)
    ensures (r - x) % TWO_32 == 0
    ensures -0x8000_0000 <= x < 0x8000_0000 ==> r == x
  {
    var m := x % TWO_32;
    if m < 0x8000_0000 then m else m - TWO_32
  }

  /** Two's-complement wrap to 64 bits: ladd, lsub, lmul and ldiv. */
  function WrapLong(x: int): (r: Int64)
    ensures (r - x) % TWO_64 == 0
    ensures -0x8000_0000_0000_0000 <= x < 0x8000_0000_0000_0000 ==> r == x
  {
    var m := x % TWO_64;
    if m < 0x8000_0000_0000_0000 then m else m - TWO_64
  }

  function Abs(x: int): nat { if x < 0 then -x else x }

  /**
   * Java's integer quotient, which rounds toward zero (section 15.17.2 of
   * the Java Language Specification); Dafny's own `/` is Euclidean.
   */
  function TruncDiv(a: int, b: int): (q: int)
    requires b != 0
    ensures Abs(a - q * b) < Abs(b)
    ensures a - q * b == 0 || (a - q * b < 0 <==> a < 0)
  {
    var q := Abs(a) / Abs(b);
    var r := Abs(a) % Abs(b);
    assert Abs(a) == q * Abs(b) + r && 0 <= r < Abs(b);
    MulSign(q, b);
    if (a < 0) == (b < 0) then q else -q
  }

  /** A product with `b` in terms of `|b|`. */
  lemma MulSign(q: int, b: int)
    ensures q * b == (if b < 0 then -(q * Abs(b)) else q * Abs(b))
    ensures -q * b == -(q * b)
  {
  }

  /** Java's int and long operations before wrap; division truncates. */
  function IntegralOp(op: ArithOp, a: int, b: int): int
    requires op == Div ==> b != 0
  {
    match op
    case Add => a + b
    case Sub => a - b
    case Mul => a * b
    case Div => TruncDiv(a, b)
    case _ => 0
  }

  /**
   * A float or double value. The model performs no floating-point
   * arithmetic: a value is kept as the term that produced it.
   */
  datatype Fp =
    | FpBits(bits: nat)              // a literal, by its IEEE 754 bit pattern
    | FpOfInteger(v: int)            // the nearest value to an integer
    | FpRounded(x: Fp)               // a double rounded to float precision
    | FpArith(op: ArithOp, x: Fp, y: Fp)

  /** The boxed `Number` a constant push yields: its runtime class is its kind. */
  datatype Num = IntV(i: Int32) | LongV(l: Int64) | FloatV(f: Fp) | DoubleV(d: Fp)

  datatype NumKind = KInt | KLong | KFloat | KDouble

  function KindOf(n: Num): NumKind
  {
    match n
    case IntV(_) => KInt
    case LongV(_) => KLong
    case FloatV(_) => KFloat
    case DoubleV(_) => KDouble
  }

  /**
   * `Number.intValue()`: an int is itself, a long keeps its low 32 bits
   * (section 5.1.3 of the Java Language Specification). A float or double
   * would need floating-point evaluation, which the model leaves out.
   */
  function IntValue(n: Num): (r: Option<Int32>)
    ensures r.Some? <==> n.IntV? || n.LongV?
    ensures n.IntV? ==> r == Some(n.i)
    ensures n.LongV? ==> (r.value - n.l) % TWO_32 == 0
  {
    match n
    case IntV(i) => Some(i)
    case LongV(l) => Some(WrapInt(l))
    case _ => None
  }

  /** `Number.longValue()`: an int widens by sign extension. */
  function LongValue(n: Num): (r: Option<Int64>)
    ensures r.Some? <==> n.IntV? || n.LongV?
    ensures n.IntV? ==> r == Some(n.i)
    ensures n.LongV? ==> r == Some(n.l)
  {
    match n
    case IntV(i) => Some(i)
    case LongV(l) => Some(l)
    case _ => None
  }

  /** `Number.floatValue()`, as a term. */
  function FloatValue(n: Num): Fp
  {
    match n
    case IntV(i) => FpOfInteger(i)
    case LongV(l) => FpOfInteger(l)
    case FloatV(f) => f
    case DoubleV(d) => FpRounded(d)
  }

  /** `Number.doubleValue()`, as a term; widening a float is exact. */
  function DoubleValue(n: Num): Fp
  {
    match n
    case IntV(i) => FpOfInteger(i)
    case LongV(l) => FpOfInteger(l)
    case FloatV(f) => f
    case DoubleV(d) => d
  }

  /** BCEL's `Type` constants, as far as the optimiser distinguishes them. */
  datatype JType = TInt | TLong | TFloat | TDouble | TByte | TShort | TChar | TBoolean | TOther

  /** The kind of a local-variable load or store (ILOAD, LLOAD, FLOAD, DLOAD, ALOAD, ...). */
  datatype VarKind = VInt | VLong | VFloat | VDouble | VRef

  /** The operation of a BCEL `ArithmeticInstruction` (IADD ... LXOR). */
  datatype ArithOp = Add | Sub | Mul | Div | Rem | Neg | Shl | Shr | Ushr | And | Or | Xor

  /** The sixteen BCEL `IfInstruction` opcodes. */
  datatype IfOp =
    | IfEq | IfNe | IfLt | IfGe | IfGt | IfLe
    | IfIcmpEq | IfIcmpNe | IfIcmpLt | IfIcmpGe | IfIcmpGt | IfIcmpLe
    | IfAcmpEq | IfAcmpNe | IfNull | IfNonNull

  /** The three-valued comparisons LCMP, FCMPL, FCMPG, DCMPL, DCMPG. */
  datatype Cmp3Op = Lcmp | Fcmpl | Fcmpg | Dcmpl | Dcmpg

  /** The BCEL `ConversionInstruction` opcodes. */
  datatype ConvOp = I2L | I2F | I2D | L2I | L2F | L2D | F2I | F2L | F2D | D2I | D2L | D2F | I2B | I2C | I2S

  /** A branch target: a handle identity, or null. */
  datatype Ref = Null | At(id: nat)

  /**
   * The instructions the passes distinguish. ICONST, BIPUSH, SIPUSH, LCONST,
   * FCONST and DCONST are BCEL's `ConstantPushInstruction`s; LDC (and LDC_W)
   * and LDC2_W name a constant-pool entry. `Opaque` is every other
   * instruction; `typed` says whether BCEL makes it a `TypedInstruction`.
   */
  datatype Instr =
    | IConst(v: Int32)
    | BiPush(v: Int32)
    | SiPush(v: Int32)
    | LConst(lv: Int64)
    | FConst(f: Fp)
    | DConst(d: Fp)
    | Ldc(index: nat)
    | Ldc2W(index: nat)
    | Load(kind: VarKind, index: nat)
    | Store(kind: VarKind, index: nat)
    | IInc(index: nat, delta: int)
    | Arith(op: ArithOp, numKind: NumKind)
    | Conv(conv: ConvOp)
    | Cmp3(cmp: Cmp3Op)
    | If(cond: IfOp, target: Ref)
    | Goto(target: Ref)
    | Opaque(typed: bool)

  predicate IsBranch(ins: Instr) { ins.If? || ins.Goto? }

  /** `ins` with its branch target replaced by `r` (BCEL `updateTarget`). */
  function WithTarget(ins: Instr, r: Ref): Instr
    requires IsBranch(ins)
  {
    if ins.If? then If(ins.cond, r) else Goto(r)
  }

  /** An instruction handle: a stable identity holding one instruction. */
  datatype Handle = Handle(id: nat, ins: Instr)

  function IdSet(hs: seq<Handle>): set<nat>
  {
    set k | 0 <= k < |hs| :: hs[k].id
  }

  /** The identities of the one-handle slice at `p`. */
  lemma IdSetOne(hs: seq<Handle>, p: nat)
    requires p < |hs|
    ensures IdSet(hs[p..p + 1]) == {hs[p].id}
  {
    var one := hs[p..p + 1];
    assert one[0] == hs[p];
    assert hs[p].id in IdSet(one);
    forall x | x in IdSet(one) ensures x == hs[p].id {
      var k :| 0 <= k < |one| && one[k].id == x;
      assert k == 0;
    }
  }

  ghost predicate DistinctIds(hs: seq<Handle>)
  {
    forall i, j {:trigger hs[i].id, hs[j].id} :: 0 <= i < j < |hs| ==> hs[i].id != hs[j].id
  }

  /** The position of the handle with identity `id`. */
  function IndexOf(hs: seq<Handle>, id: nat): (i: nat)
    requires id in IdSet(hs)
    ensures i < |hs| && hs[i].id == id
    ensures forall j :: 0 <= j < i ==> hs[j].id != id
  {
    if hs[0].id == id then 0 else IndexOf(hs[1..], id) + 1
  }

  lemma IndexOfAt(hs: seq<Handle>, k: nat)
    requires DistinctIds(hs) && k < |hs|
    ensures hs[k].id in IdSet(hs) && IndexOf(hs, hs[k].id) == k
  {
    assert hs[k] in hs;
  }

  /** Some branch in `hs` targets the handle with identity `id`. */
  predicate Targeted(hs: seq<Handle>, id: nat)
  {
    exists k :: 0 <= k < |hs| && IsBranch(hs[k].ins) && hs[k].ins.target == At(id)
  }

  /**
   * Every branch targets a live handle of the same list. A list that BCEL
   * builds from a class file has this property.
   */
  ghost predicate Closed(hs: seq<Handle>)
  {
    forall k :: 0 <= k < |hs| && IsBranch(hs[k].ins) ==>
      hs[k].ins.target.At? && hs[k].ins.target.id in IdSet(hs)
  }

  /** The constant-pool entries the optimiser reads and appends. */
  datatype PoolEntry =
    | PInt(i: Int32)
    | PLong(l: Int64)
    | PFloat(f: Fp)
    | PDouble(d: Fp)
    | PObject     // a String or Class entry

  /** BCEL's `ConstantPoolGen`, shared by every pass over one class. */
  class ConstantPool {
    var entries: seq<PoolEntry>

    constructor (entries: seq<PoolEntry>)
      ensures this.entries == entries
    {
      this.entries := entries;
    }

    /**
     * `addInteger`, `addLong`, `addFloat`, `addDouble`: the model appends
     * without looking for an equal entry.
     */
    method Add(e: PoolEntry) returns (index: nat)
      modifies this
      ensures entries == old(entries) + [e]
      ensures index == |old(entries)| && entries[index] == e
    {
      index := |entries|;
      entries := entries + [e];
    }
  }

  /**
   * A Java exception that escapes a handler. `ClassGen` is BCEL's
   * `ClassGenException`, which writing out a branch without a target throws.
   */
  datatype JavaException = NullPointer | ClassCast | Arithmetic | IllegalArgument | ClassGen

  /** Where the model stops short of the source. */
  datatype Gap =
    | FloatingPoint   // the step needs a floating-point evaluation
    | BackwardJump    // BCEL would delete a reversed or already deleted range
    | AbandonedRewrite  // a handler gave up halfway through a rewrite and the sweep goes on over the partly rewritten list

  /** What one rewrite attempt, or one pass, reports. */
  datatype Outcome = Declined | Rewritten | Raised(e: JavaException) | Unmodelled(gap: Gap)
}
