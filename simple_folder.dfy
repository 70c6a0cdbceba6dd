/**
 * The simple folder: one sweep over a method's instructions that folds a
 * constant arithmetic operation, a constant conversion or a constant
 * comparison, stopping at the first rewrite.
 *
 * Each handler is a pure plan (what the handler decides on the list as it
 * is) and a method that carries the plan out with the list's own insert
 * and delete operations; the method is proved to leave the list and pool
 * exactly as the plan says.
 */
module SimpleFolder {
  import opened Bytecode
  import opened CmpEvaluator
  import opened Utils
  import opened Optimiser

  /** What a handler decides. */
  datatype Plan =
    | Skip                   // returns false, nothing changed
    | Fail(e: JavaException) // an exception escapes, nothing changed
    | Beyond(gap: Gap)       // the model stops, nothing changed
    | Rewrite(edit: Edit)    // returns true after the edit
    | Abandon(edit: Edit)    // returns false after the part of the edit done before an exception was caught

  function OutcomeOf(p: Plan): Outcome
  {
    match p
    case Skip => Declined
    case Fail(e) => Raised(e)
    case Beyond(g) => Unmodelled(g)
    case Rewrite(_) => Rewritten
    case Abandon(_) => Declined
  }

  function PlannedList(hs: seq<Handle>, p: Plan, nid: nat): seq<Handle>
  {
    if (p.Rewrite? || p.Abandon?) && p.edit.at <= |hs| then EditedList(hs, p.edit, nid) else hs
  }

  function PlannedPool(pool: seq<PoolEntry>, p: Plan): seq<PoolEntry>
  {
    if p.Rewrite? then EditedPool(pool, p.edit) else pool
  }

  // ---------------------------------------------------------------------
  // Arithmetic on constants

  /** The value a `perform*` helper adds to the pool, or why it adds none. */
  datatype ArithResult = NoIndex | Threw(e: JavaException) | Value(v: Num)

  /**
   * `(int) number1 op (int) number2` and its long, float and double
   * forms: each cast throws ClassCastException unless the number has that
   * exact kind, and an int or long division by zero throws
   * ArithmeticException. Float and double results are terms.
   */
  function Fold(op: ArithOp, ty: ArithType, n1: Num, n2: Num): ArithResult
    requires op in {Add, Sub, Mul, Div}
  {
    match ty
    case AInt =>
      if !(n1.IntV? && n2.IntV?) then Threw(ClassCast)
      else if op == Div && n2.i == 0 then Threw(Arithmetic)
      else Value(IntV(WrapInt(IntegralOp(op, n1.i, n2.i))))
    case ALong =>
      if !(n1.LongV? && n2.LongV?) then Threw(ClassCast)
      else if op == Div && n2.l == 0 then Threw(Arithmetic)
      else Value(LongV(WrapLong(IntegralOp(op, n1.l, n2.l))))
    case AFloat =>
      if n1.FloatV? && n2.FloatV? then Value(FloatV(FpArith(op, n1.f, n2.f))) else Threw(ClassCast)
    case ADouble =>
      if n1.DoubleV? && n2.DoubleV? then Value(DoubleV(FpArith(op, n1.d, n2.d))) else Threw(ClassCast)
    case AOther => NoIndex
  }

  /** A successful fold's value has the kind of the arithmetic type. */
  predicate KindMatches(ty: ArithType, v: Num)
  {
    (ty == AInt ==> v.IntV?) && (ty == ALong ==> v.LongV?)
    && (ty == AFloat ==> v.FloatV?) && (ty == ADouble ==> v.DoubleV?)
  }

  function PerformAddition(ty: ArithType, n1: Num, n2: Num): (r: ArithResult)
    ensures ty == AOther <==> r == NoIndex
    ensures r.Value? ==> KindMatches(ty, r.v)
    ensures ty == AInt && n1.IntV? && n2.IntV? ==> r.Value? && (r.v.i - (n1.i + n2.i)) % TWO_32 == 0
    ensures ty == ALong && n1.LongV? && n2.LongV? ==> r.Value? && (r.v.l - (n1.l + n2.l)) % TWO_64 == 0
    ensures ty == AInt && !(n1.IntV? && n2.IntV?) ==> r == Threw(ClassCast)
    ensures ty == ALong && !(n1.LongV? && n2.LongV?) ==> r == Threw(ClassCast)
  {
    Fold(Add, ty, n1, n2)
  }

  function PerformSubtraction(ty: ArithType, n1: Num, n2: Num): (r: ArithResult)
    ensures ty == AOther <==> r == NoIndex
    ensures r.Value? ==> KindMatches(ty, r.v)
    ensures ty == AInt && n1.IntV? && n2.IntV? ==> r.Value? && (r.v.i - (n1.i - n2.i)) % TWO_32 == 0
    ensures ty == ALong && n1.LongV? && n2.LongV? ==> r.Value? && (r.v.l - (n1.l - n2.l)) % TWO_64 == 0
    ensures ty == AInt && !(n1.IntV? && n2.IntV?) ==> r == Threw(ClassCast)
    ensures ty == ALong && !(n1.LongV? && n2.LongV?) ==> r == Threw(ClassCast)
  {
    Fold(Sub, ty, n1, n2)
  }

  function PerformMultiplication(ty: ArithType, n1: Num, n2: Num): (r: ArithResult)
    ensures ty == AOther <==> r == NoIndex
    ensures r.Value? ==> KindMatches(ty, r.v)
    ensures ty == AInt && n1.IntV? && n2.IntV? ==> r.Value? && (r.v.i - n1.i * n2.i) % TWO_32 == 0
    ensures ty == ALong && n1.LongV? && n2.LongV? ==> r.Value? && (r.v.l - n1.l * n2.l) % TWO_64 == 0
    ensures ty == AInt && !(n1.IntV? && n2.IntV?) ==> r == Threw(ClassCast)
    ensures ty == ALong && !(n1.LongV? && n2.LongV?) ==> r == Threw(ClassCast)
  {
    Fold(Mul, ty, n1, n2)
  }

  /**
   * The divisor is the top of the stack (`number2`); an int or long zero
   * divisor is not guarded against and throws.
   */
  function PerformDivision(ty: ArithType, n1: Num, n2: Num): (r: ArithResult)
    ensures ty == AOther <==> r == NoIndex
    ensures r.Value? ==> KindMatches(ty, r.v)
    ensures ty == AInt && n1.IntV? && n2.IntV? ==>
      (n2.i == 0 <==> r == Threw(Arithmetic))
      && (n2.i != 0 ==> r.Value? && (r.v.i - TruncDiv(n1.i, n2.i)) % TWO_32 == 0)
    ensures ty == ALong && n1.LongV? && n2.LongV? ==>
      (n2.l == 0 <==> r == Threw(Arithmetic))
      && (n2.l != 0 ==> r.Value? && (r.v.l - TruncDiv(n1.l, n2.l)) % TWO_64 == 0)
    ensures ty == AInt && !(n1.IntV? && n2.IntV?) ==> r == Threw(ClassCast)
    ensures ty == ALong && !(n1.LongV? && n2.LongV?) ==> r == Threw(ClassCast)
  {
    Fold(Div, ty, n1, n2)
  }

  /** Dispatch on the operation; OTHER operations (rem, neg, shifts, ...) add nothing. */
  function PerformArithmeticOperation(opType: ArithOpType, ty: ArithType, n1: Num, n2: Num): (r: ArithResult)
    ensures opType == OpOther ==> r == NoIndex
  {
    match opType
    case OpAdd => PerformAddition(ty, n1, n2)
    case OpSub => PerformSubtraction(ty, n1, n2)
    case OpMul => PerformMultiplication(ty, n1, n2)
    case OpDiv => PerformDivision(ty, n1, n2)
    case OpOther => NoIndex
  }

  /** The push of the folded value: LDC2_W for long and double, LDC otherwise. */
  function ArithPush(ty: ArithType, index: nat): Instr
  {
    if ty == ADouble || ty == ALong then Ldc2W(index) else Ldc(index)
  }

  /** `handleArithmeticInstruction` at position `i`. */
  function ArithmeticPlan(hs: seq<Handle>, pool: seq<PoolEntry>, i: nat): Plan
    requires i < |hs| && hs[i].ins.Arith?
  {
    var ty := ExtractArithmeticType(NumType(hs[i].ins.numKind));
    if ty == AOther then Skip
    else if i < 2 then Fail(NullPointer)
    else
      var n1, n2 := ExtractConstant(hs[i - 2].ins, pool), ExtractConstant(hs[i - 1].ins, pool);
      if n1.None? || n2.None? then Skip
      else
        match PerformArithmeticOperation(ExtractArithmeticOperationType(hs[i].ins), ty, n1.value, n2.value)
        case NoIndex => Skip
        case Threw(e) => Fail(e)
        case Value(v) =>
          Rewrite(ArithmeticEdit(hs, pool, i, ty, v))
  }

  method HandleArithmeticInstruction(list: InstructionList, pool: ConstantPool, i: nat) returns (outcome: Outcome)
    requires list.Valid() && i < |list.handles| && list.handles[i].ins.Arith? && Closed(list.handles)
    modifies list, pool
    ensures list.Valid() && Closed(list.handles)
    ensures outcome == OutcomeOf(ArithmeticPlan(old(list.handles), old(pool.entries), i))
    ensures list.handles == PlannedList(old(list.handles), ArithmeticPlan(old(list.handles), old(pool.entries), i), old(list.nextId))
    ensures outcome != Rewritten ==> list.nextId == old(list.nextId)
    ensures pool.entries == PlannedPool(old(pool.entries), ArithmeticPlan(old(list.handles), old(pool.entries), i))
  {
    var hs := list.handles;
    var ins := hs[i].ins;
    var ty := ExtractArithmeticType(NumType(ins.numKind));
    if ty == AOther {
      return Declined;
    }
    if i < 2 {
      return Raised(NullPointer);
    }
    var n1 := ExtractConstant(hs[i - 2].ins, pool.entries);
    var n2 := ExtractConstant(hs[i - 1].ins, pool.entries);
    if n1.None? || n2.None? {
      return Declined;
    }
    var res := PerformArithmeticOperation(ExtractArithmeticOperationType(ins), ty, n1.value, n2.value);
    match res
    case NoIndex =>
      return Declined;
    case Threw(e) =>
      return Raised(e);
    case Value(v) =>
      assert ArithmeticPlan(hs, pool.entries, i) == Rewrite(ArithmeticEdit(hs, pool.entries, i, ty, v));
      ReplaceArithmetic(list, pool, i, ty, v);
      return Rewritten;
  }

  function ArithmeticEdit(hs: seq<Handle>, pool: seq<PoolEntry>, i: nat, ty: ArithType, v: Num): Edit
    requires 2 <= i < |hs|
  {
    Edit(i, Some(ArithPush(ty, |pool|)), Some(PoolEntryFor(v)), {hs[i].id, hs[i - 2].id, hs[i - 1].id}, ToInserted)
  }

  /** The rewrite of a successful arithmetic fold: add `v` to the pool, push it before the operation, delete the three. */
  method ReplaceArithmetic(list: InstructionList, pool: ConstantPool, i: nat, ty: ArithType, v: Num)
    requires list.Valid() && 2 <= i < |list.handles| && Closed(list.handles)
    modifies list, pool
    ensures list.Valid() && Closed(list.handles)
    ensures list.handles == EditedList(old(list.handles), ArithmeticEdit(old(list.handles), old(pool.entries), i, ty, v), old(list.nextId))
    ensures pool.entries == EditedPool(old(pool.entries), ArithmeticEdit(old(list.handles), old(pool.entries), i, ty, v))
  {
    var hs := list.handles;
    ghost var edit := ArithmeticEdit(hs, pool.entries, i, ty, v);
    ghost var nid := list.nextId;
    var index := pool.Add(PoolEntryFor(v));
    var rep := list.Insert(i, ArithPush(ty, index));
    ghost var hs1 := list.handles;
    assert hs1 == hs[..i] + [Handle(nid, edit.push.value)] + hs[i..];
    InsertKeepsClosed(hs, i, Handle(nid, edit.push.value));
    assert hs1[i + 1] == hs[i] && hs1[i - 2] == hs[i - 2] && hs1[i - 1] == hs[i - 1] && hs1[i].id == rep;
    assert hs1[i + 1] in hs1 && hs1[i - 2] in hs1 && hs1[i - 1] in hs1 && hs1[i] in hs1;
    DeleteThree(list, hs[i].id, hs[i - 2].id, hs[i - 1].id, rep);
    assert list.handles == EditedList(hs, edit, nid);
  }

  /**
   * Three `attemptDelete`s with the live handle `rep` as replacement, in
   * order. The replacement stays, so every branch keeps a target in the
   * list and none of the three `setPositions(true)` throws.
   */
  method DeleteThree(list: InstructionList, a: nat, b: nat, c: nat, rep: nat)
    requires list.Valid() && Closed(list.handles)
    requires a in IdSet(list.handles) && b in IdSet(list.handles) && c in IdSet(list.handles) && rep in IdSet(list.handles)
    requires a != b && b != c && a != c && rep !in {a, b, c}
    modifies list
    ensures list.Valid() && list.nextId == old(list.nextId) && Closed(list.handles)
    ensures list.handles == Excise(old(list.handles), {a, b, c}, At(rep))
  {
    ghost var hs := list.handles;
    var raised := AttemptDelete(list, At(a), At(rep));
    ExciseKeepsClosed(hs, {a}, rep);
    PositionsCheckIsClosure(list.handles);
    assert raised.None?;
    raised := DeleteAnother(list, hs, {a}, b, At(rep));
    assert {a} + {b} == {a, b};
    ExciseKeepsClosed(hs, {a, b}, rep);
    PositionsCheckIsClosure(list.handles);
    assert raised.None?;
    raised := DeleteAnother(list, hs, {a, b}, c, At(rep));
    assert {a, b} + {c} == {a, b, c};
    ExciseKeepsClosed(hs, {a, b, c}, rep);
    PositionsCheckIsClosure(list.handles);
    assert raised.None?;
  }

  /** Two `attemptDelete`s with the live handle `rep` as replacement, in order; neither throws. */
  method DeleteTwo(list: InstructionList, a: nat, b: nat, rep: nat)
    requires list.Valid() && Closed(list.handles)
    requires a in IdSet(list.handles) && b in IdSet(list.handles) && rep in IdSet(list.handles)
    requires a != b && rep !in {a, b}
    modifies list
    ensures list.Valid() && list.nextId == old(list.nextId) && Closed(list.handles)
    ensures list.handles == Excise(old(list.handles), {a, b}, At(rep))
  {
    ghost var hs := list.handles;
    var raised := AttemptDelete(list, At(a), At(rep));
    ExciseKeepsClosed(hs, {a}, rep);
    PositionsCheckIsClosure(list.handles);
    assert raised.None?;
    raised := DeleteAnother(list, hs, {a}, b, At(rep));
    assert {a} + {b} == {a, b};
    ExciseKeepsClosed(hs, {a, b}, rep);
    PositionsCheckIsClosure(list.handles);
    assert raised.None?;
  }

  /** One more `attemptDelete` after the handles `gone` have been deleted from `hs`. */
  method DeleteAnother(list: InstructionList, ghost hs: seq<Handle>, ghost gone: set<nat>, x: nat, rep: Ref)
      returns (raised: Option<JavaException>)
    requires list.Valid() && DistinctIds(hs) && list.handles == Excise(hs, gone, rep)
    requires x in IdSet(hs) && x !in gone
    modifies list
    ensures list.Valid() && list.nextId == old(list.nextId)
    ensures list.handles == Excise(hs, gone + {x}, rep)
    ensures raised == PositionsCheck(list.handles)
  {
    ExciseIds(hs, gone, rep);
    raised := AttemptDelete(list, At(x), rep);
    ExciseTwice(hs, gone, {x}, rep);
  }

  /**
   * A successful arithmetic fold replaces `number1; number2; op` by one
   * push of the result, so the list is two handles shorter; every branch
   * into the three handles now targets the push, which loads
   * `number1 op number2` computed from the deeper operand and the top of
   * the stack, in that order.
   */
  lemma ArithmeticFoldShape(hs: seq<Handle>, pool: seq<PoolEntry>, i: nat, nid: nat, edit: Edit)
    requires DistinctIds(hs) && 2 <= i < |hs| && hs[i].ins.Arith? && nid !in IdSet(hs)
    requires ArithmeticPlan(hs, pool, i) == Rewrite(edit)
    ensures edit.push.Some? && edit.at == i
    ensures EditedList(hs, edit, nid)
         == Retarget(hs[..i - 2] + [Handle(nid, edit.push.value)] + hs[i + 1..], IdSet(hs[i - 2..i + 1]), At(nid))
    ensures |EditedList(hs, edit, nid)| == |hs| - 2
  {
    assert edit.gone == {hs[i].id, hs[i - 2].id, hs[i - 1].id} && edit.rebind == ToInserted;
    ThreeIds(hs, i);
    FoldedList(hs, i - 2, i, edit.push.value, nid);
  }

  lemma ThreeIds(hs: seq<Handle>, i: nat)
    requires 2 <= i < |hs|
    ensures IdSet(hs[i - 2..i + 1]) == {hs[i].id, hs[i - 2].id, hs[i - 1].id}
  {
    assert hs[i - 2..i + 1] == [hs[i - 2], hs[i - 1], hs[i]];
  }

  /**
   * The push a successful arithmetic fold inserts loads `number1 op
   * number2`, computed from the deeper operand and the top of the stack,
   * in that order.
   */
  lemma ArithmeticFoldValue(hs: seq<Handle>, pool: seq<PoolEntry>, i: nat, n1: Num, n2: Num, edit: Edit)
    requires 2 <= i < |hs| && hs[i].ins.Arith?
    requires ExtractConstant(hs[i - 2].ins, pool) == Some(n1) && ExtractConstant(hs[i - 1].ins, pool) == Some(n2)
    requires ArithmeticPlan(hs, pool, i) == Rewrite(edit)
    ensures PerformArithmeticOperation(ExtractArithmeticOperationType(hs[i].ins),
                                       ExtractArithmeticType(NumType(hs[i].ins.numKind)), n1, n2).Value?
    ensures edit.push.Some?
    ensures ExtractConstant(edit.push.value, EditedPool(pool, edit))
         == Some(PerformArithmeticOperation(ExtractArithmeticOperationType(hs[i].ins),
                                            ExtractArithmeticType(NumType(hs[i].ins.numKind)), n1, n2).v)
  {
  }

  /** Inserting a push before position `i` and excising `lo` through `i` leaves the push in their place. */
  lemma FoldedList(hs: seq<Handle>, lo: nat, i: nat, push: Instr, nid: nat)
    requires DistinctIds(hs) && lo <= i < |hs| && nid !in IdSet(hs)
    ensures Excise(hs[..i] + [Handle(nid, push)] + hs[i..], IdSet(hs[lo..i + 1]), At(nid))
         == Retarget(hs[..lo] + [Handle(nid, push)] + hs[i + 1..], IdSet(hs[lo..i + 1]), At(nid))
    ensures |hs[..lo] + [Handle(nid, push)] + hs[i + 1..]| == |hs| - (i - lo)
  {
    ReplaceSpan(hs, lo, i, i + 1, Handle(nid, push));
  }

  // ---------------------------------------------------------------------
  // Conversions of constants

  /** The value a conversion pushes: `intValue`, `longValue`, `floatValue` or `doubleValue`. */
  function ConvertedValue(ty: ArithType, value: Num): Option<Num>
    requires ty != AOther
  {
    match ty
    case AInt => (match IntValue(value) case Some(x) => Some(IntV(x)) case None => None)
    case ALong => (match LongValue(value) case Some(x) => Some(LongV(x)) case None => None)
    case AFloat => Some(FloatV(FloatValue(value)))
    case ADouble => Some(DoubleV(DoubleValue(value)))
  }

  /** `handleConversion` at position `i`. */
  function ConversionPlan(hs: seq<Handle>, pool: seq<PoolEntry>, i: nat): Plan
    requires i < |hs| && hs[i].ins.Conv?
  {
    var ty := ExtractArithmeticType(ConvTargetType(hs[i].ins.conv));
    if ty == AOther then Skip
    else if i == 0 then Fail(NullPointer)
    else
      match ExtractConstant(hs[i - 1].ins, pool)
      case None => Skip
      case Some(value) =>
        match ConvertedValue(ty, value)
        case None => Beyond(FloatingPoint)
        case Some(v) =>
          Rewrite(ConversionEdit(hs, pool, i, v))
  }

  method HandleConversion(list: InstructionList, pool: ConstantPool, i: nat) returns (outcome: Outcome)
    requires list.Valid() && i < |list.handles| && list.handles[i].ins.Conv? && Closed(list.handles)
    modifies list, pool
    ensures list.Valid() && Closed(list.handles)
    ensures outcome == OutcomeOf(ConversionPlan(old(list.handles), old(pool.entries), i))
    ensures list.handles == PlannedList(old(list.handles), ConversionPlan(old(list.handles), old(pool.entries), i), old(list.nextId))
    ensures outcome != Rewritten ==> list.nextId == old(list.nextId)
    ensures pool.entries == PlannedPool(old(pool.entries), ConversionPlan(old(list.handles), old(pool.entries), i))
  {
    var hs := list.handles;
    var ty := ExtractArithmeticType(ConvTargetType(hs[i].ins.conv));
    if ty == AOther {
      return Declined;
    }
    if i == 0 {
      return Raised(NullPointer);
    }
    var value := ExtractConstant(hs[i - 1].ins, pool.entries);
    if value.None? {
      return Declined;
    }
    var converted := ConvertedValue(ty, value.value);
    if converted.None? {
      return Unmodelled(FloatingPoint);
    }
    assert ConversionPlan(hs, pool.entries, i) == Rewrite(ConversionEdit(hs, pool.entries, i, converted.value));
    ReplaceConversion(list, pool, i, converted.value);
    return Rewritten;
  }

  function ConversionEdit(hs: seq<Handle>, pool: seq<PoolEntry>, i: nat, v: Num): Edit
    requires 1 <= i < |hs|
  {
    Edit(i, Some(PushFor(v, |pool|)), Some(PoolEntryFor(v)), {hs[i].id, hs[i - 1].id}, ToInserted)
  }

  /** The rewrite of a successful conversion fold: push `v` through the pool before the conversion, delete the two. */
  method ReplaceConversion(list: InstructionList, pool: ConstantPool, i: nat, v: Num)
    requires list.Valid() && 1 <= i < |list.handles| && Closed(list.handles)
    modifies list, pool
    ensures list.Valid() && Closed(list.handles)
    ensures list.handles == EditedList(old(list.handles), ConversionEdit(old(list.handles), old(pool.entries), i, v), old(list.nextId))
    ensures pool.entries == EditedPool(old(pool.entries), ConversionEdit(old(list.handles), old(pool.entries), i, v))
  {
    var hs := list.handles;
    ghost var edit := ConversionEdit(hs, pool.entries, i, v);
    ghost var nid := list.nextId;
    var push := GetConstantPushInstruction(v, pool);
    var rep := list.Insert(i, push);
    ghost var hs1 := list.handles;
    assert hs1 == hs[..i] + [Handle(nid, edit.push.value)] + hs[i..];
    InsertKeepsClosed(hs, i, Handle(nid, edit.push.value));
    assert hs1[i + 1] == hs[i] && hs1[i - 1] == hs[i - 1] && hs1[i].id == rep;
    assert hs1[i + 1] in hs1 && hs1[i - 1] in hs1 && hs1[i] in hs1;
    DeleteTwo(list, hs[i].id, hs[i - 1].id, rep);
    assert list.handles == EditedList(hs, edit, nid);
  }

  /**
   * A successful conversion fold replaces `constant; conversion` by one
   * push, so the list is one handle shorter; the push loads the constant
   * converted to the conversion's target type, and a long narrowed to an
   * int keeps its low 32 bits.
   */
  lemma ConversionFoldShape(hs: seq<Handle>, pool: seq<PoolEntry>, i: nat, nid: nat, edit: Edit)
    requires DistinctIds(hs) && 1 <= i < |hs| && hs[i].ins.Conv? && nid !in IdSet(hs)
    requires ConversionPlan(hs, pool, i) == Rewrite(edit)
    ensures edit.push.Some? && edit.at == i
    ensures EditedList(hs, edit, nid)
         == Retarget(hs[..i - 1] + [Handle(nid, edit.push.value)] + hs[i + 1..], IdSet(hs[i - 1..i + 1]), At(nid))
    ensures |EditedList(hs, edit, nid)| == |hs| - 1
  {
    assert edit.gone == {hs[i].id, hs[i - 1].id} && edit.rebind == ToInserted;
    TwoIds(hs, i);
    FoldedList(hs, i - 1, i, edit.push.value, nid);
  }

  lemma TwoIds(hs: seq<Handle>, i: nat)
    requires 1 <= i < |hs|
    ensures IdSet(hs[i - 1..i + 1]) == {hs[i].id, hs[i - 1].id}
  {
    assert hs[i - 1..i + 1] == [hs[i - 1], hs[i]];
  }

  /**
   * The push a successful conversion fold inserts loads the converted
   * constant: L2I keeps the low 32 bits of a long, I2L widens an int.
   */
  lemma ConversionFoldValue(hs: seq<Handle>, pool: seq<PoolEntry>, i: nat, value: Num, edit: Edit)
    requires 1 <= i < |hs| && hs[i].ins.Conv?
    requires ExtractConstant(hs[i - 1].ins, pool) == Some(value)
    requires ConversionPlan(hs, pool, i) == Rewrite(edit)
    ensures edit.push.Some? && ExtractConstant(edit.push.value, EditedPool(pool, edit)).Some?
    ensures hs[i].ins.conv == L2I && value.LongV? ==>
      ExtractConstant(edit.push.value, EditedPool(pool, edit)).value.IntV?
      && (ExtractConstant(edit.push.value, EditedPool(pool, edit)).value.i - value.l) % TWO_32 == 0
    ensures hs[i].ins.conv == I2L && value.IntV? ==>
      ExtractConstant(edit.push.value, EditedPool(pool, edit)) == Some(LongV(value.i))
  {
    PushRoundTrip(ConvertedValue(ExtractArithmeticType(ConvTargetType(hs[i].ins.conv)), value).value, pool);
  }

  // ---------------------------------------------------------------------
  // Comparisons of constants

  /** LCMP, FCMPL, FCMPG, DCMPL and DCMPG. */
  predicate IsComparisonOfOtherType(ins: Instr)
  {
    ins.Cmp3?
  }

  /** The operand type of a three-valued comparison. */
  function Cmp3Type(op: Cmp3Op): JType
  {
    if op == Lcmp then TLong else if op == Dcmpl || op == Dcmpg then TDouble else TFloat
  }

  /** The BCEL type of an instruction already known to push a constant. */
  function ConstantType(ins: Instr, pool: seq<PoolEntry>): JType
  {
    match TypeOf(ins, pool)
    case Some(t) => t
    case None => TOther
  }

  /**
   * What `handleIfInstruction` decides before touching the list: the
   * comparison's verdict, whether a three-valued comparison precedes the
   * `if`, whether a second operand was read, and the position of the
   * deepest operand; or the plan when it stops earlier.
   */
  datatype IfCheck = Stop(plan: Plan) | Decided(verdict: Verdict, other: bool, second: bool, first: nat)

  function CheckIf(hs: seq<Handle>, pool: seq<PoolEntry>, i: nat): (c: IfCheck)
    requires i < |hs| && hs[i].ins.If?
    ensures c.Decided? ==>
      0 < i && c.other == IsComparisonOfOtherType(hs[i - 1].ins) && (c.other ==> c.second)
      && c.first + OperandCount(c.other, c.second) == i
    ensures c.Stop? ==> c.plan == Skip || c.plan.Fail?
  {
    var cmp0 := ExtractComparisonType(hs[i].ins.cond);
    if cmp0 == OtherCmp then Stop(Skip)
    else if i == 0 then Stop(Fail(NullPointer))
    else
      var other := IsComparisonOfOtherType(hs[i - 1].ins);
      if other && i == 1 then Stop(Fail(NullPointer))
      else
        var cmp := if other then AdjustCmpTypeBecauseItsSpecial(cmp0) else cmp0;
        var p1: nat := if other then i - 2 else i - 1;
        var n1 := ExtractConstant(hs[p1].ins, pool);
        if n1.None? then Stop(Skip)
        else
          var t1 := if other then Cmp3Type(hs[i - 1].ins.cmp) else ConstantType(hs[p1].ins, pool);
          if IsZeroComparison(cmp) && !other then
            Decided(PerformComparison(cmp, t1, None, n1.value, None), other, false, p1)
          else if p1 == 0 then Stop(Skip)
          else if !other && TypeOf(hs[p1 - 1].ins, pool).None? then Stop(Fail(ClassCast))
          else
            var n2 := ExtractConstant(hs[p1 - 1].ins, pool);
            if n2.None? then Stop(Skip)
            else
              var t2 := if other then t1 else TypeOf(hs[p1 - 1].ins, pool).value;
              Decided(PerformComparison(cmp, t1, Some(t2), n1.value, n2), other, true, p1 - 1)
  }

  /**
   * The verdict `handleIfInstruction` reaches: `performComparison` of the
   * if's comparison kind on `number1`, the constant just below the `if`
   * (or below the three-valued comparison), and `number2`, the constant
   * below that. A zero test without a three-valued comparison has no
   * second operand and no second type; after a three-valued comparison
   * the kind is adjusted to its two-operand form and both types are the
   * comparison's operand type.
   */
  lemma CheckIfVerdict(hs: seq<Handle>, pool: seq<PoolEntry>, i: nat)
    requires i < |hs| && hs[i].ins.If?
    ensures var c := CheckIf(hs, pool, i);
      c.Decided? && !c.second ==>
      var cmp := ExtractComparisonType(hs[i].ins.cond);
      !c.other && IsZeroComparison(cmp) && ExtractConstant(hs[i - 1].ins, pool).Some?
      && c.verdict == PerformComparison(cmp, ConstantType(hs[i - 1].ins, pool), None, ExtractConstant(hs[i - 1].ins, pool).value, None)
    ensures var c := CheckIf(hs, pool, i);
      c.Decided? && c.second && !c.other ==>
      var cmp := ExtractComparisonType(hs[i].ins.cond);
      2 <= i && !IsZeroComparison(cmp) && ExtractConstant(hs[i - 1].ins, pool).Some? && TypeOf(hs[i - 2].ins, pool).Some?
      && c.verdict == PerformComparison(cmp, ConstantType(hs[i - 1].ins, pool), TypeOf(hs[i - 2].ins, pool),
                                       ExtractConstant(hs[i - 1].ins, pool).value, ExtractConstant(hs[i - 2].ins, pool))
    ensures var c := CheckIf(hs, pool, i);
      c.Decided? && c.other ==>
      var cmp, t := AdjustCmpTypeBecauseItsSpecial(ExtractComparisonType(hs[i].ins.cond)), Cmp3Type(hs[i - 1].ins.cmp);
      3 <= i && ExtractConstant(hs[i - 2].ins, pool).Some?
      && c.verdict == PerformComparison(cmp, t, Some(t), ExtractConstant(hs[i - 2].ins, pool).value, ExtractConstant(hs[i - 3].ins, pool))
  {
  }

  /**
   * `handleIfInstruction` at position `i`. When the comparison holds, the
   * `if` and its operands go, and so does the span from the goto just
   * before the jump target up to that goto's target; when it does not,
   * everything from the operands through the instruction before the jump
   * target goes. A jump or a goto that does not lead forward is beyond the
   * model.
   */
  function IfPlan(hs: seq<Handle>, pool: seq<PoolEntry>, i: nat): Plan
    requires i < |hs| && hs[i].ins.If? && Closed(hs)
  {
    PlanOfCheck(hs, i, CheckIf(hs, pool, i))
  }

  function PlanOfCheck(hs: seq<Handle>, i: nat, c: IfCheck): Plan
    requires i < |hs| && hs[i].ins.If? && Closed(hs) && (c.Decided? ==> c.first <= i)
  {
    match c
    case Stop(p) => p
    case Decided(verdict, _, _, first) =>
      match verdict
      case Illegal => Skip
      case NeedsFloat => Beyond(FloatingPoint)
      case Holds(res) => JumpPlan(hs, i, res, first)
  }

  /** Resolving an `if` only deletes: it adds nothing to the constant pool. */
  lemma IfPlanKeepsPool(hs: seq<Handle>, pool: seq<PoolEntry>, i: nat)
    requires i < |hs| && hs[i].ins.If? && Closed(hs)
    ensures PlannedPool(pool, IfPlan(hs, pool, i)) == pool
  {
  }

  /**
   * An IFxx right after an ICONST decides as the JVM does: the verdict is
   * whether the JVM takes the branch.
   */
  lemma ZeroTestVerdict(hs: seq<Handle>, pool: seq<PoolEntry>, i: nat, a: Int32)
    requires 1 <= i < |hs| && hs[i].ins.If? && hs[i].ins.cond in {IfEq, IfNe, IfLt, IfGe, IfGt, IfLe}
    requires hs[i - 1].ins == IConst(a)
    ensures CheckIf(hs, pool, i) == Decided(Holds(JvmHolds(hs[i].ins.cond, a, 0)), false, false, i - 1)
  {
    ComparisonTypeMeansCondition(hs[i].ins.cond, a, 0);
  }

  /**
   * An IF_ICMPxx right after two ICONSTs is decided on `top OP deeper`,
   * the operands swapped: the JVM branches on `deeper OP top`.
   */
  lemma TwoOperandTestVerdict(hs: seq<Handle>, pool: seq<PoolEntry>, i: nat, top: Int32, deeper: Int32)
    requires 2 <= i < |hs| && hs[i].ins.If? && hs[i].ins.cond in {IfIcmpEq, IfIcmpNe, IfIcmpLt, IfIcmpGe, IfIcmpGt, IfIcmpLe}
    requires hs[i - 1].ins == IConst(top) && hs[i - 2].ins == IConst(deeper)
    ensures CheckIf(hs, pool, i) == Decided(Holds(JvmHolds(hs[i].ins.cond, top, deeper)), false, true, i - 2)
  {
    ComparisonTypeMeansCondition(hs[i].ins.cond, top, deeper);
  }

  /**
   * Which handles a resolved `if` keeps when its comparison holds: the
   * operands and the `if` go, and so do the goto ending the fall-through
   * arm and the jump-target arm it skips; everything before the operands,
   * the fall-through arm and everything from the goto's target on stay.
   * Branches into the deleted handles move to the handle after the `if`.
   */
  lemma TakenIfKeepsFallThrough(hs: seq<Handle>, pool: seq<PoolEntry>, i: nat, nid: nat) returns (tpos: nat, dpos: nat)
    requires i < |hs| && hs[i].ins.If? && Closed(hs) && DistinctIds(hs)
    requires CheckIf(hs, pool, i).Decided? && CheckIf(hs, pool, i).verdict == Holds(true)
    requires IfPlan(hs, pool, i).Rewrite?
    ensures tpos == IndexOf(hs, hs[i].ins.target.id) && 0 < tpos && hs[tpos - 1].ins.Goto?
    ensures hs[tpos - 1].ins.target.At? && hs[tpos - 1].ins.target.id in IdSet(hs)
    ensures dpos == IndexOf(hs, hs[tpos - 1].ins.target.id) && i + 1 < tpos <= dpos < |hs|
    ensures IfPlan(hs, pool, i).edit.rebind == ToHandle(hs[i + 1].id)
    ensures KeptOutside(hs, IdSet(PlannedList(hs, IfPlan(hs, pool, i), nid)), CheckIf(hs, pool, i).first, i + 1, tpos - 1, dpos)
  {
    var c := CheckIf(hs, pool, i);
    assert IfPlan(hs, pool, i) == JumpPlan(hs, i, true, c.first);
    tpos, dpos := TakenJumpPlanKeeps(hs, i, c.first, nid);
  }

  /**
   * Which handles a resolved `if` keeps when its comparison does not
   * hold: everything from the operands up to the jump target goes, and
   * everything before the operands and from the jump target on stays.
   * Branches into the deleted handles move to the jump target.
   */
  lemma UntakenIfKeepsTarget(hs: seq<Handle>, pool: seq<PoolEntry>, i: nat, nid: nat)
    requires i < |hs| && hs[i].ins.If? && Closed(hs) && DistinctIds(hs)
    requires CheckIf(hs, pool, i).Decided? && CheckIf(hs, pool, i).verdict == Holds(false)
    requires IfPlan(hs, pool, i).Rewrite?
    ensures var first, tpos := CheckIf(hs, pool, i).first, IndexOf(hs, hs[i].ins.target.id);
      var after := IdSet(PlannedList(hs, IfPlan(hs, pool, i), nid));
      i < tpos && IfPlan(hs, pool, i).edit.rebind == ToHandle(hs[tpos].id)
      && KeptOutside(hs, after, first, tpos, tpos, tpos)
  {
    var c := CheckIf(hs, pool, i);
    assert IfPlan(hs, pool, i) == JumpPlan(hs, i, false, c.first);
    UntakenJumpPlanKeeps(hs, i, c.first, nid);
  }

  /** `TakenIfKeepsFallThrough` for the rewrite of a taken jump whose deepest operand is at `first`. */
  lemma TakenJumpPlanKeeps(hs: seq<Handle>, i: nat, first: nat, nid: nat) returns (tpos: nat, dpos: nat)
    requires first <= i < |hs| && hs[i].ins.If? && Closed(hs) && DistinctIds(hs)
    requires JumpPlan(hs, i, true, first).Rewrite?
    ensures tpos == IndexOf(hs, hs[i].ins.target.id) && 0 < tpos && hs[tpos - 1].ins.Goto?
    ensures hs[tpos - 1].ins.target.At? && hs[tpos - 1].ins.target.id in IdSet(hs)
    ensures dpos == IndexOf(hs, hs[tpos - 1].ins.target.id) && i + 1 < tpos <= dpos < |hs|
    ensures JumpPlan(hs, i, true, first).edit.rebind == ToHandle(hs[i + 1].id)
    ensures KeptOutside(hs, IdSet(PlannedList(hs, JumpPlan(hs, i, true, first), nid)), first, i + 1, tpos - 1, dpos)
  {
    tpos, dpos := TakenJumpPlanSpans(hs, i, first);
    TakenSpansKept(hs, first, i, tpos, dpos, nid);
  }

  /** Where the rewrite of a taken jump cuts: the goto before the jump target and that goto's target. */
  lemma TakenJumpPlanSpans(hs: seq<Handle>, i: nat, first: nat) returns (tpos: nat, dpos: nat)
    requires first <= i < |hs| && hs[i].ins.If? && Closed(hs)
    requires JumpPlan(hs, i, true, first).Rewrite?
    ensures tpos == IndexOf(hs, hs[i].ins.target.id) && 0 < tpos && hs[tpos - 1].ins.Goto?
    ensures hs[tpos - 1].ins.target.At? && hs[tpos - 1].ins.target.id in IdSet(hs)
    ensures dpos == IndexOf(hs, hs[tpos - 1].ins.target.id) && i + 1 < tpos <= dpos < |hs|
    ensures JumpPlan(hs, i, true, first)
         == Rewrite(Edit(0, None, None, IdSet(hs[first..i + 1]) + IdSet(hs[tpos - 1..dpos]), ToHandle(hs[i + 1].id)))
  {
    tpos := IndexOf(hs, hs[i].ins.target.id);
    dpos := IndexOf(hs, hs[tpos - 1].ins.target.id);
  }

  /** The rewrite of a taken jump, given its positions, keeps exactly the handles outside its two spans. */
  lemma TakenSpansKept(hs: seq<Handle>, first: nat, i: nat, tpos: nat, dpos: nat, nid: nat)
    requires DistinctIds(hs) && first <= i && i + 1 < tpos <= dpos < |hs|
    ensures var gone := IdSet(hs[first..i + 1]) + IdSet(hs[tpos - 1..dpos]);
      var after := IdSet(PlannedList(hs, Rewrite(Edit(0, None, None, gone, ToHandle(hs[i + 1].id))), nid));
      KeptOutside(hs, after, first, i + 1, tpos - 1, dpos)
  {
    var gone := IdSet(hs[first..i + 1]) + IdSet(hs[tpos - 1..dpos]);
    var after := IdSet(PlannedList(hs, Rewrite(Edit(0, None, None, gone, ToHandle(hs[i + 1].id))), nid));
    assert after == IdSet(Excise(hs, gone, At(hs[i + 1].id)));
    ExciseSpansSurvivors(hs, first, i + 1, tpos - 1, dpos, At(hs[i + 1].id), after);
  }

  lemma UntakenJumpPlanKeeps(hs: seq<Handle>, i: nat, first: nat, nid: nat)
    requires first <= i < |hs| && hs[i].ins.If? && Closed(hs) && DistinctIds(hs)
    requires JumpPlan(hs, i, false, first).Rewrite?
    ensures var tpos := IndexOf(hs, hs[i].ins.target.id);
      var after := IdSet(PlannedList(hs, JumpPlan(hs, i, false, first), nid));
      i < tpos && JumpPlan(hs, i, false, first).edit.rebind == ToHandle(hs[tpos].id)
      && KeptOutside(hs, after, first, tpos, tpos, tpos)
  {
    var tpos := IndexOf(hs, hs[i].ins.target.id);
    var after := IdSet(PlannedList(hs, JumpPlan(hs, i, false, first), nid));
    var gone := IdSet(hs[first..tpos]);
    assert JumpPlan(hs, i, false, first) == Rewrite(Edit(0, None, None, gone, ToHandle(hs[tpos].id)));
    assert after == IdSet(Excise(hs, gone, At(hs[tpos].id)));
    ExciseSpanSurvivors(hs, first, tpos, At(hs[tpos].id), after);
  }

  /**
   * Resolving an `if` on a closed list leaves it closed whenever it
   * completes, so the `setPositions(true)` of each deletion passed; an
   * abandoned resolution is one whose list is no longer closed, which is
   * what made `setPositions(true)` throw.
   */
  lemma IfPlanKeepsClosed(hs: seq<Handle>, pool: seq<PoolEntry>, i: nat, nid: nat)
    requires i < |hs| && hs[i].ins.If? && Closed(hs) && DistinctIds(hs)
    ensures IfPlan(hs, pool, i).Rewrite? ==> Closed(PlannedList(hs, IfPlan(hs, pool, i), nid))
    ensures IfPlan(hs, pool, i).Abandon? ==> !Closed(PlannedList(hs, IfPlan(hs, pool, i), nid))
  {
    var c := CheckIf(hs, pool, i);
    assert IfPlan(hs, pool, i) == PlanOfCheck(hs, i, c);
    if c.Decided? && c.verdict.Holds? {
      JumpPlanKeepsClosed(hs, i, c.verdict.b, c.first, nid);
    }
  }

  lemma JumpPlanKeepsClosed(hs: seq<Handle>, i: nat, res: bool, first: nat, nid: nat)
    requires first <= i < |hs| && hs[i].ins.If? && Closed(hs) && DistinctIds(hs)
    ensures JumpPlan(hs, i, res, first).Rewrite? ==> Closed(PlannedList(hs, JumpPlan(hs, i, res, first), nid))
    ensures JumpPlan(hs, i, res, first).Abandon? ==> !Closed(PlannedList(hs, JumpPlan(hs, i, res, first), nid))
  {
    var tpos := IndexOf(hs, hs[i].ins.target.id);
    var p := JumpPlan(hs, i, res, first);
    if (res && p.Rewrite?) || p.Abandon? {
      var dpos := IndexOf(hs, hs[tpos - 1].ins.target.id);
      assert p == TakenPlan(hs, first, i, tpos, dpos);
      TakenPlanKeepsClosed(hs, first, i, tpos, dpos, nid);
    } else if p.Rewrite? {
      assert p.edit.gone == IdSet(hs[first..tpos]);
      assert hs[tpos] in hs;
      OutsideSpan(hs, first, tpos, tpos);
      ExciseKeepsClosed(hs, IdSet(hs[first..tpos]), hs[tpos].id);
    }
  }

  lemma TakenPlanKeepsClosed(hs: seq<Handle>, first: nat, i: nat, tpos: nat, dpos: nat, nid: nat)
    requires DistinctIds(hs) && Closed(hs) && first <= i && i + 1 < tpos <= dpos < |hs|
    ensures TakenPlan(hs, first, i, tpos, dpos).Rewrite? ==> Closed(PlannedList(hs, TakenPlan(hs, first, i, tpos, dpos), nid))
    ensures TakenPlan(hs, first, i, tpos, dpos).Abandon? ==> !Closed(PlannedList(hs, TakenPlan(hs, first, i, tpos, dpos), nid))
  {
    var p := TakenPlan(hs, first, i, tpos, dpos);
    var r := hs[i + 1].id;
    var gone0 := {hs[i].id} + IdSet(hs[tpos - 1..dpos]);
    var stop := OperandStop(hs, gone0, first, i, i, r);
    ExciseClosedIff(hs, p.edit.gone, At(r));
    if p.Rewrite? {
      TakenIds(hs, first, i, tpos, dpos);
      assert p.edit.gone == gone0 + IdSet(hs[first..i + 1]);
    }
  }

  /**
   * When the jump target directly follows the goto after the `if`, the
   * `if`'s replacement is that goto, deleted with the span; if a kept
   * branch targets the span, the first `setPositions(true)` after the span
   * throws, and the handler gives up with every operand still in place.
   */
  lemma TakenPlanDetachedGoto(hs: seq<Handle>, first: nat, i: nat, dpos: nat)
    requires first <= i && i + 2 <= dpos < |hs|
    requires LosesTarget(hs, {hs[i].id} + IdSet(hs[i + 1..dpos]))
    ensures TakenPlan(hs, first, i, i + 2, dpos)
         == Abandon(Edit(0, None, None, {hs[i].id} + IdSet(hs[i + 1..dpos]), ToHandle(hs[i + 1].id)))
  {
    var gone0 := {hs[i].id} + IdSet(hs[i + 1..dpos]);
    assert hs[i + 1] == hs[i + 1..dpos][0];
    assert hs[i..i + 1] == [hs[i]];
    assert IdSet(hs[i..i + 1]) == {hs[i].id};
    assert gone0 + IdSet(hs[i..i + 1]) == gone0;
    assert DeleteThrows(hs, gone0, hs[i + 1].id);
    assert OperandStop(hs, gone0, first, i, i, hs[i + 1].id) == i;
  }

  /**
   * The six handles of `DetachedGotoAbandons`: `iconst_1; ifne B; goto E;
   * B: nop; E: return; goto B`, the goto right after the `if` and a later
   * branch into B.
   */
  function DetachedGotoBody(): seq<Handle>
  {
    [Handle(0, IConst(1)), Handle(1, If(IfNe, At(3))), Handle(2, Goto(At(4))),
     Handle(3, Opaque(false)), Handle(4, Opaque(false)), Handle(5, Goto(At(3)))]
  }

  lemma DetachedGotoBodyIds()
    ensures DistinctIds(DetachedGotoBody()) && Closed(DetachedGotoBody())
    ensures 3 in IdSet(DetachedGotoBody()) && IndexOf(DetachedGotoBody(), 3) == 3
    ensures 4 in IdSet(DetachedGotoBody()) && IndexOf(DetachedGotoBody(), 4) == 4
  {
    var hs := DetachedGotoBody();
    forall k | 0 <= k < |hs| ensures hs[k].id == k {
      assert k in {0, 1, 2, 3, 4, 5};
    }
    IdsArePositions(hs);
    forall k | 0 <= k < |hs| && IsBranch(hs[k].ins) ensures hs[k].ins.target.At? && hs[k].ins.target.id in IdSet(hs) {
      assert k in {0, 1, 2, 3, 4, 5};
    }
  }

  /**
   * `iconst_1; ifne B; goto E; B: nop; E: return; goto B`: the `ifne` is
   * decided to branch, and its replacement, the handle after it, is the
   * goto deleted with B. The last goto, which targeted B, is left on that
   * deleted goto, so `setPositions(true)` throws: the handler returns
   * false with the `if`, the goto and B deleted and the `iconst_1` kept,
   * and the sweep goes on over that list.
   */
  lemma DetachedGotoAbandons()
    ensures Closed(DetachedGotoBody())
    ensures OutcomeOf(IfPlan(DetachedGotoBody(), [], 1)) == Declined
    ensures SweepOutcome(SweepPlan(DetachedGotoBody(), [], 0)) == Unmodelled(AbandonedRewrite)
  {
    var hs := DetachedGotoBody();
    DetachedGotoDecided();
    DetachedGotoHandlers();
    assert SweepPlan(hs, [], 0) == SweepPlan(hs, [], 1);
  }

  lemma DetachedGotoHandlers()
    ensures Closed(DetachedGotoBody()) && PlanAt(DetachedGotoBody(), [], 0) == Skip
    ensures PlanAt(DetachedGotoBody(), [], 1) == IfPlan(DetachedGotoBody(), [], 1)
  {
    var hs := DetachedGotoBody();
    DetachedGotoBodyIds();
    assert hs[0].ins == IConst(1) && hs[1].ins.If?;
    HandlerOf(hs, [], 0);
    HandlerOf(hs, [], 1);
  }

  /** Which handler `PlanAt` hands the instruction at `k` to. */
  lemma HandlerOf(hs: seq<Handle>, pool: seq<PoolEntry>, k: nat)
    requires k < |hs| && Closed(hs)
    ensures hs[k].ins.If? ==> PlanAt(hs, pool, k) == IfPlan(hs, pool, k)
    ensures !(hs[k].ins.If? || hs[k].ins.Conv? || hs[k].ins.Arith?) ==> PlanAt(hs, pool, k) == Skip
  {
  }

  lemma DetachedGotoDecided()
    ensures var hs := DetachedGotoBody();
      Closed(hs) && CheckIf(hs, [], 1) == Decided(Holds(true), false, false, 0)
      && IfPlan(hs, [], 1) == Abandon(Edit(0, None, None, {1, 2, 3}, ToHandle(2)))
  {
    var hs := DetachedGotoBody();
    DetachedGotoBodyIds();
    ZeroTestVerdict(hs, [], 1, 1);
    DetachedGotoPlan();
    assert IfPlan(hs, [], 1) == JumpPlan(hs, 1, true, 0);
  }

  lemma DetachedGotoPlan()
    ensures Closed(DetachedGotoBody())
    ensures JumpPlan(DetachedGotoBody(), 1, true, 0) == Abandon(Edit(0, None, None, {1, 2, 3}, ToHandle(2)))
  {
    var hs := DetachedGotoBody();
    DetachedGotoBodyIds();
    assert hs[1].ins.target.id == 3 && hs[2].ins.Goto? && hs[2].ins.target.id == 4;
    assert JumpPlan(hs, 1, true, 0) == TakenPlan(hs, 0, 1, 3, 4);
    DetachedGotoGone();
    TakenPlanDetachedGoto(hs, 0, 1, 4);
  }

  lemma DetachedGotoGone()
    ensures {DetachedGotoBody()[1].id} + IdSet(DetachedGotoBody()[2..4]) == {1, 2, 3}
    ensures LosesTarget(DetachedGotoBody(), {1, 2, 3}) && DetachedGotoBody()[2].id == 2
  {
    var hs := DetachedGotoBody();
    IdSetPrepend(hs, 2, 4);
    IdSetOne(hs, 3);
    assert hs[5].id !in {1, 2, 3} && IsBranch(hs[5].ins) && hs[5].ins.target == At(3);
  }

  /** In `DetachedGotoBody`, the abandoned resolution leaves the last goto on the deleted handle 2. */
  lemma DetachedGotoLeftList()
    ensures Excise(DetachedGotoBody(), {1, 2, 3}, At(2))
         == [Handle(0, IConst(1)), Handle(4, Opaque(false)), Handle(5, Goto(At(2)))]
    ensures !Closed(Excise(DetachedGotoBody(), {1, 2, 3}, At(2)))
  {
    var hs := DetachedGotoBody();
    var kept := [Handle(0, IConst(1)), Handle(4, Opaque(false)), Handle(5, Goto(At(3)))];
    assert Remove(hs, {1, 2, 3}) == kept by {
      assert hs[1..][1..][1..] == [hs[3], hs[4], hs[5]];
    }
    var res := Retarget(kept, {1, 2, 3}, At(2));
    assert res[0] == kept[0] && res[1] == kept[1] && res[2] == Handle(5, Goto(At(2)));
    assert IsBranch(res[2].ins) && 2 !in IdSet(res);
  }

  /** `after` holds the identity of exactly those handles of `hs` outside the spans `a..b` and `c..d`. */
  ghost predicate KeptOutside(hs: seq<Handle>, after: set<nat>, a: nat, b: nat, c: nat, d: nat)
  {
    forall k :: 0 <= k < |hs| ==> (hs[k].id in after <==> !(a <= k < b || c <= k < d))
  }

  /** Excising the span `a..b` keeps exactly the handles outside it. */
  lemma ExciseSpanSurvivors(hs: seq<Handle>, a: nat, b: nat, r: Ref, after: set<nat>)
    requires DistinctIds(hs) && a <= b <= |hs|
    requires after == IdSet(Excise(hs, IdSet(hs[a..b]), r))
    ensures KeptOutside(hs, after, a, b, b, b)
  {
    ExciseIds(hs, IdSet(hs[a..b]), r);
    forall k | 0 <= k < |hs| ensures hs[k].id in IdSet(hs) - IdSet(hs[a..b]) <==> !(a <= k < b) {
      SliceMember(hs, 0, |hs|, k);
      assert hs[0..|hs|] == hs;
      if a <= k < b {
        SliceMember(hs, a, b, k);
      } else {
        OutsideSpan(hs, a, b, k);
      }
    }
  }

  /** Excising the spans `a..b` and `c..d` keeps exactly the handles outside both. */
  lemma ExciseSpansSurvivors(hs: seq<Handle>, a: nat, b: nat, c: nat, d: nat, r: Ref, after: set<nat>)
    requires DistinctIds(hs) && a <= b <= |hs| && c <= d <= |hs|
    requires after == IdSet(Excise(hs, IdSet(hs[a..b]) + IdSet(hs[c..d]), r))
    ensures KeptOutside(hs, after, a, b, c, d)
  {
    ExciseIds(hs, IdSet(hs[a..b]) + IdSet(hs[c..d]), r);
    forall k | 0 <= k < |hs| ensures hs[k].id in IdSet(hs) - (IdSet(hs[a..b]) + IdSet(hs[c..d])) <==> !(a <= k < b || c <= k < d) {
      SliceMember(hs, 0, |hs|, k);
      assert hs[0..|hs|] == hs;
      if a <= k < b {
        SliceMember(hs, a, b, k);
      } else if c <= k < d {
        SliceMember(hs, c, d, k);
      } else {
        OutsideSpan(hs, a, b, k);
        OutsideSpan(hs, c, d, k);
      }
    }
  }

  /** The six handles of `ZeroTestKeepsFallThrough`: `iconst_0; ifeq B; A; goto E; B; E`. */
  function ZeroTestBody(): seq<Handle>
  {
    [Handle(0, IConst(0)), Handle(1, If(IfEq, At(4))), Handle(2, Opaque(false)),
     Handle(3, Goto(At(5))), Handle(4, Opaque(false)), Handle(5, Opaque(false))]
  }

  lemma ZeroTestBodyIds()
    ensures DistinctIds(ZeroTestBody()) && Closed(ZeroTestBody())
    ensures 4 in IdSet(ZeroTestBody()) && IndexOf(ZeroTestBody(), 4) == 4
    ensures 5 in IdSet(ZeroTestBody()) && IndexOf(ZeroTestBody(), 5) == 5
  {
    var hs := ZeroTestBody();
    forall k | 0 <= k < |hs| ensures hs[k].id == k {
      assert k in {0, 1, 2, 3, 4, 5};
    }
    IdsArePositions(hs);
    forall k | 0 <= k < |hs| && IsBranch(hs[k].ins) ensures hs[k].ins.target.At? && hs[k].ins.target.id in IdSet(hs) {
      assert k in {0, 1, 2, 3, 4, 5};
    }
  }

  /** When every handle's identity is its position, identities are distinct and each is found where it is. */
  lemma IdsArePositions(hs: seq<Handle>)
    requires forall k :: 0 <= k < |hs| ==> hs[k].id == k
    ensures DistinctIds(hs)
    ensures forall x :: 0 <= x < |hs| ==> x in IdSet(hs) && IndexOf(hs, x) == x
  {
    forall x | 0 <= x < |hs| ensures x in IdSet(hs) && IndexOf(hs, x) == x {
      IndexOfAt(hs, x);
    }
  }

  /** The `ifeq` of `ZeroTestBody` is decided to branch, and its folding is a rewrite. */
  lemma ZeroTestDecided()
    ensures var hs := ZeroTestBody();
      DistinctIds(hs) && Closed(hs)
      && CheckIf(hs, [], 1) == Decided(Holds(true), false, false, 0) && IfPlan(hs, [], 1).Rewrite?
  {
    var hs := ZeroTestBody();
    ZeroTestBodyIds();
    ZeroTestVerdict(hs, [], 1, 0);
    ZeroTestJump();
    assert IfPlan(hs, [], 1) == JumpPlan(hs, 1, true, 0);
  }

  lemma ZeroTestJump()
    ensures Closed(ZeroTestBody()) && JumpPlan(ZeroTestBody(), 1, true, 0).Rewrite?
  {
    var hs := ZeroTestBody();
    ZeroTestBodyIds();
    assert hs[1].ins.target.id == 4 && hs[3].ins.Goto? && hs[3].ins.target.id == 5;
    TakenPlanLiveReplacement(hs, 0, 1, 4, 5);
  }

  /**
   * `iconst_0; ifeq B; A; goto E; B; E`: the JVM branches to B (handle 4),
   * yet the folding keeps A (handle 2) and deletes the `iconst_0`, the
   * `if`, the goto and B.
   */
  lemma ZeroTestKeepsFallThrough()
    ensures var hs := ZeroTestBody();
      hs[1].ins.target == At(4) && JvmHolds(IfEq, 0, 0)
      && CheckIf(hs, [], 1) == Decided(Holds(true), false, false, 0)
      && Closed(hs) && IfPlan(hs, [], 1).Rewrite?
      && var after := IdSet(PlannedList(hs, IfPlan(hs, [], 1), 6));
      2 in after && 5 in after && 0 !in after && 1 !in after && 3 !in after && 4 !in after
  {
    var hs := ZeroTestBody();
    ZeroTestDecided();
    ZeroTestBodyIds();
    var tpos, dpos := TakenIfKeepsFallThrough(hs, [], 1, 6);
    assert hs[1].ins.target.id == 4 && hs[3].ins.target.id == 5;
    assert tpos == 4;
    assert dpos == 5;
    var after := IdSet(PlannedList(hs, IfPlan(hs, [], 1), 6));
    assert KeptOutside(hs, after, 0, 2, 3, 5);
    ZeroTestSurvivors(after);
  }

  /** In the example body, keeping what lies outside positions 0-1 and 3-4 keeps exactly handles 2 and 5. */
  lemma ZeroTestSurvivors(after: set<nat>)
    requires KeptOutside(ZeroTestBody(), after, 0, 2, 3, 5)
    ensures 2 in after && 5 in after && 0 !in after && 1 !in after && 3 !in after && 4 !in after
  {
    var hs := ZeroTestBody();
    assert hs[0].id == 0 && hs[1].id == 1 && hs[2].id == 2 && hs[3].id == 3 && hs[4].id == 4 && hs[5].id == 5;
  }

  /** The rewrite once the comparison of the `if` at `i` is known to be `res`; `first` is its deepest operand. */
  function JumpPlan(hs: seq<Handle>, i: nat, res: bool, first: nat): Plan
    requires first <= i < |hs| && hs[i].ins.If? && Closed(hs)
  {
    var tpos := IndexOf(hs, hs[i].ins.target.id);
    if res then
      if tpos == 0 || !hs[tpos - 1].ins.Goto? then Skip
      else
        var dpos := IndexOf(hs, hs[tpos - 1].ins.target.id);
        if !(i + 1 < tpos <= dpos) then Beyond(BackwardJump)
        else TakenPlan(hs, first, i, tpos, dpos)
    else if tpos <= i then Beyond(BackwardJump)
    else Rewrite(Edit(0, None, None, IdSet(hs[first..tpos]), ToHandle(hs[tpos].id)))
  }

  /**
   * The rewrite of a taken jump: the `if`, then the span from the goto
   * before the jump target up to the goto's target, then the operands from
   * `i - 1` down to `first`, all rebinding to the handle after the `if`.
   * When that handle is the goto itself it is deleted with the span, and a
   * branch into a deleted handle then targets a handle outside the list:
   * `setPositions(true)` throws, the handler catches it and returns false,
   * and the operands not yet deleted stay.
   */
  function TakenPlan(hs: seq<Handle>, first: nat, i: nat, tpos: nat, dpos: nat): Plan
    requires first <= i && i + 1 < tpos <= dpos < |hs|
  {
    var gone0 := {hs[i].id} + IdSet(hs[tpos - 1..dpos]);
    var stop := OperandStop(hs, gone0, first, i, i, hs[i + 1].id);
    if DeleteThrows(hs, gone0 + IdSet(hs[stop..i + 1]), hs[i + 1].id)
    then Abandon(Edit(0, None, None, gone0 + IdSet(hs[stop..i + 1]), ToHandle(hs[i + 1].id)))
    else Rewrite(Edit(0, None, None, IdSet(hs[first..i + 1]) + IdSet(hs[tpos - 1..dpos]), ToHandle(hs[i + 1].id)))
  }

  /**
   * When the goto before the jump target is not right after the `if`, the
   * replacement survives every deletion and the rewrite completes.
   */
  lemma TakenPlanLiveReplacement(hs: seq<Handle>, first: nat, i: nat, tpos: nat, dpos: nat)
    requires DistinctIds(hs) && first <= i && i + 2 < tpos <= dpos < |hs|
    ensures TakenPlan(hs, first, i, tpos, dpos)
         == Rewrite(Edit(0, None, None, IdSet(hs[first..i + 1]) + IdSet(hs[tpos - 1..dpos]), ToHandle(hs[i + 1].id)))
  {
    var gone0 := {hs[i].id} + IdSet(hs[tpos - 1..dpos]);
    var stop := OperandStop(hs, gone0, first, i, i, hs[i + 1].id);
    assert hs[i + 1] in hs;
    OutsideSpan(hs, tpos - 1, dpos, i + 1);
    OutsideSpan(hs, stop, i + 1, i + 1);
    assert !DeleteThrows(hs, gone0 + IdSet(hs[stop..i + 1]), hs[i + 1].id);
  }

  /**
   * How far the operand deletions after `gone0` get: once everything from
   * `m` up to the `if` at `i` is gone too, the deletions stop at `m` if
   * that deletion made `setPositions(true)` throw, and at `first` when
   * none does.
   */
  function OperandStop(hs: seq<Handle>, gone0: set<nat>, first: nat, m: nat, i: nat, r: nat): (stop: nat)
    requires first <= m <= i < |hs|
    decreases m
    ensures first <= stop <= m
    ensures !DeleteThrows(hs, gone0 + IdSet(hs[stop..i + 1]), r) ==> stop == first
  {
    if m == first || DeleteThrows(hs, gone0 + IdSet(hs[m..i + 1]), r) then m
    else OperandStop(hs, gone0, first, m - 1, i, r)
  }

  /**
   * An `if` resolution is abandoned only when the comparison holds and the
   * handle after the `if` is the goto before the jump target, so that the
   * replacement is deleted; it has then deleted the `if`, and some handle
   * left targets a deleted one.
   */
  lemma IfAbandonChanges(hs: seq<Handle>, pool: seq<PoolEntry>, i: nat, nid: nat)
    requires i < |hs| && hs[i].ins.If? && Closed(hs) && DistinctIds(hs)
    ensures IfPlan(hs, pool, i).Abandon? ==>
      hs[i].id in IfPlan(hs, pool, i).edit.gone && PlannedList(hs, IfPlan(hs, pool, i), nid) != hs
  {
    var c := CheckIf(hs, pool, i);
    assert IfPlan(hs, pool, i) == PlanOfCheck(hs, i, c);
    if c.Decided? && c.verdict.Holds? {
      JumpAbandonChanges(hs, i, c.verdict.b, c.first, nid);
    }
  }

  lemma JumpAbandonChanges(hs: seq<Handle>, i: nat, res: bool, first: nat, nid: nat)
    requires first <= i < |hs| && hs[i].ins.If? && Closed(hs) && DistinctIds(hs)
    ensures JumpPlan(hs, i, res, first).Abandon? ==>
      hs[i].id in JumpPlan(hs, i, res, first).edit.gone && PlannedList(hs, JumpPlan(hs, i, res, first), nid) != hs
  {
    if JumpPlan(hs, i, res, first).Abandon? {
      var tpos := IndexOf(hs, hs[i].ins.target.id);
      var dpos := IndexOf(hs, hs[tpos - 1].ins.target.id);
      TakenAbandonChanges(hs, first, i, tpos, dpos, nid);
    }
  }

  lemma TakenAbandonChanges(hs: seq<Handle>, first: nat, i: nat, tpos: nat, dpos: nat, nid: nat)
    requires DistinctIds(hs) && first <= i && i + 1 < tpos <= dpos < |hs|
    requires TakenPlan(hs, first, i, tpos, dpos).Abandon?
    ensures hs[i].id in TakenPlan(hs, first, i, tpos, dpos).edit.gone
    ensures PlannedList(hs, TakenPlan(hs, first, i, tpos, dpos), nid) != hs
  {
    var p := TakenPlan(hs, first, i, tpos, dpos);
    ExciseIds(hs, p.edit.gone, At(hs[i + 1].id));
    assert hs[i] in hs;
  }

  /** The handles below an `if` that its folding deletes: a three-valued comparison and one or two operands. */
  function OperandCount(other: bool, second: bool): nat
  {
    (if other then 1 else 0) + 1 + (if second then 1 else 0)
  }

  /**
   * The operand deletions that end `handleIfInstruction`: the three-valued
   * comparison if there is one, the first operand, then the second operand
   * if one was read.
   */
  method DeleteOperands(list: InstructionList, hs0: seq<Handle>, ghost gone0: set<nat>,
                        ghost first: nat, i: nat, other: bool, second: bool, rep: nat) returns (raised: Option<JavaException>)
    requires list.Valid() && DistinctIds(hs0) && Closed(hs0) && i < |hs0| && hs0[i].id in gone0
    requires (other ==> second) && first + OperandCount(other, second) == i
    requires IdSet(hs0[first..i]) !! gone0
    requires list.handles == Excise(hs0, gone0, At(rep)) && !DeleteThrows(hs0, gone0, rep)
    modifies list
    ensures list.Valid() && list.nextId == old(list.nextId)
    ensures var stop := OperandStop(hs0, gone0, first, i, i, rep);
      list.handles == Excise(hs0, gone0 + IdSet(hs0[stop..i + 1]), At(rep))
      && (raised.Some? <==> DeleteThrows(hs0, gone0 + IdSet(hs0[stop..i + 1]), rep))
  {
    assert gone0 + IdSet(hs0[i..i + 1]) == gone0 by {
      assert hs0[i..i + 1] == [hs0[i]];
    }
    if other {
      raised := DeleteBelow(list, hs0, gone0, first, i, i, hs0[i - 1].id, rep);
      if raised.None? {
        raised := DeleteNumbers(list, hs0, gone0, first, i - 1, i, second, rep);
      }
    } else {
      raised := DeleteNumbers(list, hs0, gone0, first, i, i, second, rep);
    }
  }

  /** The deletions of `handle1` and, unless the test is against zero, `handle2`, the two below position `k`. */
  method DeleteNumbers(list: InstructionList, hs0: seq<Handle>, ghost gone0: set<nat>, ghost first: nat, k: nat, ghost i: nat,
                       second: bool, rep: nat) returns (raised: Option<JavaException>)
    requires list.Valid() && DistinctIds(hs0) && Closed(hs0) && first < k <= i < |hs0| && IdSet(hs0[first..i]) !! gone0
    requires first + (if second then 2 else 1) == k
    requires list.handles == Excise(hs0, gone0 + IdSet(hs0[k..i + 1]), At(rep))
    requires OperandStop(hs0, gone0, first, i, i, rep) == OperandStop(hs0, gone0, first, k, i, rep)
    requires !DeleteThrows(hs0, gone0 + IdSet(hs0[k..i + 1]), rep)
    modifies list
    ensures list.Valid() && list.nextId == old(list.nextId)
    ensures var stop := OperandStop(hs0, gone0, first, i, i, rep);
      list.handles == Excise(hs0, gone0 + IdSet(hs0[stop..i + 1]), At(rep))
      && (raised.Some? <==> DeleteThrows(hs0, gone0 + IdSet(hs0[stop..i + 1]), rep))
  {
    raised := DeleteBelow(list, hs0, gone0, first, k, i, hs0[k - 1].id, rep);
    if raised.None? && second {
      raised := DeleteBelow(list, hs0, gone0, first, k - 1, i, hs0[k - 2].id, rep);
    }
  }

  /**
   * The `attemptDelete` of the operand `id`, which sits at `k - 1`, once
   * everything from `k` up to the `if` at `i` is gone; no earlier step
   * threw.
   */
  method DeleteBelow(list: InstructionList, hs0: seq<Handle>, ghost gone0: set<nat>, ghost first: nat, ghost k: nat, ghost i: nat,
                     id: nat, rep: nat) returns (raised: Option<JavaException>)
    requires list.Valid() && DistinctIds(hs0) && Closed(hs0) && first < k <= i < |hs0| && IdSet(hs0[first..i]) !! gone0
    requires id == hs0[k - 1].id
    requires list.handles == Excise(hs0, gone0 + IdSet(hs0[k..i + 1]), At(rep))
    requires OperandStop(hs0, gone0, first, i, i, rep) == OperandStop(hs0, gone0, first, k, i, rep)
    requires !DeleteThrows(hs0, gone0 + IdSet(hs0[k..i + 1]), rep)
    modifies list
    ensures list.Valid() && list.nextId == old(list.nextId)
    ensures list.handles == Excise(hs0, gone0 + IdSet(hs0[k - 1..i + 1]), At(rep))
    ensures raised.Some? <==> DeleteThrows(hs0, gone0 + IdSet(hs0[k - 1..i + 1]), rep)
    ensures OperandStop(hs0, gone0, first, i, i, rep) == OperandStop(hs0, gone0, first, k - 1, i, rep)
    ensures raised.Some? || k - 1 == first ==> OperandStop(hs0, gone0, first, i, i, rep) == k - 1
  {
    ghost var gone := gone0 + IdSet(hs0[k..i + 1]);
    OperandStep(hs0, gone0, first, k, i);
    ExciseIds(hs0, gone, At(rep));
    assert hs0[k - 1] in hs0;
    raised := AttemptDelete(list, At(id), At(rep));
    ExciseTwice(hs0, gone, {id}, At(rep));
    ghost var after := gone + {id};
    assert after == gone0 + IdSet(hs0[k - 1..i + 1]);
    assert list.handles == Excise(hs0, after, At(rep));
    PositionsAfterDelete(hs0, after, At(rep));
  }

  /** Deleting the operand just below position `k` extends the deleted span by one. */
  lemma OperandStep(hs0: seq<Handle>, gone0: set<nat>, first: nat, k: nat, i: nat)
    requires DistinctIds(hs0) && first < k <= i < |hs0| && IdSet(hs0[first..i]) !! gone0
    ensures hs0[k - 1].id !in gone0 + IdSet(hs0[k..i + 1])
    ensures gone0 + IdSet(hs0[k..i + 1]) + {hs0[k - 1].id} == gone0 + IdSet(hs0[k - 1..i + 1])
  {
    SliceMember(hs0, first, i, k - 1);
    OutsideSpan(hs0, k, i + 1, k - 1);
    IdSetPrepend(hs0, k - 1, i + 1);
  }

  /**
   * The rewrite when the comparison holds: the `if`, the span from the goto
   * to its target, then the operands go. `caught` is whether an exception
   * from `setPositions(true)` ended it early.
   */
  method FoldTakenJump(list: InstructionList, hs: seq<Handle>, ghost first: nat, i: nat, tpos: nat, dpos: nat,
                       other: bool, second: bool) returns (caught: bool)
    requires list.Valid() && list.handles == hs && Closed(hs) && i + 1 < tpos <= dpos < |hs|
    requires (other ==> second) && first + OperandCount(other, second) == i
    modifies list
    ensures list.Valid() && list.nextId == old(list.nextId)
    ensures caught <==> TakenPlan(hs, first, i, tpos, dpos).Abandon?
    ensures list.handles == Excise(hs, TakenPlan(hs, first, i, tpos, dpos).edit.gone, At(hs[i + 1].id))
  {
    var rep := hs[i + 1].id;
    ghost var gone0 := {hs[i].id} + IdSet(hs[tpos - 1..dpos]);
    assert gone0 + IdSet(hs[i..i + 1]) == gone0 by {
      assert hs[i..i + 1] == [hs[i]];
    }
    var raised := DeleteTakenBranch(list, hs, i, tpos, dpos);
    if raised.Some? {
      return true;
    }
    TakenIds(hs, first, i, tpos, dpos);
    raised := DeleteOperands(list, hs, gone0, first, i, other, second, rep);
    if raised.Some? {
      return true;
    }
    ghost var gone := gone0 + IdSet(hs[first..i + 1]);
    assert gone == IdSet(hs[first..i + 1]) + IdSet(hs[tpos - 1..dpos]);
    assert Excise(hs, gone, At(rep)) == Excise(hs, IdSet(hs[first..i + 1]) + IdSet(hs[tpos - 1..dpos]), At(rep));
    return false;
  }

  lemma TakenPlannedList(hs: seq<Handle>, first: nat, i: nat, tpos: nat, dpos: nat, nid: nat)
    requires first <= i && i + 1 < tpos <= dpos < |hs|
    ensures PlannedList(hs, TakenPlan(hs, first, i, tpos, dpos), nid)
         == Excise(hs, TakenPlan(hs, first, i, tpos, dpos).edit.gone, At(hs[i + 1].id))
    ensures OutcomeOf(TakenPlan(hs, first, i, tpos, dpos))
         == if TakenPlan(hs, first, i, tpos, dpos).Abandon? then Declined else Rewritten
  {
  }

  lemma TakenIds(hs: seq<Handle>, first: nat, i: nat, tpos: nat, dpos: nat)
    requires DistinctIds(hs) && first <= i && i + 1 < tpos <= dpos < |hs|
    ensures IdSet(hs[first..i]) !! {hs[i].id} + IdSet(hs[tpos - 1..dpos])
    ensures {hs[i].id} + IdSet(hs[tpos - 1..dpos]) + IdSet(hs[first..i + 1])
         == IdSet(hs[first..i + 1]) + IdSet(hs[tpos - 1..dpos])
  {
    DisjointSlices(hs, first, i, i, i + 1);
    DisjointSlices(hs, first, i, tpos - 1, dpos);
    assert hs[i..i + 1] == [hs[i]];
    IdSetSplit(hs, first, i, i + 1);
  }

  /** The rewrite when the comparison fails: the `if` through the handle before the jump target, then the operands go. */
  /**
   * The rewrite when the comparison fails: the `if` through the handle
   * before the jump target, then the operands go. The jump target stays,
   * so no `setPositions(true)` throws.
   */
  method FoldUntakenJump(list: InstructionList, hs: seq<Handle>, ghost first: nat, i: nat, tpos: nat, other: bool, second: bool)
    requires list.Valid() && list.handles == hs && Closed(hs) && i < tpos < |hs|
    requires (other ==> second) && first + OperandCount(other, second) == i
    modifies list
    ensures list.Valid() && list.nextId == old(list.nextId) && Closed(list.handles)
    ensures list.handles == Excise(hs, IdSet(hs[first..tpos]), At(hs[tpos].id))
  {
    var rep := hs[tpos].id;
    ghost var gone0 := IdSet(hs[i..tpos]);
    var raised := DeleteRangeAt(list, hs, i, tpos, At(rep));
    assert hs[tpos] in hs;
    OutsideSpan(hs, i, tpos, tpos);
    ExciseKeepsClosed(hs, gone0, rep);
    PositionsCheckIsClosure(list.handles);
    assert raised.None?;
    UntakenIds(hs, first, i, tpos);
    raised := DeleteOperands(list, hs, gone0, first, i, other, second, rep);
    ghost var stop := OperandStop(hs, gone0, first, i, i, rep);
    OutsideSpan(hs, stop, i + 1, tpos);
    assert stop == first;
    ExciseSameSet(hs, gone0 + IdSet(hs[first..i + 1]), IdSet(hs[first..tpos]), At(rep));
    OutsideSpan(hs, first, tpos, tpos);
    ExciseKeepsClosed(hs, IdSet(hs[first..tpos]), rep);
  }

  lemma ExciseSameSet(hs: seq<Handle>, a: set<nat>, b: set<nat>, r: Ref)
    requires a == b
    ensures Excise(hs, a, r) == Excise(hs, b, r)
  {
  }

  lemma UntakenIds(hs: seq<Handle>, first: nat, i: nat, tpos: nat)
    requires DistinctIds(hs) && first <= i < tpos <= |hs|
    ensures hs[i].id in IdSet(hs[i..tpos])
    ensures IdSet(hs[first..i]) !! IdSet(hs[i..tpos])
    ensures IdSet(hs[i..tpos]) + IdSet(hs[first..i + 1]) == IdSet(hs[first..tpos])
  {
    SliceMember(hs, i, tpos, i);
    DisjointSlices(hs, first, i, i, tpos);
    IdSetSplit(hs, first, i, tpos);
    IdSetSplit(hs, first, i, i + 1);
    IdSetSplit(hs, i, i + 1, tpos);
  }

  method HandleIfInstruction(list: InstructionList, pool: ConstantPool, i: nat) returns (outcome: Outcome)
    requires list.Valid() && i < |list.handles| && list.handles[i].ins.If? && Closed(list.handles)
    modifies list
    ensures list.Valid()
    ensures outcome == OutcomeOf(IfPlan(old(list.handles), pool.entries, i))
    ensures list.handles == PlannedList(old(list.handles), IfPlan(old(list.handles), pool.entries, i), old(list.nextId))
    ensures outcome != Rewritten ==> list.nextId == old(list.nextId)
  {
    var hs := list.handles;
    var check := CheckIf(hs, pool.entries, i);
    ghost var plan := IfPlan(hs, pool.entries, i);
    assert plan == PlanOfCheck(hs, i, check);
    if check.Stop? {
      assert plan == check.plan && !plan.Rewrite?;
      return OutcomeOf(check.plan);
    }
    if check.verdict.Illegal? {
      assert plan == Skip;
      return Declined;
    }
    if check.verdict.NeedsFloat? {
      assert plan == Beyond(FloatingPoint);
      return Unmodelled(FloatingPoint);
    }
    outcome := FoldJump(list, hs, i, check);
  }

  /** The part of `handleIfInstruction` after the comparison has been evaluated to `res`. */
  method FoldJump(list: InstructionList, hs: seq<Handle>, i: nat, check: IfCheck) returns (outcome: Outcome)
    requires list.Valid() && list.handles == hs && i < |hs| && hs[i].ins.If? && Closed(hs)
    requires check.Decided? && check.verdict.Holds? && (check.other ==> check.second)
    requires check.first + OperandCount(check.other, check.second) == i
    modifies list
    ensures list.Valid()
    ensures outcome == OutcomeOf(PlanOfCheck(hs, i, check))
    ensures list.handles == PlannedList(hs, PlanOfCheck(hs, i, check), old(list.nextId))
    ensures outcome != Rewritten ==> list.nextId == old(list.nextId)
  {
    var res, other, second := check.verdict.b, check.other, check.second;
    ghost var first := check.first;
    ghost var plan := JumpPlan(hs, i, res, first);
    assert PlanOfCheck(hs, i, check) == plan;
    ghost var nid := list.nextId;
    if res {
      outcome := ResolveTakenJump(list, hs, first, i, other, second);
      return;
    }
    var jumpTarget := hs[i].ins.target;
    var tpos := IndexOf(hs, jumpTarget.id);
    if tpos <= i {
      return Unmodelled(BackwardJump);
    }
    assert plan == Rewrite(Edit(0, None, None, IdSet(hs[first..tpos]), ToHandle(hs[tpos].id)));
    FoldUntakenJump(list, hs, first, i, tpos, other, second);
    assert list.handles == PlannedList(hs, plan, nid);
    return Rewritten;
  }

  /**
   * The jump is taken: the goto before the jump target must exist and lead
   * forward, and the rewrite either completes or is abandoned when a
   * deletion throws.
   */
  method ResolveTakenJump(list: InstructionList, hs: seq<Handle>, ghost first: nat, i: nat, other: bool, second: bool)
      returns (outcome: Outcome)
    requires list.Valid() && list.handles == hs && i < |hs| && hs[i].ins.If? && Closed(hs)
    requires (other ==> second) && first + OperandCount(other, second) == i
    modifies list
    ensures list.Valid() && list.nextId == old(list.nextId)
    ensures outcome == OutcomeOf(JumpPlan(hs, i, true, first))
    ensures list.handles == PlannedList(hs, JumpPlan(hs, i, true, first), old(list.nextId))
  {
    ghost var nid := list.nextId;
    var jumpTarget := hs[i].ins.target;
    var tpos := IndexOf(hs, jumpTarget.id);
    if tpos == 0 || !hs[tpos - 1].ins.Goto? {
      return Declined;
    }
    var elseJump := hs[tpos - 1];
    var elseDone := elseJump.ins.target;
    var dpos := IndexOf(hs, elseDone.id);
    if !(i + 1 < tpos <= dpos) {
      return Unmodelled(BackwardJump);
    }
    ghost var plan := TakenPlan(hs, first, i, tpos, dpos);
    assert JumpPlan(hs, i, true, first) == plan;
    var caught := FoldTakenJump(list, hs, first, i, tpos, dpos, other, second);
    TakenPlannedList(hs, first, i, tpos, dpos, nid);
    outcome := if caught then Declined else Rewritten;
    assert outcome == OutcomeOf(plan);
  }

  /**
   * The deletions of a jump that is taken: the `if` itself, then the span
   * from the goto before the jump target up to the goto's target, both
   * rebinding to the handle after the `if`.
   */
  method DeleteTakenBranch(list: InstructionList, hs: seq<Handle>, i: nat, tpos: nat, dpos: nat) returns (raised: Option<JavaException>)
    requires list.Valid() && list.handles == hs && Closed(hs) && i + 1 < tpos <= dpos < |hs|
    modifies list
    ensures list.Valid() && list.nextId == old(list.nextId)
    ensures list.handles == Excise(hs, {hs[i].id} + IdSet(hs[tpos - 1..dpos]), At(hs[i + 1].id))
    ensures raised.Some? <==> DeleteThrows(hs, {hs[i].id} + IdSet(hs[tpos - 1..dpos]), hs[i + 1].id)
  {
    assert DistinctIds(hs);
    var rep := At(hs[i + 1].id);
    ghost var hs1 := Excise(hs, {hs[i].id}, rep);
    ExciseOneLength(hs, i, rep, hs1);
    ghost var hs2 := Excise(hs1, IdSet(hs1[tpos - 2..dpos - 1]), rep);
    TakenBranchSpan(hs, hs1, hs2, i, tpos, dpos, rep);
    PositionsAfterDelete(hs, {hs[i].id} + IdSet(hs[tpos - 1..dpos]), rep);
    DeleteJumpingIf(list, hs, i);
    raised := DeleteRangeAt(list, hs1, tpos - 2, dpos - 1, rep);
  }

  /**
   * The first deletion of a taken jump: the `if` itself, rebinding to the
   * handle after it, which stays; so its `setPositions(true)` passes.
   */
  method DeleteJumpingIf(list: InstructionList, hs: seq<Handle>, i: nat)
    requires list.Valid() && list.handles == hs && Closed(hs) && i + 1 < |hs|
    modifies list
    ensures list.Valid() && list.nextId == old(list.nextId)
    ensures list.handles == Excise(hs, {hs[i].id}, At(hs[i + 1].id))
  {
    assert hs[i] in hs && hs[i + 1] in hs;
    var raised := AttemptDelete(list, At(hs[i].id), At(hs[i + 1].id));
    PositionsAfterDelete(hs, {hs[i].id}, At(hs[i + 1].id));
    assert raised.None?;
  }

  /** Deleting the live handle at `i` shortens the list by one. */
  lemma ExciseOneLength(hs: seq<Handle>, i: nat, rep: Ref, hs1: seq<Handle>)
    requires DistinctIds(hs) && i < |hs| && hs1 == Excise(hs, {hs[i].id}, rep)
    ensures hs[i].id in IdSet(hs) && |hs1| == |hs| - 1
  {
    ExciseOneShifts(hs, i, rep, hs1);
  }

  /**
   * Once the `if` is gone, the span from the goto up to its target sits one
   * place lower, and deleting it there deletes both.
   */
  lemma TakenBranchSpan(hs: seq<Handle>, hs1: seq<Handle>, hs2: seq<Handle>, i: nat, tpos: nat, dpos: nat, rep: Ref)
    requires DistinctIds(hs) && i + 1 < tpos <= dpos < |hs|
    requires hs1 == Excise(hs, {hs[i].id}, rep) && dpos - 1 <= |hs1|
    requires hs2 == Excise(hs1, IdSet(hs1[tpos - 2..dpos - 1]), rep)
    ensures hs2 == Excise(hs, {hs[i].id} + IdSet(hs[tpos - 1..dpos]), rep)
  {
    var span := IdSet(hs[tpos - 1..dpos]);
    ExciseOneShifts(hs, i, rep, hs1);
    ShiftedSpan(hs, hs1, i, tpos - 2, dpos - 1, tpos - 1, dpos);
    assert IdSet(hs1[tpos - 2..dpos - 1]) == span;
    assert hs2 == Excise(Excise(hs, {hs[i].id}, rep), span, rep);
    ExciseTwice(hs, {hs[i].id}, span, rep);
  }

  /** After one deletion at `i`, a span beyond it has the identities of the span one place further on before. */
  lemma ShiftedSpan(hs: seq<Handle>, hs1: seq<Handle>, i: nat, lo: nat, hi: nat, blo: nat, bhi: nat)
    requires |hs1| == |hs| - 1 && forall k :: i <= k < |hs1| ==> hs1[k].id == hs[k + 1].id
    requires i <= lo <= hi <= |hs1| && blo == lo + 1 && bhi == hi + 1
    ensures IdSet(hs1[lo..hi]) == IdSet(hs[blo..bhi])
  {
    SliceIds(hs1, hs, 1, lo, hi, blo, bhi);
  }

  /** `attemptDelete(list, from, to, replacement)` for the handles at positions `from` up to, not including, `end`. */
  method DeleteRangeAt(list: InstructionList, ghost hs: seq<Handle>, from: nat, end: nat, rep: Ref)
      returns (raised: Option<JavaException>)
    requires list.Valid() && list.handles == hs && from < end <= |hs|
    modifies list
    ensures list.Valid() && list.nextId == old(list.nextId)
    ensures list.handles == Excise(hs, IdSet(hs[from..end]), rep)
    ensures raised == PositionsCheck(list.handles)
  {
    var last := end - 1;
    IndexOfAt(hs, from);
    IndexOfAt(hs, last);
    ghost var gone := IdSet(hs[from..last + 1]);
    assert hs[from..last + 1] == hs[from..end];
    raised := AttemptDeleteRange(list, At(list.handles[from].id), At(list.handles[last].id), rep);
    assert list.handles == Excise(hs, gone, rep);
  }

  // ---------------------------------------------------------------------
  // The sweep

  /** The handler an instruction is given to: conversions, then arithmetic, then ifs; nothing else. */
  function PlanAt(hs: seq<Handle>, pool: seq<PoolEntry>, k: nat): Plan
    requires k < |hs| && Closed(hs)
  {
    match hs[k].ins
    case Conv(_) => ConversionPlan(hs, pool, k)
    case Arith(_, _) => ArithmeticPlan(hs, pool, k)
    case If(_, _) => IfPlan(hs, pool, k)
    case _ => Skip
  }

  /**
   * The sweep from position `k` on: handlers are tried in order until one
   * does something other than decline. Nothing changes the list before
   * then, so each handler sees the list as it was.
   */
  function SweepPlan(hs: seq<Handle>, pool: seq<PoolEntry>, k: nat): Plan
    requires k <= |hs| && Closed(hs)
    decreases |hs| - k
  {
    if k == |hs| then Skip
    else if PlanAt(hs, pool, k) != Skip then PlanAt(hs, pool, k)
    else SweepPlan(hs, pool, k + 1)
  }

  /**
   * The sweep declines exactly when every handler from `k` on declines;
   * otherwise its plan is that of the first handler that does not.
   */
  lemma {:induction false} SweepIsFirstApplicable(hs: seq<Handle>, pool: seq<PoolEntry>, k: nat)
    requires k <= |hs| && Closed(hs)
    decreases |hs| - k
    ensures SweepPlan(hs, pool, k) == Skip <==> forall j :: k <= j < |hs| ==> PlanAt(hs, pool, j) == Skip
    ensures SweepPlan(hs, pool, k) != Skip ==>
      exists j :: k <= j < |hs| && PlanAt(hs, pool, j) == SweepPlan(hs, pool, k)
        && forall m :: k <= m < j ==> PlanAt(hs, pool, m) == Skip
  {
    if k < |hs| && PlanAt(hs, pool, k) == Skip {
      SweepIsFirstApplicable(hs, pool, k + 1);
      if SweepPlan(hs, pool, k) != Skip {
        var j :| k + 1 <= j < |hs| && PlanAt(hs, pool, j) == SweepPlan(hs, pool, k + 1)
          && forall m :: k + 1 <= m < j ==> PlanAt(hs, pool, m) == Skip;
        assert forall m :: k <= m < j ==> PlanAt(hs, pool, m) == Skip;
      }
    } else if k < |hs| {
      assert PlanAt(hs, pool, k) == SweepPlan(hs, pool, k);
    }
  }

  /** Only resolving an `if` can be abandoned, and an abandoned resolution has deleted the `if`. */
  lemma PlanAtAbandonChanges(hs: seq<Handle>, pool: seq<PoolEntry>, k: nat, nid: nat)
    requires k < |hs| && Closed(hs) && DistinctIds(hs)
    ensures PlanAt(hs, pool, k).Abandon? ==> hs[k].ins.If? && PlannedList(hs, PlanAt(hs, pool, k), nid) != hs
  {
    if hs[k].ins.If? {
      IfAbandonChanges(hs, pool, k, nid);
    }
  }

  /** One handler call, chosen by the kind of the instruction at `k`. */
  method Dispatch(list: InstructionList, pool: ConstantPool, k: nat) returns (outcome: Outcome)
    requires list.Valid() && k < |list.handles| && Closed(list.handles)
    modifies list, pool
    ensures list.Valid()
    ensures outcome == OutcomeOf(PlanAt(old(list.handles), old(pool.entries), k))
    ensures list.handles == PlannedList(old(list.handles), PlanAt(old(list.handles), old(pool.entries), k), old(list.nextId))
    ensures outcome != Rewritten ==> list.nextId == old(list.nextId)
    ensures pool.entries == PlannedPool(old(pool.entries), PlanAt(old(list.handles), old(pool.entries), k))
  {
    var ins := list.handles[k].ins;
    ghost var hs, entries, nid := list.handles, pool.entries, list.nextId;
    ghost var plan := PlanAt(hs, entries, k);
    if ins.Conv? {
      assert plan == ConversionPlan(hs, entries, k);
      outcome := HandleConversion(list, pool, k);
    } else if ins.Arith? {
      assert plan == ArithmeticPlan(hs, entries, k);
      outcome := HandleArithmeticInstruction(list, pool, k);
    } else if ins.If? {
      assert plan == IfPlan(hs, entries, k);
      outcome := HandleIfInstruction(list, pool, k);
      assert pool.entries == entries;
      IfPlanKeepsPool(hs, entries, k);
    } else {
      assert plan == Skip;
      outcome := Declined;
    }
  }

  /**
   * What the sweep reports for the plan it stops at: that plan's outcome,
   * except after an abandoned rewrite, where the source sweeps on over the
   * partly rewritten list and the model stops.
   */
  function SweepOutcome(p: Plan): Outcome
  {
    if p.Abandon? then Unmodelled(AbandonedRewrite) else OutcomeOf(p)
  }

  /**
   * `optimiseMethod` of the simple folder: the handlers are called in list
   * order until one rewrites (the `||` stops calling them), throws, or
   * reaches what the model leaves out, which includes a handler that
   * declines after changing the list.
   */
  method OptimiseMethod(list: InstructionList, pool: ConstantPool) returns (outcome: Outcome)
    requires list.Valid() && Closed(list.handles)
    modifies list, pool
    ensures list.Valid()
    ensures outcome == SweepOutcome(SweepPlan(old(list.handles), old(pool.entries), 0))
    ensures list.handles == PlannedList(old(list.handles), SweepPlan(old(list.handles), old(pool.entries), 0), old(list.nextId))
    ensures pool.entries == PlannedPool(old(pool.entries), SweepPlan(old(list.handles), old(pool.entries), 0))
  {
    var hs := list.handles;
    ghost var entries := pool.entries;
    var k := 0;
    while k < |hs|
      invariant k <= |hs| && list.Valid() && list.handles == hs && pool.entries == entries
      invariant list.nextId == old(list.nextId)
      invariant SweepPlan(hs, entries, 0) == SweepPlan(hs, entries, k)
      decreases |hs| - k
    {
      PlanAtAbandonChanges(hs, entries, k, list.nextId);
      outcome := Dispatch(list, pool, k);
      if outcome != Declined {
        return;
      }
      if list.handles != hs {
        return Unmodelled(AbandonedRewrite);
      }
      assert PlanAt(hs, entries, k) == Skip;
      assert list.handles == hs && pool.entries == entries;
      k := k + 1;
    }
    return Declined;
  }
}
