/**
 * The constant variable folder, another earlier pass. It has two parts:
 *  - a fold of every `push; push; arith` window the instruction finder
 *    matches against sixteen patterns;
 *  - a handler sweep that tracks a stack of known numbers and a map of
 *    known variables, replacing loads with pushes, folding arithmetic on
 *    the tracked stack, deleting stores and deleting gotos that jump to
 *    the next handle.
 *
 * Every handler deletes its own handle with `deleteInstruction`. That
 * function first points the branches into the handle at the handle's
 * successor, which is null for the last handle.
 */
module ConstantVarFolder {
  import opened Bytecode
  import opened CmpEvaluator
  import opened Utils
  import opened Optimiser
  import SimpleFolder

  // ---------------------------------------------------------------------
  // Arithmetic operations

  /** The four `ArithmeticOperation` implementations. */
  datatype Operation = AddOperation | SubtractOperation | MultiplyOperation | DivideOperation

  function OperatorOf(o: Operation): ArithOp
  {
    match o
    case AddOperation => Add
    case SubtractOperation => Sub
    case MultiplyOperation => Mul
    case DivideOperation => Div
  }

  /**
   * `initOperations`: the operation registered for each of the sixteen
   * add, subtract, multiply and divide opcodes.
   */
  function OperationFor(op: ArithOp): (o: Operation)
    requires op in {Add, Sub, Mul, Div}
    ensures OperatorOf(o) == op
  {
    match op
    case Add => AddOperation
    case Sub => SubtractOperation
    case Mul => MultiplyOperation
    case Div => DivideOperation
  }

  /** What `perform` returns or throws. */
  datatype Performed = Returns(n: Num) | Throws(e: JavaException)

  /**
   * `perform(x, y)`, where `x` was popped first (the top of the stack):
   * it computes `y op x` when both numbers have the same kind, and throws
   * IllegalArgumentException otherwise. An int or long division by zero
   * throws ArithmeticException. Float and double results are terms.
   */
  function Perform(o: Operation, x: Num, y: Num): (r: Performed)
    ensures KindOf(x) != KindOf(y) <==> r == Throws(IllegalArgument)
    ensures r.Returns? ==> KindOf(r.n) == KindOf(x)
    ensures x.IntV? && y.IntV? ==>
      if o == DivideOperation && x.i == 0 then r == Throws(Arithmetic)
      else r.Returns? && (r.n.i - IntegralOp(OperatorOf(o), y.i, x.i)) % TWO_32 == 0
    ensures x.LongV? && y.LongV? ==>
      if o == DivideOperation && x.l == 0 then r == Throws(Arithmetic)
      else r.Returns? && (r.n.l - IntegralOp(OperatorOf(o), y.l, x.l)) % TWO_64 == 0
  {
    if x.IntV? && y.IntV? then
      if o == DivideOperation && x.i == 0 then Throws(Arithmetic)
      else Returns(IntV(WrapInt(IntegralOp(OperatorOf(o), y.i, x.i))))
    else if x.LongV? && y.LongV? then
      if o == DivideOperation && x.l == 0 then Throws(Arithmetic)
      else Returns(LongV(WrapLong(IntegralOp(OperatorOf(o), y.l, x.l))))
    else if x.FloatV? && y.FloatV? then Returns(FloatV(FpArith(OperatorOf(o), y.f, x.f)))
    else if x.DoubleV? && y.DoubleV? then Returns(DoubleV(FpArith(OperatorOf(o), y.d, x.d)))
    else Throws(IllegalArgument)
  }

  /**
   * On numbers of one kind, `perform(x, y)` is the simple folder's fold of
   * `y` and `x` in that order: the top of the stack is the right operand.
   */
  lemma PerformIsFoldOfSwappedOperands(o: Operation, x: Num, y: Num)
    requires KindOf(x) == KindOf(y)
    ensures var f := SimpleFolder.Fold(OperatorOf(o), ExtractArithmeticType(NumType(KindOf(x))), y, x);
      (f.Value? <==> Perform(o, x, y).Returns?)
      && (f.Value? ==> f.v == Perform(o, x, y).n)
      && (f.Threw? ==> Perform(o, x, y) == Throws(f.e))
  {
  }

  /** Integral subtraction is antisymmetric: swapping the operands negates the result, modulo the width. */
  lemma SubtractionAntisymmetric(x: Num, y: Num)
    requires (x.IntV? && y.IntV?) || (x.LongV? && y.LongV?)
    ensures Perform(SubtractOperation, x, y).Returns? && Perform(SubtractOperation, y, x).Returns?
    ensures x.IntV? ==> (Perform(SubtractOperation, x, y).n.i + Perform(SubtractOperation, y, x).n.i) % TWO_32 == 0
    ensures x.LongV? ==> (Perform(SubtractOperation, x, y).n.l + Perform(SubtractOperation, y, x).n.l) % TWO_64 == 0
  {
    var a, b := Perform(SubtractOperation, x, y).n, Perform(SubtractOperation, y, x).n;
    if x.IntV? {
      assert (a.i - (y.i - x.i)) % TWO_32 == 0 && (b.i - (x.i - y.i)) % TWO_32 == 0;
      SumOfMultiples32(a.i - (y.i - x.i), b.i - (x.i - y.i));
    } else {
      assert (a.l - (y.l - x.l)) % TWO_64 == 0 && (b.l - (x.l - y.l)) % TWO_64 == 0;
      SumOfMultiples64(a.l - (y.l - x.l), b.l - (x.l - y.l));
    }
  }

  lemma SumOfMultiples32(a: int, b: int)
    requires a % TWO_32 == 0 && b % TWO_32 == 0
    ensures (a + b) % TWO_32 == 0
  {
    var k := a / TWO_32 + b / TWO_32;
    assert a + b == TWO_32 * k;
  }

  lemma SumOfMultiples64(a: int, b: int)
    requires a % TWO_64 == 0 && b % TWO_64 == 0
    ensures (a + b) % TWO_64 == 0
  {
    var k := a / TWO_64 + b / TWO_64;
    assert a + b == TWO_64 * k;
  }

  // ---------------------------------------------------------------------
  // Folding a matched window

  /** What `computeFoldedResult` yields: null, a number, or a step the model cannot evaluate. */
  datatype FoldResult = NoFold | Folded(n: Num) | FloatUnknown

  /** IADD ... DDIV: the opcodes `computeFoldedResult` knows. */
  predicate Foldable(op: Instr)
  {
    op.Arith? && op.op in {Add, Sub, Mul, Div}
  }

  /** The number is an int or long zero. */
  predicate IntegralZero(n: Num)
  {
    (n.IntV? && n.i == 0) || (n.LongV? && n.l == 0)
  }

  /**
   * `computeFoldedResult(a, b, op)`: `a op b` after converting both to the
   * opcode's kind with `intValue`, `longValue`, `floatValue` or
   * `doubleValue`. A null operand throws NullPointerException, which is
   * caught: no fold. A zero divisor gives no fold. An unknown opcode gives
   * no fold. Converting a float or double to an integral kind, and testing
   * a float or double divisor against zero, need floating point.
   */
  function ComputeFoldedResult(a: Option<Num>, b: Option<Num>, op: Instr): (r: FoldResult)
    ensures !Foldable(op) || a.None? || b.None? ==> r == NoFold
    ensures r.Folded? ==> Foldable(op) && KindOf(r.n) == op.numKind
    ensures Foldable(op) && op.numKind == KInt && a.Some? && b.Some?
            && IntValue(a.value).Some? && IntValue(b.value).Some? ==>
      if op.op == Div && IntValue(b.value).value == 0 then r == NoFold
      else r.Folded? && (r.n.i - IntegralOp(op.op, IntValue(a.value).value, IntValue(b.value).value)) % TWO_32 == 0
    ensures Foldable(op) && op.numKind == KLong && a.Some? && b.Some?
            && LongValue(a.value).Some? && LongValue(b.value).Some? ==>
      if op.op == Div && LongValue(b.value).value == 0 then r == NoFold
      else r.Folded? && (r.n.l - IntegralOp(op.op, LongValue(a.value).value, LongValue(b.value).value)) % TWO_64 == 0
  {
    if !Foldable(op) || a.None? || b.None? then NoFold
    else
      match op.numKind
      case KInt =>
        var u, v := IntValue(a.value), IntValue(b.value);
        if op.op == Div && v == Some(0) then NoFold
        else if u.None? || v.None? then FloatUnknown
        else Folded(IntV(WrapInt(IntegralOp(op.op, u.value, v.value))))
      case KLong =>
        var u, v := LongValue(a.value), LongValue(b.value);
        if op.op == Div && v == Some(0) then NoFold
        else if u.None? || v.None? then FloatUnknown
        else Folded(LongV(WrapLong(IntegralOp(op.op, u.value, v.value))))
      case KFloat =>
        if op.op == Div && !(b.value.IntV? || b.value.LongV?) then FloatUnknown
        else if op.op == Div && IntegralZero(b.value) then NoFold
        else Folded(FloatV(FpArith(op.op, FloatValue(a.value), FloatValue(b.value))))
      case KDouble =>
        if op.op == Div && !(b.value.IntV? || b.value.LongV?) then FloatUnknown
        else if op.op == Div && IntegralZero(b.value) then NoFold
        else Folded(DoubleV(FpArith(op.op, DoubleValue(a.value), DoubleValue(b.value))))
  }

  /**
   * On two numbers of the opcode's kind, `computeFoldedResult(a, b, op)`
   * agrees with the operation `initOperations` registers for that opcode,
   * applied as `perform(b, a)`; where that `perform` throws on an int or
   * long zero divisor, `computeFoldedResult` declines instead.
   */
  lemma FoldedResultAgreesWithPerform(a: Num, b: Num, op: Instr)
    requires Foldable(op) && KindOf(a) == op.numKind && KindOf(b) == op.numKind
    requires op.op == Div ==> op.numKind in {KInt, KLong}
    ensures IntegralZero(b) && op.op == Div ==>
      ComputeFoldedResult(Some(a), Some(b), op) == NoFold && Perform(OperationFor(op.op), b, a) == Throws(Arithmetic)
    ensures !(IntegralZero(b) && op.op == Div) ==>
      Perform(OperationFor(op.op), b, a).Returns?
      && ComputeFoldedResult(Some(a), Some(b), op) == Folded(Perform(OperationFor(op.op), b, a).n)
  {
  }

  /**
   * `getNumber`: the Integer or Float an LDC names, the Long or Double an
   * LDC2_W names, and null for anything else.
   */
  function GetNumber(ins: Instr, pool: seq<PoolEntry>): (r: Option<Num>)
    ensures r.Some? ==> ins.Ldc? || ins.Ldc2W?
    ensures ins.Ldc? || ins.Ldc2W? ==> r == ExtractConstant(ins, pool)
  {
    match ins
    case Ldc(k) =>
      if k < |pool| && pool[k].PInt? then Some(IntV(pool[k].i))
      else if k < |pool| && pool[k].PFloat? then Some(FloatV(pool[k].f))
      else None
    case Ldc2W(k) =>
      if k < |pool| && pool[k].PLong? then Some(LongV(pool[k].l))
      else if k < |pool| && pool[k].PDouble? then Some(DoubleV(pool[k].d))
      else None
    case _ => None
  }

  /**
   * One of the sixteen patterns at position `p`: `LDC LDC xOP` for int and
   * float operations, `LDC2_W LDC2_W xOP` for long and double ones.
   */
  predicate MatchesPattern(hs: seq<Handle>, p: nat)
  {
    p + 2 < |hs| && Foldable(hs[p + 2].ins)
    && if hs[p + 2].ins.numKind in {KInt, KFloat}
       then hs[p].ins.Ldc? && hs[p + 1].ins.Ldc?
       else hs[p].ins.Ldc2W? && hs[p + 1].ins.Ldc2W?
  }

  /** The folded result of the window at `p`. */
  function MatchResult(hs: seq<Handle>, pool: seq<PoolEntry>, p: nat): FoldResult
    requires MatchesPattern(hs, p)
  {
    ComputeFoldedResult(GetNumber(hs[p].ins, pool), GetNumber(hs[p + 1].ins, pool), hs[p + 2].ins)
  }

  /** A push of `v` inserted before the window, then the window deleted, its branches following the push. */
  function MatchEdit(hs: seq<Handle>, pool: seq<PoolEntry>, p: nat, v: Num): Edit
    requires p + 3 <= |hs|
  {
    Edit(p, Some(PushFor(v, |pool|)), Some(PoolEntryFor(v)), IdSet(hs[p..p + 3]), ToInserted)
  }

  /**
   * The body of the pattern loop for one match: the two pushed numbers are
   * folded, and if that gives a number, a push of it replaces the window.
   */
  method FoldMatch(list: InstructionList, pool: ConstantPool, p: nat) returns (outcome: Outcome)
    requires list.Valid() && MatchesPattern(list.handles, p)
    modifies list, pool
    ensures list.Valid()
    ensures MatchResult(old(list.handles), old(pool.entries), p).NoFold? ==> outcome == Declined
    ensures MatchResult(old(list.handles), old(pool.entries), p).FloatUnknown? ==> outcome == Unmodelled(FloatingPoint)
    ensures !MatchResult(old(list.handles), old(pool.entries), p).Folded? ==>
      list.handles == old(list.handles) && pool.entries == old(pool.entries) && list.nextId == old(list.nextId)
    ensures MatchResult(old(list.handles), old(pool.entries), p).Folded? ==>
      outcome == Rewritten
      && list.handles == EditedList(old(list.handles),
                                    MatchEdit(old(list.handles), old(pool.entries), p, MatchResult(old(list.handles), old(pool.entries), p).n),
                                    old(list.nextId))
      && pool.entries == old(pool.entries) + [PoolEntryFor(MatchResult(old(list.handles), old(pool.entries), p).n)]
  {
    var hs := list.handles;
    var val1 := GetNumber(hs[p].ins, pool.entries);
    var val2 := GetNumber(hs[p + 1].ins, pool.entries);
    var result := ComputeFoldedResult(val1, val2, hs[p + 2].ins);
    if result.NoFold? {
      return Declined;
    }
    if result.FloatUnknown? {
      return Unmodelled(FloatingPoint);
    }
    ReplaceWindow(list, pool, p, result.n);
    return Rewritten;
  }

  /** `insert(handles[0], push)`, then `delete(handles[0], handles[2])`, lost targets following the push. */
  method ReplaceWindow(list: InstructionList, pool: ConstantPool, p: nat, v: Num)
    requires list.Valid() && p + 3 <= |list.handles|
    modifies list, pool
    ensures list.Valid()
    ensures list.handles == EditedList(old(list.handles), MatchEdit(old(list.handles), old(pool.entries), p, v), old(list.nextId))
    ensures pool.entries == old(pool.entries) + [PoolEntryFor(v)]
  {
    var hs := list.handles;
    ghost var edit := MatchEdit(hs, pool.entries, p, v);
    ghost var nid := list.nextId;
    var index := pool.Add(PoolEntryFor(v));
    var newInstr := list.Insert(p, PushFor(v, index));
    ghost var hs1 := list.handles;
    assert hs1 == hs[..p] + [Handle(nid, edit.push.value)] + hs[p..];
    assert hs1[p + 1..p + 4] == hs[p..p + 3];
    // no `setPositions` follows this deletion, so what it would report is dropped
    var unchecked := SimpleFolder.DeleteRangeAt(list, hs1, p + 1, p + 4, At(newInstr));
    assert list.handles == EditedList(hs, edit, nid);
  }

  /**
   * A fold of a matched window replaces its three handles by one push, so
   * the list is two handles shorter; every branch into the window now
   * targets the push, which loads the folded number back from the pool.
   */
  lemma FoldMatchReplacesWindow(hs: seq<Handle>, pool: seq<PoolEntry>, p: nat, v: Num, nid: nat)
    requires DistinctIds(hs) && p + 3 <= |hs| && nid !in IdSet(hs)
    ensures EditedList(hs, MatchEdit(hs, pool, p, v), nid)
         == Retarget(hs[..p] + [Handle(nid, PushFor(v, |pool|))] + hs[p + 3..], IdSet(hs[p..p + 3]), At(nid))
    ensures |EditedList(hs, MatchEdit(hs, pool, p, v), nid)| == |hs| - 2
    ensures ExtractConstant(PushFor(v, |pool|), EditedPool(pool, MatchEdit(hs, pool, p, v))) == Some(v)
  {
    ReplaceSpan(hs, p, p, p + 3, Handle(nid, PushFor(v, |pool|)));
    PushRoundTrip(v, pool);
  }

  // ---------------------------------------------------------------------
  // Variable state

  /** The two collections of a `VariableState`. */
  datatype VarTable = VarTable(constantValues: map<nat, Num>, modifiedVariables: set<nat>)

  /** A call on a `VariableState`. */
  datatype VarEvent = SetConstant(index: nat, value: Num) | MarkModified(index: nat)

  /** The table after one call. */
  function Apply(t: VarTable, e: VarEvent): VarTable
  {
    match e
    case SetConstant(i, v) =>
      if i in t.modifiedVariables then t else t.(constantValues := t.constantValues[i := v])
    case MarkModified(i) =>
      VarTable(t.constantValues - {i}, t.modifiedVariables + {i})
  }

  /** The table after a sequence of calls on a new `VariableState`. */
  function Replay(events: seq<VarEvent>): VarTable
  {
    if events == [] then VarTable(map[], {})
    else Apply(Replay(events[..|events| - 1]), events[|events| - 1])
  }

  /** The call at `k` sets a value for `i`. */
  predicate SetsAt(events: seq<VarEvent>, k: nat, i: nat)
    requires k < |events|
  {
    events[k].SetConstant? && events[k].index == i
  }

  /** Some call marks `i` as modified. */
  predicate EverModified(events: seq<VarEvent>, i: nat)
  {
    exists k :: 0 <= k < |events| && events[k] == MarkModified(i)
  }

  /**
   * A variable is constant exactly when a value was set for it and it was
   * never marked modified; its value is the one set last. In particular a
   * `setConstant` after `markModified` has no effect, and `markModified`
   * removes a value for good.
   */
  lemma {:induction false} ConstantIffSetAndNeverModified(events: seq<VarEvent>, i: nat)
    ensures i in Replay(events).constantValues <==>
      (exists k :: 0 <= k < |events| && SetsAt(events, k, i)) && !EverModified(events, i)
    ensures i in Replay(events).modifiedVariables <==> EverModified(events, i)
    ensures i in Replay(events).constantValues ==>
      exists k :: 0 <= k < |events| && events[k] == SetConstant(i, Replay(events).constantValues[i])
        && forall m :: k < m < |events| ==> !SetsAt(events, m, i)
  {
    if events != [] {
      var n := |events| - 1;
      var pre := events[..n];
      var t, e := Replay(pre), events[n];
      ConstantIffSetAndNeverModified(pre, i);
      assert Replay(events) == Apply(t, e);
      LastEvent(events, i);
      if i in Apply(t, e).constantValues {
        if e.SetConstant? && e.index == i && i !in t.modifiedVariables {
          assert SetsAt(events, n, i);
        } else {
          var k :| 0 <= k < n && pre[k] == SetConstant(i, t.constantValues[i])
            && forall m :: k < m < n ==> !SetsAt(pre, m, i);
          assert events[k] == pre[k];
          assert forall m :: k < m < |events| ==> !SetsAt(events, m, i) by {
            forall m | k < m < |events| ensures !SetsAt(events, m, i) {
              if m < n {
                assert !SetsAt(pre, m, i);
              }
            }
          }
        }
      }
    }
  }

  /** How the last call adds to what the earlier calls did to `i`. */
  lemma LastEvent(events: seq<VarEvent>, i: nat)
    requires events != []
    ensures var n := |events| - 1;
      ((exists k :: 0 <= k < |events| && SetsAt(events, k, i))
        <==> (exists k :: 0 <= k < n && SetsAt(events[..n], k, i)) || SetsAt(events, n, i))
      && (EverModified(events, i) <==> EverModified(events[..n], i) || events[n] == MarkModified(i))
  {
    var n := |events| - 1;
    var pre := events[..n];
    assert forall k :: 0 <= k < n ==> pre[k] == events[k];
    if exists k :: 0 <= k < |events| && SetsAt(events, k, i) {
      var k :| 0 <= k < |events| && SetsAt(events, k, i);
      if k < n {
        assert SetsAt(pre, k, i);
      }
    }
    if EverModified(events, i) {
      var k :| 0 <= k < |events| && events[k] == MarkModified(i);
      if k < n {
        assert pre[k] == MarkModified(i);
      }
    }
    if EverModified(pre, i) {
      var k :| 0 <= k < n && pre[k] == MarkModified(i);
      assert events[k] == MarkModified(i);
    }
    if exists k :: 0 <= k < n && SetsAt(pre, k, i) {
      var k :| 0 <= k < n && SetsAt(pre, k, i);
      assert SetsAt(events, k, i);
    }
  }

  /** BCEL-side helper that remembers which variables hold constants and which were modified. */
  class VariableState {
    var constantValues: map<nat, Num>
    var modifiedVariables: set<nat>

    function Table(): VarTable
      reads this
    {
      VarTable(constantValues, modifiedVariables)
    }

    /** No variable is both constant and modified. */
    ghost predicate Valid()
      reads this
    {
      constantValues.Keys !! modifiedVariables
    }

    constructor ()
      ensures Valid() && Table() == Replay([])
    {
      constantValues := map[];
      modifiedVariables := {};
    }

    /** `setConstant`: ignored for a variable already marked modified. */
    method SetConstant(index: nat, value: Num)
      requires Valid()
      modifies this
      ensures Valid()
      ensures Table() == Apply(old(Table()), VarEvent.SetConstant(index, value))
    {
      if index !in modifiedVariables {
        constantValues := constantValues[index := value];
      }
    }

    /** `markModified`: the variable is modified for good and loses its value. */
    method MarkModified(index: nat)
      requires Valid()
      modifies this
      ensures Valid()
      ensures Table() == Apply(old(Table()), VarEvent.MarkModified(index))
    {
      modifiedVariables := modifiedVariables + {index};
      constantValues := constantValues - {index};
    }

    /** `getValue`: the value, or None for null. */
    method GetValue(index: nat) returns (r: Option<Num>)
      ensures r.Some? <==> index in constantValues
      ensures r.Some? ==> r.value == constantValues[index]
    {
      if index in constantValues {
        r := Some(constantValues[index]);
      } else {
        r := None;
      }
    }

    /** `isConstant`: the variable has a value. */
    method IsConstant(index: nat) returns (b: bool)
      requires Valid()
      ensures b <==> index in constantValues
      ensures b ==> index !in modifiedVariables
    {
      b := index in constantValues;
    }
  }

  // ---------------------------------------------------------------------
  // Deleting an instruction

  /** The handle after position `p`, or null for the last handle. */
  function NextRef(hs: seq<Handle>, p: nat): Ref
    requires p < |hs|
  {
    if p + 1 < |hs| then At(hs[p + 1].id) else Null
  }

  /**
   * `deleteInstruction`: every branch into the handle at `p` is pointed at
   * its successor (null for the last handle), then the handle is unlinked.
   */
  function Deleted(hs: seq<Handle>, p: nat): seq<Handle>
    requires p < |hs|
  {
    Retarget(hs[..p] + hs[p + 1..], {hs[p].id}, NextRef(hs, p))
  }

  method DeleteInstruction(list: InstructionList, p: nat)
    requires list.Valid() && p < |list.handles|
    modifies list
    ensures list.Valid() && list.nextId == old(list.nextId)
    ensures list.handles == Deleted(old(list.handles), p)
  {
    ghost var hs := list.handles;
    var handle := list.handles[p];
    var next := NextRef(list.handles, p);
    list.UpdateTargeters(handle.id, next);
    ghost var retargeted := list.handles;
    // No branch targets the handle any more, so `delete` throws only for
    // exception-table targeters, which the model does not hold.
    var lost := list.Delete(p, p);
    RetargetWithout(hs, p, {handle.id}, next);
  }

  /** Retargeting and then dropping position `p` is dropping and then retargeting. */
  lemma RetargetWithout(hs: seq<Handle>, p: nat, lost: set<nat>, r: Ref)
    requires p < |hs|
    ensures Retarget(hs, lost, r)[..p] + Retarget(hs, lost, r)[p + 1..] == Retarget(hs[..p] + hs[p + 1..], lost, r)
  {
    var a := Retarget(hs, lost, r);
    var b := Retarget(hs[..p] + hs[p + 1..], lost, r);
    var c := a[..p] + a[p + 1..];
    assert |c| == |b|;
    forall k | 0 <= k < |b| ensures c[k] == b[k] {
      if k < p {
        assert c[k] == a[k] && (hs[..p] + hs[p + 1..])[k] == hs[k];
      } else {
        assert c[k] == a[k + 1] && (hs[..p] + hs[p + 1..])[k] == hs[k + 1];
      }
    }
  }

  /**
   * After `deleteInstruction` of position `p`, the list is one handle
   * shorter; each remaining handle keeps its place in order, a branch into
   * the deleted handle now targets its successor, and every other handle
   * is exactly as it was.
   */
  lemma DeleteInstructionRebinds(hs: seq<Handle>, p: nat)
    requires p < |hs|
    ensures |Deleted(hs, p)| == |hs| - 1
    ensures forall k :: 0 <= k < |hs| - 1 ==> Deleted(hs, p)[k] == Rebound(hs, p, Kept(hs, p, k))
  {
    forall k | 0 <= k < |hs| - 1 ensures Deleted(hs, p)[k] == Rebound(hs, p, Kept(hs, p, k)) {
      DeletedAt(hs, p, k);
    }
  }

  /** The handle that ends up at `k` once position `p` is gone. */
  function Kept(hs: seq<Handle>, p: nat, k: nat): Handle
    requires p < |hs| && k < |hs| - 1
  {
    if k < p then hs[k] else hs[k + 1]
  }

  /** `h` with a branch into the handle at `p` moved to that handle's successor. */
  function Rebound(hs: seq<Handle>, p: nat, h: Handle): Handle
    requires p < |hs|
  {
    if IsBranch(h.ins) && h.ins.target == At(hs[p].id) then Handle(h.id, WithTarget(h.ins, NextRef(hs, p))) else h
  }

  /** The handle at `k` after deleting position `p`. */
  lemma DeletedAt(hs: seq<Handle>, p: nat, k: nat)
    requires p < |hs| && k < |hs| - 1
    ensures |Deleted(hs, p)| == |hs| - 1
    ensures Deleted(hs, p)[k] == Rebound(hs, p, Kept(hs, p, k))
  {
    var kept := hs[..p] + hs[p + 1..];
    assert kept[k] == Kept(hs, p, k);
  }

  /** A handle other than the deleted one keeps its identity in the list. */
  lemma DeletedKeepsOthers(hs: seq<Handle>, p: nat, x: nat)
    requires p < |hs| && x in IdSet(hs) && x != hs[p].id
    ensures x in IdSet(Deleted(hs, p))
  {
    var j :| 0 <= j < |hs| && hs[j].id == x;
    var k := if j < p then j else j - 1;
    DeletedAt(hs, p, k);
    assert Deleted(hs, p)[k].id == x;
  }

  /**
   * Deleting a goto whose target is the next handle keeps a closed list
   * closed: the branches that targeted the goto now target that next
   * handle, which stays.
   */
  lemma RedundantGotoDeletionKeepsClosed(hs: seq<Handle>, p: nat)
    requires DistinctIds(hs) && Closed(hs) && p < |hs| && hs[p].ins.Goto? && hs[p].ins.target == NextRef(hs, p)
    ensures Closed(Deleted(hs, p))
  {
    var d := Deleted(hs, p);
    assert IsBranch(hs[p].ins);
    assert p + 1 < |hs|;
    var next := hs[p + 1].id;
    assert next != hs[p].id by {
      IndexOfAt(hs, p);
    }
    DeletedKeepsOthers(hs, p, next);
    forall k | 0 <= k < |d| && IsBranch(d[k].ins)
      ensures d[k].ins.target.At? && d[k].ins.target.id in IdSet(d)
    {
      BranchSurvives(hs, p, k);
    }
  }

  /** One branch of the list after deleting a redundant goto. */
  lemma BranchSurvives(hs: seq<Handle>, p: nat, k: nat)
    requires Closed(hs) && p + 1 < |hs| && k < |hs| - 1 && hs[p + 1].id != hs[p].id
    requires hs[p + 1].id in IdSet(Deleted(hs, p))
    requires IsBranch(Deleted(hs, p)[k].ins)
    ensures Deleted(hs, p)[k].ins.target.At? && Deleted(hs, p)[k].ins.target.id in IdSet(Deleted(hs, p))
  {
    DeletedAt(hs, p, k);
    var j := if k < p then k else k + 1;
    assert IsBranch(hs[j].ins);
    if hs[j].ins.target != At(hs[p].id) {
      DeletedKeepsOthers(hs, p, hs[j].ins.target.id);
    }
  }

  // ---------------------------------------------------------------------
  // The handlers

  /** The `Stack<Number>` and the `vars` map the handlers share; a null entry is None, the top is last. */
  class HandlerState {
    var constantStack: seq<Option<Num>>
    var vars: map<nat, Num>

    constructor ()
      ensures constantStack == [] && vars == map[]
    {
      constantStack := [];
      vars := map[];
    }
  }

  /** The list, the pool, the next fresh handle identity, the stack and the variables. */
  datatype World = World(handles: seq<Handle>, pool: seq<PoolEntry>, nextId: nat, stack: seq<Option<Num>>, vars: map<nat, Num>)

  function Now(list: InstructionList, pool: ConstantPool, st: HandlerState): World
    reads list, pool, st
  {
    World(list.handles, pool.entries, list.nextId, st.constantStack, st.vars)
  }

  /**
   * A push of `v` through a new pool entry inserted before position `p`,
   * then `deleteInstruction` of the handle at `p`, which has moved to
   * `p + 1`.
   */
  function Replaced(w: World, p: nat, v: Num): World
    requires p < |w.handles|
  {
    var hs1 := w.handles[..p] + [Handle(w.nextId, PushFor(v, |w.pool|))] + w.handles[p..];
    w.(handles := Deleted(hs1, p + 1), pool := w.pool + [PoolEntryFor(v)], nextId := w.nextId + 1)
  }

  /**
   * The arithmetic handler at `p` with the operation `o` it was built
   * with: with fewer than two entries nothing happens; with a null operand
   * the stack is put back as it was; when `perform` throws, the exception
   * is caught and the two popped entries stay popped; otherwise the result
   * is pushed on the stack and a push of it replaces the instruction.
   */
  function ArithmeticStep(w: World, o: Operation, p: nat): World
    requires p < |w.handles|
  {
    var n := |w.stack|;
    if n < 2 then w
    else
      var x, y := w.stack[n - 1], w.stack[n - 2];
      if x.None? || y.None? then w
      else
        match Perform(o, x.value, y.value)
        case Throws(_) => w.(stack := w.stack[..n - 2])
        case Returns(v) => Replaced(w.(stack := w.stack[..n - 2] + [Some(v)]), p, v)
  }

  /** The load handler at `p`: a variable with a value has it pushed, and a push of it replaces the load. */
  function LoadStep(w: World, p: nat): World
    requires p < |w.handles| && w.handles[p].ins.Load?
  {
    var idx := w.handles[p].ins.index;
    if idx !in w.vars then w
    else Replaced(w.(stack := w.stack + [Some(w.vars[idx])]), p, w.vars[idx])
  }

  /**
   * The store handler at `p`: on an empty stack nothing happens; otherwise
   * the top is popped, recorded for the variable when it is a number, and
   * the store deleted.
   */
  function StoreStep(w: World, p: nat): World
    requires p < |w.handles| && w.handles[p].ins.Store?
  {
    var n := |w.stack|;
    if n == 0 then w
    else
      var value := w.stack[n - 1];
      var idx := w.handles[p].ins.index;
      w.(handles := Deleted(w.handles, p), stack := w.stack[..n - 1],
         vars := if value.Some? then w.vars[idx := value.value] else w.vars)
  }

  /** The goto handler at `p`: a goto whose target is the next handle is deleted. */
  function GotoStep(w: World, p: nat): World
    requires p < |w.handles| && w.handles[p].ins.Goto?
  {
    if w.handles[p].ins.target == NextRef(w.handles, p) then w.(handles := Deleted(w.handles, p)) else w
  }

  /** `insert(handle, push)` and `deleteInstruction(handle)` for the handle at `p`. */
  method InsertPush(list: InstructionList, pool: ConstantPool, p: nat, v: Num)
    requires list.Valid() && p < |list.handles|
    modifies list, pool
    ensures list.Valid() && list.nextId == old(list.nextId) + 1
    ensures list.handles == Deleted(old(list.handles)[..p] + [Handle(old(list.nextId), PushFor(v, |old(pool.entries)|))] + old(list.handles)[p..], p + 1)
    ensures pool.entries == old(pool.entries) + [PoolEntryFor(v)]
  {
    var index := pool.Add(PoolEntryFor(v));
    var id := list.Insert(p, PushFor(v, index));
    DeleteInstruction(list, p + 1);
  }

  /** `ArithmeticInstructionHandler.handle`. */
  method HandleArithmetic(o: Operation, list: InstructionList, pool: ConstantPool, st: HandlerState, p: nat)
    requires list.Valid() && p < |list.handles|
    modifies list, pool, st
    ensures list.Valid()
    ensures Now(list, pool, st) == ArithmeticStep(old(Now(list, pool, st)), o, p)
  {
    ghost var w := Now(list, pool, st);
    var n := |st.constantStack|;
    if n < 2 {
      return;
    }
    var x := st.constantStack[n - 1];
    var y := st.constantStack[n - 2];
    st.constantStack := st.constantStack[..n - 2];
    if x.None? || y.None? {
      st.constantStack := st.constantStack + [y] + [x];
      assert st.constantStack == w.stack;
      return;
    }
    var result := Perform(o, x.value, y.value);
    if result.Throws? {
      assert ArithmeticStep(w, o, p) == w.(stack := w.stack[..n - 2]);
      return;
    }
    st.constantStack := st.constantStack + [Some(result.n)];
    ghost var w1 := w.(stack := st.constantStack);
    assert ArithmeticStep(w, o, p) == Replaced(w1, p, result.n);
    InsertPush(list, pool, p, result.n);
  }

  /** `LoadInstructionHandler.handle`. */
  method HandleLoad(list: InstructionList, pool: ConstantPool, st: HandlerState, p: nat)
    requires list.Valid() && p < |list.handles| && list.handles[p].ins.Load?
    modifies list, pool, st
    ensures list.Valid()
    ensures Now(list, pool, st) == LoadStep(old(Now(list, pool, st)), p)
  {
    var index := list.handles[p].ins.index;
    if index !in st.vars {
      return;
    }
    var value := st.vars[index];
    st.constantStack := st.constantStack + [Some(value)];
    InsertPush(list, pool, p, value);
  }

  /** `StoreInstructionHandler.handle`. */
  method HandleStore(list: InstructionList, pool: ConstantPool, st: HandlerState, p: nat)
    requires list.Valid() && p < |list.handles| && list.handles[p].ins.Store?
    modifies list, st
    ensures list.Valid()
    ensures Now(list, pool, st) == StoreStep(old(Now(list, pool, st)), p)
  {
    var n := |st.constantStack|;
    if n == 0 {
      return;
    }
    var value := st.constantStack[n - 1];
    st.constantStack := st.constantStack[..n - 1];
    var index := list.handles[p].ins.index;
    if value.Some? {
      st.vars := st.vars[index := value.value];
    }
    DeleteInstruction(list, p);
  }

  /** `GotoInstructionHandler.handle`. */
  method HandleGoto(list: InstructionList, pool: ConstantPool, st: HandlerState, p: nat)
    requires list.Valid() && p < |list.handles| && list.handles[p].ins.Goto?
    modifies list
    ensures list.Valid()
    ensures Now(list, pool, st) == GotoStep(old(Now(list, pool, st)), p)
  {
    var target := list.handles[p].ins.target;
    if target == NextRef(list.handles, p) {
      DeleteInstruction(list, p);
    }
  }

  /**
   * A successful arithmetic handler keeps the list's length (a push
   * replaces the instruction), leaves the result on top of a stack one
   * entry shorter, and the push at `p` loads the result.
   */
  lemma ArithmeticStepReplaces(w: World, o: Operation, p: nat)
    requires p < |w.handles| && |w.stack| >= 2
    requires w.stack[|w.stack| - 1].Some? && w.stack[|w.stack| - 2].Some?
    requires Perform(o, w.stack[|w.stack| - 1].value, w.stack[|w.stack| - 2].value).Returns?
    ensures var r := ArithmeticStep(w, o, p);
      var v := Perform(o, w.stack[|w.stack| - 1].value, w.stack[|w.stack| - 2].value).n;
      |r.handles| == |w.handles| && |r.stack| == |w.stack| - 1 && r.stack[|r.stack| - 1] == Some(v)
      && ExtractConstant(r.handles[p].ins, r.pool) == Some(v)
      && r.vars == w.vars
  {
    var v := Perform(o, w.stack[|w.stack| - 1].value, w.stack[|w.stack| - 2].value).n;
    PushReplaces(w.(stack := w.stack[..|w.stack| - 2] + [Some(v)]), p, v);
  }

  /** After `Replaced`, the list has its old length and the handle at `p` pushes `v`. */
  lemma PushReplaces(w: World, p: nat, v: Num)
    requires p < |w.handles|
    ensures |Replaced(w, p, v).handles| == |w.handles|
    ensures ExtractConstant(Replaced(w, p, v).handles[p].ins, Replaced(w, p, v).pool) == Some(v)
    ensures Replaced(w, p, v).stack == w.stack && Replaced(w, p, v).vars == w.vars
  {
    var hs1 := w.handles[..p] + [Handle(w.nextId, PushFor(v, |w.pool|))] + w.handles[p..];
    DeleteInstructionRebinds(hs1, p + 1);
    assert hs1[p].ins == PushFor(v, |w.pool|);
    PushRoundTrip(v, w.pool);
  }

  /**
   * When the handler's `perform` throws, nothing is inserted or deleted,
   * and the two popped operands are not put back.
   */
  lemma ArithmeticStepThrows(w: World, o: Operation, p: nat)
    requires p < |w.handles| && |w.stack| >= 2
    requires w.stack[|w.stack| - 1].Some? && w.stack[|w.stack| - 2].Some?
    requires Perform(o, w.stack[|w.stack| - 1].value, w.stack[|w.stack| - 2].value).Throws?
    ensures ArithmeticStep(w, o, p).handles == w.handles && ArithmeticStep(w, o, p).pool == w.pool
    ensures ArithmeticStep(w, o, p).stack == w.stack[..|w.stack| - 2]
  {
  }

  /**
   * The load handler replaces a load of a known variable by a push of its
   * value, keeping the list's length, and pushes the value on the stack.
   */
  lemma LoadStepReplaces(w: World, p: nat)
    requires p < |w.handles| && w.handles[p].ins.Load? && w.handles[p].ins.index in w.vars
    ensures var r := LoadStep(w, p);
      |r.handles| == |w.handles| && r.stack == w.stack + [Some(w.vars[w.handles[p].ins.index])]
      && ExtractConstant(r.handles[p].ins, r.pool) == Some(w.vars[w.handles[p].ins.index])
  {
    var v := w.vars[w.handles[p].ins.index];
    PushReplaces(w.(stack := w.stack + [Some(v)]), p, v);
  }

  /**
   * On a non-empty stack the store handler deletes the store whatever it
   * popped, and records the popped number for the variable.
   */
  lemma StoreStepRecords(w: World, p: nat)
    requires p < |w.handles| && w.handles[p].ins.Store? && |w.stack| > 0
    ensures var r := StoreStep(w, p);
      |r.handles| == |w.handles| - 1 && |r.stack| == |w.stack| - 1
      && (w.stack[|w.stack| - 1].Some? ==> r.vars == w.vars[w.handles[p].ins.index := w.stack[|w.stack| - 1].value])
      && (w.stack[|w.stack| - 1].None? ==> r.vars == w.vars)
  {
    DeleteInstructionRebinds(w.handles, p);
  }

  // ---------------------------------------------------------------------
  // The handler sweep

  /** What the sweep carries: the handlers' world and the method's `VariableState`. */
  datatype Sweep = Sweep(w: World, table: VarTable)

  /**
   * One handle's visit at position `p`: an IINC marks its variable
   * modified; the first handler that can handle the instruction handles
   * it (arithmetic, then non-reference loads, then stores, then gotos).
   */
  function Visit(s: Sweep, o: Operation, p: nat): Sweep
    requires p < |s.w.handles|
  {
    var ins := s.w.handles[p].ins;
    if ins.IInc? then s.(table := Apply(s.table, VarEvent.MarkModified(ins.index)))
    else if ins.Arith? then s.(w := ArithmeticStep(s.w, o, p))
    else if IsArithmeticLoadInstruction(ins) then s.(w := LoadStep(s.w, p))
    else if ins.Store? then s.(w := StoreStep(s.w, p))
    else if ins.Goto? then s.(w := GotoStep(s.w, p))
    else s
  }

  /**
   * The visit of the handle with identity `id`, wherever it now is. A
   * handle deleted earlier in the sweep has lost its instruction and is
   * skipped.
   */
  function VisitId(s: Sweep, o: Operation, id: nat): Sweep
  {
    if id in IdSet(s.w.handles) then Visit(s, o, IndexOf(s.w.handles, id)) else s
  }

  /** The sweep over the handles of `snapshot` from the `k`-th on. */
  function SweepFrom(s: Sweep, o: Operation, snapshot: seq<Handle>, k: nat): Sweep
    requires k <= |snapshot|
    decreases |snapshot| - k
  {
    if k == |snapshot| then s else SweepFrom(VisitId(s, o, snapshot[k].id), o, snapshot, k + 1)
  }

  /** A visit only ever deletes the visited handle. */
  lemma VisitKeepsOthers(s: Sweep, o: Operation, p: nat, x: nat)
    requires p < |s.w.handles| && x in IdSet(s.w.handles) && x != s.w.handles[p].id
    ensures x in IdSet(Visit(s, o, p).w.handles)
  {
    var w := s.w;
    var ins := w.handles[p].ins;
    if ins.IInc? {
    } else if ins.Arith? {
      assert Visit(s, o, p).w == ArithmeticStep(w, o, p);
      ArithmeticStepKeepsOthers(w, o, p, x);
    } else if IsArithmeticLoadInstruction(ins) {
      assert Visit(s, o, p).w == LoadStep(w, p);
      LoadStepKeepsOthers(w, p, x);
    } else if ins.Store? {
      assert Visit(s, o, p).w == StoreStep(w, p);
      DeletedKeepsOthers(w.handles, p, x);
    } else if ins.Goto? {
      assert Visit(s, o, p).w == GotoStep(w, p);
      DeletedKeepsOthers(w.handles, p, x);
    }
  }

  lemma ArithmeticStepKeepsOthers(w: World, o: Operation, p: nat, x: nat)
    requires p < |w.handles| && x in IdSet(w.handles) && x != w.handles[p].id
    ensures x in IdSet(ArithmeticStep(w, o, p).handles)
  {
    var n := |w.stack|;
    if n >= 2 && w.stack[n - 1].Some? && w.stack[n - 2].Some? {
      var r := Perform(o, w.stack[n - 1].value, w.stack[n - 2].value);
      if r.Returns? {
        ReplacedKeepsOthers(w.(stack := w.stack[..n - 2] + [Some(r.n)]), p, r.n, x);
      }
    }
  }

  lemma LoadStepKeepsOthers(w: World, p: nat, x: nat)
    requires p < |w.handles| && w.handles[p].ins.Load?
    requires x in IdSet(w.handles) && x != w.handles[p].id
    ensures x in IdSet(LoadStep(w, p).handles)
  {
    var idx := w.handles[p].ins.index;
    if idx in w.vars {
      ReplacedKeepsOthers(w.(stack := w.stack + [Some(w.vars[idx])]), p, w.vars[idx], x);
    }
  }

  /** Replacing the handle at `p` by a push keeps every other handle's identity. */
  lemma ReplacedKeepsOthers(w: World, p: nat, v: Num, x: nat)
    requires p < |w.handles| && x in IdSet(w.handles) && x != w.handles[p].id
    ensures x in IdSet(Replaced(w, p, v).handles)
  {
    var hs := w.handles;
    var hs1 := hs[..p] + [Handle(w.nextId, PushFor(v, |w.pool|))] + hs[p..];
    var j :| 0 <= j < |hs| && hs[j].id == x;
    assert hs1[if j < p then j else j + 1].id == x;
    assert hs1[p + 1] == hs[p];
    DeletedKeepsOthers(hs1, p + 1, x);
  }

  /**
   * `optimizeMethod`'s loop over the handles: the list's handles are taken
   * once, then each is visited in order.
   */
  method HandlerSweep(o: Operation, list: InstructionList, pool: ConstantPool, st: HandlerState, varState: VariableState)
    requires list.Valid() && varState.Valid()
    modifies list, pool, st, varState
    ensures list.Valid() && varState.Valid()
    ensures Sweep(Now(list, pool, st), varState.Table())
         == SweepFrom(Sweep(old(Now(list, pool, st)), old(varState.Table())), o, old(list.handles), 0)
  {
    var snapshot := list.handles;
    var k := 0;
    while k < |snapshot|
      invariant k <= |snapshot| && list.Valid() && varState.Valid() && DistinctIds(snapshot)
      invariant forall j :: k <= j < |snapshot| ==> snapshot[j].id in IdSet(list.handles)
      invariant SweepFrom(Sweep(Now(list, pool, st), varState.Table()), o, snapshot, k)
             == SweepFrom(Sweep(old(Now(list, pool, st)), old(varState.Table())), o, snapshot, 0)
    {
      ghost var before := Sweep(Now(list, pool, st), varState.Table());
      var p := IndexOf(list.handles, snapshot[k].id);
      VisitHandle(o, list, pool, st, varState, p);
      forall j | k + 1 <= j < |snapshot| ensures snapshot[j].id in IdSet(list.handles) {
        VisitKeepsOthers(before, o, p, snapshot[j].id);
      }
      k := k + 1;
    }
  }

  /** One iteration of the sweep at position `p`. */
  method VisitHandle(o: Operation, list: InstructionList, pool: ConstantPool, st: HandlerState, varState: VariableState, p: nat)
    requires list.Valid() && varState.Valid() && p < |list.handles|
    modifies list, pool, st, varState
    ensures list.Valid() && varState.Valid()
    ensures Sweep(Now(list, pool, st), varState.Table()) == Visit(old(Sweep(Now(list, pool, st), varState.Table())), o, p)
  {
    var instruction := list.handles[p].ins;
    if instruction.IInc? {
      varState.MarkModified(instruction.index);
    } else if instruction.Arith? {
      HandleArithmetic(o, list, pool, st, p);
    } else if IsArithmeticLoadInstruction(instruction) {
      HandleLoad(list, pool, st, p);
    } else if instruction.Store? {
      HandleStore(list, pool, st, p);
    } else if instruction.Goto? {
      HandleGoto(list, pool, st, p);
    }
  }

  /**
   * From an empty stack and no known variables, as `optimizeMethod`
   * starts, a visit learns nothing: the stack and the variables stay
   * empty, the pool and the identities are untouched, and only a goto can
   * be deleted, so every handle that is not a branch stays exactly as it
   * was.
   */
  lemma VisitFromEmpty(s: Sweep, o: Operation, id: nat)
    requires s.w.stack == [] && s.w.vars == map[]
    ensures var r := VisitId(s, o, id).w;
      r.stack == [] && r.vars == map[] && r.pool == s.w.pool && r.nextId == s.w.nextId
      && |r.handles| <= |s.w.handles|
      && forall h :: h in s.w.handles && !IsBranch(h.ins) ==> h in r.handles
  {
    if id in IdSet(s.w.handles) {
      var hs := s.w.handles;
      var p := IndexOf(hs, id);
      var r := VisitId(s, o, id).w;
      assert r == Visit(s, o, p).w;
      VisitAtFromEmpty(s, o, p);
      if r.handles != hs {
        DeleteInstructionRebinds(hs, p);
        forall h | h in hs && !IsBranch(h.ins) ensures h in r.handles {
          var j :| 0 <= j < |hs| && hs[j] == h;
          assert j != p;
          var k := if j < p then j else j - 1;
          assert r.handles[k] == h;
        }
      }
    }
  }

  /** One visit from an empty stack and no variables: nothing is learnt, and at most a goto goes. */
  lemma VisitAtFromEmpty(s: Sweep, o: Operation, p: nat)
    requires p < |s.w.handles| && s.w.stack == [] && s.w.vars == map[]
    ensures var r := Visit(s, o, p).w;
      r.stack == [] && r.vars == map[] && r.pool == s.w.pool && r.nextId == s.w.nextId
      && (r.handles == s.w.handles || (s.w.handles[p].ins.Goto? && r.handles == Deleted(s.w.handles, p)))
  {
    var w := s.w;
    var ins := w.handles[p].ins;
    if ins.IInc? {
    } else if ins.Arith? {
      assert ArithmeticStep(w, o, p) == w;
    } else if IsArithmeticLoadInstruction(ins) {
      assert LoadStep(w, p) == w;
    } else if ins.Store? {
      assert StoreStep(w, p) == w;
    } else if ins.Goto? {
      assert Visit(s, o, p).w == GotoStep(w, p);
    }
  }

  /**
   * Started as `optimizeMethod` starts it, with an empty stack and no
   * known variables, the whole handler sweep never pushes, stores, folds
   * or replaces anything: the stack and the variables stay empty, the pool
   * is untouched, and the only handles that can go are gotos.
   */
  lemma {:induction false} EmptySweepOnlyDropsGotos(s: Sweep, o: Operation, snapshot: seq<Handle>, k: nat)
    requires k <= |snapshot| && s.w.stack == [] && s.w.vars == map[]
    decreases |snapshot| - k
    ensures var r := SweepFrom(s, o, snapshot, k).w;
      r.stack == [] && r.vars == map[] && r.pool == s.w.pool && r.nextId == s.w.nextId
      && |r.handles| <= |s.w.handles|
      && forall h :: h in s.w.handles && !IsBranch(h.ins) ==> h in r.handles
  {
    if k < |snapshot| {
      var s1 := VisitId(s, o, snapshot[k].id);
      VisitFromEmpty(s, o, snapshot[k].id);
      EmptySweepOnlyDropsGotos(s1, o, snapshot, k + 1);
    }
  }
}
