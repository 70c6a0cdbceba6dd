/**
 * The constant folder, an earlier pass over one method: a first sweep
 * learns which local variables hold a constant, and a second sweep
 * replaces their loads with pushes and folds int arithmetic on two
 * pushed constants.
 *
 * Every deletion here is BCEL's own `delete`; when a branch still targets
 * the deleted handle, the `TargetLostException` handler points that branch
 * at the current handle's predecessor, which is null once the current
 * handle itself has been deleted.
 */
module ConstantFolder {
  import opened Bytecode
  import opened Utils
  import opened Optimiser

  // ---------------------------------------------------------------------
  // Constants

  predicate IsRecordedPush(ins: Instr)
  {
    ins.BiPush? || ins.SiPush? || ins.Ldc? || ins.Ldc2W?
  }

  /**
   * `getConstantValue`: the number a BIPUSH, SIPUSH, LDC or LDC2_W pushes,
   * or None (null) for a String or Class entry and any other instruction.
   */
  function GetConstantValue(ins: Instr, pool: seq<PoolEntry>): (r: Option<Num>)
    ensures IsRecordedPush(ins) ==> r == ExtractConstant(ins, pool)
    ensures !IsRecordedPush(ins) ==> r.None?
  {
    match ins
    case BiPush(v) => Some(IntV(v))
    case SiPush(v) => Some(IntV(v))
    case Ldc(k) =>
      if k < |pool| && pool[k].PInt? then Some(IntV(pool[k].i))
      else if k < |pool| && pool[k].PFloat? then Some(FloatV(pool[k].f))
      else None
    case Ldc2W(k) =>
      if k < |pool| && pool[k].PLong? then Some(LongV(pool[k].l))
      else if k < |pool| && pool[k].PDouble? then Some(DoubleV(pool[k].d))
      else None
    case _ => None
  }

  /**
   * The instruction `createConstantLoadInstruction` picks for an int or a
   * long: the shortest push that holds the value, LDC or LDC2_W of a new
   * pool entry `index` otherwise.
   */
  function ConstantLoadFor(val: Num, index: nat): (r: Instr)
    requires val.IntV? || val.LongV?
    ensures r.IConst? || r.BiPush? || r.SiPush? || r.Ldc? || r.LConst? || r.Ldc2W?
    ensures val.IntV? ==> (r.IConst? <==> -1 <= val.i <= 5)
    ensures val.IntV? ==> (r.BiPush? <==> !(-1 <= val.i <= 5) && -128 <= val.i <= 127)
    ensures val.IntV? ==> (r.SiPush? <==> !(-128 <= val.i <= 127) && -32768 <= val.i <= 32767)
    ensures val.IntV? ==> (r.Ldc? <==> !(-32768 <= val.i <= 32767))
    ensures val.LongV? ==> (r.LConst? <==> val.l == 0 || val.l == 1) && (r.Ldc2W? <==> !(val.l == 0 || val.l == 1))
  {
    if val.IntV? then
      if -1 <= val.i <= 5 then IConst(val.i)
      else if -128 <= val.i <= 127 then BiPush(val.i)
      else if -32768 <= val.i <= 32767 then SiPush(val.i)
      else Ldc(index)
    else if val.l == 0 || val.l == 1 then LConst(val.l)
    else Ldc2W(index)
  }

  /** The pool after `createConstantLoadInstruction`: one new entry when it picks LDC or LDC2_W. */
  function PoolAfterLoad(pool: seq<PoolEntry>, val: Num): seq<PoolEntry>
    requires val.IntV? || val.LongV?
  {
    var ins := ConstantLoadFor(val, |pool|);
    if ins.Ldc? || ins.Ldc2W? then pool + [PoolEntryFor(val)] else pool
  }

  /** Whichever instruction is picked, it pushes the value back from the grown pool. */
  lemma ConstantLoadRoundTrip(val: Num, pool: seq<PoolEntry>)
    requires val.IntV? || val.LongV?
    ensures ExtractConstant(ConstantLoadFor(val, |pool|), PoolAfterLoad(pool, val)) == Some(val)
    ensures pool <= PoolAfterLoad(pool, val)
  {
    var ins := ConstantLoadFor(val, |pool|);
    if ins.Ldc? || ins.Ldc2W? {
      assert PoolAfterLoad(pool, val)[|pool|] == PoolEntryFor(val);
    }
  }

  /**
   * `createConstantLoadInstruction` for an int or a long: whichever
   * instruction it picks pushes the value back.
   */
  method CreateConstantLoadInstruction(val: Num, pool: ConstantPool) returns (ins: Instr)
    requires val.IntV? || val.LongV?
    modifies pool
    ensures ins == ConstantLoadFor(val, |old(pool.entries)|)
    ensures pool.entries == PoolAfterLoad(old(pool.entries), val)
    ensures ExtractConstant(ins, pool.entries) == Some(val)
  {
    ins := ConstantLoadFor(val, |pool.entries|);
    if ins.Ldc? || ins.Ldc2W? {
      var index := pool.Add(PoolEntryFor(val));
    }
  }

  // ---------------------------------------------------------------------
  // First pass: constant variables

  /** What `constantVariables` maps: a variable to the number stored in it, None standing for null. */
  type ConstantVariables = map<nat, Option<Num>>

  /**
   * The first pass at position `k`: a push before a store records its
   * value; a store then forgets its variable unless the handle before it
   * is a BIPUSH. The condition `prev == null || !(prev instanceof BIPUSH)
   * || prev instanceof SIPUSH || ...` groups so that every other
   * predecessor, SIPUSH and LDC included, forgets the variable.
   */
  function FirstPassStep(m: ConstantVariables, hs: seq<Handle>, pool: seq<PoolEntry>, k: nat): ConstantVariables
    requires k < |hs|
  {
    var ins := hs[k].ins;
    var m1 := if IsRecordedPush(ins) && k + 1 < |hs| && hs[k + 1].ins.Store?
      then m[hs[k + 1].ins.index := GetConstantValue(ins, pool)] else m;
    if ins.Store? && (k == 0 || !hs[k - 1].ins.BiPush? || hs[k - 1].ins.SiPush? || hs[k - 1].ins.Ldc? || hs[k - 1].ins.Ldc2W?)
    then m1 - {ins.index} else m1
  }

  /** The map after the first pass has visited positions 0 to `n - 1`. */
  function FirstPass(hs: seq<Handle>, pool: seq<PoolEntry>, n: nat): ConstantVariables
    requires n <= |hs|
  {
    if n == 0 then map[] else FirstPassStep(FirstPass(hs, pool, n - 1), hs, pool, n - 1)
  }

  /** The first pass has just recorded a value for the store at `n`, which it has not yet visited. */
  predicate Pending(hs: seq<Handle>, idx: nat, n: nat)
  {
    0 < n < |hs| && StoresTo(hs[n].ins, idx) && IsRecordedPush(hs[n - 1].ins)
  }

  /** Position `j` holds the last store to `idx` before position `n`. */
  predicate LastStoreTo(hs: seq<Handle>, idx: nat, j: nat, n: nat)
    requires n <= |hs|
  {
    j < n && StoresTo(hs[j].ins, idx) && forall k :: j < k < n ==> !StoresTo(hs[k].ins, idx)
  }

  /**
   * After the first pass has visited positions before `n`, a variable
   * (other than one with a pending record) is known exactly when its last
   * store directly follows a BIPUSH, and it is known to hold that BIPUSH's
   * operand: facts from SIPUSH, LDC and LDC2_W never survive, and IINC
   * never makes the pass forget a variable.
   */
  lemma {:induction false} FirstPassKeepsBipushStores(hs: seq<Handle>, pool: seq<PoolEntry>, n: nat, idx: nat)
    requires n <= |hs|
    ensures Pending(hs, idx, n) ==>
      idx in FirstPass(hs, pool, n) && FirstPass(hs, pool, n)[idx] == GetConstantValue(hs[n - 1].ins, pool)
    ensures !Pending(hs, idx, n) && (forall j :: 0 <= j < n ==> !StoresTo(hs[j].ins, idx)) ==>
      idx !in FirstPass(hs, pool, n)
    ensures !Pending(hs, idx, n) ==> forall j :: LastStoreTo(hs, idx, j, n) ==>
      (idx in FirstPass(hs, pool, n) <==> 0 < j && hs[j - 1].ins.BiPush?)
      && (idx in FirstPass(hs, pool, n) ==> FirstPass(hs, pool, n)[idx] == Some(IntV(hs[j - 1].ins.v)))
  {
    if n > 0 {
      var k := n - 1;
      FirstPassKeepsBipushStores(hs, pool, k, idx);
      if StoresTo(hs[k].ins, idx) {
        forall j | LastStoreTo(hs, idx, j, n)
          ensures j == k
        {
        }
        assert LastStoreTo(hs, idx, k, n);
      } else {
        forall j | LastStoreTo(hs, idx, j, n)
          ensures LastStoreTo(hs, idx, j, k)
        {
        }
      }
    }
  }

  /**
   * The first loop of `optimizeMethod`: each handle may record the value
   * of the store after it, and a store may forget its variable.
   */
  method IdentifyConstantVariables(list: InstructionList, pool: ConstantPool) returns (constantVariables: ConstantVariables)
    ensures constantVariables == FirstPass(list.handles, pool.entries, |list.handles|)
  {
    var hs := list.handles;
    constantVariables := map[];
    var k := 0;
    while k < |hs|
      invariant k <= |hs| && constantVariables == FirstPass(hs, pool.entries, k)
    {
      var instruction := hs[k].ins;
      if IsRecordedPush(instruction) {
        var val := GetConstantValue(instruction, pool.entries);
        if k + 1 < |hs| && hs[k + 1].ins.Store? {
          constantVariables := constantVariables[hs[k + 1].ins.index := val];
        }
      }
      if instruction.Store? {
        if k == 0 || !hs[k - 1].ins.BiPush? || hs[k - 1].ins.SiPush? || hs[k - 1].ins.Ldc? || hs[k - 1].ins.Ldc2W? {
          constantVariables := constantVariables - {instruction.index};
        }
      }
      k := k + 1;
    }
  }

  // ---------------------------------------------------------------------
  // Second pass: replacing loads and folding

  /** Every known variable holds an int: what the first pass leaves. */
  predicate KnownInts(m: ConstantVariables)
  {
    forall idx :: idx in m ==> m[idx].Some? && m[idx].value.IntV?
  }

  /** The first pass leaves only ints behind. */
  lemma FirstPassKnowsInts(hs: seq<Handle>, pool: seq<PoolEntry>)
    ensures KnownInts(FirstPass(hs, pool, |hs|))
  {
    forall idx | idx in FirstPass(hs, pool, |hs|)
      ensures FirstPass(hs, pool, |hs|)[idx].Some? && FirstPass(hs, pool, |hs|)[idx].value.IntV?
    {
      FirstPassKeepsBipushStores(hs, pool, |hs|, idx);
      var j := LastStoreBefore(hs, idx, |hs|);
    }
  }

  /** The position of the last store to `idx` before `n`, given that there is one. */
  lemma {:induction false} LastStoreBefore(hs: seq<Handle>, idx: nat, n: nat) returns (j: nat)
    requires n <= |hs| && exists k :: 0 <= k < n && StoresTo(hs[k].ins, idx)
    ensures LastStoreTo(hs, idx, j, n)
  {
    if StoresTo(hs[n - 1].ins, idx) {
      j := n - 1;
    } else {
      j := LastStoreBefore(hs, idx, n - 1);
    }
  }

  /** The list, the pool and the next fresh handle identity. */
  datatype State = State(handles: seq<Handle>, pool: seq<PoolEntry>, nextId: nat)

  function Cur(list: InstructionList, pool: ConstantPool): State
    reads list, pool
  {
    State(list.handles, pool.entries, list.nextId)
  }

  /** Where one visit leaves the sweep: at the next handle's position, or stopped by an exception. */
  datatype Visit = Next(s: State, pos: nat) | Stop(s: State, e: JavaException)

  /** `delete` of the handle at `p` throws `TargetLostException`: a branch still targets it. */
  predicate Lost(hs: seq<Handle>, p: nat)
    requires p < |hs|
  {
    Targeted(hs[..p] + hs[p + 1..], hs[p].id)
  }

  /** `delete` of the handle at `p`, the handler pointing the branches into it at `rep`. */
  function DeleteCatching(hs: seq<Handle>, p: nat, rep: Ref): (r: seq<Handle>)
    requires p < |hs|
    ensures |r| == |hs| - 1
  {
    var kept := hs[..p] + hs[p + 1..];
    if Lost(hs, p) then Retarget(kept, {hs[p].id}, rep) else kept
  }

  /** `delete(handle)` with the `TargetLostException` handler of `optimizeMethod`. */
  method DeleteCatchingAt(list: InstructionList, p: nat, rep: Ref) returns (lost: bool)
    requires list.Valid() && p < |list.handles|
    modifies list
    ensures list.Valid() && list.nextId == old(list.nextId)
    ensures lost == Lost(old(list.handles), p)
    ensures list.handles == DeleteCatching(old(list.handles), p, rep)
  {
    var id := list.handles[p].id;
    ghost var removed := list.handles[p..p + 1];
    assert removed == [list.handles[p]];
    var targets := list.Delete(p, p);
    assert targets == if Targeted(list.handles, id) then {id} else {};
    if targets != {} {
      list.UpdateTargeters(id, rep);
    }
    lost := targets != {};
  }

  /** A load of a known variable at `q`: the push is inserted before it and the load deleted. */
  function LoadStep(s: State, q: nat, val: Num): (r: State)
    requires q < |s.handles| && (val.IntV? || val.LongV?)
    ensures |r.handles| == |s.handles|
  {
    var hs := s.handles;
    var ins := ConstantLoadFor(val, |s.pool|);
    State(DeleteCatching(hs[..q] + [Handle(s.nextId, ins)] + hs[q..], q + 1, Null), PoolAfterLoad(s.pool, val), s.nextId + 1)
  }

  method ReplaceLoad(list: InstructionList, pool: ConstantPool, q: nat, val: Num)
    requires list.Valid() && q < |list.handles| && (val.IntV? || val.LongV?)
    modifies list, pool
    ensures list.Valid()
    ensures Cur(list, pool) == LoadStep(old(Cur(list, pool)), q, val)
  {
    var newInstruction := CreateConstantLoadInstruction(val, pool);
    InsertReplacing(list, q, newInstruction);
  }

  /** `insert(handle, newInstruction); delete(handle)` for the handle at `pos`, a lost target cut off. */
  method InsertReplacing(list: InstructionList, pos: nat, newInstruction: Instr)
    requires list.Valid() && pos < |list.handles|
    modifies list
    ensures list.Valid() && list.nextId == old(list.nextId) + 1
    ensures list.handles == DeleteCatching(old(list.handles)[..pos] + [Handle(old(list.nextId), newInstruction)] + old(list.handles)[pos..], pos + 1, Null)
  {
    var id := list.Insert(pos, newInstruction);
    var lost := DeleteCatchingAt(list, pos + 1, Null);
  }

  /** The int operand `tryFoldConstantOperation` reads from LDC (an int entry), BIPUSH or SIPUSH. */
  function FoldOperand(ins: Instr, pool: seq<PoolEntry>): (r: Option<Int32>)
    ensures r.Some? ==> ExtractConstant(ins, pool) == Some(IntV(r.value))
    ensures r.None? ==> !(ins.BiPush? || ins.SiPush?)
  {
    match ins
    case Ldc(k) => if k < |pool| && pool[k].PInt? then Some(pool[k].i) else None
    case BiPush(v) => Some(v)
    case SiPush(v) => Some(v)
    case _ => None
  }

  predicate IsIntFold(ins: Instr)
  {
    ins.Arith? && ins.numKind == KInt && ins.op in {Add, Sub, Mul, Div}
  }

  /**
   * `tryFoldConstantOperation` at `q`: for IADD, ISUB, IMUL or IDIV after
   * two int constants, `second op first` (the deeper operand first) is
   * computed and the three handles give way to its push; an int division
   * by zero throws.
   */
  function FoldStep(s: State, q: nat): (r: Visit)
    requires q < |s.handles|
    ensures r.Next? ==> r.pos <= |r.s.handles| && |r.s.handles| - r.pos == |s.handles| - q - 1
  {
    var hs := s.handles;
    var ins := hs[q].ins;
    if !IsIntFold(ins) || q < 2 then Next(s, q + 1)
    else
      var val1, val2 := FoldOperand(hs[q - 1].ins, s.pool), FoldOperand(hs[q - 2].ins, s.pool);
      if val1.None? || val2.None? then Next(s, q + 1)
      else if ins.op == Div && val1.value == 0 then Stop(s, Arithmetic)
      else FoldDeletes(s, q, IntV(WrapInt(IntegralOp(ins.op, val2.value, val1.value))))
  }

  /**
   * The fold's rewrite once `res` is known: `second` (at `q - 2`) is
   * deleted, then `first`, then the push is inserted before the operation
   * and the operation deleted; the first lost target ends the rewrite, its
   * branches pointed at the operation's predecessor at that moment.
   */
  function FoldDeletes(s: State, q: nat, res: Num): (r: Visit)
    requires 2 <= q < |s.handles| && res.IntV?
    ensures r.Next? && r.pos <= |r.s.handles| && |r.s.handles| - r.pos == |s.handles| - q - 1
  {
    var hs := s.handles;
    var pool := PoolAfterLoad(s.pool, res);
    if Lost(hs, q - 2) then Next(State(DeleteCatching(hs, q - 2, At(hs[q - 1].id)), pool, s.nextId), q)
    else
      var push := Handle(s.nextId, ConstantLoadFor(res, |s.pool|));
      DeleteFirst(hs[..q - 2] + hs[q - 1..], q, if q >= 3 then At(hs[q - 3].id) else Null, push, pool)
  }

  /** The rewrite after `second` is gone: `first` at `q - 2`, the operation at `q - 1`. */
  function DeleteFirst(a: seq<Handle>, q: nat, prev: Ref, push: Handle, pool: seq<PoolEntry>): (r: Visit)
    requires 2 <= q <= |a|
    ensures r.Next? && r.pos <= |r.s.handles| && |r.s.handles| - r.pos == |a| - q
  {
    var b := DeleteCatching(a, q - 2, prev);
    if Lost(a, q - 2) then Next(State(b, pool, push.id), q - 1)
    else Next(State(DeleteCatching(b[..q - 2] + [push] + b[q - 2..], q - 1, Null), pool, push.id + 1), q - 1)
  }

  /**
   * `tryFoldConstantOperation`; an exception leaves the method and the
   * state as it stands.
   */
  method TryFoldConstantOperation(list: InstructionList, pool: ConstantPool, q: nat) returns (raised: Option<JavaException>)
    requires list.Valid() && q < |list.handles|
    modifies list, pool
    ensures list.Valid()
    ensures raised.Some? ==> FoldStep(old(Cur(list, pool)), q) == Stop(Cur(list, pool), raised.value)
    ensures raised.None? ==> FoldStep(old(Cur(list, pool)), q).Next? && FoldStep(old(Cur(list, pool)), q).s == Cur(list, pool)
  {
    var hs := list.handles;
    var instruction := hs[q].ins;
    if !IsIntFold(instruction) || q < 2 {
      return None;
    }
    var val1 := FoldOperand(hs[q - 1].ins, pool.entries);
    var val2 := FoldOperand(hs[q - 2].ins, pool.entries);
    if val1.None? || val2.None? {
      return None;
    }
    if instruction.op == Div && val1.value == 0 {
      return Some(Arithmetic);
    }
    var res := IntV(WrapInt(IntegralOp(instruction.op, val2.value, val1.value)));
    ReplaceOperation(list, pool, q, res, Cur(list, pool));
    raised := None;
  }

  /** The `try` block of the fold: the push is created (its pool entry first), then the deletions. */
  method ReplaceOperation(list: InstructionList, pool: ConstantPool, q: nat, res: Num, ghost s: State)
    requires list.Valid() && Cur(list, pool) == s && 2 <= q < |s.handles| && res.IntV?
    modifies list, pool
    ensures list.Valid()
    ensures Cur(list, pool) == FoldDeletes(s, q, res).s
  {
    var hs := list.handles;
    var newInstruction := CreateConstantLoadInstruction(res, pool);
    ghost var grown := pool.entries;
    assert grown == PoolAfterLoad(s.pool, res);
    var prev: Ref := if q >= 3 then At(hs[q - 3].id) else Null;
    var lost := DeleteCatchingAt(list, q - 2, At(hs[q - 1].id));
    if lost {
      FoldDeletesLost(s, q, res);
    } else {
      ghost var a := list.handles;
      FoldDeletesKept(s, q, res, a);
      DeleteFirstAt(list, pool, q, prev, newInstruction, a, Handle(s.nextId, newInstruction));
    }
  }

  /** The fold's rewrite when deleting `second` loses a target. */
  lemma FoldDeletesLost(s: State, q: nat, res: Num)
    requires 2 <= q < |s.handles| && res.IntV? && Lost(s.handles, q - 2)
    ensures FoldDeletes(s, q, res) == Next(State(DeleteCatching(s.handles, q - 2, At(s.handles[q - 1].id)), PoolAfterLoad(s.pool, res), s.nextId), q)
  {
  }

  /** The fold's rewrite when deleting `second` loses no target: the rest is `DeleteFirst`. */
  lemma FoldDeletesKept(s: State, q: nat, res: Num, a: seq<Handle>)
    requires 2 <= q < |s.handles| && res.IntV? && !Lost(s.handles, q - 2)
    requires a == DeleteCatching(s.handles, q - 2, At(s.handles[q - 1].id))
    ensures a == s.handles[..q - 2] + s.handles[q - 1..]
    ensures FoldDeletes(s, q, res) == DeleteFirst(a, q, if q >= 3 then At(s.handles[q - 3].id) else Null,
                                                  Handle(s.nextId, ConstantLoadFor(res, |s.pool|)), PoolAfterLoad(s.pool, res))
  {
  }

  method DeleteFirstAt(list: InstructionList, pool: ConstantPool, q: nat, prev: Ref, newInstruction: Instr, ghost a: seq<Handle>, ghost push: Handle)
    requires list.Valid() && list.handles == a && 2 <= q <= |a| && push == Handle(list.nextId, newInstruction)
    modifies list
    ensures list.Valid()
    ensures Cur(list, pool) == DeleteFirst(a, q, prev, push, pool.entries).s
  {
    var lost := DeleteCatchingAt(list, q - 2, prev);
    if !lost {
      InsertReplacing(list, q - 2, newInstruction);
    }
  }

  /** The second loop's visit of the handle at `q`. */
  function SweepStep(s: State, m: ConstantVariables, q: nat): (r: Visit)
    requires q < |s.handles| && KnownInts(m)
    ensures r.Next? ==> r.pos <= |r.s.handles| && |r.s.handles| - r.pos == |s.handles| - q - 1
  {
    var ins := s.handles[q].ins;
    if ins.Load? then
      if ins.index in m then Next(LoadStep(s, q, m[ins.index].value), q + 1) else Next(s, q + 1)
    else if ins.Arith? && q + 1 < |s.handles| then FoldStep(s, q)
    else Next(s, q + 1)
  }

  /** How the second loop ends: having visited every handle, or on an exception. */
  datatype PassEnd = Finished(s: State) | Aborted(s: State, e: JavaException)

  /** The second loop from the handle at `q` on. */
  function SecondPass(s: State, m: ConstantVariables, q: nat): PassEnd
    requires q <= |s.handles| && KnownInts(m)
    decreases |s.handles| - q
  {
    if q == |s.handles| then Finished(s)
    else
      match SweepStep(s, m, q)
      case Stop(s1, e) => Aborted(s1, e)
      case Next(s1, q1) => SecondPass(s1, m, q1)
  }

  /**
   * Some branch has lost its target: BCEL's `setPositions` throws
   * `ClassGenException` for such a GOTO and `getMethod`, which writes every
   * branch offset, for any such branch.
   */
  predicate Dangling(hs: seq<Handle>)
  {
    exists k | 0 <= k < |hs| :: IsBranch(hs[k].ins) && hs[k].ins.target.Null?
  }

  /**
   * Deleting the handle at `p` shifts the handles after it down by one;
   * only branches can change, and only their targets.
   */
  lemma DeleteCatchingIds(hs: seq<Handle>, p: nat, rep: Ref)
    requires p < |hs|
    ensures forall i :: 0 <= i < p ==> DeleteCatching(hs, p, rep)[i].id == hs[i].id
    ensures forall i :: p <= i < |hs| - 1 ==> DeleteCatching(hs, p, rep)[i].id == hs[i + 1].id
    ensures forall i :: 0 <= i < p && !IsBranch(hs[i].ins) ==> DeleteCatching(hs, p, rep)[i] == hs[i]
    ensures forall i :: p <= i < |hs| - 1 && !IsBranch(hs[i + 1].ins) ==> DeleteCatching(hs, p, rep)[i] == hs[i + 1]
    ensures forall i :: 0 <= i < p ==> IsBranch(DeleteCatching(hs, p, rep)[i].ins) == IsBranch(hs[i].ins)
    ensures forall i :: p <= i < |hs| - 1 ==> IsBranch(DeleteCatching(hs, p, rep)[i].ins) == IsBranch(hs[i + 1].ins)
  {
    var kept := hs[..p] + hs[p + 1..];
    assert forall i :: 0 <= i < p ==> kept[i] == hs[i];
    assert forall i :: p <= i < |hs| - 1 ==> kept[i] == hs[i + 1];
  }

  /** After a catching delete with a null replacement, no branch targets the deleted handle. */
  lemma DeleteCatchingCutsOff(hs: seq<Handle>, p: nat)
    requires p < |hs|
    ensures !Targeted(DeleteCatching(hs, p, Null), hs[p].id)
  {
    var r := DeleteCatching(hs, p, Null);
    if Lost(hs, p) {
      forall k | 0 <= k < |r| && IsBranch(r[k].ins)
        ensures r[k].ins.target != At(hs[p].id)
      {
      }
    }
  }

  /**
   * Replacing a known load: the load's position now holds a fresh handle
   * whose push yields the variable's value, branches into the load are
   * cut off (they targeted the load's predecessor, which is null then),
   * and the pool only grows.
   */
  lemma LoadStepReplacesLoad(s: State, q: nat, val: Num)
    requires q < |s.handles| && (val.IntV? || val.LongV?)
    ensures LoadStep(s, q, val).handles[q] == Handle(s.nextId, ConstantLoadFor(val, |s.pool|))
    ensures ExtractConstant(LoadStep(s, q, val).handles[q].ins, LoadStep(s, q, val).pool) == Some(val)
    ensures !Targeted(LoadStep(s, q, val).handles, s.handles[q].id)
    ensures s.pool <= LoadStep(s, q, val).pool
  {
    var hs := s.handles;
    var push := Handle(s.nextId, ConstantLoadFor(val, |s.pool|));
    var c := hs[..q] + [push] + hs[q..];
    assert LoadStep(s, q, val) == State(DeleteCatching(c, q + 1, Null), PoolAfterLoad(s.pool, val), s.nextId + 1);
    assert c[q + 1] == hs[q];
    DeleteCatchingIds(c, q + 1, Null);
    DeleteCatchingCutsOff(c, q + 1);
    ConstantLoadRoundTrip(val, s.pool);
  }

  /**
   * Replacing a known load leaves every other handle with its identity
   * and, unless it is a branch, its instruction.
   */
  lemma LoadStepKeepsOthers(s: State, q: nat, val: Num)
    requires q < |s.handles| && (val.IntV? || val.LongV?)
    ensures forall i :: 0 <= i < |s.handles| && i != q ==> LoadStep(s, q, val).handles[i].id == s.handles[i].id
    ensures forall i :: 0 <= i < |s.handles| && i != q && !IsBranch(s.handles[i].ins) ==> LoadStep(s, q, val).handles[i] == s.handles[i]
    ensures forall i :: 0 <= i < |s.handles| && i != q ==> IsBranch(LoadStep(s, q, val).handles[i].ins) == IsBranch(s.handles[i].ins)
  {
    var hs := s.handles;
    var push := Handle(s.nextId, ConstantLoadFor(val, |s.pool|));
    var c := hs[..q] + [push] + hs[q..];
    var r := DeleteCatching(c, q + 1, Null);
    assert LoadStep(s, q, val).handles == r;
    DeleteCatchingIds(c, q + 1, Null);
    forall i | 0 <= i < |hs| && i != q
      ensures r[i].id == hs[i].id && IsBranch(r[i].ins) == IsBranch(hs[i].ins)
      ensures !IsBranch(hs[i].ins) ==> r[i] == hs[i]
    {
      if i < q {
        assert c[i] == hs[i];
      } else {
        assert c[i + 1] == hs[i];
      }
    }
  }

  /**
   * A fold that loses no target replaces `second`, `first` and the
   * operation by one fresh handle pushing `second op first` wrapped to 32
   * bits; the handles before keep their places, those after move down by
   * two, and no branch targets the operation any more.
   */
  lemma FoldReplacesOperation(s: State, q: nat, a: Int32, b: Int32)
    requires 2 <= q < |s.handles| - 1 && IsIntFold(s.handles[q].ins)
    requires FoldOperand(s.handles[q - 2].ins, s.pool) == Some(a) && FoldOperand(s.handles[q - 1].ins, s.pool) == Some(b)
    requires !(s.handles[q].ins.op == Div && b == 0)
    requires !Lost(s.handles, q - 2) && !Lost(s.handles[..q - 2] + s.handles[q - 1..], q - 2)
    ensures FoldStep(s, q).Next?
    ensures |FoldStep(s, q).s.handles| == |s.handles| - 2
    ensures FoldStep(s, q).s.handles[q - 2].id == s.nextId
    ensures ExtractConstant(FoldStep(s, q).s.handles[q - 2].ins, FoldStep(s, q).s.pool) == Some(IntV(WrapInt(IntegralOp(s.handles[q].ins.op, a, b))))
    ensures !Targeted(FoldStep(s, q).s.handles, s.handles[q].id)
    ensures forall i :: 0 <= i < q - 2 ==> FoldStep(s, q).s.handles[i].id == s.handles[i].id
    ensures forall i :: q - 1 <= i < |s.handles| - 2 ==> FoldStep(s, q).s.handles[i].id == s.handles[i + 2].id
    ensures s.pool <= FoldStep(s, q).s.pool
  {
    var hs := s.handles;
    var res := IntV(WrapInt(IntegralOp(hs[q].ins.op, a, b)));
    var push := Handle(s.nextId, ConstantLoadFor(res, |s.pool|));
    FoldStepIsFolded(s, q, a, b, res, push);
    ReplaceThree(hs, q, push);
    ConstantLoadRoundTrip(res, s.pool);
  }

  /** Without lost targets, the fold's state is the list `Folded` describes with the grown pool. */
  lemma FoldStepIsFolded(s: State, q: nat, a: Int32, b: Int32, res: Num, push: Handle)
    requires 2 <= q < |s.handles| - 1 && IsIntFold(s.handles[q].ins)
    requires FoldOperand(s.handles[q - 2].ins, s.pool) == Some(a) && FoldOperand(s.handles[q - 1].ins, s.pool) == Some(b)
    requires !(s.handles[q].ins.op == Div && b == 0)
    requires !Lost(s.handles, q - 2) && !Lost(s.handles[..q - 2] + s.handles[q - 1..], q - 2)
    requires res == IntV(WrapInt(IntegralOp(s.handles[q].ins.op, a, b)))
    requires push == Handle(s.nextId, ConstantLoadFor(res, |s.pool|))
    ensures FoldStep(s, q) == Next(State(Folded(s.handles, q, push), PoolAfterLoad(s.pool, res), s.nextId + 1), q - 1)
  {
    var hs := s.handles;
    var a1 := hs[..q - 2] + hs[q - 1..];
    var prev := if q >= 3 then At(hs[q - 3].id) else Null;
    assert FoldStep(s, q) == FoldDeletes(s, q, res);
    assert FoldDeletes(s, q, res) == DeleteFirst(a1, q, prev, push, PoolAfterLoad(s.pool, res));
    DeleteFirstFolds(hs, q, prev, push, PoolAfterLoad(s.pool, res));
  }

  /** Deleting at `p` twice deletes the two handles from `p` on. */
  lemma DropTwice(hs: seq<Handle>, p: nat)
    requires p + 1 < |hs|
    ensures (hs[..p] + hs[p + 1..])[..p] + (hs[..p] + hs[p + 1..])[p + 1..] == hs[..p] + hs[p + 2..]
  {
    var a := hs[..p] + hs[p + 1..];
    assert a[..p] == hs[..p];
    assert a[p + 1..] == hs[p + 2..];
  }

  /** When neither deletion loses a target, the fold's last deletion leaves the list `Folded` describes. */
  lemma DeleteFirstFolds(hs: seq<Handle>, q: nat, prev: Ref, push: Handle, pool: seq<PoolEntry>)
    requires 2 <= q < |hs| && !Lost(hs[..q - 2] + hs[q - 1..], q - 2)
    ensures DeleteFirst(hs[..q - 2] + hs[q - 1..], q, prev, push, pool) == Next(State(Folded(hs, q, push), pool, push.id + 1), q - 1)
  {
    var a := hs[..q - 2] + hs[q - 1..];
    var b := a[..q - 2] + a[q - 1..];
    DropTwice(hs, q - 2);
    assert DeleteCatching(a, q - 2, prev) == b;
    assert b[..q - 2] + [push] + b[q - 2..] == hs[..q - 2] + [push] + hs[q..];
  }

  /** The list after the fold's last deletion, seen from the list before the fold. */
  function Folded(hs: seq<Handle>, q: nat, push: Handle): seq<Handle>
    requires 2 <= q < |hs|
  {
    DeleteCatching(hs[..q - 2] + [push] + hs[q..], q - 1, Null)
  }

  /** `second`, `first` and the operation give way to `push`; branches into the operation are cut off. */
  lemma ReplaceThree(hs: seq<Handle>, q: nat, push: Handle)
    requires 2 <= q < |hs| && !IsBranch(push.ins)
    ensures |Folded(hs, q, push)| == |hs| - 2
    ensures Folded(hs, q, push)[q - 2] == push
    ensures !Targeted(Folded(hs, q, push), hs[q].id)
    ensures forall i :: 0 <= i < q - 2 ==> Folded(hs, q, push)[i].id == hs[i].id
    ensures forall i :: q - 1 <= i < |hs| - 2 ==> Folded(hs, q, push)[i].id == hs[i + 2].id
  {
    var c := hs[..q - 2] + [push] + hs[q..];
    assert c[q - 1] == hs[q];
    DeleteCatchingIds(c, q - 1, Null);
    DeleteCatchingCutsOff(c, q - 1);
  }

  /**
   * A visit that does not throw leaves the handle that followed the
   * visited one (`nextHandle`) at the position it reports.
   */
  lemma StepKeepsNext(s: State, m: ConstantVariables, q: nat)
    requires q + 1 < |s.handles| && KnownInts(m) && SweepStep(s, m, q).Next?
    ensures SweepStep(s, m, q).pos < |SweepStep(s, m, q).s.handles|
    ensures SweepStep(s, m, q).s.handles[SweepStep(s, m, q).pos].id == s.handles[q + 1].id
  {
    var hs := s.handles;
    var ins := hs[q].ins;
    if ins.Load? && ins.index in m {
      var val := m[ins.index].value;
      DeleteCatchingIds(hs[..q] + [Handle(s.nextId, ConstantLoadFor(val, |s.pool|))] + hs[q..], q + 1, Null);
    } else if ins.Arith? && IsIntFold(ins) && q >= 2 {
      var val1, val2 := FoldOperand(hs[q - 1].ins, s.pool), FoldOperand(hs[q - 2].ins, s.pool);
      if val1.Some? && val2.Some? && !(ins.op == Div && val1.value == 0) {
        var res := IntV(WrapInt(IntegralOp(ins.op, val2.value, val1.value)));
        assert SweepStep(s, m, q) == FoldDeletes(s, q, res);
        FoldKeepsNext(s, q, res);
      }
    }
  }

  lemma FoldKeepsNext(s: State, q: nat, res: Num)
    requires 2 <= q && q + 1 < |s.handles| && res.IntV?
    ensures FoldDeletes(s, q, res).pos < |FoldDeletes(s, q, res).s.handles|
    ensures FoldDeletes(s, q, res).s.handles[FoldDeletes(s, q, res).pos].id == s.handles[q + 1].id
  {
    if Lost(s.handles, q - 2) {
      FoldKeepsNextLost(s, q, res);
    } else {
      FoldKeepsNextKept(s, q, res);
    }
  }

  lemma FoldKeepsNextLost(s: State, q: nat, res: Num)
    requires 2 <= q && q + 1 < |s.handles| && res.IntV? && Lost(s.handles, q - 2)
    ensures FoldDeletes(s, q, res).pos < |FoldDeletes(s, q, res).s.handles|
    ensures FoldDeletes(s, q, res).s.handles[FoldDeletes(s, q, res).pos].id == s.handles[q + 1].id
  {
    FoldDeletesLost(s, q, res);
    ShiftedId(s.handles, q - 2, At(s.handles[q - 1].id), q);
  }

  lemma FoldKeepsNextKept(s: State, q: nat, res: Num)
    requires 2 <= q && q + 1 < |s.handles| && res.IntV? && !Lost(s.handles, q - 2)
    ensures FoldDeletes(s, q, res).pos < |FoldDeletes(s, q, res).s.handles|
    ensures FoldDeletes(s, q, res).s.handles[FoldDeletes(s, q, res).pos].id == s.handles[q + 1].id
  {
    var hs := s.handles;
    var a := DeleteCatching(hs, q - 2, At(hs[q - 1].id));
    FoldDeletesKept(s, q, res, a);
    assert a[q] == hs[q + 1];
    DeleteFirstKeepsNext(a, q, if q >= 3 then At(hs[q - 3].id) else Null,
                         Handle(s.nextId, ConstantLoadFor(res, |s.pool|)), PoolAfterLoad(s.pool, res));
  }

  /** After a catching delete at `p`, the handle at `i >= p` is the one that was at `i + 1`. */
  lemma ShiftedId(hs: seq<Handle>, p: nat, rep: Ref, i: nat)
    requires p <= i < |hs| - 1
    ensures i < |DeleteCatching(hs, p, rep)| && DeleteCatching(hs, p, rep)[i].id == hs[i + 1].id
  {
    DeleteCatchingIds(hs, p, rep);
  }

  lemma DeleteFirstKeepsNext(a: seq<Handle>, q: nat, prev: Ref, push: Handle, pool: seq<PoolEntry>)
    requires 2 <= q < |a|
    ensures DeleteFirst(a, q, prev, push, pool).pos < |DeleteFirst(a, q, prev, push, pool).s.handles|
    ensures DeleteFirst(a, q, prev, push, pool).s.handles[DeleteFirst(a, q, prev, push, pool).pos].id == a[q].id
  {
    var b := DeleteCatching(a, q - 2, prev);
    ShiftedId(a, q - 2, prev, q - 1);
    if !Lost(a, q - 2) {
      var c := b[..q - 2] + [push] + b[q - 2..];
      assert c[q] == b[q - 1];
      ShiftedId(c, q - 1, Null, q - 1);
    }
  }

  /**
   * The second loop of `optimizeMethod`, which follows handles, not
   * positions: `nextHandle` is taken before the visit and is where the
   * visit continues.
   */
  method ReplaceAndFold(list: InstructionList, pool: ConstantPool, m: ConstantVariables) returns (raised: Option<JavaException>)
    requires list.Valid() && KnownInts(m)
    modifies list, pool
    ensures list.Valid()
    ensures SecondPass(old(Cur(list, pool)), m, 0) == if raised.Some? then Aborted(Cur(list, pool), raised.value) else Finished(Cur(list, pool))
  {
    var handle: Ref := if |list.handles| > 0 then At(list.handles[0].id) else Null;
    ghost var q: nat := 0;
    while handle.At?
      invariant list.Valid() && q <= |list.handles|
      invariant handle.At? <==> q < |list.handles|
      invariant handle.At? ==> handle.id == list.handles[q].id
      invariant SecondPass(Cur(list, pool), m, q) == SecondPass(old(Cur(list, pool)), m, 0)
      decreases |list.handles| - q
    {
      IndexOfAt(list.handles, q);
      var p := IndexOf(list.handles, handle.id);
      var nextHandle: Ref := if p + 1 < |list.handles| then At(list.handles[p + 1].id) else Null;
      ghost var before := Cur(list, pool);
      ghost var step := SweepStep(before, m, p);
      var instruction := list.handles[p].ins;
      if instruction.Load? {
        if instruction.index in m {
          ReplaceLoad(list, pool, p, m[instruction.index].value);
        }
      } else if instruction.Arith? && nextHandle.At? {
        raised := TryFoldConstantOperation(list, pool, p);
        if raised.Some? {
          return;
        }
      }
      assert step.Next? && step.s == Cur(list, pool);
      if nextHandle.At? {
        StepKeepsNext(before, m, p);
      }
      handle := nextHandle;
      q := step.pos;
    }
    raised := None;
  }

  /**
   * The whole of `optimizeMethod` on one method body: the first pass, the
   * second, then `setPositions` and `getMethod`, which throw when a branch
   * was left without a target.
   */
  function Optimized(s: State): (r: PassEnd)
    ensures r.Finished? ==> !Dangling(r.s.handles)
  {
    var m := FirstPass(s.handles, s.pool, |s.handles|);
    FirstPassKnowsInts(s.handles, s.pool);
    match SecondPass(s, m, 0)
    case Aborted(t, e) => Aborted(t, e)
    case Finished(t) => if Dangling(t.handles) then Aborted(t, ClassGen) else Finished(t)
  }

  /**
   * `optimizeMethod`: abstract and native methods, methods without code and
   * methods without an instruction list are left alone; an exception from
   * the second loop, or from writing out a branch that was left without a
   * target, leaves the method unreplaced and the list as it then stands.
   */
  method OptimizeMethod(list: InstructionList?, pool: ConstantPool, isAbstract: bool, isNative: bool, hasCode: bool)
      returns (raised: Option<JavaException>)
    requires list != null ==> list.Valid()
    modifies list, pool
    ensures list != null ==> list.Valid()
    ensures isAbstract || isNative || !hasCode || list == null ==>
      raised.None? && pool.entries == old(pool.entries) && (list != null ==> Cur(list, pool) == old(Cur(list, pool)))
    ensures !(isAbstract || isNative || !hasCode || list == null) ==>
      Optimized(old(Cur(list, pool))) == if raised.Some? then Aborted(Cur(list, pool), raised.value) else Finished(Cur(list, pool))
  {
    if isAbstract || isNative || !hasCode || list == null {
      return None;
    }
    var constantVariables := IdentifyConstantVariables(list, pool);
    FirstPassKnowsInts(list.handles, pool.entries);
    raised := ReplaceAndFold(list, pool, constantVariables);
    if raised.None? && Dangling(list.handles) {
      raised := Some(ClassGen);
    }
  }

  /**
   * In a body without arithmetic instructions the second loop never
   * throws, keeps the length and only adds to the pool.
   */
  lemma {:induction false} SecondPassWithoutArith(s: State, m: ConstantVariables, q: nat)
    requires q <= |s.handles| && KnownInts(m)
    requires forall i :: q <= i < |s.handles| ==> !s.handles[i].ins.Arith?
    ensures SecondPass(s, m, q).Finished?
    ensures |SecondPass(s, m, q).s.handles| == |s.handles|
    ensures s.pool <= SecondPass(s, m, q).s.pool
    decreases |s.handles| - q
  {
    if q < |s.handles| {
      var s1 := VisitWithoutArith(s, m, q);
      SecondPassWithoutArith(s1, m, q + 1);
    }
  }

  /** Without arithmetic, a handle that is neither a branch nor a known load still to be visited stays as it was. */
  lemma {:induction false} SecondPassKeepsHandle(s: State, m: ConstantVariables, q: nat, i: nat)
    requires q <= |s.handles| && KnownInts(m)
    requires forall k :: q <= k < |s.handles| ==> !s.handles[k].ins.Arith?
    requires i < |s.handles| && !IsBranch(s.handles[i].ins) && !(q <= i && KnownLoad(s.handles[i].ins, m))
    ensures i < |SecondPass(s, m, q).s.handles| && SecondPass(s, m, q).s.handles[i] == s.handles[i]
    decreases |s.handles| - q
  {
    SecondPassWithoutArith(s, m, q);
    if q < |s.handles| {
      var s1 := VisitWithoutArith(s, m, q);
      assert s1.handles[i] == s.handles[i];
      SecondPassKeepsHandle(s1, m, q + 1, i);
    }
  }

  /** Without arithmetic, a known load still to be visited ends up pushing its variable's value. */
  lemma {:induction false} SecondPassPushesValue(s: State, m: ConstantVariables, q: nat, i: nat)
    requires q <= |s.handles| && KnownInts(m)
    requires forall k :: q <= k < |s.handles| ==> !s.handles[k].ins.Arith?
    requires q <= i < |s.handles| && KnownLoad(s.handles[i].ins, m)
    ensures i < |SecondPass(s, m, q).s.handles|
    ensures ExtractConstant(SecondPass(s, m, q).s.handles[i].ins, SecondPass(s, m, q).s.pool) == m[s.handles[i].ins.index]
    decreases |s.handles| - q
  {
    if i == q {
      SecondPassPushesHere(s, m, q);
    } else {
      var s1 := PassAfterVisit(s, m, q);
      assert s1.handles[i] == s.handles[i];
      SecondPassPushesValue(s1, m, q + 1, i);
    }
  }

  /** The second loop from `q` is the loop from `q + 1` after the visit at `q`. */
  lemma PassAfterVisit(s: State, m: ConstantVariables, q: nat) returns (s1: State)
    requires q < |s.handles| && KnownInts(m)
    requires forall k :: q <= k < |s.handles| ==> !s.handles[k].ins.Arith?
    ensures |s1.handles| == |s.handles| && SecondPass(s, m, q) == SecondPass(s1, m, q + 1)
    ensures forall k :: q + 1 <= k < |s1.handles| ==> !s1.handles[k].ins.Arith?
    ensures forall k :: 0 <= k < |s.handles| && k != q && !IsBranch(s.handles[k].ins) ==> s1.handles[k] == s.handles[k]
  {
    s1 := VisitWithoutArith(s, m, q);
  }

  /** The load visited first: its push survives the rest of the loop. */
  lemma SecondPassPushesHere(s: State, m: ConstantVariables, q: nat)
    requires q < |s.handles| && KnownInts(m)
    requires forall k :: q <= k < |s.handles| ==> !s.handles[k].ins.Arith?
    requires KnownLoad(s.handles[q].ins, m)
    ensures q < |SecondPass(s, m, q).s.handles|
    ensures ExtractConstant(SecondPass(s, m, q).s.handles[q].ins, SecondPass(s, m, q).s.pool) == m[s.handles[q].ins.index]
  {
    var s1 := VisitWithoutArith(s, m, q);
    assert SecondPass(s, m, q) == SecondPass(s1, m, q + 1);
    SecondPassWithoutArith(s1, m, q + 1);
    SecondPassKeepsHandle(s1, m, q + 1, q);
    var r := SecondPass(s1, m, q + 1).s;
    PushSurvivesGrowth(s1.handles[q].ins, s1.pool, r.pool);
  }

  /**
   * In a method body without arithmetic instructions the second loop
   * never throws, keeps the length, leaves every handle but the known
   * loads and the branches as it was, and turns every load of a known
   * variable into a push of that variable's value.
   */
  lemma SecondPassReplacesLoads(s: State, m: ConstantVariables)
    requires KnownInts(m) && forall k :: 0 <= k < |s.handles| ==> !s.handles[k].ins.Arith?
    ensures SecondPass(s, m, 0).Finished? && |SecondPass(s, m, 0).s.handles| == |s.handles|
    ensures forall i :: 0 <= i < |s.handles| && !IsBranch(s.handles[i].ins) && !KnownLoad(s.handles[i].ins, m) ==>
      SecondPass(s, m, 0).s.handles[i] == s.handles[i]
    ensures forall i :: 0 <= i < |s.handles| && KnownLoad(s.handles[i].ins, m) ==>
      ExtractConstant(SecondPass(s, m, 0).s.handles[i].ins, SecondPass(s, m, 0).s.pool) == m[s.handles[i].ins.index]
  {
    SecondPassWithoutArith(s, m, 0);
    forall i | 0 <= i < |s.handles| && !IsBranch(s.handles[i].ins) && !KnownLoad(s.handles[i].ins, m)
      ensures SecondPass(s, m, 0).s.handles[i] == s.handles[i]
    {
      SecondPassKeepsHandle(s, m, 0, i);
    }
    forall i | 0 <= i < |s.handles| && KnownLoad(s.handles[i].ins, m)
      ensures ExtractConstant(SecondPass(s, m, 0).s.handles[i].ins, SecondPass(s, m, 0).s.pool) == m[s.handles[i].ins.index]
    {
      SecondPassPushesValue(s, m, 0, i);
    }
  }

  lemma PushSurvivesGrowth(ins: Instr, pool: seq<PoolEntry>, grown: seq<PoolEntry>)
    requires pool <= grown && ((ins.Ldc? || ins.Ldc2W?) ==> ins.index < |pool|)
    ensures ExtractConstant(ins, grown) == ExtractConstant(ins, pool)
  {
    ExtractConstantStable(ins, pool, grown[|pool|..]);
    assert pool + grown[|pool|..] == grown;
  }

  /** One visit of a handle that is not an arithmetic instruction. */
  lemma VisitWithoutArith(s: State, m: ConstantVariables, q: nat) returns (s1: State)
    requires q < |s.handles| && KnownInts(m) && !s.handles[q].ins.Arith?
    requires forall i :: q <= i < |s.handles| ==> !s.handles[i].ins.Arith?
    ensures SweepStep(s, m, q) == Next(s1, q + 1)
    ensures |s1.handles| == |s.handles| && s.pool <= s1.pool
    ensures forall i :: q + 1 <= i < |s1.handles| ==> !s1.handles[i].ins.Arith?
    ensures forall i :: 0 <= i < |s.handles| && i != q && !IsBranch(s.handles[i].ins) ==> s1.handles[i] == s.handles[i]
    ensures forall i :: 0 <= i < |s.handles| && i != q ==> IsBranch(s1.handles[i].ins) == IsBranch(s.handles[i].ins)
    ensures !KnownLoad(s.handles[q].ins, m) ==> s1 == s
    ensures KnownLoad(s.handles[q].ins, m) ==> !IsBranch(s1.handles[q].ins)
    ensures KnownLoad(s.handles[q].ins, m) ==> ExtractConstant(s1.handles[q].ins, s1.pool) == m[s.handles[q].ins.index]
    ensures KnownLoad(s.handles[q].ins, m) && (s1.handles[q].ins.Ldc? || s1.handles[q].ins.Ldc2W?) ==> s1.handles[q].ins.index < |s1.pool|
  {
    var ins := s.handles[q].ins;
    s1 := SweepStep(s, m, q).s;
    if KnownLoad(ins, m) {
      LoadStepReplacesLoad(s, q, m[ins.index].value);
      LoadStepKeepsOthers(s, q, m[ins.index].value);
    }
  }

  /** A load of a variable the first pass knows. */
  predicate KnownLoad(ins: Instr, m: ConstantVariables)
  {
    ins.Load? && ins.index in m
  }

  /** Inserting a handle keeps a branch without a target. */
  lemma InsertKeepsDangling(hs: seq<Handle>, q: nat, h: Handle)
    requires q <= |hs| && Dangling(hs)
    ensures Dangling(hs[..q] + [h] + hs[q..])
  {
    var k :| 0 <= k < |hs| && IsBranch(hs[k].ins) && hs[k].ins.target.Null?;
    var c := hs[..q] + [h] + hs[q..];
    assert c[if k < q then k else k + 1] == hs[k];
  }

  /** Deleting a handle that is not a branch keeps a branch without a target. */
  lemma DeleteCatchingKeepsDangling(hs: seq<Handle>, p: nat, rep: Ref)
    requires p < |hs| && !IsBranch(hs[p].ins) && Dangling(hs)
    ensures Dangling(DeleteCatching(hs, p, rep))
  {
    var k :| 0 <= k < |hs| && IsBranch(hs[k].ins) && hs[k].ins.target.Null?;
    var j := if k < p then k else k - 1;
    var kept := hs[..p] + hs[p + 1..];
    assert kept[j] == hs[k];
    var r := DeleteCatching(hs, p, rep);
    if Lost(hs, p) {
      assert r[j] == Handle(kept[j].id, RetargetIns(kept[j].ins, {hs[p].id}, rep));
    }
  }

  /**
   * Replacing a load that a branch targets leaves that branch without a
   * target: the handler rebinds it to the load's predecessor, which
   * `delete` has already unlinked.
   */
  lemma LoadStepDangles(s: State, q: nat, val: Num)
    requires q < |s.handles| && (val.IntV? || val.LongV?) && s.handles[q].ins.Load?
    requires Targeted(s.handles, s.handles[q].id)
    ensures Dangling(LoadStep(s, q, val).handles)
  {
    var hs := s.handles;
    var k :| 0 <= k < |hs| && IsBranch(hs[k].ins) && hs[k].ins.target == At(hs[q].id);
    var c := hs[..q] + [Handle(s.nextId, ConstantLoadFor(val, |s.pool|))] + hs[q..];
    var kept := c[..q + 1] + c[q + 2..];
    assert c[q + 1] == hs[q];
    assert kept[k] == hs[k];
    assert Lost(c, q + 1);
    var r := DeleteCatching(c, q + 1, Null);
    assert r[k].ins == WithTarget(hs[k].ins, Null);
  }

  /** One visit of the second loop keeps a branch without a target. */
  lemma SweepStepKeepsDangling(s: State, m: ConstantVariables, q: nat)
    requires q < |s.handles| && KnownInts(m) && Dangling(s.handles)
    ensures Dangling(SweepStep(s, m, q).s.handles)
  {
    var hs := s.handles;
    var ins := hs[q].ins;
    if ins.Load? && ins.index in m {
      LoadStepKeepsDangling(s, q, m[ins.index].value);
    } else if ins.Arith? && IsIntFold(ins) && q >= 2 && q + 1 < |hs| {
      var val1, val2 := FoldOperand(hs[q - 1].ins, s.pool), FoldOperand(hs[q - 2].ins, s.pool);
      if val1.Some? && val2.Some? && !(ins.op == Div && val1.value == 0) {
        var res := IntV(WrapInt(IntegralOp(ins.op, val2.value, val1.value)));
        assert SweepStep(s, m, q) == FoldDeletes(s, q, res);
        FoldDeletesKeepDangling(s, q, res);
      }
    }
  }

  lemma LoadStepKeepsDangling(s: State, q: nat, val: Num)
    requires q < |s.handles| && (val.IntV? || val.LongV?) && s.handles[q].ins.Load? && Dangling(s.handles)
    ensures Dangling(LoadStep(s, q, val).handles)
  {
    var hs := s.handles;
    var push := Handle(s.nextId, ConstantLoadFor(val, |s.pool|));
    var c := hs[..q] + [push] + hs[q..];
    InsertKeepsDangling(hs, q, push);
    assert c[q + 1] == hs[q];
    DeleteCatchingKeepsDangling(c, q + 1, Null);
  }

  /** The fold's deletions remove only the operands and the operation, none of them a branch. */
  lemma FoldDeletesKeepDangling(s: State, q: nat, res: Num)
    requires 2 <= q < |s.handles| && res.IntV? && Dangling(s.handles)
    requires !IsBranch(s.handles[q - 2].ins) && !IsBranch(s.handles[q - 1].ins) && !IsBranch(s.handles[q].ins)
    ensures Dangling(FoldDeletes(s, q, res).s.handles)
  {
    var hs := s.handles;
    var a := DeleteCatching(hs, q - 2, At(hs[q - 1].id));
    DeleteCatchingKeepsDangling(hs, q - 2, At(hs[q - 1].id));
    if !Lost(hs, q - 2) {
      FoldDeletesKept(s, q, res, a);
      assert a[q - 2] == hs[q - 1] && a[q - 1] == hs[q];
      DeleteFirstKeepsDangling(a, q, if q >= 3 then At(hs[q - 3].id) else Null,
                               Handle(s.nextId, ConstantLoadFor(res, |s.pool|)), PoolAfterLoad(s.pool, res));
    }
  }

  lemma DeleteFirstKeepsDangling(a: seq<Handle>, q: nat, prev: Ref, push: Handle, pool: seq<PoolEntry>)
    requires 2 <= q <= |a| && Dangling(a) && !IsBranch(a[q - 2].ins) && !IsBranch(a[q - 1].ins)
    ensures Dangling(DeleteFirst(a, q, prev, push, pool).s.handles)
  {
    var b := DeleteCatching(a, q - 2, prev);
    DeleteCatchingKeepsDangling(a, q - 2, prev);
    if !Lost(a, q - 2) {
      DeleteCatchingIds(a, q - 2, prev);
      assert b[q - 2] == a[q - 1];
      InsertKeepsDangling(b, q - 2, push);
      var c := b[..q - 2] + [push] + b[q - 2..];
      assert c[q - 1] == b[q - 2];
      DeleteCatchingKeepsDangling(c, q - 1, Null);
    }
  }

  /** Once a branch is without a target, the rest of the second loop keeps it so. */
  lemma {:induction false} SecondPassKeepsDangling(s: State, m: ConstantVariables, q: nat)
    requires q <= |s.handles| && KnownInts(m) && Dangling(s.handles)
    ensures Dangling(SecondPass(s, m, q).s.handles)
    decreases |s.handles| - q
  {
    if q < |s.handles| {
      SweepStepKeepsDangling(s, m, q);
      match SweepStep(s, m, q)
      case Stop(s1, e) =>
      case Next(s1, q1) => SecondPassKeepsDangling(s1, m, q1);
    }
  }

  /** `i = 10; while (i < 20) i++;` as javac compiles it; the loop's `goto` targets the load of `i`. */
  function CountingLoop(): seq<Handle>
  {
    [Handle(0, BiPush(10)), Handle(1, Store(VInt, 1)), Handle(2, Load(VInt, 1)), Handle(3, BiPush(20)),
     Handle(4, If(IfIcmpGe, At(7))), Handle(5, IInc(1, 1)), Handle(6, Goto(At(2))), Handle(7, Opaque(false))]
  }

  /** IINC is not a store, so the first pass takes `i` to be 10 throughout. */
  lemma CountingLoopKnowsCounter()
    ensures 1 in FirstPass(CountingLoop(), [], 8) && FirstPass(CountingLoop(), [], 8)[1] == Some(IntV(10))
  {
    var hs := CountingLoop();
    FirstPassKeepsBipushStores(hs, [], 8, 1);
    assert LastStoreTo(hs, 1, 1, 8) by {
      forall k | 1 < k < 8 ensures !StoresTo(hs[k].ins, 1) {
        assert k in {2, 3, 4, 5, 6, 7};
      }
    }
  }

  /** The second loop passes the push and the store, then replaces the load of `i`. */
  lemma CountingLoopFirstVisits(m: ConstantVariables)
    requires KnownInts(m) && 1 in m && m[1] == Some(IntV(10))
    ensures SecondPass(State(CountingLoop(), [], 8), m, 0) == SecondPass(LoadStep(State(CountingLoop(), [], 8), 2, IntV(10)), m, 3)
  {
    var s := State(CountingLoop(), [], 8);
    assert SweepStep(s, m, 0) == Next(s, 1);
    assert SweepStep(s, m, 1) == Next(s, 2);
    assert SweepStep(s, m, 2) == Next(LoadStep(s, 2, IntV(10)), 3);
  }

  /** The rest of the loop holds no arithmetic, so it finishes. */
  lemma CountingLoopAfterLoadFinishes(m: ConstantVariables)
    requires KnownInts(m)
    ensures SecondPass(LoadStep(State(CountingLoop(), [], 8), 2, IntV(10)), m, 3).Finished?
  {
    var s := State(CountingLoop(), [], 8);
    var s3 := LoadStep(s, 2, IntV(10));
    LoadStepKeepsOthers(s, 2, IntV(10));
    forall i | 3 <= i < |s3.handles| ensures !s3.handles[i].ins.Arith? {
      assert i in {3, 4, 5, 6, 7};
    }
    SecondPassWithoutArith(s3, m, 3);
  }

  /** The `goto` back to the replaced load is left without a target, and stays so. */
  lemma CountingLoopAfterLoadDangles(m: ConstantVariables)
    requires KnownInts(m)
    ensures Dangling(SecondPass(LoadStep(State(CountingLoop(), [], 8), 2, IntV(10)), m, 3).s.handles)
  {
    var s := State(CountingLoop(), [], 8);
    assert s.handles[6].ins.target == At(s.handles[2].id);
    LoadStepDangles(s, 2, IntV(10));
    SecondPassKeepsDangling(LoadStep(s, 2, IntV(10)), m, 3);
  }

  /**
   * Optimising the counting loop: the load the loop jumps back to is
   * replaced, the `goto` is left without a target, and writing the method
   * out throws, so the method is never replaced.
   */
  lemma CountingLoopAborts()
    ensures Optimized(State(CountingLoop(), [], 8)) == Aborted(Optimized(State(CountingLoop(), [], 8)).s, ClassGen)
  {
    var s := State(CountingLoop(), [], 8);
    var m := FirstPass(s.handles, [], 8);
    CountingLoopKnowsCounter();
    FirstPassKnowsInts(s.handles, []);
    CountingLoopFirstVisits(m);
    CountingLoopAfterLoadFinishes(m);
    CountingLoopAfterLoadDangles(m);
  }
}
