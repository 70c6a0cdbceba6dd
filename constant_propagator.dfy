/**
 * The constant propagator: one sweep over a method's instructions that
 * learns, from every `push; store` pair, the constant a local variable
 * holds, and replaces the first load it safely can with a push of that
 * constant.
 *
 * Positions are list indices. Propagation replaces one handle by one
 * handle, so every handle the sweep visits afterwards is still at the
 * position it had in the snapshot the sweep iterates over.
 */
module ConstantPropagator {
  import opened Bytecode
  import opened Utils
  import opened Optimiser

  /** What `varsByIndex` maps: each local variable to the constant it is known to hold. */
  type KnownConstants = map<nat, Num>

  /**
   * `updateConstantStore(current, next)`: a constant instruction before a
   * store records its value for the stored variable; any other instruction
   * before a store forgets the variable.
   */
  function UpdateConstantStore(facts: KnownConstants, current: Instr, next: Instr, pool: seq<PoolEntry>): (r: KnownConstants)
    requires next.Store?
    ensures next.index in r <==> ExtractConstant(current, pool).Some?
    ensures next.index in r ==> r[next.index] == ExtractConstant(current, pool).value
    ensures forall i :: i != next.index ==> (i in r <==> i in facts) && (i in r ==> r[i] == facts[i])
  {
    match ExtractConstant(current, pool)
    case Some(v) => facts[next.index := v]
    case None => facts - {next.index}
  }

  /** The facts the sweep has gathered from the stores at positions 1 to `n - 1`. */
  function Facts(hs: seq<Handle>, pool: seq<PoolEntry>, n: nat): KnownConstants
    requires n <= |hs|
  {
    if n <= 1 then map[]
    else if hs[n - 1].ins.Store? then UpdateConstantStore(Facts(hs, pool, n - 1), hs[n - 2].ins, hs[n - 1].ins, pool)
    else Facts(hs, pool, n - 1)
  }

  /**
   * The facts the sweep holds when it reaches the handle at `p`: it has
   * looked at the pair that handle starts as well.
   */
  function FactsSeenBy(hs: seq<Handle>, pool: seq<PoolEntry>, p: nat): KnownConstants
    requires p < |hs|
  {
    Facts(hs, pool, if p + 2 <= |hs| then p + 2 else |hs|)
  }

  /** Position `j` holds the last store to `idx` among positions 1 to `n - 1`. */
  predicate LastStore(hs: seq<Handle>, idx: nat, j: nat, n: nat)
    requires n <= |hs|
  {
    0 < j < n && StoresTo(hs[j].ins, idx) && forall m :: j < m < n ==> !StoresTo(hs[m].ins, idx)
  }

  /**
   * A variable is known exactly when its last store (not counting one at
   * the very start, which nothing precedes) follows a constant instruction,
   * and it is known to hold that instruction's constant.
   */
  lemma {:induction false} FactsAreLastStores(hs: seq<Handle>, pool: seq<PoolEntry>, n: nat, idx: nat)
    requires n <= |hs|
    ensures (forall j :: 0 < j < n ==> !StoresTo(hs[j].ins, idx)) ==> idx !in Facts(hs, pool, n)
    ensures forall j :: LastStore(hs, idx, j, n) ==>
      (idx in Facts(hs, pool, n) <==> ExtractConstant(hs[j - 1].ins, pool).Some?)
      && (idx in Facts(hs, pool, n) ==> Some(Facts(hs, pool, n)[idx]) == ExtractConstant(hs[j - 1].ins, pool))
  {
    if n > 1 {
      FactsAreLastStores(hs, pool, n - 1, idx);
      if !StoresTo(hs[n - 1].ins, idx) {
        forall j | LastStore(hs, idx, j, n)
          ensures LastStore(hs, idx, j, n - 1)
        {
        }
      } else {
        forall j | LastStore(hs, idx, j, n)
          ensures j == n - 1
        {
        }
      }
    }
  }

  /** `isGotoTarget`: some goto jumps to the handle `id`. */
  predicate IsGotoTarget(hs: seq<Handle>, id: nat)
  {
    exists k :: 0 <= k < |hs| && hs[k].ins.Goto? && hs[k].ins.target == At(id)
  }

  /** A span of positions: `start` included, `end` excluded. */
  datatype Span = Span(start: nat, end: nat)

  /** The goto at `q` jumps to a position before `p`. */
  predicate BackwardGoto(hs: seq<Handle>, p: nat, q: nat)
    requires Closed(hs) && q < |hs|
  {
    hs[q].ins.Goto? && IndexOf(hs, hs[q].ins.target.id) < p
  }

  /**
   * The loop `isInLoopAndChanges` settles on, looking at positions `q`
   * onward: the span from the target of the last goto that jumps back
   * before `p` up to that goto.
   */
  function LastLoop(hs: seq<Handle>, p: nat, q: nat): (r: Option<Span>)
    requires Closed(hs) && q <= |hs|
    ensures r.Some? ==> r.value.start < p && q <= r.value.end < |hs|
    decreases |hs| - q
  {
    if q == |hs| then None
    else
      var later := LastLoop(hs, p, q + 1);
      if later.Some? then later
      else if BackwardGoto(hs, p, q) then Some(Span(IndexOf(hs, hs[q].ins.target.id), q))
      else None
  }

  /**
   * There is a loop exactly when some goto from `q` on jumps back before
   * `p`; the loop ends at the last such goto and starts at its target.
   */
  lemma {:induction false} LastLoopIsLastBackwardGoto(hs: seq<Handle>, p: nat, q: nat)
    requires Closed(hs) && q <= |hs|
    decreases |hs| - q
    ensures LastLoop(hs, p, q).None? <==> forall m :: q <= m < |hs| ==> !BackwardGoto(hs, p, m)
    ensures LastLoop(hs, p, q).Some? ==>
      BackwardGoto(hs, p, LastLoop(hs, p, q).value.end)
      && LastLoop(hs, p, q).value.start == IndexOf(hs, hs[LastLoop(hs, p, q).value.end].ins.target.id)
      && forall m :: LastLoop(hs, p, q).value.end < m < |hs| ==> !BackwardGoto(hs, p, m)
  {
    if q < |hs| {
      LastLoopIsLastBackwardGoto(hs, p, q + 1);
    }
  }

  /** A store or IINC to `idx`: `LocalVariableInstruction` other than a load. */
  predicate ChangesVariable(ins: Instr, idx: nat)
  {
    (ins.Store? || ins.IInc?) && ins.index == idx
  }

  /** The loop around the load at `p`, if any, changes `idx`. */
  predicate InLoopAndChanges(hs: seq<Handle>, p: nat, idx: nat)
    requires Closed(hs) && p < |hs|
  {
    match LastLoop(hs, p, p + 1)
    case None => false
    case Some(s) => exists i :: s.start <= i < s.end && ChangesVariable(hs[i].ins, idx)
  }

  /**
   * `isInLoopAndChanges`: the first loop finds the last goto after the
   * load that jumps back before it, the second looks between that goto's
   * target and the goto for a change to the variable.
   */
  method IsInLoopAndChanges(list: InstructionList, p: nat, idx: nat) returns (b: bool)
    requires Closed(list.handles) && p < |list.handles|
    ensures b == InLoopAndChanges(list.handles, p, idx)
  {
    var hs := list.handles;
    var inLoop := false;
    var loopStart, loopEnd := -1, -1;
    var q := p + 1;
    while q < |hs|
      invariant p + 1 <= q <= |hs|
      invariant inLoop ==> 0 <= loopStart && 0 <= loopEnd
      invariant LastLoop(hs, p, p + 1) ==
        if LastLoop(hs, p, q).Some? then LastLoop(hs, p, q)
        else if inLoop then Some(Span(loopStart, loopEnd)) else None
      decreases |hs| - q
    {
      if hs[q].ins.Goto? {
        var targetPosition := IndexOf(hs, hs[q].ins.target.id);
        if targetPosition < p {
          inLoop := true;
          loopStart := targetPosition;
          loopEnd := q;
        }
      }
      q := q + 1;
    }
    if !inLoop {
      return false;
    }
    var i := loopStart;
    while i < loopEnd
      invariant loopStart <= i <= loopEnd
      invariant forall j :: loopStart <= j < i ==> !ChangesVariable(hs[j].ins, idx)
    {
      if ChangesVariable(hs[i].ins, idx) {
        return true;
      }
      i := i + 1;
    }
    return false;
  }

  /**
   * The constant `attemptProp` pushes in place of the load at `p`, given
   * the facts it sees; None when it declines.
   */
  function Propagation(hs: seq<Handle>, facts: KnownConstants, p: nat): Option<Num>
    requires Closed(hs) && p < |hs| && hs[p].ins.Load?
  {
    var idx := hs[p].ins.index;
    if IsGotoTarget(hs, hs[p].id) || idx !in facts then None
    else if InLoopAndChanges(hs, p, idx) then None
    else Some(facts[idx])
  }

  /** The sweep's attempt at position `p`: only arithmetic loads are tried. */
  function PropagationAt(hs: seq<Handle>, pool: seq<PoolEntry>, p: nat): Option<Num>
    requires Closed(hs) && p < |hs|
  {
    if IsArithmeticLoadInstruction(hs[p].ins) then Propagation(hs, FactsSeenBy(hs, pool, p), p) else None
  }

  /** A load and the constant pushed in its place. */
  datatype Site = Site(pos: nat, value: Num)

  /** The first propagation at position `k` or later. */
  function FirstPropagation(hs: seq<Handle>, pool: seq<PoolEntry>, k: nat): (r: Option<Site>)
    requires Closed(hs) && k <= |hs|
    ensures r.Some? ==> k <= r.value.pos < |hs|
    decreases |hs| - k
  {
    if k == |hs| then None
    else if PropagationAt(hs, pool, k).Some? then Some(Site(k, PropagationAt(hs, pool, k).value))
    else FirstPropagation(hs, pool, k + 1)
  }

  /**
   * The sweep propagates nowhere exactly when no position allows it, and
   * otherwise at the first position that does, with the constant the
   * facts there give.
   */
  lemma {:induction false} FirstPropagationIsFirst(hs: seq<Handle>, pool: seq<PoolEntry>, k: nat)
    requires Closed(hs) && k <= |hs|
    decreases |hs| - k
    ensures FirstPropagation(hs, pool, k).None? <==> forall j :: k <= j < |hs| ==> PropagationAt(hs, pool, j).None?
    ensures FirstPropagation(hs, pool, k).Some? ==>
      PropagationAt(hs, pool, FirstPropagation(hs, pool, k).value.pos) == Some(FirstPropagation(hs, pool, k).value.value)
      && forall j :: k <= j < FirstPropagation(hs, pool, k).value.pos ==> PropagationAt(hs, pool, j).None?
  {
    if k < |hs| && PropagationAt(hs, pool, k).None? {
      FirstPropagationIsFirst(hs, pool, k + 1);
    }
  }

  /** `append` of the push after the load, then `attemptDelete` of the load, rebinding to the push. */
  function PropagationEdit(hs: seq<Handle>, pool: seq<PoolEntry>, s: Site): Edit
    requires s.pos < |hs|
  {
    Edit(s.pos + 1, Some(PushFor(s.value, |pool|)), Some(PoolEntryFor(s.value)), {hs[s.pos].id}, ToInserted)
  }

  /** The list after the sweep, the push having identity `nid`. */
  function PropagatedList(hs: seq<Handle>, pool: seq<PoolEntry>, nid: nat): seq<Handle>
    requires Closed(hs)
  {
    match FirstPropagation(hs, pool, 0)
    case None => hs
    case Some(s) => EditedList(hs, PropagationEdit(hs, pool, s), nid)
  }

  function PropagatedPool(hs: seq<Handle>, pool: seq<PoolEntry>): seq<PoolEntry>
    requires Closed(hs)
  {
    match FirstPropagation(hs, pool, 0)
    case None => pool
    case Some(s) => EditedPool(pool, PropagationEdit(hs, pool, s))
  }

  /**
   * A propagation keeps the list's length: the push takes the load's
   * place, every branch into the load now targets the push, and the push
   * loads the propagated constant back from the extended pool.
   */
  lemma PropagationReplacesLoad(hs: seq<Handle>, pool: seq<PoolEntry>, s: Site, nid: nat)
    requires DistinctIds(hs) && s.pos < |hs| && nid !in IdSet(hs)
    ensures EditedList(hs, PropagationEdit(hs, pool, s), nid)
         == Retarget(hs[..s.pos] + [Handle(nid, PushFor(s.value, |pool|))] + hs[s.pos + 1..], {hs[s.pos].id}, At(nid))
    ensures |EditedList(hs, PropagationEdit(hs, pool, s), nid)| == |hs|
    ensures ExtractConstant(PushFor(s.value, |pool|), EditedPool(pool, PropagationEdit(hs, pool, s))) == Some(s.value)
  {
    var p := s.pos;
    IdSetOne(hs, p);
    ReplaceSpan(hs, p, p + 1, p + 1, Handle(nid, PushFor(s.value, |pool|)));
    RetargetIds(hs[..p] + [Handle(nid, PushFor(s.value, |pool|))] + hs[p + 1..], {hs[p].id}, At(nid));
    PushRoundTrip(s.value, pool);
  }

  /** The optimiser pass, with the fact map it keeps between handles. */
  class Propagator {
    var varsByIndex: KnownConstants

    constructor ()
      ensures varsByIndex == map[]
    {
      varsByIndex := map[];
    }

    /**
     * `attemptProp` at position `p`: unless the load is a goto target,
     * its variable is unknown, or a loop around it changes the variable,
     * a push of the known constant is appended after the load and the
     * load deleted, its branches following the push.
     */
    method AttemptProp(list: InstructionList, pool: ConstantPool, p: nat) returns (ok: bool)
      requires list.Valid() && Closed(list.handles) && p < |list.handles| && list.handles[p].ins.Load?
      modifies list, pool
      ensures list.Valid() && Closed(list.handles)
      ensures ok <==> Propagation(old(list.handles), varsByIndex, p).Some?
      ensures !ok ==> list.handles == old(list.handles) && pool.entries == old(pool.entries) && list.nextId == old(list.nextId)
      ensures ok ==> list.handles == EditedList(old(list.handles),
                       PropagationEdit(old(list.handles), old(pool.entries), Site(p, varsByIndex[old(list.handles)[p].ins.index])),
                       old(list.nextId))
      ensures ok ==> pool.entries == EditedPool(old(pool.entries),
                       PropagationEdit(old(list.handles), old(pool.entries), Site(p, varsByIndex[old(list.handles)[p].ins.index])))
    {
      var hs := list.handles;
      var variableIndex := hs[p].ins.index;
      if IsGotoTarget(hs, hs[p].id) || variableIndex !in varsByIndex {
        return false;
      }
      var changes := IsInLoopAndChanges(list, p, variableIndex);
      if changes {
        return false;
      }
      var value := varsByIndex[variableIndex];
      ghost var edit := PropagationEdit(hs, pool.entries, Site(p, value));
      ghost var nid := list.nextId;
      var insert := GetConstantPushInstruction(value, pool);
      var newId := list.Append(p, insert);
      ghost var hs1 := list.handles;
      assert hs1 == hs[..p + 1] + [Handle(nid, insert)] + hs[p + 1..];
      assert hs1[p] == hs[p] && hs1[p + 1].id == newId && hs1[p + 1] in hs1;
      InsertKeepsClosed(hs, p + 1, Handle(nid, insert));
      ExciseKeepsClosed(hs1, {hs[p].id}, newId);
      var raised := AttemptDelete(list, At(hs[p].id), At(newId));
      PositionsCheckIsClosure(list.handles);
      assert raised.None?;
      assert list.handles == EditedList(hs, edit, nid);
      return true;
    }

    /**
     * `optimiseMethod`: the facts are reset, then each handle of the
     * snapshot is visited in order; the pair it starts updates the facts,
     * and an arithmetic load is tried until one propagation succeeds (the
     * `||` stops trying after that, while the facts go on being updated).
     */
    method OptimiseMethod(list: InstructionList, pool: ConstantPool) returns (performed: bool)
      requires list.Valid() && Closed(list.handles)
      modifies this, list, pool
      ensures list.Valid() && Closed(list.handles)
      ensures performed <==> FirstPropagation(old(list.handles), old(pool.entries), 0).Some?
      ensures list.handles == PropagatedList(old(list.handles), old(pool.entries), old(list.nextId))
      ensures pool.entries == PropagatedPool(old(list.handles), old(pool.entries))
      ensures !performed ==> varsByIndex == Facts(old(list.handles), old(pool.entries), |old(list.handles)|)
    {
      performed := false;
      varsByIndex := map[];
      var hs := list.handles;
      ghost var entries := pool.entries;
      ghost var nid := list.nextId;
      var k := 0;
      while k < |hs|
        invariant Swept(list, pool, k, hs, entries, nid, performed)
      {
        performed := Visit(list, pool, k, hs, entries, nid, performed);
        k := k + 1;
      }
    }

    /**
     * Where the sweep stands before the handle at `k`: until a propagation
     * succeeds the list and pool are as they were, the facts are those of
     * the pairs seen so far and no earlier position allowed a propagation;
     * after one, the list and pool are its result.
     */
    ghost predicate Swept(list: InstructionList, pool: ConstantPool, k: nat, hs: seq<Handle>, entries: seq<PoolEntry>,
                          nid: nat, performed: bool)
      reads this, list, pool
    {
      k <= |hs| && Closed(hs) && list.Valid() && Closed(list.handles) && |list.handles| == |hs|
      && (!performed ==>
            list.handles == hs && pool.entries == entries && list.nextId == nid
            && varsByIndex == Facts(hs, entries, if k < |hs| then k + 1 else |hs|)
            && FirstPropagation(hs, entries, 0) == FirstPropagation(hs, entries, k))
      && (performed ==>
            FirstPropagation(hs, entries, 0).Some?
            && list.handles == PropagatedList(hs, entries, nid) && pool.entries == PropagatedPool(hs, entries))
    }

    /** One iteration of the sweep: the pair at `k` updates the facts, then the load at `k` is tried. */
    method Visit(list: InstructionList, pool: ConstantPool, k: nat, ghost hs: seq<Handle>, ghost entries: seq<PoolEntry>,
                 ghost nid: nat, performed: bool) returns (after: bool)
      requires k < |hs| && Swept(list, pool, k, hs, entries, nid, performed)
      modifies this, list, pool
      ensures Swept(list, pool, k + 1, hs, entries, nid, after)
      ensures !after ==> varsByIndex == FactsSeenBy(hs, entries, k)
    {
      var instruction := list.handles[k].ins;
      if k + 1 < |list.handles| {
        var nextInstruction := list.handles[k + 1].ins;
        if nextInstruction.Store? {
          varsByIndex := UpdateConstantStore(varsByIndex, instruction, nextInstruction, pool.entries);
        }
      }
      after := performed;
      if IsArithmeticLoadInstruction(instruction) && !performed {
        after := PropagateAt(list, pool, k, hs, entries);
      } else if !performed {
        assert PropagationAt(hs, entries, k).None?;
      }
    }

    /**
     * One attempt of the sweep, with what it means for the sweep: a
     * success is the sweep's propagation, a refusal moves it on.
     */
    method PropagateAt(list: InstructionList, pool: ConstantPool, k: nat, ghost hs: seq<Handle>, ghost entries: seq<PoolEntry>)
        returns (performed: bool)
      requires list.Valid() && list.handles == hs && pool.entries == entries && Closed(hs)
      requires k < |hs| && IsArithmeticLoadInstruction(hs[k].ins)
      requires varsByIndex == FactsSeenBy(hs, entries, k)
      requires FirstPropagation(hs, entries, 0) == FirstPropagation(hs, entries, k)
      modifies list, pool
      ensures list.Valid() && Closed(list.handles) && |list.handles| == |hs|
      ensures !performed ==> list.handles == hs && pool.entries == entries && list.nextId == old(list.nextId)
      ensures !performed ==> FirstPropagation(hs, entries, 0) == FirstPropagation(hs, entries, k + 1)
      ensures performed ==> FirstPropagation(hs, entries, 0).Some?
      ensures performed ==> list.handles == PropagatedList(hs, entries, old(list.nextId))
      ensures performed ==> pool.entries == PropagatedPool(hs, entries)
    {
      ghost var nid := list.nextId;
      performed := AttemptProp(list, pool, k);
      if performed {
        PropagateHere(hs, entries, k, varsByIndex, nid);
      }
    }
  }

  /** A propagation at the first position the sweep tries successfully is the sweep's result. */
  lemma PropagateHere(hs: seq<Handle>, pool: seq<PoolEntry>, k: nat, facts: KnownConstants, nid: nat)
    requires DistinctIds(hs) && Closed(hs) && k < |hs| && IsArithmeticLoadInstruction(hs[k].ins)
    requires forall h :: h in hs ==> h.id < nid
    requires FirstPropagation(hs, pool, 0) == FirstPropagation(hs, pool, k)
    requires facts == FactsSeenBy(hs, pool, k) && Propagation(hs, facts, k).Some?
    ensures FirstPropagation(hs, pool, 0) == Some(Site(k, facts[hs[k].ins.index]))
    ensures |PropagatedList(hs, pool, nid)| == |hs|
  {
    assert FirstPropagation(hs, pool, k) == Some(Site(k, facts[hs[k].ins.index]));
    PropagationReplacesLoad(hs, pool, Site(k, facts[hs[k].ins.index]), nid);
  }
}
