/**
 * `Optimiser.optimiseMethod(method, iteration)`, the entry point every
 * iterated pass shares: a method without an instruction list is returned
 * as it is; otherwise the pass's own `optimiseMethod` runs on the list.
 */
module Driver {
  import opened Bytecode
  import opened Optimiser
  import SimpleFolder
  import ConstantPropagator

  /** The two passes that extend `Optimiser`. */
  datatype Pass = SimpleFolding | Propagation

  /**
   * What `optimiseMethod` gives back: the method it was given, a method
   * regenerated from the edited list, or null when the pass changed
   * nothing. `Halted` is a step that throws or that the model cannot
   * evaluate.
   */
  datatype MethodResult = Original | Regenerated | NoMethod | Halted(outcome: Outcome)

  /** The simple folder returns the regenerated method only when some rewrite happened. */
  function FoldingResult(o: Outcome): (r: MethodResult)
    ensures r == Regenerated <==> o == Rewritten
    ensures r == NoMethod <==> o == Declined
    ensures r.Halted? <==> o.Raised? || o.Unmodelled?
  {
    match o
    case Rewritten => Regenerated
    case Declined => NoMethod
    case _ => Halted(o)
  }

  method OptimiseMethod(pass: Pass, list: InstructionList?, pool: ConstantPool, propagator: ConstantPropagator.Propagator)
      returns (r: MethodResult)
    requires list != null ==> list.Valid() && Closed(list.handles)
    modifies list, pool, propagator
    ensures list != null ==> list.Valid()
    ensures list == null ==> r == Original && pool.entries == old(pool.entries)
    ensures list != null && pass == SimpleFolding ==>
      var plan := SimpleFolder.SweepPlan(old(list.handles), old(pool.entries), 0);
      r == FoldingResult(SimpleFolder.SweepOutcome(plan))
      && list.handles == SimpleFolder.PlannedList(old(list.handles), plan, old(list.nextId))
      && pool.entries == SimpleFolder.PlannedPool(old(pool.entries), plan)
    ensures list != null && pass == Propagation ==>
      (r == Regenerated <==> ConstantPropagator.FirstPropagation(old(list.handles), old(pool.entries), 0).Some?)
      && (r == NoMethod <==> ConstantPropagator.FirstPropagation(old(list.handles), old(pool.entries), 0).None?)
      && list.handles == ConstantPropagator.PropagatedList(old(list.handles), old(pool.entries), old(list.nextId))
      && pool.entries == ConstantPropagator.PropagatedPool(old(list.handles), old(pool.entries))
  {
    if list == null {
      return Original;
    }
    match pass
    case SimpleFolding =>
      var outcome := SimpleFolder.OptimiseMethod(list, pool);
      r := FoldingResult(outcome);
    case Propagation =>
      var performed := propagator.OptimiseMethod(list, pool);
      r := if performed then Regenerated else NoMethod;
  }
}
