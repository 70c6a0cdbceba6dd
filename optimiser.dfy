/**
 * The instruction list every pass edits, and the deletion helpers all the
 * passes share.
 *
 * BCEL's list is a doubly linked list of handles; here it is the sequence
 * of its handles in order. Deleting handles that a remaining branch still
 * targets raises BCEL's `TargetLostException`, which lists those handles;
 * the optimiser then points the branches at a replacement handle.
 */
module Optimiser {
  import opened Bytecode

  /** `ins` pointed at `r` when it is a branch into `lost`, unchanged otherwise. */
  function RetargetIns(ins: Instr, lost: set<nat>, r: Ref): Instr
  {
    if IsBranch(ins) && ins.target.At? && ins.target.id in lost then WithTarget(ins, r) else ins
  }

  /** Every branch into `lost` now targets `r`; nothing else changes. */
  function Retarget(hs: seq<Handle>, lost: set<nat>, r: Ref): (res: seq<Handle>)
    ensures |res| == |hs|
    ensures forall i {:trigger res[i]} :: 0 <= i < |hs| ==> res[i] == Handle(hs[i].id, RetargetIns(hs[i].ins, lost, r))
  {
    if hs == [] then [] else [Handle(hs[0].id, RetargetIns(hs[0].ins, lost, r))] + Retarget(hs[1..], lost, r)
  }

  /** The handles whose identities are not in `gone`, in their order. */
  function Remove(hs: seq<Handle>, gone: set<nat>): seq<Handle>
  {
    if hs == [] then []
    else if hs[0].id in gone then Remove(hs[1..], gone)
    else [hs[0]] + Remove(hs[1..], gone)
  }

  /**
   * The list after the optimiser's `attemptDelete` of the handles `gone`:
   * they are removed and, when there is a replacement, the branches that
   * targeted them target the replacement. Without one, those branches are
   * left dangling.
   */
  function Excise(hs: seq<Handle>, gone: set<nat>, replacement: Ref): seq<Handle>
  {
    if replacement.At? then Retarget(Remove(hs, gone), gone, replacement) else Remove(hs, gone)
  }

  /** The removed handles that a kept branch still targets: the targets of the `TargetLostException`. */
  function LostTargets(kept: seq<Handle>, removed: seq<Handle>): set<nat>
  {
    set h | h in removed && Targeted(kept, h.id) :: h.id
  }

  lemma {:induction false} RemoveConcat(a: seq<Handle>, b: seq<Handle>, gone: set<nat>)
    ensures Remove(a + b, gone) == Remove(a, gone) + Remove(b, gone)
  {
    if a != [] {
      assert (a + b)[0] == a[0];
      assert (a + b)[1..] == a[1..] + b;
      RemoveConcat(a[1..], b, gone);
      if a[0].id in gone {
        assert Remove(a + b, gone) == Remove(a[1..] + b, gone);
      } else {
        calc {
          Remove(a + b, gone);
          [a[0]] + Remove(a[1..] + b, gone);
          [a[0]] + (Remove(a[1..], gone) + Remove(b, gone));
          ([a[0]] + Remove(a[1..], gone)) + Remove(b, gone);
        }
      }
    } else {
      assert a + b == b;
    }
  }

  lemma {:induction false} RemoveMembers(hs: seq<Handle>, gone: set<nat>)
    ensures forall h :: h in Remove(hs, gone) <==> h in hs && h.id !in gone
  {
    if hs != [] {
      RemoveMembers(hs[1..], gone);
      assert forall h :: h in hs <==> h == hs[0] || h in hs[1..];
    }
  }

  lemma {:induction false} RemoveDisjoint(hs: seq<Handle>, gone: set<nat>)
    requires forall i :: 0 <= i < |hs| ==> hs[i].id !in gone
    ensures Remove(hs, gone) == hs
  {
    if hs != [] {
      RemoveDisjoint(hs[1..], gone);
      assert [hs[0]] + hs[1..] == hs;
    }
  }

  lemma {:induction false} RemoveCovered(hs: seq<Handle>, gone: set<nat>)
    requires forall i :: 0 <= i < |hs| ==> hs[i].id in gone
    ensures Remove(hs, gone) == []
  {
    if hs != [] {
      RemoveCovered(hs[1..], gone);
    }
  }

  /** With distinct identities, a handle outside a span shares no identity with it. */
  lemma {:induction false} OutsideSpan(hs: seq<Handle>, from: nat, to: nat, i: nat)
    requires DistinctIds(hs) && from <= to <= |hs| && i < |hs| && !(from <= i < to)
    ensures hs[i].id !in IdSet(hs[from..to])
  {
    forall g | g in hs[from..to] ensures g.id != hs[i].id {
      var j :| 0 <= j < to - from && hs[from..to][j] == g;
      assert hs[from + j] == g;
    }
  }

  /** With distinct identities, removing the identities of a span keeps everything before and after it. */
  lemma SpanOutside(hs: seq<Handle>, lo: nat, hi: nat)
    requires DistinctIds(hs) && lo <= hi <= |hs|
    ensures Remove(hs[..lo], IdSet(hs[lo..hi])) == hs[..lo]
    ensures Remove(hs[hi..], IdSet(hs[lo..hi])) == hs[hi..]
  {
    var pre, post := hs[..lo], hs[hi..];
    forall k | 0 <= k < |pre| ensures pre[k].id !in IdSet(hs[lo..hi]) {
      OutsideSpan(hs, lo, hi, k);
    }
    forall k | 0 <= k < |post| ensures post[k].id !in IdSet(hs[lo..hi]) {
      OutsideSpan(hs, lo, hi, hi + k);
    }
    RemoveDisjoint(pre, IdSet(hs[lo..hi]));
    RemoveDisjoint(post, IdSet(hs[lo..hi]));
  }

  /** With distinct identities, removing the identities of a span removes exactly that span. */
  lemma {:induction false} RemoveSpan(hs: seq<Handle>, from: nat, to: nat)
    requires DistinctIds(hs) && from <= to <= |hs|
    ensures Remove(hs, IdSet(hs[from..to])) == hs[..from] + hs[to..]
  {
    var gone := IdSet(hs[from..to]);
    var pre, mid, post := hs[..from], hs[from..to], hs[to..];
    SpanOutside(hs, from, to);
    SliceCovered(hs, from, from, to, to);
    RemoveCovered(mid, gone);
    assert hs == (pre + mid) + post;
    RemoveConcat(pre + mid, post, gone);
    RemoveConcat(pre, mid, gone);
    assert Remove(pre + mid, gone) == pre;
  }

  lemma RemoveKeepsDistinct(hs: seq<Handle>, gone: set<nat>)
    requires DistinctIds(hs)
    ensures DistinctIds(Remove(hs, gone))
    ensures IdSet(Remove(hs, gone)) == IdSet(hs) - gone
  {
    RemoveDistinct(hs, gone);
    RemoveMembers(hs, gone);
  }

  lemma {:induction false} RemoveDistinct(hs: seq<Handle>, gone: set<nat>)
    requires DistinctIds(hs)
    ensures DistinctIds(Remove(hs, gone))
  {
    if hs != [] {
      RemoveDistinct(hs[1..], gone);
      RemoveMembers(hs[1..], gone);
      if hs[0].id !in gone {
        var rest := Remove(hs[1..], gone);
        forall j | 0 <= j < |rest| ensures rest[j].id != hs[0].id {
          assert rest[j] in hs[1..];
        }
      }
    }
  }

  lemma RetargetConcat(a: seq<Handle>, b: seq<Handle>, lost: set<nat>, r: Ref)
    ensures Retarget(a + b, lost, r) == Retarget(a, lost, r) + Retarget(b, lost, r)
  {
  }

  /** Retargeting keeps every handle's identity and position. */
  lemma RetargetIds(hs: seq<Handle>, lost: set<nat>, r: Ref)
    ensures |Retarget(hs, lost, r)| == |hs|
    ensures forall i :: 0 <= i < |hs| ==> Retarget(hs, lost, r)[i].id == hs[i].id
    ensures IdSet(Retarget(hs, lost, r)) == IdSet(hs)
    ensures DistinctIds(hs) ==> DistinctIds(Retarget(hs, lost, r))
  {
    var res := Retarget(hs, lost, r);
    forall x | x in IdSet(hs) ensures x in IdSet(res) {
      var h :| h in hs && h.id == x;
      var i :| 0 <= i < |hs| && hs[i] == h;
      assert res[i] in res;
    }
    forall x | x in IdSet(res) ensures x in IdSet(hs) {
      var h :| h in res && h.id == x;
      var i :| 0 <= i < |res| && res[i] == h;
      assert hs[i] in hs;
    }
  }

  lemma {:induction false} RemoveRetarget(hs: seq<Handle>, lost: set<nat>, gone: set<nat>, r: Ref)
    ensures Remove(Retarget(hs, lost, r), gone) == Retarget(Remove(hs, gone), lost, r)
  {
    if hs != [] {
      assert Retarget(hs, lost, r)[1..] == Retarget(hs[1..], lost, r);
      RemoveRetarget(hs[1..], lost, gone, r);
      RetargetConcat([hs[0]], Remove(hs[1..], gone), lost, r);
    }
  }

  lemma {:induction false} RemoveTwice(hs: seq<Handle>, a: set<nat>, b: set<nat>)
    ensures Remove(Remove(hs, a), b) == Remove(hs, a + b)
  {
    if hs != [] {
      RemoveTwice(hs[1..], a, b);
      if hs[0].id !in a {
        RemoveConcat([hs[0]], Remove(hs[1..], a), b);
      }
    }
  }

  lemma RetargetTwice(hs: seq<Handle>, a: set<nat>, b: set<nat>, r: Ref)
    ensures Retarget(Retarget(hs, a, r), b, r) == Retarget(hs, a + b, r)
  {
  }

  /**
   * Two deletions with the same replacement are one deletion of both sets:
   * the handle-by-handle deletions of the passes compose.
   */
  lemma ExciseTwice(hs: seq<Handle>, a: set<nat>, b: set<nat>, r: Ref)
    ensures Excise(Excise(hs, a, r), b, r) == Excise(hs, a + b, r)
  {
    RemoveTwice(hs, a, b);
    if r.At? {
      RemoveRetarget(Remove(hs, a), a, b, r);
      RetargetTwice(Remove(Remove(hs, a), b), a, b, r);
    }
  }

  /**
   * Pointing only the lost targets' branches at the replacement is the same
   * as pointing every branch into the removed handles at it.
   */
  lemma RetargetLostOnly(kept: seq<Handle>, removed: seq<Handle>, r: Ref)
    ensures Retarget(kept, LostTargets(kept, removed), r) == Retarget(kept, IdSet(removed), r)
  {
    forall i | 0 <= i < |kept|
      ensures RetargetIns(kept[i].ins, LostTargets(kept, removed), r) == RetargetIns(kept[i].ins, IdSet(removed), r)
    {
      var ins := kept[i].ins;
      if IsBranch(ins) && ins.target.At? && ins.target.id in IdSet(removed) {
        var h :| h in removed && h.id == ins.target.id;
        assert Targeted(kept, h.id);
      }
    }
  }

  /**
   * Deleting handles with a live replacement outside them keeps the list
   * closed: no branch is left pointing at a removed handle.
   */
  lemma ExciseKeepsClosed(hs: seq<Handle>, gone: set<nat>, x: nat)
    requires DistinctIds(hs) && Closed(hs)
    requires x in IdSet(hs) && x !in gone
    ensures Closed(Excise(hs, gone, At(x)))
  {
    var kept := Remove(hs, gone);
    RemoveKeepsDistinct(hs, gone);
    var res := Retarget(kept, gone, At(x));
    forall k | 0 <= k < |res| && IsBranch(res[k].ins)
      ensures res[k].ins.target.At? && res[k].ins.target.id in IdSet(res)
    {
      assert kept[k] in kept;
      RemoveMembers(hs, gone);
      var i :| 0 <= i < |hs| && hs[i] == kept[k];
      assert IsBranch(hs[i].ins);
      RetargetIds(kept, gone, At(x));
      if hs[i].ins.target.id !in gone {
        assert res[k].ins.target == hs[i].ins.target;
      }
    }
  }

  /** Some handle outside `gone` is a branch into `gone`: deleting `gone` takes its target away. */
  predicate LosesTarget(hs: seq<Handle>, gone: set<nat>)
  {
    exists k | 0 <= k < |hs| ::
      hs[k].id !in gone && IsBranch(hs[k].ins) && hs[k].ins.target.At? && hs[k].ins.target.id in gone
  }

  /**
   * Whether `setPositions(true)` throws once `gone` is deleted from a
   * closed list with the handle `r` as replacement: `r` is not in what
   * remains, and some remaining branch targeted a deleted handle and so
   * now targets `r`.
   */
  predicate DeleteThrows(hs: seq<Handle>, gone: set<nat>, r: nat)
  {
    (r !in IdSet(hs) || r in gone) && LosesTarget(hs, gone)
  }

  /**
   * Deleting `gone` from a closed list keeps it closed exactly when the
   * replacement is a handle that stays, or no remaining branch targeted a
   * deleted handle. Otherwise some branch is left on a handle outside the
   * list: a deleted one, or a replacement that is itself gone.
   */
  lemma ExciseClosedIff(hs: seq<Handle>, gone: set<nat>, r: Ref)
    requires DistinctIds(hs) && Closed(hs)
    ensures Closed(Excise(hs, gone, r)) <==> (r.At? && r.id in IdSet(hs) && r.id !in gone) || !LosesTarget(hs, gone)
  {
    if r.At? && r.id in IdSet(hs) && r.id !in gone {
      ExciseKeepsClosed(hs, gone, r.id);
    } else if LosesTarget(hs, gone) {
      var k :| 0 <= k < |hs| && hs[k].id !in gone && IsBranch(hs[k].ins) && hs[k].ins.target.At? && hs[k].ins.target.id in gone;
      ExciseLeavesOutside(hs, gone, r, k);
    } else {
      ExciseKeepsTargets(hs, gone, r);
    }
  }

  /** The branch at `k` that loses its target ends on a handle outside the list. */
  lemma ExciseLeavesOutside(hs: seq<Handle>, gone: set<nat>, r: Ref, k: nat)
    requires DistinctIds(hs) && !(r.At? && r.id in IdSet(hs) && r.id !in gone)
    requires k < |hs| && hs[k].id !in gone && IsBranch(hs[k].ins) && hs[k].ins.target.At? && hs[k].ins.target.id in gone
    ensures !Closed(Excise(hs, gone, r))
  {
    var kept := Remove(hs, gone);
    var res := Excise(hs, gone, r);
    RemoveMembers(hs, gone);
    assert hs[k] in kept;
    var j :| 0 <= j < |kept| && kept[j] == hs[k];
    ExciseIds(hs, gone, r);
    if r.At? {
      RetargetIds(kept, gone, r);
      assert res[j].ins == WithTarget(hs[k].ins, r);
    }
    assert IsBranch(res[j].ins) && res[j].ins.target.At? ==> res[j].ins.target.id !in IdSet(res);
  }

  /** When no remaining branch targeted a deleted handle, every branch keeps its live target. */
  lemma ExciseKeepsTargets(hs: seq<Handle>, gone: set<nat>, r: Ref)
    requires DistinctIds(hs) && Closed(hs) && !LosesTarget(hs, gone)
    ensures Closed(Excise(hs, gone, r))
  {
    var kept := Remove(hs, gone);
    var res := Excise(hs, gone, r);
    RemoveMembers(hs, gone);
    ExciseIds(hs, gone, r);
    forall j | 0 <= j < |res| && IsBranch(res[j].ins)
      ensures res[j].ins.target.At? && res[j].ins.target.id in IdSet(res)
    {
      assert kept[j] in kept;
      var k :| 0 <= k < |hs| && hs[k] == kept[j];
      assert res[j] == kept[j];
    }
  }

  /**
   * `setPositions(true)`: the branches are checked in list order and the
   * first whose target is not in the list throws, a NullPointerException
   * when there is no target and a ClassGenException otherwise.
   */
  function PositionsCheck(hs: seq<Handle>): Option<JavaException>
  {
    PositionsCheckFrom(hs, 0)
  }

  /** The check of `setPositions(true)` from position `k` on. */
  function PositionsCheckFrom(hs: seq<Handle>, k: nat): Option<JavaException>
    requires k <= |hs|
    decreases |hs| - k
  {
    if k == |hs| then None
    else if IsBranch(hs[k].ins) && hs[k].ins.target.Null? then Some(NullPointer)
    else if IsBranch(hs[k].ins) && hs[k].ins.target.id !in IdSet(hs) then Some(ClassGen)
    else PositionsCheckFrom(hs, k + 1)
  }

  /** `setPositions(true)` passes exactly on a closed list, and otherwise throws one of its two exceptions. */
  lemma PositionsCheckIsClosure(hs: seq<Handle>)
    ensures PositionsCheck(hs).None? <==> Closed(hs)
    ensures PositionsCheck(hs).Some? ==> PositionsCheck(hs).value == NullPointer || PositionsCheck(hs).value == ClassGen
  {
    PositionsCheckFromPasses(hs, 0);
  }

  lemma {:induction false} PositionsCheckFromPasses(hs: seq<Handle>, k: nat)
    requires k <= |hs|
    decreases |hs| - k
    ensures PositionsCheckFrom(hs, k).None? <==>
      forall j :: k <= j < |hs| && IsBranch(hs[j].ins) ==> hs[j].ins.target.At? && hs[j].ins.target.id in IdSet(hs)
    ensures PositionsCheckFrom(hs, k).Some? ==>
      PositionsCheckFrom(hs, k).value == NullPointer || PositionsCheckFrom(hs, k).value == ClassGen
  {
    if k < |hs| {
      PositionsCheckFromPasses(hs, k + 1);
    }
  }

  /** Inserting a handle that is not a branch keeps a closed list closed. */
  lemma InsertKeepsClosed(hs: seq<Handle>, pos: nat, h: Handle)
    requires Closed(hs) && pos <= |hs| && !IsBranch(h.ins)
    ensures Closed(hs[..pos] + [h] + hs[pos..])
  {
    var hs1 := hs[..pos] + [h] + hs[pos..];
    forall x | x in IdSet(hs) ensures x in IdSet(hs1) {
      var k :| 0 <= k < |hs| && hs[k].id == x;
      if k < pos {
        assert hs1[k] == hs[k];
      } else {
        assert hs1[k + 1] == hs[k];
      }
    }
    forall k | 0 <= k < |hs1| && IsBranch(hs1[k].ins)
      ensures hs1[k].ins.target.At? && hs1[k].ins.target.id in IdSet(hs1)
    {
      if k < pos {
        assert hs1[k] == hs[k];
      } else if k > pos {
        assert hs1[k] == hs[k - 1];
      }
    }
  }

  /**
   * What `setPositions(true)` does after an `attemptDelete` of `gone` from
   * a closed list: it passes exactly when the replacement is a handle that
   * stays, or no remaining branch targeted a deleted handle. So a
   * replacement that is itself deleted, or none, makes it throw as soon as
   * a deleted handle was a branch target.
   */
  lemma PositionsAfterDelete(hs: seq<Handle>, gone: set<nat>, r: Ref)
    requires DistinctIds(hs) && Closed(hs)
    ensures PositionsCheck(Excise(hs, gone, r)).None? <==>
      (r.At? && r.id in IdSet(hs) && r.id !in gone) || !LosesTarget(hs, gone)
  {
    ExciseClosedIff(hs, gone, r);
    PositionsCheckIsClosure(Excise(hs, gone, r));
  }

  /** Deleting keeps the other handles' identities distinct and drops exactly the deleted ones. */
  lemma ExciseIds(hs: seq<Handle>, gone: set<nat>, r: Ref)
    requires DistinctIds(hs)
    ensures DistinctIds(Excise(hs, gone, r))
    ensures IdSet(Excise(hs, gone, r)) == IdSet(hs) - gone
  {
    RemoveKeepsDistinct(hs, gone);
    RetargetIds(Remove(hs, gone), gone, r);
  }

  lemma RemoveOne(hs: seq<Handle>, i: nat)
    requires DistinctIds(hs) && i < |hs|
    ensures |Remove(hs, {hs[i].id})| == |hs| - 1
    ensures forall k :: 0 <= k < i ==> Remove(hs, {hs[i].id})[k] == hs[k]
    ensures forall k :: i <= k < |hs| - 1 ==> Remove(hs, {hs[i].id})[k] == hs[k + 1]
  {
    assert hs[i..i + 1] == [hs[i]];
    assert IdSet(hs[i..i + 1]) == {hs[i].id};
    RemoveSpan(hs, i, i + 1);
  }

  /** Deleting one handle shifts every later handle down by one position. */
  lemma ExciseOneShifts(hs: seq<Handle>, i: nat, r: Ref, c: seq<Handle>)
    requires DistinctIds(hs) && i < |hs| && c == Excise(hs, {hs[i].id}, r)
    ensures |c| == |hs| - 1
    ensures forall k :: 0 <= k < i ==> c[k].id == hs[k].id
    ensures forall k :: i <= k < |c| ==> c[k].id == hs[k + 1].id
  {
    var gone := {hs[i].id};
    var rem := Remove(hs, gone);
    RemoveOne(hs, i);
    if r.At? {
      RetargetIds(rem, gone, r);
    } else {
      assert c == rem;
    }
    assert |c| == |rem| && forall k :: 0 <= k < |rem| ==> c[k].id == rem[k].id;
  }

  /** Two lists whose identities agree position by position (with an offset) agree on the identities of a slice. */
  lemma SliceIds(a: seq<Handle>, b: seq<Handle>, off: nat, lo: nat, hi: nat, blo: nat, bhi: nat)
    requires lo <= hi <= |a| && blo == lo + off && bhi == hi + off && bhi <= |b|
    requires forall k :: lo <= k < hi ==> a[k].id == b[k + off].id
    ensures IdSet(a[lo..hi]) == IdSet(b[blo..bhi])
  {
    forall x | x in IdSet(a[lo..hi]) ensures x in IdSet(b[blo..bhi]) {
      var h :| h in a[lo..hi] && h.id == x;
      var k :| 0 <= k < hi - lo && a[lo..hi][k] == h;
      assert b[blo..bhi][k] in b[blo..bhi];
    }
    forall x | x in IdSet(b[blo..bhi]) ensures x in IdSet(a[lo..hi]) {
      var h :| h in b[blo..bhi] && h.id == x;
      var k :| 0 <= k < hi - lo && b[blo..bhi][k] == h;
      assert a[lo..hi][k] in a[lo..hi];
    }
  }

  /** The identities of a concatenation are those of its parts. */
  lemma IdSetConcat(a: seq<Handle>, b: seq<Handle>)
    ensures IdSet(a + b) == IdSet(a) + IdSet(b)
  {
    var c := a + b;
    forall x | x in IdSet(c) ensures x in IdSet(a) + IdSet(b) {
      var k :| 0 <= k < |c| && c[k].id == x;
      if k < |a| {
        assert a[k] == c[k];
      } else {
        assert b[k - |a|] == c[k];
      }
    }
    forall x | x in IdSet(a) + IdSet(b) ensures x in IdSet(c) {
      if x in IdSet(a) {
        var k :| 0 <= k < |a| && a[k].id == x;
        assert c[k] == a[k];
      } else {
        var k :| 0 <= k < |b| && b[k].id == x;
        assert c[|a| + k] == b[k];
      }
    }
  }

  /** The identities of a slice grow by one handle at a time. */
  lemma IdSetExtend(hs: seq<Handle>, lo: nat, hi: nat)
    requires lo <= hi < |hs|
    ensures IdSet(hs[lo..hi + 1]) == IdSet(hs[lo..hi]) + {hs[hi].id}
  {
    assert hs[lo..hi + 1] == hs[lo..hi] + [hs[hi]];
    IdSetConcat(hs[lo..hi], [hs[hi]]);
    assert IdSet([hs[hi]]) == {hs[hi].id} by { assert [hs[hi]][0] == hs[hi]; }
  }

  lemma IdSetPrepend(hs: seq<Handle>, lo: nat, hi: nat)
    requires lo < hi <= |hs|
    ensures IdSet(hs[lo..hi]) == {hs[lo].id} + IdSet(hs[lo + 1..hi])
  {
    assert hs[lo..hi] == [hs[lo]] + hs[lo + 1..hi];
  }

  lemma IdSetSplit(hs: seq<Handle>, a: nat, b: nat, c: nat)
    requires a <= b <= c <= |hs|
    ensures IdSet(hs[a..c]) == IdSet(hs[a..b]) + IdSet(hs[b..c])
  {
    assert hs[a..c] == hs[a..b] + hs[b..c];
    IdSetConcat(hs[a..b], hs[b..c]);
  }

  lemma SliceMember(hs: seq<Handle>, lo: nat, hi: nat, k: nat)
    requires lo <= k < hi <= |hs|
    ensures hs[k].id in IdSet(hs[lo..hi])
  {
    assert hs[lo..hi][k - lo] == hs[k];
  }

  /** With distinct identities, two slices that do not overlap share no identity. */
  lemma DisjointSlices(hs: seq<Handle>, a: nat, b: nat, c: nat, d: nat)
    requires DistinctIds(hs) && a <= b <= c <= d <= |hs|
    ensures IdSet(hs[a..b]) !! IdSet(hs[c..d])
  {
    forall x | x in IdSet(hs[a..b]) ensures x !in IdSet(hs[c..d]) {
      var h :| h in hs[a..b] && h.id == x;
      var j :| 0 <= j < b - a && hs[a..b][j] == h;
      assert hs[a + j] == h;
      OutsideSpan(hs, c, d, a + j);
    }
  }

  lemma RemoveFive(a: seq<Handle>, b: seq<Handle>, c: seq<Handle>, d: seq<Handle>, e: seq<Handle>, gone: set<nat>)
    ensures Remove(a + b + c + d + e, gone)
         == Remove(a, gone) + Remove(b, gone) + Remove(c, gone) + Remove(d, gone) + Remove(e, gone)
  {
    RemoveConcat(a + b + c + d, e, gone);
    RemoveConcat(a + b + c, d, gone);
    RemoveConcat(a + b, c, gone);
    RemoveConcat(a, b, gone);
  }

  /** Every handle of a slice has its identity in the slice's identities. */
  lemma SliceCovered(hs: seq<Handle>, lo: nat, from: nat, to: nat, hi: nat)
    requires lo <= from <= to <= hi <= |hs|
    ensures forall k :: 0 <= k < to - from ==> hs[from..to][k].id in IdSet(hs[lo..hi])
  {
    forall k | 0 <= k < to - from ensures hs[from..to][k].id in IdSet(hs[lo..hi]) {
      assert hs[from..to][k] == hs[lo..hi][from - lo + k];
      assert hs[lo..hi][from - lo + k] in hs[lo..hi];
    }
  }

  lemma FreshOutsideSlice(hs: seq<Handle>, lo: nat, hi: nat, x: nat)
    requires lo <= hi <= |hs| && x !in IdSet(hs)
    ensures x !in IdSet(hs[lo..hi])
  {
    forall h | h in hs[lo..hi] ensures h.id != x {
      var k :| 0 <= k < hi - lo && hs[lo..hi][k] == h;
      assert hs[lo + k] in hs;
    }
  }

  /**
   * Inserting a fresh handle inside a span and then removing the span's
   * identities leaves the fresh handle in the span's place.
   */
  lemma {:induction false} ReplaceSpan(hs: seq<Handle>, lo: nat, at: nat, hi: nat, n: Handle)
    requires DistinctIds(hs) && lo <= at <= hi <= |hs| && n.id !in IdSet(hs)
    ensures Remove(hs[..at] + [n] + hs[at..], IdSet(hs[lo..hi])) == hs[..lo] + [n] + hs[hi..]
  {
    var gone := IdSet(hs[lo..hi]);
    var pre, m1, m2, post := hs[..lo], hs[lo..at], hs[at..hi], hs[hi..];
    var whole := hs[..at] + [n] + hs[at..];
    assert hs[..at] == pre + m1;
    assert hs[at..] == m2 + post;
    assert whole == pre + m1 + [n] + m2 + post;
    RemoveFive(pre, m1, [n], m2, post, gone);
    SpanOutside(hs, lo, hi);
    SubSpanRemoved(hs, lo, lo, at, hi);
    SubSpanRemoved(hs, lo, at, hi, hi);
    FreshKept(hs, lo, hi, n);
    assert Remove(whole, gone) == pre + [] + [n] + [] + post;
  }

  /** Removing the identities of a span removes every part of it. */
  lemma SubSpanRemoved(hs: seq<Handle>, lo: nat, from: nat, to: nat, hi: nat)
    requires lo <= from <= to <= hi <= |hs|
    ensures Remove(hs[from..to], IdSet(hs[lo..hi])) == []
  {
    SliceCovered(hs, lo, from, to, hi);
    RemoveCovered(hs[from..to], IdSet(hs[lo..hi]));
  }

  /** A handle with a fresh identity survives the removal of a span's identities. */
  lemma FreshKept(hs: seq<Handle>, lo: nat, hi: nat, n: Handle)
    requires lo <= hi <= |hs| && n.id !in IdSet(hs)
    ensures Remove([n], IdSet(hs[lo..hi])) == [n]
  {
    FreshOutsideSlice(hs, lo, hi, n.id);
    RemoveDisjoint([n], IdSet(hs[lo..hi]));
  }

  /** Where the branches into deleted handles go: the inserted handle, or an existing one. */
  datatype Rebind = ToInserted | ToHandle(id: nat)

  /**
   * One rewrite: an optional push inserted before position `at` (with the
   * pool entry it names), then deletion of the handles `gone` with their
   * branches rebound.
   */
  datatype Edit = Edit(at: nat, push: Option<Instr>, entry: Option<PoolEntry>, gone: set<nat>, rebind: Rebind)

  function RebindRef(e: Edit, nid: nat): Ref
  {
    if e.rebind.ToInserted? then At(nid) else At(e.rebind.id)
  }

  /** The list after edit `e`, the inserted handle having identity `nid`. */
  function EditedList(hs: seq<Handle>, e: Edit, nid: nat): seq<Handle>
    requires e.at <= |hs|
  {
    var hs1 := if e.push.Some? then hs[..e.at] + [Handle(nid, e.push.value)] + hs[e.at..] else hs;
    Excise(hs1, e.gone, RebindRef(e, nid))
  }

  function EditedPool(pool: seq<PoolEntry>, e: Edit): seq<PoolEntry>
  {
    if e.entry.Some? then pool + [e.entry.value] else pool
  }

  /** BCEL's `InstructionList`. */
  class InstructionList {
    var handles: seq<Handle>
    /** Every identity below `nextId` has been handed out. */
    var nextId: nat

    ghost predicate Valid()
      reads this
    {
      DistinctIds(handles) && forall k :: 0 <= k < |handles| ==> handles[k].id < nextId
    }

    constructor (hs: seq<Handle>)
      requires DistinctIds(hs)
      ensures Valid() && handles == hs
    {
      handles := hs;
      nextId := FreshId(hs);
    }

    /** `insert(handle, ins)`: a new handle for `ins` just before position `pos`. */
    method Insert(pos: nat, ins: Instr) returns (id: nat)
      requires Valid() && pos < |handles|
      modifies this
      ensures Valid()
      ensures id == old(nextId) && nextId == id + 1 && id !in old(IdSet(handles))
      ensures handles == old(handles[..pos]) + [Handle(id, ins)] + old(handles[pos..])
    {
      id := nextId;
      assert id !in IdSet(handles);
      handles := handles[..pos] + [Handle(id, ins)] + handles[pos..];
      nextId := nextId + 1;
      forall i, j | 0 <= i < j < |handles| ensures handles[i].id != handles[j].id {
        if i != pos && j != pos {
          var i', j' := if i < pos then i else i - 1, if j < pos then j else j - 1;
          assert handles[i] == old(handles[i']) && handles[j] == old(handles[j']);
        } else if i == pos {
          assert old(handles[j - 1]) in old(handles);
        } else {
          assert old(handles[i]) in old(handles);
        }
      }
    }

    /** `append(handle, ins)`: a new handle for `ins` just after position `pos`. */
    method Append(pos: nat, ins: Instr) returns (id: nat)
      requires Valid() && pos < |handles|
      modifies this
      ensures Valid()
      ensures id == old(nextId) && nextId == id + 1 && id !in old(IdSet(handles))
      ensures handles == old(handles[..pos + 1]) + [Handle(id, ins)] + old(handles[pos + 1..])
    {
      if pos + 1 < |handles| {
        id := Insert(pos + 1, ins);
      } else {
        id := nextId;
        assert id !in IdSet(handles);
        handles := handles + [Handle(id, ins)];
        nextId := nextId + 1;
        forall i, j | 0 <= i < j < |handles| ensures handles[i].id != handles[j].id {
          if j == |handles| - 1 {
            assert old(handles[i]) in old(handles);
          }
        }
      }
    }

    /**
     * `delete(from, to)`: unlinks the handles at positions `from` to `to`
     * and returns the targets of the `TargetLostException` (empty when
     * none is thrown). The branches into them are left untouched.
     */
    method Delete(from: nat, to: nat) returns (lost: set<nat>)
      requires Valid() && from <= to < |handles|
      modifies this
      ensures Valid() && nextId == old(nextId)
      ensures handles == old(handles[..from]) + old(handles[to + 1..])
      ensures handles == Remove(old(handles), old(IdSet(handles[from..to + 1])))
      ensures lost == LostTargets(handles, old(handles[from..to + 1]))
    {
      RemoveSpan(handles, from, to + 1);
      RemoveKeepsDistinct(handles, IdSet(handles[from..to + 1]));
      RemoveMembers(handles, IdSet(handles[from..to + 1]));
      var removed := handles[from..to + 1];
      handles := handles[..from] + handles[to + 1..];
      lost := set h | h in removed && Targeted(handles, h.id) :: h.id;
    }

    /**
     * `updateTarget(target, replacement)` on every branch that targets
     * `target`.
     */
    method UpdateTargeters(target: nat, replacement: Ref)
      requires Valid()
      modifies this
      ensures Valid() && nextId == old(nextId)
      ensures handles == Retarget(old(handles), {target}, replacement)
    {
      ghost var goal := Retarget(old(handles), {target}, replacement);
      var k := 0;
      while k < |handles|
        invariant 0 <= k <= |handles| == |old(handles)| == |goal| && nextId == old(nextId)
        invariant forall j :: 0 <= j < k ==> handles[j] == goal[j]
        invariant forall j :: k <= j < |handles| ==> handles[j] == old(handles)[j]
      {
        var h := handles[k];
        if IsBranch(h.ins) && h.ins.target == At(target) {
          handles := handles[k := Handle(h.id, WithTarget(h.ins, replacement))];
        }
        k := k + 1;
      }
      assert handles == goal;
      RetargetIds(old(handles), {target}, replacement);
      forall h | h in handles ensures h.id < nextId {
        var i :| 0 <= i < |handles| && handles[i] == h;
        assert old(handles)[i] in old(handles);
      }
    }
  }

  /** An identity greater than every identity in `hs`. */
  function FreshId(hs: seq<Handle>): (n: nat)
    ensures forall h :: h in hs ==> h.id < n
  {
    if hs == [] then 0
    else
      var rest := FreshId(hs[1..]);
      assert forall h :: h in hs ==> h == hs[0] || h in hs[1..];
      if hs[0].id < rest then rest else hs[0].id + 1
  }

  /**
   * `resetTargets`: with a replacement, every branch into a lost target is
   * pointed at it; without one the optimiser only reports the error.
   */
  method ResetTargets(list: InstructionList, replacement: Ref, lost: set<nat>)
    requires list.Valid()
    modifies list
    ensures list.Valid() && list.nextId == old(list.nextId)
    ensures list.handles == if replacement.At? then Retarget(old(list.handles), lost, replacement) else old(list.handles)
  {
    if replacement.Null? {
      return;
    }
    var left := lost;
    while left != {}
      invariant list.Valid() && list.nextId == old(list.nextId)
      invariant left <= lost
      invariant list.handles == Retarget(old(list.handles), lost - left, replacement)
      decreases left
    {
      var target :| target in left;
      ghost var before := list.handles;
      list.UpdateTargeters(target, replacement);
      RetargetTwice(old(list.handles), lost - left, {target}, replacement);
      left := left - {target};
      assert lost - left == (lost - (left + {target})) + {target};
    }
  }

  /**
   * `attemptDelete(list, handle, replacement)`: a null handle changes
   * nothing; otherwise the handle is removed and, when a replacement is
   * given, the branches into it follow the replacement. Then
   * `setPositions(true)` checks every branch target, and what it throws is
   * `raised`.
   */
  method AttemptDelete(list: InstructionList, handle: Ref, replacement: Ref) returns (raised: Option<JavaException>)
    requires list.Valid()
    requires handle.At? ==> handle.id in IdSet(list.handles)
    modifies list
    ensures list.Valid() && list.nextId == old(list.nextId)
    ensures list.handles == if handle.Null? then old(list.handles) else Excise(old(list.handles), {handle.id}, replacement)
    ensures raised == if handle.Null? then None else PositionsCheck(list.handles)
  {
    if handle.Null? {
      return None;
    }
    var p := IndexOf(list.handles, handle.id);
    assert IdSet(list.handles[p..p + 1]) == {handle.id} by {
      assert list.handles[p..p + 1] == [list.handles[p]];
    }
    DeleteAndReset(list, p, p, replacement);
    raised := PositionsCheck(list.handles);
  }

  /**
   * `attemptDelete(list, from, to, replacement)`: a null end changes
   * nothing; otherwise the handles from `from` to `to` are removed, and
   * `setPositions(true)` follows as in `AttemptDelete`.
   */
  method AttemptDeleteRange(list: InstructionList, from: Ref, to: Ref, replacement: Ref) returns (raised: Option<JavaException>)
    requires list.Valid()
    requires from.At? && to.At? ==>
      from.id in IdSet(list.handles) && to.id in IdSet(list.handles)
      && IndexOf(list.handles, from.id) <= IndexOf(list.handles, to.id)
    modifies list
    ensures list.Valid() && list.nextId == old(list.nextId)
    ensures list.handles ==
      if from.Null? || to.Null? then old(list.handles)
      else Excise(old(list.handles),
                  IdSet(old(list.handles)[IndexOf(old(list.handles), from.id)..IndexOf(old(list.handles), to.id) + 1]),
                  replacement)
    ensures raised == if from.Null? || to.Null? then None else PositionsCheck(list.handles)
  {
    if from.Null? || to.Null? {
      return None;
    }
    var p := IndexOf(list.handles, from.id);
    var q := IndexOf(list.handles, to.id);
    DeleteAndReset(list, p, q, replacement);
    raised := PositionsCheck(list.handles);
  }

  /** The shared body of both `attemptDelete`s: delete, and on a lost target reset the targets. */
  method DeleteAndReset(list: InstructionList, p: nat, q: nat, replacement: Ref)
    requires list.Valid() && p <= q < |list.handles|
    modifies list
    ensures list.Valid() && list.nextId == old(list.nextId)
    ensures list.handles == Excise(old(list.handles), IdSet(old(list.handles)[p..q + 1]), replacement)
  {
    ghost var removed := list.handles[p..q + 1];
    var lost := list.Delete(p, q);
    ghost var kept := list.handles;
    if lost != {} {
      ResetTargets(list, replacement, lost);
    }
    RetargetLostOnly(kept, removed, replacement);
    if lost == {} && replacement.At? {
      assert Retarget(kept, {}, replacement) == kept;
    }
  }
}
