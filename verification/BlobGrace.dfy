/**
 How long a collected blob has been unreferenced.

 The stamp zero_ref_since is the start time of the transaction that dropped the last
 reference, not its commit time, so the collector's grace period is shortened by the
 longest transaction. The bound with the transaction length is proved for every run and
 reached for every grace period and every transaction length, so it is the exact guarantee.
 */
module BlobGrace {
  import opened Prelude
  import opened BlobTables
  import opened BlobProtocol

  predicate Referenced(s: State, h: Hash) {
    RefsOf(s.db.refs, h) != {}
  }

  // No transaction is ever open for longer than d.
  predicate ShortTransactions(run: seq<State>, d: int) {
    forall i, id | 0 <= i < |run| && id in run[i].txs :: run[i].now - run[i].txs[id].start <= d
  }

  // GC computes its cutoff as the clock minus the grace period before it opens the
  // transaction that collects a blob.
  predicate HonestCutoffs(run: seq<State>, grace: int) {
    forall i, id, op | 0 <= i < |run| && id in run[i].txs && op in run[i].txs[id].todo + run[i].txs[id].done
      :: op.Collect? ==> op.cutoff <= run[i].txs[id].start - grace
  }

  lemma ClockMonotone(run: seq<State>, i: nat, j: nat)
    requires IsRun(run) && i <= j < |run|
    ensures run[i].now <= run[j].now
  {
    if i < j {
      ClockMonotone(run, i, j - 1);
      assert StepAt(run, j - 1);
    }
  }

  // ---------------------------------------------------------------------------
  // Where stamps come from, and what it takes to lose a row
  // ---------------------------------------------------------------------------

  /** A zero stamp after an operation was there before, or is the transaction's start. */
  lemma StampOfApply(op: Op, t: Tables, now: Time, h: Hash)
    requires h in Apply(op, t, now).blobs && Apply(op, t, now).blobs[h].zeroSince.Some?
    ensures Apply(op, t, now).blobs[h].zeroSince == Some(now)
            || (h in t.blobs && Apply(op, t, now).blobs[h].zeroSince == t.blobs[h].zeroSince)
  {
  }

  lemma {:induction false} StampOfAll(ops: seq<Op>, t: Tables, now: Time, h: Hash)
    requires h in ApplyAll(ops, t, now).blobs && ApplyAll(ops, t, now).blobs[h].zeroSince.Some?
    ensures ApplyAll(ops, t, now).blobs[h].zeroSince == Some(now)
            || (h in t.blobs && ApplyAll(ops, t, now).blobs[h].zeroSince == t.blobs[h].zeroSince)
    decreases |ops|
  {
    if ops != [] {
      var t' := Apply(ops[0], t, now);
      StampOfAll(ops[1..], t', now, h);
      if ApplyAll(ops, t, now).blobs[h].zeroSince != Some(now) {
        StampOfApply(ops[0], t, now, h);
      }
    }
  }

  /** Only an honest Collect removes a row, so the row carried a stamp older than the grace
      period when the transaction began. */
  lemma {:induction false} LostRowWasOld(ops: seq<Op>, t: Tables, now: Time, grace: int, h: Hash)
    requires grace >= 0
    requires Performs(ops, t, now)
    requires forall op | op in ops :: op.Collect? ==> op.cutoff <= now - grace
    requires h in t.blobs && h !in ApplyAll(ops, t, now).blobs
    ensures t.blobs[h].zeroSince.Some? && t.blobs[h].zeroSince.value < now - grace
    decreases |ops|
  {
    var t' := Apply(ops[0], t, now);
    if h in t'.blobs {
      LostRowWasOld(ops[1..], t', now, grace, h);
      StampOfApply(ops[0], t, now, h);
    }
  }

  // ---------------------------------------------------------------------------
  // The invariant over a run
  // ---------------------------------------------------------------------------

  // Every state seen so far that references h is at most d later than h's stamp.
  predicate StampsCover(run: seq<State>, n: nat, d: int)
    requires n < |run|
  {
    forall h, i | h in run[n].db.blobs && run[n].db.blobs[h].zeroSince.Some? && 0 <= i <= n && Referenced(run[i], h)
      :: run[i].now <= run[n].db.blobs[h].zeroSince.value + d
  }

  lemma UnchangedDb(s: State, s': State)
    requires Next(s, s') && !(exists id :: Commit(s, s', id))
    ensures s'.db == s.db
  {
    if id :| TxStep(s, s', id) {
    }
  }

  lemma StampedIsUnreferenced(run: seq<State>, n: nat, h: Hash)
    requires IsRun(run) && n < |run|
    requires h in run[n].db.blobs && run[n].db.blobs[h].zeroSince.Some?
    ensures !Referenced(run[n], h)
  {
    AlwaysConsistent(run, n);
  }

  lemma {:induction false} StampsCoverRun(run: seq<State>, n: nat, d: int)
    requires IsRun(run) && n < |run| && ShortTransactions(run, d)
    ensures StampsCover(run, n, d)
  {
    if n == 0 {
      forall h | h in run[0].db.blobs && run[0].db.blobs[h].zeroSince.Some?
        ensures !Referenced(run[0], h)
      {
        StampedIsUnreferenced(run, 0, h);
      }
    } else {
      StampsCoverRun(run, n - 1, d);
      forall h, i | h in run[n].db.blobs && run[n].db.blobs[h].zeroSince.Some? && 0 <= i <= n && Referenced(run[i], h)
        ensures run[i].now <= run[n].db.blobs[h].zeroSince.value + d
      {
        StampsCoverStep(run, n, d, h, i);
      }
    }
  }

  lemma CommitEffect(run: seq<State>, n: nat, id: TxId)
    requires IsRun(run) && n + 1 < |run| && Commit(run[n], run[n + 1], id)
    ensures run[n + 1].db == ApplyAll(run[n].txs[id].done, run[n].db, run[n].txs[id].start)
    ensures Performs(run[n].txs[id].done, run[n].db, run[n].txs[id].start)
  {
    RunInv(run, n);
    assert TxOk(run[n], run[n].txs[id]);
    CommitIsSerial(run[n], run[n].txs[id]);
  }

  lemma StampsCoverStep(run: seq<State>, n: nat, d: int, h: Hash, i: nat)
    requires IsRun(run) && 0 < n < |run| && ShortTransactions(run, d) && i <= n
    requires StampsCover(run, n - 1, d)
    requires h in run[n].db.blobs && run[n].db.blobs[h].zeroSince.Some? && Referenced(run[i], h)
    ensures run[i].now <= run[n].db.blobs[h].zeroSince.value + d
  {
    StampedIsUnreferenced(run, n, h);
    var s, s' := run[n - 1], run[n];
    assert StepAt(run, n - 1);
    if i == n {
    } else if id :| Commit(s, s', id) {
      CommitEffect(run, n - 1, id);
      StampOfAll(s.txs[id].done, s.db, s.txs[id].start, h);
      ClockMonotone(run, i, n - 1);
    } else {
      UnchangedDb(s, s');
    }
  }

  /** Whenever the collector's commit deletes a blob row, the blob had no committed reference
      for more than the grace period less the longest transaction. */
  lemma CollectedWasUnreferenced(run: seq<State>, n: nat, grace: int, d: int, h: Hash, i: nat)
    requires IsRun(run) && n + 1 < |run| && grace >= 0
    requires ShortTransactions(run, d) && HonestCutoffs(run, grace)
    requires h in run[n].db.blobs && h !in run[n + 1].db.blobs
    requires i <= n && Referenced(run[i], h)
    ensures run[n].now - run[i].now > grace - d
  {
    var s, s' := run[n], run[n + 1];
    assert StepAt(run, n);
    if !(exists id :: Commit(s, s', id)) {
      UnchangedDb(s, s');
      assert false;
    }
    var id :| Commit(s, s', id);
    var tx := s.txs[id];
    CommitEffect(run, n, id);
    assert forall op | op in tx.done :: op in tx.todo + tx.done;
    LostRowWasOld(tx.done, s.db, tx.start, grace, h);
    StampsCoverRun(run, n, d);
    RunClock(run, n, id);
  }

  lemma {:induction false} RunClock(run: seq<State>, n: nat, id: TxId)
    requires IsRun(run) && n < |run| && id in run[n].txs
    ensures run[n].txs[id].start <= run[n].now
  {
    if n > 0 {
      var s, s' := run[n - 1], run[n];
      assert StepAt(run, n - 1);
      if id in s.txs {
        RunClock(run, n - 1, id);
      }
    }
  }

  // ---------------------------------------------------------------------------
  // The bound is reached: a removal that stays open for d, and the collector right after
  // ---------------------------------------------------------------------------

  const OldKey := RefKey(7, Message, 1)
  const Held := Tables(map[7 := BlobRow(1, 1, None)], map[OldKey := RefRow(1, 0)])
  const Dropped := Tables(map[7 := BlobRow(1, 0, Some(0))], map[])

  lemma HeldFacts()
    ensures Consistent(Held)
    ensures RefsOf(Held.refs, 7) == {OldKey}
    ensures Join(NoRows, Restrict(Held, {7})) == Held
    ensures Publish(Held, {7}, Dropped) == Dropped
    ensures Write(Remove(7, Message, 1), Held, 0) == Held.(refs := map[])
    ensures Settle(Remove(7, Message, 1), true, Held.(refs := map[]), 0) == Dropped
  {
    assert RefsOf(Held.refs, 7) == {OldKey};
    assert Restrict(Held, {7}) == Held;
    assert Held.refs - {OldKey} == map[];
    assert RefsOf(map[], 7) == {};
  }

  lemma DroppedFacts(now: Time)
    ensures Join(NoRows, Restrict(Dropped, {7})) == Dropped
    ensures Publish(Dropped, {7}, NoRows) == NoRows
    ensures Write(Gc, Dropped, now) == NoRows
  {
    assert Restrict(Dropped, {7}) == Dropped;
    assert Dropped.blobs - {7} == map[];
  }

  const Rm := Remove(7, Message, 1)
  const Gc := Collect(7, 1)

  // The removal opens at 0 and commits at d; the collector opens at t with the cutoff 1.
  const S0 := State(0, Held, map[], [])
  const S1 := WithTx(S0, 1, Tx(0, [Rm], Ready, {}, NoRows, []))
  const S2 := WithTx(S1, 1, Tx(0, [Rm], Locked, {7}, Held, []))
  const S3 := WithTx(S2, 1, Tx(0, [Rm], Written(true), {7}, Held.(refs := map[]), []))
  const S4 := WithTx(S3, 1, Tx(0, [], Ready, {7}, Dropped, [Rm]))

  function S5(d: Time): State { S4.(now := d) }
  function S6(d: Time): State { Ended(S5(d), 1).(db := Dropped, log := [Entry(0, [Rm])]) }
  function S7(d: Time, t: Time): State { S6(d).(now := t) }
  function S8(d: Time, t: Time): State { WithTx(S7(d, t), 1, Tx(t, [Gc], Ready, {}, NoRows, [])) }
  function S9(d: Time, t: Time): State { WithTx(S8(d, t), 1, Tx(t, [Gc], Locked, {7}, Dropped, [])) }
  function S10(d: Time, t: Time): State { WithTx(S9(d, t), 1, Tx(t, [Gc], Written(false), {7}, NoRows, [])) }
  function S11(d: Time, t: Time): State { WithTx(S10(d, t), 1, Tx(t, [], Ready, {7}, NoRows, [Gc])) }
  function S12(d: Time, t: Time): State {
    Ended(S11(d, t), 1).(db := NoRows, log := [Entry(0, [Rm]), Entry(t, [Gc])])
  }

  lemma DropSteps()
    ensures Next(S0, S1) && Next(S1, S2) && Next(S2, S3) && Next(S3, S4)
  {
    HeldFacts();
    assert Begin(S0, S1, 1, [Rm]);
    assert Acquire(S1, S2, 1) && TxStep(S1, S2, 1);
    assert DoWrite(S2, S3, 1) && TxStep(S2, S3, 1);
    assert [Rm][1..] == [] && [] + [Rm] == [Rm];
    assert DoSettle(S3, S4, 1) && TxStep(S3, S4, 1);
  }

  lemma WaitSteps(d: Time, t: Time)
    requires 0 <= d <= t
    ensures Next(S4, S5(d)) && Next(S5(d), S6(d)) && Next(S6(d), S7(d, t)) && Next(S7(d, t), S8(d, t))
  {
    HeldFacts();
    assert Tick(S4, S5(d));
    assert Commit(S5(d), S6(d), 1) && TxStep(S5(d), S6(d), 1);
    assert Tick(S6(d), S7(d, t));
    assert Begin(S7(d, t), S8(d, t), 1, [Gc]);
  }

  lemma CollectSteps(d: Time, t: Time)
    ensures Next(S8(d, t), S9(d, t)) && Next(S9(d, t), S10(d, t))
    ensures Next(S10(d, t), S11(d, t)) && Next(S11(d, t), S12(d, t))
  {
    LockToCollect(d, t);
    assert [Gc][1..] == [] && [] + [Gc] == [Gc];
    assert DoSettle(S10(d, t), S11(d, t), 1) && TxStep(S10(d, t), S11(d, t), 1);
    CommitToCollect(d, t);
  }

  lemma CommitToCollect(d: Time, t: Time)
    ensures Next(S11(d, t), S12(d, t))
  {
    DroppedFacts(t);
    var s := S11(d, t);
    assert s.txs[1] == Tx(t, [], Ready, {7}, NoRows, [Gc]) && s.db == Dropped;
    assert s.log + [Entry(t, [Gc])] == [Entry(0, [Rm]), Entry(t, [Gc])];
    assert Commit(s, S12(d, t), 1) && TxStep(s, S12(d, t), 1);
  }

  lemma LockToCollect(d: Time, t: Time)
    ensures Next(S8(d, t), S9(d, t)) && Next(S9(d, t), S10(d, t))
  {
    DroppedFacts(t);
    assert {} + {7} == {7};
    assert Acquire(S8(d, t), S9(d, t), 1) && TxStep(S8(d, t), S9(d, t), 1);
    assert DoWrite(S9(d, t), S10(d, t), 1) && TxStep(S9(d, t), S10(d, t), 1);
  }

  const DropRun := [S0] + [S1] + [S2] + [S3] + [S4]

  function WaitRun(d: Time, t: Time): seq<State> {
    DropRun + [S5(d)] + [S6(d)] + [S7(d, t)] + [S8(d, t)]
  }

  function LongRemoval(d: Time, t: Time): seq<State> {
    WaitRun(d, t) + [S9(d, t)] + [S10(d, t)] + [S11(d, t)] + [S12(d, t)]
  }

  lemma Extend(run: seq<State>, last: State, s: State)
    requires IsRun(run) && run[|run| - 1] == last && Next(last, s)
    ensures IsRun(run + [s]) && (run + [s])[|run|] == s
  {
    forall i | 0 <= i < |run|
      ensures StepAt(run + [s], i)
    {
      assert i == |run| - 1 || StepAt(run, i);
    }
  }

  lemma ExtendFour(run: seq<State>, last: State, a: State, b: State, c: State, d: State)
    requires IsRun(run) && run[|run| - 1] == last
    requires Next(last, a) && Next(a, b) && Next(b, c) && Next(c, d)
    ensures IsRun(run + [a] + [b] + [c] + [d])
  {
    Extend(run, last, a);
    Extend(run + [a], a, b);
    Extend(run + [a] + [b], b, c);
    Extend(run + [a] + [b] + [c], c, d);
  }

  lemma LongRemovalIsRun(d: Time, t: Time)
    requires 0 <= d <= t
    ensures IsRun(LongRemoval(d, t))
  {
    HeldFacts();
    assert IsRun([S0]);
    DropSteps();
    ExtendFour([S0], S0, S1, S2, S3, S4);
    WaitSteps(d, t);
    ExtendFour(DropRun, S4, S5(d), S6(d), S7(d, t), S8(d, t));
    CollectSteps(d, t);
    ExtendFour(WaitRun(d, t), S8(d, t), S9(d, t), S10(d, t), S11(d, t), S12(d, t));
  }

  // What both side conditions ask of one state.
  predicate Proper(s: State, grace: int, d: int) {
    forall id | id in s.txs ::
      && s.now - s.txs[id].start <= d
      && forall op | op in s.txs[id].todo + s.txs[id].done :: op.Collect? ==> op.cutoff <= s.txs[id].start - grace
  }

  lemma EarlyProper(grace: int, d: int, e: Time)
    requires 0 <= e <= d
    ensures forall s | s in [S0, S1, S2, S3, S4, S5(e), S6(e)] :: Proper(s, grace, d)
  {
    assert Proper(S0, grace, d) && Proper(S6(e), grace, d);
    RemovalProper(S1, grace, d, Tx(0, [Rm], Ready, {}, NoRows, []));
    RemovalProper(S2, grace, d, Tx(0, [Rm], Locked, {7}, Held, []));
    RemovalProper(S3, grace, d, Tx(0, [Rm], Written(true), {7}, Held.(refs := map[]), []));
    RemovalProper(S4, grace, d, Tx(0, [], Ready, {7}, Dropped, [Rm]));
    RemovalProper(S5(e), grace, d, Tx(0, [], Ready, {7}, Dropped, [Rm]));
  }

  // A state whose only open transaction is the removal's.
  lemma RemovalProper(s: State, grace: int, d: int, tx: Tx)
    requires s.txs == map[1 := tx] && s.now - tx.start <= d
    requires tx.todo + tx.done == [Rm]
    ensures Proper(s, grace, d)
  {
  }

  lemma LateProper(grace: int, d: int, e: Time)
    requires 0 <= d
    ensures var t := grace + 1;
            forall s | s in [S7(e, t), S8(e, t), S9(e, t), S10(e, t), S11(e, t), S12(e, t)] :: Proper(s, grace, d)
  {
    var t := grace + 1;
    assert Proper(S7(e, t), grace, d) && Proper(S12(e, t), grace, d);
    OpenProper(S8(e, t), grace, d, Tx(t, [Gc], Ready, {}, NoRows, []));
    OpenProper(S9(e, t), grace, d, Tx(t, [Gc], Locked, {7}, Dropped, []));
    OpenProper(S10(e, t), grace, d, Tx(t, [Gc], Written(false), {7}, NoRows, []));
    OpenProper(S11(e, t), grace, d, Tx(t, [], Ready, {7}, NoRows, [Gc]));
  }

  // A state whose only open transaction is the collector's, just begun.
  lemma OpenProper(s: State, grace: int, d: int, tx: Tx)
    requires 0 <= d && s.txs == map[1 := tx] && tx.start == s.now == grace + 1
    requires tx.todo + tx.done == [Gc]
    ensures Proper(s, grace, d)
  {
  }

  lemma LongRemovalIsProper(grace: int, d: int, e: Time)
    requires 0 <= e <= d
    ensures ShortTransactions(LongRemoval(e, grace + 1), d) && HonestCutoffs(LongRemoval(e, grace + 1), grace)
  {
    var run, t := LongRemoval(e, grace + 1), grace + 1;
    var early := [S0, S1, S2, S3, S4, S5(e), S6(e)];
    var late := [S7(e, t), S8(e, t), S9(e, t), S10(e, t), S11(e, t), S12(e, t)];
    EarlyProper(grace, d, e);
    LateProper(grace, d, e);
    assert run == early + late;
    AllProper(run, early, late, grace, d);
  }

  lemma AllProper(run: seq<State>, early: seq<State>, late: seq<State>, grace: int, d: int)
    requires run == early + late
    requires forall s | s in early :: Proper(s, grace, d)
    requires forall s | s in late :: Proper(s, grace, d)
    ensures ShortTransactions(run, d) && HonestCutoffs(run, grace)
  {
    forall i | 0 <= i < |run|
      ensures Proper(run[i], grace, d)
    {
      assert run[i] in early || run[i] in late;
    }
  }

  // At step n of the run a collection commits that deletes h, which state i still referenced.
  predicate CollectsAfter(run: seq<State>, n: nat, i: nat, h: Hash) {
    && n + 1 < |run| && i <= n
    && h in run[n].db.blobs && h !in run[n + 1].db.blobs
    && Referenced(run[i], h)
  }

  lemma LongRemovalCollects(d: Time, t: Time)
    ensures CollectsAfter(LongRemoval(d, t), 11, 5, 7)
    ensures LongRemoval(d, t)[11].now - LongRemoval(d, t)[5].now == t - d
  {
    var run := LongRemoval(d, t);
    assert |run| == 13 && run[5] == S5(d) && run[11] == S11(d, t) && run[12] == S12(d, t);
    assert Referenced(S5(d), 7) by { HeldFacts(); }
  }

  /** However long the grace period and the longest transaction, some run collects a blob exactly
      grace - d + 1 after its last committed reference, or at that very moment if d exceeds grace. */
  lemma GraceAloneIsNotEnough(grace: int, d: int) returns (run: seq<State>, n: nat, i: nat)
    requires grace >= 0 && d >= 0
    ensures IsRun(run) && ShortTransactions(run, d) && HonestCutoffs(run, grace)
    ensures CollectsAfter(run, n, i, 7)
    ensures run[n].now - run[i].now == if d <= grace then grace - d + 1 else 0
  {
    run, n, i := RemoveThenCollect(grace, d, if d <= grace + 1 then d else grace + 1);
  }

  lemma RemoveThenCollect(grace: int, d: int, e: Time) returns (run: seq<State>, n: nat, i: nat)
    requires grace >= 0 && 0 <= e <= d && e <= grace + 1
    ensures IsRun(run) && ShortTransactions(run, d) && HonestCutoffs(run, grace)
    ensures CollectsAfter(run, n, i, 7) && run[n].now - run[i].now == grace + 1 - e
  {
    LongRemovalIsRun(e, grace + 1);
    LongRemovalIsProper(grace, d, e);
    LongRemovalCollects(e, grace + 1);
    run, n, i := LongRemoval(e, grace + 1), 11, 5;
  }

  // In every run the blob has been unreferenced for more than `gap` when it is collected.
  ghost predicate Guarantees(grace: int, d: int, gap: int) {
    forall run: seq<State>, n: nat, i: nat, h: Hash ::
      IsRun(run) && ShortTransactions(run, d) && HonestCutoffs(run, grace) && CollectsAfter(run, n, i, h)
      ==> run[n].now - run[i].now > gap
  }

  /** The exact guarantee: with transactions of at most d, a collected blob has been unreferenced for
      more than `gap` in every run if and only if gap is at most grace - d, or negative. The whole
      grace period is guaranteed only if no transaction takes any time. */
  lemma GraceExact(grace: int, d: int, gap: int)
    requires grace >= 0 && d >= 0
    ensures Guarantees(grace, d, gap) <==> gap <= grace - d || gap < 0
    ensures Guarantees(grace, d, grace) <==> d == 0
  {
    GraceExactAt(grace, d, gap);
    GraceExactAt(grace, d, grace);
  }

  lemma GraceExactAt(grace: int, d: int, gap: int)
    requires grace >= 0 && d >= 0
    ensures Guarantees(grace, d, gap) <==> gap <= grace - d || gap < 0
  {
    if gap <= grace - d || gap < 0 {
      forall run: seq<State>, n: nat, i: nat, h: Hash | IsRun(run) && ShortTransactions(run, d) && HonestCutoffs(run, grace) && CollectsAfter(run, n, i, h)
        ensures run[n].now - run[i].now > gap
      {
        CollectedWasUnreferenced(run, n, grace, d, h, i);
        ClockMonotone(run, i, n);
      }
    } else {
      var run, n, i := GraceAloneIsNotEnough(grace, d);
      assert run[n].now - run[i].now <= gap;
    }
  }
}
