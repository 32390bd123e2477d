/**
 What each statement of the blob store does to the rows, said row by row and without the
 statement itself: which references go, which stay, what the blob's count becomes, and when its
 zero stamp is set, kept or cleared.
 */
module BlobOutcomes {
  import opened Prelude
  import opened BlobTables
  import opened BlobProtocol

  // The count is `n`; the stamp starts when the count reaches zero, survives while it stays
  // there, and goes when the blob is referenced.
  predicate Recounted(row: BlobRow, row': BlobRow, n: nat, now: Time) {
    && row'.size == row.size && row'.refcount == n
    && (n > 0 ==> row'.zeroSince.None?)
    && (n == 0 && row.refcount == 0 ==> row'.zeroSince == row.zeroSince)
    && (n == 0 && row.refcount > 0 ==> row'.zeroSince == Some(now))
  }

  // The rows `gone` are deleted, every other reference is as it was, and only the row of `h` is
  // recounted.
  ghost predicate Loses(t: Tables, t': Tables, h: Hash, gone: RefKey -> bool, now: Time) {
    && (forall k :: k in t'.refs <==> k in t.refs && !gone(k))
    && (forall k | k in t'.refs :: t'.refs[k] == t.refs[k])
    && t'.blobs.Keys == t.blobs.Keys
    && (forall g | g in t.blobs && g != h :: t'.blobs[g] == t.blobs[g])
    && (h in t.blobs ==> Recounted(t.blobs[h], t'.blobs[h], |RefsOf(t'.refs, h)|, now))
  }

  /** Removing a reference deletes that one row. */
  lemma RemoveOutcome(t: Tables, h: Hash, kind: OwnerKind, owner: int, now: Time)
    requires Consistent(t) && h in t.blobs
    ensures Loses(t, Apply(Remove(h, kind, owner), t, now), h, k => k == RefKey(h, kind, owner), now)
  {
    var t' := Apply(Remove(h, kind, owner), t, now);
    assert t'.refs == t.refs - {RefKey(h, kind, owner)};
  }

  ghost function OldPin(t: Tables, h: Hash, cutoff: Time): RefKey -> bool {
    k => k in t.refs && k.hash == h && k.kind == Pin && t.refs[k].createdAt < cutoff
  }

  /** Expiry deletes the blob's pins created before the cutoff: a message, part or draft keeps its
      reference however old it is. */
  lemma ExpireOutcome(t: Tables, h: Hash, cutoff: Time, now: Time)
    requires Consistent(t) && h in t.blobs
    ensures Loses(t, Apply(ExpirePins(h, cutoff), t, now), h, OldPin(t, h, cutoff), now)
    ensures forall k | k in t.refs && k.kind != Pin :: k in Apply(ExpirePins(h, cutoff), t, now).refs
  {
    var t' := Apply(ExpirePins(h, cutoff), t, now);
    if t'.refs == t.refs {
      assert RefsOf(t'.refs, h) == RefsOf(t.refs, h);
    }
  }

  /** Recording a blob that is already there changes nothing; a new one starts unreferenced, its
      grace period running. */
  lemma RecordOutcome(t: Tables, h: Hash, size: nat, now: Time)
    ensures Apply(Record(h, size), t, now).refs == t.refs
    ensures h in t.blobs ==> Apply(Record(h, size), t, now) == t
    ensures h !in t.blobs ==>
              Apply(Record(h, size), t, now).blobs == t.blobs[h := BlobRow(size, 0, Some(now))]
  {
  }

  /** The collector matches exactly the blobs without a reference whose stamp is before the cutoff,
      and deletes that row alone. */
  lemma CollectOutcome(t: Tables, h: Hash, cutoff: Time, now: Time)
    requires Consistent(t)
    ensures Finds(Collect(h, cutoff), t) <==>
              && h in t.blobs && (forall k | k in t.refs :: k.hash != h)
              && t.blobs[h].zeroSince.Some? && t.blobs[h].zeroSince.value < cutoff
    ensures Finds(Collect(h, cutoff), t) ==> Apply(Collect(h, cutoff), t, now) == Tables(t.blobs - {h}, t.refs)
  {
    if h in t.blobs && t.blobs[h].refcount == 0 {
      CollectedHasNoRefs(t, h);
    }
    if h in t.blobs && t.blobs[h].refcount > 0 {
      var k :| k in RefsOf(t.refs, h);
      assert k in t.refs && k.hash == h;
    }
  }

  // ---------------------------------------------------------------------------
  // The grace period is not restarted
  // ---------------------------------------------------------------------------

  // The operation can neither give the blob a reference nor delete its row.
  predicate LeavesIdle(op: Op, h: Hash) {
    !(op.hash == h && (op.Collect? || (op.Add? && op.claims != [])))
  }

  predicate Idle(t: Tables, h: Hash) {
    h in t.blobs && t.blobs[h].refcount == 0
  }

  lemma IdleStep(op: Op, t: Tables, now: Time, h: Hash)
    requires Consistent(t) && Finds(op, t) && Idle(t, h) && LeavesIdle(op, h)
    ensures h in Apply(op, t, now).blobs && Apply(op, t, now).blobs[h] == t.blobs[h]
  {
    CollectedHasNoRefs(t, h);
    if op.hash == h {
      match op
      case Remove(_, kind, owner) =>
        RemoveOutcome(t, h, kind, owner, now);
        assert RefsOf(Apply(op, t, now).refs, h) == {};
      case ExpirePins(_, cutoff) =>
        ExpireOutcome(t, h, cutoff, now);
        assert RefsOf(Apply(op, t, now).refs, h) == {};
      case Add(_, claims) =>
        assert RefsOf(Apply(op, t, now).refs, h) == {};
      case Record(_, _) =>
    }
  }

  lemma {:induction false} IdleAll(ops: seq<Op>, t: Tables, now: Time, h: Hash)
    requires Consistent(t) && Performs(ops, t, now) && Idle(t, h)
    requires forall op | op in ops :: LeavesIdle(op, h)
    ensures h in ApplyAll(ops, t, now).blobs && ApplyAll(ops, t, now).blobs[h] == t.blobs[h]
    decreases |ops|
  {
    if ops != [] {
      assert ops[0] in ops && forall op | op in ops[1..] :: op in ops;
      IdleStep(ops[0], t, now, h);
      ApplyConsistent(ops[0], t, now);
      IdleAll(ops[1..], Apply(ops[0], t, now), now, h);
    }
  }

  // Nothing committed between the two states references the blob or collects it.
  predicate Undisturbed(log: seq<Entry>, from: nat, h: Hash)
    requires from <= |log|
  {
    forall e | e in log[from..] :: forall op | op in e.ops :: LeavesIdle(op, h)
  }

  lemma LogStep(run: seq<State>, i: nat)
    requires IsRun(run) && i + 1 < |run|
    ensures run[i].log <= run[i + 1].log
    ensures run[i + 1].log == run[i].log ==> run[i + 1].db == run[i].db
  {
    assert StepAt(run, i);
  }

  lemma OnlyCommitsLog(s: State, s': State) returns (id: TxId)
    requires Next(s, s') && s'.log != s.log
    ensures Commit(s, s', id)
  {
    id :| TxStep(s, s', id);
  }

  lemma IdleCommit(run: seq<State>, i: nat, h: Hash)
    requires IsRun(run) && i + 1 < |run| && Idle(run[i].db, h)
    requires run[i].log <= run[i + 1].log && Undisturbed(run[i + 1].log, |run[i].log|, h)
    ensures h in run[i + 1].db.blobs && run[i + 1].db.blobs[h] == run[i].db.blobs[h]
  {
    assert StepAt(run, i);
    RunInv(run, i);
    AlwaysConsistent(run, i);
    var s, s' := run[i], run[i + 1];
    if s'.log != s.log {
      var id := OnlyCommitsLog(s, s');
      var tx := s.txs[id];
      CommitIsSerial(s, tx);
      var e := s'.log[|s.log|];
      assert e in s'.log[|s.log|..];
      IdleAll(tx.done, s.db, tx.start, h);
    }
  }

  /** From the moment a blob is unreferenced until something references or collects it, its row,
      and with it the start of its grace period, does not change, whatever else commits: neither a
      second upload of the same bytes nor another removal restarts the wait. */
  lemma {:induction false} StampStays(run: seq<State>, m: nat, n: nat, h: Hash)
    requires IsRun(run) && m <= n < |run| && Idle(run[m].db, h)
    requires run[m].log <= run[n].log ==> Undisturbed(run[n].log, |run[m].log|, h)
    ensures run[m].log <= run[n].log
    ensures h in run[n].db.blobs && run[n].db.blobs[h] == run[m].db.blobs[h]
    decreases n
  {
    if m < n {
      LogGrows(run, m, n - 1);
      LogStep(run, n - 1);
      var was, now := run[n - 1].log, run[n].log;
      assert was[|run[m].log|..] <= now[|run[m].log|..];
      assert forall e | e in was[|run[m].log|..] :: e in now[|run[m].log|..];
      StampStays(run, m, n - 1, h);
      assert forall e | e in now[|was|..] :: e in now[|run[m].log|..];
      IdleCommit(run, n - 1, h);
    }
  }

  lemma {:induction false} LogGrows(run: seq<State>, m: nat, n: nat)
    requires IsRun(run) && m <= n < |run|
    ensures run[m].log <= run[n].log
    decreases n
  {
    if m < n {
      LogGrows(run, m, n - 1);
      LogStep(run, n - 1);
    }
  }
}
