/**
 Concurrent transactions over the blob tables.

 A transaction runs a list of operations. Each one takes the blob's row lock, writes,
 and recomputes; its writes stay private until it commits, and its locks are held until
 it commits or rolls back. A locking read that matches no committed row takes no lock:
 AddRef then fails its transaction and every other operation is skipped. A rollback may
 happen at any point, which also covers statement errors, cancellation and a crash.
 */
module BlobProtocol {
  import opened BlobTables

  type TxId = nat

  datatype Phase = Ready | Locked | Written(changed: bool) | Failed

  datatype Tx = Tx(start: Time, todo: seq<Op>, phase: Phase, held: set<Hash>, work: Tables, done: seq<Op>)

  // One committed transaction: when it started and the operations it performed.
  datatype Entry = Entry(start: Time, ops: seq<Op>)

  datatype State = State(now: Time, db: Tables, txs: map<TxId, Tx>, log: seq<Entry>)

  const NoRows := Tables(map[], map[])

  predicate Free(s: State, id: TxId, h: Hash) {
    forall j | j in s.txs && j != id :: h !in s.txs[j].held
  }

  // What the transaction's locking read of its next operation sees: its own uncommitted
  // rows for a blob it already holds, the committed rows otherwise.
  function Sees(s: State, tx: Tx, h: Hash): Tables {
    if h in tx.held then tx.work else s.db
  }

  // The locking read has to wait for a lock only when it matches a committed row, except
  // for INSERT ... ON CONFLICT, which waits for any holder of the key.
  predicate NeedsLock(s: State, tx: Tx) {
    && tx.phase == Ready && tx.todo != []
    && tx.todo[0].hash !in tx.held
    && Finds(tx.todo[0], s.db)
  }

  function WithTx(s: State, id: TxId, tx: Tx): State {
    s.(txs := s.txs[id := tx])
  }

  function Ended(s: State, id: TxId): State {
    s.(txs := s.txs - {id})
  }

  predicate Begin(s: State, s': State, id: TxId, ops: seq<Op>) {
    id !in s.txs && s' == WithTx(s, id, Tx(s.now, ops, Ready, {}, NoRows, []))
  }

  // SELECT ... FOR UPDATE (or the INSERT of recordBlob) returning a row.
  predicate Acquire(s: State, s': State, id: TxId) {
    && id in s.txs
    && var tx := s.txs[id];
    && tx.phase == Ready && tx.todo != []
    && var h := tx.todo[0].hash;
    && Finds(tx.todo[0], Sees(s, tx, h))
    && if h in tx.held then
         s' == WithTx(s, id, tx.(phase := Locked))
       else
         && Free(s, id, h)
         && s' == WithTx(s, id, tx.(phase := Locked, held := tx.held + {h}, work := Join(tx.work, Restrict(s.db, {h}))))
  }

  // The locking read returned no row: ErrNotFound for AddRef, nothing to do otherwise.
  predicate Miss(s: State, s': State, id: TxId) {
    && id in s.txs
    && var tx := s.txs[id];
    && tx.phase == Ready && tx.todo != []
    && var op := tx.todo[0];
    && !Finds(op, Sees(s, tx, op.hash))
    && s' == WithTx(s, id, if op.Add? then tx.(phase := Failed) else tx.(todo := tx.todo[1..]))
  }

  predicate DoWrite(s: State, s': State, id: TxId) {
    && id in s.txs
    && var tx := s.txs[id];
    && tx.phase == Locked && tx.todo != []
    && var w := Write(tx.todo[0], tx.work, tx.start);
    && s' == WithTx(s, id, tx.(phase := Written(w.refs != tx.work.refs), work := w))
  }

  predicate DoSettle(s: State, s': State, id: TxId) {
    && id in s.txs
    && var tx := s.txs[id];
    && tx.phase.Written? && tx.todo != []
    && var op := tx.todo[0];
    && s' == WithTx(s, id, tx.(phase := Ready, todo := tx.todo[1..], done := tx.done + [op],
                               work := Settle(op, tx.phase.changed, tx.work, tx.start)))
  }

  predicate Commit(s: State, s': State, id: TxId) {
    && id in s.txs
    && var tx := s.txs[id];
    && tx.phase == Ready && tx.todo == []
    && s' == Ended(s, id).(db := Publish(s.db, tx.held, tx.work), log := s.log + [Entry(tx.start, tx.done)])
  }

  predicate Rollback(s: State, s': State, id: TxId) {
    id in s.txs && s' == Ended(s, id)
  }

  predicate Tick(s: State, s': State) {
    s.now <= s'.now && s' == s.(now := s'.now)
  }

  // A step by a transaction that is already open.
  predicate TxStep(s: State, s': State, id: TxId) {
    || Acquire(s, s', id)
    || Miss(s, s', id)
    || DoWrite(s, s', id)
    || DoSettle(s, s', id)
    || Commit(s, s', id)
    || Rollback(s, s', id)
  }

  ghost predicate Next(s: State, s': State) {
    || Tick(s, s')
    || (exists id, ops :: Begin(s, s', id, ops))
    || (exists id :: TxStep(s, s', id))
  }

  predicate Quiet(s: State) {
    s.txs == map[] && s.log == []
  }

  predicate Init(s: State) {
    Consistent(s.db) && Quiet(s)
  }

  ghost predicate StepAt(run: seq<State>, i: nat)
    requires i + 1 < |run|
  {
    Next(run[i], run[i + 1])
  }

  // A run from any tables, consistent or not.
  ghost predicate IsTrace(run: seq<State>) {
    && run != []
    && Quiet(run[0])
    && forall i | 0 <= i < |run| - 1 :: StepAt(run, i)
  }

  ghost predicate IsRun(run: seq<State>) {
    && run != []
    && Init(run[0])
    && forall i | 0 <= i < |run| - 1 :: StepAt(run, i)
  }

  // ---------------------------------------------------------------------------
  // Serial execution, and the invariant tying the protocol to it
  // ---------------------------------------------------------------------------

  function Replay(t: Tables, log: seq<Entry>): Tables {
    if log == [] then t else ApplyAll(log[|log| - 1].ops, Replay(t, log[..|log| - 1]), log[|log| - 1].start)
  }

  predicate Replays(t: Tables, log: seq<Entry>) {
    log == []
    || (Replays(t, log[..|log| - 1])
        && Performs(log[|log| - 1].ops, Replay(t, log[..|log| - 1]), log[|log| - 1].start))
  }

  // The rows a transaction holds, after the operations it has completed.
  function Base(s: State, tx: Tx): Tables {
    ApplyAll(tx.done, Restrict(s.db, tx.held), tx.start)
  }

  predicate TxOk(s: State, tx: Tx) {
    && (forall op | op in tx.done :: op.hash in tx.held)
    && Performs(tx.done, Restrict(s.db, tx.held), tx.start)
    && match tx.phase
       case Ready => tx.work == Base(s, tx)
       case Failed => tx.work == Base(s, tx)
       case Locked =>
         && tx.todo != [] && tx.todo[0].hash in tx.held
         && tx.work == Base(s, tx)
         && Finds(tx.todo[0], tx.work)
       case Written(changed) =>
         && tx.todo != [] && tx.todo[0].hash in tx.held
         && Finds(tx.todo[0], Base(s, tx))
         && tx.work == Write(tx.todo[0], Base(s, tx), tx.start)
         && changed == (tx.work.refs != Base(s, tx).refs)
  }

  predicate LocksExclusive(s: State) {
    forall i, j | i in s.txs && j in s.txs && i != j :: s.txs[i].held !! s.txs[j].held
  }

  predicate Inv(t0: Tables, s: State) {
    && s.db == Replay(t0, s.log)
    && Replays(t0, s.log)
    && LocksExclusive(s)
    && forall id | id in s.txs :: TxOk(s, s.txs[id])
  }

  lemma RestrictSplit(t: Tables, hs: set<Hash>, h: Hash)
    requires h !in hs
    ensures Restrict(t, hs + {h}) == Join(Restrict(t, hs), Restrict(t, {h}))
  {
    var l, r := Restrict(t, hs + {h}), Join(Restrict(t, hs), Restrict(t, {h}));
    assert l.blobs == r.blobs;
    assert l.refs == r.refs;
  }

  // Locking one more blob extends the private rows without touching the others.
  lemma BaseGrows(s: State, tx: Tx, h: Hash)
    requires TxOk(s, tx) && tx.phase == Ready && h !in tx.held
    ensures Base(s, tx.(held := tx.held + {h})) == Join(tx.work, Restrict(s.db, {h}))
    ensures Performs(tx.done, Restrict(s.db, tx.held + {h}), tx.start)
    ensures forall op: Op | op.hash == h :: Finds(op, Join(tx.work, Restrict(s.db, {h}))) <==> Finds(op, s.db)
  {
    RestrictSplit(s.db, tx.held, h);
    ApplyAllJoin(tx.done, Restrict(s.db, tx.held), Restrict(s.db, {h}), tx.held, tx.start);
  }

  lemma AcquireInv(t0: Tables, s: State, s': State, id: TxId)
    requires Inv(t0, s) && Acquire(s, s', id)
    ensures Inv(t0, s')
  {
    var tx, tx' := s.txs[id], s'.txs[id];
    var h := tx.todo[0].hash;
    if h !in tx.held {
      BaseGrows(s, tx, h);
    }
    assert TxOk(s', tx');
    forall j | j in s'.txs && j != id
      ensures TxOk(s', s'.txs[j])
    {
      assert TxOk(s, s.txs[j]);
    }
  }

  // A step that changes one transaction and leaves database, log and locks alone.
  lemma LocalInv(t0: Tables, s: State, s': State, id: TxId, tx': Tx)
    requires Inv(t0, s) && id in s.txs
    requires s' == WithTx(s, id, tx')
    requires tx'.held == s.txs[id].held
    requires TxOk(s, tx')
    ensures Inv(t0, s')
  {
    forall j | j in s'.txs
      ensures TxOk(s', s'.txs[j])
    {
      assert j == id || TxOk(s, s.txs[j]);
    }
  }

  lemma SettleInv(t0: Tables, s: State, s': State, id: TxId)
    requires Inv(t0, s) && DoSettle(s, s', id)
    ensures Inv(t0, s')
  {
    var tx, tx' := s.txs[id], s'.txs[id];
    assert TxOk(s, tx);
    ApplyAllAppend(tx.done, tx.todo[0], Restrict(s.db, tx.held), tx.start);
    LocalInv(t0, s, s', id, tx');
  }

  lemma MissInv(t0: Tables, s: State, s': State, id: TxId)
    requires Inv(t0, s) && Miss(s, s', id)
    ensures Inv(t0, s')
  {
    assert TxOk(s, s.txs[id]);
    LocalInv(t0, s, s', id, s'.txs[id]);
  }

  lemma WriteInv(t0: Tables, s: State, s': State, id: TxId)
    requires Inv(t0, s) && DoWrite(s, s', id)
    ensures Inv(t0, s')
  {
    assert TxOk(s, s.txs[id]);
    LocalInv(t0, s, s', id, s'.txs[id]);
  }

  // Publishing the private rows of a transaction equals running it on the whole tables.
  lemma CommitIsSerial(s: State, tx: Tx)
    requires TxOk(s, tx) && tx.phase == Ready
    ensures Publish(s.db, tx.held, tx.work) == ApplyAll(tx.done, s.db, tx.start)
    ensures Performs(tx.done, s.db, tx.start)
    ensures Within(tx.work, tx.held)
  {
    JoinSplit(s.db, tx.held);
    ApplyAllJoin(tx.done, Restrict(s.db, tx.held), Without(s.db, tx.held), tx.held, tx.start);
    PublishIsJoin(s.db, tx.held, tx.work);
  }

  lemma RestrictUnaffected(t: Tables, w: Tables, mine: set<Hash>, other: set<Hash>)
    requires Within(w, mine) && mine !! other
    ensures Restrict(Publish(t, mine, w), other) == Restrict(t, other)
  {
    var l, r := Restrict(Publish(t, mine, w), other), Restrict(t, other);
    assert l.blobs == r.blobs;
    assert l.refs == r.refs;
  }

  lemma CommitInv(t0: Tables, s: State, s': State, id: TxId)
    requires Inv(t0, s) && Commit(s, s', id)
    ensures Inv(t0, s')
  {
    var tx := s.txs[id];
    CommitIsSerial(s, tx);
    assert s'.log[..|s'.log| - 1] == s.log;
    forall j | j in s'.txs
      ensures TxOk(s', s'.txs[j])
    {
      assert TxOk(s, s.txs[j]);
      RestrictUnaffected(s.db, tx.work, tx.held, s.txs[j].held);
    }
  }

  lemma StepInv(t0: Tables, s: State, s': State)
    requires Inv(t0, s) && Next(s, s')
    ensures Inv(t0, s')
  {
    if Tick(s, s') {
      forall j | j in s'.txs
        ensures TxOk(s', s'.txs[j])
      {
        assert TxOk(s, s.txs[j]);
      }
    } else if id, ops :| Begin(s, s', id, ops) {
      assert Restrict(s.db, {}) == NoRows;
      forall j | j in s'.txs
        ensures TxOk(s', s'.txs[j])
      {
        assert j == id || TxOk(s, s.txs[j]);
      }
    } else {
      var id :| TxStep(s, s', id);
      if Acquire(s, s', id) {
        AcquireInv(t0, s, s', id);
      } else if Miss(s, s', id) {
        MissInv(t0, s, s', id);
      } else if DoWrite(s, s', id) {
        WriteInv(t0, s, s', id);
      } else if DoSettle(s, s', id) {
        SettleInv(t0, s, s', id);
      } else if Commit(s, s', id) {
        CommitInv(t0, s, s', id);
      } else {
        forall j | j in s'.txs
          ensures TxOk(s', s'.txs[j])
        {
          assert TxOk(s, s.txs[j]);
        }
      }
    }
  }

  lemma {:induction false} RunInv(run: seq<State>, n: nat)
    requires IsTrace(run) && n < |run|
    ensures Inv(run[0].db, run[n])
  {
    if n > 0 {
      RunInv(run, n - 1);
      assert StepAt(run, n - 1);
      StepInv(run[0].db, run[n - 1], run[n]);
    }
  }

  lemma {:induction false} ReplayConsistent(t: Tables, log: seq<Entry>)
    requires Consistent(t) && Replays(t, log)
    ensures Consistent(Replay(t, log))
    decreases |log|
  {
    if log != [] {
      var front, last := log[..|log| - 1], log[|log| - 1];
      ReplayConsistent(t, front);
      ApplyAllConsistent(last.ops, Replay(t, front), last.start);
    }
  }

  // ---------------------------------------------------------------------------
  // The main results about every run
  // ---------------------------------------------------------------------------

  /** Lock-first transactions are serializable in commit order: whatever the interleaving,
      the committed tables are those of running the committed transactions one at a time. */
  lemma Serializable(run: seq<State>, n: nat)
    requires IsTrace(run) && n < |run|
    ensures run[n].db == Replay(run[0].db, run[n].log)
    ensures Replays(run[0].db, run[n].log)
  {
    RunInv(run, n);
  }

  /** In every reachable state of every interleaving, each committed blob row counts exactly
      its committed references, is stamped exactly when it has none, and no committed
      reference lacks its blob row. */
  lemma AlwaysConsistent(run: seq<State>, n: nat)
    requires IsRun(run) && n < |run|
    ensures Consistent(run[n].db)
  {
    RunInv(run, n);
    ReplayConsistent(run[0].db, run[n].log);
  }

  // The transaction still has to add a reference to a blob it has not locked, and does not record
  // that blob itself first; or it has already failed.
  predicate StillAdds(tx: Tx, h: Hash) {
    && h !in tx.held
    && (tx.phase == Failed || exists j | 0 <= j < |tx.todo| :: AddsAt(tx.todo, j, h))
  }

  predicate AddsAt(todo: seq<Op>, j: nat, h: Hash)
    requires j < |todo|
  {
    && todo[j].Add? && todo[j].hash == h
    && forall k | 0 <= k < j :: !(todo[k].Record? && todo[k].hash == h)
  }

  lemma StillAddsStep(s: State, s': State, id: TxId, h: Hash)
    requires Next(s, s') && id in s.txs && TxOk(s, s.txs[id])
    requires StillAdds(s.txs[id], h) && h !in s.db.blobs
    ensures id in s'.txs ==> StillAdds(s'.txs[id], h)
    ensures id !in s'.txs ==> s' == Ended(s, id)
  {
    if j :| TxStep(s, s', j) {
      if j == id {
        StillAddsMove(s, s', id, h);
      } else {
        assert id in s'.txs && s'.txs[id] == s.txs[id];
      }
    } else {
      assert id in s'.txs && s'.txs[id] == s.txs[id];
    }
  }

  lemma StillAddsMove(s: State, s': State, id: TxId, h: Hash)
    requires TxStep(s, s', id) && TxOk(s, s.txs[id])
    requires StillAdds(s.txs[id], h) && h !in s.db.blobs
    ensures id in s'.txs ==> StillAdds(s'.txs[id], h)
    ensures id !in s'.txs ==> s' == Ended(s, id)
  {
    var tx := s.txs[id];
    if tx.phase != Failed && !Rollback(s, s', id) {
      var j :| 0 <= j < |tx.todo| && AddsAt(tx.todo, j, h);
      if Acquire(s, s', id) || DoWrite(s, s', id) {
        assert AddsAt(s'.txs[id].todo, j, h);
      } else if s'.txs[id].phase != Failed {
        assert s'.txs[id].todo == tx.todo[1..];
        assert AddsAt(tx.todo[1..], j - 1, h);
      }
    }
  }

  /** An AddRef that loses the race against the collector leaves nothing: for as long as the blob's
      row is missing, a transaction that still has to add a reference to it does not commit. It can
      only fail or be rolled back, which changes no table, and no reference to the blob exists. */
  lemma {:induction false} LostRaceLeavesNothing(run: seq<State>, m: nat, n: nat, id: TxId, h: Hash)
    requires IsRun(run) && m <= n < |run|
    requires id in run[m].txs && StillAdds(run[m].txs[id], h)
    requires forall i | m <= i <= n :: id in run[i].txs && h !in run[i].db.blobs
    ensures StillAdds(run[n].txs[id], h)
    ensures RefsOf(run[n].db.refs, h) == {}
    ensures n + 1 < |run| && id !in run[n + 1].txs ==> run[n + 1] == Ended(run[n], id)
  {
    if m < n {
      LostRaceLeavesNothing(run, m, n - 1, id, h);
      StillAddsAt(run, n - 1, id, h);
    }
    if n + 1 < |run| {
      StillAddsAt(run, n, id, h);
    }
    MissingHasNoRefs(run, n, h);
  }

  lemma StillAddsAt(run: seq<State>, n: nat, id: TxId, h: Hash)
    requires IsRun(run) && n + 1 < |run| && id in run[n].txs
    requires StillAdds(run[n].txs[id], h) && h !in run[n].db.blobs
    ensures id in run[n + 1].txs ==> StillAdds(run[n + 1].txs[id], h)
    ensures id !in run[n + 1].txs ==> run[n + 1] == Ended(run[n], id)
  {
    RunInv(run, n);
    assert StepAt(run, n);
    StillAddsStep(run[n], run[n + 1], id, h);
  }

  lemma MissingHasNoRefs(run: seq<State>, n: nat, h: Hash)
    requires IsRun(run) && n < |run| && h !in run[n].db.blobs
    ensures RefsOf(run[n].db.refs, h) == {}
  {
    AlwaysConsistent(run, n);
  }
}
