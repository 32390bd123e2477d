/**
 Deadlock freedom of the lock order.

 AddRefs visits its blobs in sorted hash order and every other transaction of the package
 locks a single blob. For any number of such transactions the wait-for relation has no
 cycle in any reachable state, some transaction can always go forward, and every schedule
 of forward steps finishes them all.
 */
module BlobLocks {
  import opened BlobTables
  import opened BlobProtocol

  // The lock order of AddRefs; a transaction on a single blob satisfies it trivially.
  predicate Ordered(ops: seq<Op>) {
    forall i, j | 0 <= i < j < |ops| :: ops[i].hash < ops[j].hash
  }

  ghost predicate OrderedStepAt(run: seq<State>, i: nat)
    requires i + 1 < |run|
  {
    var s, s' := run[i], run[i + 1];
    || Tick(s, s')
    || (exists id, ops :: Begin(s, s', id, ops) && Ordered(ops))
    || (exists id :: TxStep(s, s', id))
  }

  ghost predicate IsOrderedRun(run: seq<State>) {
    && run != []
    && Init(run[0])
    && forall i | 0 <= i < |run| - 1 :: OrderedStepAt(run, i)
  }

  lemma OrderedRunIsRun(run: seq<State>)
    requires IsOrderedRun(run)
    ensures IsRun(run)
  {
    forall i | 0 <= i < |run| - 1
      ensures StepAt(run, i)
    {
      assert OrderedStepAt(run, i);
    }
  }

  // Everything a transaction holds is below what it will ask for next.
  predicate TxOrdered(tx: Tx) {
    && Ordered(tx.todo)
    && (tx.todo != [] ==>
          forall h | h in tx.held :: if tx.phase == Ready then h < tx.todo[0].hash else h <= tx.todo[0].hash)
  }

  predicate AllOrdered(s: State) {
    forall id | id in s.txs :: TxOrdered(s.txs[id])
  }

  lemma OrderedTail(tx: Tx)
    requires TxOrdered(tx) && tx.todo != []
    ensures TxOrdered(tx.(todo := tx.todo[1..], phase := Ready))
  {
    var rest := tx.todo[1..];
    forall i, j | 0 <= i < j < |rest|
      ensures rest[i].hash < rest[j].hash
    {
      assert rest[i] == tx.todo[i + 1] && rest[j] == tx.todo[j + 1];
    }
  }

  lemma TxStepOrdered(s: State, s': State, id: TxId)
    requires AllOrdered(s) && TxStep(s, s', id)
    ensures AllOrdered(s')
  {
    var tx := s.txs[id];
    assert TxOrdered(tx);
    if tx.todo != [] {
      OrderedTail(tx);
    }
    forall j | j in s'.txs
      ensures TxOrdered(s'.txs[j])
    {
      if j != id {
        assert s'.txs[j] == s.txs[j];
      }
    }
  }

  lemma {:induction false} RunOrdered(run: seq<State>, n: nat)
    requires IsOrderedRun(run) && n < |run|
    ensures AllOrdered(run[n])
  {
    if n > 0 {
      RunOrdered(run, n - 1);
      assert OrderedStepAt(run, n - 1);
      var s, s' := run[n - 1], run[n];
      if id :| TxStep(s, s', id) {
        TxStepOrdered(s, s', id);
      } else if !Tick(s, s') {
        var id, ops :| Begin(s, s', id, ops) && Ordered(ops);
        assert forall j | j in s'.txs && j != id :: s'.txs[j] == s.txs[j];
      }
    }
  }

  // ---------------------------------------------------------------------------
  // The wait-for relation
  // ---------------------------------------------------------------------------

  // a's locking read is blocked by a row lock that b holds.
  predicate Waits(s: State, a: TxId, b: TxId) {
    && a in s.txs && b in s.txs && a != b
    && NeedsLock(s, s.txs[a])
    && s.txs[a].todo[0].hash in s.txs[b].held
  }

  predicate WaitPath(s: State, p: seq<TxId>) {
    |p| >= 2 && forall i | 0 <= i < |p| - 1 :: Waits(s, p[i], p[i + 1])
  }

  // Along a chain of waits the awaited hash only grows.
  lemma {:induction false} WaitsClimb(s: State, p: seq<TxId>, n: nat)
    requires AllOrdered(s) && WaitPath(s, p) && n < |p| - 1
    ensures Waits(s, p[0], p[1]) && Waits(s, p[n], p[n + 1])
    ensures s.txs[p[0]].todo[0].hash <= s.txs[p[n]].todo[0].hash
  {
    if n > 0 {
      WaitsClimb(s, p, n - 1);
      assert TxOrdered(s.txs[p[n]]);
    }
  }

  /** The wait-for relation is acyclic in every reachable state: no chain of waits comes back
      to the transaction it started from. */
  lemma NoDeadlock(run: seq<State>, n: nat, p: seq<TxId>)
    requires IsOrderedRun(run) && n < |run|
    requires WaitPath(run[n], p)
    ensures p[0] != p[|p| - 1]
  {
    RunOrdered(run, n);
    var s := run[n];
    WaitsClimb(s, p, |p| - 2);
    assert TxOrdered(s.txs[p[0]]);
  }

  // ---------------------------------------------------------------------------
  // Progress
  // ---------------------------------------------------------------------------

  // A step the code takes by itself, as opposed to being cut off: a transaction rolls back
  // on its own only after its AddRef failed.
  predicate Forward(s: State, s': State, id: TxId) {
    || Acquire(s, s', id)
    || Miss(s, s', id)
    || DoWrite(s, s', id)
    || DoSettle(s, s', id)
    || Commit(s, s', id)
    || (id in s.txs && s.txs[id].phase == Failed && Rollback(s, s', id))
  }

  lemma UnblockedMoves(s: State, id: TxId) returns (s': State)
    requires id in s.txs && TxOk(s, s.txs[id])
    requires forall b :: !Waits(s, id, b)
    ensures Forward(s, s', id)
  {
    var tx := s.txs[id];
    match tx.phase
    case Failed =>
      s' := Ended(s, id);
    case Locked =>
      var w := Write(tx.todo[0], tx.work, tx.start);
      s' := WithTx(s, id, tx.(phase := Written(w.refs != tx.work.refs), work := w));
    case Written(changed) =>
      s' := WithTx(s, id, tx.(phase := Ready, todo := tx.todo[1..], done := tx.done + [tx.todo[0]],
                              work := Settle(tx.todo[0], changed, tx.work, tx.start)));
    case Ready =>
      if tx.todo == [] {
        s' := Ended(s, id).(db := Publish(s.db, tx.held, tx.work), log := s.log + [Entry(tx.start, tx.done)]);
      } else {
        var op := tx.todo[0];
        if !Finds(op, Sees(s, tx, op.hash)) {
          s' := WithTx(s, id, if op.Add? then tx.(phase := Failed) else tx.(todo := tx.todo[1..]));
        } else if op.hash in tx.held {
          s' := WithTx(s, id, tx.(phase := Locked));
        } else {
          forall j | j in s.txs && j != id
            ensures op.hash !in s.txs[j].held
          {
            assert !Waits(s, id, j);
          }
          s' := WithTx(s, id, tx.(phase := Locked, held := tx.held + {op.hash},
                                  work := Join(tx.work, Restrict(s.db, {op.hash}))));
        }
      }
  }

  ghost predicate Blocked(s: State, id: TxId) {
    exists b :: Waits(s, id, b)
  }

  // The transaction asking for the highest hash waits for one that is not blocked.
  lemma {:induction false} TopWaiter(s: State, ids: set<TxId>) returns (top: TxId)
    requires ids != {} && forall id | id in ids :: id in s.txs && Blocked(s, id)
    ensures top in ids && s.txs[top].todo != []
    ensures forall id | id in ids :: s.txs[id].todo != [] && s.txs[id].todo[0].hash <= s.txs[top].todo[0].hash
    decreases |ids|
  {
    var id :| id in ids;
    if ids == {id} {
      top := id;
    } else {
      assert ids - {id} != {};
      top := TopWaiter(s, ids - {id});
      if s.txs[top].todo[0].hash < s.txs[id].todo[0].hash {
        top := id;
      }
    }
  }

  lemma SomeUnblocked(s: State) returns (id: TxId)
    requires AllOrdered(s) && s.txs != map[]
    ensures id in s.txs && !Blocked(s, id)
  {
    var blocked := set j | j in s.txs && Blocked(s, j);
    if blocked == {} {
      id :| id in s.txs;
      assert id !in blocked;
    } else {
      var top := TopWaiter(s, blocked);
      id :| Waits(s, top, id);
      assert TxOrdered(s.txs[id]);
      assert id !in blocked;
    }
  }

  /** In every reachable state with open transactions, one of them can go forward. */
  lemma AlwaysProgress(run: seq<State>, n: nat) returns (id: TxId, s': State)
    requires IsOrderedRun(run) && n < |run| && run[n].txs != map[]
    ensures Forward(run[n], s', id)
  {
    OrderedRunIsRun(run);
    RunInv(run, n);
    RunOrdered(run, n);
    id := SomeUnblocked(run[n]);
    s' := UnblockedMoves(run[n], id);
  }

  // ---------------------------------------------------------------------------
  // Every schedule of forward steps comes to an end
  // ---------------------------------------------------------------------------

  function Rank(tx: Tx): nat {
    1 + 4 * |tx.todo| + match tx.phase
                        case Ready => 3
                        case Locked => 2
                        case Written(_) => 1
                        case Failed => 0
  }

  ghost function RankSum(txs: map<TxId, Tx>, ids: set<TxId>): nat
    requires forall id | id in ids :: id in txs
    decreases |ids|
  {
    if ids == {} then 0
    else
      var id :| id in ids;
      Rank(txs[id]) + RankSum(txs, ids - {id})
  }

  ghost function Total(s: State): nat {
    RankSum(s.txs, s.txs.Keys)
  }

  lemma {:induction false} RankSumSplit(txs: map<TxId, Tx>, ids: set<TxId>, id: TxId)
    requires id in ids && forall j | j in ids :: j in txs
    ensures RankSum(txs, ids) == Rank(txs[id]) + RankSum(txs, ids - {id})
    decreases |ids|
  {
    var first :| first in ids && RankSum(txs, ids) == Rank(txs[first]) + RankSum(txs, ids - {first});
    if first != id {
      RankSumSplit(txs, ids - {first}, id);
      assert ids - {first} - {id} == ids - {id} - {first};
      RankSumSplit(txs, ids - {id}, first);
    }
  }

  lemma {:induction false} RankSumSame(txs: map<TxId, Tx>, txs': map<TxId, Tx>, ids: set<TxId>)
    requires forall j | j in ids :: j in txs && j in txs' && txs[j] == txs'[j]
    ensures RankSum(txs, ids) == RankSum(txs', ids)
    decreases |ids|
  {
    if ids != {} {
      var first :| first in ids;
      RankSumSplit(txs, ids, first);
      RankSumSplit(txs', ids, first);
      RankSumSame(txs, txs', ids - {first});
    }
  }

  lemma ForwardSpends(s: State, s': State, id: TxId)
    requires Forward(s, s', id)
    ensures Total(s') < Total(s)
  {
    var others := s.txs.Keys - {id};
    RankSumSplit(s.txs, s.txs.Keys, id);
    assert forall j | j in others :: j in s'.txs && s'.txs[j] == s.txs[j];
    RankSumSame(s.txs, s'.txs, others);
    if id in s'.txs {
      assert s'.txs.Keys == s.txs.Keys;
      RankSumSplit(s'.txs, s'.txs.Keys, id);
    } else {
      assert s'.txs.Keys == others;
    }
  }

  /** However forward steps are scheduled, only finitely many fit: no livelock either. */
  lemma {:induction false} ForwardRunsEnd(states: seq<State>, ids: seq<TxId>)
    requires |states| == |ids| + 1
    requires forall i | 0 <= i < |ids| :: Forward(states[i], states[i + 1], ids[i])
    ensures |ids| <= Total(states[0])
    decreases |ids|
  {
    if ids != [] {
      ForwardSpends(states[0], states[1], ids[0]);
      var rest, restIds := states[1..], ids[1..];
      forall i | 0 <= i < |restIds|
        ensures Forward(rest[i], rest[i + 1], restIds[i])
      {
        assert Forward(states[i + 1], states[i + 2], ids[i + 1]);
      }
      ForwardRunsEnd(rest, restIds);
    }
  }

  ghost predicate ForwardAt(states: seq<State>, i: nat)
    requires i + 1 < |states|
  {
    exists id :: id in states[i].txs && Forward(states[i], states[i + 1], id)
  }

  /** From every reachable state the open transactions can all be driven to their end by forward
      steps alone: none of them has to be rolled back to let the others through. */
  lemma {:induction false} AllFinish(run: seq<State>) returns (full: seq<State>)
    requires IsOrderedRun(run)
    ensures run <= full && IsOrderedRun(full)
    ensures full[|full| - 1].txs == map[]
    ensures forall i | |run| - 1 <= i < |full| - 1 :: ForwardAt(full, i)
    decreases Total(run[|run| - 1])
  {
    var last := run[|run| - 1];
    if last.txs == map[] {
      full := run;
    } else {
      var id, s' := AlwaysProgress(run, |run| - 1);
      ForwardSpends(last, s', id);
      var longer := run + [s'];
      forall i | 0 <= i < |longer| - 1
        ensures OrderedStepAt(longer, i)
      {
        if i == |run| - 1 {
          assert TxStep(last, s', id);
        } else {
          assert OrderedStepAt(run, i);
        }
      }
      full := AllFinish(longer);
      assert full[|run| - 1] == last && full[|run|] == s';
      assert ForwardAt(full, |run| - 1);
    }
  }
}
