/**
 Deleting an account.

 blob_refs.account_id cascades from accounts, so deleting an account removes reference rows
 without locking or recounting any blob. DeleteAccount's documentation expects the counts to
 drop to zero and the blobs to become collectable; they do not.
 */
module BlobCascade {
  import opened BlobTables
  import opened BlobProtocol

  // DELETE FROM accounts WHERE id = $1, as far as the blob tables are concerned.
  function Cascade(t: Tables, account: int): Tables {
    t.(refs := map k | k in t.refs && t.refs[k].account != account :: t.refs[k])
  }

  predicate HoldsNothing(t: Tables, account: int) {
    forall k | k in t.refs :: t.refs[k].account != account
  }

  lemma SmallerCount(refs: map<RefKey, RefRow>, refs': map<RefKey, RefRow>, k: RefKey)
    requires refs'.Keys <= refs.Keys && k in refs && k !in refs'
    ensures |RefsOf(refs', k.hash)| < |RefsOf(refs, k.hash)|
  {
    var all, some := RefsOf(refs, k.hash), RefsOf(refs', k.hash);
    assert some <= all - {k};
    SubsetSize(some, all - {k});
  }

  lemma {:induction false} SubsetSize<T>(a: set<T>, b: set<T>)
    requires a <= b
    ensures |a| <= |b|
    decreases |a|
  {
    if a != {} {
      var x :| x in a;
      SubsetSize(a - {x}, b - {x});
    }
  }

  /** Deleting an account keeps the counts right exactly when the account held no reference. */
  lemma CascadeConsistentIff(t: Tables, account: int)
    requires Consistent(t)
    ensures Consistent(Cascade(t, account)) <==> HoldsNothing(t, account)
  {
    var t' := Cascade(t, account);
    if HoldsNothing(t, account) {
      assert t'.refs == t.refs;
    } else {
      var k :| k in t.refs && t.refs[k].account == account;
      SmallerCount(t.refs, t'.refs, k);
      assert t'.blobs[k.hash].refcount != |RefsOf(t'.refs, k.hash)|;
    }
  }

  // The blob is unreferenced but still counted.
  predicate Leaked(t: Tables, h: Hash) {
    h in t.blobs && t.blobs[h].refcount > 0 && RefsOf(t.refs, h) == {}
  }

  // An operation that recounts h.
  predicate Recounts(op: Op, h: Hash) {
    op.hash == h && (op.Add? || op.Remove?)
  }

  lemma LeakedStep(t: Tables, op: Op, now: Time, h: Hash)
    requires Leaked(t, h) && !Recounts(op, h)
    ensures Leaked(Apply(op, t, now), h)
  {
    WriteFrame(op, t, now);
    var w := Write(op, t, now);
    if op.hash == h && op.ExpirePins? {
      forall k | k in t.refs
        ensures k.hash != h
      {
        assert k !in RefsOf(t.refs, h);
      }
      assert w.refs == t.refs;
    }
  }

  lemma {:induction false} LeakedAll(ops: seq<Op>, t: Tables, now: Time, h: Hash)
    requires Leaked(t, h) && forall op | op in ops :: !Recounts(op, h)
    ensures Leaked(ApplyAll(ops, t, now), h)
    decreases |ops|
  {
    if ops != [] {
      LeakedStep(t, ops[0], now, h);
      LeakedAll(ops[1..], Apply(ops[0], t, now), now, h);
    }
  }

  // No committed transaction of the log recounted h.
  predicate NeverRecounted(log: seq<Entry>, h: Hash) {
    forall e | e in log :: forall op | op in e.ops :: !Recounts(op, h)
  }

  lemma {:induction false} LeakedReplay(t: Tables, log: seq<Entry>, h: Hash)
    requires Leaked(t, h) && NeverRecounted(log, h)
    ensures Leaked(Replay(t, log), h)
    decreases |log|
  {
    if log != [] {
      var front, last := log[..|log| - 1], log[|log| - 1];
      LeakedReplay(t, front, h);
      assert last in log;
      LeakedAll(last.ops, Replay(t, front), last.start, h);
    }
  }

  /** A blob whose only references the cascade removed is never collected, however much time passes
      and whatever transactions interleave, until one that adds or removes a reference to it commits. */
  lemma LeakedUntilRecounted(run: seq<State>, n: nat, h: Hash, cutoff: Time)
    requires IsTrace(run) && n < |run| && Leaked(run[0].db, h)
    requires NeverRecounted(run[n].log, h)
    ensures Leaked(run[n].db, h)
    ensures !Finds(Collect(h, cutoff), run[n].db)
  {
    Serializable(run, n);
    LeakedReplay(run[0].db, run[n].log, h);
  }

  // The blob's row counts its references, and without a row it has none.
  predicate Counted(t: Tables, h: Hash) {
    if h in t.blobs then t.blobs[h].refcount == |RefsOf(t.refs, h)| else RefsOf(t.refs, h) == {}
  }

  lemma CountedStep(t: Tables, op: Op, now: Time, h: Hash)
    requires Finds(op, t) && (Counted(t, h) || (h in t.blobs && Recounts(op, h)))
    ensures Counted(Apply(op, t, now), h)
  {
    WriteFrame(op, t, now);
  }

  lemma {:induction false} CountedAll(ops: seq<Op>, t: Tables, now: Time, h: Hash)
    requires Performs(ops, t, now)
    requires Counted(t, h) || (Leaked(t, h) && exists op | op in ops :: Recounts(op, h))
    ensures Counted(ApplyAll(ops, t, now), h)
    decreases |ops|
  {
    if ops != [] {
      if Counted(t, h) || Recounts(ops[0], h) {
        CountedStep(t, ops[0], now, h);
      } else {
        LeakedStep(t, ops[0], now, h);
        var op :| op in ops && Recounts(op, h);
        assert op in ops[1..];
      }
      CountedAll(ops[1..], Apply(ops[0], t, now), now, h);
    }
  }

  lemma {:induction false} CountedReplay(t: Tables, log: seq<Entry>, h: Hash)
    requires Replays(t, log) && Leaked(t, h) && !NeverRecounted(log, h)
    ensures Counted(Replay(t, log), h)
    decreases |log|
  {
    var front, last := log[..|log| - 1], log[|log| - 1];
    if NeverRecounted(front, h) {
      LeakedReplay(t, front, h);
      assert log == front + [last];
      assert exists op | op in last.ops :: Recounts(op, h);
    } else {
      CountedReplay(t, front, h);
    }
    CountedAll(last.ops, Replay(t, front), last.start, h);
  }

  /** A leaked blob stays leaked exactly until a transaction that adds or removes a reference to it
      has committed; from then on its row counts right. */
  lemma LeakedIff(run: seq<State>, n: nat, h: Hash)
    requires IsTrace(run) && n < |run| && Leaked(run[0].db, h)
    ensures Leaked(run[n].db, h) <==> NeverRecounted(run[n].log, h)
    ensures !NeverRecounted(run[n].log, h) ==> Counted(run[n].db, h)
  {
    Serializable(run, n);
    if NeverRecounted(run[n].log, h) {
      LeakedReplay(run[0].db, run[n].log, h);
    } else {
      CountedReplay(run[0].db, run[n].log, h);
    }
  }

  /** The cascade leaks every blob that only the deleted account referenced. */
  lemma CascadeLeaks(t: Tables, account: int, h: Hash)
    requires Consistent(t) && RefsOf(t.refs, h) != {}
    requires forall k | k in RefsOf(t.refs, h) :: t.refs[k].account == account
    ensures Leaked(Cascade(t, account), h)
  {
    var k :| k in RefsOf(t.refs, h);
    assert RefsOf(Cascade(t, account).refs, h) == {};
  }
}
