/**
 The methods of internal/blob as they are written: a transaction's view of the tables that
 AddRef, AddRefs, RemoveRef and syncRefcount update in place, and the store whose GC and
 ExpirePins sweep candidates one short transaction at a time.

 A statement error (a broken connection, a cancelled context) is not modelled here: it ends
 in a rollback, which the protocol allows at every point.
 */
module BlobStore {
  import opened Prelude
  import opened BlobTables
  import opened BlobAddRefs
  import opened BlobOutcomes
  import opened BlobSweeps
  import opened Sorting

  class BlobTx {
    var blobs: map<Hash, BlobRow>
    var refs: map<RefKey, RefRow>
    const now: Time

    constructor (t: Tables, now: Time)
      ensures View() == t && this.now == now
    {
      blobs, refs := t.blobs, t.refs;
      this.now := now;
    }

    function View(): Tables
      reads this
    {
      Tables(blobs, refs)
    }

    method SyncRefcount(h: Hash)
      modifies this
      ensures View() == Synced(old(View()), h, now)
    {
      if h in blobs {
        var row := blobs[h];
        var n := |RefsOf(refs, h)|;
        var zeroSince := if n > 0 then None else if row.zeroSince.Some? then row.zeroSince else Some(now);
        blobs := blobs[h := BlobRow(row.size, n, zeroSince)];
      }
    }

    // INSERT ... ON CONFLICT DO NOTHING.
    method InsertRef(h: Hash, c: Claim)
      modifies this`refs
      ensures refs == Insert(old(refs), h, c, now)
    {
      var key := RefKey(h, c.kind, c.owner);
      if key !in refs {
        refs := refs[key := RefRow(c.account, now)];
      }
    }

    /** Fails exactly when the blob has no row, and then changes nothing. */
    method AddRef(h: Hash, c: Claim) returns (ok: bool)
      modifies this
      ensures ok <==> AddOne(old(View()), Ref(h, c), now).Some?
      ensures View() == if ok then AddOne(old(View()), Ref(h, c), now).value else old(View())
    {
      if h !in blobs {
        return false;
      }
      InsertRef(h, c);
      assert [c][..0] == [];
      assert refs == InsertAll(old(refs), h, [c], now);
      SyncRefcount(h);
      ok := true;
    }

    method RemoveRef(h: Hash, kind: OwnerKind, owner: int)
      modifies this
      ensures View() == if Finds(Remove(h, kind, owner), old(View()))
                        then Apply(Remove(h, kind, owner), old(View()), now) else old(View())
      ensures h !in old(blobs) ==> View() == old(View())
      ensures h in old(blobs) && Consistent(old(View())) ==>
                Loses(old(View()), View(), h, k => k == RefKey(h, kind, owner), now)
    {
      if h !in blobs {
        return;
      }
      if Consistent(View()) {
        RemoveOutcome(View(), h, kind, owner, now);
      }
      refs := refs - {RefKey(h, kind, owner)};
      SyncRefcount(h);
    }

    // DELETE of the blob's pins created before the cutoff, and the number of rows affected.
    method DeleteExpired(h: Hash, cutoff: Time) returns (n: nat)
      modifies this`refs
      ensures refs == Write(ExpirePins(h, cutoff), old(View()), now).refs
      ensures |refs| + n == |old(refs)| && (n == 0 <==> refs == old(refs))
    {
      var expired := set k | k in refs && Expired(k, refs[k], h, cutoff);
      var kept := map k | k in refs && !Expired(k, refs[k], h, cutoff) :: refs[k];
      Partition(refs, kept, expired);
      refs, n := kept, |expired|;
    }

    // One blob of AddRefs: all its reference rows, then one recomputation.
    method AddGroup(h: Hash, group: seq<Claim>)
      requires h in blobs
      modifies this
      ensures View() == Apply(Add(h, group), old(View()), now)
    {
      for i := 0 to |group|
        invariant blobs == old(blobs)
        invariant refs == InsertAll(old(refs), h, group[..i], now)
      {
        assert group[..i + 1][..i] == group[..i];
        InsertRef(h, group[i]);
      }
      assert group[..|group|] == group;
      SyncRefcount(h);
    }

    // The grouping pass of AddRefs.
    method GroupByHash(batch: seq<Ref>) returns (byHash: map<Hash, seq<Claim>>, order: seq<Hash>)
      ensures order == Order(batch)
      ensures forall h | h in order :: h in byHash && byHash[h] == ClaimsOf(batch, h)
    {
      byHash, order := map[], [];
      for i := 0 to |batch|
        invariant order == Order(batch[..i])
        invariant forall h :: h in byHash <==> h in order
        invariant forall h :: ClaimsOf(batch[..i], h) == if h in byHash then byHash[h] else []
      {
        var r := batch[i];
        assert batch[..i + 1][..i] == batch[..i];
        if r.hash !in byHash {
          order := order + [r.hash];
          byHash := byHash[r.hash := [r.claim]];
        } else {
          byHash := byHash[r.hash := byHash[r.hash] + [r.claim]];
        }
      }
      assert batch[..|batch|] == batch;
    }

    /** Succeeds exactly when every blob has a row, and then leaves the tables that adding the
        references one at a time, in arrival order, would leave. On failure the groups before
        the first missing blob have been written; the caller rolls them back. */
    method AddRefs(batch: seq<Ref>) returns (ok: bool)
      modifies this
      ensures ok <==> forall r | r in batch :: r.hash in old(blobs)
      ensures ok ==> AddFold(old(View()), batch, now) == Some(View())
      ensures !ok ==> exists n | 0 <= n < |Program(batch)| ::
                && View() == ApplyAll(Program(batch)[..n], old(View()), now)
                && !Finds(Program(batch)[n], View())
    {
      ghost var program := Program(batch);
      var byHash, order := GroupByHash(batch);
      ghost var arrival := order;
      order := Sort(order);
      OrderFacts(batch);
      SortFacts(arrival);
      GroupedEqualsOneAtATime(View(), batch, now);
      assert program[..0] == [];
      for i := 0 to |order|
        invariant View() == ApplyAll(program[..i], old(View()), now)
        invariant Performs(program[..i], old(View()), now)
      {
        var h := order[i];
        assert program[..i + 1] == program[..i] + [program[i]];
        ApplyAllAppend(program[..i], program[i], old(View()), now);
        if h !in blobs {
          PerformsPrefix(program, i + 1, old(View()), now);
          return false;
        }
        AddGroup(h, byHash[h]);
      }
      assert program[..|order|] == program;
      ok := true;
    }
  }

  lemma Partition(refs: map<RefKey, RefRow>, kept: map<RefKey, RefRow>, gone: set<RefKey>)
    requires kept.Keys + gone == refs.Keys && kept.Keys !! gone
    requires forall k | k in kept :: kept[k] == refs[k]
    ensures |kept| + |gone| == |refs| && (gone == {} <==> kept == refs)
  {
    assert |kept| == |kept.Keys| && |refs| == |refs.Keys|;
  }

  lemma {:induction false} PerformsPrefix(ops: seq<Op>, n: nat, t: Tables, now: Time)
    requires n <= |ops|
    ensures Performs(ops, t, now) ==> Performs(ops[..n], t, now)
    decreases n
  {
    if n > 0 && Performs(ops, t, now) {
      PerformsPrefix(ops[1..], n - 1, Apply(ops[0], t, now), now);
      assert ops[..n][1..] == ops[1..][..n - 1];
    }
  }

  datatype GCStats = GCStats(scanned: nat, collected: nat, bytes: nat, skipped: nat)

  class Store {
    var db: Tables
    var files: set<Hash>

    constructor (db: Tables, files: set<Hash>)
      ensures this.db == db && this.files == files
    {
      this.db, this.files := db, files;
    }

    // Whatever other writers commit between two steps of a sweep.
    method Interleave(others: seq<Other>)
      modifies this`db
      ensures db == Interleaved(old(db), others)
    {
      for i := 0 to |others|
        invariant db == Interleaved(old(db), others[..i])
      {
        assert others[..i + 1][..i] == others[..i];
        if Finds(others[i].op, db) {
          db := Apply(others[i].op, db, others[i].start);
        }
      }
      assert others[..|others|] == others;
    }

    method CollectOne(h: Hash, cutoff: Time, now: Time, end: TxEnd) returns (collected: bool, ok: bool)
      modifies this`db
      ensures ok <==> end == Committed
      ensures collected <==> ok && Finds(Collect(h, cutoff), old(db))
      ensures db == if Finds(Collect(h, cutoff), old(db)) && end != RolledBack
                    then Apply(Collect(h, cutoff), old(db), now) else old(db)
    {
      ok, collected := end == Committed, false;
      if !Finds(Collect(h, cutoff), db) || end == RolledBack {
        return;
      }
      if h in db.blobs && db.blobs[h].refcount == 0 {
        db := db.(blobs := db.blobs - {h});
      }
      collected := ok;
    }

    // One candidate's turn: the guarded delete, then the file.
    method CollectTurn(p: Pass, ghost t: Tables, i: nat) returns (collected: bool, ok: bool)
      requires ValidPass(p) && i < |p.candidates| && db == After(p, t, i)
      modifies this
      ensures db == After(p, t, i + 1)
      ensures ok <==> !Stops(p, t, i)
      ensures ok ==> (collected <==> Matches(p, t, i))
      ensures files == if ok && Matches(p, t, i) then old(files) - {p.candidates[i].hash} else old(files)
    {
      var h := p.candidates[i].hash;
      Interleave(p.others[i]);
      collected, ok := CollectOne(h, p.cutoff, p.now, p.ends[i]);
      if collected {
        if h in p.unremovable {
          return true, false;
        }
        files := files - {h};
      }
    }

    /** One collection pass over the scanned candidates, with arbitrary writers committing
        between its transactions. The pass ends at the first turn that stops it, or after the last:
        up to there it deleted, counted and unlinked exactly the candidates whose guarded delete
        matched, and skipped the others. The turn that stops it may have deleted its row, and leaves
        its file. */
    method GC(p: Pass) returns (stats: GCStats, ok: bool, ghost turns: nat)
      requires ValidPass(p)
      modifies this
      ensures turns <= |p.candidates| && (ok <==> turns == |p.candidates|)
      ensures (forall i | 0 <= i < turns :: !Stops(p, old(db), i)) && (!ok ==> Stops(p, old(db), turns))
      ensures db == After(p, old(db), if ok then turns else turns + 1)
      ensures files == old(files) - Unlinked(p, old(db), turns)
      ensures stats.scanned == |p.candidates|
      ensures stats.collected == Collected(p, old(db), turns) && stats.bytes == Bytes(p, old(db), turns)
      ensures stats.collected + stats.skipped == turns
    {
      stats, ok, turns := GCStats(|p.candidates|, 0, 0, 0), true, 0;
      for i := 0 to |p.candidates|
        invariant turns == i && ok
        invariant forall j | 0 <= j < i :: !Stops(p, old(db), j)
        invariant db == After(p, old(db), i)
        invariant files == old(files) - Unlinked(p, old(db), i)
        invariant stats.scanned == |p.candidates|
        invariant stats.collected == Collected(p, old(db), i) && stats.bytes == Bytes(p, old(db), i)
        invariant stats.collected + stats.skipped == i
      {
        var collected, done := CollectTurn(p, old(db), i);
        if !done {
          return stats, false, i;
        }
        if !collected {
          stats := stats.(skipped := stats.skipped + 1);
        } else {
          stats := stats.(collected := stats.collected + 1, bytes := stats.bytes + p.candidates[i].size);
        }
        turns := i + 1;
      }
    }

    method ExpirePinsOf(h: Hash, cutoff: Time, now: Time, end: TxEnd) returns (removed: nat, ok: bool)
      modifies this`db
      ensures ok <==> end == Committed
      ensures db == if end == RolledBack then old(db) else PinsExpired(old(db), h, cutoff, now)
      ensures ok ==> removed == |old(db).refs| - |db.refs|
    {
      ok, removed := end == Committed, 0;
      if h !in db.blobs {
        return;
      }
      var tx := new BlobTx(db, now);
      removed := tx.DeleteExpired(h, cutoff);
      if removed == 0 {
        return;
      }
      tx.SyncRefcount(h);
      if end != RolledBack {
        db := tx.View();
      }
    }

    // One blob's turn, added to the total.
    method ExpireTurn(w: Sweep, ghost t: Tables, i: nat, total: nat) returns (sum: nat, ok: bool)
      requires ValidSweep(w) && i < |w.hashes|
      requires db == Swept(w, t, i) && total == RowsRemoved(w, t, i)
      modifies this`db
      ensures db == Swept(w, t, i + 1)
      ensures ok <==> w.ends[i] == Committed
      ensures sum == if ok then RowsRemoved(w, t, i + 1) else total
    {
      Interleave(w.others[i]);
      var n;
      n, ok := ExpirePinsOf(w.hashes[i], w.cutoff, w.now, w.ends[i]);
      sum := if ok then total + n else total;
    }

    /** A sweep, with arbitrary writers committing between its transactions, expires the pins of
        each blob in turn and returns how many rows it removed. It ends at the first transaction
        that fails, and the count then leaves out what that one removed: everything if the failure
        was only reported, nothing if it was rolled back. */
    method ExpirePins(w: Sweep) returns (removed: nat, ok: bool, ghost turns: nat)
      requires ValidSweep(w)
      modifies this`db
      ensures turns <= |w.hashes| && (ok <==> turns == |w.hashes|)
      ensures (forall i | 0 <= i < turns :: w.ends[i] == Committed) && (!ok ==> w.ends[turns] != Committed)
      ensures db == Swept(w, old(db), if ok then turns else turns + 1)
      ensures removed == RowsRemoved(w, old(db), turns)
    {
      removed, ok, turns := 0, true, 0;
      ghost var t := db;
      for i := 0 to |w.hashes|
        invariant turns == i && ok
        invariant forall j | 0 <= j < i :: w.ends[j] == Committed
        invariant db == Swept(w, t, i)
        invariant removed == RowsRemoved(w, t, i)
      {
        removed, ok := ExpireTurn(w, t, i, removed);
        if !ok {
          return;
        }
        turns := i + 1;
      }
    }
  }
}
