/**
 What a collection pass and a pin sweep come to, turn by turn, as functions of the tables they
 start from, the transactions other writers commit before each turn, and how each of their own
 transactions ends.
 */
module BlobSweeps {
  import opened Prelude
  import opened BlobTables
  import opened BlobOutcomes

  datatype Candidate = Candidate(hash: Hash, size: nat)

  // How a transaction ended: Unknown committed, but reported an error.
  datatype TxEnd = Committed | RolledBack | Unknown

  // A transaction of somebody else, committed while a sweep is under way.
  datatype Other = Other(start: Time, op: Op)

  // The tables after other writers' transactions; one that finds no row changes nothing.
  function Interleaved(t: Tables, others: seq<Other>): Tables {
    if others == [] then t
    else
      var u, o := Interleaved(t, others[..|others| - 1]), others[|others| - 1];
      if Finds(o.op, u) then Apply(o.op, u, o.start) else u
  }

  lemma {:induction false} InterleavedConsistent(t: Tables, others: seq<Other>)
    requires Consistent(t)
    ensures Consistent(Interleaved(t, others))
    decreases |others|
  {
    if others != [] {
      InterleavedConsistent(t, others[..|others| - 1]);
      var u, o := Interleaved(t, others[..|others| - 1]), others[|others| - 1];
      if Finds(o.op, u) {
        ApplyConsistent(o.op, u, o.start);
      }
    }
  }

  // ---------------------------------------------------------------------------
  // A collection pass
  // ---------------------------------------------------------------------------

  datatype Pass = Pass(candidates: seq<Candidate>, cutoff: Time, now: Time, others: seq<seq<Other>>, ends: seq<TxEnd>, unremovable: set<Hash>)

  predicate ValidPass(p: Pass) {
    |p.others| == |p.candidates| == |p.ends|
  }

  function Target(p: Pass, i: nat): Op
    requires i < |p.candidates|
  {
    Collect(p.candidates[i].hash, p.cutoff)
  }

  // Nothing references the blob and its grace period is over.
  predicate Garbage(t: Tables, h: Hash, cutoff: Time) {
    && h in t.blobs && (forall k | k in t.refs :: k.hash != h)
    && t.blobs[h].zeroSince.Some? && t.blobs[h].zeroSince.value < cutoff
  }

  // The tables after the first n candidates had their turn.
  function After(p: Pass, t: Tables, n: nat): Tables
    requires ValidPass(p) && n <= |p.candidates|
    decreases n, 0
  {
    if n == 0 then t
    else if Matches(p, t, n - 1) && p.ends[n - 1] != RolledBack then Apply(Target(p, n - 1), Facing(p, t, n - 1), p.now)
    else Facing(p, t, n - 1)
  }

  // The tables the guarded delete of candidate i meets.
  function Facing(p: Pass, t: Tables, i: nat): Tables
    requires ValidPass(p) && i < |p.candidates|
    decreases i, 1
  {
    Interleaved(After(p, t, i), p.others[i])
  }

  predicate Matches(p: Pass, t: Tables, i: nat)
    requires ValidPass(p) && i < |p.candidates|
    decreases i, 2
  {
    Finds(Target(p, i), Facing(p, t, i))
  }

  // The turns that end the pass: a failed transaction, or a file that cannot be removed.
  predicate Stops(p: Pass, t: Tables, i: nat)
    requires ValidPass(p) && i < |p.candidates|
  {
    p.ends[i] != Committed || (Matches(p, t, i) && p.candidates[i].hash in p.unremovable)
  }

  function Collected(p: Pass, t: Tables, n: nat): nat
    requires ValidPass(p) && n <= |p.candidates|
  {
    if n == 0 then 0 else Collected(p, t, n - 1) + if Matches(p, t, n - 1) then 1 else 0
  }

  function Bytes(p: Pass, t: Tables, n: nat): nat
    requires ValidPass(p) && n <= |p.candidates|
  {
    if n == 0 then 0 else Bytes(p, t, n - 1) + if Matches(p, t, n - 1) then p.candidates[n - 1].size else 0
  }

  function Unlinked(p: Pass, t: Tables, n: nat): set<Hash>
    requires ValidPass(p) && n <= |p.candidates|
  {
    if n == 0 then {} else Unlinked(p, t, n - 1) + if Matches(p, t, n - 1) then {p.candidates[n - 1].hash} else {}
  }

  /** Whatever others do between its turns, the pass meets and leaves consistent tables at every turn. */
  lemma {:induction false} AfterConsistent(p: Pass, t: Tables, n: nat)
    requires ValidPass(p) && n <= |p.candidates| && Consistent(t)
    ensures Consistent(After(p, t, n))
    ensures n < |p.candidates| ==> Consistent(Facing(p, t, n))
    decreases n
  {
    if n > 0 {
      AfterConsistent(p, t, n - 1);
      if Matches(p, t, n - 1) {
        ApplyConsistent(Target(p, n - 1), Facing(p, t, n - 1), p.now);
      }
    }
    if n < |p.candidates| {
      InterleavedConsistent(After(p, t, n), p.others[n]);
    }
  }

  /** At its turn a candidate is deleted exactly when nothing references it any more and its stamp
      is before the cutoff, whatever the scan had seen: then its row alone goes, unless the
      transaction rolls back, and otherwise the tables stay. */
  lemma TurnExact(p: Pass, t: Tables, i: nat)
    requires ValidPass(p) && i < |p.candidates| && Consistent(t)
    ensures var h, u := p.candidates[i].hash, Facing(p, t, i);
            && (Matches(p, t, i) <==> Garbage(u, h, p.cutoff))
            && After(p, t, i + 1) == if Matches(p, t, i) && p.ends[i] != RolledBack
                                     then Tables(u.blobs - {h}, u.refs) else u
  {
    AfterConsistent(p, t, i);
    CollectOutcome(Facing(p, t, i), p.candidates[i].hash, p.cutoff, p.now);
  }

  /** The files removed are those of the candidates that matched. */
  lemma {:induction false} UnlinkedExact(p: Pass, t: Tables, n: nat, h: Hash)
    requires ValidPass(p) && n <= |p.candidates|
    ensures h in Unlinked(p, t, n) <==> exists i | 0 <= i < n :: Matches(p, t, i) && p.candidates[i].hash == h
    decreases n
  {
    if n > 0 {
      UnlinkedExact(p, t, n - 1, h);
    }
  }

  // Nobody else writes, every transaction commits and every file can be removed.
  predicate Alone(p: Pass) {
    && ValidPass(p)
    && (forall o | o in p.others :: o == [])
    && (forall e | e in p.ends :: e == Committed)
    && (forall c | c in p.candidates :: c.hash !in p.unremovable)
  }

  function GarbageAmong(p: Pass, t: Tables, n: nat): set<Hash>
    requires n <= |p.candidates|
  {
    if n == 0 then {}
    else
      var h := p.candidates[n - 1].hash;
      GarbageAmong(p, t, n - 1) + if Garbage(t, h, p.cutoff) then {h} else {}
  }

  lemma {:induction false} GarbageAmongExact(p: Pass, t: Tables, n: nat, h: Hash)
    requires n <= |p.candidates|
    ensures h in GarbageAmong(p, t, n) <==>
              Garbage(t, h, p.cutoff) && exists i | 0 <= i < n :: p.candidates[i].hash == h
    decreases n
  {
    if n > 0 {
      GarbageAmongExact(p, t, n - 1, h);
    }
  }

  lemma GarbageLeft(t: Tables, gone: set<Hash>, h: Hash, cutoff: Time)
    ensures Garbage(Tables(t.blobs - gone, t.refs), h, cutoff) <==> Garbage(t, h, cutoff) && h !in gone
  {
  }

  lemma DropOne(t: Tables, gone: set<Hash>, h: Hash)
    ensures t.blobs - gone - {h} == t.blobs - (gone + {h})
  {
  }

  lemma AloneFacing(p: Pass, t: Tables, i: nat)
    requires Alone(p) && i < |p.candidates|
    ensures Facing(p, t, i) == After(p, t, i) && p.ends[i] == Committed
    ensures !Stops(p, t, i)
  {
    assert p.others[i] in p.others && p.ends[i] in p.ends && p.candidates[i] in p.candidates;
  }

  lemma AloneMatches(p: Pass, t: Tables, i: nat, gone: set<Hash>)
    requires Alone(p) && i < |p.candidates| && Consistent(t)
    requires After(p, t, i) == Tables(t.blobs - gone, t.refs)
    ensures Matches(p, t, i) <==> Garbage(t, p.candidates[i].hash, p.cutoff) && p.candidates[i].hash !in gone
    ensures After(p, t, i + 1) == if Matches(p, t, i)
                                  then Tables(t.blobs - (gone + {p.candidates[i].hash}), t.refs) else After(p, t, i)
  {
    var h := p.candidates[i].hash;
    AloneFacing(p, t, i);
    TurnExact(p, t, i);
    assert Matches(p, t, i) <==> Garbage(After(p, t, i), h, p.cutoff);
    GarbageLeft(t, gone, h, p.cutoff);
    DropOne(t, gone, h);
  }

  lemma {:induction false} AfterAlone(p: Pass, t: Tables, n: nat)
    requires Alone(p) && n <= |p.candidates| && Consistent(t)
    ensures After(p, t, n) == Tables(t.blobs - GarbageAmong(p, t, n), t.refs)
    decreases n
  {
    if n == 0 {
      assert t.blobs - GarbageAmong(p, t, 0) == t.blobs;
    } else {
      AfterAlone(p, t, n - 1);
      AloneMatches(p, t, n - 1, GarbageAmong(p, t, n - 1));
      assert !Matches(p, t, n - 1) ==> GarbageAmong(p, t, n) == GarbageAmong(p, t, n - 1);
    }
  }

  lemma MatchesAlone(p: Pass, t: Tables, i: nat)
    requires Alone(p) && i < |p.candidates| && Consistent(t)
    ensures var seen := GarbageAmong(p, t, i);
            GarbageAmong(p, t, i + 1) == if Matches(p, t, i) then seen + {p.candidates[i].hash} else seen
    ensures Matches(p, t, i) ==> p.candidates[i].hash !in GarbageAmong(p, t, i)
  {
    AfterAlone(p, t, i);
    AloneMatches(p, t, i, GarbageAmong(p, t, i));
  }

  lemma {:induction false} UnlinkedAlone(p: Pass, t: Tables, n: nat)
    requires Alone(p) && n <= |p.candidates| && Consistent(t)
    ensures Unlinked(p, t, n) == GarbageAmong(p, t, n)
    decreases n
  {
    if n > 0 {
      UnlinkedAlone(p, t, n - 1);
      MatchesAlone(p, t, n - 1);
    }
  }

  lemma {:induction false} CountedAlone(p: Pass, t: Tables, n: nat)
    requires Alone(p) && n <= |p.candidates| && Consistent(t)
    ensures Collected(p, t, n) == |GarbageAmong(p, t, n)|
    decreases n
  {
    if n > 0 {
      CountedAlone(p, t, n - 1);
      MatchesAlone(p, t, n - 1);
    }
  }

  /** A pass nobody disturbs deletes every garbage blob among its candidates, row and file, and no
      other row; it counts each once, however often it was listed, and never stops early. */
  lemma PassAlone(p: Pass, t: Tables)
    requires Alone(p) && Consistent(t)
    ensures After(p, t, |p.candidates|) == Tables(t.blobs - GarbageAmong(p, t, |p.candidates|), t.refs)
    ensures Unlinked(p, t, |p.candidates|) == GarbageAmong(p, t, |p.candidates|)
    ensures Collected(p, t, |p.candidates|) == |GarbageAmong(p, t, |p.candidates|)|
    ensures forall i | 0 <= i < |p.candidates| :: !Stops(p, t, i)
  {
    AfterAlone(p, t, |p.candidates|);
    UnlinkedAlone(p, t, |p.candidates|);
    CountedAlone(p, t, |p.candidates|);
    forall i | 0 <= i < |p.candidates|
      ensures !Stops(p, t, i)
    {
      AloneFacing(p, t, i);
    }
  }

  // ---------------------------------------------------------------------------
  // A pin sweep
  // ---------------------------------------------------------------------------

  datatype Sweep = Sweep(hashes: seq<Hash>, cutoff: Time, now: Time, others: seq<seq<Other>>, ends: seq<TxEnd>)

  predicate ValidSweep(w: Sweep) {
    |w.others| == |w.hashes| == |w.ends|
  }

  function PinsExpired(t: Tables, h: Hash, cutoff: Time, now: Time): Tables {
    if Finds(ExpirePins(h, cutoff), t) then Apply(ExpirePins(h, cutoff), t, now) else t
  }

  function Swept(w: Sweep, t: Tables, n: nat): Tables
    requires ValidSweep(w) && n <= |w.hashes|
    decreases n, 0
  {
    if n == 0 then t
    else if w.ends[n - 1] == RolledBack then Seen(w, t, n - 1)
    else PinsExpired(Seen(w, t, n - 1), w.hashes[n - 1], w.cutoff, w.now)
  }

  // The tables blob i's transaction meets.
  function Seen(w: Sweep, t: Tables, i: nat): Tables
    requires ValidSweep(w) && i < |w.hashes|
    decreases i, 1
  {
    Interleaved(Swept(w, t, i), w.others[i])
  }

  // By how many rows the first n transactions shrank the table of references.
  function RowsRemoved(w: Sweep, t: Tables, n: nat): int
    requires ValidSweep(w) && n <= |w.hashes|
  {
    if n == 0 then 0 else RowsRemoved(w, t, n - 1) + |Seen(w, t, n - 1).refs| - |Swept(w, t, n).refs|
  }

  lemma PinsExpiredConsistent(t: Tables, h: Hash, cutoff: Time, now: Time)
    requires Consistent(t)
    ensures Consistent(PinsExpired(t, h, cutoff, now))
  {
    if Finds(ExpirePins(h, cutoff), t) {
      ApplyConsistent(ExpirePins(h, cutoff), t, now);
    }
  }

  /** So does the sweep. */
  lemma {:induction false} SweptConsistent(w: Sweep, t: Tables, n: nat)
    requires ValidSweep(w) && n <= |w.hashes| && Consistent(t)
    ensures Consistent(Swept(w, t, n))
    ensures n < |w.hashes| ==> Consistent(Seen(w, t, n))
    decreases n
  {
    if n > 0 {
      SweptConsistent(w, t, n - 1);
      PinsExpiredConsistent(Seen(w, t, n - 1), w.hashes[n - 1], w.cutoff, w.now);
    }
    if n < |w.hashes| {
      InterleavedConsistent(Swept(w, t, n), w.others[n]);
    }
  }

  /** At its turn a blob loses exactly its pins created before the cutoff, unless the transaction
      rolls back; every other reference stays, and its count and stamp follow. */
  lemma SweepExact(w: Sweep, t: Tables, i: nat)
    requires ValidSweep(w) && i < |w.hashes| && Consistent(t)
    ensures w.ends[i] == RolledBack ==> Swept(w, t, i + 1) == Seen(w, t, i)
    ensures w.ends[i] != RolledBack ==>
              Loses(Seen(w, t, i), Swept(w, t, i + 1), w.hashes[i], OldPin(Seen(w, t, i), w.hashes[i], w.cutoff), w.now)
  {
    SweptConsistent(w, t, i);
    var u, h := Seen(w, t, i), w.hashes[i];
    if h in u.blobs {
      ExpireOutcome(u, h, w.cutoff, w.now);
    }
  }

  // ---------------------------------------------------------------------------
  // Undisturbed sweeps
  // ---------------------------------------------------------------------------

  predicate OldPinOf(k: RefKey, row: RefRow, hashes: seq<Hash>, cutoff: Time) {
    k.hash in hashes && k.kind == Pin && row.createdAt < cutoff
  }

  /** A sweep nobody disturbs leaves exactly the references that are not expired pins of the blobs
      it visits. */
  lemma {:induction false} SweepAlone(w: Sweep, t: Tables, n: nat, k: RefKey)
    requires ValidSweep(w) && n <= |w.hashes| && Consistent(t)
    requires (forall o | o in w.others :: o == []) && (forall e | e in w.ends :: e == Committed)
    ensures k in Swept(w, t, n).refs <==> k in t.refs && !OldPinOf(k, t.refs[k], w.hashes[..n], w.cutoff)
    ensures k in Swept(w, t, n).refs ==> Swept(w, t, n).refs[k] == t.refs[k]
    decreases n
  {
    if n > 0 {
      SweepAlone(w, t, n - 1, k);
      assert w.others[n - 1] in w.others && w.ends[n - 1] in w.ends;
      assert w.hashes[..n] == w.hashes[..n - 1] + [w.hashes[n - 1]];
      assert Seen(w, t, n - 1) == Swept(w, t, n - 1);
      SweepExact(w, t, n - 1);
    }
  }
}
