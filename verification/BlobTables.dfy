/**
 The two tables of the blob store, `blobs` and `blob_refs`, and the effect that each
 locked operation of internal/blob has on them.

 An operation is written as the three statements the code issues: a locking read, a
 write, and a recomputation of the count. Everything is a function of the tables and
 of the transaction's start time, because `now()` in PostgreSQL is the start time of
 the transaction.
 */
module BlobTables {
  import opened Prelude

  // The 32 bytes of a sha256 read as one big-endian number, so that the byte order
  // the code sorts by is the numeric order.
  type Hash = nat

  type Time = int

  datatype OwnerKind = Message | Part | Draft | Pin

  // The unique index on blob_refs is (sha256, owner_kind, owner_id).
  datatype RefKey = RefKey(hash: Hash, kind: OwnerKind, owner: int)

  datatype RefRow = RefRow(account: int, createdAt: Time)

  datatype BlobRow = BlobRow(size: nat, refcount: nat, zeroSince: Option<Time>)

  datatype Tables = Tables(blobs: map<Hash, BlobRow>, refs: map<RefKey, RefRow>)

  // What one reference claims about a blob, apart from which blob it is.
  datatype Claim = Claim(account: int, kind: OwnerKind, owner: int)

  datatype Ref = Ref(hash: Hash, claim: Claim)

  datatype Op =
    | Record(hash: Hash, size: nat)
    | Add(hash: Hash, claims: seq<Claim>)
    | Remove(hash: Hash, kind: OwnerKind, owner: int)
    | ExpirePins(hash: Hash, cutoff: Time)
    | Collect(hash: Hash, cutoff: Time)

  function RefsOf(refs: map<RefKey, RefRow>, h: Hash): set<RefKey> {
    set k | k in refs && k.hash == h
  }

  // INSERT INTO blob_refs ... ON CONFLICT DO NOTHING.
  function Insert(refs: map<RefKey, RefRow>, h: Hash, c: Claim, now: Time): map<RefKey, RefRow> {
    var key := RefKey(h, c.kind, c.owner);
    if key in refs then refs else refs[key := RefRow(c.account, now)]
  }

  function InsertAll(refs: map<RefKey, RefRow>, h: Hash, claims: seq<Claim>, now: Time): map<RefKey, RefRow>
    decreases |claims|
  {
    if claims == [] then refs
    else Insert(InsertAll(refs, h, claims[..|claims| - 1], now), h, claims[|claims| - 1], now)
  }

  // syncRefcount: derive the count from the rows and keep zero_ref_since.
  function Resync(row: BlobRow, n: nat, now: Time): BlobRow {
    row.(refcount := n,
         zeroSince := if n > 0 then None else if row.zeroSince.Some? then row.zeroSince else Some(now))
  }

  function Synced(t: Tables, h: Hash, now: Time): Tables {
    if h !in t.blobs then t
    else t.(blobs := t.blobs[h := Resync(t.blobs[h], |RefsOf(t.refs, h)|, now)])
  }

  // Does the locking read of the operation return a row?
  predicate Finds(op: Op, t: Tables) {
    match op
    case Record(_, _) => true
    case Collect(h, cutoff) =>
      && h in t.blobs
      && t.blobs[h].refcount == 0
      && t.blobs[h].zeroSince.Some?
      && t.blobs[h].zeroSince.value < cutoff
    case _ => op.hash in t.blobs
  }

  predicate Expired(k: RefKey, row: RefRow, h: Hash, cutoff: Time) {
    k.hash == h && k.kind == Pin && row.createdAt < cutoff
  }

  // The write the operation does under its lock.
  function Write(op: Op, t: Tables, now: Time): Tables {
    match op
    case Record(h, size) =>
      if h in t.blobs then t else t.(blobs := t.blobs[h := BlobRow(size, 0, Some(now))])
    case Add(h, claims) => t.(refs := InsertAll(t.refs, h, claims, now))
    case Remove(h, kind, owner) => t.(refs := t.refs - {RefKey(h, kind, owner)})
    case ExpirePins(h, cutoff) =>
      t.(refs := map k | k in t.refs && !Expired(k, t.refs[k], h, cutoff) :: t.refs[k])
    case Collect(h, _) =>
      if h in t.blobs && t.blobs[h].refcount == 0 then t.(blobs := t.blobs - {h}) else t
  }

  // The recomputation that follows the write. Pin expiry skips it when it removed
  // nothing, and neither Put nor the collector recompute at all.
  function Settle(op: Op, changed: bool, t: Tables, now: Time): Tables {
    match op
    case Add(h, _) => Synced(t, h, now)
    case Remove(h, _, _) => Synced(t, h, now)
    case ExpirePins(h, _) => if changed then Synced(t, h, now) else t
    case Record(_, _) => t
    case Collect(_, _) => t
  }

  function Apply(op: Op, t: Tables, now: Time): Tables {
    var w := Write(op, t, now);
    Settle(op, w.refs != t.refs, w, now)
  }

  function ApplyAll(ops: seq<Op>, t: Tables, now: Time): Tables {
    if ops == [] then t else ApplyAll(ops[1..], Apply(ops[0], t, now), now)
  }

  // Every operation of the list finds its row when its turn comes.
  predicate Performs(ops: seq<Op>, t: Tables, now: Time) {
    ops == [] || (Finds(ops[0], t) && Performs(ops[1..], Apply(ops[0], t, now), now))
  }

  /** The bookkeeping invariant: counts are the number of reference rows, the zero stamp
      is null exactly for a positive count, and no reference row lacks its blob row. */
  predicate CountsAgree(t: Tables) {
    forall h | h in t.blobs ::
      && t.blobs[h].refcount == |RefsOf(t.refs, h)|
      && (t.blobs[h].zeroSince.None? <==> t.blobs[h].refcount > 0)
  }

  predicate NoDangling(t: Tables) {
    forall k | k in t.refs :: k.hash in t.blobs
  }

  predicate Consistent(t: Tables) {
    CountsAgree(t) && NoDangling(t)
  }

  // ---------------------------------------------------------------------------
  // What one operation keeps
  // ---------------------------------------------------------------------------

  lemma {:induction false} InsertAllFrame(refs: map<RefKey, RefRow>, h: Hash, claims: seq<Claim>, now: Time)
    ensures forall k: RefKey | k.hash != h :: k in InsertAll(refs, h, claims, now) <==> k in refs
    ensures forall k | k in refs :: k in InsertAll(refs, h, claims, now) && InsertAll(refs, h, claims, now)[k] == refs[k]
    decreases |claims|
  {
    if claims != [] {
      InsertAllFrame(refs, h, claims[..|claims| - 1], now);
    }
  }

  lemma RefsOfOther(refs: map<RefKey, RefRow>, refs': map<RefKey, RefRow>, h: Hash)
    requires forall k: RefKey | k.hash != h :: k in refs' <==> k in refs
    ensures forall g | g != h :: RefsOf(refs', g) == RefsOf(refs, g)
  {
  }

  /** A write changes the reference rows of its own blob only. */
  lemma WriteFrame(op: Op, t: Tables, now: Time)
    ensures forall k: RefKey | k.hash != op.hash :: k in Write(op, t, now).refs <==> k in t.refs
    ensures forall k: RefKey | k.hash != op.hash && k in t.refs :: Write(op, t, now).refs[k] == t.refs[k]
    ensures forall g | g != op.hash :: RefsOf(Write(op, t, now).refs, g) == RefsOf(t.refs, g)
  {
    if op.Add? {
      InsertAllFrame(t.refs, op.hash, op.claims, now);
    }
    RefsOfOther(t.refs, Write(op, t, now).refs, op.hash);
  }

  lemma SyncedAgrees(t: Tables, h: Hash, now: Time)
    requires NoDangling(t)
    requires forall g | g in t.blobs && g != h ::
      && t.blobs[g].refcount == |RefsOf(t.refs, g)|
      && (t.blobs[g].zeroSince.None? <==> t.blobs[g].refcount > 0)
    ensures Consistent(Synced(t, h, now))
  {
  }

  lemma CollectedHasNoRefs(t: Tables, h: Hash)
    requires Consistent(t) && h in t.blobs && t.blobs[h].refcount == 0
    ensures forall k | k in t.refs :: k.hash != h
  {
    assert RefsOf(t.refs, h) == {};
    forall k | k in t.refs
      ensures k.hash != h
    {
      assert k !in RefsOf(t.refs, h);
    }
  }

  /** Every operation that finds its row keeps the bookkeeping invariant. In particular the
      collector's DELETE never meets the foreign key's ON DELETE RESTRICT. */
  lemma ApplyConsistent(op: Op, t: Tables, now: Time)
    requires Consistent(t) && Finds(op, t)
    ensures Consistent(Apply(op, t, now))
  {
    var w := Write(op, t, now);
    WriteFrame(op, t, now);
    match op
    case Record(h, size) =>
      assert w.refs == t.refs;
      if h !in t.blobs {
        assert RefsOf(t.refs, h) == {};
      }
    case Add(h, claims) =>
      InsertAllFrame(t.refs, h, claims, now);
      SyncedAgrees(w, h, now);
    case Remove(h, kind, owner) =>
      SyncedAgrees(w, h, now);
    case ExpirePins(h, cutoff) =>
      if w.refs != t.refs {
        SyncedAgrees(w, h, now);
      }
    case Collect(h, cutoff) =>
      CollectedHasNoRefs(t, h);
  }

  lemma {:induction false} ApplyAllConsistent(ops: seq<Op>, t: Tables, now: Time)
    requires Consistent(t) && Performs(ops, t, now)
    ensures Consistent(ApplyAll(ops, t, now))
    decreases |ops|
  {
    if ops != [] {
      ApplyConsistent(ops[0], t, now);
      ApplyAllConsistent(ops[1..], Apply(ops[0], t, now), now);
    }
  }

  lemma {:induction false} ApplyAllAppend(ops: seq<Op>, op: Op, t: Tables, now: Time)
    ensures ApplyAll(ops + [op], t, now) == Apply(op, ApplyAll(ops, t, now), now)
    ensures Performs(ops + [op], t, now) <==> Performs(ops, t, now) && Finds(op, ApplyAll(ops, t, now))
    decreases |ops|
  {
    if ops == [] {
      assert ops + [op] == [op];
    } else {
      assert (ops + [op])[1..] == ops[1..] + [op];
      ApplyAllAppend(ops[1..], op, Apply(ops[0], t, now), now);
    }
  }

  // ---------------------------------------------------------------------------
  // Locality: an operation on a blob reads and writes that blob's rows only
  // ---------------------------------------------------------------------------

  predicate Within(t: Tables, hs: set<Hash>) {
    (forall h | h in t.blobs :: h in hs) && (forall k | k in t.refs :: k.hash in hs)
  }

  predicate Outside(t: Tables, hs: set<Hash>) {
    (forall h | h in t.blobs :: h !in hs) && (forall k | k in t.refs :: k.hash !in hs)
  }

  function Restrict(t: Tables, hs: set<Hash>): Tables {
    Tables(map h | h in t.blobs && h in hs :: t.blobs[h], map k | k in t.refs && k.hash in hs :: t.refs[k])
  }

  function Without(t: Tables, hs: set<Hash>): Tables {
    Tables(map h | h in t.blobs && h !in hs :: t.blobs[h], map k | k in t.refs && k.hash !in hs :: t.refs[k])
  }

  function Join(a: Tables, b: Tables): Tables {
    Tables(a.blobs + b.blobs, a.refs + b.refs)
  }

  // The tables after a transaction that holds the blobs `hs` publishes its rows for them.
  function Publish(t: Tables, hs: set<Hash>, work: Tables): Tables {
    Tables(map h | h in work.blobs.Keys + t.blobs.Keys && (h in work.blobs || h !in hs)
             :: if h in work.blobs then work.blobs[h] else t.blobs[h],
           map k | k in work.refs.Keys + t.refs.Keys && (k in work.refs || k.hash !in hs)
             :: if k in work.refs then work.refs[k] else t.refs[k])
  }

  lemma PublishIsJoin(t: Tables, hs: set<Hash>, work: Tables)
    requires Within(work, hs)
    ensures Publish(t, hs, work) == Join(work, Without(t, hs))
  {
    var l, r := Publish(t, hs, work), Join(work, Without(t, hs));
    assert l.blobs == r.blobs;
    assert l.refs == r.refs;
  }

  lemma JoinSplit(t: Tables, hs: set<Hash>)
    ensures Join(Restrict(t, hs), Without(t, hs)) == t
  {
    var j := Join(Restrict(t, hs), Without(t, hs));
    assert j.blobs == t.blobs;
    assert j.refs == t.refs;
  }

  lemma RefsOfJoin(a: Tables, b: Tables, hs: set<Hash>, h: Hash)
    requires Within(a, hs) && Outside(b, hs) && h in hs
    ensures RefsOf(Join(a, b).refs, h) == RefsOf(a.refs, h)
  {
  }

  lemma {:induction false} InsertAllJoin(a: Tables, b: Tables, hs: set<Hash>, h: Hash, claims: seq<Claim>, now: Time)
    requires Within(a, hs) && Outside(b, hs) && h in hs
    ensures InsertAll(a.refs + b.refs, h, claims, now) == InsertAll(a.refs, h, claims, now) + b.refs
    decreases |claims|
  {
    if claims != [] {
      InsertAllJoin(a, b, hs, h, claims[..|claims| - 1], now);
      assert RefKey(h, claims[|claims| - 1].kind, claims[|claims| - 1].owner) !in b.refs;
    }
  }

  lemma JoinInjective(a: Tables, a': Tables, b: Tables, hs: set<Hash>)
    requires Within(a, hs) && Within(a', hs) && Outside(b, hs)
    requires Join(a, b).refs == Join(a', b).refs
    ensures a.refs == a'.refs
  {
    forall k | k in a.refs || k in a'.refs
      ensures k in a.refs && k in a'.refs && a.refs[k] == a'.refs[k]
    {
      assert k.hash in hs && k !in b.refs;
      assert k in Join(a, b).refs && k in Join(a', b).refs;
    }
  }

  lemma ExpireJoin(op: Op, a: Tables, b: Tables, hs: set<Hash>, now: Time)
    requires Within(a, hs) && Outside(b, hs) && op.hash in hs && op.ExpirePins?
    ensures Write(op, Join(a, b), now).refs == Write(op, a, now).refs + b.refs
  {
    var l, r := Write(op, Join(a, b), now).refs, Write(op, a, now).refs + b.refs;
    forall k | k in l || k in r
      ensures k in l && k in r && l[k] == r[k]
    {
      if k in b.refs {
        assert k.hash != op.hash;
      }
    }
  }

  lemma RemoveJoin(op: Op, a: Tables, b: Tables, hs: set<Hash>, now: Time)
    requires Within(a, hs) && Outside(b, hs) && op.hash in hs && op.Remove?
    ensures Write(op, Join(a, b), now).refs == Write(op, a, now).refs + b.refs
  {
    assert RefKey(op.hash, op.kind, op.owner) !in b.refs;
  }

  lemma BlobsJoin(op: Op, a: Tables, b: Tables, hs: set<Hash>, now: Time)
    requires Within(a, hs) && Outside(b, hs) && op.hash in hs
    ensures Write(op, Join(a, b), now).blobs == Write(op, a, now).blobs + b.blobs
  {
    assert op.hash !in b.blobs;
  }

  lemma WriteJoin(op: Op, a: Tables, b: Tables, hs: set<Hash>, now: Time)
    requires Within(a, hs) && Outside(b, hs) && op.hash in hs
    ensures Write(op, Join(a, b), now) == Join(Write(op, a, now), b)
    ensures Within(Write(op, a, now), hs)
  {
    BlobsJoin(op, a, b, hs, now);
    WriteWithin(op, a, hs, now);
    match op
    case Add(h, claims) => InsertAllJoin(a, b, hs, h, claims, now);
    case Remove(_, _, _) => RemoveJoin(op, a, b, hs, now);
    case ExpirePins(_, _) => ExpireJoin(op, a, b, hs, now);
    case _ =>
  }

  lemma WriteWithin(op: Op, a: Tables, hs: set<Hash>, now: Time)
    requires Within(a, hs) && op.hash in hs
    ensures Within(Write(op, a, now), hs)
  {
    WriteFrame(op, a, now);
    forall k | k in Write(op, a, now).refs
      ensures k.hash in hs
    {
      assert k.hash == op.hash || k in a.refs;
    }
  }

  lemma SettleJoin(op: Op, changed: bool, a: Tables, b: Tables, hs: set<Hash>, now: Time)
    requires Within(a, hs) && Outside(b, hs) && op.hash in hs
    ensures Settle(op, changed, Join(a, b), now) == Join(Settle(op, changed, a, now), b)
    ensures Within(Settle(op, changed, a, now), hs)
  {
    RefsOfJoin(a, b, hs, op.hash);
    var l, r := Settle(op, changed, Join(a, b), now), Join(Settle(op, changed, a, now), b);
    assert l.blobs == r.blobs;
    assert l.refs == r.refs;
  }

  lemma FindsJoin(op: Op, a: Tables, b: Tables, hs: set<Hash>)
    requires Within(a, hs) && Outside(b, hs) && op.hash in hs
    ensures Finds(op, Join(a, b)) <==> Finds(op, a)
  {
  }

  lemma ApplyJoin(op: Op, a: Tables, b: Tables, hs: set<Hash>, now: Time)
    requires Within(a, hs) && Outside(b, hs) && op.hash in hs
    ensures Apply(op, Join(a, b), now) == Join(Apply(op, a, now), b)
    ensures Within(Apply(op, a, now), hs)
  {
    WriteJoin(op, a, b, hs, now);
    var w := Write(op, a, now);
    if Join(w, b).refs == Join(a, b).refs {
      JoinInjective(w, a, b, hs);
    }
    SettleJoin(op, w.refs != a.refs, w, b, hs, now);
  }

  /** Running operations on their own blobs' rows and then putting the rest of the tables
      back is the same as running them on the whole tables. */
  lemma {:induction false} ApplyAllJoin(ops: seq<Op>, a: Tables, b: Tables, hs: set<Hash>, now: Time)
    requires Within(a, hs) && Outside(b, hs)
    requires forall op | op in ops :: op.hash in hs
    ensures ApplyAll(ops, Join(a, b), now) == Join(ApplyAll(ops, a, now), b)
    ensures Within(ApplyAll(ops, a, now), hs)
    ensures Performs(ops, Join(a, b), now) <==> Performs(ops, a, now)
    decreases |ops|
  {
    if ops != [] {
      ApplyJoin(ops[0], a, b, hs, now);
      FindsJoin(ops[0], a, b, hs);
      ApplyAllJoin(ops[1..], Apply(ops[0], a, now), b, hs, now);
    }
  }
}
