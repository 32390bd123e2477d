/**
 The pass that re-seals every stored credential, with other writers at work beside it.

 The pass lists the accounts once and then writes back, row by row, what it made of the listed
 envelopes; between the listing and each write others may re-issue credentials, change their state,
 add accounts and delete them. `After` is the table the pass leaves, `Quiet` the one the others alone
 would have left, and comparing the two says exactly what the pass does to everybody else's writes.
 */
module RotationPass {
  import opened Prelude
  import opened KeyRotation

  datatype CredentialState = Pending | Active | Invalid | Revoked

  // The IMAP user and the sealed password; an empty envelope is a pending account's.
  datatype Credential = Credential(user: string, envelope: Bytes)

  datatype Row = Row(cred: Credential, state: CredentialState)

  type Table = map<int, Row>

  // ---------------------------------------------------------------------------
  // Other writers
  // ---------------------------------------------------------------------------

  datatype Act =
    | Reissue(id: int, cred: Credential)
    | SetState(id: int, state: CredentialState)
    | Add(id: int, row: Row)
    | Delete(id: int)

  // SetAccountCredentials: the user and the envelope, and with them the state.
  function Credited(t: Table, id: int, cred: Credential): Table {
    if id in t then t[id := Row(cred, Active)] else t
  }

  function Acted(t: Table, a: Act): Table {
    match a
    case Reissue(id, cred) => Credited(t, id, cred)
    case SetState(id, state) => if id in t then t[id := t[id].(state := state)] else t
    case Add(id, row) => t[id := row]
    case Delete(id) => t - {id}
  }

  function ActedAll(t: Table, acts: seq<Act>): Table {
    if acts == [] then t else Acted(ActedAll(t, acts[..|acts| - 1]), acts[|acts| - 1])
  }

  // The act gives the account another credential, or takes the account away.
  predicate Resets(a: Act, id: int) {
    a.id == id && !a.SetState?
  }

  predicate ResetIn(acts: seq<Act>, id: int) {
    exists a | a in acts :: Resets(a, id)
  }

  predicate TouchedIn(acts: seq<Act>, id: int) {
    exists a | a in acts :: a.id == id
  }

  // ---------------------------------------------------------------------------
  // The pass
  // ---------------------------------------------------------------------------

  // What the store does with one write: a reported failure may or may not have taken effect.
  datatype WriteOutcome = Stored | Refused | StoredButReported

  // Everything a pass depends on; others[i] is done between the write of row i - 1, or the listing,
  // and that of row i.
  datatype Pass = Pass(aead: Aead, kr: Keyring, aads: int -> Bytes, dryRun: bool,
                       listed: Table, ids: seq<int>, nonces: seq<Bytes>, outcomes: seq<WriteOutcome>,
                       others: seq<seq<Act>>)

  ghost predicate ValidPass(p: Pass) {
    && RoundTrips(p.aead) && ValidRing(p.kr)
    && |p.nonces| == |p.outcomes| == |p.others| == |p.ids|
    && (forall i | 0 <= i < |p.ids| :: p.ids[i] in p.listed && |p.nonces[i]| == NONCE_SIZE)
    && (forall i, j | 0 <= i < j < |p.ids| :: p.ids[i] != p.ids[j])
    && (forall id | id in p.listed :: id in p.ids)
  }

  function Opened(p: Pass, id: int, envelope: Bytes): Result<Bytes, Error> {
    Open(p.aead, p.kr, envelope, p.aads(id))
  }

  // The envelope the pass has for row i: none for an empty, an unreadable or a current one.
  function Resealed(p: Pass, i: nat): Option<Bytes>
    requires i < |p.ids| == |p.nonces| && p.ids[i] in p.listed
  {
    var id := p.ids[i];
    if p.listed[id].cred.envelope == [] then None
    else
      match Rotate(p.aead, p.kr, p.nonces[i], p.listed[id].cred.envelope, p.aads(id))
      case Err(_) => None
      case Ok((envelope, changed)) => if changed then Some(envelope) else None
  }

  ghost predicate Writes(p: Pass, i: nat)
    requires ValidPass(p) && i < |p.ids|
  {
    Resealed(p, i).Some? && !p.dryRun && p.outcomes[i] != Refused
  }

  // What the pass writes for row i: the listed user, and the envelope re-sealed.
  ghost function Put(p: Pass, i: nat): Credential
    requires ValidPass(p) && i < |p.ids| && Resealed(p, i).Some?
  {
    Credential(p.listed[p.ids[i]].cred.user, Resealed(p, i).value)
  }

  ghost function Written(p: Pass, t: Table, i: nat): Table
    requires ValidPass(p) && i < |p.ids|
  {
    if Writes(p, i) then Credited(t, p.ids[i], Put(p, i)) else t
  }

  ghost function After(p: Pass, n: nat): Table
    requires ValidPass(p) && n <= |p.ids|
  {
    if n == 0 then p.listed else Written(p, ActedAll(After(p, n - 1), p.others[n - 1]), n - 1)
  }

  ghost function Quiet(p: Pass, n: nat): Table
    requires ValidPass(p) && n <= |p.ids|
  {
    if n == 0 then p.listed else ActedAll(Quiet(p, n - 1), p.others[n - 1])
  }

  datatype Counters = Counters(resealed: nat, current: nat, skipped: nat, failed: nat)

  class Accounts {
    var rows: Table

    constructor (rows: Table)
      ensures this.rows == rows
    {
      this.rows := rows;
    }

    method OtherWriters(acts: seq<Act>)
      modifies this
      ensures rows == ActedAll(old(rows), acts)
    {
      for i := 0 to |acts|
        invariant rows == ActedAll(old(rows), acts[..i])
      {
        assert acts[..i + 1][..i] == acts[..i];
        rows := Acted(rows, acts[i]);
      }
      assert acts[..|acts|] == acts;
    }

    method SetCredentials(id: int, cred: Credential, outcome: WriteOutcome) returns (ok: bool)
      modifies this
      ensures ok <==> outcome == Stored && id in old(rows)
      ensures rows == if outcome == Refused then old(rows) else Credited(old(rows), id, cred)
    {
      ok := outcome == Stored && id in rows;
      if outcome != Refused && id in rows {
        rows := rows[id := Row(cred, Active)];
      }
    }

    /** One row of the pass, from the listed envelope, whatever the row holds by now. A row is counted
        as failed exactly if it does not open, or its write is not confirmed. */
    method RotateRow(p: Pass, i: nat, before: Counters) returns (c: Counters)
      requires ValidPass(p) && i < |p.ids|
      modifies this
      ensures rows == Written(p, old(rows), i)
      ensures c == Counted(p, old(rows), i, before)
    {
      var id := p.ids[i];
      var envelope := p.listed[id].cred.envelope;
      c := before;
      if |envelope| == 0 {
        return c.(skipped := c.skipped + 1);
      }
      RotateKeepsPlaintext(p.aead, p.kr, p.nonces[i], envelope, p.aads(id));
      var rotated := Rotate(p.aead, p.kr, p.nonces[i], envelope, p.aads(id));
      if rotated.Err? {
        return c.(failed := c.failed + 1);
      }
      if !rotated.value.1 {
        return c.(current := c.current + 1);
      }
      if p.dryRun {
        return c.(resealed := c.resealed + 1);
      }
      var ok := SetCredentials(id, Credential(p.listed[id].cred.user, rotated.value.0), p.outcomes[i]);
      c := if ok then c.(resealed := c.resealed + 1) else c.(failed := c.failed + 1);
    }

    /** keyRotate, stopped after `stop` rows. */
    method KeyRotate(p: Pass, stop: nat) returns (c: Counters)
      requires ValidPass(p) && stop <= |p.ids| && rows == p.listed
      modifies this
      ensures rows == After(p, stop)
      ensures c == Tally(p, stop)
    {
      c := Counters(0, 0, 0, 0);
      for i := 0 to stop
        invariant rows == After(p, i)
        invariant c == Tally(p, i)
      {
        OtherWriters(p.others[i]);
        c := RotateRow(p, i, c);
      }
    }
  }

  ghost predicate Fails(p: Pass, t: Table, i: nat)
    requires ValidPass(p) && i < |p.ids|
  {
    var id := p.ids[i];
    && p.listed[id].cred.envelope != []
    && (|| Opened(p, id, p.listed[id].cred.envelope).Err?
        || (Resealed(p, i).Some? && !p.dryRun && !(p.outcomes[i] == Stored && id in t)))
  }

  ghost predicate FailsAt(p: Pass, i: nat)
    requires ValidPass(p) && i < |p.ids|
  {
    Fails(p, ActedAll(After(p, i), p.others[i]), i)
  }

  // The listed envelope opens and is under the primary key already.
  ghost predicate Current(p: Pass, i: nat)
    requires ValidPass(p) && i < |p.ids|
  {
    var id, envelope := p.ids[i], p.listed[p.ids[i]].cred.envelope;
    Opened(p, id, envelope).Ok? && |envelope| > 1 && envelope[1] == p.kr.primary
  }

  // Row i counted once: empty, failed, current or re-sealed.
  ghost function Counted(p: Pass, t: Table, i: nat, c: Counters): Counters
    requires ValidPass(p) && i < |p.ids|
  {
    if p.listed[p.ids[i]].cred.envelope == [] then c.(skipped := c.skipped + 1)
    else if Fails(p, t, i) then c.(failed := c.failed + 1)
    else if Current(p, i) then c.(current := c.current + 1)
    else c.(resealed := c.resealed + 1)
  }

  ghost function Tally(p: Pass, n: nat): Counters
    requires ValidPass(p) && n <= |p.ids|
  {
    if n == 0 then Counters(0, 0, 0, 0)
    else Counted(p, ActedAll(After(p, n - 1), p.others[n - 1]), n - 1, Tally(p, n - 1))
  }

  ghost function Failures(p: Pass, n: nat): nat
    requires ValidPass(p) && n <= |p.ids|
  {
    Tally(p, n).failed
  }

  /** Every row is counted once. */
  lemma {:induction false} TallyTotal(p: Pass, n: nat)
    requires ValidPass(p) && n <= |p.ids|
    ensures var c := Tally(p, n); c.resealed + c.current + c.skipped + c.failed == n
  {
    if n > 0 {
      TallyTotal(p, n - 1);
    }
  }

  /** The pass re-seals exactly the listed envelopes that open and are under another key. */
  lemma ResealedIff(p: Pass, i: nat)
    requires ValidPass(p) && i < |p.ids|
    ensures var id, envelope := p.ids[i], p.listed[p.ids[i]].cred.envelope;
            Resealed(p, i).Some? <==> Opened(p, id, envelope).Ok? && !Current(p, i)
  {
    var id := p.ids[i];
    RotateKeepsPlaintext(p.aead, p.kr, p.nonces[i], p.listed[id].cred.envelope, p.aads(id));
  }

  lemma {:induction false} NoFailures(p: Pass, n: nat, i: nat)
    requires ValidPass(p) && i < n <= |p.ids| && Failures(p, n) == 0
    ensures !FailsAt(p, i)
    decreases n
  {
    if i < n - 1 {
      NoFailures(p, n - 1, i);
    }
  }

  // ---------------------------------------------------------------------------
  // What other writers' acts do to one row
  // ---------------------------------------------------------------------------

  lemma {:induction false} Untouched(t: Table, acts: seq<Act>, id: int)
    ensures !ResetIn(acts, id) ==>
              (id in ActedAll(t, acts) <==> id in t) && (id in t ==> ActedAll(t, acts)[id].cred == t[id].cred)
    ensures !TouchedIn(acts, id) && id in t ==> id in ActedAll(t, acts) && ActedAll(t, acts)[id] == t[id]
    decreases |acts|
  {
    if acts != [] {
      var front, last := acts[..|acts| - 1], acts[|acts| - 1];
      Untouched(t, front, id);
      assert last in acts && forall a | a in front :: a in acts;
    }
  }

  lemma {:induction false} ActedAlike(t: Table, u: Table, acts: seq<Act>)
    requires t.Keys == u.Keys
    ensures ActedAll(t, acts).Keys == ActedAll(u, acts).Keys
    decreases |acts|
  {
    if acts != [] {
      ActedAlike(t, u, acts[..|acts| - 1]);
    }
  }

  // A reset makes the credentials of the two tables equal, a touch their states.
  lemma {:induction false} ResetAlike(t: Table, u: Table, acts: seq<Act>, id: int)
    requires t.Keys == u.Keys && id in ActedAll(t, acts)
    ensures id in ActedAll(u, acts)
    ensures ResetIn(acts, id) || (id in t && t[id].cred == u[id].cred) ==>
              ActedAll(t, acts)[id].cred == ActedAll(u, acts)[id].cred
    ensures TouchedIn(acts, id) || (id in t && t[id].state == u[id].state) ==>
              ActedAll(t, acts)[id].state == ActedAll(u, acts)[id].state
    decreases |acts|
  {
    ActedAlike(t, u, acts);
    if acts != [] {
      var front, last := acts[..|acts| - 1], acts[|acts| - 1];
      ActedAlike(t, u, front);
      assert acts == front + [last];
      if last.id != id || last.SetState? {
        ResetAlike(t, u, front, id);
        assert ResetIn(acts, id) ==> ResetIn(front, id);
        assert last.id != id ==> (TouchedIn(acts, id) ==> TouchedIn(front, id));
      } else if last.Reissue? {
        ResetAlike(t, u, front, id);
      }
    }
  }

  // After a reset a row holds what one of the acts gave it.
  ghost predicate Given(acts: seq<Act>, id: int, cred: Credential) {
    exists a | a in acts :: Gives(a, id, cred)
  }

  predicate Gives(a: Act, id: int, cred: Credential) {
    || a == Reissue(id, cred)
    || (a.Add? && a.id == id && a.row.cred == cred)
  }

  lemma {:induction false} ResetGives(t: Table, acts: seq<Act>, id: int)
    requires ResetIn(acts, id) && id in ActedAll(t, acts)
    ensures Given(acts, id, ActedAll(t, acts)[id].cred)
    decreases |acts|
  {
    var front, last := acts[..|acts| - 1], acts[|acts| - 1];
    assert acts == front + [last];
    if Resets(last, id) {
      assert Gives(last, id, ActedAll(t, acts)[id].cred);
    } else {
      assert ResetIn(front, id);
      ResetGives(t, front, id);
    }
  }

  // ---------------------------------------------------------------------------
  // The pass against the others alone
  // ---------------------------------------------------------------------------

  // All acts up to and including those right before the write of row n - 1.
  ghost function ActsUpTo(p: Pass, n: nat): seq<Act>
    requires ValidPass(p) && n <= |p.ids|
  {
    if n == 0 then [] else ActsUpTo(p, n - 1) + p.others[n - 1]
  }

  lemma {:induction false} ActedConcat(t: Table, a: seq<Act>, b: seq<Act>)
    ensures ActedAll(t, a + b) == ActedAll(ActedAll(t, a), b)
    decreases |b|
  {
    if b == [] {
      assert a + b == a;
    } else {
      var n := |b| - 1;
      assert (a + b)[..|a + b| - 1] == a + b[..n];
      ActedConcat(t, a, b[..n]);
    }
  }

  lemma {:induction false} QuietIsActs(p: Pass, n: nat)
    requires ValidPass(p) && n <= |p.ids|
    ensures Quiet(p, n) == ActedAll(p.listed, ActsUpTo(p, n))
  {
    if n > 0 {
      QuietIsActs(p, n - 1);
      ActedConcat(p.listed, ActsUpTo(p, n - 1), p.others[n - 1]);
    }
  }

  // The write of the pass that still stands in the row's credential after n rows, if any.
  ghost function Standing(p: Pass, n: nat, id: int): Option<nat>
    requires ValidPass(p) && n <= |p.ids|
  {
    if n == 0 then None
    else if p.ids[n - 1] == id && Writes(p, n - 1) && id in Quiet(p, n) then Some(n - 1)
    else if ResetIn(p.others[n - 1], id) then None
    else Standing(p, n - 1, id)
  }

  lemma {:induction false} SameRows(p: Pass, n: nat)
    requires ValidPass(p) && n <= |p.ids|
    ensures After(p, n).Keys == Quiet(p, n).Keys
  {
    if n > 0 {
      SameRows(p, n - 1);
      ActedAlike(After(p, n - 1), Quiet(p, n - 1), p.others[n - 1]);
    }
  }

  // Where no write of the pass stands the credential is the others'; where one does, it is that write's,
  // and the others' is still what it was when the pass wrote.
  ghost predicate Explained(p: Pass, n: nat, id: int)
    requires ValidPass(p) && n <= |p.ids| && id in After(p, n) && id in Quiet(p, n)
  {
    match Standing(p, n, id)
    case None => After(p, n)[id].cred == Quiet(p, n)[id].cred
    case Some(k) =>
      && k < n && p.ids[k] == id && Writes(p, k)
      && After(p, n)[id].cred == Put(p, k)
      && id in Quiet(p, k + 1) && Quiet(p, n)[id].cred == Quiet(p, k + 1)[id].cred
  }

  lemma {:induction false} AllExplained(p: Pass, n: nat, id: int)
    requires ValidPass(p) && n <= |p.ids| && id in After(p, n)
    ensures id in Quiet(p, n) && Explained(p, n, id)
  {
    SameRows(p, n);
    if n > 0 {
      OthersAlike(p, n, id);
      if p.ids[n - 1] == id && Writes(p, n - 1) {
        assert Standing(p, n, id) == Some(n - 1);
      } else if ResetIn(p.others[n - 1], id) {
        assert Standing(p, n, id) == None;
      } else {
        assert Standing(p, n, id) == Standing(p, n - 1, id);
        AllExplained(p, n - 1, id);
      }
    }
  }

  // The acts before the write of row n - 1 make the two rows alike where they touch them, and leave
  // them as they were where they do not.
  lemma OthersAlike(p: Pass, n: nat, id: int)
    requires ValidPass(p) && 0 < n <= |p.ids| && id in After(p, n)
    ensures var t, u := ActedAll(After(p, n - 1), p.others[n - 1]), Quiet(p, n);
            && id in t && id in u
            && (ResetIn(p.others[n - 1], id) ==> t[id].cred == u[id].cred)
            && (TouchedIn(p.others[n - 1], id) ==> t[id].state == u[id].state)
            && (!ResetIn(p.others[n - 1], id) ==>
                  && id in After(p, n - 1) && id in Quiet(p, n - 1)
                  && t[id].cred == After(p, n - 1)[id].cred && u[id].cred == Quiet(p, n - 1)[id].cred)
            && (!TouchedIn(p.others[n - 1], id) ==>
                  && id in After(p, n - 1) && id in Quiet(p, n - 1)
                  && t[id].state == After(p, n - 1)[id].state && u[id].state == Quiet(p, n - 1)[id].state)
  {
    var acts := p.others[n - 1];
    SameRows(p, n - 1);
    ResetAlike(After(p, n - 1), Quiet(p, n - 1), acts, id);
    Untouched(After(p, n - 1), acts, id);
    Untouched(Quiet(p, n - 1), acts, id);
    assert !TouchedIn(acts, id) ==> !ResetIn(acts, id);
  }

  // No re-issued credential opens to what the listed one opens to.
  ghost predicate FreshCredentials(p: Pass, id: int)
    requires ValidPass(p)
  {
    id in p.listed ==>
      forall a, cred | a in ActsUpTo(p, |p.ids|) && Gives(a, id, cred) ::
        Opened(p, id, cred.envelope) != Opened(p, id, p.listed[id].cred.envelope)
  }

  // The account's credential was replaced between the listing and a write of the pass that stands:
  // a write needs a listed envelope that opens under an old key, a run that is not dry, and a store
  // that does not refuse, and it stands until the credential is replaced again.
  ghost predicate Overwritten(p: Pass, n: nat, id: int)
    requires ValidPass(p) && n <= |p.ids|
  {
    match Standing(p, n, id)
    case None => false
    case Some(k) => k < |p.ids| && ResetIn(ActsUpTo(p, k + 1), id)
  }

  lemma {:induction false} ActsGrow(p: Pass, m: nat, n: nat)
    requires ValidPass(p) && m <= n <= |p.ids|
    ensures forall a | a in ActsUpTo(p, m) :: a in ActsUpTo(p, n)
    decreases n
  {
    if m < n {
      ActsGrow(p, m, n - 1);
    }
  }

  /** Wherever the pass stops and whatever others do beside it, a row opens as it would without the
      pass if and only if the pass did not write over a credential replaced since the listing. */
  lemma ReissueKeptIff(p: Pass, n: nat, id: int)
    requires ValidPass(p) && n <= |p.ids| && id in After(p, n) && FreshCredentials(p, id)
    ensures id in Quiet(p, n)
    ensures Opened(p, id, After(p, n)[id].cred.envelope) == Opened(p, id, Quiet(p, n)[id].cred.envelope)
            <==> !Overwritten(p, n, id)
  {
    AllExplained(p, n, id);
    match Standing(p, n, id)
    case None =>
    case Some(k) =>
      ResealedOpens(p, k);
      ReplacedIff(p, k + 1, id);
  }

  // The others' credential opens as the listed one exactly while nobody has replaced it.
  lemma ReplacedIff(p: Pass, n: nat, id: int)
    requires ValidPass(p) && n <= |p.ids| && id in p.listed && id in Quiet(p, n) && FreshCredentials(p, id)
    ensures Opened(p, id, Quiet(p, n)[id].cred.envelope) == Opened(p, id, p.listed[id].cred.envelope)
            <==> !ResetIn(ActsUpTo(p, n), id)
  {
    QuietIsActs(p, n);
    var acts := ActsUpTo(p, n);
    if ResetIn(acts, id) {
      ResetGives(p.listed, acts, id);
      var cred := Quiet(p, n)[id].cred;
      var a :| a in acts && Gives(a, id, cred);
      ActsGrow(p, n, |p.ids|);
    } else {
      Untouched(p.listed, acts, id);
    }
  }

  lemma ResealedOpens(p: Pass, i: nat)
    requires ValidPass(p) && i < |p.ids| && Resealed(p, i).Some?
    ensures var id := p.ids[i];
            && Opened(p, id, p.listed[id].cred.envelope).Ok?
            && Opened(p, id, Resealed(p, i).value) == Opened(p, id, p.listed[id].cred.envelope)
            && Finished(p, id, Resealed(p, i).value)
  {
    var id := p.ids[i];
    RotateKeepsPlaintext(p.aead, p.kr, p.nonces[i], p.listed[id].cred.envelope, p.aads(id));
  }

  // The row has no credential, or one the primary key alone opens.
  predicate Finished(p: Pass, id: int, envelope: Bytes)
    requires ValidRing(p.kr)
  {
    envelope == [] || Open(p.aead, PrimaryOnly(p.kr), envelope, p.aads(id)).Ok?
  }

  /** A credential re-issued after the listing and before its row's write is lost: the pass of one
      account under an old key leaves the old credential, re-sealed. */
  lemma ConcurrentReissueIsLost(p: Pass, id: int, reissued: Credential)
    requires ValidPass(p) && p.ids == [id] && p.others == [[Reissue(id, reissued)]]
    requires !p.dryRun && p.outcomes == [Stored] && Resealed(p, 0).Some?
    requires Opened(p, id, reissued.envelope) != Opened(p, id, p.listed[id].cred.envelope)
    ensures id in After(p, 1) && id in Quiet(p, 1) && Quiet(p, 1)[id].cred == reissued
    ensures Opened(p, id, After(p, 1)[id].cred.envelope) == Opened(p, id, p.listed[id].cred.envelope)
    ensures Opened(p, id, After(p, 1)[id].cred.envelope) != Opened(p, id, Quiet(p, 1)[id].cred.envelope)
  {
    var acts := p.others[0];
    assert acts == [Reissue(id, reissued)] && acts[..0] == [];
    assert ActedAll(p.listed, acts) == Acted(p.listed, acts[0]);
    assert After(p, 1) == Written(p, ActedAll(After(p, 0), acts), 0);
    ResealedOpens(p, 0);
  }

  /** The pass leaves a row's user as it would be without the pass, unless it wrote the row while its
      user was not the listed one and nobody has replaced the credential since. */
  lemma UserKeptIff(p: Pass, n: nat, id: int)
    requires ValidPass(p) && n <= |p.ids| && id in After(p, n)
    ensures id in Quiet(p, n)
    ensures After(p, n)[id].cred.user == Quiet(p, n)[id].cred.user
            <==> match Standing(p, n, id)
                 case None => true
                 case Some(k) =>
                   k < |p.ids| && id in p.listed && id in Quiet(p, k + 1)
                   && Quiet(p, k + 1)[id].cred.user == p.listed[id].cred.user
  {
    AllExplained(p, n, id);
  }

  // ---------------------------------------------------------------------------
  // The credential state
  // ---------------------------------------------------------------------------

  // The write of the pass whose effect on the state still stands after n rows, if any.
  ghost function StandingState(p: Pass, n: nat, id: int): Option<nat>
    requires ValidPass(p) && n <= |p.ids|
  {
    if n == 0 then None
    else if p.ids[n - 1] == id && Writes(p, n - 1) && id in Quiet(p, n) then Some(n - 1)
    else if TouchedIn(p.others[n - 1], id) then None
    else StandingState(p, n - 1, id)
  }

  ghost predicate StateExplained(p: Pass, n: nat, id: int)
    requires ValidPass(p) && n <= |p.ids| && id in After(p, n) && id in Quiet(p, n)
  {
    match StandingState(p, n, id)
    case None => After(p, n)[id].state == Quiet(p, n)[id].state
    case Some(k) =>
      && k < n && After(p, n)[id].state == Active
      && id in Quiet(p, k + 1) && Quiet(p, n)[id].state == Quiet(p, k + 1)[id].state
  }

  lemma {:induction false} AllStatesExplained(p: Pass, n: nat, id: int)
    requires ValidPass(p) && n <= |p.ids| && id in After(p, n)
    ensures id in Quiet(p, n) && StateExplained(p, n, id)
  {
    SameRows(p, n);
    if n > 0 {
      OthersAlike(p, n, id);
      if p.ids[n - 1] == id && Writes(p, n - 1) {
        assert StandingState(p, n, id) == Some(n - 1);
      } else if TouchedIn(p.others[n - 1], id) {
        assert StandingState(p, n, id) == None;
      } else {
        assert StandingState(p, n, id) == StandingState(p, n - 1, id);
        AllStatesExplained(p, n - 1, id);
      }
    }
  }

  /** The pass leaves a row's state as it would be without the pass, unless it wrote the row while its
      credential was not active and nobody has touched the row since: then it revives it. */
  lemma RevivedIff(p: Pass, n: nat, id: int)
    requires ValidPass(p) && n <= |p.ids| && id in After(p, n)
    ensures id in Quiet(p, n)
    ensures After(p, n)[id].state != Quiet(p, n)[id].state
            <==> match StandingState(p, n, id)
                 case None => false
                 case Some(k) => k < |p.ids| && id in Quiet(p, k + 1) && Quiet(p, k + 1)[id].state != Active
  {
    AllStatesExplained(p, n, id);
  }

  /** A pass alone revives the revoked credential of an account being deleted. */
  lemma RevokedIsRevived(p: Pass, id: int)
    requires ValidPass(p) && p.ids == [id] && p.others == [[]] && id in p.listed && p.listed[id].state == Revoked
    requires !p.dryRun && p.outcomes == [Stored] && Resealed(p, 0).Some?
    ensures id in After(p, 1) && After(p, 1)[id].state == Active
  {
    assert After(p, 1) == Written(p, ActedAll(After(p, 0), p.others[0]), 0);
  }

  // ---------------------------------------------------------------------------
  // Without other writers, again and again, and to the end
  // ---------------------------------------------------------------------------

  ghost predicate Alone(p: Pass)
    requires ValidPass(p)
  {
    forall i | 0 <= i < |p.ids| :: p.others[i] == []
  }

  // What passes may have done to one credential.
  ghost predicate Kept(aead: Aead, kr: Keyring, aad: Bytes, before: Bytes, after: Bytes)
    requires ValidRing(kr)
  {
    || after == before
    || (&& Open(aead, kr, before, aad).Ok?
        && Open(aead, kr, after, aad) == Open(aead, kr, before, aad)
        && Open(aead, PrimaryOnly(kr), after, aad) == Open(aead, kr, before, aad))
  }

  // The same rows with the same users, and every credential kept.
  ghost predicate PassKeeps(aead: Aead, kr: Keyring, aads: int -> Bytes, before: Table, after: Table)
    requires ValidRing(kr)
  {
    && before.Keys == after.Keys
    && forall id | id in before ::
         && after[id].cred.user == before[id].cred.user
         && Kept(aead, kr, aads(id), before[id].cred.envelope, after[id].cred.envelope)
  }

  lemma {:induction false} AloneIsQuiet(p: Pass, n: nat)
    requires ValidPass(p) && Alone(p) && n <= |p.ids|
    ensures Quiet(p, n) == p.listed
  {
    if n > 0 {
      AloneIsQuiet(p, n - 1);
    }
  }

  /** Alone, wherever the pass stops and whatever writes fail, every credential still opens to what it
      opened to before; a dry run changes nothing. */
  lemma PassKeepsCredentials(p: Pass, n: nat)
    requires ValidPass(p) && Alone(p) && n <= |p.ids|
    ensures PassKeeps(p.aead, p.kr, p.aads, p.listed, After(p, n))
    ensures p.dryRun ==> After(p, n) == p.listed
  {
    AloneIsQuiet(p, n);
    SameRows(p, n);
    forall id | id in p.listed
      ensures After(p, n)[id].cred.user == p.listed[id].cred.user
      ensures Kept(p.aead, p.kr, p.aads(id), p.listed[id].cred.envelope, After(p, n)[id].cred.envelope)
    {
      AllExplained(p, n, id);
      if Standing(p, n, id).Some? {
        var k := Standing(p, n, id).value;
        RotateKeepsPlaintext(p.aead, p.kr, p.nonces[k], p.listed[id].cred.envelope, p.aads(id));
      }
    }
    if p.dryRun {
      DryIsQuiet(p, n);
    }
  }

  lemma {:induction false} DryIsQuiet(p: Pass, n: nat)
    requires ValidPass(p) && p.dryRun && n <= |p.ids|
    ensures After(p, n) == Quiet(p, n)
  {
    if n > 0 {
      DryIsQuiet(p, n - 1);
    }
  }

  lemma {:induction false} WriteStands(p: Pass, k: nat, n: nat)
    requires ValidPass(p) && k < n <= |p.ids| && Writes(p, k) && p.ids[k] in Quiet(p, k + 1)
    requires forall j | k < j < n :: !ResetIn(p.others[j], p.ids[k])
    ensures Standing(p, n, p.ids[k]) == Some(k)
    decreases n
  {
    if k + 1 < n {
      WriteStands(p, k, n - 1);
    }
  }

  lemma {:induction false} NotReset(p: Pass, n: nat, id: int)
    requires ValidPass(p) && n <= |p.ids| && !ResetIn(ActsUpTo(p, |p.ids|), id)
    ensures id in Quiet(p, n) <==> id in p.listed
    ensures id in p.listed ==> Quiet(p, n)[id].cred.envelope == p.listed[id].cred.envelope
    ensures forall j | 0 <= j < n :: !ResetIn(p.others[j], id)
  {
    ActsGrow(p, n, |p.ids|);
    QuietIsActs(p, n);
    Untouched(p.listed, ActsUpTo(p, n), id);
    forall j | 0 <= j < n
      ensures !ResetIn(p.others[j], id)
    {
      ActsGrow(p, j + 1, |p.ids|);
      assert forall a | a in p.others[j] :: a in ActsUpTo(p, j + 1);
    }
  }

  /** A complete run without failures, whatever others do beside it, leaves every credential nobody
      else replaced opening under the primary key alone. */
  lemma CompleteRunFinishes(p: Pass, id: int)
    requires ValidPass(p) && !p.dryRun && Failures(p, |p.ids|) == 0
    requires id in p.listed && !ResetIn(ActsUpTo(p, |p.ids|), id)
    ensures id in After(p, |p.ids|) && Finished(p, id, After(p, |p.ids|)[id].cred.envelope)
  {
    var n := |p.ids|;
    var k :| 0 <= k < n && p.ids[k] == id;
    NotReset(p, n, id);
    NotReset(p, k + 1, id);
    SameRows(p, n);
    SameRows(p, k + 1);
    AllExplained(p, n, id);
    NoFailures(p, n, k);
    if Resealed(p, k).Some? {
      WriteStands(p, k, n);
      ResealedOpens(p, k);
    } else {
      StandingNeedsReseal(p, n, id, k);
      NotResealedIsFinished(p, k);
    }
  }

  lemma NotResealedIsFinished(p: Pass, i: nat)
    requires ValidPass(p) && i < |p.ids| && Resealed(p, i).None? && !FailsAt(p, i)
    ensures Finished(p, p.ids[i], p.listed[p.ids[i]].cred.envelope)
  {
    ResealedIff(p, i);
  }

  lemma {:induction false} StandingNeedsReseal(p: Pass, n: nat, id: int, k: nat)
    requires ValidPass(p) && n <= |p.ids| && k < |p.ids| && p.ids[k] == id && Resealed(p, k).None?
    ensures Standing(p, n, id) == None
  {
    if n > 0 {
      StandingNeedsReseal(p, n - 1, id, k);
    }
  }

  /** Alone, with a store that takes every write, a row fails exactly if its envelope does not open. */
  lemma FailsIff(p: Pass, i: nat)
    requires ValidPass(p) && Alone(p) && i < |p.ids| && p.outcomes[i] == Stored
    ensures FailsAt(p, i) <==>
              var envelope := p.listed[p.ids[i]].cred.envelope; envelope != [] && Opened(p, p.ids[i], envelope).Err?
  {
    AloneIsQuiet(p, i);
    SameRows(p, i);
  }

  lemma FinishedIsNotResealed(p: Pass, i: nat)
    requires ValidPass(p) && i < |p.ids| && Finished(p, p.ids[i], p.listed[p.ids[i]].cred.envelope)
    ensures Resealed(p, i).None?
  {
    ResealedIff(p, i);
  }

  /** A credential already under the primary key is not written again: where all are, the pass leaves
      the table to the others, wherever it stops. */
  lemma {:induction false} NothingToDo(p: Pass, n: nat)
    requires ValidPass(p) && n <= |p.ids|
    requires forall i | 0 <= i < |p.ids| :: Finished(p, p.ids[i], p.listed[p.ids[i]].cred.envelope)
    ensures After(p, n) == Quiet(p, n)
  {
    if n > 0 {
      NothingToDo(p, n - 1);
      FinishedIsNotResealed(p, n - 1);
    }
  }

  /** The pass is idempotent: after one that completed without a failure, another, wherever it stops,
      leaves every row as it is, its state included. */
  lemma SecondPassIdle(p: Pass, q: Pass, n: nat)
    requires ValidPass(p) && Alone(p) && !p.dryRun && Failures(p, |p.ids|) == 0
    requires ValidPass(q) && Alone(q) && SameKeys(p, q) && q.listed == After(p, |p.ids|) && n <= |q.ids|
    ensures After(q, n) == q.listed
  {
    AloneIsQuiet(p, |p.ids|);
    SameRows(p, |p.ids|);
    NothingReset(p, |p.ids|);
    forall i | 0 <= i < |q.ids|
      ensures Finished(q, q.ids[i], q.listed[q.ids[i]].cred.envelope)
    {
      CompleteRunFinishes(p, q.ids[i]);
    }
    NothingToDo(q, n);
    AloneIsQuiet(q, n);
  }

  lemma KeptCompose(aead: Aead, kr: Keyring, aad: Bytes, a: Bytes, b: Bytes, c: Bytes)
    requires ValidRing(kr) && Kept(aead, kr, aad, a, b) && Kept(aead, kr, aad, b, c)
    ensures Kept(aead, kr, aad, a, c)
  {
  }

  // Passes one after another, each alone, over the rows the one before it left when it stopped.
  ghost predicate Reruns(ps: seq<Pass>, ns: seq<nat>) {
    && ps != [] && |ns| == |ps|
    && (forall i | 0 <= i < |ps| :: ValidPass(ps[i]) && Alone(ps[i]) && ns[i] <= |ps[i].ids|)
    && (forall i | 0 <= i < |ps| :: SameKeys(ps[0], ps[i]))
    && (forall i | 0 < i < |ps| :: ps[i].listed == After(ps[i - 1], ns[i - 1]))
  }

  ghost predicate SameKeys(p: Pass, q: Pass) {
    p.aead == q.aead && p.kr == q.kr && p.aads == q.aads
  }

  ghost function Left(ps: seq<Pass>, ns: seq<nat>): Table
    requires Reruns(ps, ns)
  {
    After(ps[|ps| - 1], ns[|ps| - 1])
  }

  lemma KeepsCompose(aead: Aead, kr: Keyring, aads: int -> Bytes, a: Table, b: Table, c: Table)
    requires ValidRing(kr) && PassKeeps(aead, kr, aads, a, b) && PassKeeps(aead, kr, aads, b, c)
    ensures PassKeeps(aead, kr, aads, a, c)
  {
    forall id | id in a
      ensures Kept(aead, kr, aads(id), a[id].cred.envelope, c[id].cred.envelope)
    {
      KeptCompose(aead, kr, aads(id), a[id].cred.envelope, b[id].cred.envelope, c[id].cred.envelope);
    }
  }

  /** Any number of passes, each stopped anywhere, dry or not, with any write failures, together keep
      every plaintext. */
  lemma {:induction false} RerunsKeep(ps: seq<Pass>, ns: seq<nat>)
    requires Reruns(ps, ns)
    ensures PassKeeps(ps[0].aead, ps[0].kr, ps[0].aads, ps[0].listed, Left(ps, ns))
    decreases |ps|
  {
    var n := |ps| - 1;
    PassKeepsCredentials(ps[n], ns[n]);
    if n > 0 {
      assert Reruns(ps[..n], ns[..n]);
      RerunsKeep(ps[..n], ns[..n]);
      KeepsCompose(ps[0].aead, ps[0].kr, ps[0].aads, ps[0].listed, ps[n].listed, Left(ps, ns));
    }
  }

  /** However often rotation was interrupted before, once a pass completes, not dry and without a
      failure, every credential opens under the primary key alone to exactly what it opened to before
      the first pass, and the old keys can go. */
  lemma RerunsFinish(ps: seq<Pass>, ns: seq<nat>, id: int)
    requires Reruns(ps, ns) && id in ps[0].listed
    requires var last := ps[|ps| - 1];
             !last.dryRun && ns[|ps| - 1] == |last.ids| && Failures(last, |last.ids|) == 0
    ensures id in Left(ps, ns)
    ensures var p, before, after := ps[0], ps[0].listed[id].cred.envelope, Left(ps, ns)[id].cred.envelope;
            && (before == [] <==> after == [])
            && (before != [] ==>
                  && Opened(p, id, before).Ok?
                  && Open(p.aead, PrimaryOnly(p.kr), after, p.aads(id)) == Opened(p, id, before))
  {
    var n := |ps| - 1;
    var p, last := ps[0], ps[n];
    RerunsKeep(ps, ns);
    NothingReset(last, |last.ids|);
    if n > 0 {
      assert Reruns(ps[..n], ns[..n]);
      RerunsKeep(ps[..n], ns[..n]);
    }
    CompleteRunFinishes(last, id);
    PrimaryAgrees(p.aead, p.kr, Left(ps, ns)[id].cred.envelope, p.aads(id));
  }

  lemma {:induction false} NothingReset(p: Pass, n: nat)
    requires ValidPass(p) && Alone(p) && n <= |p.ids|
    ensures ActsUpTo(p, n) == []
  {
    if n > 0 {
      NothingReset(p, n - 1);
    }
  }

  // What opens under the primary key alone opens alike under the whole ring; the empty envelope does not.
  lemma PrimaryAgrees(aead: Aead, kr: Keyring, envelope: Bytes, aad: Bytes)
    requires ValidRing(kr)
    ensures Open(aead, PrimaryOnly(kr), envelope, aad).Ok? ==>
              Open(aead, kr, envelope, aad) == Open(aead, PrimaryOnly(kr), envelope, aad) && envelope != []
  {
  }
}
