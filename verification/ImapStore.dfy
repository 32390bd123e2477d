/**
 Conditional STORE and the messages a server silently refused (section 3.1.3 of RFC 7162).

 The server is a mailbox of modification sequences that other clients change, expunge from and
 deliver to between any two commands. A refused message is not echoed; it is named by the
 server's [MODIFIED] code when that code is surfaced, and otherwise found by reading back the
 messages that were not echoed.
 */
module ImapStore {
  import opened Prelude
  import opened Sorting

  type UID = nat
  type ModSeq = nat

  const STORE_BATCH_SIZE := 512

  datatype Mailbox = Mailbox(msgs: map<UID, ModSeq>, uidNext: UID, highest: ModSeq)

  // What other clients may do.
  datatype Act = Touch(uid: UID) | Expunge(uid: UID) | Deliver

  function Done(m: Mailbox, a: Act): Mailbox {
    match a
    case Touch(uid) => if uid in m.msgs then m.(msgs := m.msgs[uid := m.highest + 1], highest := m.highest + 1) else m
    case Expunge(uid) => m.(msgs := m.msgs - {uid}, highest := m.highest + 1)
    case Deliver => Mailbox(m.msgs[m.uidNext := m.highest + 1], m.uidNext + 1, m.highest + 1)
  }

  function Evolve(m: Mailbox, acts: seq<Act>): Mailbox
    decreases |acts|
  {
    if acts == [] then m else Evolve(Done(m, acts[0]), acts[1..])
  }

  predicate ValidMailbox(m: Mailbox) {
    forall u | u in m.msgs :: u < m.uidNext && m.msgs[u] <= m.highest
  }

  // ---------------------------------------------------------------------------
  // The server's side of one STORE; unchangedSince 0 is an unconditional one
  // ---------------------------------------------------------------------------

  function Applied(m: Mailbox, batch: seq<UID>, since: ModSeq): set<UID> {
    set u | u in batch && u in m.msgs && (since == 0 || m.msgs[u] <= since)
  }

  function Refused(m: Mailbox, batch: seq<UID>, since: ModSeq): set<UID> {
    set u | u in batch && u in m.msgs && since != 0 && m.msgs[u] > since
  }

  function AfterStore(m: Mailbox, batch: seq<UID>, since: ModSeq): Mailbox {
    Mailbox(map u | u in m.msgs :: if u in Applied(m, batch, since) then m.highest + 1 else m.msgs[u],
            m.uidNext, m.highest + 1)
  }

  datatype Fetched = Fetched(uid: UID, modSeq: ModSeq)

  // The server echoes exactly the requested messages it applied, in any order, possibly among
  // responses without a UID.
  ghost predicate Echoes(echo: seq<Fetched>, m: Mailbox, batch: seq<UID>, since: ModSeq) {
    && (forall f | f in echo && f.uid != 0 :: f.uid in Applied(m, batch, since) && f.modSeq == m.highest + 1)
    && (forall u | u in Applied(m, batch, since) && u != 0 :: exists f :: f in echo && f.uid == u)
  }

  // A FETCH of some UIDs reports each existing one once, in any order.
  ghost predicate Reads(states: seq<Fetched>, m: Mailbox, uids: seq<UID>) {
    && (forall i | 0 <= i < |states| :: states[i].uid in uids && states[i].uid in m.msgs && states[i].modSeq == m.msgs[states[i].uid])
    && (forall u | u in uids && u in m.msgs :: exists i :: 0 <= i < |states| && states[i].uid == u)
    && (forall i, j | 0 <= i < j < |states| :: states[i].uid != states[j].uid)
  }

  // The [MODIFIED] code as the client library surfaces it.
  datatype Modified =
    | Absent                          // no code, or an unpatched library
    | NotUIDs                         // a set of sequence numbers
    | UIDs(nums: Option<seq<UID>>)    // None for a set with "*"

  // A server that answers with the code names exactly what it refused.
  ghost predicate Honest(code: Modified, m: Mailbox, batch: seq<UID>, since: ModSeq) {
    code.UIDs? && code.nums.Some? ==>
      Ascending(code.nums.value) && forall u :: u in code.nums.value <==> u in Refused(m, batch, since)
  }

  // Which form of the code the server sends and the library surfaces.
  datatype Surfaced = Nothing | SequenceNumbers | Everything | Exactly

  class Server {
    var m: Mailbox

    constructor (m: Mailbox)
      ensures this.m == m
    {
      this.m := m;
    }

    method OtherClients(acts: seq<Act>)
      modifies this
      ensures m == Evolve(old(m), acts)
    {
      var rest := acts;
      while rest != []
        invariant Evolve(m, rest) == Evolve(old(m), acts)
        decreases |rest|
      {
        m := Done(m, rest[0]);
        rest := rest[1..];
      }
    }

    method Store(batch: seq<UID>, since: ModSeq, surfaced: Surfaced) returns (echo: seq<Fetched>, code: Modified)
      requires Distinct(batch)
      modifies this
      ensures m == AfterStore(old(m), batch, since)
      ensures Echoes(echo, old(m), batch, since)
      ensures Honest(code, old(m), batch, since)
      ensures Expanded(code, |batch|).Some? <==> surfaced.Exactly?
    {
      var refused := Pick(batch, Refused(m, batch, since));
      PickFacts(batch, Refused(m, batch, since));
      PickShorter(batch, Refused(m, batch, since));
      SortFacts(refused);
      code := match surfaced
              case Nothing => Absent
              case SequenceNumbers => NotUIDs
              case Everything => UIDs(None)
              case Exactly => UIDs(Some(Sort(refused)));
      echo := [];
      for i := 0 to |batch|
        invariant m == old(m)
        invariant forall f | f in echo :: f.uid in Applied(m, batch, since) && f.modSeq == m.highest + 1
        invariant forall j | 0 <= j < i && batch[j] in Applied(m, batch, since) :: Fetched(batch[j], m.highest + 1) in echo
      {
        if batch[i] in Applied(m, batch, since) {
          echo := echo + [Fetched(batch[i], m.highest + 1)];
        }
      }
      m := AfterStore(m, batch, since);
    }

    method Fetch(uids: seq<UID>) returns (states: seq<Fetched>)
      requires Distinct(uids)
      ensures Reads(states, m, uids)
    {
      states := [];
      for i := 0 to |uids|
        invariant forall k | 0 <= k < |states| ::
                    && states[k].uid in uids[..i] && states[k].uid in m.msgs && states[k].modSeq == m.msgs[states[k].uid]
        invariant forall j | 0 <= j < i && uids[j] in m.msgs :: Fetched(uids[j], m.msgs[uids[j]]) in states
        invariant forall k, l | 0 <= k < l < |states| :: states[k].uid != states[l].uid
      {
        if uids[i] in m.msgs {
          states := states + [Fetched(uids[i], m.msgs[uids[i]])];
        }
      }
      forall u | u in uids && u in m.msgs
        ensures exists i :: 0 <= i < |states| && states[i].uid == u
      {
        var j :| 0 <= j < |uids| && uids[j] == u;
        assert Fetched(uids[j], m.msgs[uids[j]]) in states;
      }
    }
  }

  // ---------------------------------------------------------------------------
  // The client's side
  // ---------------------------------------------------------------------------

  datatype StoreResult = StoreResult(updated: seq<UID>, rejected: seq<UID>, highest: ModSeq, readBack: bool)

  // The members of a batch that are in a set, in batch order.
  function Pick(batch: seq<UID>, keep: set<UID>): seq<UID> {
    if batch == [] then []
    else
      var front, last := Pick(batch[..|batch| - 1], keep), batch[|batch| - 1];
      if last in keep then front + [last] else front
  }

  lemma {:induction false} PickFacts(batch: seq<UID>, keep: set<UID>)
    ensures forall u :: u in Pick(batch, keep) <==> u in batch && u in keep
    ensures Distinct(batch) ==> Distinct(Pick(batch, keep))
    decreases |batch|
  {
    if batch != [] {
      PickFacts(batch[..|batch| - 1], keep);
      assert batch == batch[..|batch| - 1] + [batch[|batch| - 1]];
      var front := Pick(batch[..|batch| - 1], keep);
      assert forall i | 0 <= i < |front| :: front[i] in front;
    }
  }

  lemma {:induction false} PickShorter(batch: seq<UID>, keep: set<UID>)
    ensures |Pick(batch, keep)| <= |batch|
    decreases |batch|
  {
    if batch != [] {
      PickShorter(batch[..|batch| - 1], keep);
    }
  }

  // uidsFromUIDSet: the expansion of a UID set, unless it is unbounded or too long.
  function Expanded(code: Modified, limit: nat): Option<seq<UID>> {
    if code.UIDs? && code.nums.Some? && |code.nums.value| <= limit then Some(code.nums.value) else None
  }

  // The UIDs, sorted, of the read-back states above the threshold.
  method VerifyByReadBack(states: seq<Fetched>, since: ModSeq, ghost m: Mailbox, ghost uids: seq<UID>) returns (rejected: seq<UID>)
    requires Reads(states, m, uids)
    ensures Ascending(rejected)
    ensures forall u :: u in rejected <==> u in uids && u in m.msgs && m.msgs[u] > since
  {
    var found := [];
    for i := 0 to |states|
      invariant forall u :: u in found <==> exists j | 0 <= j < i :: states[j].uid == u && states[j].modSeq > since
      invariant Distinct(found)
    {
      if states[i].modSeq > since {
        assert forall k | 0 <= k < |found| :: found[k] in found;
        found := found + [states[i].uid];
      }
    }
    SortFacts(found);
    rejected := Sort(found);
    forall u
      ensures u in rejected <==> u in uids && u in m.msgs && m.msgs[u] > since
    {
      if u in uids && u in m.msgs && m.msgs[u] > since {
        var i :| 0 <= i < |states| && states[i].uid == u;
        assert states[i].modSeq > since;
      }
    }
  }

  // What one batch reports, from the mailbox `at` which the STORE ran and the one the read-back saw.
  function Reported(at: Mailbox, seen: Mailbox, batch: seq<UID>, since: ModSeq, shown: bool): set<UID> {
    if shown then Refused(at, batch, since) else Refused(at, batch, since) * seen.msgs.Keys
  }

  // One batch of a StoreFlags call: the mailboxes its STORE and its read-back met, and whether the
  // server's own code was used.
  datatype Round = Round(batch: seq<UID>, at: Mailbox, seen: Mailbox, shown: bool)

  ghost predicate Answers(out: StoreResult, r: Round, since: ModSeq) {
    && out.updated == Pick(r.batch, Applied(r.at, r.batch, since))
    && Ascending(out.rejected)
    && (forall u :: u in out.rejected <==> u in Reported(r.at, r.seen, r.batch, since, r.shown))
    && (out.readBack <==> !r.shown && Missing(r.at, r.batch, since))
    && out.highest == if Applied(r.at, r.batch, since) != {} then r.at.highest + 1 else 0
  }

  // Some message of the batch was not applied: refused, or gone.
  predicate Missing(at: Mailbox, batch: seq<UID>, since: ModSeq) {
    exists u :: u in batch && u !in Applied(at, batch, since)
  }

  // Every requested UID names a message that exists or has existed.
  predicate Known(m: Mailbox, uids: seq<UID>) {
    forall u | u in uids :: 0 < u < m.uidNext
  }

  // How far a batch gets before an error of the connection: the STORE may fail without having run
  // or after having run, and the read-back may fail.
  datatype Fault = NoFault | StoreNotRun | StoreRan | ReadFails

  // What happens around one batch: what others do between the STORE and the read-back and before
  // the next batch, which code the library surfaces, and what fails.
  datatype Script = Script(between: seq<Act>, after: seq<Act>, surfaced: Surfaced, fault: Fault)

  // A conditional STORE did not apply everything, and no code says what it refused.
  predicate NeedsReadBack(at: Mailbox, batch: seq<UID>, since: ModSeq, script: Script) {
    since != 0 && !script.surfaced.Exactly? && Missing(at, batch, since)
  }

  // The batch gets to its end: a read-back that fails matters only where one is needed.
  predicate Completes(at: Mailbox, batch: seq<UID>, since: ModSeq, script: Script) {
    script.fault.NoFault? || (script.fault.ReadFails? && !NeedsReadBack(at, batch, since, script))
  }

  // What becomes of a batch that meets this mailbox.
  function RoundOf(at: Mailbox, batch: seq<UID>, since: ModSeq, script: Script): Round {
    var stored, shown := AfterStore(at, batch, since), since == 0 || script.surfaced.Exactly?;
    match script.fault
    case StoreNotRun => Round(batch, at, at, shown)
    case StoreRan => Round(batch, at, stored, shown)
    case _ => Round(batch, at, if NeedsReadBack(at, batch, since, script) then Evolve(stored, script.between) else stored, shown)
  }

  // ---------------------------------------------------------------------------
  // What time can do to a message that was not echoed
  // ---------------------------------------------------------------------------

  // m' may follow m: sequences only grow and UIDs are never reused.
  ghost predicate Follows(m: Mailbox, m': Mailbox) {
    && ValidMailbox(m') && m.uidNext <= m'.uidNext && m.highest <= m'.highest
    && (forall u | u in m'.msgs && u < m.uidNext :: u in m.msgs && m.msgs[u] <= m'.msgs[u])
  }

  lemma DoneFollows(m: Mailbox, a: Act)
    requires ValidMailbox(m)
    ensures Follows(m, Done(m, a))
  {
  }

  lemma {:induction false} EvolveFollows(m: Mailbox, acts: seq<Act>)
    requires ValidMailbox(m)
    ensures Follows(m, Evolve(m, acts))
    decreases |acts|
  {
    if acts != [] {
      DoneFollows(m, acts[0]);
      EvolveFollows(Done(m, acts[0]), acts[1..]);
    }
  }

  lemma AfterStoreFollows(m: Mailbox, batch: seq<UID>, since: ModSeq)
    requires ValidMailbox(m)
    ensures Follows(m, AfterStore(m, batch, since))
    ensures AfterStore(m, batch, since).msgs.Keys == m.msgs.Keys
    ensures forall u | u in Refused(m, batch, since) :: AfterStore(m, batch, since).msgs[u] == m.msgs[u]
  {
  }

  // The read-back decides rightly about u: it is found above the threshold exactly if it was refused
  // and still exists.
  predicate ExactAt(m: Mailbox, batch: seq<UID>, since: ModSeq, acts: seq<Act>, u: UID) {
    var seen := Evolve(AfterStore(m, batch, since), acts);
    u in seen.msgs && seen.msgs[u] > since <==> u in Refused(m, batch, since) && u in seen.msgs
  }

  /** The read-back decides exactly: among the messages the STORE did not confirm, those that still
      exist and are above the threshold are the ones the server refused. A message expunged before
      the STORE or since is never reported. */
  lemma ReadBackIsExact(m: Mailbox, batch: seq<UID>, since: ModSeq, acts: seq<Act>, u: UID)
    requires ValidMailbox(m) && since != 0
    requires u in batch && u !in Applied(m, batch, since) && u < m.uidNext
    ensures ExactAt(m, batch, since, acts, u)
  {
    AfterStoreFollows(m, batch, since);
    EvolveFollows(AfterStore(m, batch, since), acts);
  }

  lemma {:induction false} EvolveAppend(m: Mailbox, a: seq<Act>, b: seq<Act>)
    ensures Evolve(m, a + b) == Evolve(Evolve(m, a), b)
    decreases |a|
  {
    if a == [] {
      assert a + b == b;
    } else {
      assert (a + b)[1..] == a[1..] + b;
      EvolveAppend(Done(m, a[0]), a[1..], b);
    }
  }

  function Repeat(a: Act, n: nat): seq<Act> {
    if n == 0 then [] else [a] + Repeat(a, n - 1)
  }

  // Expunging a UID that is not there only moves the clock.
  lemma {:induction false} Ticks(m: Mailbox, u: UID, n: nat)
    requires u !in m.msgs
    ensures Evolve(m, Repeat(Expunge(u), n)) == m.(highest := m.highest + n)
    decreases n
  {
    if n > 0 {
      assert m.msgs - {u} == m.msgs;
      assert Repeat(Expunge(u), n)[1..] == Repeat(Expunge(u), n - 1);
      Ticks(Done(m, Expunge(u)), u, n - 1);
    }
  }

  // Delivering often enough assigns any UID that is still to come.
  lemma {:induction false} Deliveries(m: Mailbox, n: nat)
    requires n > 0
    ensures var after := Evolve(m, Repeat(Deliver, n));
            m.uidNext + n - 1 in after.msgs && after.msgs[m.uidNext + n - 1] == m.highest + n
    decreases n
  {
    assert Repeat(Deliver, n)[1..] == Repeat(Deliver, n - 1);
    if n > 1 {
      Deliveries(Done(m, Deliver), n - 1);
    }
  }

  /** A UID the mailbox has not assigned is misreported by some course of events: a message
      delivered under it meanwhile is taken for one the server refused. */
  lemma UnknownUidMisreported(m: Mailbox, batch: seq<UID>, since: ModSeq, u: UID) returns (acts: seq<Act>)
    requires ValidMailbox(m) && since != 0 && u in batch && u >= m.uidNext
    ensures !ExactAt(m, batch, since, acts, u)
  {
    var after := AfterStore(m, batch, since);
    acts := Repeat(Expunge(u), since) + Repeat(Deliver, u - m.uidNext + 1);
    EvolveAppend(after, Repeat(Expunge(u), since), Repeat(Deliver, u - m.uidNext + 1));
    Ticks(after, u, since);
    Deliveries(after.(highest := after.highest + since), u - m.uidNext + 1);
  }

  /** Of an unconfirmed UID the read-back is right whatever other clients do, if and only if the
      mailbox has assigned that UID. */
  lemma ReadBackExactIff(m: Mailbox, batch: seq<UID>, since: ModSeq, u: UID)
    requires ValidMailbox(m) && since != 0 && u in batch && u !in Applied(m, batch, since)
    ensures (forall acts :: ExactAt(m, batch, since, acts, u)) <==> u < m.uidNext
  {
    if u < m.uidNext {
      forall acts
        ensures ExactAt(m, batch, since, acts, u)
      {
        ReadBackIsExact(m, batch, since, acts, u);
      }
    } else {
      var acts := UnknownUidMisreported(m, batch, since, u);
    }
  }

  /** The server's own answer and the read-back give the same list exactly when no refused message
      was expunged in between. */
  lemma ReadBackEqualsModified(r: Round, since: ModSeq, named: StoreResult, read: StoreResult)
    requires Answers(named, r.(shown := true), since) && Answers(read, r.(shown := false), since)
    ensures named.rejected == read.rejected <==> Refused(r.at, r.batch, since) <= r.seen.msgs.Keys
  {
    if Refused(r.at, r.batch, since) <= r.seen.msgs.Keys {
      AscendingUnique(named.rejected, read.rejected);
    } else {
      var u :| u in Refused(r.at, r.batch, since) && u !in r.seen.msgs;
      assert u in named.rejected && u !in read.rejected;
    }
  }

  /** Any refused message can go unreported: expunged before the read-back, it is not among those
      read, while the server's own answer would have named it. */
  lemma ExpungedGoesUnreported(m: Mailbox, batch: seq<UID>, since: ModSeq, u: UID) returns (acts: seq<Act>)
    requires u in Refused(m, batch, since)
    ensures u !in Reported(m, Evolve(AfterStore(m, batch, since), acts), batch, since, false)
    ensures u in Reported(m, Evolve(AfterStore(m, batch, since), acts), batch, since, true)
  {
    acts := [Expunge(u)];
    var after := AfterStore(m, batch, since);
    assert Evolve(after, acts) == Evolve(Done(after, Expunge(u)), acts[1..]);
  }

  /** storeBatch as written: work out what one STORE actually did, unless the connection fails on the
      way. On a failure the round tells what the server had been asked to do. */
  method StoreBatch(server: Server, batch: seq<UID>, since: ModSeq, script: Script)
    returns (out: StoreResult, ok: bool, ghost round: Round)
    requires Distinct(batch) && ValidMailbox(server.m) && Known(server.m, batch)
    modifies server
    ensures ok <==> Completes(old(server.m), batch, since, script)
    ensures round == RoundOf(old(server.m), batch, since, script)
    ensures ok ==> Answers(out, round, since)
    ensures server.m == round.seen && Follows(old(server.m), server.m)
  {
    ghost var at := server.m;
    AfterStoreFollows(at, batch, since);
    round := RoundOf(at, batch, since, script);
    if script.fault.StoreNotRun? {
      return StoreResult([], [], 0, false), false, round;
    }
    var echo, code := server.Store(batch, since, script.surfaced);
    if script.fault.StoreRan? {
      return StoreResult([], [], 0, false), false, round;
    }
    var updated, highest := Collect(echo, at, batch, since);
    var confirmed := Confirmed(batch, updated);
    assert confirmed == Pick(batch, Applied(at, batch, since)) by {
      PickSame(batch, updated, Applied(at, batch, since));
    }
    if since == 0 {
      return StoreResult(confirmed, [], highest, false), true, round;
    }
    var named := Expanded(code, |batch|);
    if named.Some? {
      return StoreResult(confirmed, named.value, highest, false), true, round;
    }
    var missing := Unconfirmed(batch, updated);
    if |missing| == 0 {
      NothingMissing(at, batch, since, missing);
      return StoreResult(confirmed, [], highest, false), true, round;
    }
    assert missing[0] in missing && Missing(at, batch, since);
    server.OtherClients(script.between);
    EvolveFollows(AfterStore(at, batch, since), script.between);
    if script.fault.ReadFails? {
      return StoreResult(confirmed, [], highest, false), false, round;
    }
    var states := server.Fetch(missing);
    var rejected := VerifyByReadBack(states, since, server.m, missing);
    ReadBackReports(at, batch, since, script.between, missing, rejected);
    return StoreResult(confirmed, rejected, highest, true), true, round;
  }

  lemma ReadBackReports(at: Mailbox, batch: seq<UID>, since: ModSeq, acts: seq<Act>, missing: seq<UID>, rejected: seq<UID>)
    requires ValidMailbox(at) && Known(at, batch) && since != 0
    requires forall u :: u in missing <==> u in batch && u !in Applied(at, batch, since)
    requires var seen := Evolve(AfterStore(at, batch, since), acts);
             forall u :: u in rejected <==> u in missing && u in seen.msgs && seen.msgs[u] > since
    ensures var seen := Evolve(AfterStore(at, batch, since), acts);
            forall u :: u in rejected <==> u in Reported(at, seen, batch, since, false)
  {
    forall u | u in batch && u !in Applied(at, batch, since)
      ensures ExactAt(at, batch, since, acts, u)
    {
      ReadBackIsExact(at, batch, since, acts, u);
    }
  }

  // The echoed UIDs and the highest modseq among them.
  method Collect(echo: seq<Fetched>, ghost m: Mailbox, ghost batch: seq<UID>, ghost since: ModSeq)
    returns (updated: set<UID>, highest: ModSeq)
    requires Echoes(echo, m, batch, since) && 0 !in batch
    ensures updated == Applied(m, batch, since)
    ensures highest == if Applied(m, batch, since) != {} then m.highest + 1 else 0
  {
    updated, highest := {}, 0;
    for i := 0 to |echo|
      invariant forall u :: u in updated <==> u != 0 && exists j | 0 <= j < i :: echo[j].uid == u
      invariant highest == if updated != {} then m.highest + 1 else 0
    {
      if echo[i].uid != 0 {
        assert echo[i] in echo;
        updated := updated + {echo[i].uid};
        if echo[i].modSeq > highest {
          highest := echo[i].modSeq;
        }
      }
    }
    forall u
      ensures u in updated <==> u in Applied(m, batch, since)
    {
      if u in updated {
        var j :| 0 <= j < |echo| && echo[j].uid == u;
        assert echo[j] in echo;
      }
    }
    assert updated == Applied(m, batch, since);
  }

  method Confirmed(batch: seq<UID>, updated: set<UID>) returns (out: seq<UID>)
    ensures out == Pick(batch, updated)
  {
    out := [];
    for i := 0 to |batch|
      invariant out == Pick(batch[..i], updated)
    {
      assert batch[..i + 1][..i] == batch[..i];
      if batch[i] in updated {
        out := out + [batch[i]];
      }
    }
    assert batch[..|batch|] == batch;
  }

  method Unconfirmed(batch: seq<UID>, updated: set<UID>) returns (missing: seq<UID>)
    requires Distinct(batch)
    ensures Distinct(missing)
    ensures forall u :: u in missing <==> u in batch && u !in updated
  {
    missing := [];
    for i := 0 to |batch|
      invariant forall u :: u in missing <==> u in batch[..i] && u !in updated
      invariant Distinct(missing)
    {
      if batch[i] !in updated {
        assert forall k | 0 <= k < |missing| :: missing[k] in missing && missing[k] in batch[..i];
        missing := missing + [batch[i]];
      }
    }
    assert batch[..|batch|] == batch;
  }

  lemma PickSame(batch: seq<UID>, a: set<UID>, b: set<UID>)
    requires a == b
    ensures Pick(batch, a) == Pick(batch, b)
  {
  }

  lemma NothingMissing(m: Mailbox, batch: seq<UID>, since: ModSeq, missing: seq<UID>)
    requires forall u :: u in missing <==> u in batch && u !in Applied(m, batch, since)
    requires missing == []
    ensures Refused(m, batch, since) == {} && !Missing(m, batch, since)
  {
    forall u | u in batch
      ensures u in Applied(m, batch, since)
    {
      assert u !in missing;
    }
  }

  // ---------------------------------------------------------------------------
  // All batches
  // ---------------------------------------------------------------------------

  function BatchEnd(i: nat, n: nat): nat {
    if (i + 1) * STORE_BATCH_SIZE < n then (i + 1) * STORE_BATCH_SIZE else n
  }

  function BatchOf(uids: seq<UID>, i: nat): seq<UID>
    requires i * STORE_BATCH_SIZE < |uids|
  {
    uids[i * STORE_BATCH_SIZE..BatchEnd(i, |uids|)]
  }

  predicate IsBatch(batch: seq<UID>, uids: seq<UID>, i: nat) {
    && i * STORE_BATCH_SIZE < |uids|
    && batch == BatchOf(uids, i)
  }

  ghost predicate UpdatedIn(rounds: seq<Round>, since: ModSeq, u: UID) {
    exists i | 0 <= i < |rounds| :: u in Applied(rounds[i].at, rounds[i].batch, since)
  }

  ghost predicate RejectedIn(rounds: seq<Round>, since: ModSeq, u: UID) {
    exists i | 0 <= i < |rounds| :: u in Reported(rounds[i].at, rounds[i].seen, rounds[i].batch, since, rounds[i].shown)
  }

  predicate AnyApplied(r: Round, since: ModSeq) {
    Applied(r.at, r.batch, since) != {}
  }

  // The highest modseq any batch assigned, or 0 when nothing was applied.
  ghost predicate HighestOf(rounds: seq<Round>, since: ModSeq, highest: ModSeq) {
    && (forall i | 0 <= i < |rounds| && AnyApplied(rounds[i], since) :: rounds[i].at.highest + 1 <= highest)
    && (highest != 0 ==> exists i | 0 <= i < |rounds| :: AnyApplied(rounds[i], since) && rounds[i].at.highest + 1 == highest)
  }

  lemma HighestExtended(rounds: seq<Round>, round: Round, since: ModSeq, highest: ModSeq, last: ModSeq)
    requires HighestOf(rounds, since, highest)
    requires last == if AnyApplied(round, since) then round.at.highest + 1 else 0
    ensures HighestOf(rounds + [round], since, if last > highest then last else highest)
  {
    var all := rounds + [round];
    assert all[|rounds|] == round;
    assert forall i | 0 <= i < |rounds| :: all[i] == rounds[i];
  }

  lemma BatchesApart(uids: seq<UID>, a: seq<UID>, i: nat, b: seq<UID>, j: nat, u: UID)
    requires Distinct(uids) && IsBatch(a, uids, i) && IsBatch(b, uids, j) && u in a && u in b
    ensures i == j
  {
    var k :| 0 <= k < |a| && a[k] == u;
    var l :| 0 <= l < |b| && b[l] == u;
    assert uids[i * STORE_BATCH_SIZE + k] == u && uids[j * STORE_BATCH_SIZE + l] == u;
  }

  /** No message is reported both as updated and as rejected, across all batches and whatever other
      clients do in between. */
  lemma NeverBoth(rounds: seq<Round>, uids: seq<UID>, since: ModSeq, u: UID)
    requires Distinct(uids) && forall i | 0 <= i < |rounds| :: IsBatch(rounds[i].batch, uids, i)
    ensures !(UpdatedIn(rounds, since, u) && RejectedIn(rounds, since, u))
  {
    forall i, j | 0 <= i < |rounds| && 0 <= j < |rounds| && u in Applied(rounds[i].at, rounds[i].batch, since)
                  && u in rounds[j].batch
      ensures u !in Refused(rounds[j].at, rounds[j].batch, since)
    {
      BatchesApart(uids, rounds[i].batch, i, rounds[j].batch, j, u);
    }
  }

  lemma BatchKnown(m: Mailbox, uids: seq<UID>, i: nat)
    requires Distinct(uids) && Known(m, uids) && i * STORE_BATCH_SIZE < |uids|
    ensures var batch := BatchOf(uids, i);
            Distinct(batch) && Known(m, batch) && IsBatch(batch, uids, i)
  {
    var batch := BatchOf(uids, i);
    forall u | u in batch
      ensures u in uids
    {
      var k :| 0 <= k < |batch| && batch[k] == u;
      assert uids[i * STORE_BATCH_SIZE + k] == u;
    }
  }

  // The batch in which the connection failed, if its STORE had run by then.
  datatype Unfinished = Nowhere | In(round: Round)

  predicate Unreported(unfinished: Unfinished, since: ModSeq, u: UID) {
    unfinished.In? && u in Applied(unfinished.round.at, unfinished.round.batch, since)
  }

  // A StoreFlags call, from the mailbox it finds; the connection fails before batch `cut`.
  datatype Course = Course(found: Mailbox, uids: seq<UID>, since: ModSeq, scripts: seq<Script>, cut: nat)

  // The call has a batch of this number.
  predicate Has(c: Course, i: int) {
    0 <= i < |c.scripts| && i * STORE_BATCH_SIZE < |c.uids|
  }

  // The mailbox batch i meets, or the one left when i batches were all.
  function Meets(c: Course, i: nat): Mailbox
    requires i > 0 ==> Has(c, i - 1)
    decreases i, 0
  {
    if i == 0 then c.found else Evolve(RoundAt(c, i - 1).seen, c.scripts[i - 1].after)
  }

  function RoundAt(c: Course, i: nat): Round
    requires Has(c, i)
    decreases i, 1
  {
    RoundOf(Meets(c, i), BatchOf(c.uids, i), c.since, c.scripts[i])
  }

  predicate Passes(c: Course, i: nat)
    requires Has(c, i)
  {
    i != c.cut && Completes(Meets(c, i), BatchOf(c.uids, i), c.since, c.scripts[i])
  }

  // The first batches of the call, each of them completed.
  predicate Traced(c: Course, rounds: seq<Round>) {
    rounds == [] ||
    var n := |rounds| - 1;
    Has(c, n) && rounds[n] == RoundAt(c, n) && Passes(c, n) && Traced(c, rounds[..n])
  }

  lemma {:induction false} TracedAt(c: Course, rounds: seq<Round>, i: nat)
    requires Traced(c, rounds) && i < |rounds|
    ensures Has(c, i) && rounds[i] == RoundAt(c, i) && Passes(c, i)
    decreases |rounds|
  {
    if i < |rounds| - 1 {
      TracedAt(c, rounds[..|rounds| - 1], i);
    }
  }

  /** StoreFlags over all batches, with other clients acting at every point and the connection
      possibly failing before or inside any batch. It runs every batch up to the first that does not
      complete, and fails exactly if there is one. Every message it reports as updated was applied,
      every message it reports as rejected was refused, and no refused message of a finished batch
      goes unreported unless it was expunged before the read-back. A message that was applied goes
      unreported exactly if it was applied by the batch in which the connection failed. */
  method StoreFlags(server: Server, uids: seq<UID>, since: ModSeq, condStore: bool, scripts: seq<Script>, cut: nat)
    returns (out: StoreResult, ok: bool, ghost rounds: seq<Round>, ghost unfinished: Unfinished)
    requires Distinct(uids) && ValidMailbox(server.m) && Known(server.m, uids)
    requires |scripts| >= |uids|
    modifies server
    ensures Traced(Course(old(server.m), uids, since, scripts, cut), rounds)
    ensures Ends(Course(old(server.m), uids, since, scripts, cut), condStore, ok, rounds, unfinished, server.m)
    ensures forall i | 0 <= i < |rounds| :: IsBatch(rounds[i].batch, uids, i)
    ensures Accounts(out, rounds, since)
    ensures ok ==> unfinished.Nowhere? && forall u | u in uids :: exists i | 0 <= i < |rounds| :: u in rounds[i].batch
    ensures unfinished.In? ==> IsBatch(unfinished.round.batch, uids, |rounds|)
    ensures ReportsAllBut(out, rounds, unfinished, since)
    ensures forall u | u in out.updated :: u !in out.rejected
    ensures !ok && since != 0 && !condStore ==>
              rounds == [] && unfinished.Nowhere? && server.m == old(server.m)
  {
    out, ok, rounds, unfinished := StoreResult([], [], 0, false), true, [], Nowhere;
    if |uids| == 0 {
      return;
    }
    if since != 0 && !condStore {
      return out, false, [], Nowhere;
    }
    out, ok, rounds, unfinished := RunBatches(server, uids, since, scripts, cut);
    Disjoint(out, rounds, uids, since);
    if ok {
      AllCovered(rounds, uids);
    }
  }

  // The loop over the batches.
  method RunBatches(server: Server, uids: seq<UID>, since: ModSeq, scripts: seq<Script>, cut: nat)
    returns (out: StoreResult, ok: bool, ghost rounds: seq<Round>, ghost unfinished: Unfinished)
    requires Distinct(uids) && ValidMailbox(server.m) && Known(server.m, uids) && |scripts| >= |uids|
    modifies server
    ensures Traced(Course(old(server.m), uids, since, scripts, cut), rounds)
    ensures Ends(Course(old(server.m), uids, since, scripts, cut), true, ok, rounds, unfinished, server.m)
    ensures forall i | 0 <= i < |rounds| :: IsBatch(rounds[i].batch, uids, i)
    ensures Accounts(out, rounds, since) && ReportsAllBut(out, rounds, unfinished, since)
  {
    ghost var c := Course(server.m, uids, since, scripts, cut);
    out, ok, rounds, unfinished := StoreResult([], [], 0, false), true, [], Nowhere;
    var i := 0;
    while i * STORE_BATCH_SIZE < |uids|
      invariant Progress(server.m, uids, since, out, rounds, i)
      invariant Traced(c, rounds) && server.m == Meets(c, |rounds|)
      invariant ok && unfinished.Nowhere?
      decreases |uids| - i * STORE_BATCH_SIZE
    {
      AllButUnfinished(out, rounds, Nowhere, since);
      if i == cut {
        return out, false, rounds, Nowhere;
      }
      out, ok, rounds, unfinished := NextBatch(server, uids, since, scripts[i], i, out, rounds, c);
      if !ok {
        return;
      }
      i := i + 1;
    }
    AllButUnfinished(out, rounds, Nowhere, since);
  }

  // Where a call ends: after its last batch, before its first if it is refused, or in the batch that
  // does not pass, whose STORE may have run.
  predicate Ends(c: Course, condStore: bool, ok: bool, rounds: seq<Round>, unfinished: Unfinished, left: Mailbox) {
    var n := |rounds|;
    && (n > 0 ==> Has(c, n - 1))
    && left == (if unfinished.In? then unfinished.round.seen else Meets(c, n))
    && (ok ==> n * STORE_BATCH_SIZE >= |c.uids| && unfinished.Nowhere? && (c.uids != [] && c.since != 0 ==> condStore))
    && (!ok && c.since != 0 && !condStore ==> n == 0 && c.uids != [] && unfinished.Nowhere?)
    && (!ok && (c.since != 0 ==> condStore) ==>
          && Has(c, n) && !Passes(c, n)
          && (unfinished.In? <==> n != c.cut && !c.scripts[n].fault.StoreNotRun?)
          && (unfinished.In? ==> unfinished.round == RoundAt(c, n)))
  }

  lemma Disjoint(out: StoreResult, rounds: seq<Round>, uids: seq<UID>, since: ModSeq)
    requires Distinct(uids) && forall i | 0 <= i < |rounds| :: IsBatch(rounds[i].batch, uids, i)
    requires Accounts(out, rounds, since)
    ensures forall u | u in out.updated :: u !in out.rejected
  {
    forall u
      ensures !(u in out.updated && u in out.rejected)
    {
      NeverBoth(rounds, uids, since, u);
    }
  }

  // After i batches the result accounts for them.
  ghost predicate Progress(m: Mailbox, uids: seq<UID>, since: ModSeq, out: StoreResult, rounds: seq<Round>, i: nat) {
    && |rounds| == i && ValidMailbox(m) && Known(m, uids)
    && (forall j | 0 <= j < i :: IsBatch(rounds[j].batch, uids, j))
    && Accounts(out, rounds, since)
  }

  /** One turn of the loop of StoreFlags. A batch that fails leaves the result without what it did. */
  method NextBatch(server: Server, uids: seq<UID>, since: ModSeq, script: Script, i: nat, out: StoreResult,
                   ghost rounds: seq<Round>, ghost c: Course)
    returns (out': StoreResult, ok: bool, ghost rounds': seq<Round>, ghost unfinished: Unfinished)
    requires uids == c.uids && since == c.since && Has(c, i) && script == c.scripts[i] && i != c.cut
    requires Distinct(uids) && Progress(server.m, uids, since, out, rounds, i)
    requires Traced(c, rounds) && server.m == Meets(c, i)
    modifies server
    ensures ok <==> Passes(c, i)
    ensures ok ==> unfinished.Nowhere? && Progress(server.m, uids, since, out', rounds', i + 1)
    ensures ok ==> Traced(c, rounds') && server.m == Meets(c, i + 1)
    ensures !ok ==> out' == out && rounds' == rounds && ReportsAllBut(out, rounds, unfinished, since)
    ensures !ok ==> server.m == RoundAt(c, i).seen && (unfinished.Nowhere? ==> server.m == Meets(c, i))
    ensures !ok ==> unfinished == if script.fault.StoreNotRun? then Nowhere else In(RoundAt(c, i))
  {
    out', rounds', unfinished := out, rounds, Nowhere;
    ghost var before := server.m;
    var res;
    ghost var round;
    res, ok, round := RunBatch(server, uids, since, script, i, c);
    if !ok {
      if !script.fault.StoreNotRun? {
        unfinished := In(round);
        NeverBefore(rounds, uids, since, round);
      }
      AllButUnfinished(out, rounds, unfinished, since);
      return;
    }
    rounds', out' := rounds + [round], Merged(out, res);
    TracedAppend(c, rounds, round);
    ProgressExtend(before, server.m, uids, out, rounds, res, round, since);
  }

  lemma TracedAppend(c: Course, rounds: seq<Round>, round: Round)
    requires Traced(c, rounds) && Has(c, |rounds|) && round == RoundAt(c, |rounds|) && Passes(c, |rounds|)
    ensures Traced(c, rounds + [round])
  {
    assert (rounds + [round])[..|rounds|] == rounds;
  }

  // One batch, and what others do after it.
  method RunBatch(server: Server, uids: seq<UID>, since: ModSeq, script: Script, i: nat, ghost c: Course)
    returns (res: StoreResult, ok: bool, ghost round: Round)
    requires uids == c.uids && since == c.since && Has(c, i) && script == c.scripts[i] && i != c.cut
    requires Distinct(uids) && ValidMailbox(server.m) && Known(server.m, uids) && server.m == Meets(c, i)
    modifies server
    ensures ok <==> Passes(c, i)
    ensures round == RoundAt(c, i) && IsBatch(round.batch, uids, i)
    ensures ok ==> Answers(res, round, since) && server.m == Meets(c, i + 1)
    ensures !ok ==> server.m == round.seen && (script.fault.StoreNotRun? ==> server.m == old(server.m))
    ensures ValidMailbox(server.m) && old(server.m).uidNext <= server.m.uidNext
  {
    var batch := BatchOf(uids, i);
    BatchKnown(server.m, uids, i);
    res, ok, round := StoreBatch(server, batch, since, script);
    if ok {
      EvolveFollows(server.m, script.after);
      server.OtherClients(script.after);
    }
  }

  lemma ProgressExtend(m: Mailbox, m': Mailbox, uids: seq<UID>, out: StoreResult, rounds: seq<Round>,
                       res: StoreResult, round: Round, since: ModSeq)
    requires Progress(m, uids, since, out, rounds, |rounds|) && ValidMailbox(m') && m.uidNext <= m'.uidNext
    requires Answers(res, round, since) && IsBatch(round.batch, uids, |rounds|)
    ensures Progress(m', uids, since, Merged(out, res), rounds + [round], |rounds| + 1)
  {
    AccountsExtend(out, rounds, res, round, since);
  }

  // Of the messages that were applied, exactly those of the unfinished batch are not reported.
  ghost predicate ReportsAllBut(out: StoreResult, rounds: seq<Round>, unfinished: Unfinished, since: ModSeq) {
    forall u | UpdatedIn(rounds, since, u) || Unreported(unfinished, since, u) ::
      u !in out.updated <==> Unreported(unfinished, since, u)
  }

  lemma AllButUnfinished(out: StoreResult, rounds: seq<Round>, unfinished: Unfinished, since: ModSeq)
    requires Accounts(out, rounds, since)
    requires forall u | Unreported(unfinished, since, u) :: !UpdatedIn(rounds, since, u)
    ensures ReportsAllBut(out, rounds, unfinished, since)
  {
  }

  // A batch shares no message with the ones before it.
  lemma NeverBefore(rounds: seq<Round>, uids: seq<UID>, since: ModSeq, round: Round)
    requires Distinct(uids) && IsBatch(round.batch, uids, |rounds|)
    requires forall i | 0 <= i < |rounds| :: IsBatch(rounds[i].batch, uids, i)
    ensures forall u | u in Applied(round.at, round.batch, since) :: !UpdatedIn(rounds, since, u)
  {
    forall u, i | u in Applied(round.at, round.batch, since) && 0 <= i < |rounds|
      ensures u !in Applied(rounds[i].at, rounds[i].batch, since)
    {
      if u in rounds[i].batch {
        BatchesApart(uids, round.batch, |rounds|, rounds[i].batch, i, u);
      }
    }
  }

  function Merged(out: StoreResult, res: StoreResult): StoreResult {
    StoreResult(out.updated + res.updated, out.rejected + res.rejected,
                if res.highest > out.highest then res.highest else out.highest, out.readBack || res.readBack)
  }

  predicate ReadBackIn(r: Round, since: ModSeq) {
    !r.shown && Missing(r.at, r.batch, since)
  }

  // The accumulated result says what the rounds so far did.
  ghost predicate Accounts(out: StoreResult, rounds: seq<Round>, since: ModSeq) {
    && (forall u :: u in out.updated <==> UpdatedIn(rounds, since, u))
    && (forall u :: u in out.rejected <==> RejectedIn(rounds, since, u))
    && HighestOf(rounds, since, out.highest)
    && (out.readBack <==> exists i | 0 <= i < |rounds| :: ReadBackIn(rounds[i], since))
  }

  lemma AccountsExtend(out: StoreResult, rounds: seq<Round>, res: StoreResult, round: Round, since: ModSeq)
    requires Accounts(out, rounds, since) && Answers(res, round, since)
    ensures Accounts(Merged(out, res), rounds + [round], since)
  {
    PickFacts(round.batch, Applied(round.at, round.batch, since));
    Extended(rounds, round, since);
    HighestExtended(rounds, round, since, out.highest, res.highest);
    assert (rounds + [round])[|rounds|] == round;
    assert forall j | 0 <= j < |rounds| :: (rounds + [round])[j] == rounds[j];
  }

  lemma Extended(rounds: seq<Round>, round: Round, since: ModSeq)
    ensures forall u :: UpdatedIn(rounds + [round], since, u) <==>
                        UpdatedIn(rounds, since, u) || u in Applied(round.at, round.batch, since)
    ensures forall u :: RejectedIn(rounds + [round], since, u) <==>
                        RejectedIn(rounds, since, u) || u in Reported(round.at, round.seen, round.batch, since, round.shown)
  {
    var all := rounds + [round];
    assert all[|rounds|] == round;
    assert forall i | 0 <= i < |rounds| :: all[i] == rounds[i];
  }

  lemma AllCovered(rounds: seq<Round>, uids: seq<UID>)
    requires forall i | 0 <= i < |rounds| :: IsBatch(rounds[i].batch, uids, i)
    requires |rounds| * STORE_BATCH_SIZE >= |uids|
    ensures forall u | u in uids :: exists i | 0 <= i < |rounds| :: u in rounds[i].batch
  {
    forall u | u in uids
      ensures exists i | 0 <= i < |rounds| :: u in rounds[i].batch
    {
      Covered(rounds, uids, u);
    }
  }

  lemma Covered(rounds: seq<Round>, uids: seq<UID>, u: UID)
    requires forall i | 0 <= i < |rounds| :: IsBatch(rounds[i].batch, uids, i)
    requires |rounds| * STORE_BATCH_SIZE >= |uids| && u in uids
    ensures exists i | 0 <= i < |rounds| :: u in rounds[i].batch
  {
    var k :| 0 <= k < |uids| && uids[k] == u;
    var i := k / STORE_BATCH_SIZE;
    assert IsBatch(rounds[i].batch, uids, i);
    assert rounds[i].batch[k - i * STORE_BATCH_SIZE] == u;
  }
}
