/**
 The admin verbs over accounts, each a fixed order of Mailcow and store calls any of which may fail.

 A failing call may or may not have taken effect; only a failed mailbox creation is assumed to have
 left nothing. The fates of a verb's calls are its script, so that what it does is exact for every
 script. Every verb is proved to keep the relation `Verb`, from which the theorems over whole histories
 follow, and states beside it what its success means.
 */
module Accounts {
  import opened Prelude
  import opened AccountsWorld

  datatype Code = ObjectExists | AccessDenied | Other

  // Done took effect; Lost took effect but was reported as failed; Refused did nothing.
  datatype Fate = Done | Lost(code: Code) | Refused(code: Code)

  // What becomes of the calls of one verb: whether the row can be read at the gate, the audit history
  // read and the audit line stored, the fate of each Mailcow and store call, what Mailcow hands out,
  // and whether the resource can be read back. `row` is the verb's own UPDATE of the account row.
  datatype Script = Script(
    lookup: bool, history: bool, line: bool,
    create: Fate, inherited: Rate, provision: Fate, minted: nat, rollback: Fate,
    edit: Fate, get: bool, rate: Fate, setId: Fate, row: Fate,
    reissue: Fate, dropOld: bool, delete: Fate,
    again: bool, summary: bool, usage: bool)

  // What a call leaves of what it was to change.
  function Left<T>(before: T, effect: T, fate: Fate): T {
    if fate.Refused? then before else effect
  }

  datatype Found = Found(row: Row) | Missing | Unreadable

  datatype Edit = Edit(name: Option<string>, quotaMB: Option<int>, active: Option<bool>, smtpAccess: Option<bool>)

  datatype Limits = Limits(sendPerDay: Option<int>, recipients: Option<int>, attachmentMB: Option<int>)

  // A quota of zero asks for the default.
  datatype CreateRequest = CreateRequest(name: string, quotaMB: int, limits: Limits)

  datatype UpdateRequest = UpdateRequest(name: Option<string>, quotaMB: Option<int>, limits: Limits)

  const DEFAULT_QUOTA_MB: int := 2048
  const DEFAULT_SEND_PER_DAY: int := 300
  const DEFAULT_RECIPIENTS: int := 50
  const DEFAULT_ATTACHMENT_MB: int := 25

  function Or<T>(o: Option<T>, d: T): T {
    if o.Some? then o.value else d
  }

  function Edited(m: Mailbox, e: Edit): Mailbox {
    m.(name := Or(e.name, m.name), quotaMB := Or(e.quotaMB, m.quotaMB),
       active := Or(e.active, m.active), smtpAccess := Or(e.smtpAccess, m.smtpAccess))
  }

  function QuotaOf(req: CreateRequest): int {
    if req.quotaMB == 0 then DEFAULT_QUOTA_MB else req.quotaMB
  }

  // The mailbox asked for; its rate limit is inherited from the domain.
  function NewMailbox(req: CreateRequest, password: Secret, inherited: Rate): Mailbox {
    Mailbox(true, true, inherited, req.name, QuotaOf(req), password)
  }

  function PerDay(req: CreateRequest): int {
    Or(req.limits.sendPerDay, DEFAULT_SEND_PER_DAY)
  }

  // Mailcow does not create what is there.
  function CreateFate(w: World, address: string, given: Fate): Fate {
    if address in w.mailboxes && given.Done? then Refused(ObjectExists) else given
  }

  // The real IMAP LOGIN of provisioning succeeds, on a mailbox that is not disabled.
  predicate LogsIn(w: World, address: string, password: Secret) {
    address in w.mailboxes && w.mailboxes[address].password == password && w.mailboxes[address].active
  }

  function NewRow(): Row {
    Row(false, false, false, true, None, Facts("", 0, None, None, None))
  }

  function RequestedFacts(req: CreateRequest): Facts {
    Facts(req.name, QuotaOf(req),
          Some(PerDay(req)),
          Some(Or(req.limits.recipients, DEFAULT_RECIPIENTS)),
          Some(Or(req.limits.attachmentMB, DEFAULT_ATTACHMENT_MB)))
  }

  function PatchedFacts(f: Facts, req: UpdateRequest): Facts {
    Facts(Or(req.name, f.name), Or(req.quotaMB, f.quotaMB),
          if req.limits.sendPerDay.Some? then req.limits.sendPerDay else f.sendPerDay,
          if req.limits.recipients.Some? then req.limits.recipients else f.recipients,
          if req.limits.attachmentMB.Some? then req.limits.attachmentMB else f.attachmentMB)
  }

  // The mailbox has the name, quota and limit asked for, and is otherwise as it was.
  predicate MailboxPatched(m: Mailbox, v: Mailbox, req: UpdateRequest) {
    && v == Edited(m, Edit(req.name, req.quotaMB, None, None)).(rate := v.rate)
    && v.rate == if req.limits.sendPerDay.Some? then Rate(req.limits.sendPerDay.value, "d") else m.rate
  }

  // The update that names everything a create asks for, its defaults included.
  function FullUpdate(req: CreateRequest): UpdateRequest {
    UpdateRequest(Some(req.name), Some(QuotaOf(req)),
                  Limits(Some(PerDay(req)),
                         Some(Or(req.limits.recipients, DEFAULT_RECIPIENTS)),
                         Some(Or(req.limits.attachmentMB, DEFAULT_ATTACHMENT_MB))))
  }

  /** Creating an account and updating any account with everything the creation names agree, on the
      facts and on the mailbox. */
  lemma CreateIsFullUpdate(req: CreateRequest, facts: Facts, m: Mailbox, inherited: Rate)
    ensures PatchedFacts(facts, FullUpdate(req)) == RequestedFacts(req)
    ensures var e := Edit(FullUpdate(req).name, FullUpdate(req).quotaMB, Some(true), Some(true));
            Edited(m, e).(rate := inherited) == NewMailbox(req, m.password, inherited)
  {
  }

  // The second update over the first.
  function Over<T>(first: Option<T>, second: Option<T>): Option<T> {
    if second.Some? then second else first
  }

  /** Of two updates the second wins where it says something, and the first stands elsewhere. */
  lemma UpdatesCompose(f: Facts, a: UpdateRequest, b: UpdateRequest)
    ensures PatchedFacts(PatchedFacts(f, a), b)
            == PatchedFacts(f, UpdateRequest(Over(a.name, b.name), Over(a.quotaMB, b.quotaMB),
                                             Limits(Over(a.limits.sendPerDay, b.limits.sendPerDay),
                                                    Over(a.limits.recipients, b.limits.recipients),
                                                    Over(a.limits.attachmentMB, b.limits.attachmentMB))))
  {
  }

  // ---------------------------------------------------------------------------
  // What a script makes of a create that finds no account
  // ---------------------------------------------------------------------------

  // This call creates the mailbox, so it may delete it again.
  predicate Ours(w: World, address: string, f: Script) {
    address !in w.mailboxes && f.create.Done?
  }

  // The mailbox is created, or reported to exist; anything else ends the create.
  predicate Reaches(w: World, address: string, f: Script) {
    var fate := CreateFate(w, address, f.create);
    fate.Done? || fate.code == ObjectExists
  }

  // Provisioning gets as far as the account row.
  predicate WritesRow(w: World, address: string, password: Option<Secret>, f: Script) {
    && password.Some? && Reaches(w, address, f)
    && (Ours(w, address, f) || LogsIn(w, address, password.value))
    && !f.provision.Refused?
  }

  // The mailbox has the rate asked for, or takes it.
  predicate TakesRate(rate: Rate, req: CreateRequest, f: Script) {
    f.get && (rate == Rate(PerDay(req), "d") || f.rate.Done?)
  }

  // Everything after provisioning that has to succeed for the facts to be recorded.
  predicate Follows(rate: Rate, req: CreateRequest, f: Script) {
    f.provision.Done? && (f.minted > 0 ==> f.setId.Done?) && TakesRate(rate, req, f) && f.row.Done?
  }

  predicate Records(w: World, address: string, req: CreateRequest, password: Option<Secret>, f: Script) {
    && WritesRow(w, address, password, f)
    && Follows(if address in w.mailboxes then w.mailboxes[address].rate else f.inherited, req, f)
  }

  // The row of a new account.
  function CreatedRow(req: CreateRequest, f: Script): Row {
    Row(false, false, false, true, if f.minted > 0 then Some(f.minted) else None, RequestedFacts(req))
  }

  // What a create answers from the point where the mailbox is there: the first failure decides.
  function AnswerOf(logsIn: bool, rate: Rate, req: CreateRequest, f: Script): Option<Error> {
    if !logsIn || !f.provision.Done? then Some(Upstream)
    else if f.minted > 0 && !f.setId.Done? then Some(Internal)
    else Failing(TakesRate(rate, req, f), f.row.Done?, f)
  }

  function CreateAnswer(w: World, address: string, req: CreateRequest, password: Option<Secret>, f: Script): Option<Error> {
    if password.None? then Some(Internal)
    else if !Reaches(w, address, f) then Some(Upstream)
    else AnswerOf(Ours(w, address, f) || LogsIn(w, address, password.value),
                  if address in w.mailboxes then w.mailboxes[address].rate else f.inherited, req, f)
  }

  // The trail has a deletion of the address that succeeded.
  predicate DeletedBefore(w: World, address: string) {
    exists i :: 0 <= i < |w.stored| && w.stored[i].address == address && w.stored[i].action.Delete? && w.stored[i].ok
  }

  function CreateNote(w: World, address: string, f: Script): Note {
    if f.history && DeletedBefore(w, address) then Recreated else Plain
  }

  // The mailbox this call created is still there.
  predicate Strands(w: World, address: string, password: Option<Secret>, f: Script) {
    password.Some? && Ours(w, address, f) && f.rollback.Refused?
  }

  // A read-only account is asked to be read-only and cannot be read back: the line says ok, the
  // answer is an error.
  predicate MisreportsReadOnly(w: World, c: Call, f: Script) {
    && InDomain(c) && f.lookup && c.address in w.rows
    && !w.rows[c.address].deleting && w.rows[c.address].readOnly
    && !(f.again && f.summary)
  }

  // ---------------------------------------------------------------------------
  // What a script makes of the other verbs
  // ---------------------------------------------------------------------------

  // How the gate turns a call away, if it does.
  function Refusal(w: World, c: Call, f: Script): Option<Error> {
    if !InDomain(c) then Some(NotFound)
    else if !f.lookup then Some(Internal)
    else if c.address !in w.rows then Some(NotFound)
    else if w.rows[c.address].deleting then Some(Deleting)
    else None
  }

  // A call that is turned away leaves a line, and that only for an account being deleted.
  predicate TurnedAway(w: World, v: World, c: Call, f: Script, err: Option<Error>) {
    && err == Refusal(w, c, f)
    && v.rows == w.rows && v.mailboxes == w.mailboxes && v.contacts == w.contacts
    && if err == Some(Deleting) then Logged(w, v, LineOf(c, false, WhileDeleting), f) else v == w
  }

  predicate Logged(w: World, v: World, l: Line, f: Script) {
    && v.log == w.log + [l]
    && v.stored == if f.line then w.stored + [l] else w.stored
  }

  predicate ReadsBack(f: Script) {
    f.again && f.summary
  }

  // The first failure decides the answer.
  function Failing(upstream: bool, store: bool, f: Script): Option<Error> {
    if !upstream then Some(Upstream) else if !store || !ReadsBack(f) then Some(Internal) else None
  }

  function EditedBoxes(m: map<string, Mailbox>, address: string, edit: Edit, fate: Fate): map<string, Mailbox> {
    if address in m then Left(m, m[address := Edited(m[address], edit)], fate) else m
  }

  // The row once Mailcow has answered: untouched if Mailcow failed.
  function RowAfter(rows: map<string, Row>, address: string, row: Row, upstream: bool, fate: Fate): map<string, Row> {
    if upstream then Left(rows, rows[address := row], fate) else rows
  }

  // The switch as a script throws it.
  predicate Switches(w: World, v: World, address: string, suspend: bool, f: Script, err: Option<Error>)
    requires address in w.rows
  {
    && err == Failing(f.edit.Done?, f.row.Done?, f)
    && v.mailboxes == EditedBoxes(w.mailboxes, address, Edit(None, None, Some(!suspend), None), f.edit)
    && v.rows == RowAfter(w.rows, address, w.rows[address].(suspended := suspend), f.edit.Done?, f.row)
  }

  predicate EditsMailbox(req: UpdateRequest) {
    req.name.Some? || req.quotaMB.Some?
  }

  // The limit is the one asked for, or is taken.
  predicate Limited(m: map<string, Mailbox>, address: string, perDay: int, f: Script) {
    f.get && address in m && (m[address].rate == Rate(perDay, "d") || f.rate.Done?)
  }

  // Mailcow takes its half of an update.
  predicate Patches(m: map<string, Mailbox>, address: string, req: UpdateRequest, f: Script) {
    && (EditsMailbox(req) ==> f.edit.Done?)
    && (req.limits.sendPerDay.Some? ==> Limited(m, address, req.limits.sendPerDay.value, f))
  }

  // The update as a script carries it out. What Mailcow keeps of one it did not take in full is the
  // edit, or the limit, as far as each took effect.
  predicate Updates(w: World, v: World, address: string, req: UpdateRequest, f: Script, err: Option<Error>)
    requires address in w.rows
  {
    var taken := Patches(w.mailboxes, address, req, f);
    && err == Failing(taken, f.row.Done?, f)
    && v.mailboxes == PatchedBoxes(w.mailboxes, address, req, f)
    && v.rows == RowAfter(w.rows, address, w.rows[address].(facts := PatchedFacts(w.rows[address].facts, req)), taken, f.row)
  }

  function PatchedBoxes(m: map<string, Mailbox>, address: string, req: UpdateRequest, f: Script): map<string, Mailbox> {
    var edited := if EditsMailbox(req) then EditedBoxes(m, address, Edit(req.name, req.quotaMB, None, None), f.edit) else m;
    if req.limits.sendPerDay.None? || (EditsMailbox(req) && !f.edit.Done?) then edited
    else LimitedBoxes(edited, address, Rate(req.limits.sendPerDay.value, "d"), f)
  }

  // The limit is written only where it is known to differ.
  function LimitedBoxes(m: map<string, Mailbox>, address: string, rate: Rate, f: Script): map<string, Mailbox> {
    if f.get && address in m && m[address].rate != rate then Left(m, m[address := m[address].(rate := rate)], f.rate)
    else m
  }

  // A credential without SMTP is stored, and its id recorded where it has one.
  predicate Reissues(f: Script) {
    f.reissue.Done? && (f.minted > 0 ==> f.setId.Done?)
  }

  // The retention lock as a script sets it: a mailbox flag that cannot be cleared does not stop it.
  predicate Retains(w: World, v: World, address: string, f: Script, err: Option<Error>)
    requires address in w.rows
  {
    && err == Failing(f.reissue.Done?, Reissues(f) && f.row.Done?, f)
    && v.mailboxes == (if Reissues(f) then EditedBoxes(w.mailboxes, address, Edit(None, None, None, Some(false)), f.edit)
                       else w.mailboxes)
    && v.rows == RowAfter(ReissuedRows(w.rows, address, f), address,
                          ReissuedRows(w.rows, address, f)[address].(readOnly := true), Reissues(f), f.row)
    && (f.reissue.Done? ==> OldPasswordDropped(w, v, address, f))
  }

  function ReissuedRows(rows: map<string, Row>, address: string, f: Script): (r: map<string, Row>)
    requires address in rows
    ensures r.Keys == rows.Keys
  {
    var stripped := Left(rows, rows[address := rows[address].(smtp := false)], f.reissue);
    if f.reissue.Done? && f.minted > 0
    then Left(stripped, stripped[address := stripped[address].(appPassword := Some(f.minted))], f.setId) else stripped
  }

  // The app password the row named is revoked in Mailcow, unless it is the new one.
  predicate OldPasswordDropped(w: World, v: World, address: string, f: Script)
    requires address in w.rows
  {
    var named := w.rows[address].appPassword;
    named.Some? && named.value != f.minted ==> Sent(w, v, Contact(address, Op.DeleteAppPassword(named.value), f.dropOld))
  }

  lemma DroppedStays(w: World, u: World, v: World, address: string, f: Script)
    requires address in w.rows && OldPasswordDropped(w, u, address, f) && u.contacts <= v.contacts
    ensures OldPasswordDropped(w, v, address, f)
  {
    var named := w.rows[address].appPassword;
    if named.Some? && named.value != f.minted {
      var i :| |w.contacts| <= i < |u.contacts|
               && u.contacts[i] == Contact(address, Op.DeleteAppPassword(named.value), f.dropOld);
      assert v.contacts[i] == u.contacts[i];
    }
  }

  // The mailbox is gone, or Mailcow denies having it.
  predicate Deletes(f: Script) {
    f.delete.Done? || f.delete.code == AccessDenied
  }

  predicate Removes(w: World, v: World, address: string, f: Script, err: Option<Error>)
    requires address in w.rows
  {
    && err == Failing(Deletes(f), f.row.Done?, f)
    && v.mailboxes == Left(w.mailboxes, w.mailboxes - {address}, f.delete)
    && v.rows == RowAfter(w.rows, address, w.rows[address].(deleting := true), Deletes(f), f.row)
    && Sent(w, v, Contact(address, Op.DeleteMailbox, f.delete.Done?))
  }

  // What is left once the deletions of `tried` were attempted.
  function Surviving(rows: map<string, Row>, tried: set<string>, fates: string -> Fate): map<string, Row> {
    map a | a in rows && (a in tried ==> fates(a).Refused?) :: rows[a]
  }

  function Purged(tried: set<string>, fates: string -> Fate): set<string> {
    set a | a in tried && fates(a).Done?
  }

  function BeingDeleted(rows: map<string, Row>): set<string> {
    set a | a in rows && rows[a].deleting
  }

  lemma PurgeOne(rows: map<string, Row>, tried: set<string>, a: string, fates: string -> Fate)
    requires a in rows && a !in tried
    ensures a in Surviving(rows, tried, fates)
    ensures Surviving(rows, tried + {a}, fates)
            == Left(Surviving(rows, tried, fates), Surviving(rows, tried, fates) - {a}, fates(a))
    ensures |Purged(tried + {a}, fates)| == |Purged(tried, fates)| + if fates(a).Done? then 1 else 0
  {
    assert Surviving(rows, tried + {a}, fates)
        == if fates(a).Refused? then Surviving(rows, tried, fates) else Surviving(rows, tried, fates) - {a};
    assert Purged(tried + {a}, fates) == if fates(a).Done? then Purged(tried, fates) + {a} else Purged(tried, fates);
  }

  // Between the two worlds this was sent to Mailcow.
  predicate Sent(w: World, v: World, contact: Contact) {
    exists i :: |w.contacts| <= i < |v.contacts| && v.contacts[i] == contact
  }

  // What one Mailcow request on the address may leave, apart from its effect on the mailboxes.
  ghost predicate Asked(w: World, v: World, address: string, op: Op, ok: bool) {
    v == w.(mailboxes := v.mailboxes, contacts := w.contacts + [Contact(address, op, ok)])
  }

  ghost predicate Took<T>(before: T, after: T, effect: T, ok: bool) {
    (after == before && !ok) || after == effect
  }

  class Service {
    var w: World

    constructor (w: World)
      ensures this.w == w
    {
      this.w := w;
    }

    // -------------------------------------------------------------------------
    // Mailcow
    // -------------------------------------------------------------------------

    /** A failed creation is taken to have changed nothing; a success says the address was free. */
    method CreateMailbox(address: string, m: Mailbox, given: Fate) returns (fate: Fate)
      modifies this
      ensures fate == CreateFate(old(w), address, given)
      ensures Asked(old(w), w, address, Op.CreateMailbox, fate.Done?)
      ensures fate.Done? ==> address !in old(w).mailboxes && w.mailboxes == old(w).mailboxes[address := m]
      ensures !fate.Done? ==> w.mailboxes == old(w).mailboxes
    {
      fate := CreateFate(w, address, given);
      w := w.(contacts := w.contacts + [Contact(address, Op.CreateMailbox, fate.Done?)]);
      if fate.Done? {
        w := w.(mailboxes := w.mailboxes[address := m]);
      }
    }

    method GetMailbox(address: string, up: bool) returns (m: Option<Mailbox>)
      modifies this
      ensures Asked(old(w), w, address, Op.GetMailbox, m.Some?) && w.mailboxes == old(w).mailboxes
      ensures m == if up && address in w.mailboxes then Some(w.mailboxes[address]) else None
    {
      m := if up && address in w.mailboxes then Some(w.mailboxes[address]) else None;
      w := w.(contacts := w.contacts + [Contact(address, Op.GetMailbox, m.Some?)]);
    }

    method EditMailbox(address: string, edit: Edit, fate: Fate) returns (ok: bool)
      modifies this
      ensures Asked(old(w), w, address, Op.EditMailbox, ok) && ok == fate.Done?
      ensures w.mailboxes == EditedBoxes(old(w).mailboxes, address, edit, fate)
    {
      ok := fate.Done?;
      w := w.(contacts := w.contacts + [Contact(address, Op.EditMailbox, ok)]);
      if address in w.mailboxes && !fate.Refused? {
        w := w.(mailboxes := w.mailboxes[address := Edited(w.mailboxes[address], edit)]);
      }
    }

    method SetRateLimit(address: string, rate: Rate, fate: Fate) returns (ok: bool)
      modifies this
      ensures Asked(old(w), w, address, Op.SetRateLimit, ok) && ok == fate.Done?
      ensures address !in old(w).mailboxes ==> w.mailboxes == old(w).mailboxes
      ensures address in old(w).mailboxes ==>
                w.mailboxes == Left(old(w).mailboxes, old(w).mailboxes[address := old(w).mailboxes[address].(rate := rate)], fate)
    {
      ok := fate.Done?;
      w := w.(contacts := w.contacts + [Contact(address, Op.SetRateLimit, ok)]);
      if address in w.mailboxes && !fate.Refused? {
        w := w.(mailboxes := w.mailboxes[address := w.mailboxes[address].(rate := rate)]);
      }
    }

    method DeleteMailbox(address: string, fate: Fate)
      modifies this
      ensures Asked(old(w), w, address, Op.DeleteMailbox, fate.Done?)
      ensures w.mailboxes == Left(old(w).mailboxes, old(w).mailboxes - {address}, fate)
    {
      w := w.(contacts := w.contacts + [Contact(address, Op.DeleteMailbox, fate.Done?)]);
      if !fate.Refused? {
        w := w.(mailboxes := w.mailboxes - {address});
      }
    }

    method DeleteAppPassword(address: string, id: nat, ok: bool)
      modifies this
      ensures Asked(old(w), w, address, Op.DeleteAppPassword(id), ok) && w.mailboxes == old(w).mailboxes
    {
      w := w.(contacts := w.contacts + [Contact(address, Op.DeleteAppPassword(id), ok)]);
    }

    // -------------------------------------------------------------------------
    // Provisioning
    // -------------------------------------------------------------------------

    /**
     Logs in with the password, so it succeeds only on an active mailbox that has it; then mints an
     app password and attaches it to the account row, which it creates if there is none.
     */
    method Provision(address: string, password: Secret, fate: Fate, minted: nat) returns (id: Option<nat>)
      modifies this
      ensures w == old(w).(rows := w.rows, contacts := old(w).contacts + [Contact(address, Op.Provision, id.Some?)])
      ensures id == if LogsIn(old(w), address, password) && fate.Done? then Some(minted) else None
      ensures w.rows == if address !in old(w).rows && LogsIn(old(w), address, password) && !fate.Refused?
                        then old(w).rows[address := NewRow()] else old(w).rows
    {
      id := None;
      if LogsIn(w, address, password) && !fate.Refused? {
        if address !in w.rows {
          w := w.(rows := w.rows[address := NewRow()]);
        }
        if fate.Done? {
          id := Some(minted);
        }
      }
      w := w.(contacts := w.contacts + [Contact(address, Op.Provision, id.Some?)]);
    }

    /** Replaces the row's sealed credential by one without SMTP. */
    method Reissue(address: string, fate: Fate, minted: nat) returns (id: Option<nat>)
      modifies this
      ensures w == old(w).(rows := w.rows, contacts := old(w).contacts + [Contact(address, Op.Reissue, id.Some?)])
      ensures address !in old(w).rows ==> id.None? && w.rows == old(w).rows
      ensures address in old(w).rows ==>
                && id == (if fate.Done? then Some(minted) else None)
                && w.rows == Left(old(w).rows, old(w).rows[address := old(w).rows[address].(smtp := false)], fate)
    {
      id := None;
      if address in w.rows && !fate.Refused? {
        w := w.(rows := w.rows[address := w.rows[address].(smtp := false)]);
        if fate.Done? {
          id := Some(minted);
        }
      }
      w := w.(contacts := w.contacts + [Contact(address, Op.Reissue, id.Some?)]);
    }

    // -------------------------------------------------------------------------
    // The store
    // -------------------------------------------------------------------------

    method Lookup(address: string, readable: bool) returns (found: Found)
      ensures found.Unreadable? <==> !readable
      ensures found.Found? <==> readable && address in w.rows
      ensures found.Found? ==> w.rows[address] == found.row
    {
      found := if !readable then Unreadable else if address in w.rows then Found(w.rows[address]) else Missing;
    }

    /** One UPDATE of the account's row; `live` adds the guard that it is not being deleted. */
    method UpdateRow(address: string, row: Row, live: bool, fate: Fate) returns (ok: bool)
      modifies this
      ensures w == old(w).(rows := w.rows)
      ensures address !in old(w).rows || (live && old(w).rows[address].deleting) ==> !ok && w.rows == old(w).rows
      ensures address in old(w).rows && !(live && old(w).rows[address].deleting) ==>
                ok == fate.Done? && w.rows == Left(old(w).rows, old(w).rows[address := row], fate)
    {
      ok := false;
      if address in w.rows && !(live && w.rows[address].deleting) {
        ok := fate.Done?;
        if !fate.Refused? {
          w := w.(rows := w.rows[address := row]);
        }
      }
    }

    /** audit: the log always has the line, the table unless the insert fails. */
    method Audit(c: Call, ok: bool, note: Note, kept: bool)
      modifies this
      ensures w == old(w).(log := old(w).log + [LineOf(c, ok, note)], stored := w.stored)
      ensures w.stored == if kept then old(w).stored + [LineOf(c, ok, note)] else old(w).stored
    {
      w := w.(log := w.log + [LineOf(c, ok, note)],
              stored := if kept then w.stored + [LineOf(c, ok, note)] else w.stored);
    }

    /** The resource as it stands: the row again, then the sync summary and the mailbox for its usage. */
    method Reread(address: string, f: Script) returns (err: Option<Error>)
      modifies this
      ensures err == if f.again && f.summary && address in w.rows then None else Some(Internal)
      ensures w == old(w).(contacts := w.contacts)
      ensures w.contacts == old(w).contacts || exists ok :: w.contacts == old(w).contacts + [Contact(address, Op.GetMailbox, ok)]
    {
      var found := Lookup(address, f.again);
      if !found.Found? {
        return Some(Internal);
      }
      err := ResourceOf(address, f);
    }

    method ResourceOf(address: string, f: Script) returns (err: Option<Error>)
      modifies this
      ensures err == if f.summary then None else Some(Internal)
      ensures w == old(w).(contacts := w.contacts)
      ensures w.contacts == old(w).contacts || exists ok :: w.contacts == old(w).contacts + [Contact(address, Op.GetMailbox, ok)]
    {
      if !f.summary {
        return Some(Internal);
      }
      var m := GetMailbox(address, f.usage);
      err := None;
    }

    // -------------------------------------------------------------------------
    // The gate and the record every verb shares
    // -------------------------------------------------------------------------

    method Resolve(c: Call, f: Script) returns (found: Found, err: Error)
      ensures found.Found? <==> InDomain(c) && f.lookup && c.address in w.rows
      ensures found.Found? ==> w.rows[c.address] == found.row
      ensures !found.Found? ==> Refusal(w, c, f) == Some(err)
    {
      if !InDomain(c) {
        return Missing, NotFound;
      }
      found := Lookup(c.address, f.lookup);
      err := if found.Missing? then NotFound else Internal;
    }

    method Finish(c: Call, err: Option<Error>, note: Note, kept: bool)
      modifies this
      ensures w == old(w).(log := old(w).log + [LineOf(c, err.None?, note)], stored := w.stored)
      ensures w.stored == if kept then old(w).stored + [LineOf(c, err.None?, note)] else old(w).stored
    {
      Audit(c, err.None?, note, kept);
    }

    // -------------------------------------------------------------------------
    // Suspend and Resume
    // -------------------------------------------------------------------------

    method Suspend(c: Call, f: Script) returns (err: Option<Error>)
      requires c.action.Suspend?
      modifies this
      ensures Verb(old(w), w, c, err)
      ensures err.None? <==> Refusal(old(w), c, f).None? && f.edit.Done? && f.row.Done? && ReadsBack(f)
      ensures Refusal(old(w), c, f).Some? ==> TurnedAway(old(w), w, c, f, err)
      ensures Refusal(old(w), c, f).None? ==>
                && Switches(old(w), w, c.address, true, f, err)
                && Logged(old(w), w, LineOf(c, err.None?, Plain), f)
      ensures err.None? ==>
                && c.address in w.rows && w.rows[c.address].suspended
                && (c.address in w.mailboxes ==> !w.mailboxes[c.address].active)
    {
      var found, e := Resolve(c, f);
      if !found.Found? {
        return Some(e);
      }
      if found.row.deleting {
        Audit(c, false, WhileDeleting, f.line);
        return Some(Deleting);
      }
      err := Switch(c.address, found.row, true, f);
      Finish(c, err, Plain, f.line);
    }

    method Resume(c: Call, f: Script) returns (err: Option<Error>)
      requires c.action.Resume?
      modifies this
      ensures Verb(old(w), w, c, err)
      ensures err.None? <==> Refusal(old(w), c, f).None? && f.edit.Done? && f.row.Done? && ReadsBack(f)
      ensures Refusal(old(w), c, f).Some? ==> TurnedAway(old(w), w, c, f, err)
      ensures Refusal(old(w), c, f).None? ==>
                && Switches(old(w), w, c.address, false, f, err)
                && Logged(old(w), w, LineOf(c, err.None?, Plain), f)
      ensures err.None? ==>
                && c.address in w.rows && !w.rows[c.address].suspended
                && (c.address in w.mailboxes ==> w.mailboxes[c.address].active)
    {
      var found, e := Resolve(c, f);
      if !found.Found? {
        return Some(e);
      }
      if found.row.deleting {
        Audit(c, false, WhileDeleting, f.line);
        return Some(Deleting);
      }
      err := Switch(c.address, found.row, false, f);
      Finish(c, err, Plain, f.line);
    }

    /** Mailcow first, then the row: while the two disagree it is Mailcow that has moved. */
    method Switch(address: string, row: Row, suspend: bool, f: Script) returns (err: Option<Error>)
      requires address in w.rows && w.rows[address] == row
      modifies this
      ensures Worked(old(w), w, address)
      ensures w.rows.Keys == old(w).rows.Keys && w.mailboxes.Keys == old(w).mailboxes.Keys
      ensures w.rows[address] == row || w.rows[address] == row.(suspended := suspend)
      ensures !row.deleting ==> Switches(old(w), w, address, suspend, f, err)
      ensures err.None? ==>
                && w.rows[address] == row.(suspended := suspend)
                && (address in w.mailboxes ==> w.mailboxes[address].active == !suspend)
    {
      var ok := EditMailbox(address, Edit(None, None, Some(!suspend), None), f.edit);
      if !ok {
        return Some(Upstream);
      }
      ok := UpdateRow(address, row.(suspended := suspend), true, f.row);
      if !ok {
        return Some(Internal);
      }
      err := Reread(address, f);
    }

    // -------------------------------------------------------------------------
    // Update
    // -------------------------------------------------------------------------

    method Update(c: Call, req: UpdateRequest, f: Script) returns (err: Option<Error>)
      requires c.action.Update?
      modifies this
      ensures Verb(old(w), w, c, err)
      ensures err.None? <==>
                Refusal(old(w), c, f).None? && Patches(old(w).mailboxes, c.address, req, f) && f.row.Done? && ReadsBack(f)
      ensures Refusal(old(w), c, f).Some? ==> TurnedAway(old(w), w, c, f, err)
      ensures Refusal(old(w), c, f).None? ==>
                && Updates(old(w), w, c.address, req, f, err)
                && Logged(old(w), w, LineOf(c, err.None?, Plain), f)
      ensures err.None? ==>
                && c.address in old(w).rows
                && w.rows == old(w).rows[c.address := old(w).rows[c.address].(
                                           facts := PatchedFacts(old(w).rows[c.address].facts, req))]
                && (c.address in old(w).mailboxes ==>
                      && c.address in w.mailboxes
                      && MailboxPatched(old(w).mailboxes[c.address], w.mailboxes[c.address], req))
    {
      var found, e := Resolve(c, f);
      if !found.Found? {
        return Some(e);
      }
      if found.row.deleting {
        Audit(c, false, WhileDeleting, f.line);
        return Some(Deleting);
      }
      err := Patch(c.address, found.row, req, f);
      Finish(c, err, Plain, f.line);
    }

    method Patch(address: string, row: Row, req: UpdateRequest, f: Script) returns (err: Option<Error>)
      requires address in w.rows && w.rows[address] == row
      modifies this
      ensures Worked(old(w), w, address)
      ensures w.mailboxes.Keys == old(w).mailboxes.Keys
      ensures address in w.mailboxes ==>
                && w.mailboxes[address].active == old(w).mailboxes[address].active
                && (err.None? ==> MailboxPatched(old(w).mailboxes[address], w.mailboxes[address], req))
      ensures Took(old(w).rows, w.rows, old(w).rows[address := row.(facts := PatchedFacts(row.facts, req))], err.None?)
      ensures Updates(old(w), w, address, req, f, err)
    {
      err := PatchMailbox(address, req, f);
      if err.Some? {
        return;
      }
      var ok := UpdateRow(address, row.(facts := PatchedFacts(row.facts, req)), false, f.row);
      if !ok {
        return Some(Internal);
      }
      err := Reread(address, f);
    }

    /** Mailcow's half of an update: the name and quota, then the limit. */
    method PatchMailbox(address: string, req: UpdateRequest, f: Script) returns (err: Option<Error>)
      modifies this
      ensures err == if Patches(old(w).mailboxes, address, req, f) then None else Some(Upstream)
      ensures w.mailboxes == PatchedBoxes(old(w).mailboxes, address, req, f)
      ensures Worked(old(w), w, address) && w.rows == old(w).rows
      ensures w.mailboxes.Keys == old(w).mailboxes.Keys
      ensures address in w.mailboxes ==>
                && w.mailboxes[address].active == old(w).mailboxes[address].active
                && (err.None? ==> MailboxPatched(old(w).mailboxes[address], w.mailboxes[address], req))
    {
      err := None;
      if req.name.Some? || req.quotaMB.Some? {
        var ok := EditMailbox(address, Edit(req.name, req.quotaMB, None, None), f.edit);
        if !ok {
          return Some(Upstream);
        }
      }
      if req.limits.sendPerDay.Some? {
        err := ApplyRateLimit(address, req.limits.sendPerDay.value, f);
      }
    }

    /** Writes the limit only where the effective one differs; either way it is then the one asked for. */
    method ApplyRateLimit(address: string, perDay: int, f: Script) returns (err: Option<Error>)
      modifies this
      ensures Worked(old(w), w, address) && w.rows == old(w).rows
      ensures w.mailboxes.Keys == old(w).mailboxes.Keys
      ensures address in w.mailboxes ==>
                w.mailboxes[address] == old(w).mailboxes[address].(rate := w.mailboxes[address].rate)
      ensures err.None? ==> address in w.mailboxes && w.mailboxes[address].rate == Rate(perDay, "d")
      ensures err == if Limited(old(w).mailboxes, address, perDay, f) then None else Some(Upstream)
      ensures w.mailboxes == LimitedBoxes(old(w).mailboxes, address, Rate(perDay, "d"), f)
      ensures address in old(w).mailboxes && old(w).mailboxes[address].rate == Rate(perDay, "d") ==> !Mutates(old(w), w)
    {
      var m := GetMailbox(address, f.get);
      if m.None? {
        return Some(Upstream);
      }
      if m.value.rate == Rate(perDay, "d") {
        return None;
      }
      var ok := SetRateLimit(address, Rate(perDay, "d"), f.rate);
      err := if ok then None else Some(Upstream);
    }

    // -------------------------------------------------------------------------
    // ReadOnly
    // -------------------------------------------------------------------------

    method ReadOnly(c: Call, f: Script) returns (err: Option<Error>)
      requires c.action.ReadOnly?
      modifies this
      ensures Verb(old(w), w, c, err)
      ensures err.None? <==>
                && Refusal(old(w), c, f).None?
                && (old(w).rows[c.address].readOnly || (Reissues(f) && f.row.Done?)) && ReadsBack(f)
      ensures Refusal(old(w), c, f).Some? ==> TurnedAway(old(w), w, c, f, err)
      ensures Refusal(old(w), c, f).None? && old(w).rows[c.address].readOnly ==>
                && w.rows == old(w).rows && w.mailboxes == old(w).mailboxes
                && Logged(old(w), w, LineOf(c, true, Idempotent), f)
      ensures Refusal(old(w), c, f).None? && !old(w).rows[c.address].readOnly ==>
                && Retains(old(w), w, c.address, f, err)
                && Logged(old(w), w, LineOf(c, err.None?, Plain), f)
      ensures err.None? ==> c.address in w.rows && w.rows[c.address].readOnly
      ensures err.None? && !old(w).rows[c.address].readOnly ==> !w.rows[c.address].smtp
      ensures NewLine(old(w), w).Some? && NewLine(old(w), w).value.ok != err.None? <==> MisreportsReadOnly(old(w), c, f)
    {
      var found, e := Resolve(c, f);
      if !found.Found? {
        return Some(e);
      }
      if found.row.deleting {
        Audit(c, false, WhileDeleting, f.line);
        return Some(Deleting);
      }
      if found.row.readOnly {
        Audit(c, true, Idempotent, f.line);
        err := Reread(c.address, f);
        return;
      }
      err := Retain(c.address, found.row, f);
      Finish(c, err, Plain, f.line);
    }

    /** The credential first, the mailbox flag next and optional, the row's mark last. */
    method Retain(address: string, row: Row, f: Script) returns (err: Option<Error>)
      requires address in w.rows && w.rows[address] == row
      modifies this
      ensures Worked(old(w), w, address)
      ensures w.rows.Keys == old(w).rows.Keys && w.mailboxes.Keys == old(w).mailboxes.Keys
      ensures address in w.mailboxes ==> w.mailboxes[address].active == old(w).mailboxes[address].active
      ensures w.rows[address].suspended == row.suspended && (!row.smtp ==> !w.rows[address].smtp)
      ensures w.rows[address].readOnly && !row.readOnly ==> !w.rows[address].smtp
      ensures err.None? ==> w.rows[address].readOnly && !w.rows[address].smtp
      ensures !row.deleting ==> Retains(old(w), w, address, f, err)
    {
      err := ReissueWithoutSMTP(address, row, f);
      if err.Some? {
        return;
      }
      ghost var reissued := w;
      err := MarkReadOnly(address, f);
      WorkedOn(old(w), reissued, w, address);
      DroppedStays(old(w), reissued, w, address, f);
    }

    /** The mailbox flag, whose failure is passed over, and the row's mark. */
    method MarkReadOnly(address: string, f: Script) returns (err: Option<Error>)
      requires address in w.rows
      modifies this
      ensures Worked(old(w), w, address) && old(w).contacts <= w.contacts
      ensures w.mailboxes == EditedBoxes(old(w).mailboxes, address, Edit(None, None, None, Some(false)), f.edit)
      ensures w.rows == if old(w).rows[address].deleting then old(w).rows
                        else RowAfter(old(w).rows, address, old(w).rows[address].(readOnly := true), true, f.row)
      ensures err == if old(w).rows[address].deleting then Some(Internal) else Failing(true, f.row.Done?, f)
    {
      var cleared := EditMailbox(address, Edit(None, None, None, Some(false)), f.edit);
      var ok := UpdateRow(address, w.rows[address].(readOnly := true), true, f.row);
      if !ok {
        return Some(Internal);
      }
      err := Reread(address, f);
    }

    /** Mint and store, then delete the old password, then record the new one's id. */
    method ReissueWithoutSMTP(address: string, row: Row, f: Script) returns (err: Option<Error>)
      requires address in w.rows && w.rows[address] == row
      modifies this
      ensures Worked(old(w), w, address) && w.mailboxes == old(w).mailboxes
      ensures w.rows.Keys == old(w).rows.Keys
      ensures w.rows[address] == row.(smtp := w.rows[address].smtp, appPassword := w.rows[address].appPassword)
      ensures !row.smtp ==> !w.rows[address].smtp
      ensures err.None? ==> !w.rows[address].smtp
      ensures w.rows == ReissuedRows(old(w).rows, address, f)
      ensures err == if !f.reissue.Done? then Some(Upstream) else if !Reissues(f) then Some(Internal) else None
      ensures f.reissue.Done? ==> OldPasswordDropped(old(w), w, address, f)
    {
      var id := ReplacePassword(address, row, f);
      if id.None? {
        return Some(Upstream);
      }
      ghost var replaced := w;
      var ok := SetPasswordId(address, id.value, f);
      WorkedOn(old(w), replaced, w, address);
      err := if ok then None else Some(Internal);
    }

    method ReplacePassword(address: string, row: Row, f: Script) returns (id: Option<nat>)
      requires address in w.rows && w.rows[address] == row
      modifies this
      ensures Worked(old(w), w, address) && w.mailboxes == old(w).mailboxes
      ensures w.rows == Left(old(w).rows, old(w).rows[address := row.(smtp := false)], f.reissue)
      ensures id == if f.reissue.Done? then Some(f.minted) else None
      ensures f.reissue.Done? ==> OldPasswordDropped(old(w), w, address, f)
    {
      id := Reissue(address, f.reissue, f.minted);
      if id.Some? && row.appPassword.Some? && row.appPassword.value != id.value {
        DeleteAppPassword(address, row.appPassword.value, f.dropOld);
        assert w.contacts[|old(w).contacts| + 1] == Contact(address, Op.DeleteAppPassword(row.appPassword.value), f.dropOld);
      }
    }

    /** Records which app password the stored credential is, when Mailcow gave it an id. */
    method SetPasswordId(address: string, id: nat, f: Script) returns (ok: bool)
      requires address in w.rows
      modifies this
      ensures Worked(old(w), w, address) && w == old(w).(rows := w.rows) && w.rows.Keys == old(w).rows.Keys
      ensures w.rows[address] == old(w).rows[address].(appPassword := w.rows[address].appPassword)
      ensures ok <==> (id > 0 ==> f.setId.Done?)
      ensures w.rows == if id > 0 then Left(old(w).rows, old(w).rows[address := old(w).rows[address].(appPassword := Some(id))], f.setId)
                        else old(w).rows
    {
      ok := true;
      if id > 0 {
        ok := UpdateRow(address, w.rows[address].(appPassword := Some(id)), false, f.setId);
      }
    }

    // -------------------------------------------------------------------------
    // Delete and Purge
    // -------------------------------------------------------------------------

    method Delete(c: Call, f: Script) returns (err: Option<Error>)
      requires c.action.Delete?
      modifies this
      ensures Verb(old(w), w, c, err)
      ensures err.None? <==> Refusal(old(w), c, f).None? && Deletes(f) && f.row.Done? && ReadsBack(f)
      ensures Refusal(old(w), c, f).Some? ==> TurnedAway(old(w), w, c, f, err)
      ensures Refusal(old(w), c, f).None? ==>
                && Removes(old(w), w, c.address, f, err)
                && Logged(old(w), w, LineOf(c, err.None?, Plain), f)
      ensures err.None? ==> c.address in w.rows && w.rows[c.address].deleting
      ensures err.None? && c.address in w.mailboxes ==>
                Contact(c.address, Op.DeleteMailbox, false) in w.contacts[|old(w).contacts|..]
    {
      var found, e := Resolve(c, f);
      if !found.Found? {
        return Some(e);
      }
      if found.row.deleting {
        Audit(c, false, WhileDeleting, f.line);
        return Some(Deleting);
      }
      err := Remove(c.address, found.row, f);
      Finish(c, err, Plain, f.line);
    }

    /** A mailbox Mailcow denies having is no reason to keep Moov's rows. */
    method Remove(address: string, row: Row, f: Script) returns (err: Option<Error>)
      requires address in w.rows && w.rows[address] == row
      modifies this
      ensures Worked(old(w), w, address)
      ensures w.mailboxes == old(w).mailboxes || w.mailboxes == old(w).mailboxes - {address}
      ensures Took(old(w).rows, w.rows, old(w).rows[address := row.(deleting := true)], err.None?)
      ensures !row.deleting ==> Removes(old(w), w, address, f, err)
      ensures err.None? && address in w.mailboxes ==>
                Contact(address, Op.DeleteMailbox, false) in w.contacts[|old(w).contacts|..]
    {
      DeleteMailbox(address, f.delete);
      ghost var asked := Contact(address, Op.DeleteMailbox, f.delete.Done?);
      assert w.contacts[|old(w).contacts|] == asked;
      if !f.delete.Done? && f.delete.code != AccessDenied {
        return Some(Upstream);
      }
      var ok := UpdateRow(address, row.(deleting := true), true, f.row);
      if !ok {
        return Some(Internal);
      }
      err := Reread(address, f);
      assert w.contacts[|old(w).contacts|] == asked;
    }

    /** One pass over the accounts whose deletion was started: each goes, unless its deletion is
        refused, and the count is of those reported gone. */
    method Purge(listed: bool, fates: string -> Fate) returns (purged: nat)
      modifies this
      ensures Swept(old(w), w)
      ensures listed ==> w == old(w).(rows := Surviving(old(w).rows, BeingDeleted(old(w).rows), fates))
      ensures listed ==> purged == |Purged(BeingDeleted(old(w).rows), fates)|
      ensures !listed ==> w == old(w) && purged == 0
    {
      purged := 0;
      if !listed {
        return;
      }
      var pending := BeingDeleted(w.rows);
      ghost var rows, tried := w.rows, {};
      assert Surviving(rows, {}, fates) == rows && Purged({}, fates) == {};
      while pending != {}
        invariant tried !! pending && tried + pending == BeingDeleted(rows)
        invariant w == old(w).(rows := Surviving(rows, tried, fates))
        invariant purged == |Purged(tried, fates)|
        decreases |pending|
      {
        var a :| a in pending;
        PurgeOne(rows, tried, a, fates);
        assert tried + {a} + (pending - {a}) == tried + pending;
        pending, tried := pending - {a}, tried + {a};
        var ok := DeleteAccount(a, fates(a));
        if ok {
          purged := purged + 1;
        }
      }
      assert tried == BeingDeleted(rows);
    }

    method DeleteAccount(a: string, fate: Fate) returns (ok: bool)
      requires a in w.rows
      modifies this
      ensures w == old(w).(rows := w.rows)
      ensures ok == fate.Done? && w.rows == Left(old(w).rows, old(w).rows - {a}, fate)
    {
      ok := fate.Done?;
      if !fate.Refused? {
        w := w.(rows := w.rows - {a});
      }
    }

    // -------------------------------------------------------------------------
    // Create
    // -------------------------------------------------------------------------

    /**
     Creates, provisions and records an account, or undoes what it did. `password` is what the
     generator drew, if it could. `recorded` says whether the facts were written.
     */
    method Create(c: Call, req: CreateRequest, password: Option<Secret>, f: Script)
      returns (err: Option<Error>, created: bool, ghost recorded: bool)
      requires c.action.Create?
      modifies this
      ensures Verb(old(w), w, c, err)
      // What success means.
      ensures created ==> err.None? && recorded && c.address !in old(w).rows
      ensures err.None? && !created ==> w.mailboxes == old(w).mailboxes && w.rows == old(w).rows && c.address in w.rows
      ensures recorded ==>
                && c.address in w.rows && w.rows[c.address].facts == RequestedFacts(req)
                && c.address in w.mailboxes && w.mailboxes[c.address].active
                && w.mailboxes[c.address].rate == Rate(PerDay(req), "d")
      ensures created && c.address !in old(w).mailboxes ==>
                && password.Some?
                && w.mailboxes[c.address] == NewMailbox(req, password.value, w.mailboxes[c.address].rate)
      // What failure leaves.
      ensures err.Some? && !recorded ==> w.mailboxes.Keys == old(w).mailboxes.Keys || RollbackFailed(c.address)
      ensures old(w).mailboxes.Keys <= w.mailboxes.Keys
      ensures Provisioned(old(w), w, c.address) ==> c.address in w.rows
      ensures !InDomain(c) || !f.lookup || (c.address in old(w).rows && old(w).rows[c.address].deleting) ==>
                TurnedAway(old(w), w, c, f, err)
      ensures Refusal(old(w), c, f).None? ==>
                && err == (if f.summary then None else Some(Internal))
                && if f.summary then Logged(old(w), w, LineOf(c, true, Idempotent), f) else w.log == old(w).log
      ensures InDomain(c) && f.lookup && c.address !in old(w).rows ==>
                && Exactly(old(w), w, c.address, req, password, f, err, recorded)
                && Logged(old(w), w, LineOf(c, err.None?, CreateNote(old(w), c.address, f)), f)
      // A mailbox that was there before is taken over only under its own password.
      ensures created && c.address in old(w).mailboxes ==>
                && password == Some(old(w).mailboxes[c.address].password)
                && w.mailboxes[c.address] == old(w).mailboxes[c.address].(rate := Rate(PerDay(req), "d"))
    {
      created, recorded := false, false;
      if !InDomain(c) {
        return Some(NotFound), false, false;
      }
      var found := Lookup(c.address, f.lookup);
      if found.Unreadable? {
        return Some(Internal), false, false;
      }
      if found.Found? && found.row.deleting {
        Audit(c, false, WhileDeleting, f.line);
        return Some(Deleting), false, false;
      }
      if found.Found? {
        err := ResourceOf(c.address, f);
        if err.None? {
          Audit(c, true, Idempotent, f.line);
        }
        return;
      }
      err, recorded := CreateFresh(c, req, password, f);
      created := err.None?;
    }

    /** Past the lookup: the account is new to Moov, and the attempt is audited whatever comes of it. */
    method CreateFresh(c: Call, req: CreateRequest, password: Option<Secret>, f: Script)
      returns (err: Option<Error>, ghost recorded: bool)
      requires c.action.Create? && InDomain(c) && c.address !in w.rows
      modifies this
      ensures Verb(old(w), w, c, err)
      ensures Finished(old(w), w, c.address, req, err, recorded)
      ensures err.Some? && !recorded ==> w.mailboxes.Keys == old(w).mailboxes.Keys || RollbackFailed(c.address)
      ensures old(w).mailboxes.Keys <= w.mailboxes.Keys
      ensures Provisioned(old(w), w, c.address) ==> c.address in w.rows
      ensures err.None? && c.address in old(w).mailboxes ==> password == Some(old(w).mailboxes[c.address].password)
      ensures err.None? && c.address !in old(w).mailboxes ==>
                && password.Some? && c.address in w.mailboxes
                && w.mailboxes[c.address] == NewMailbox(req, password.value, w.mailboxes[c.address].rate)
      ensures Exactly(old(w), w, c.address, req, password, f, err, recorded)
      ensures Logged(old(w), w, LineOf(c, err.None?, CreateNote(old(w), c.address, f)), f)
    {
      var note := Plain;
      if f.history && DeletedBefore(w, c.address) {
        note := Recreated;
      }
      recorded := false;
      if password.None? {
        err := Some(Internal);
      } else {
        err, recorded := CreateAndFinish(c.address, req, password.value, f);
      }
      Finish(c, err, note, f.line);
    }

    // The last thing sent to Mailcow was a deletion of the mailbox that was reported as failed.
    predicate RollbackFailed(address: string)
      reads this
    {
      w.contacts != [] && w.contacts[|w.contacts| - 1] == Contact(address, Op.DeleteMailbox, false)
    }

    method CreateAndFinish(address: string, req: CreateRequest, password: Secret, f: Script)
      returns (err: Option<Error>, ghost recorded: bool)
      requires address !in w.rows
      modifies this
      ensures Worked(old(w), w, address)
      ensures Finished(old(w), w, address, req, err, recorded)
      ensures err.Some? && !recorded ==> w.mailboxes.Keys == old(w).mailboxes.Keys || RollbackFailed(address)
      ensures old(w).mailboxes.Keys <= w.mailboxes.Keys
      ensures Provisioned(old(w), w, address) ==> address in w.rows
      ensures address in old(w).mailboxes && old(w).mailboxes[address].password != password ==> err.Some?
      ensures err.None? && address !in old(w).mailboxes ==>
                address in w.mailboxes && w.mailboxes[address] == NewMailbox(req, password, w.mailboxes[address].rate)
      ensures Exactly(old(w), w, address, req, Some(password), f, err, recorded)
    {
      var fate := CreateMailbox(address, NewMailbox(req, password, f.inherited), f.create);
      if !fate.Done? && fate.code != ObjectExists {
        return Some(Upstream), false;
      }
      ghost var made := w;
      MadeIsWorked(old(w), made, address, fate.Done?);
      err, recorded := FinishCreate(address, req, password, fate.Done?, f);
      WorkedOn(old(w), made, w, address);
      FinishIsExact(old(w), made, w, address, req, password, f, err, recorded);
    }

    /** Only a mailbox this call created (`ours`) may be deleted again. */
    method FinishCreate(address: string, req: CreateRequest, password: Secret, ours: bool, f: Script)
      returns (err: Option<Error>, ghost recorded: bool)
      requires address !in w.rows
      requires ours ==> address in w.mailboxes && w.mailboxes[address].active
      modifies this
      ensures Worked(old(w), w, address)
      ensures Finished(old(w), w, address, req, err, recorded)
      ensures w.mailboxes.Keys == old(w).mailboxes.Keys || (ours && w.mailboxes.Keys == old(w).mailboxes.Keys - {address})
      ensures ours && err.Some? && !recorded ==> address !in w.mailboxes || RollbackFailed(address)
      ensures Provisioned(old(w), w, address) ==> address in w.rows
      ensures err.None? ==> address in old(w).mailboxes && old(w).mailboxes[address].password == password
      ensures FinishedExactly(old(w), w, address, req, password, ours, f, err, recorded)
    {
      recorded := false;
      err := ProvisionAndRecord(address, req, password, f);
      if err.Some? {
        Rollback(address, ours, f.rollback);
        return err, false;
      }
      recorded := true;
      err := Reread(address, f);
    }

    /** Everything after the mailbox that may fail and be rolled back. */
    method ProvisionAndRecord(address: string, req: CreateRequest, password: Secret, f: Script) returns (err: Option<Error>)
      requires address !in w.rows
      modifies this
      ensures Worked(old(w), w, address)
      ensures w.mailboxes.Keys == old(w).mailboxes.Keys
      ensures address in w.mailboxes ==>
                w.mailboxes[address] == old(w).mailboxes[address].(rate := w.mailboxes[address].rate)
      ensures address in w.rows <==> LogsIn(old(w), address, password) && !f.provision.Refused?
      ensures address !in w.rows ==> w.rows == old(w).rows && w.mailboxes == old(w).mailboxes
      ensures address in w.rows ==>
                !w.rows[address].suspended && !w.rows[address].readOnly && !w.rows[address].deleting
      ensures Provisioned(old(w), w, address) ==> address in w.rows
      ensures err == if !LogsIn(old(w), address, password) || !f.provision.Done? then Some(Upstream)
                     else if f.minted > 0 && !f.setId.Done? then Some(Internal)
                     else if !TakesRate(old(w).mailboxes[address].rate, req, f) then Some(Upstream)
                     else if !f.row.Done? then Some(Internal) else None
      ensures err.None? ==> address in w.rows && w.rows[address] == CreatedRow(req, f)
                            && w.mailboxes[address].rate == Rate(PerDay(req), "d")
    {
      var id := Provision(address, password, f.provision, f.minted);
      if id.None? {
        return Some(Upstream);
      }
      ghost var provisioned := w;
      assert Worked(old(w), provisioned, address);
      err := Record(address, req, id.value, f);
      WorkedOn(old(w), provisioned, w, address);
    }

    /** The app password's id, then the rate limit and the facts. */
    method Record(address: string, req: CreateRequest, id: nat, f: Script) returns (err: Option<Error>)
      requires address in w.rows && address in w.mailboxes
      modifies this
      ensures Worked(old(w), w, address)
      ensures w.rows.Keys == old(w).rows.Keys && w.mailboxes.Keys == old(w).mailboxes.Keys
      ensures w.rows[address] == old(w).rows[address].(appPassword := w.rows[address].appPassword, facts := w.rows[address].facts)
      ensures w.mailboxes[address] == old(w).mailboxes[address].(rate := w.mailboxes[address].rate)
      ensures err == if id > 0 && !f.setId.Done? then Some(Internal)
                     else if !TakesRate(old(w).mailboxes[address].rate, req, f) then Some(Upstream)
                     else if !f.row.Done? then Some(Internal) else None
      ensures err.None? ==>
                && w.rows[address].facts == RequestedFacts(req)
                && w.rows[address].appPassword == (if id > 0 then Some(id) else old(w).rows[address].appPassword)
                && w.mailboxes[address].rate == Rate(PerDay(req), "d")
    {
      var ok := SetPasswordId(address, id, f);
      if !ok {
        return Some(Internal);
      }
      ghost var named := w;
      err := RecordFacts(address, req, f);
      WorkedOn(old(w), named, w, address);
    }

    method RecordFacts(address: string, req: CreateRequest, f: Script) returns (err: Option<Error>)
      requires address in w.rows && address in w.mailboxes
      modifies this
      ensures Worked(old(w), w, address)
      ensures w.rows.Keys == old(w).rows.Keys && w.mailboxes.Keys == old(w).mailboxes.Keys
      ensures w.rows[address] == old(w).rows[address].(facts := w.rows[address].facts)
      ensures w.mailboxes[address] == old(w).mailboxes[address].(rate := w.mailboxes[address].rate)
      ensures err == if !TakesRate(old(w).mailboxes[address].rate, req, f) then Some(Upstream)
                     else if !f.row.Done? then Some(Internal) else None
      ensures err.None? ==> w.rows[address].facts == RequestedFacts(req) && w.mailboxes[address].rate == Rate(PerDay(req), "d")
    {
      err := ApplyRateLimit(address, PerDay(req), f);
      if err.Some? {
        return;
      }
      var ok := UpdateRow(address, w.rows[address].(facts := RequestedFacts(req)), false, f.row);
      err := if ok then None else Some(Internal);
    }

    method Rollback(address: string, ours: bool, fate: Fate)
      modifies this
      ensures !ours ==> w == old(w)
      ensures ours ==>
                && Asked(old(w), w, address, Op.DeleteMailbox, fate.Done?)
                && w.mailboxes == Left(old(w).mailboxes, old(w).mailboxes - {address}, fate)
      ensures ours ==> address !in w.mailboxes || RollbackFailed(address)
    {
      if ours {
        DeleteMailbox(address, fate);
      }
    }
  }

  /**
   What a create of an account new to Moov comes to, for every script. The facts are recorded exactly
   if every call on the way succeeds. Otherwise the rows are as before exactly if provisioning did not
   get to the row, the mailboxes exactly if the mailbox created here, if any, could be deleted again,
   and so nothing is left half-done exactly if both hold.
   */
  ghost predicate Exactly(w: World, v: World, address: string, req: CreateRequest, password: Option<Secret>,
                          f: Script, err: Option<Error>, recorded: bool) {
    && (recorded <==> Records(w, address, req, password, f))
    && (err.None? <==> recorded && ReadsBack(f)) && err == CreateAnswer(w, address, req, password, f)
    && (recorded ==> address in v.rows && v.rows[address] == CreatedRow(req, f))
    && (!recorded ==>
          && (v.rows == w.rows <==> !WritesRow(w, address, password, f))
          && (address in v.rows <==> WritesRow(w, address, password, f))
          && (v.mailboxes.Keys == w.mailboxes.Keys <==> !Strands(w, address, password, f))
          && (v.rows == w.rows && v.mailboxes == w.mailboxes
              <==> !WritesRow(w, address, password, f) && !Strands(w, address, password, f)))
  }

  // The same from the point where the mailbox is there.
  ghost predicate FinishedExactly(w: World, v: World, address: string, req: CreateRequest, password: Secret,
                                  ours: bool, f: Script, err: Option<Error>, recorded: bool) {
    && (recorded <==> LogsIn(w, address, password) && Follows(w.mailboxes[address].rate, req, f))
    && (err.None? <==> recorded && ReadsBack(f))
    && err == AnswerOf(LogsIn(w, address, password), if address in w.mailboxes then w.mailboxes[address].rate else f.inherited, req, f)
    && (recorded ==> address in v.rows && v.rows[address] == CreatedRow(req, f))
    && (!recorded ==>
          && (v.rows == w.rows <==> !(LogsIn(w, address, password) && !f.provision.Refused?))
          && (address in v.rows <==> LogsIn(w, address, password) && !f.provision.Refused?)
          && v.mailboxes.Keys == (if ours then Left(w.mailboxes.Keys, w.mailboxes.Keys - {address}, f.rollback)
                                  else w.mailboxes.Keys)
          && (v.rows == w.rows ==>
                v.mailboxes == if ours then Left(w.mailboxes, w.mailboxes - {address}, f.rollback) else w.mailboxes))
  }

  // Asking for a mailbox is work on that address.
  lemma MadeIsWorked(w: World, v: World, address: string, ok: bool)
    requires Asked(w, v, address, Op.CreateMailbox, ok)
    requires forall a | a != address ::
               (a in w.mailboxes <==> a in v.mailboxes) && (a in w.mailboxes ==> w.mailboxes[a] == v.mailboxes[a])
    ensures Worked(w, v, address)
  {
  }

  lemma WorkedOn(u: World, v: World, w: World, address: string)
    requires Worked(u, v, address) && Worked(v, w, address)
    ensures Worked(u, w, address)
  {
  }

  lemma FinishIsExact(w: World, made: World, v: World, address: string, req: CreateRequest, password: Secret,
                      f: Script, err: Option<Error>, recorded: bool)
    requires Reaches(w, address, f) && made.rows == w.rows
    requires made.mailboxes == if Ours(w, address, f) then w.mailboxes[address := NewMailbox(req, password, f.inherited)]
                               else w.mailboxes
    requires FinishedExactly(made, v, address, req, password, Ours(w, address, f), f, err, recorded)
    ensures Exactly(w, v, address, req, Some(password), f, err, recorded)
  {
    assert LogsIn(made, address, password) <==> Ours(w, address, f) || LogsIn(w, address, password);
    if Ours(w, address, f) {
      assert made.mailboxes - {address} == w.mailboxes;
      assert made.mailboxes.Keys - {address} == w.mailboxes.Keys;
    }
  }

  // Provisioning was carried out between the two worlds.
  predicate Provisioned(w: World, v: World, address: string) {
    exists i :: |w.contacts| <= i < |v.contacts| && v.contacts[i] == Contact(address, Op.Provision, true)
  }

  // What a create past its mailbox leaves of the account.
  ghost predicate Finished(w: World, v: World, address: string, req: CreateRequest, err: Option<Error>, recorded: bool) {
    && (err.None? ==> recorded)
    && (recorded ==>
          && address in v.rows && v.rows[address].facts == RequestedFacts(req)
          && address in v.mailboxes && v.mailboxes[address].active
          && v.mailboxes[address].rate == Rate(PerDay(req), "d"))
    && (address in v.rows ==> !v.rows[address].suspended && !v.rows[address].readOnly && !v.rows[address].deleting)
    && (address in v.rows && address in v.mailboxes ==> v.mailboxes[address].active)
    && (address in w.mailboxes && address in v.mailboxes ==>
          v.mailboxes[address] == w.mailboxes[address].(rate := v.mailboxes[address].rate))
  }

  // ---------------------------------------------------------------------------
  // The failures themselves
  // ---------------------------------------------------------------------------

  const Fine := Script(true, true, true, Done, Rate(0, ""), Done, 1, Done, Done, true, Done, Done, Done,
                       Done, true, Done, true, true, true)

  /** A create whose app password id cannot be recorded answers an error and undoes its mailbox, and
      leaves the account row; asked again, with nothing failing, it reports success and there is still
      no mailbox. */
  method RowSurvivesRollback(c: Call, req: CreateRequest, password: Secret)
    returns (before: World, after: World, later: World, err: Option<Error>, again: Option<Error>)
    requires c.action.Create? && InDomain(c)
    ensures err.Some? && again.None?
    ensures c.address !in before.rows && c.address in after.rows && c.address in later.rows
    ensures c.address !in before.mailboxes && after.mailboxes.Keys == before.mailboxes.Keys == later.mailboxes.Keys
  {
    before := World(map[], map[], [], [], []);
    var s := new Service(before);
    var f := Fine.(setId := Refused(Other));
    var created;
    ghost var recorded;
    err, created, recorded := s.Create(c, req, Some(password), f);
    after := s.w;
    assert WritesRow(before, c.address, Some(password), f);
    again, created, recorded := s.Create(c, req, Some(password), Fine);
    later := s.w;
  }

  /** The second read-only request on an account whose row can no longer be read back is logged as a
      success and answered with an error. */
  method ReadOnlyMisreported(c: Call, row: Row) returns (after: World, err: Option<Error>)
    requires c.action.ReadOnly? && InDomain(c) && row.readOnly && !row.deleting
    ensures err.Some? && after.log == [LineOf(c, true, Idempotent)]
  {
    var s := new Service(World(map[], map[c.address := row], [], [], []));
    err := s.ReadOnly(c, Fine.(again := false));
    after := s.w;
  }
}
