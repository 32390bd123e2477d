/**
 What the admin verbs share: Mailcow's mailboxes, Moov's account rows, the audit trail and the
 record of every request sent to Mailcow, together with the relation each verb keeps to them.
 */
module AccountsWorld {
  import opened Prelude

  type Secret = nat

  datatype Rate = Rate(value: int, frame: string)

  datatype Mailbox = Mailbox(
    active: bool, smtpAccess: bool, rate: Rate, name: string, quotaMB: int, password: Secret)

  datatype Facts = Facts(
    name: string, quotaMB: int, sendPerDay: Option<int>, recipients: Option<int>, attachmentMB: Option<int>)

  // `smtp` says whether the sealed credential permits submission.
  datatype Row = Row(
    suspended: bool, readOnly: bool, deleting: bool, smtp: bool, appPassword: Option<nat>, facts: Facts)

  datatype Action = Create | Update | Suspend | Resume | ReadOnly | Delete

  datatype Note = Plain | Recreated | Idempotent | WhileDeleting

  // A request by one service account, which may name addresses of one domain only.
  datatype Call = Call(actor: string, domain: string, action: Action, address: string)

  datatype Line = Line(actor: string, action: Action, address: string, ok: bool, note: Note)

  datatype Op = CreateMailbox | GetMailbox | EditMailbox | SetRateLimit | DeleteMailbox
    | Provision | Reissue | DeleteAppPassword(id: nat)

  datatype Contact = Contact(address: string, op: Op, ok: bool)

  // `log` holds every audit line; `stored` those the database accepted as well.
  datatype World = World(
    mailboxes: map<string, Mailbox>, rows: map<string, Row>,
    log: seq<Line>, stored: seq<Line>, contacts: seq<Contact>)

  datatype Error = NotFound | Deleting | Upstream | Internal

  // ---------------------------------------------------------------------------
  // The domain gate
  // ---------------------------------------------------------------------------

  // The part after the last '@', or nothing.
  function DomainOf(address: string): string {
    if '@' !in address then ""
    else if '@' in address[1..] then DomainOf(address[1..])
    else if address[0] == '@' then address[1..]
    else ""
  }

  predicate InDomain(c: Call) {
    c.domain != "" && DomainOf(c.address) == c.domain
  }

  lemma {:induction false} DomainOfSplit(local: string, domain: string)
    requires '@' !in domain
    ensures DomainOf(local + "@" + domain) == domain
  {
    var s := local + "@" + domain;
    assert s[|local|] == '@';
    if local == "" {
      assert s[1..] == domain;
    } else {
      assert s[1..] == local[1..] + "@" + domain;
      assert s[1..][|local| - 1] == '@';
      DomainOfSplit(local[1..], domain);
    }
  }

  lemma {:induction false} DomainOfFinds(address: string) returns (local: string)
    requires DomainOf(address) != ""
    ensures address == local + "@" + DomainOf(address) && '@' !in DomainOf(address)
  {
    if '@' in address[1..] {
      var rest := DomainOfFinds(address[1..]);
      local := [address[0]] + rest;
    } else {
      local := "";
    }
  }

  /** The gate admits exactly the addresses spelled local@domain for the actor's own domain. */
  lemma GateExact(c: Call)
    ensures InDomain(c) <==> c.domain != "" && '@' !in c.domain && exists local :: c.address == local + "@" + c.domain
  {
    if InDomain(c) {
      var local := DomainOfFinds(c.address);
    }
    if c.domain != "" && '@' !in c.domain && exists local :: c.address == local + "@" + c.domain {
      var local :| c.address == local + "@" + c.domain;
      DomainOfSplit(local, c.domain);
    }
  }

  // ---------------------------------------------------------------------------
  // What the body of a verb may do, between its gate and its audit line
  // ---------------------------------------------------------------------------

  ghost predicate SameElsewhere(w: World, v: World, address: string) {
    && (forall a | a != address ::
          (a in w.mailboxes <==> a in v.mailboxes) && (a in w.mailboxes ==> w.mailboxes[a] == v.mailboxes[a]))
    && (forall a | a != address :: (a in w.rows <==> a in v.rows) && (a in w.rows ==> w.rows[a] == v.rows[a]))
  }

  predicate ContactsFor(w: World, v: World, address: string) {
    && |w.contacts| <= |v.contacts|
    && (forall i | 0 <= i < |w.contacts| :: v.contacts[i] == w.contacts[i])
    && (forall i | |w.contacts| <= i < |v.contacts| :: v.contacts[i].address == address)
  }

  // The retention lock and the deletion mark are never taken back, nor is the row dropped.
  predicate Locked(w: World, v: World, address: string) {
    address in w.rows ==>
      && address in v.rows
      && (w.rows[address].readOnly ==> v.rows[address].readOnly)
      && (w.rows[address].deleting ==> v.rows[address].deleting)
  }

  ghost predicate Worked(w: World, v: World, address: string) {
    && v.log == w.log && v.stored == w.stored
    && SameElsewhere(w, v, address)
    && ContactsFor(w, v, address)
    && Locked(w, v, address)
  }

  // A row appears only over a mailbox that is there and active, and appears unsuspended.
  predicate BornActive(w: World, v: World, address: string) {
    address !in w.rows && address in v.rows ==>
      && !v.rows[address].suspended && !v.rows[address].readOnly && !v.rows[address].deleting
      && (address in v.mailboxes ==> v.mailboxes[address].active)
  }

  // Neither the suspension nor what Mailcow makes of it has changed.
  predicate SwitchKept(w: World, v: World, address: string) {
    && (address in w.rows && address in v.rows ==> v.rows[address].suspended == w.rows[address].suspended)
    && (address in w.mailboxes && address in v.mailboxes ==>
          v.mailboxes[address].active == w.mailboxes[address].active)
    && (address in v.mailboxes && address !in w.mailboxes ==> address !in w.rows)
  }

  predicate Mutates(w: World, v: World) {
    exists i :: |w.contacts| <= i < |v.contacts| && v.contacts[i].op != GetMailbox
  }

  // ---------------------------------------------------------------------------
  // A whole verb
  // ---------------------------------------------------------------------------

  function LineOf(c: Call, ok: bool, note: Note): Line {
    Line(c.actor, c.action, c.address, ok, note)
  }

  predicate LogGrew(w: World, v: World) {
    v.log == w.log || (|v.log| == |w.log| + 1 && v.log[..|w.log|] == w.log)
  }

  function NewLine(w: World, v: World): Option<Line> {
    if |v.log| > |w.log| then Some(v.log[|w.log|]) else None
  }

  // A line of a verb that was carried out or tried, as opposed to turned away.
  predicate Effective(l: Line) {
    l.note.Plain? || l.note.Recreated?
  }

  // At most one line; exactly one, effective and with the verb's own outcome, when Mailcow was written to.
  predicate Audited(w: World, v: World, c: Call, err: Option<Error>) {
    && LogGrew(w, v)
    && match NewLine(w, v)
       case None => !Mutates(w, v)
       case Some(l) =>
         && l == LineOf(c, l.ok, l.note)
         && (Mutates(w, v) ==> Effective(l))
         && (l.ok != err.None? ==> c.action.ReadOnly? && l.note.Idempotent? && l.ok)
  }

  predicate Toggles(action: Action) {
    action.Suspend? || action.Resume?
  }

  // What the verb did to the suspension switch.
  predicate Switched(w: World, v: World, c: Call) {
    if Toggles(c.action) then
      && v.rows.Keys == w.rows.Keys && v.mailboxes.Keys == w.mailboxes.Keys
      && match NewLine(w, v)
         case Some(l) =>
           if !Effective(l) then SwitchKept(w, v, c.address)
           else l.ok ==>
             && c.address in v.rows && v.rows[c.address].suspended == c.action.Suspend?
             && (c.address in v.mailboxes ==> v.mailboxes[c.address].active == !c.action.Suspend?)
         case None => SwitchKept(w, v, c.address)
    else
      && SwitchKept(w, v, c.address)
      && (c.address in v.rows && c.address !in w.rows ==>
            c.action.Create? && NewLine(w, v).Some? && Effective(NewLine(w, v).value))
      && (c.action.Create? && c.address in w.rows ==> NewLine(w, v).Some? ==> !Effective(NewLine(w, v).value))
  }

  // Entering retention takes a credential without SMTP, and nothing gives one back.
  predicate CredentialKept(w: World, v: World, address: string) {
    address in w.rows && address in v.rows ==>
      && (!w.rows[address].smtp ==> !v.rows[address].smtp)
      && (v.rows[address].readOnly && !w.rows[address].readOnly ==> !v.rows[address].smtp)
  }

  ghost predicate Verb(w: World, v: World, c: Call, err: Option<Error>) {
    && SameElsewhere(w, v, c.address)
    && ContactsFor(w, v, c.address)
    && (|v.contacts| > |w.contacts| ==> InDomain(c))
    && Locked(w, v, c.address)
    && Audited(w, v, c, err)
    && Switched(w, v, c)
    && BornActive(w, v, c.address)
    && CredentialKept(w, v, c.address)
  }

  // The background pass: only rows marked deleting go.
  predicate Swept(w: World, v: World) {
    && v == w.(rows := v.rows)
    && (forall a | a in v.rows :: a in w.rows && v.rows[a] == w.rows[a])
    && (forall a | a in w.rows && a !in v.rows :: w.rows[a].deleting)
  }

  // ---------------------------------------------------------------------------
  // Histories of verbs and purges
  // ---------------------------------------------------------------------------

  datatype Event = Served(call: Call, err: Option<Error>) | Sweep

  datatype History = History(worlds: seq<World>, events: seq<Event>)

  ghost predicate StepAt(h: History, i: nat)
    requires i < |h.events| && |h.worlds| == |h.events| + 1
  {
    match h.events[i]
    case Served(c, err) => Verb(h.worlds[i], h.worlds[i + 1], c, err)
    case Sweep => Swept(h.worlds[i], h.worlds[i + 1])
  }

  ghost predicate IsHistory(h: History) {
    |h.worlds| == |h.events| + 1 && forall i | 0 <= i < |h.events| :: StepAt(h, i)
  }

  // The i-th request to Mailcow was sent during step k.
  predicate CausedBy(h: History, k: nat, i: nat)
    requires k < |h.events| && |h.worlds| == |h.events| + 1
  {
    |h.worlds[k].contacts| <= i < |h.worlds[k + 1].contacts|
  }

  /** Every request Mailcow receives is for an address of the domain of the actor who caused it. */
  lemma {:induction false} NoForeignContact(h: History, n: nat, i: nat)
    requires IsHistory(h) && n < |h.worlds| && |h.worlds[0].contacts| <= i < |h.worlds[n].contacts|
    ensures exists k :: 0 <= k < n && CausedBy(h, k, i) && h.events[k].Served? && InDomain(h.events[k].call)
                        && h.events[k].call.address == h.worlds[n].contacts[i].address
  {
    assert n > 0 && StepAt(h, n - 1);
    if i < |h.worlds[n - 1].contacts| {
      NoForeignContact(h, n - 1, i);
    } else {
      assert CausedBy(h, n - 1, i);
      assert h.events[n - 1].Served?;
    }
  }

  // The account is in the table throughout, so no purge has taken it.
  predicate Lives(h: History, i: nat, j: nat, a: string)
    requires i <= j < |h.worlds|
  {
    forall k | i <= k <= j :: a in h.worlds[k].rows
  }

  /** Until it is purged, a read-only account stays read-only and a deleting one stays deleting. */
  lemma {:induction false} LocksHold(h: History, i: nat, j: nat, a: string)
    requires IsHistory(h) && i <= j < |h.worlds| && Lives(h, i, j, a)
    ensures h.worlds[i].rows[a].readOnly ==> h.worlds[j].rows[a].readOnly
    ensures h.worlds[i].rows[a].deleting ==> h.worlds[j].rows[a].deleting
    decreases j
  {
    if i < j {
      LocksHold(h, i, j - 1, a);
      assert StepAt(h, j - 1);
    }
  }

  /** Only a purge ends an account, and only one that was marked deleting. */
  lemma OnlyDeletingEnds(h: History, i: nat, a: string)
    requires IsHistory(h) && i < |h.events|
    requires a in h.worlds[i].rows && a !in h.worlds[i + 1].rows
    ensures h.events[i].Sweep? && h.worlds[i].rows[a].deleting
  {
    assert StepAt(h, i);
  }

  // Is the account's latest suspension or resumption one that failed half-way?
  predicate Disputed(log: seq<Line>, a: string) {
    log != [] &&
    var l := log[|log| - 1];
    if l.address == a && Effective(l) && (Toggles(l.action) || l.action.Create?) then Toggles(l.action) && !l.ok
    else Disputed(log[..|log| - 1], a)
  }

  predicate Agrees(w: World, a: string) {
    a in w.rows && a in w.mailboxes && !Disputed(w.log, a) ==>
      w.mailboxes[a].active == !w.rows[a].suspended
  }

  lemma VerbKeepsAgreement(w: World, v: World, c: Call, err: Option<Error>, a: string)
    requires Verb(w, v, c, err) && Agrees(w, a)
    ensures Agrees(v, a)
  {
    assert |v.log| > |w.log| ==> v.log[..|v.log| - 1] == w.log;
  }

  /** Mailcow's switch is the negation of Moov's unless the latest suspend or resume failed. */
  lemma {:induction false} SwitchesAgree(h: History, n: nat, a: string)
    requires IsHistory(h) && n < |h.worlds| && Agrees(h.worlds[0], a)
    ensures Agrees(h.worlds[n], a)
  {
    if n > 0 {
      SwitchesAgree(h, n - 1, a);
      assert StepAt(h, n - 1);
      match h.events[n - 1]
      case Served(c, err) => VerbKeepsAgreement(h.worlds[n - 1], h.worlds[n], c, err, a);
      case Sweep =>
    }
  }

  predicate CannotSend(w: World, a: string) {
    a in w.rows && w.rows[a].readOnly ==> !w.rows[a].smtp
  }

  /** A read-only account never holds a credential that permits submission. */
  lemma {:induction false} ReadOnlyCannotSend(h: History, n: nat, a: string)
    requires IsHistory(h) && n < |h.worlds| && CannotSend(h.worlds[0], a)
    ensures CannotSend(h.worlds[n], a)
  {
    if n > 0 {
      ReadOnlyCannotSend(h, n - 1, a);
      assert StepAt(h, n - 1);
    }
  }

  // How many of the first n calls wrote to Mailcow, and how many calls there were.
  function Writes(h: History, n: nat): nat
    requires |h.worlds| == |h.events| + 1 && n <= |h.events|
  {
    if n == 0 then 0 else Writes(h, n - 1) + if Mutates(h.worlds[n - 1], h.worlds[n]) then 1 else 0
  }

  function Calls(h: History, n: nat): nat
    requires n <= |h.events|
  {
    if n == 0 then 0 else Calls(h, n - 1) + if h.events[n - 1].Served? then 1 else 0
  }

  /**
   A call that wrote to Mailcow left exactly one line, and at that place of every later log stands
   that call's own line with that call's own outcome.
   */
  lemma {:induction false} TrailIsComplete(h: History, k: nat, n: nat)
    requires IsHistory(h) && k < n < |h.worlds| && Mutates(h.worlds[k], h.worlds[k + 1])
    ensures h.events[k].Served?
    ensures |h.worlds[k + 1].log| == |h.worlds[k].log| + 1 <= |h.worlds[n].log|
    ensures var l := h.worlds[n].log[|h.worlds[k].log|];
            l == LineOf(h.events[k].call, h.events[k].err.None?, l.note) && Effective(l)
  {
    assert StepAt(h, n - 1);
    if k + 1 < n {
      TrailIsComplete(h, k, n - 1);
    }
  }

  /** The trail grows by one line for each call that wrote to Mailcow, and by at most one per call. */
  lemma {:induction false} TrailCounts(h: History, n: nat)
    requires IsHistory(h) && n < |h.worlds|
    ensures |h.worlds[0].log| + Writes(h, n) <= |h.worlds[n].log| <= |h.worlds[0].log| + Calls(h, n)
  {
    if n > 0 {
      TrailCounts(h, n - 1);
      assert StepAt(h, n - 1);
    }
  }

  /** An account whose mailbox is gone never gets it back: every later create finds the row and stops. */
  lemma {:induction false} LostMailboxStaysLost(h: History, i: nat, j: nat, a: string)
    requires IsHistory(h) && i <= j < |h.worlds| && Lives(h, i, j, a)
    requires a !in h.worlds[i].mailboxes
    ensures a !in h.worlds[j].mailboxes
    decreases j
  {
    if i < j {
      LostMailboxStaysLost(h, i, j - 1, a);
      assert StepAt(h, j - 1);
    }
  }
}
