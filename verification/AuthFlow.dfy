/**
 Authentication from the cache's check to its put, with invalidation in between.

 A request asks the cache, on a miss has the pair validated upstream, and on success puts it. Dropping
 a user's entries is documented to make the very next request validate again. It does so exactly when
 no validation of the pair is on its way at that moment: one that is puts its entry afterwards.
 */
module AuthFlow {
  import opened Prelude
  import opened AuthCache
  import opened AuthHistory

  type Request = nat

  datatype Credential = Credential(user: string, pass: string)

  // Between check and put a request is first InFlight, then Confirmed by the upstream.
  datatype Phase = Idle | InFlight | Confirmed | Hit | Finished

  // `events` is everything that has happened to the cache.
  datatype State = State(creds: seq<Credential>, phases: seq<Phase>, events: seq<Event>)

  datatype Step =
    | Look(r: Request, at: Time)
    | Confirm(r: Request)
    | Reject(r: Request)
    | Keep(r: Request, at: Time)
    | Drop(user: string, at: Time)

  predicate Enabled(s: State, step: Step) {
    && |s.phases| == |s.creds|
    && match step
       case Look(r, at) => r < |s.phases| && s.phases[r].Idle? && Until(s.events, at)
       case Confirm(r) => r < |s.phases| && s.phases[r].InFlight?
       case Reject(r) => r < |s.phases| && s.phases[r].InFlight?
       case Keep(r, at) => r < |s.phases| && s.phases[r].Confirmed? && Until(s.events, at)
       case Drop(_, at) => Until(s.events, at)
  }

  function Do(cfg: Config, s: State, step: Step): State
    requires Enabled(s, step)
  {
    match step
    case Look(r, at) =>
      var c := s.creds[r];
      s.(phases := s.phases[r := if Answers(cfg, s.events, c.user, c.pass, at) then Hit else InFlight],
         events := s.events + [Check(c.user, c.pass, at)])
    case Confirm(r) => s.(phases := s.phases[r := Confirmed])
    case Reject(r) => s.(phases := s.phases[r := Finished])
    case Keep(r, at) =>
      s.(phases := s.phases[r := Finished], events := s.events + [Put(s.creds[r].user, s.creds[r].pass, at)])
    case Drop(user, at) => s.(events := s.events + [InvalidateUser(user, at)])
  }

  // What follows a state: the state before each step, and after the last.
  datatype Course = Course(states: seq<State>, steps: seq<Step>)

  predicate StepAt(cfg: Config, c: Course, i: nat)
    requires i < |c.steps| && |c.states| == |c.steps| + 1
  {
    Enabled(c.states[i], c.steps[i]) && c.states[i + 1] == Do(cfg, c.states[i], c.steps[i])
  }

  predicate Follows(cfg: Config, s: State, c: Course) {
    && |c.states| == |c.steps| + 1 && c.states[0] == s
    && forall i | 0 <= i < |c.steps| :: StepAt(cfg, c, i)
  }

  // Request r of the pair is answered from the cache in step n.
  predicate HitAt(c: Course, n: nat, r: Request, cred: Credential)
    requires |c.states| == |c.steps| + 1
  {
    && n < |c.steps| && c.steps[n].Look? && c.steps[n].r == r
    && r < |c.states[n + 1].creds| && r < |c.states[n + 1].phases|
    && c.states[n + 1].creds[r] == cred && c.states[n + 1].phases[r].Hit?
  }

  // In step k a request of the pair finds nothing and goes upstream.
  predicate GoesUpstream(c: Course, k: nat, cred: Credential)
    requires |c.states| == |c.steps| + 1
  {
    && k < |c.steps| && c.steps[k].Look?
    && c.steps[k].r < |c.states[k + 1].creds| && c.steps[k].r < |c.states[k + 1].phases|
    && c.states[k + 1].creds[c.steps[k].r] == cred && c.states[k + 1].phases[c.steps[k].r].InFlight?
  }

  // Whatever follows, nobody is answered from the cache for the pair before somebody has gone
  // upstream with it.
  ghost predicate Revalidates(cfg: Config, s: State, cred: Credential) {
    forall c: Course, n: nat, r: Request :: Follows(cfg, s, c) && HitAt(c, n, r, cred) ==>
      exists k :: 0 <= k < n && GoesUpstream(c, k, cred)
  }

  predicate OnItsWay(s: State, r: Request, cred: Credential) {
    && r < |s.creds| && r < |s.phases| && s.creds[r] == cred
    && (s.phases[r].InFlight? || s.phases[r].Confirmed?)
  }

  predicate NoneOnItsWay(s: State, cred: Credential) {
    forall r | 0 <= r < |s.creds| :: !OnItsWay(s, r, cred)
  }

  // ---------------------------------------------------------------------------
  // Without a validation on its way
  // ---------------------------------------------------------------------------

  // As long as nobody of the pair has gone upstream, none is on its way and nothing stands.
  predicate Cold(s: State, cred: Credential) {
    |s.phases| == |s.creds| && NoneOnItsWay(s, cred) && Since(s.events, cred.user, cred.pass).None?
  }

  lemma ColdStep(cfg: Config, c: Course, i: nat, cred: Credential)
    requires CollisionFree(cfg.mac) && |c.states| == |c.steps| + 1 && i < |c.steps| && StepAt(cfg, c, i)
    requires Cold(c.states[i], cred)
    ensures Cold(c.states[i + 1], cred) || GoesUpstream(c, i, cred)
    ensures forall r :: !HitAt(c, i, r, cred)
  {
    var s, t, step := c.states[i], c.states[i + 1], c.steps[i];
    assert t.events == s.events || (|t.events| == |s.events| + 1 && t.events[..|s.events|] == s.events);
    if step.Look? && s.creds[step.r] == cred {
      if Answers(cfg, s.events, cred.user, cred.pass, step.at) {
        CheckSound(cfg, s.events, cred.user, cred.pass, step.at);
      }
      assert t.phases[step.r].InFlight?;
    } else {
      forall r | 0 <= r < |t.creds|
        ensures !OnItsWay(t, r, cred)
      {
        assert !OnItsWay(s, r, cred);
      }
      assert step.Keep? ==> !OnItsWay(s, step.r, cred);
    }
  }

  lemma {:induction false} ColdUntilUpstream(cfg: Config, s: State, c: Course, n: nat, cred: Credential)
    requires CollisionFree(cfg.mac) && Follows(cfg, s, c) && Cold(s, cred) && n < |c.states|
    requires forall k | 0 <= k < n :: !GoesUpstream(c, k, cred)
    ensures Cold(c.states[n], cred)
  {
    if n > 0 {
      ColdUntilUpstream(cfg, s, c, n - 1, cred);
      assert StepAt(cfg, c, n - 1);
      ColdStep(cfg, c, n - 1, cred);
    }
  }

  // ---------------------------------------------------------------------------
  // With one
  // ---------------------------------------------------------------------------

  function Last(events: seq<Event>): Time {
    if events == [] then 0
    else
      var before := Last(events[..|events| - 1]);
      if |events| > 1 && before > events[|events| - 1].at then before else events[|events| - 1].at
  }

  lemma {:induction false} LastIsLast(events: seq<Event>)
    ensures Until(events, Last(events))
  {
    if events != [] {
      LastIsLast(events[..|events| - 1]);
    }
  }

  // A pair just put is answered from the cache.
  lemma PutIsHit(cfg: Config, events: seq<Event>, cred: Credential, at: Time)
    requires cfg.ttl >= 0
    ensures Answers(cfg, events + [Put(cred.user, cred.pass, at)], cred.user, cred.pass, at)
  {
    var more := events + [Put(cred.user, cred.pass, at)];
    assert more[..|events|] == events;
    var before := Bucket(After(cfg, events), cred.user);
    var entry := Entry(cfg.mac(cred.user, cred.pass), at + cfg.ttl);
    var bucket := PutBucket(before, entry.mac, entry.expires);
    assert Bucket(After(cfg, more), cred.user) == bucket;
    assert entry in bucket by {
      if HasMac(before, entry.mac) {
        assert bucket[IndexOfMac(before, entry.mac)] == entry;
      } else if |before| >= MAX_PER_USER {
        assert bucket[Oldest(before)] == entry;
      } else {
        assert bucket[|before|] == entry;
      }
    }
    UnexpiredFacts(bucket, at);
  }

  // A confirmed request puts its pair, and the next one is answered from the cache.
  lemma PutThenHit(cfg: Config, s: State, q: Request, r: Request, cred: Credential) returns (c: Course)
    requires cfg.ttl >= 0 && |s.phases| == |s.creds|
    requires q < |s.creds| && s.creds[q] == cred && s.phases[q].Confirmed?
    requires r < |s.creds| && s.creds[r] == cred && s.phases[r].Idle?
    ensures Follows(cfg, s, c) && |c.steps| == 2 && c.steps[0].Keep? && HitAt(c, 1, r, cred)
  {
    var at := Last(s.events);
    LastIsLast(s.events);
    var t := Do(cfg, s, Keep(q, at));
    PutIsHit(cfg, s.events, cred, at);
    var u := Do(cfg, t, Look(r, at));
    c := Course([s, t, u], [Keep(q, at), Look(r, at)]);
    assert StepAt(cfg, c, 0) && StepAt(cfg, c, 1);
  }

  lemma Prepend(cfg: Config, s: State, step: Step, c: Course)
    requires Enabled(s, step) && Follows(cfg, Do(cfg, s, step), c)
    ensures Follows(cfg, s, Course([s] + c.states, [step] + c.steps))
  {
    var d := Course([s] + c.states, [step] + c.steps);
    forall i | 0 <= i < |d.steps|
      ensures StepAt(cfg, d, i)
    {
      if i > 0 {
        assert StepAt(cfg, c, i - 1);
      }
    }
  }

  /** A validation that was on its way when the entries were dropped puts its own afterwards, and the
      next request is answered from the cache without anybody going upstream. */
  lemma InFlightPutReturns(cfg: Config, s: State, q: Request, r: Request, cred: Credential) returns (c: Course, n: nat)
    requires cfg.ttl >= 0 && |s.phases| == |s.creds|
    requires OnItsWay(s, q, cred)
    requires r < |s.creds| && s.creds[r] == cred && s.phases[r].Idle?
    ensures Follows(cfg, s, c) && HitAt(c, n, r, cred)
    ensures forall k | 0 <= k < n :: !GoesUpstream(c, k, cred)
  {
    if s.phases[q].Confirmed? {
      c := PutThenHit(cfg, s, q, r, cred);
      n := 1;
    } else {
      var d := PutThenHit(cfg, Do(cfg, s, Confirm(q)), q, r, cred);
      Prepend(cfg, s, Confirm(q), d);
      c, n := Course([s] + d.states, [Confirm(q)] + d.steps), 2;
      assert c.steps[2] == d.steps[1] && c.states[3] == d.states[2];
    }
  }

  /** Right after a user's entries were dropped, the next request of a pair validates again, whatever
      happens, if and only if no validation of that pair is on its way. */
  lemma NextRequestRevalidatesIff(cfg: Config, s: State, cred: Credential, r: Request, at: Time)
    requires CollisionFree(cfg.mac) && cfg.ttl >= 0 && |s.phases| == |s.creds| && Until(s.events, at)
    requires r < |s.creds| && s.creds[r] == cred && s.phases[r].Idle?
    ensures Revalidates(cfg, Do(cfg, s, Drop(cred.user, at)), cred) <==> NoneOnItsWay(s, cred)
  {
    var t := Do(cfg, s, Drop(cred.user, at));
    assert t.events[..|s.events|] == s.events;
    if NoneOnItsWay(s, cred) {
      forall q | 0 <= q < |t.creds|
        ensures !OnItsWay(t, q, cred)
      {
        assert !OnItsWay(s, q, cred);
      }
      forall c: Course, n: nat, q: Request | Follows(cfg, t, c) && HitAt(c, n, q, cred)
        ensures exists k :: 0 <= k < n && GoesUpstream(c, k, cred)
      {
        HitNeedsUpstream(cfg, t, c, n, q, cred);
      }
    } else {
      var q :| 0 <= q < |s.creds| && OnItsWay(s, q, cred);
      assert OnItsWay(t, q, cred);
      var c, n := InFlightPutReturns(cfg, t, q, r, cred);
    }
  }

  lemma HitNeedsUpstream(cfg: Config, t: State, c: Course, n: nat, q: Request, cred: Credential)
    requires CollisionFree(cfg.mac) && Cold(t, cred) && Follows(cfg, t, c) && HitAt(c, n, q, cred)
    ensures exists k :: 0 <= k < n && GoesUpstream(c, k, cred)
  {
    if forall k | 0 <= k < n :: !GoesUpstream(c, k, cred) {
      ColdUntilUpstream(cfg, t, c, n, cred);
      assert StepAt(cfg, c, n);
      ColdStep(cfg, c, n, cred);
    }
  }

  // ---------------------------------------------------------------------------
  // Only a validation the upstream confirmed is remembered
  // ---------------------------------------------------------------------------

  predicate Confirms(c: Course, k: nat, cred: Credential)
    requires |c.states| == |c.steps| + 1
  {
    && k < |c.steps| && c.steps[k].Confirm?
    && c.steps[k].r < |c.states[k].creds| && c.states[k].creds[c.steps[k].r] == cred
  }

  // The cache remembers nothing of the pair, and nobody has a confirmation of it in hand.
  predicate Unconfirmed(s: State, cred: Credential) {
    && |s.phases| == |s.creds|
    && (forall r | 0 <= r < |s.creds| && s.creds[r] == cred :: !s.phases[r].Confirmed?)
    && Since(s.events, cred.user, cred.pass).None?
  }

  lemma UnconfirmedStep(cfg: Config, c: Course, i: nat, cred: Credential)
    requires CollisionFree(cfg.mac) && |c.states| == |c.steps| + 1 && i < |c.steps| && StepAt(cfg, c, i)
    requires Unconfirmed(c.states[i], cred)
    ensures Unconfirmed(c.states[i + 1], cred) || Confirms(c, i, cred)
    ensures forall r :: !HitAt(c, i, r, cred)
  {
    var s, t, step := c.states[i], c.states[i + 1], c.steps[i];
    assert t.events == s.events || (|t.events| == |s.events| + 1 && t.events[..|s.events|] == s.events);
    if step.Look? && s.creds[step.r] == cred && Answers(cfg, s.events, cred.user, cred.pass, step.at) {
      CheckSound(cfg, s.events, cred.user, cred.pass, step.at);
    }
  }

  lemma {:induction false} UnconfirmedUntil(cfg: Config, s: State, c: Course, n: nat, cred: Credential)
    requires CollisionFree(cfg.mac) && Follows(cfg, s, c) && Unconfirmed(s, cred) && n < |c.states|
    requires forall k | 0 <= k < n :: !Confirms(c, k, cred)
    ensures Unconfirmed(c.states[n], cred)
  {
    if n > 0 {
      UnconfirmedUntil(cfg, s, c, n - 1, cred);
      assert StepAt(cfg, c, n - 1);
      UnconfirmedStep(cfg, c, n - 1, cred);
    }
  }

  /** A pair is answered from the cache only after the upstream has confirmed it: no number of
      validations it rejected, and no interleaving of them, lets the pair in. */
  lemma HitNeedsConfirmation(cfg: Config, s: State, c: Course, n: nat, r: Request, cred: Credential)
    requires CollisionFree(cfg.mac) && Unconfirmed(s, cred) && Follows(cfg, s, c) && HitAt(c, n, r, cred)
    ensures exists k :: 0 <= k < n && Confirms(c, k, cred)
  {
    if forall k | 0 <= k < n :: !Confirms(c, k, cred) {
      UnconfirmedUntil(cfg, s, c, n, cred);
      assert StepAt(cfg, c, n);
      UnconfirmedStep(cfg, c, n, cred);
    }
  }
}
