/**
 Concurrent validations of one credential share one login.

 Each request is a thread that takes one step at a time: it finds a call in the in-flight map and
 waits on it, or puts its own there and leads; a leader's upstream validation returns, the leader
 takes its call off the map, closes its channel and returns; a waiter receives once the channel is
 closed or gives up when its own context has ended. A request's context may end at any time, and the
 leader's is the one the upstream validation runs under. Every interleaving of those steps is a run.
 */
module AuthCoalesce {
  import AuthCache

  type Request = nat
  type Key = nat

  // Aborted is what an upstream validation returns whose context, the leader's, has ended.
  datatype Verdict = Valid | Invalid | Failed | Aborted

  datatype Answer = Shared(leader: Request, verdict: Verdict) | Cancelled

  // A call is named by the request that leads it; its channel is closed once the leader is Done.
  datatype Phase =
    | Idle
    | Waiting(leader: Request)
    | Validating
    | Returned(verdict: Verdict)
    | Unlisted(verdict: Verdict)
    | Done(answer: Answer)

  // `keys[r]` is the MAC of request r's lowercased user and its password; `gone[r]` says that the
  // context of r has ended.
  datatype State = State(keys: seq<Key>, phases: seq<Phase>, gone: seq<bool>, inflight: map<Key, Request>)

  datatype Step =
    | Enter(r: Request)
    | Upstream(r: Request, verdict: Verdict)
    | Unlist(r: Request)
    | Close(r: Request)
    | Receive(r: Request)
    | Cancel(r: Request)
    | Leave(r: Request)

  predicate WellFormed(s: State) {
    |s.phases| == |s.keys| == |s.gone| && forall k | k in s.inflight :: s.inflight[k] < |s.keys|
  }

  predicate Enabled(s: State, step: Step)
    requires WellFormed(s)
  {
    && step.r < |s.keys|
    && var phase := s.phases[step.r];
       match step
       case Enter(_) => phase.Idle?
       case Upstream(r, v) => phase.Validating? && (v == Aborted ==> s.gone[r])
       case Unlist(_) => phase.Returned?
       case Close(_) => phase.Unlisted?
       case Receive(_) => phase.Waiting? && phase.leader < |s.phases| && s.phases[phase.leader].Done?
       case Cancel(r) => phase.Waiting? && s.gone[r]
       case Leave(r) => !s.gone[r]
  }

  function Do(s: State, step: Step): State
    requires WellFormed(s) && Enabled(s, step)
  {
    var r := step.r;
    var key := s.keys[r];
    match step
    case Enter(_) =>
      if key in s.inflight then s.(phases := s.phases[r := Waiting(s.inflight[key])])
      else s.(phases := s.phases[r := Validating], inflight := s.inflight[key := r])
    case Upstream(_, v) => s.(phases := s.phases[r := Returned(v)])
    case Unlist(_) => s.(phases := s.phases[r := Unlisted(s.phases[r].verdict)], inflight := s.inflight - {key})
    case Close(_) => s.(phases := s.phases[r := Done(Shared(r, s.phases[r].verdict))])
    case Receive(_) => s.(phases := s.phases[r := Done(s.phases[s.phases[r].leader].answer)])
    case Cancel(_) => s.(phases := s.phases[r := Done(Cancelled)])
    case Leave(_) => s.(gone := s.gone[r := true])
  }

  // ---------------------------------------------------------------------------
  // Runs
  // ---------------------------------------------------------------------------

  predicate Start(s: State) {
    WellFormed(s) && s.inflight == map[] && forall r | 0 <= r < |s.phases| :: s.phases[r].Idle? && !s.gone[r]
  }

  // The state before each step, and after the last.
  datatype Run = Run(states: seq<State>, steps: seq<Step>)

  predicate StepAt(run: Run, i: nat)
    requires i < |run.steps| && |run.states| == |run.steps| + 1
  {
    && WellFormed(run.states[i])
    && Enabled(run.states[i], run.steps[i])
    && run.states[i + 1] == Do(run.states[i], run.steps[i])
  }

  // The steps follow one another, from whatever state.
  predicate IsCourse(run: Run) {
    && |run.states| == |run.steps| + 1
    && forall i | 0 <= i < |run.steps| :: StepAt(run, i)
  }

  predicate IsRun(run: Run) {
    IsCourse(run) && Start(run.states[0])
  }

  predicate Leads(p: Phase) {
    p.Validating? || p.Returned?
  }

  predicate LedBy(s: State, r: Request, leader: Request)
    requires WellFormed(s) && r < |s.keys|
  {
    leader < |s.keys| && s.keys[leader] == s.keys[r]
  }

  // The map lists exactly the requests that lead, each under its own key.
  predicate Listed(s: State)
    requires WellFormed(s)
  {
    && (forall r | 0 <= r < |s.keys| && Leads(s.phases[r]) :: s.keys[r] in s.inflight && s.inflight[s.keys[r]] == r)
    && (forall k | k in s.inflight :: Leads(s.phases[s.inflight[k]]) && s.keys[s.inflight[k]] == k)
  }

  predicate Follows(s: State, r: Request)
    requires WellFormed(s) && r < |s.keys|
  {
    match s.phases[r]
    case Waiting(l) =>
      && LedBy(s, r, l)
      && !s.phases[l].Idle? && !s.phases[l].Waiting?
      && (s.phases[l].Done? ==> s.phases[l].answer.Shared? && s.phases[l].answer.leader == l)
    case Done(Shared(l, v)) => LedBy(s, r, l) && s.phases[l] == Done(Shared(l, v))
    case _ => true
  }

  predicate Inv(s: State) {
    WellFormed(s) && Listed(s) && forall r | 0 <= r < |s.keys| :: Follows(s, r)
  }

  lemma StepListed(s: State, step: Step)
    requires Inv(s) && Enabled(s, step)
    ensures WellFormed(Do(s, step)) && Listed(Do(s, step))
  {
  }

  lemma StepFollows(s: State, step: Step, r: Request)
    requires Inv(s) && Enabled(s, step) && r < |s.keys|
    ensures WellFormed(Do(s, step)) && Follows(Do(s, step), r)
  {
    StepListed(s, step);
    if step.r == r {
      OwnStepFollows(s, step);
    } else {
      OtherStepFollows(s, step, r);
    }
  }

  lemma OwnStepFollows(s: State, step: Step)
    requires Inv(s) && Enabled(s, step) && WellFormed(Do(s, step))
    ensures Follows(Do(s, step), step.r)
  {
    assert Follows(s, step.r);
    if step.Receive? {
      assert Follows(s, s.phases[step.r].leader);
    }
  }

  lemma OtherStepFollows(s: State, step: Step, r: Request)
    requires Inv(s) && Enabled(s, step) && WellFormed(Do(s, step)) && r < |s.keys| && r != step.r
    ensures Follows(Do(s, step), r)
  {
    assert Follows(s, r);
  }

  lemma {:induction false} RunInv(run: Run, n: nat)
    requires IsRun(run) && n < |run.states|
    ensures Inv(run.states[n]) && run.states[n].keys == run.states[0].keys
  {
    if n == 0 {
    } else {
      RunInv(run, n - 1);
      var s, step := run.states[n - 1], run.steps[n - 1];
      assert StepAt(run, n - 1);
      StepListed(s, step);
      forall r | 0 <= r < |s.keys|
        ensures Follows(Do(s, step), r)
      {
        StepFollows(s, step, r);
      }
    }
  }

  /** In every reachable state at most one request per key is validating upstream. */
  lemma OneValidationPerKey(run: Run, n: nat, q: Request, r: Request)
    requires IsRun(run) && n < |run.states|
    requires var s := run.states[n];
             && q < |s.keys| && r < |s.keys| && |s.phases| == |s.keys|
             && s.keys[q] == s.keys[r] && s.phases[q].Validating? && s.phases[r].Validating?
    ensures q == r
  {
    RunInv(run, n);
  }

  // ---------------------------------------------------------------------------
  // Where an answer comes from
  // ---------------------------------------------------------------------------

  // Step i is where request r enters, finding `leader` in the map or taking the lead itself.
  predicate JoinsAt(run: Run, i: nat, r: Request, leader: Request)
    requires |run.states| == |run.steps| + 1
  {
    && i < |run.steps| && run.steps[i] == Enter(r)
    && WellFormed(run.states[i + 1]) && r < |run.states[i + 1].keys|
    && var s := run.states[i + 1];
       s.keys[r] in s.inflight && s.inflight[s.keys[r]] == leader
  }

  predicate ReturnsAt(run: Run, j: nat, leader: Request, v: Verdict) {
    j < |run.steps| && run.steps[j] == Upstream(leader, v)
  }

  ghost predicate Joined(run: Run, n: nat, r: Request, leader: Request)
    requires |run.states| == |run.steps| + 1
  {
    exists i :: 0 <= i < n && JoinsAt(run, i, r, leader)
  }

  ghost predicate Validated(run: Run, n: nat, leader: Request, v: Verdict) {
    exists j :: 0 <= j < n && ReturnsAt(run, j, leader, v)
  }

  // What the first n steps of the run must hold for request r to be in `phase`.
  ghost predicate Explained(run: Run, n: nat, r: Request, phase: Phase)
    requires |run.states| == |run.steps| + 1 && n <= |run.steps|
  {
    match phase
    case Idle => true
    case Waiting(l) => Joined(run, n, r, l)
    case Validating => Joined(run, n, r, r)
    case Returned(v) => Joined(run, n, r, r) && Validated(run, n, r, v)
    case Unlisted(v) => Joined(run, n, r, r) && Validated(run, n, r, v)
    case Done(Shared(l, v)) => Joined(run, n, r, l) && Validated(run, n, l, v)
    case Done(Cancelled) => exists i :: 0 <= i < n && run.steps[i] == Cancel(r)
  }

  lemma ExplainedStays(run: Run, n: nat, r: Request, phase: Phase)
    requires |run.states| == |run.steps| + 1 && n < |run.steps|
    requires Explained(run, n, r, phase)
    ensures Explained(run, n + 1, r, phase)
  {
  }

  lemma {:induction false} AllExplained(run: Run, n: nat, r: Request)
    requires IsRun(run) && n < |run.states| && r < |run.states[0].keys|
    ensures Inv(run.states[n]) && r < |run.states[n].keys|
    ensures Explained(run, n, r, run.states[n].phases[r])
  {
    RunInv(run, n);
    if n > 0 {
      AllExplained(run, n - 1, r);
      assert StepAt(run, n - 1);
      var s, step := run.states[n - 1], run.steps[n - 1];
      if step == Receive(r) {
        var l := s.phases[r].leader;
        LeaderIsThere(s, r);
        AllExplained(run, n - 1, l);
        ReceiveExplained(run, n, r, l);
      } else {
        StepExplained(run, n, r);
      }
    }
  }

  lemma StepExplained(run: Run, n: nat, r: Request)
    requires |run.states| == |run.steps| + 1 && 0 < n < |run.states| && StepAt(run, n - 1)
    requires r < |run.states[n - 1].keys| && run.steps[n - 1] != Receive(r) && WellFormed(run.states[n])
    requires Explained(run, n - 1, r, run.states[n - 1].phases[r])
    ensures Explained(run, n, r, run.states[n].phases[r])
  {
    ExplainedStays(run, n - 1, r, run.states[n - 1].phases[r]);
    if run.steps[n - 1].r == r {
      OwnStepExplained(run, n, r);
    } else {
      assert run.states[n].phases[r] == run.states[n - 1].phases[r];
    }
  }

  lemma LeaderIsThere(s: State, r: Request)
    requires Inv(s) && r < |s.keys| && s.phases[r].Waiting?
    ensures s.phases[r].leader < |s.keys|
  {
    assert Follows(s, r);
  }

  lemma ReceiveExplained(run: Run, n: nat, r: Request, l: Request)
    requires |run.states| == |run.steps| + 1 && 0 < n < |run.states| && StepAt(run, n - 1)
    requires var s := run.states[n - 1];
             && Inv(s) && run.steps[n - 1] == Receive(r) && s.phases[r] == Waiting(l) && l < |s.keys|
             && Explained(run, n - 1, r, s.phases[r]) && Explained(run, n - 1, l, s.phases[l])
    requires WellFormed(run.states[n])
    ensures Explained(run, n, r, run.states[n].phases[r])
  {
    var s := run.states[n - 1];
    assert Follows(s, r);
    ExplainedStays(run, n - 1, r, s.phases[r]);
    ExplainedStays(run, n - 1, l, s.phases[l]);
  }

  lemma OwnStepExplained(run: Run, n: nat, r: Request)
    requires |run.states| == |run.steps| + 1 && 0 < n < |run.states| && StepAt(run, n - 1)
    requires run.steps[n - 1].r == r && !run.steps[n - 1].Receive?
    requires Explained(run, n, r, run.states[n - 1].phases[r]) && WellFormed(run.states[n])
    ensures Explained(run, n, r, run.states[n].phases[r])
  {
    var s, step := run.states[n - 1], run.steps[n - 1];
    match step
    case Enter(_) => assert JoinsAt(run, n - 1, r, run.states[n].inflight[s.keys[r]]);
    case Upstream(_, v) => assert ReturnsAt(run, n - 1, r, v);
    case Cancel(_) => assert run.steps[n - 1] == Cancel(r);
    case _ =>
  }

  /**
   A request that answers either gave up itself, or answers with what an upstream validation of its
   own key returned, and that validation was in the map when the request came in.
   */
  lemma AnswersAreShared(run: Run, n: nat, r: Request)
    requires IsRun(run) && n < |run.states| && r < |run.states[0].keys|
    ensures |run.states[n].phases| == |run.states[0].keys|
    ensures match run.states[n].phases[r]
            case Done(Cancelled) => exists i :: 0 <= i < n && run.steps[i] == Cancel(r)
            case Done(Shared(l, v)) =>
              && l < |run.states[0].keys| && run.states[0].keys[l] == run.states[0].keys[r]
              && Joined(run, n, r, l)
              && Validated(run, n, l, v)
            case _ => true
  {
    AllExplained(run, n, r);
    RunInv(run, n);
    assert Follows(run.states[n], r);
  }

  datatype Credential = Credential(user: string, pass: string)

  // The requests' keys are the MACs of their credentials, with the user folded to lower case.
  ghost predicate Keyed(s: State, creds: seq<Credential>, mac: AuthCache.Macs, lower: string -> string) {
    |creds| == |s.keys| && forall r | 0 <= r < |creds| :: s.keys[r] == mac(lower(creds[r].user), creds[r].pass)
  }

  /** Nobody is answered for another's password: a shared login was made with the same pair. */
  lemma NeverAnothersVerdict(run: Run, n: nat, r: Request, creds: seq<Credential>,
                             mac: AuthCache.Macs, lower: string -> string)
    requires IsRun(run) && n < |run.states| && r < |creds|
    requires AuthCache.CollisionFree(mac) && Keyed(run.states[0], creds, mac, lower)
    ensures |run.states[n].phases| == |creds|
    ensures match run.states[n].phases[r]
            case Done(Shared(l, v)) =>
              && l < |creds| && lower(creds[l].user) == lower(creds[r].user) && creds[l].pass == creds[r].pass
              && Validated(run, n, l, v)
            case _ => true
  {
    AnswersAreShared(run, n, r);
  }

  // ---------------------------------------------------------------------------
  // Every thread moves forward, so a call has one verdict and every request is answered
  // ---------------------------------------------------------------------------

  function Left(p: Phase): nat {
    match p
    case Idle => 4
    case Validating => 3
    case Returned(_) => 2
    case Unlisted(_) => 1
    case Waiting(_) => 1
    case Done(_) => 0
  }

  lemma StepSpends(s: State, step: Step)
    requires Inv(s) && Enabled(s, step)
    ensures var t := Do(s, step);
            && |t.phases| == |s.phases|
            && (if step.Leave? then t.phases == s.phases
                else t.gone == s.gone && Left(t.phases[step.r]) < Left(s.phases[step.r]))
            && forall r | 0 <= r < |s.phases| && r != step.r :: t.phases[r] == s.phases[r]
  {
  }

  lemma {:induction false} LeftFalls(run: Run, i: nat, j: nat, r: Request)
    requires IsRun(run) && i <= j < |run.states| && r < |run.states[0].keys|
    ensures |run.states[i].phases| == |run.states[j].phases| == |run.states[0].keys|
    ensures Left(run.states[j].phases[r]) <= Left(run.states[i].phases[r])
    decreases j
  {
    RunInv(run, i);
    RunInv(run, j);
    if i < j {
      LeftFalls(run, i, j - 1, r);
      RunInv(run, j - 1);
      assert StepAt(run, j - 1);
      StepSpends(run.states[j - 1], run.steps[j - 1]);
    }
  }

  /** A call's validation returns once: everyone who shares it has the same verdict. */
  lemma OneVerdictPerCall(run: Run, i: nat, j: nat, leader: Request, v: Verdict, w: Verdict)
    requires IsRun(run) && i <= j && ReturnsAt(run, i, leader, v) && ReturnsAt(run, j, leader, w)
    ensures i == j && v == w
  {
    RunInv(run, i);
    RunInv(run, j);
    assert StepAt(run, i) && StepAt(run, j);
    if i < j {
      LeftFalls(run, i + 1, j, leader);
    }
  }

  function Total(phases: seq<Phase>): nat {
    if phases == [] then 0 else Total(phases[..|phases| - 1]) + Left(phases[|phases| - 1])
  }

  lemma {:induction false} TotalUpdate(phases: seq<Phase>, r: nat, p: Phase)
    requires r < |phases|
    ensures Total(phases[r := p]) == Total(phases) - Left(phases[r]) + Left(p)
    decreases |phases|
  {
    var n := |phases| - 1;
    if r == n {
      assert phases[r := p][..n] == phases[..n];
    } else {
      assert phases[r := p][..n] == phases[..n][r := p];
      TotalUpdate(phases[..n], r, p);
    }
  }

  // How many contexts have not ended.
  function Live(gone: seq<bool>): nat {
    if gone == [] then 0 else Live(gone[..|gone| - 1]) + if gone[|gone| - 1] then 0 else 1
  }

  lemma {:induction false} LiveUpdate(gone: seq<bool>, r: nat)
    requires r < |gone| && !gone[r]
    ensures Live(gone[r := true]) == Live(gone) - 1
    decreases |gone|
  {
    var n := |gone| - 1;
    if r == n {
      assert gone[r := true][..n] == gone[..n];
    } else {
      assert gone[r := true][..n] == gone[..n][r := true];
      LiveUpdate(gone[..n], r);
    }
  }

  lemma {:induction false} LiveBound(gone: seq<bool>)
    ensures Live(gone) <= |gone|
  {
    if gone != [] {
      LiveBound(gone[..|gone| - 1]);
    }
  }

  lemma {:induction false} TotalIdle(phases: seq<Phase>)
    requires forall r | 0 <= r < |phases| :: phases[r].Idle?
    ensures Total(phases) == 4 * |phases|
  {
    if phases == [] {
    } else {
      TotalIdle(phases[..|phases| - 1]);
    }
  }

  /** No run has more than five steps per request, the end of its context included. */
  lemma {:induction false} RunsAreShort(run: Run, n: nat)
    requires IsRun(run) && n < |run.states|
    ensures n + Total(run.states[n].phases) + Live(run.states[n].gone) <= 5 * |run.states[0].keys|
  {
    if n == 0 {
      TotalIdle(run.states[0].phases);
      LiveBound(run.states[0].gone);
    } else {
      RunsAreShort(run, n - 1);
      RunInv(run, n - 1);
      var s, step := run.states[n - 1], run.steps[n - 1];
      assert StepAt(run, n - 1);
      StepSpends(s, step);
      if step.Leave? {
        LiveUpdate(s.gone, step.r);
      } else {
        var p := Do(s, step).phases[step.r];
        assert Do(s, step).phases == s.phases[step.r := p];
        TotalUpdate(s.phases, step.r, p);
      }
    }
  }

  /** While some request is unanswered, some request can move, and without anyone giving up. */
  lemma SomeoneCanMove(run: Run, n: nat, r: Request)
    requires IsRun(run) && n < |run.states| && r < |run.states[0].keys|
    requires r < |run.states[n].phases| ==> !run.states[n].phases[r].Done?
    ensures WellFormed(run.states[n])
    ensures exists step :: Enabled(run.states[n], step) && !step.Cancel? && !step.Leave?
  {
    RunInv(run, n);
    var s := run.states[n];
    assert Follows(s, r);
    var q := match s.phases[r] case Waiting(l) => if s.phases[l].Done? then r else l case _ => r;
    var p := s.phases[q];
    var step := if p.Idle? then Enter(q) else if p.Waiting? then Receive(q)
                else if p.Validating? then Upstream(q, Valid)
                else if p.Returned? then Unlist(q) else Close(q);
    assert Enabled(s, step);
  }

  // ---------------------------------------------------------------------------
  // A leader that goes away
  // ---------------------------------------------------------------------------

  // The verdict a call has, or will hand to whoever waits for it.
  predicate IsAborted(p: Phase) {
    match p
    case Returned(v) => v == Aborted
    case Unlisted(v) => v == Aborted
    case Done(Shared(_, v)) => v == Aborted
    case _ => false
  }

  /** Only the context of a leader that is gone aborts its validation. */
  lemma {:induction false} AbortedIsGone(run: Run, n: nat, r: Request)
    requires IsRun(run) && n < |run.states| && r < |run.states[0].keys|
    ensures Inv(run.states[n]) && r < |run.states[n].keys|
    ensures Led(run.states[n].phases[r], r) && IsAborted(run.states[n].phases[r]) ==> run.states[n].gone[r]
  {
    RunInv(run, n);
    if n > 0 {
      AbortedIsGone(run, n - 1, r);
      assert StepAt(run, n - 1);
      var s := run.states[n - 1];
      assert Follows(s, r);
    }
  }

  // Request r is leading or has led its own call.
  predicate Led(p: Phase, r: Request) {
    match p
    case Validating => true
    case Returned(_) => true
    case Unlisted(_) => true
    case Done(Shared(l, _)) => l == r
    case _ => false
  }

  // The call another request of the key could still lead, or leads, may be aborted.
  predicate MayAbort(p: Phase) {
    p.Idle? || p.Validating? || p == Returned(Aborted)
  }

  predicate Rival(s: State, r: Request, q: Request)
    requires WellFormed(s) && r < |s.keys|
  {
    q < |s.keys| && q != r && s.keys[q] == s.keys[r] && MayAbort(s.phases[q])
  }

  // What exposes an unanswered request to another's leaving: it waits for a call that is still being
  // validated or was aborted, or it has yet to come in and another request of its key has too, or is
  // being validated, or was aborted and is still in the map. A leader is never exposed.
  predicate Exposed(s: State, r: Request)
    requires WellFormed(s) && r < |s.keys|
  {
    match s.phases[r]
    case Idle => exists q | 0 <= q < |s.keys| :: Rival(s, r, q)
    case Waiting(l) => l < |s.keys| && (s.phases[l].Validating? || IsAborted(s.phases[l]))
    case _ => false
  }

  // Something may follow after which r, whose own context is live, is told that it was aborted.
  ghost predicate MayBeAborted(s: State, r: Request) {
    exists c: Run :: AbortsLive(s, r, c)
  }

  predicate AbortsLive(s: State, r: Request, c: Run) {
    && IsCourse(c) && c.states[0] == s
    && var last := c.states[|c.states| - 1];
       && r < |last.phases| && r < |last.gone|
       && last.phases[r].Done? && IsAborted(last.phases[r]) && !last.gone[r]
  }

  // ---------------------------------------------------------------------------
  // A request that is not exposed stays so
  // ---------------------------------------------------------------------------

  predicate Immune(s: State, r: Request)
    requires WellFormed(s) && r < |s.keys|
  {
    s.gone[r] || (!Exposed(s, r) && !IsAborted(s.phases[r]))
  }

  lemma ImmuneStep(s: State, step: Step, r: Request)
    requires Inv(s) && Enabled(s, step) && r < |s.keys| && Immune(s, r)
    ensures WellFormed(Do(s, step)) && Immune(Do(s, step), r)
  {
    StepListed(s, step);
    if !s.gone[r] {
      if step.r == r {
        ImmuneOwnStep(s, step);
      } else {
        ImmuneOtherStep(s, step, r);
      }
    }
  }

  lemma ImmuneOwnStep(s: State, step: Step)
    requires Inv(s) && Enabled(s, step) && WellFormed(Do(s, step)) && !s.gone[step.r] && Immune(s, step.r)
    ensures Immune(Do(s, step), step.r)
  {
    var r := step.r;
    assert Follows(s, r);
    if step.Enter? && s.keys[r] in s.inflight {
      assert !Rival(s, r, s.inflight[s.keys[r]]);
    }
  }

  lemma ImmuneOtherStep(s: State, step: Step, r: Request)
    requires Inv(s) && Enabled(s, step) && WellFormed(Do(s, step))
    requires r < |s.keys| && step.r != r && !s.gone[r] && Immune(s, r)
    ensures Immune(Do(s, step), r)
  {
    var t := Do(s, step);
    assert Follows(s, r);
    forall q | 0 <= q < |t.keys| && s.phases[r].Idle?
      ensures !Rival(t, r, q)
    {
      assert !Rival(s, r, q);
    }
  }

  lemma StepInv(s: State, step: Step)
    requires Inv(s) && Enabled(s, step)
    ensures Inv(Do(s, step)) && Do(s, step).keys == s.keys
  {
    StepListed(s, step);
    forall r | 0 <= r < |s.keys|
      ensures Follows(Do(s, step), r)
    {
      StepFollows(s, step, r);
    }
  }

  lemma {:induction false} ImmuneAlong(c: Run, n: nat, r: Request)
    requires IsCourse(c) && n < |c.states| && Inv(c.states[0])
    requires r < |c.states[0].keys| && Immune(c.states[0], r)
    ensures Inv(c.states[n]) && r < |c.states[n].keys| && Immune(c.states[n], r)
  {
    if n > 0 {
      ImmuneAlong(c, n - 1, r);
      assert StepAt(c, n - 1);
      StepInv(c.states[n - 1], c.steps[n - 1]);
      ImmuneStep(c.states[n - 1], c.steps[n - 1], r);
    }
  }

  // ---------------------------------------------------------------------------
  // A request that is exposed can be aborted
  // ---------------------------------------------------------------------------

  lemma Prepend(s: State, step: Step, r: Request, c: Run)
    requires WellFormed(s) && Enabled(s, step) && AbortsLive(Do(s, step), r, c)
    ensures AbortsLive(s, r, Run([s] + c.states, [step] + c.steps))
  {
    var d := Run([s] + c.states, [step] + c.steps);
    forall i | 0 <= i < |d.steps|
      ensures StepAt(d, i)
    {
      assert i > 0 ==> StepAt(c, i - 1);
    }
  }

  // The leader's next step on the way to an aborted answer, and the waiter's at the end.
  function TowardsAbort(s: State, r: Request, l: Request): Step
    requires WellFormed(s) && l < |s.keys|
  {
    match s.phases[l]
    case Validating => if s.gone[l] then Upstream(l, Aborted) else Leave(l)
    case Returned(_) => Unlist(l)
    case Unlisted(_) => Close(l)
    case _ => Receive(r)
  }

  lemma {:induction false} WaiterCanBeAborted(s: State, r: Request, l: Request) returns (c: Run)
    requires Inv(s) && r < |s.keys| && !s.gone[r] && s.phases[r] == Waiting(l) && Exposed(s, r)
    ensures AbortsLive(s, r, c)
    decreases Left(s.phases[l]), if s.gone[l] then 0 else 1
  {
    assert Follows(s, r);
    var step := TowardsAbort(s, r, l);
    var t := Do(s, step);
    StepInv(s, step);
    if step.Receive? {
      c := Run([s, t], [step]);
      assert StepAt(c, 0);
    } else {
      var d := WaiterCanBeAborted(t, r, l);
      Prepend(s, step, r, d);
      c := Run([s] + d.states, [step] + d.steps);
    }
  }

  // Coming in while a call of the key is being validated, or was aborted and is still listed.
  lemma ComingInCanBeAborted(s: State, r: Request) returns (c: Run)
    requires Inv(s) && r < |s.keys| && !s.gone[r] && s.phases[r].Idle?
    requires s.keys[r] in s.inflight && MayAbort(s.phases[s.inflight[s.keys[r]]])
    ensures AbortsLive(s, r, c)
  {
    var l := s.inflight[s.keys[r]];
    StepInv(s, Enter(r));
    var d := WaiterCanBeAborted(Do(s, Enter(r)), r, l);
    Prepend(s, Enter(r), r, d);
    c := Run([s] + d.states, [Enter(r)] + d.steps);
  }

  // Coming in after a rival that has yet to come in, and that then leads.
  lemma AfterARival(s: State, r: Request, q: Request) returns (c: Run)
    requires Inv(s) && r < |s.keys| && !s.gone[r] && s.phases[r].Idle?
    requires Rival(s, r, q) && s.phases[q].Idle? && s.keys[r] !in s.inflight
    ensures AbortsLive(s, r, c)
  {
    StepInv(s, Enter(q));
    var d := ComingInCanBeAborted(Do(s, Enter(q)), r);
    Prepend(s, Enter(q), r, d);
    c := Run([s] + d.states, [Enter(q)] + d.steps);
  }

  lemma IdleCanBeAborted(s: State, r: Request, q: Request) returns (c: Run)
    requires Inv(s) && r < |s.keys| && !s.gone[r] && s.phases[r].Idle? && Rival(s, r, q)
    ensures AbortsLive(s, r, c)
  {
    if s.keys[r] !in s.inflight {
      c := AfterARival(s, r, q);
    } else {
      var p := s.inflight[s.keys[r]];
      if MayAbort(s.phases[p]) {
        c := ComingInCanBeAborted(s, r);
      } else {
        StepInv(s, Unlist(p));
        var d := AfterARival(Do(s, Unlist(p)), r, q);
        Prepend(s, Unlist(p), r, d);
        c := Run([s] + d.states, [Unlist(p)] + d.steps);
      }
    }
  }

  /** In every reachable state, an unanswered request whose own context is live can still come to be
      told that its validation was aborted if and only if it is exposed. */
  lemma AbortedIff(run: Run, n: nat, r: Request)
    requires IsRun(run) && n < |run.states| && r < |run.states[0].keys|
    requires var s := run.states[n];
             r < |s.phases| && r < |s.gone| && !s.phases[r].Done? && !s.gone[r]
    ensures WellFormed(run.states[n]) && r < |run.states[n].keys|
    ensures MayBeAborted(run.states[n], r) <==> Exposed(run.states[n], r)
  {
    var s := run.states[n];
    AbortedIsGone(run, n, r);
    if Exposed(s, r) {
      var c: Run;
      if s.phases[r].Idle? {
        var q :| 0 <= q < |s.keys| && Rival(s, r, q);
        c := IdleCanBeAborted(s, r, q);
      } else {
        c := WaiterCanBeAborted(s, r, s.phases[r].leader);
      }
    } else {
      forall c: Run
        ensures !AbortsLive(s, r, c)
      {
        ImmuneIsNotAborted(s, r, c);
      }
    }
  }

  lemma ImmuneIsNotAborted(s: State, r: Request, c: Run)
    requires Inv(s) && r < |s.keys| && Immune(s, r)
    ensures !AbortsLive(s, r, c)
  {
    if IsCourse(c) && c.states[0] == s {
      ImmuneAlong(c, |c.states| - 1, r);
    }
  }

  // Requests 0 and 1 come with the same credential.
  function Both(key: Key, first: Phase, second: Phase, gone: bool, inflight: map<Key, Request>): State {
    State([key, key], [first, second], [gone, false], inflight)
  }

  /** The run: the second request waits for the first, the first one's client leaves, and the second,
      whose client is still there, is answered that the validation was aborted. */
  lemma LiveWaiterIsAborted(key: Key) returns (run: Run)
    ensures IsRun(run)
    ensures var s := run.states[|run.states| - 1];
            |s.phases| == |s.gone| == 2 && s.phases[1] == Done(Shared(0, Aborted)) && !s.gone[1]
  {
    var map0, map1 := map[], map[key := 0];
    var answer := Done(Shared(0, Aborted));
    var s0, s1 := Both(key, Idle, Idle, false, map0), Both(key, Validating, Idle, false, map1);
    var s2 := Both(key, Validating, Waiting(0), false, map1);
    var s3 := Both(key, Validating, Waiting(0), true, map1);
    var s4 := Both(key, Returned(Aborted), Waiting(0), true, map1);
    var s5 := Both(key, Unlisted(Aborted), Waiting(0), true, map0);
    var s6 := Both(key, answer, Waiting(0), true, map0);
    var s7 := Both(key, answer, answer, true, map0);
    FirstHalf(key);
    SecondHalf(key);
    run := Run([s0, s1, s2, s3, s4, s5, s6, s7],
               [Enter(0), Enter(1), Leave(0), Upstream(0, Aborted), Unlist(0), Close(0), Receive(1)]);
  }

  predicate Moves(s: State, step: Step, t: State) {
    WellFormed(s) && Enabled(s, step) && t == Do(s, step)
  }

  lemma FirstHalf(key: Key)
    ensures Moves(Both(key, Idle, Idle, false, map[]), Enter(0), Both(key, Validating, Idle, false, map[key := 0]))
    ensures Moves(Both(key, Validating, Idle, false, map[key := 0]), Enter(1),
                  Both(key, Validating, Waiting(0), false, map[key := 0]))
    ensures Moves(Both(key, Validating, Waiting(0), false, map[key := 0]), Leave(0),
                  Both(key, Validating, Waiting(0), true, map[key := 0]))
  {
  }

  lemma SecondHalf(key: Key)
    ensures Moves(Both(key, Validating, Waiting(0), true, map[key := 0]), Upstream(0, Aborted),
                  Both(key, Returned(Aborted), Waiting(0), true, map[key := 0]))
    ensures Moves(Both(key, Returned(Aborted), Waiting(0), true, map[key := 0]), Unlist(0),
                  Both(key, Unlisted(Aborted), Waiting(0), true, map[]))
    ensures var answer := Done(Shared(0, Aborted));
            && Moves(Both(key, Unlisted(Aborted), Waiting(0), true, map[]), Close(0),
                     Both(key, answer, Waiting(0), true, map[]))
            && Moves(Both(key, answer, Waiting(0), true, map[]), Receive(1), Both(key, answer, answer, true, map[]))
  {
    assert map[key := 0] - {key} == map[];
  }
}
