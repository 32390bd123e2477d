/**
 Section 1.8 of RFC 8620: a server behaves as though it does not implement anything the request
 did not opt into.

 Dispatching a request against the full registry is compared with dispatching it against a
 registry that really lacks the un-opted methods, through every later back-reference. The two
 differ only in error descriptions, unless a call reads a description back.
 */
module JmapGating {
  import opened Prelude
  import opened JmapPointer
  import opened JmapBackRef
  import opened JmapDispatch

  // The registry of a server that implements only what the request opted into.
  function Cut<S>(reg: Registry<S>, using: set<string>): Registry<S> {
    map name | name in reg && reg[name].capability in using :: reg[name]
  }

  // ---------------------------------------------------------------------------
  // Equal up to error descriptions
  // ---------------------------------------------------------------------------

  ghost predicate ArgsAgree(a: Args, b: Args) {
    forall k | k != "description" :: (k in a <==> k in b) && (k in a ==> a[k] == b[k])
  }

  predicate PlainDescription(a: Args) {
    "description" in a ==> a["description"].Str?
  }

  ghost predicate Same(a: Invocation, b: Invocation) {
    && a.name == b.name && a.callId == b.callId
    && (a.args == b.args
        || (a.name == "error" && ArgsAgree(a.args, b.args) && PlainDescription(a.args) && PlainDescription(b.args)))
  }

  ghost predicate SameAll(xs: seq<Invocation>, ys: seq<Invocation>) {
    |xs| == |ys| && forall i | 0 <= i < |xs| :: Same(xs[i], ys[i])
  }

  // Errors that differ at most in their description.
  predicate SameError(a: MethodError, b: MethodError) {
    a.code == b.code && a.properties == b.properties
  }

  lemma SameErrorInvocation(a: MethodError, b: MethodError, callId: string)
    requires SameError(a, b)
    ensures Same(ErrorInvocation(a, callId), ErrorInvocation(b, callId))
  {
    if "description" in a.properties {
      assert ErrorArgs(a) == ErrorArgs(b);
    }
  }

  // ---------------------------------------------------------------------------
  // Calls that do not read error descriptions back
  // ---------------------------------------------------------------------------

  // The reference names an error response and its path selects the whole error or its description.
  predicate ReadsDescription(ref: ResultReference) {
    && ref.name == "error"
    && (ref.path == "" || (ref.path[0] == '/' && Tokens(ref.path) == ["description"]))
  }

  predicate Unprobing(call: Call) {
    forall r | r in call.args && IsRef(r) ::
      var ref := ParseReference(call.args[r]);
      ref.Some? ==> !ReadsDescription(ref.value)
  }

  lemma {:induction false} FindAgrees(xs: seq<Invocation>, ys: seq<Invocation>, callId: string)
    requires SameAll(xs, ys)
    ensures FindResponse(xs, callId).Some? <==> FindResponse(ys, callId).Some?
    ensures FindResponse(xs, callId).Some? ==> Same(FindResponse(xs, callId).value, FindResponse(ys, callId).value)
    decreases |xs|
  {
    if xs != [] {
      assert Same(xs[0], ys[0]);
      assert forall i | 0 <= i < |xs[1..]| :: xs[1..][i] == xs[i + 1] && ys[1..][i] == ys[i + 1];
      FindAgrees(xs[1..], ys[1..], callId);
    }
  }

  lemma EvalAgrees(a: Args, b: Args, path: string)
    requires ArgsAgree(a, b) && PlainDescription(a) && PlainDescription(b)
    requires path != "" && (path[0] == '/' ==> Tokens(path) != ["description"])
    ensures EvalPointer(Obj(a), path) == EvalPointer(Obj(b), path)
  {
    if path[0] == '/' {
      var tokens := Tokens(path);
      if tokens[0] == "description" {
        assert tokens == ["description"] + tokens[1..];
        assert tokens[1..] != [];
        assert EvalTokens(Obj(a), tokens) == None;
        assert EvalTokens(Obj(b), tokens) == None;
      }
    }
  }

  predicate SameResult<T(==)>(a: Result<T, MethodError>, b: Result<T, MethodError>) {
    if a.Ok? then a == b else b.Err? && SameError(a.error, b.error)
  }

  lemma ResolvedAgrees(v: Json, xs: seq<Invocation>, ys: seq<Invocation>)
    requires SameAll(xs, ys)
    requires ParseReference(v).Some? ==> !ReadsDescription(ParseReference(v).value)
    ensures SameResult(Resolved(v, xs), Resolved(v, ys))
  {
    if ParseReference(v).Some? {
      var ref := ParseReference(v).value;
      FindAgrees(xs, ys, ref.resultOf);
      var x, y := FindResponse(xs, ref.resultOf), FindResponse(ys, ref.resultOf);
      if x.Some? && x.value.name == ref.name && x.value.args != y.value.args {
        EvalAgrees(x.value.args, y.value.args, ref.path);
      }
    }
  }

  /** Substituting against two histories that agree up to descriptions gives the same arguments,
      or the same error. */
  lemma {:induction false} SubstituteAgrees(fields: Args, done: seq<string>, order: seq<string>,
                                            xs: seq<Invocation>, ys: seq<Invocation>, m: Args)
    requires Pending(fields, done, order)
    requires IsAfter(fields, done, xs, m) && Closed(fields, done)
    requires forall r | r in fields && IsRef(r) :: SameResult(Resolved(fields[r], xs), Resolved(fields[r], ys))
    ensures SameResult(SubstituteAll(m, order, xs), SubstituteAll(m, order, ys))
    decreases |order|
  {
    if order != [] {
      StepSucceeds(fields, done, xs, m, order[0]);
      assert SameResult(Resolved(fields[order[0]], xs), Resolved(fields[order[0]], ys));
      if Substitute(m, order[0], xs).Ok? {
        StepAfter(fields, done, xs, m, order[0]);
        PendingTail(fields, done, order);
        SubstituteAgrees(fields, done + [order[0]], order[1..], xs, ys, Substitute(m, order[0], xs).value);
      }
    }
  }

  lemma CallArgsAgree(call: Call, xs: seq<Invocation>, ys: seq<Invocation>)
    requires ValidCall(call) && Unprobing(call) && SameAll(xs, ys)
    ensures SameResult(SubstituteAll(call.args, call.order, xs), SubstituteAll(call.args, call.order, ys))
  {
    forall r | r in call.args && IsRef(r)
      ensures SameResult(Resolved(call.args[r], xs), Resolved(call.args[r], ys))
    {
      ResolvedAgrees(call.args[r], xs, ys);
    }
    assert forall i | 0 <= i < |call.order| :: call.order[i] in call.order;
    SubstituteAgrees(call.args, [], call.order, xs, ys, call.args);
  }

  lemma DispatchAgrees<S>(reg: Registry<S>, using: set<string>, w: World<S>, call: Call,
                          xs: seq<Invocation>, ys: seq<Invocation>)
    requires ValidCall(call) && Unprobing(call) && SameAll(xs, ys)
    ensures DispatchOne(reg, using, w, call, xs).0 == DispatchOne(Cut(reg, using), using, w, call, ys).0
    ensures SameAll(DispatchOne(reg, using, w, call, xs).1, DispatchOne(Cut(reg, using), using, w, call, ys).1)
  {
    if call.name in reg && reg[call.name].capability in using {
      CallArgsAgree(call, xs, ys);
      var a, b := SubstituteAll(call.args, call.order, xs), SubstituteAll(call.args, call.order, ys);
      if a.Err? {
        SameErrorInvocation(a.error, b.error, call.callId);
      }
    } else if call.name in reg {
      SameErrorInvocation(Problem(UNKNOWN_METHOD, "requires capability " + reg[call.name].capability),
                          Problem(UNKNOWN_METHOD, ""), call.callId);
    }
  }

  lemma SameConcat(a: seq<Invocation>, b: seq<Invocation>, c: seq<Invocation>, d: seq<Invocation>)
    requires SameAll(a, c) && SameAll(b, d)
    ensures SameAll(a + b, c + d)
  {
  }

  ghost predicate Innocent(calls: seq<Call>) {
    forall i | 0 <= i < |calls| :: ValidCall(calls[i]) && Unprobing(calls[i])
  }

  /** As though un-opted methods did not exist: for every request in which no reference reads an
      error's description back, the responses are those of a server without the un-opted methods,
      up to error descriptions, and the server state and creation ids are exactly the same. */
  lemma {:induction false} UnoptedDoNotExist<S>(reg: Registry<S>, using: set<string>, w: World<S>, calls: seq<Call>)
    requires RefsListed(calls) && Innocent(calls)
    ensures Run(reg, using, w, calls).0 == Run(Cut(reg, using), using, w, calls).0
    ensures SameAll(Run(reg, using, w, calls).1, Run(Cut(reg, using), using, w, calls).1)
    decreases |calls|
  {
    if calls != [] {
      var front, last := calls[..|calls| - 1], calls[|calls| - 1];
      UnoptedDoNotExist(reg, using, w, front);
      var (w1, xs) := Run(reg, using, w, front);
      var (w2, ys) := Run(Cut(reg, using), using, w, front);
      DispatchAgrees(reg, using, w1, last, xs, ys);
      SameConcat(xs, DispatchOne(reg, using, w1, last, xs).1, ys, DispatchOne(Cut(reg, using), using, w1, last, ys).1);
    }
  }

  // ---------------------------------------------------------------------------
  // Reading a description back does tell the two servers apart
  // ---------------------------------------------------------------------------

  // Core/echo.
  function EchoReply(state: int, created: Created, args: Args): Reply<int, Value> {
    Returned(state, [], Encodes(Obj(args)))
  }

  // The second call's only reference reads the description of the first call's error.
  ghost predicate ProbePair(first: Call, second: Call, r: string) {
    && first.name != second.name && second.name != "error"
    && ValidCall(first)
    && r in second.args && IsRef(r) && second.order == [r] && ValidCall(second)
    && Plain(r) !in second.args
    && ParseReference(second.args[r]).Some?
    && var ref := ParseReference(second.args[r]).value;
       ref.resultOf == first.callId && ReadsDescription(ref)
  }

  function ProbeRegistry(first: string, second: string): Registry<int> {
    map[first := Single("unopted", EchoReply), second := Single("opted", EchoReply)]
  }

  lemma OneCall<S>(reg: Registry<S>, using: set<string>, w: World<S>, a: Call)
    requires AllRefs(a.order)
    ensures Run(reg, using, w, [a]) == DispatchOne(reg, using, w, a, [])
  {
    var out := DispatchOne(reg, using, w, a, []);
    assert [a][..0] == [];
    assert [] + out.1 == out.1;
  }

  lemma TwoCalls<S>(reg: Registry<S>, using: set<string>, w: World<S>, a: Call, b: Call)
    requires AllRefs(a.order) && AllRefs(b.order)
    ensures var (w1, xs) := DispatchOne(reg, using, w, a, []);
            Run(reg, using, w, [a, b]).1 == xs + DispatchOne(reg, using, w1, b, xs).1
  {
    assert [a, b][..1] == [a];
    OneCall(reg, using, w, a);
  }

  lemma SubstituteOne(args: Args, r: string, prior: seq<Invocation>)
    requires IsRef(r) && r in args && Plain(r) !in args
    ensures SubstituteAll(args, [r], prior) == match Resolved(args[r], prior)
                                               case Err(e) => Err(e)
                                               case Ok(v) => Ok((args - {r})[Plain(r) := v])
  {
    assert [r][1..] == [];
  }

  lemma EchoAnswer(reg: Registry<int>, using: set<string>, w: World<int>, call: Call, prior: seq<Invocation>)
    requires AllRefs(call.order)
    requires call.name in reg && reg[call.name] == Single("opted", EchoReply) && "opted" in using
    ensures DispatchOne(reg, using, w, call, prior).1 == match SubstituteAll(call.args, call.order, prior)
                                                         case Err(e) => [ErrorInvocation(e, call.callId)]
                                                         case Ok(args) => [Invocation(call.name, args, call.callId)]
  {
    var args := SubstituteAll(call.args, call.order, prior);
    if args.Ok? {
      var results := [NamedResult(call.name, Encodes(Obj(args.value)))];
      assert results[..0] == [];
      assert Encode(results, call.callId) == Ok([] + [Invocation(call.name, args.value, call.callId)]);
    }
  }

  // The error with a description and the one without resolve the reference differently.
  lemma ProbeReads(ref: ResultReference, said: Invocation, mute: Invocation)
    requires ReadsDescription(ref) && said.name == "error" && mute.name == "error"
    requires said.callId == ref.resultOf && mute.callId == ref.resultOf
    requires "description" in said.args && "description" !in mute.args
    ensures ResolveReference(ref, [said]).Ok?
    ensures ResolveReference(ref, [mute]).Ok? ==>
            ResolveReference(ref, [mute]).value != ResolveReference(ref, [said]).value
  {
    assert FindResponse([said], ref.resultOf) == Some(said);
    assert FindResponse([mute], ref.resultOf) == Some(mute);
    if ref.path != "" {
      assert ["description"][1..] == [];
      assert EvalTokens(Obj(said.args), ["description"]) == Some(said.args["description"]);
      assert EvalTokens(Obj(mute.args), ["description"]) == None;
    }
  }

  /** Every such pair of calls has a registry whose un-opted method can be detected: the hypothesis
      of UnoptedDoNotExist cannot be dropped. */
  lemma ProbeDetects(first: Call, second: Call, r: string, rest: seq<Call>)
    requires ProbePair(first, second, r) && RefsListed([first, second] + rest)
    ensures var reg, w, calls := ProbeRegistry(first.name, second.name), World(0, map[]), [first, second] + rest;
            !SameAll(Run(reg, {"opted"}, w, calls).1, Run(Cut(reg, {"opted"}), {"opted"}, w, calls).1)
  {
    var reg, w, calls := ProbeRegistry(first.name, second.name), World(0, map[]), [first, second] + rest;
    PairDetects(first, second, r);
    assert calls[..2] == [first, second];
    RunPrefix(reg, {"opted"}, w, calls, 2);
    RunPrefix(Cut(reg, {"opted"}), {"opted"}, w, calls, 2);
    DifferBefore(Run(reg, {"opted"}, w, calls[..2]).1, Run(reg, {"opted"}, w, calls).1,
                 Run(Cut(reg, {"opted"}), {"opted"}, w, calls[..2]).1, Run(Cut(reg, {"opted"}), {"opted"}, w, calls).1);
  }

  lemma DifferBefore(a: seq<Invocation>, aa: seq<Invocation>, b: seq<Invocation>, bb: seq<Invocation>)
    requires a <= aa && b <= bb && |a| == |b| && !SameAll(a, b)
    ensures !SameAll(aa, bb)
  {
    var i :| 0 <= i < |a| && !Same(a[i], b[i]);
    assert aa[i] == a[i] && bb[i] == b[i];
  }

  lemma PairDetects(first: Call, second: Call, r: string)
    requires ProbePair(first, second, r)
    ensures var reg, w := ProbeRegistry(first.name, second.name), World(0, map[]);
            var xs, ys := Run(reg, {"opted"}, w, [first, second]).1, Run(Cut(reg, {"opted"}), {"opted"}, w, [first, second]).1;
            |xs| == |ys| && !SameAll(xs, ys)
  {
    var reg := ProbeRegistry(first.name, second.name);
    var said, mute := Said(first.callId), Mute(first.callId);
    FirstAnswers(first, second.name);
    ProbeAnswers(first, second, r, reg, said);
    ProbeAnswers(first, second, r, Cut(reg, {"opted"}), mute);
    EchoedDiffers(first, second, r);
    SecondDiffers(said, Echoed(second, r, said), mute, Echoed(second, r, mute));
  }

  // The first call's answer under the whole registry, and under the cut one.
  function Said(callId: string): Invocation {
    ErrorInvocation(Problem(UNKNOWN_METHOD, "requires capability " + "unopted"), callId)
  }

  function Mute(callId: string): Invocation {
    ErrorInvocation(Problem(UNKNOWN_METHOD, ""), callId)
  }

  lemma FirstAnswers(first: Call, second: string)
    requires AllRefs(first.order) && first.name != second
    ensures var reg, w := ProbeRegistry(first.name, second), World(0, map[]);
            && DispatchOne(reg, {"opted"}, w, first, []) == (w, [Said(first.callId)])
            && DispatchOne(Cut(reg, {"opted"}), {"opted"}, w, first, []) == (w, [Mute(first.callId)])
            && second in Cut(reg, {"opted"}) && Cut(reg, {"opted"})[second] == Single("opted", EchoReply)
  {
  }

  lemma EchoedDiffers(first: Call, second: Call, r: string)
    requires ProbePair(first, second, r)
    ensures !Same(Echoed(second, r, Said(first.callId)), Echoed(second, r, Mute(first.callId)))
  {
    var said, mute := Said(first.callId), Mute(first.callId);
    ProbeReads(ParseReference(second.args[r]).value, said, mute);
    EchoesDiffer(second, r, Resolved(second.args[r], [said]), Resolved(second.args[r], [mute]));
  }

  // What the echoing second call answers after `answer`.
  function Echoed(second: Call, r: string, answer: Invocation): Invocation
    requires r in second.args && IsRef(r)
  {
    match Resolved(second.args[r], [answer])
    case Err(e) => ErrorInvocation(e, second.callId)
    case Ok(v) => Invocation(second.name, (second.args - {r})[Plain(r) := v], second.callId)
  }

  lemma SecondDiffers(a: Invocation, b: Invocation, c: Invocation, d: Invocation)
    requires !Same(b, d)
    ensures !SameAll([a, b], [c, d])
  {
    assert [a, b][1] == b && [c, d][1] == d;
  }

  // The second response, given what the first call answered.
  lemma ProbeAnswers(first: Call, second: Call, r: string, reg: Registry<int>, answer: Invocation)
    requires ProbePair(first, second, r)
    requires second.name in reg && reg[second.name] == Single("opted", EchoReply)
    requires DispatchOne(reg, {"opted"}, World(0, map[]), first, []) == (World(0, map[]), [answer])
    ensures r in second.args && IsRef(r)
    ensures Run(reg, {"opted"}, World(0, map[]), [first, second]).1 == [answer, Echoed(second, r, answer)]
  {
    TwoCalls(reg, {"opted"}, World(0, map[]), first, second);
    SubstituteOne(second.args, r, [answer]);
    EchoAnswer(reg, {"opted"}, World(0, map[]), second, [answer]);
  }

  lemma EchoesDiffer(call: Call, r: string, x: Result<Json, MethodError>, y: Result<Json, MethodError>)
    requires call.name != "error" && IsRef(r) && x.Ok? && (y.Ok? ==> y.value != x.value)
    ensures y.Err? ==> !Same(Invocation(call.name, (call.args - {r})[Plain(r) := x.value], call.callId),
                             ErrorInvocation(y.error, call.callId))
    ensures y.Ok? ==> !Same(Invocation(call.name, (call.args - {r})[Plain(r) := x.value], call.callId),
                            Invocation(call.name, (call.args - {r})[Plain(r) := y.value], call.callId))
  {
    var a := (call.args - {r})[Plain(r) := x.value];
    if y.Ok? {
      var b := (call.args - {r})[Plain(r) := y.value];
      assert a[Plain(r)] != b[Plain(r)];
    }
  }
}
