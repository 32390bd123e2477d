/**
 The JMAP batch engine: sequential dispatch, capability gating and creation ids.

 Handlers are arbitrary functions of the server state, the creation ids recorded so far and
 their arguments. They may return results, fail with a method error, or panic after having
 changed the state. A request is its calls together with the order in which the runtime will
 iterate each call's "#" arguments.
 */
module JmapDispatch {
  import opened Prelude
  import opened JmapPointer
  import opened JmapBackRef

  type Created = map<string, string>

  // What json.Marshal makes of a handler's result.
  datatype Value = Encodes(json: Json) | Unencodable

  datatype NamedResult = NamedResult(name: string, value: Value)

  datatype Reply<S, T> =
    | Returned(state: S, records: seq<(string, string)>, value: T)
    | Failed(state: S, records: seq<(string, string)>, error: MethodError)
    | Panicked(state: S, records: seq<(string, string)>)

  datatype Method<!S> =
    | Single(capability: string, handler: (S, Created, Args) -> Reply<S, Value>)
    | Multi(capability: string, multi: (S, Created, Args) -> Reply<S, seq<NamedResult>>)

  type Registry<!S> = map<string, Method<S>>

  datatype World<S> = World(state: S, created: Created)

  datatype Call = Call(name: string, args: Args, callId: string, order: seq<string>)

  datatype Request = Request(using: seq<string>, calls: seq<Call>, createdIds: Option<Created>)

  datatype Response = Response(responses: seq<Invocation>, createdIds: Option<Created>)

  datatype RequestError = UnknownCapability | TooManyCalls

  const UNKNOWN_METHOD := "unknownMethod"
  const SERVER_FAIL := "serverFail"

  ghost predicate ValidCall(call: Call) {
    Enumerates(call.order, call.args)
  }

  // ---------------------------------------------------------------------------
  // Creation ids
  // ---------------------------------------------------------------------------

  function Recorded(m: Created, creationId: string, serverId: string): Created {
    if creationId == "" || serverId == "" then m else m[creationId := serverId]
  }

  function RecordAll(m: Created, records: seq<(string, string)>): Created {
    if records == [] then m
    else
      var last := records[|records| - 1];
      Recorded(RecordAll(m, records[..|records| - 1]), last.0, last.1)
  }

  // Record i is the last that gives the creation id a server id.
  predicate LastFor(records: seq<(string, string)>, k: string, i: int) {
    && 0 <= i < |records| && records[i].0 == k && records[i].1 != ""
    && forall j | i < j < |records| :: records[j].0 != k || records[j].1 == ""
  }

  /** A creation id stands for the server id last recorded for it, or for the one it had. */
  lemma {:induction false} RecordAllExact(m: Created, records: seq<(string, string)>, k: string, id: string)
    ensures k in RecordAll(m, records) && RecordAll(m, records)[k] == id <==>
              || (k != "" && exists i :: LastFor(records, k, i) && records[i].1 == id)
              || (k in m && m[k] == id && (k == "" || forall i :: !LastFor(records, k, i)))
    decreases |records|
  {
    if records != [] {
      var n := |records| - 1;
      var front := records[..n];
      RecordAllExact(m, front, k, id);
      if records[n].0 == k && records[n].1 != "" {
        assert LastFor(records, k, n);
        assert forall i | LastFor(records, k, i) :: i == n;
      } else {
        assert forall i :: LastFor(records, k, i) <==> LastFor(front, k, i);
      }
    }
  }

  lemma {:induction false} RecordAllKeeps(m: Created, records: seq<(string, string)>)
    ensures m.Keys <= RecordAll(m, records).Keys
    decreases |records|
  {
    if records != [] {
      RecordAllKeeps(m, records[..|records| - 1]);
    }
  }

  class CreationIDs {
    var m: Created

    constructor (seed: Option<Created>)
      ensures m == if seed.Some? then seed.value else map[]
    {
      m := if seed.Some? then seed.value else map[];
    }

    method Record(creationId: string, serverId: string)
      modifies this
      ensures m == Recorded(old(m), creationId, serverId)
      ensures creationId != "" && serverId != "" ==> creationId in m && m[creationId] == serverId
      ensures creationId == "" || serverId == "" ==> m == old(m)
      ensures forall k | k != creationId :: (k in m <==> k in old(m)) && (k in m ==> m[k] == old(m)[k])
    {
      if creationId == "" || serverId == "" {
        return;
      }
      m := m[creationId := serverId];
    }

    // Every record one handler made, in order.
    method RecordEach(records: seq<(string, string)>)
      modifies this
      ensures m == RecordAll(old(m), records)
    {
      for i := 0 to |records|
        invariant m == RecordAll(old(m), records[..i])
      {
        Record(records[i].0, records[i].1);
        assert records[..i + 1][..i] == records[..i];
      }
      assert records[..|records|] == records;
    }

    /** A plain id passes through; a "#" id is found exactly when it names a recorded creation. */
    method Resolve(wireId: string) returns (id: string, ok: bool)
      ensures !IsRef(wireId) ==> ok && id == wireId
      ensures IsRef(wireId) ==> (ok <==> wireId[1..] != "" && wireId[1..] in m)
      ensures IsRef(wireId) && ok ==> id == m[wireId[1..]]
    {
      if wireId == "" || wireId[0] != '#' {
        return wireId, true;
      }
      var rest := wireId[1..];
      if rest == "" || rest !in m {
        return "", false;
      }
      return m[rest], true;
    }

    /** A copy of the map, whatever order its entries are visited in. */
    method Snapshot() returns (copy: Created)
      ensures copy == m
    {
      copy := map[];
      var left := m.Keys;
      while left != {}
        invariant left <= m.Keys
        invariant copy.Keys == m.Keys - left
        invariant forall k | k in copy :: copy[k] == m[k]
        decreases left
      {
        var k :| k in left;
        copy := copy[k := m[k]];
        left := left - {k};
      }
    }
  }

  // ---------------------------------------------------------------------------
  // One call
  // ---------------------------------------------------------------------------

  function ErrorArgs(e: MethodError): Args {
    var described := map["type" := Str(e.code)];
    (if e.description == "" then described else described["description" := Str(e.description)]) + e.properties
  }

  function ErrorInvocation(e: MethodError, callId: string): Invocation {
    Invocation("error", ErrorArgs(e), callId)
  }

  // safeCall and safeCallMulti: a panic becomes serverFail for its own call.
  function Invoke<S>(m: Method<S>, w: World<S>, name: string, args: Args): (World<S>, Result<seq<NamedResult>, MethodError>) {
    match m
    case Single(_, handler) =>
      (match handler(w.state, w.created, args)
       case Returned(s, rs, v) => (World(s, RecordAll(w.created, rs)), Ok([NamedResult(name, v)]))
       case Failed(s, rs, e) => (World(s, RecordAll(w.created, rs)), Err(e))
       case Panicked(s, rs) => (World(s, RecordAll(w.created, rs)), Err(Problem(SERVER_FAIL, "internal error"))))
    case Multi(_, multi) =>
      (match multi(w.state, w.created, args)
       case Returned(s, rs, results) => (World(s, RecordAll(w.created, rs)), Ok(results))
       case Failed(s, rs, e) => (World(s, RecordAll(w.created, rs)), Err(e))
       case Panicked(s, rs) => (World(s, RecordAll(w.created, rs)), Err(Problem(SERVER_FAIL, "internal error"))))
  }

  // The responses of a successful call, all or nothing.
  function Encode(results: seq<NamedResult>, callId: string): Result<seq<Invocation>, MethodError> {
    if results == [] then Ok([])
    else
      match Encode(results[..|results| - 1], callId)
      case Err(e) => Err(e)
      case Ok(out) =>
        var last := results[|results| - 1];
        if last.value.Unencodable? then Err(Problem(SERVER_FAIL, "encoding the method result failed"))
        else if !last.value.json.Obj? then Err(Problem(SERVER_FAIL, "method produced a non-object result"))
        else Ok(out + [Invocation(last.name, last.value.json.fields, callId)])
  }

  // What the handler's outcome puts into the response list.
  function Answer(outcome: Result<seq<NamedResult>, MethodError>, callId: string): seq<Invocation> {
    match outcome
    case Err(e) => [ErrorInvocation(e, callId)]
    case Ok(results) =>
      if results == [] then [ErrorInvocation(Problem(SERVER_FAIL, "method produced no responses"), callId)]
      else
        match Encode(results, callId)
        case Err(e) => [ErrorInvocation(e, callId)]
        case Ok(out) => out
  }

  function DispatchOne<S>(reg: Registry<S>, using: set<string>, w: World<S>, call: Call, prior: seq<Invocation>)
    : (World<S>, seq<Invocation>)
    requires AllRefs(call.order)
  {
    if call.name !in reg then (w, [ErrorInvocation(Problem(UNKNOWN_METHOD, ""), call.callId)])
    else if reg[call.name].capability !in using then
      (w, [ErrorInvocation(Problem(UNKNOWN_METHOD, "requires capability " + reg[call.name].capability), call.callId)])
    else
      match SubstituteAll(call.args, call.order, prior)
      case Err(e) => (w, [ErrorInvocation(e, call.callId)])
      case Ok(args) =>
        var (w', outcome) := Invoke(reg[call.name], w, call.name, args);
        (w', Answer(outcome, call.callId))
  }

  lemma {:induction false} EncodePrefix(results: seq<NamedResult>, callId: string, n: nat)
    requires n <= |results|
    ensures Encode(results[..n], callId).Err? ==> Encode(results, callId) == Encode(results[..n], callId)
    decreases |results|
  {
    if n < |results| {
      EncodePrefix(results[..|results| - 1], callId, n);
      assert results[..|results| - 1][..n] == results[..n];
    } else {
      assert results[..n] == results;
    }
  }

  // The loop that turns results into responses.
  method EncodeAll(results: seq<NamedResult>, callId: string) returns (r: Result<seq<Invocation>, MethodError>)
    ensures r == Encode(results, callId)
  {
    var out := [];
    for i := 0 to |results|
      invariant Encode(results[..i], callId) == Ok(out)
    {
      var res := results[i];
      assert results[..i + 1][..i] == results[..i];
      EncodePrefix(results, callId, i + 1);
      if res.value.Unencodable? {
        return Err(Problem(SERVER_FAIL, "encoding the method result failed"));
      }
      if !res.value.json.Obj? {
        return Err(Problem(SERVER_FAIL, "method produced a non-object result"));
      }
      out := out + [Invocation(res.name, res.value.json.fields, callId)];
    }
    assert results[..|results|] == results;
    return Ok(out);
  }

  // safeCall / safeCallMulti: run the handler, keep what it recorded, contain a panic.
  method SafeCall<S>(m: Method<S>, created: CreationIDs, state: S, name: string, args: Args)
    returns (state': S, outcome: Result<seq<NamedResult>, MethodError>)
    modifies created
    ensures (World(state', created.m), outcome) == Invoke(m, World(state, old(created.m)), name, args)
  {
    match m
    case Single(_, handler) =>
      var reply := handler(state, created.m, args);
      created.RecordEach(reply.records);
      state' := reply.state;
      outcome := match reply
                 case Returned(_, _, v) => Ok([NamedResult(name, v)])
                 case Failed(_, _, e) => Err(e)
                 case Panicked(_, _) => Err(Problem(SERVER_FAIL, "internal error"));
    case Multi(_, multi) =>
      var reply := multi(state, created.m, args);
      created.RecordEach(reply.records);
      state' := reply.state;
      outcome := match reply
                 case Returned(_, _, results) => Ok(results)
                 case Failed(_, _, e) => Err(e)
                 case Panicked(_, _) => Err(Problem(SERVER_FAIL, "internal error"));
  }

  /** dispatchOne as written, recording creations in place. */
  method Dispatch<S>(reg: Registry<S>, using: set<string>, created: CreationIDs, state: S, call: Call, prior: seq<Invocation>)
    returns (state': S, out: seq<Invocation>)
    requires AllRefs(call.order)
    modifies created
    ensures (World(state', created.m), out) == DispatchOne(reg, using, World(state, old(created.m)), call, prior)
  {
    if call.name !in reg {
      return state, [ErrorInvocation(Problem(UNKNOWN_METHOD, ""), call.callId)];
    }
    var m := reg[call.name];
    if m.capability !in using {
      return state, [ErrorInvocation(Problem(UNKNOWN_METHOD, "requires capability " + m.capability), call.callId)];
    }
    var args := ResolveBackReferences(call.args, call.order, prior);
    if args.Err? {
      return state, [ErrorInvocation(args.error, call.callId)];
    }
    var outcome;
    state', outcome := SafeCall(m, created, state, call.name, args.value);
    if outcome.Err? {
      return state', [ErrorInvocation(outcome.error, call.callId)];
    }
    if |outcome.value| == 0 {
      return state', [ErrorInvocation(Problem(SERVER_FAIL, "method produced no responses"), call.callId)];
    }
    var encoded := EncodeAll(outcome.value, call.callId);
    if encoded.Err? {
      return state', [ErrorInvocation(encoded.error, call.callId)];
    }
    return state', encoded.value;
  }

  // ---------------------------------------------------------------------------
  // A whole request
  // ---------------------------------------------------------------------------

  predicate RefsListed(calls: seq<Call>) {
    forall i | 0 <= i < |calls| :: AllRefs(calls[i].order)
  }

  function Run<S>(reg: Registry<S>, using: set<string>, w: World<S>, calls: seq<Call>): (World<S>, seq<Invocation>)
    requires RefsListed(calls)
  {
    if calls == [] then (w, [])
    else
      var (w', prior) := Run(reg, using, w, calls[..|calls| - 1]);
      var (w'', out) := DispatchOne(reg, using, w', calls[|calls| - 1], prior);
      (w'', prior + out)
  }

  function Seed(createdIds: Option<Created>): Created {
    if createdIds.Some? then createdIds.value else map[]
  }

  function UsingSet(using: seq<string>): set<string> {
    set c | c in using
  }

  // The loop over the calls, appending to the responses.
  method RunCalls<S>(reg: Registry<S>, using: set<string>, created: CreationIDs, state: S, calls: seq<Call>)
    returns (state': S, responses: seq<Invocation>)
    requires RefsListed(calls)
    modifies created
    ensures (World(state', created.m), responses) == Run(reg, using, World(state, old(created.m)), calls)
  {
    ghost var w := World(state, created.m);
    state', responses := state, [];
    for i := 0 to |calls|
      invariant Run(reg, using, w, calls[..i]) == (World(state', created.m), responses)
    {
      assert calls[..i + 1][..i] == calls[..i];
      var out;
      state', out := Dispatch(reg, using, created, state', calls[i], responses);
      responses := responses + out;
    }
    assert calls[..|calls|] == calls;
  }

  /** Engine.Process after parsing: reject unknown capabilities and oversized requests, then run
      the calls in order, appending to the responses and updating the creation ids in place. */
  method Process<S>(reg: Registry<S>, capabilities: set<string>, maxCalls: nat, req: Request, state: S)
    returns (r: Result<Response, RequestError>, state': S)
    requires RefsListed(req.calls)
    ensures (exists c | c in req.using :: c !in capabilities) <==> r == Err(UnknownCapability)
    ensures (forall c | c in req.using :: c in capabilities) && |req.calls| > maxCalls <==> r == Err(TooManyCalls)
    ensures r.Err? ==> state' == state
    ensures r.Ok? ==>
              var out := Run(reg, UsingSet(req.using), World(state, Seed(req.createdIds)), req.calls);
              && r.value.responses == out.1
              && state' == out.0.state
              && r.value.createdIds == if req.createdIds.Some? then Some(out.0.created) else None
  {
    for i := 0 to |req.using|
      invariant forall j | 0 <= j < i :: req.using[j] in capabilities
    {
      if req.using[i] !in capabilities {
        return Err(UnknownCapability), state;
      }
    }
    if |req.calls| > maxCalls {
      return Err(TooManyCalls), state;
    }
    var using := UsingSet(req.using);
    var created := new CreationIDs(req.createdIds);
    var responses;
    state', responses := RunCalls(reg, using, created, state, req.calls);
    var snapshot: Option<Created> := None;
    if req.createdIds.Some? {
      var copy := created.Snapshot();
      snapshot := Some(copy);
    }
    r := Ok(Response(responses, snapshot));
  }

  lemma {:induction false} EncodeShape(results: seq<NamedResult>, callId: string)
    ensures Encode(results, callId).Ok? ==>
              && |Encode(results, callId).value| == |results|
              && forall i | 0 <= i < |results| ::
                   && results[i].value.Encodes? && results[i].value.json.Obj?
                   && Encode(results, callId).value[i] == Invocation(results[i].name, results[i].value.json.fields, callId)
    decreases |results|
  {
    if results != [] {
      EncodeShape(results[..|results| - 1], callId);
    }
  }

  predicate AllEncode(results: seq<NamedResult>) {
    forall i | 0 <= i < |results| :: results[i].value.Encodes? && results[i].value.json.Obj?
  }

  lemma {:induction false} EncodeSucceeds(results: seq<NamedResult>, callId: string)
    ensures Encode(results, callId).Ok? <==> AllEncode(results)
    decreases |results|
  {
    if results != [] {
      var front, last := results[..|results| - 1], results[|results| - 1];
      EncodeSucceeds(front, callId);
      assert AllEncode(results) <==> AllEncode(front) && last.value.Encodes? && last.value.json.Obj? by {
        assert forall i | 0 <= i < |front| :: front[i] == results[i];
      }
    }
  }

  // An answer is one error, or every result of the handler in order under the call's id.
  predicate AnswersCall(outcome: Result<seq<NamedResult>, MethodError>, callId: string, out: seq<Invocation>) {
    || (|out| == 1 && out[0].name == "error" && out[0].callId == callId)
    || (&& outcome.Ok? && outcome.value != [] && |out| == |outcome.value|
        && forall i | 0 <= i < |out| ::
             && outcome.value[i].value.Encodes? && outcome.value[i].value.json.Obj?
             && out[i] == Invocation(outcome.value[i].name, outcome.value[i].value.json.fields, callId))
  }

  lemma AnswerShape(outcome: Result<seq<NamedResult>, MethodError>, callId: string)
    ensures AnswersCall(outcome, callId, Answer(outcome, callId))
    ensures outcome.Err? ==> Answer(outcome, callId) == [ErrorInvocation(outcome.error, callId)]
    ensures outcome.Ok? && (outcome.value == [] || !AllEncode(outcome.value)) ==>
              |Answer(outcome, callId)| == 1 && Answer(outcome, callId)[0].name == "error"
    ensures outcome.Ok? && outcome.value != [] && AllEncode(outcome.value) ==>
              && |Answer(outcome, callId)| == |outcome.value|
              && forall i | 0 <= i < |outcome.value| ::
                   Answer(outcome, callId)[i]
                   == Invocation(outcome.value[i].name, outcome.value[i].value.json.fields, callId)
  {
    if outcome.Ok? {
      EncodeShape(outcome.value, callId);
      EncodeSucceeds(outcome.value, callId);
    }
  }

  // The call is refused before its handler runs: the world stays, and one error says why.
  predicate Refuses<S(==)>(w: World<S>, callId: string, code: string, w': World<S>, out: seq<Invocation>) {
    w' == w && OneError(callId, code, out)
  }

  predicate OneError(callId: string, code: string, out: seq<Invocation>) {
    && |out| == 1 && out[0].name == "error" && out[0].callId == callId
    && "type" in out[0].args && out[0].args["type"] == Str(code)
  }

  // Whatever the handler did is kept: its new state and its records, even when it failed, panicked
  // or returned what does not encode.
  predicate Keeps<S(==), T>(w: World<S>, reply: Reply<S, T>, w': World<S>) {
    w'.state == reply.state && w'.created == RecordAll(w.created, reply.records)
  }

  predicate Fails<S, T>(reply: Reply<S, T>, callId: string, out: seq<Invocation>) {
    match reply
    case Failed(_, _, e) => out == [ErrorInvocation(e, callId)]
    case Panicked(_, _) => OneError(callId, SERVER_FAIL, out)
    case Returned(_, _, _) => OneError(callId, SERVER_FAIL, out)
  }

  predicate Answers(results: seq<NamedResult>, callId: string, out: seq<Invocation>) {
    && |out| == |results|
    && forall i | 0 <= i < |out| ::
         && results[i].value.Encodes? && results[i].value.json.Obj?
         && out[i] == Invocation(results[i].name, results[i].value.json.fields, callId)
  }

  lemma {:induction false} EncodeFails(results: seq<NamedResult>, callId: string)
    ensures Encode(results, callId).Err? ==>
              Encode(results, callId).error.code == SERVER_FAIL && Encode(results, callId).error.properties == map[]
    decreases |results|
  {
    if results != [] {
      EncodeFails(results[..|results| - 1], callId);
    }
  }

  lemma AnswerExact(results: seq<NamedResult>, callId: string)
    ensures if results != [] && AllEncode(results) then Answers(results, callId, Answer(Ok(results), callId))
            else OneError(callId, SERVER_FAIL, Answer(Ok(results), callId))
  {
    EncodeShape(results, callId);
    EncodeSucceeds(results, callId);
    EncodeFails(results, callId);
  }

  /** A call whose method does not exist, or whose capability the request does not use, is an
      unknownMethod; one whose arguments cannot be resolved is refused with that error. Neither
      reaches a handler. */
  lemma RefusedCall<S>(reg: Registry<S>, using: set<string>, w: World<S>, call: Call, prior: seq<Invocation>)
    requires AllRefs(call.order)
    ensures var (w', out) := DispatchOne(reg, using, w, call, prior);
            && (call.name !in reg || reg[call.name].capability !in using ==> Refuses(w, call.callId, UNKNOWN_METHOD, w', out))
            && (call.name in reg && reg[call.name].capability in using && SubstituteAll(call.args, call.order, prior).Err? ==>
                  w' == w && out == [ErrorInvocation(SubstituteAll(call.args, call.order, prior).error, call.callId)])
  {
  }

  /** A call that reaches a handler keeps the state the handler left and everything it recorded, and
      is answered by all its results in order or by one error. */
  lemma SingleCall<S>(reg: Registry<S>, using: set<string>, w: World<S>, call: Call, prior: seq<Invocation>, args: Args)
    requires AllRefs(call.order) && SubstituteAll(call.args, call.order, prior) == Ok(args)
    requires call.name in reg && reg[call.name].capability in using && reg[call.name].Single?
    ensures var (w', out) := DispatchOne(reg, using, w, call, prior);
            var reply := reg[call.name].handler(w.state, w.created, args);
            && Keeps(w, reply, w')
            && if reply.Returned? && reply.value.Encodes? && reply.value.json.Obj?
               then out == [Invocation(call.name, reply.value.json.fields, call.callId)]
               else Fails(reply, call.callId, out)
  {
    var reply := reg[call.name].handler(w.state, w.created, args);
    if reply.Returned? {
      AnswerExact([NamedResult(call.name, reply.value)], call.callId);
    }
  }

  lemma MultiCall<S>(reg: Registry<S>, using: set<string>, w: World<S>, call: Call, prior: seq<Invocation>, args: Args)
    requires AllRefs(call.order) && SubstituteAll(call.args, call.order, prior) == Ok(args)
    requires call.name in reg && reg[call.name].capability in using && reg[call.name].Multi?
    ensures var (w', out) := DispatchOne(reg, using, w, call, prior);
            var reply := reg[call.name].multi(w.state, w.created, args);
            && Keeps(w, reply, w')
            && if reply.Returned? && reply.value != [] && AllEncode(reply.value)
               then Answers(reply.value, call.callId, out)
               else Fails(reply, call.callId, out)
  {
    var reply := reg[call.name].multi(w.state, w.created, args);
    if reply.Returned? {
      AnswerExact(reply.value, call.callId);
    }
  }

  lemma BlockShape<S>(reg: Registry<S>, using: set<string>, w: World<S>, call: Call, prior: seq<Invocation>)
    requires AllRefs(call.order)
    ensures var out := DispatchOne(reg, using, w, call, prior).1;
            out != [] && forall i | 0 <= i < |out| :: out[i].callId == call.callId
    ensures w.created.Keys <= DispatchOne(reg, using, w, call, prior).0.created.Keys
  {
    if call.name in reg && reg[call.name].capability in using {
      var args := SubstituteAll(call.args, call.order, prior);
      if args.Ok? {
        AnswerShape(Invoke(reg[call.name], w, call.name, args.value).1, call.callId);
        InvokeKeeps(reg[call.name], w, call.name, args.value);
      }
    }
  }

  lemma InvokeKeeps<S>(m: Method<S>, w: World<S>, name: string, args: Args)
    ensures w.created.Keys <= Invoke(m, w, name, args).0.created.Keys
  {
    match m
    case Single(_, h) => RecordAllKeeps(w.created, h(w.state, w.created, args).records);
    case Multi(_, h) => RecordAllKeeps(w.created, h(w.state, w.created, args).records);
  }

  /** Running more calls only appends: the responses to the first k calls, computed without the
      later ones, are a prefix of the whole, and no creation id is lost on the way. */
  lemma {:induction false} RunPrefix<S>(reg: Registry<S>, using: set<string>, w: World<S>, calls: seq<Call>, k: nat)
    requires k <= |calls| && RefsListed(calls)
    ensures Run(reg, using, w, calls[..k]).1 <= Run(reg, using, w, calls).1
    ensures Run(reg, using, w, calls[..k]).0.created.Keys <= Run(reg, using, w, calls).0.created.Keys
    decreases |calls|
  {
    if k == |calls| {
      assert calls[..k] == calls;
    } else {
      var front, last := calls[..|calls| - 1], calls[|calls| - 1];
      RunPrefix(reg, using, w, front, k);
      assert front[..k] == calls[..k];
      var (w', prior) := Run(reg, using, w, front);
      BlockShape(reg, using, w', last, prior);
    }
  }

  /** Call k answers in one non-empty contiguous block, right after the blocks of the calls before
      it, with every response under its own id; the block is what dispatching call k yields after
      the first k calls, whatever calls follow. */
  lemma CallBlock<S>(reg: Registry<S>, using: set<string>, w: World<S>, calls: seq<Call>, k: nat)
    requires k < |calls| && RefsListed(calls)
    ensures var before := Run(reg, using, w, calls[..k]);
            var block := DispatchOne(reg, using, before.0, calls[k], before.1).1;
            && block != []
            && (forall i | 0 <= i < |block| :: block[i].callId == calls[k].callId)
            && before.1 + block <= Run(reg, using, w, calls).1
    ensures var before, after := Run(reg, using, w, calls[..k]), Run(reg, using, w, calls[..k + 1]);
            after.0 == DispatchOne(reg, using, before.0, calls[k], before.1).0 && after.1 <= Run(reg, using, w, calls).1
  {
    assert calls[..k + 1][..k] == calls[..k];
    RunPrefix(reg, using, w, calls, k + 1);
    var before := Run(reg, using, w, calls[..k]);
    BlockShape(reg, using, before.0, calls[k], before.1);
  }

  /** The creation ids a request returns keep every id the client passed in. */
  lemma SeedKept<S>(reg: Registry<S>, using: set<string>, state: S, req: Request)
    requires RefsListed(req.calls)
    ensures Seed(req.createdIds).Keys <=
            Run(reg, using, World(state, Seed(req.createdIds)), req.calls).0.created.Keys
  {
    RunPrefix(reg, using, World(state, Seed(req.createdIds)), req.calls, 0);
    assert req.calls[..0] == [];
  }
}
