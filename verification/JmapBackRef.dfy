/**
 Back-reference resolution, section 3.7 of RFC 8620.

 The code walks the "#" arguments in the iteration order of a Go map, which the runtime picks,
 deleting each from the argument map and writing the resolved value under the plain name. The
 order is a parameter here, and when it can matter is settled exactly.
 */
module JmapBackRef {
  import opened Prelude
  import opened JmapPointer

  type Args = map<string, Json>

  datatype Invocation = Invocation(name: string, args: Args, callId: string)

  datatype MethodError = MethodError(code: string, description: string, properties: Args)

  datatype ResultReference = ResultReference(resultOf: string, name: string, path: string)

  const INVALID_ARGUMENTS := "invalidArguments"
  const INVALID_RESULT_REFERENCE := "invalidResultReference"

  function Problem(code: string, description: string): MethodError {
    MethodError(code, description, map[])
  }

  // A string property of a ResultReference: absent and null both leave it empty.
  function StringField(fields: Args, key: string): Option<string> {
    if key !in fields || fields[key].Null? then Some("")
    else if fields[key].Str? then Some(fields[key].s)
    else None
  }

  // json.Unmarshal into a ResultReference; null leaves the zero value.
  function ParseReference(v: Json): Option<ResultReference> {
    match v
    case Null => Some(ResultReference("", "", ""))
    case Obj(fields) =>
      var resultOf, name, path := StringField(fields, "resultOf"), StringField(fields, "name"), StringField(fields, "path");
      if resultOf.Some? && name.Some? && path.Some?
      then Some(ResultReference(resultOf.value, name.value, path.value)) else None
    case _ => None
  }

  // The first response under a call id.
  function FindResponse(prior: seq<Invocation>, callId: string): Option<Invocation> {
    if prior == [] then None
    else if prior[0].callId == callId then Some(prior[0])
    else FindResponse(prior[1..], callId)
  }

  function ResolveReference(ref: ResultReference, prior: seq<Invocation>): Result<Json, MethodError> {
    match FindResponse(prior, ref.resultOf)
    case None => Err(Problem(INVALID_RESULT_REFERENCE, "no previous method response has this call id"))
    case Some(found) =>
      if found.name != ref.name then
        Err(Problem(INVALID_RESULT_REFERENCE, "the response has another name: " + found.name))
      else
        (match EvalPointer(Obj(found.args), ref.path)
         case None => Err(Problem(INVALID_RESULT_REFERENCE, "path " + ref.path))
         case Some(v) => Ok(v))
  }

  // What the value of a "#" argument resolves to.
  function Resolved(v: Json, prior: seq<Invocation>): Result<Json, MethodError> {
    match ParseReference(v)
    case None => Err(Problem(INVALID_RESULT_REFERENCE, "not a ResultReference object"))
    case Some(ref) => ResolveReference(ref, prior)
  }

  // Response i is the first under the call id.
  predicate FirstUnder(prior: seq<Invocation>, callId: string, i: int) {
    && 0 <= i < |prior| && prior[i].callId == callId
    && forall j | 0 <= j < i :: prior[j].callId != callId
  }

  /** A call that answered several times under one id is read by its first answer, wherever in the
      list it stands. */
  lemma {:induction false} FoundIsFirst(prior: seq<Invocation>, callId: string, r: Invocation)
    ensures FindResponse(prior, callId) == Some(r) <==> exists i :: FirstUnder(prior, callId, i) && prior[i] == r
    ensures FindResponse(prior, callId).None? <==> forall i | 0 <= i < |prior| :: prior[i].callId != callId
    decreases |prior|
  {
    if prior != [] && prior[0].callId == callId {
      assert FirstUnder(prior, callId, 0);
    } else if prior != [] {
      var rest := prior[1..];
      FoundIsFirst(rest, callId, r);
      forall i | FirstUnder(rest, callId, i)
        ensures FirstUnder(prior, callId, i + 1)
      {
        forall j | 0 <= j < i + 1
          ensures prior[j].callId != callId
        {
          assert j > 0 ==> prior[j] == rest[j - 1];
        }
      }
      forall i | FirstUnder(prior, callId, i)
        ensures i > 0 && FirstUnder(rest, callId, i - 1)
      {
      }
      assert forall i | 0 <= i < |rest| :: rest[i] == prior[i + 1];
    }
  }

  // The property of a reference reads as this string, absent and null reading as empty.
  predicate Reads(v: Json, key: string, s: string) {
    || (v.Null? && s == "")
    || (v.Obj? && if key in v.fields && !v.fields[key].Null? then v.fields[key] == Str(s) else s == "")
  }

  // The reference selects response i of the list, and this value in its arguments.
  ghost predicate Selects(v: Json, prior: seq<Invocation>, i: int, path: string, value: Json) {
    && 0 <= i < |prior| && FirstUnder(prior, prior[i].callId, i)
    && Reads(v, "resultOf", prior[i].callId) && Reads(v, "name", prior[i].name) && Reads(v, "path", path)
    && EvalPointer(Obj(prior[i].args), path) == Some(value)
  }

  /** The three steps of section 3.7: a reference resolves to a value exactly when the first response
      under its call id has its name and its path selects that value there; anything else is an
      invalidResultReference. */
  lemma ResolvedExact(v: Json, prior: seq<Invocation>, value: Json)
    ensures Resolved(v, prior) == Ok(value) <==> exists i, path :: Selects(v, prior, i, path, value)
    ensures Resolved(v, prior).Err? ==> Resolved(v, prior).error.code == INVALID_RESULT_REFERENCE
  {
    if Resolved(v, prior) == Ok(value) {
      var ref := ParseReference(v).value;
      var found := FindResponse(prior, ref.resultOf).value;
      FoundIsFirst(prior, ref.resultOf, found);
      var i :| FirstUnder(prior, ref.resultOf, i) && prior[i] == found;
      assert Selects(v, prior, i, ref.path, value);
    }
    if i, path :| Selects(v, prior, i, path, value) {
      FoundIsFirst(prior, prior[i].callId, prior[i]);
      assert ParseReference(v) == Some(ResultReference(prior[i].callId, prior[i].name, path));
    }
  }

  predicate IsRef(name: string) {
    name != "" && name[0] == '#'
  }

  function Plain(name: string): string
    requires IsRef(name)
  {
    name[1..]
  }

  // One iteration of the substitution loop.
  function Substitute(fields: Args, refName: string, prior: seq<Invocation>): Result<Args, MethodError>
    requires IsRef(refName)
  {
    if Plain(refName) in fields then
      Err(Problem(INVALID_ARGUMENTS, "present in both normal and referenced form"))
    else if refName !in fields then
      Err(Problem(INVALID_RESULT_REFERENCE, "not a ResultReference object"))
    else
      match Resolved(fields[refName], prior)
      case Err(e) => Err(e)
      case Ok(v) => Ok((fields - {refName})[Plain(refName) := v])
  }

  predicate AllRefs(order: seq<string>) {
    forall i | 0 <= i < |order| :: IsRef(order[i])
  }

  function SubstituteAll(fields: Args, order: seq<string>, prior: seq<Invocation>): Result<Args, MethodError>
    requires AllRefs(order)
    decreases |order|
  {
    if order == [] then Ok(fields)
    else
      match Substitute(fields, order[0], prior)
      case Err(e) => Err(e)
      case Ok(fields') => SubstituteAll(fields', order[1..], prior)
  }

  // order lists each "#" argument once: one possible iteration order.
  ghost predicate Enumerates(order: seq<string>, fields: Args) {
    && AllRefs(order)
    && (forall i, j | 0 <= i < j < |order| :: order[i] != order[j])
    && (forall name :: name in order <==> name in fields && IsRef(name))
  }

  /** ResolveBackReferences as written: the argument map is rewritten in place, in the order the
      runtime iterates. */
  method ResolveBackReferences(args: Args, order: seq<string>, prior: seq<Invocation>)
    returns (r: Result<Args, MethodError>)
    requires AllRefs(order)
    ensures r == SubstituteAll(args, order, prior)
  {
    if |order| == 0 {
      return Ok(args);
    }
    var fields := args;
    for i := 0 to |order|
      invariant SubstituteAll(args, order, prior) == SubstituteAll(fields, order[i..], prior)
    {
      var refName := order[i];
      var plain := refName[1..];
      assert order[i..][0] == refName && order[i..][1..] == order[i + 1..];
      if plain in fields {
        return Err(Problem(INVALID_ARGUMENTS, "present in both normal and referenced form"));
      }
      if refName !in fields {
        return Err(Problem(INVALID_RESULT_REFERENCE, "not a ResultReference object"));
      }
      var value := Resolved(fields[refName], prior);
      if value.Err? {
        return Err(value.error);
      }
      fields := (fields - {refName})[plain := value.value];
    }
    return Ok(fields);
  }

  // ---------------------------------------------------------------------------
  // What a successful substitution leaves, without reference to any order
  // ---------------------------------------------------------------------------

  function Hash(name: string): string {
    "#" + name
  }

  // m is the argument map after the references `done` were substituted into fields.
  ghost predicate IsAfter(fields: Args, done: seq<string>, prior: seq<Invocation>, m: Args) {
    forall k ::
      && (k in m <==> Hash(k) in done || (k in fields && k !in done))
      && (Hash(k) in done ==> Hash(k) in fields && k in m && Resolved(fields[Hash(k)], prior) == Ok(m[k]))
      && (Hash(k) !in done && k in m ==> m[k] == fields[k])
  }

  lemma AfterUnique(fields: Args, a: seq<string>, b: seq<string>, prior: seq<Invocation>, m: Args, n: Args)
    requires forall k :: k in a <==> k in b
    requires IsAfter(fields, a, prior, m) && IsAfter(fields, b, prior, n)
    ensures m == n
  {
    forall k | k in m || k in n
      ensures k in m && k in n && m[k] == n[k]
    {
    }
  }

  // When the loop succeeds: every reference resolves, and a plain name already taken is itself a
  // reference that has been substituted before.
  predicate Admissible(fields: Args, done: seq<string>, order: seq<string>, prior: seq<Invocation>)
    requires AllRefs(order)
  {
    forall i | 0 <= i < |order| ::
      && order[i] in fields && Resolved(fields[order[i]], prior).Ok?
      && (Plain(order[i]) in fields ==> Plain(order[i]) in done + order[..i])
  }

  lemma AdmissibleCons(fields: Args, done: seq<string>, order: seq<string>, prior: seq<Invocation>)
    requires AllRefs(order) && order != []
    ensures Admissible(fields, done, order, prior) <==>
            && order[0] in fields && Resolved(fields[order[0]], prior).Ok?
            && (Plain(order[0]) in fields ==> Plain(order[0]) in done)
            && Admissible(fields, done + [order[0]], order[1..], prior)
  {
    var rest := order[1..];
    forall i | 0 <= i < |rest|
      ensures rest[i] == order[i + 1] && done + [order[0]] + rest[..i] == done + order[..i + 1]
    {
    }
    assert done + order[..0] == done;
    if Admissible(fields, done + [order[0]], rest, prior) && order[0] in fields
       && Resolved(fields[order[0]], prior).Ok? && (Plain(order[0]) in fields ==> Plain(order[0]) in done) {
      forall i | 0 <= i < |order|
        ensures order[i] in fields && Resolved(fields[order[i]], prior).Ok?
        ensures Plain(order[i]) in fields ==> Plain(order[i]) in done + order[..i]
      {
        assert i == 0 || order[i] == rest[i - 1];
      }
    }
  }

  // A plain name that was taken had been substituted first.
  ghost predicate Closed(fields: Args, done: seq<string>) {
    forall k :: Hash(k) in done && k in fields ==> k in done
  }

  lemma HashPlain(refName: string)
    requires IsRef(refName)
    ensures forall k :: Hash(k) == refName <==> k == Plain(refName)
  {
  }

  lemma StepSucceeds(fields: Args, done: seq<string>, prior: seq<Invocation>, m: Args, refName: string)
    requires IsRef(refName) && refName in fields && refName !in done
    requires IsAfter(fields, done, prior, m) && Closed(fields, done)
    ensures refName in m && m[refName] == fields[refName]
    ensures Substitute(m, refName, prior).Ok? <==>
            Resolved(fields[refName], prior).Ok? && (Plain(refName) in fields ==> Plain(refName) in done)
  {
    HashPlain(refName);
    assert Hash(refName) !in done;
  }

  lemma StepAfter(fields: Args, done: seq<string>, prior: seq<Invocation>, m: Args, refName: string)
    requires IsRef(refName) && refName in fields && refName !in done
    requires IsAfter(fields, done, prior, m) && Closed(fields, done)
    requires Substitute(m, refName, prior).Ok?
    ensures IsAfter(fields, done + [refName], prior, Substitute(m, refName, prior).value)
    ensures Closed(fields, done + [refName])
  {
    StepSucceeds(fields, done, prior, m, refName);
    HashPlain(refName);
    var plain, done', m' := Plain(refName), done + [refName], Substitute(m, refName, prior).value;
    forall k
      ensures k in m' <==> Hash(k) in done' || (k in fields && k !in done')
      ensures Hash(k) in done' ==> Hash(k) in fields && k in m' && Resolved(fields[Hash(k)], prior) == Ok(m'[k])
      ensures Hash(k) !in done' && k in m' ==> m'[k] == fields[k]
    {
      if k == refName {
        assert Hash(k) !in done;
        assert plain != refName;
      } else if k != plain {
        assert k in m' <==> k in m;
      }
    }
  }

  // The references still to come are distinct arguments that were not substituted yet.
  predicate Pending(fields: Args, done: seq<string>, order: seq<string>) {
    && AllRefs(order)
    && (forall i | 0 <= i < |order| :: order[i] in fields && order[i] !in done)
    && (forall i, j | 0 <= i < j < |order| :: order[i] != order[j])
  }

  lemma PendingTail(fields: Args, done: seq<string>, order: seq<string>)
    requires Pending(fields, done, order) && order != []
    ensures Pending(fields, done + [order[0]], order[1..])
    ensures done + [order[0]] + order[1..] == done + order
  {
  }

  /** The loop from any intermediate point: it succeeds exactly on an admissible order, and its
      result is then determined by which references it substituted. */
  lemma {:induction false} SubstituteFrom(fields: Args, done: seq<string>, order: seq<string>, prior: seq<Invocation>, m: Args)
    requires Pending(fields, done, order)
    requires IsAfter(fields, done, prior, m) && Closed(fields, done)
    ensures SubstituteAll(m, order, prior).Ok? <==> Admissible(fields, done, order, prior)
    ensures SubstituteAll(m, order, prior).Ok? ==>
            IsAfter(fields, done + order, prior, SubstituteAll(m, order, prior).value)
    decreases |order|
  {
    if order == [] {
      assert done + order == done;
    } else {
      SubstituteHead(fields, done, order, prior, m);
      if Substitute(m, order[0], prior).Ok? {
        StepAfter(fields, done, prior, m, order[0]);
        PendingTail(fields, done, order);
        SubstituteFrom(fields, done + [order[0]], order[1..], prior, Substitute(m, order[0], prior).value);
      }
    }
  }

  lemma SubstituteHead(fields: Args, done: seq<string>, order: seq<string>, prior: seq<Invocation>, m: Args)
    requires Pending(fields, done, order) && order != []
    requires IsAfter(fields, done, prior, m) && Closed(fields, done)
    ensures Admissible(fields, done, order, prior) <==>
            Substitute(m, order[0], prior).Ok? && Admissible(fields, done + [order[0]], order[1..], prior)
  {
    AdmissibleCons(fields, done, order, prior);
    StepSucceeds(fields, done, prior, m, order[0]);
  }

  // The argument is there in both forms when its turn comes.
  predicate Doubled(fields: Args, done: seq<string>, refName: string)
    requires IsRef(refName)
  {
    Plain(refName) in fields && Plain(refName) !in done
  }

  // References before i went through, and i does not, for this reason.
  predicate FailsFirst(fields: Args, done: seq<string>, order: seq<string>, prior: seq<Invocation>, i: nat, code: string)
    requires AllRefs(order)
  {
    && i < |order| && order[i] in fields && Admissible(fields, done, order[..i], prior)
    && if Doubled(fields, done + order[..i], order[i]) then code == INVALID_ARGUMENTS
       else Resolved(fields[order[i]], prior).Err? && code == INVALID_RESULT_REFERENCE
  }

  /** The first reference that fails decides the error: invalidArguments if its plain name is there
      too, invalidResultReference if it does not resolve. */
  lemma {:induction false} SubstituteFailure(fields: Args, done: seq<string>, order: seq<string>, prior: seq<Invocation>, m: Args)
    returns (i: nat)
    requires Pending(fields, done, order)
    requires IsAfter(fields, done, prior, m) && Closed(fields, done)
    requires SubstituteAll(m, order, prior).Err?
    ensures FailsFirst(fields, done, order, prior, i, SubstituteAll(m, order, prior).error.code)
    decreases |order|
  {
    if Substitute(m, order[0], prior).Err? {
      i := 0;
      HeadFailure(fields, done, prior, m, order[0]);
      assert done + order[..0] == done;
    } else {
      StepAfter(fields, done, prior, m, order[0]);
      PendingTail(fields, done, order);
      var j := SubstituteFailure(fields, done + [order[0]], order[1..], prior, Substitute(m, order[0], prior).value);
      i := j + 1;
      StepSucceeds(fields, done, prior, m, order[0]);
      TailFailure(fields, done, order, prior, j, SubstituteAll(m, order, prior).error.code);
    }
  }

  lemma HeadFailure(fields: Args, done: seq<string>, prior: seq<Invocation>, m: Args, refName: string)
    requires IsRef(refName) && refName in fields && refName !in done
    requires IsAfter(fields, done, prior, m) && Closed(fields, done)
    requires Substitute(m, refName, prior).Err?
    ensures var code := Substitute(m, refName, prior).error.code;
            if Doubled(fields, done, refName) then code == INVALID_ARGUMENTS
            else Resolved(fields[refName], prior).Err? && code == INVALID_RESULT_REFERENCE
  {
    StepSucceeds(fields, done, prior, m, refName);
    HashPlain(refName);
    ResolvedExact(fields[refName], prior, Null);
  }

  lemma TailFailure(fields: Args, done: seq<string>, order: seq<string>, prior: seq<Invocation>, j: nat, code: string)
    requires AllRefs(order) && order != [] && order[0] in fields && Resolved(fields[order[0]], prior).Ok?
    requires Plain(order[0]) in fields ==> Plain(order[0]) in done
    requires FailsFirst(fields, done + [order[0]], order[1..], prior, j, code)
    ensures FailsFirst(fields, done, order, prior, j + 1, code)
  {
    assert order[..j + 1][1..] == order[1..][..j];
    AdmissibleCons(fields, done, order[..j + 1], prior);
    assert done + [order[0]] + order[1..][..j] == done + order[..j + 1];
  }

  /** One iteration order: exactly when it succeeds, and what it then leaves. */
  lemma SubstituteOutcome(fields: Args, order: seq<string>, prior: seq<Invocation>)
    requires Enumerates(order, fields)
    ensures SubstituteAll(fields, order, prior).Ok? <==> Admissible(fields, [], order, prior)
    ensures SubstituteAll(fields, order, prior).Ok? ==>
            IsAfter(fields, order, prior, SubstituteAll(fields, order, prior).value)
  {
    SubstituteFrom(fields, [], order, prior, fields);
    assert [] + order == order;
  }

  // ---------------------------------------------------------------------------
  // When the order matters
  // ---------------------------------------------------------------------------

  // Some "#" argument's plain name is itself a "#" argument of the call, as with "#a" and "##a".
  ghost predicate Chained(fields: Args) {
    exists r :: r in fields && IsRef(r) && IsRef(Plain(r)) && Plain(r) in fields
  }

  // What every order needs: all references resolve and no ordinary argument is doubled.
  ghost predicate Resolvable(fields: Args, prior: seq<Invocation>) {
    forall r | r in fields && IsRef(r) ::
      Resolved(fields[r], prior).Ok? && (Plain(r) in fields ==> IsRef(Plain(r)))
  }

  lemma AdmissibleIsResolvable(fields: Args, order: seq<string>, prior: seq<Invocation>)
    requires Enumerates(order, fields)
    ensures Admissible(fields, [], order, prior) ==> Resolvable(fields, prior)
    ensures !Chained(fields) && Resolvable(fields, prior) ==> Admissible(fields, [], order, prior)
  {
    if Admissible(fields, [], order, prior) {
      forall r | r in fields && IsRef(r)
        ensures Resolved(fields[r], prior).Ok? && (Plain(r) in fields ==> IsRef(Plain(r)))
      {
        var i :| 0 <= i < |order| && order[i] == r;
        assert Plain(order[i]) in [] + order[..i] ==> Plain(order[i]) in order;
      }
    }
    if !Chained(fields) && Resolvable(fields, prior) {
      forall i | 0 <= i < |order|
        ensures order[i] in fields && Resolved(fields[order[i]], prior).Ok? && Plain(order[i]) !in fields
      {
        assert order[i] in order;
      }
    }
  }

  /** Unless the call has both a reference and a reference to that reference's name, the outcome
      does not depend on the iteration order: it succeeds for one order if and only if it
      succeeds for every order, with the same arguments. */
  lemma OrderDoesNotMatter(fields: Args, a: seq<string>, b: seq<string>, prior: seq<Invocation>)
    requires Enumerates(a, fields) && Enumerates(b, fields) && !Chained(fields)
    ensures SubstituteAll(fields, a, prior).Ok? <==> SubstituteAll(fields, b, prior).Ok?
    ensures SubstituteAll(fields, a, prior).Ok? ==> SubstituteAll(fields, a, prior) == SubstituteAll(fields, b, prior)
  {
    SubstituteOutcome(fields, a, prior);
    SubstituteOutcome(fields, b, prior);
    AdmissibleIsResolvable(fields, a, prior);
    AdmissibleIsResolvable(fields, b, prior);
    if SubstituteAll(fields, a, prior).Ok? {
      AfterUnique(fields, a, b, prior, SubstituteAll(fields, a, prior).value, SubstituteAll(fields, b, prior).value);
    }
  }

  // Shorter names first, so that "#a" comes before "##a".
  predicate ShortFirst(order: seq<string>) {
    forall i, j | 0 <= i < j < |order| :: |order[i]| <= |order[j]|
  }

  lemma {:induction false} Shortest(names: set<string>) returns (name: string)
    requires names != {}
    ensures name in names && forall n | n in names :: |name| <= |n|
    decreases |names|
  {
    name :| name in names;
    if names != {name} {
      assert names - {name} != {};
      var other := Shortest(names - {name});
      if |other| < |name| {
        name := other;
      }
    }
  }

  lemma {:induction false} ListShortFirst(names: set<string>) returns (order: seq<string>)
    ensures ShortFirst(order)
    ensures forall i, j | 0 <= i < j < |order| :: order[i] != order[j]
    ensures forall n :: n in order <==> n in names
    decreases |names|
  {
    if names == {} {
      order := [];
    } else {
      var first := Shortest(names);
      var rest := ListShortFirst(names - {first});
      order := [first] + rest;
      assert forall i | 0 <= i < |rest| :: rest[i] in rest;
    }
  }

  lemma ShortFirstSucceeds(fields: Args, order: seq<string>, prior: seq<Invocation>)
    requires Enumerates(order, fields) && ShortFirst(order) && Resolvable(fields, prior)
    ensures Admissible(fields, [], order, prior)
  {
    forall i | 0 <= i < |order|
      ensures order[i] in fields && Resolved(fields[order[i]], prior).Ok?
      ensures Plain(order[i]) in fields ==> Plain(order[i]) in [] + order[..i]
    {
      assert order[i] in order;
      if Plain(order[i]) in fields {
        assert Plain(order[i]) in order;
        var j :| 0 <= j < |order| && order[j] == Plain(order[i]);
        assert j < i;
        assert order[..i][j] == Plain(order[i]);
      }
    }
  }

  lemma ChainedGoesBothWays(fields: Args, prior: seq<Invocation>) returns (a: seq<string>, b: seq<string>)
    requires Chained(fields) && Resolvable(fields, prior)
    ensures Enumerates(a, fields) && SubstituteAll(fields, a, prior).Ok?
    ensures Enumerates(b, fields) && SubstituteAll(fields, b, prior).Err?
  {
    var names := set n | n in fields && IsRef(n);
    a := ListShortFirst(names);
    assert forall i | 0 <= i < |a| :: a[i] in a;
    ShortFirstSucceeds(fields, a, prior);
    SubstituteOutcome(fields, a, prior);
    var r :| r in fields && IsRef(r) && IsRef(Plain(r)) && Plain(r) in fields;
    b := LongerFirst(fields, names, r);
    assert Substitute(fields, r, prior).Err?;
  }

  lemma LongerFirst(fields: Args, names: set<string>, r: string) returns (b: seq<string>)
    requires names == (set n | n in fields && IsRef(n)) && r in names
    ensures Enumerates(b, fields) && b != [] && b[0] == r
  {
    var rest := ListShortFirst(names - {r});
    b := [r] + rest;
    assert forall i | 0 <= i < |rest| :: rest[i] in rest;
  }

  /** Any two orders that succeed leave the same arguments, chained or not. */
  lemma SuccessesAgree(fields: Args, a: seq<string>, b: seq<string>, prior: seq<Invocation>)
    requires Enumerates(a, fields) && Enumerates(b, fields)
    requires SubstituteAll(fields, a, prior).Ok? && SubstituteAll(fields, b, prior).Ok?
    ensures SubstituteAll(fields, a, prior) == SubstituteAll(fields, b, prior)
  {
    SubstituteOutcome(fields, a, prior);
    SubstituteOutcome(fields, b, prior);
    AfterUnique(fields, a, b, prior, SubstituteAll(fields, a, prior).value, SubstituteAll(fields, b, prior).value);
  }

  /** The order matters exactly when every reference could be resolved and one of them names
      another: then substituting shorter names first succeeds, and starting with the longer
      name is refused. */
  lemma OrderMattersIff(fields: Args, prior: seq<Invocation>)
    ensures (exists a, b :: Enumerates(a, fields) && Enumerates(b, fields)
                            && SubstituteAll(fields, a, prior).Ok? && SubstituteAll(fields, b, prior).Err?)
            <==> Chained(fields) && Resolvable(fields, prior)
  {
    if Chained(fields) && Resolvable(fields, prior) {
      var a, b := ChainedGoesBothWays(fields, prior);
    }
    forall a, b | Enumerates(a, fields) && Enumerates(b, fields)
                  && SubstituteAll(fields, a, prior).Ok? && SubstituteAll(fields, b, prior).Err?
      ensures Chained(fields) && Resolvable(fields, prior)
    {
      SubstituteOutcome(fields, a, prior);
      AdmissibleIsResolvable(fields, a, prior);
      if !Chained(fields) {
        OrderDoesNotMatter(fields, a, b, prior);
      }
    }
  }
}
