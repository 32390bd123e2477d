/**
 JSON values and the extended JSON Pointer of result references: RFC 6901 with the "*" token
 of section 3.7 of RFC 8620.
 */
module JmapPointer {
  import opened Prelude

  datatype Json =
    | Null
    | Bool(b: bool)
    | Num(n: int)
    | Str(s: string)
    | Arr(items: seq<Json>)
    | Obj(fields: map<string, Json>)

  // ---------------------------------------------------------------------------
  // Array indices
  // ---------------------------------------------------------------------------

  const MaxInt := 0x7fff_ffff_ffff_ffff

  predicate IsDigit(c: char) {
    '0' <= c <= '9'
  }

  predicate AllDigits(s: string) {
    forall i | 0 <= i < |s| :: IsDigit(s[i])
  }

  function Value(s: string): nat
    requires AllDigits(s)
  {
    if s == [] then 0 else 10 * Value(s[..|s| - 1]) + (s[|s| - 1] as int - '0' as int)
  }

  // strconv.Atoi: an optional sign, at least one digit, and a value that fits 64 bits.
  function Atoi(s: string): Option<int> {
    var negative := s != [] && s[0] == '-';
    var signed := s != [] && (s[0] == '-' || s[0] == '+');
    var digits := if signed then s[1..] else s;
    if digits == [] || !AllDigits(digits) then None
    else
      var v: int := Value(digits);
      if negative then (if v <= MaxInt + 1 then Some(-v) else None)
      else if v <= MaxInt then Some(v) else None
  }

  function ArrayIndex(token: string, length: nat): Option<nat> {
    if token == "-" then None
    else if token == "" || (|token| > 1 && token[0] == '0') then None
    else
      match Atoi(token)
      case None => None
      case Some(idx) => if idx < 0 || idx >= length then None else Some(idx)
  }

  function DigitChar(d: nat): (c: char)
    requires d < 10
    ensures IsDigit(c) && c as int - '0' as int == d
  {
    '0' + d as char
  }

  // The array-index grammar of section 4 of RFC 6901: "0", or digits without a leading zero.
  function Decimal(n: nat): (s: string)
    ensures s != [] && AllDigits(s)
  {
    var last := [DigitChar(n % 10)];
    if n < 10 then last else Decimal(n / 10) + last
  }

  lemma {:induction false} DecimalValue(n: nat)
    ensures Value(Decimal(n)) == n
    ensures |Decimal(n)| > 1 ==> Decimal(n)[0] != '0'
    ensures Decimal(n)[0] == '0' ==> n == 0
  {
    if n < 10 {
      assert Decimal(n)[..0] == [];
    } else {
      var front := Decimal(n / 10);
      DecimalValue(n / 10);
      assert Decimal(n) == front + [DigitChar(n % 10)];
      assert Decimal(n)[..|Decimal(n)| - 1] == front;
      assert Decimal(n)[0] == front[0];
      assert Value(Decimal(n)) == 10 * Value(front) + n % 10;
    }
  }

  // Digits without a leading zero are the decimal writing of their value.
  lemma {:induction false} ValueDecimal(s: string)
    requires s != [] && AllDigits(s) && (|s| > 1 ==> s[0] != '0')
    ensures Decimal(Value(s)) == s
    ensures s[0] != '0' ==> Value(s) > 0
    decreases |s|
  {
    var front, d := s[..|s| - 1], s[|s| - 1] as int - '0' as int;
    assert s == front + [s[|s| - 1]];
    if front == [] {
      assert Value(front) == 0;
    } else {
      ValueDecimal(front);
      assert front[0] == s[0];
      assert Value(s) / 10 == Value(front) && Value(s) % 10 == d;
    }
  }

  /** On tokens without a sign the code accepts exactly the array indices of RFC 6901. */
  lemma UnsignedIndex(token: string, length: nat, i: nat)
    requires token == "" || (token[0] != '+' && token[0] != '-')
    requires length <= MaxInt
    ensures ArrayIndex(token, length) == Some(i) <==> i < length && token == Decimal(i)
  {
    DecimalValue(i);
    if ArrayIndex(token, length) == Some(i) {
      ValueDecimal(token);
    }
  }

  /** Beyond the RFC, the code also accepts a sign: "+" before any digits, "-" before zeros. */
  lemma SignedIndex(token: string, length: nat, i: nat)
    requires token != "" && (token[0] == '+' || token[0] == '-')
    requires length <= MaxInt
    ensures ArrayIndex(token, length) == Some(i) <==>
            && i < length && |token| > 1 && AllDigits(token[1..])
            && Value(token[1..]) == i && (token[0] == '-' ==> i == 0)
  {
  }

  // ---------------------------------------------------------------------------
  // Token escaping
  // ---------------------------------------------------------------------------

  // strings.ReplaceAll of the two-character pattern "~c" by one character.
  function ReplaceAll(s: string, c: char, to: char): string {
    if |s| < 2 then s
    else if s[0] == '~' && s[1] == c then [to] + ReplaceAll(s[2..], c, to)
    else [s[0]] + ReplaceAll(s[1..], c, to)
  }

  function UnescapeToken(t: string): string {
    ReplaceAll(ReplaceAll(t, '1', '/'), '0', '~')
  }

  // A single left-to-right decoder of section 4 of RFC 6901.
  function Decode(t: string): string {
    if |t| < 2 then t
    else if t[0] == '~' && t[1] == '1' then ['/'] + Decode(t[2..])
    else if t[0] == '~' && t[1] == '0' then ['~'] + Decode(t[2..])
    else [t[0]] + Decode(t[1..])
  }

  /** The two passes of the code decode every string as the single pass does. */
  lemma {:induction false} TwoPassesDecode(t: string)
    ensures UnescapeToken(t) == Decode(t)
    decreases |t|
  {
    if |t| >= 2 {
      var one := ReplaceAll(t, '1', '/');
      if t[0] == '~' && t[1] == '1' {
        TwoPassesDecode(t[2..]);
        assert one == ['/'] + ReplaceAll(t[2..], '1', '/');
        ReplaceSkips('/', ReplaceAll(t[2..], '1', '/'));
      } else if t[0] == '~' && t[1] == '0' {
        TwoPassesDecode(t[2..]);
        ReplaceKeeps('0', t[2..]);
        assert t[1..] == ['0'] + t[2..];
        assert one == ['~', '0'] + ReplaceAll(t[2..], '1', '/');
        assert one[2..] == ReplaceAll(t[2..], '1', '/');
      } else {
        TwoPassesDecode(t[1..]);
        var rest := ReplaceAll(t[1..], '1', '/');
        assert one == [t[0]] + rest;
        if t[0] == '~' {
          assert rest[0] != '0';
          assert one[1..] == rest;
        } else {
          ReplaceSkips(t[0], rest);
        }
      }
    }
  }

  lemma ReplaceSkips(c: char, rest: string)
    requires c != '~'
    ensures ReplaceAll([c] + rest, '0', '~') == [c] + ReplaceAll(rest, '0', '~')
  {
    assert ([c] + rest)[1..] == rest;
  }

  lemma ReplaceKeeps(c: char, rest: string)
    requires c != '~'
    ensures ReplaceAll([c] + rest, '1', '/') == [c] + ReplaceAll(rest, '1', '/')
  {
    assert ([c] + rest)[1..] == rest;
  }

  // The escaping of section 3 of RFC 6901.
  function EscapeToken(t: string): string {
    if t == "" then ""
    else (if t[0] == '~' then "~0" else if t[0] == '/' then "~1" else [t[0]]) + EscapeToken(t[1..])
  }

  lemma {:induction false} DecodeEscape(t: string)
    ensures Decode(EscapeToken(t)) == t
    ensures '/' !in EscapeToken(t)
    decreases |t|
  {
    if t != "" {
      DecodeEscape(t[1..]);
      var e, rest := EscapeToken(t), EscapeToken(t[1..]);
      if t[0] == '~' || t[0] == '/' {
        assert e[2..] == rest;
      } else {
        assert e[1..] == rest;
      }
    }
  }

  // strings.Split(s, "/").
  function Split(s: string): (parts: seq<string>)
    ensures parts != []
  {
    if s == "" then [""]
    else
      var rest := Split(s[1..]);
      if s[0] == '/' then [""] + rest else [[s[0]] + rest[0]] + rest[1..]
  }

  function UnescapeAll(parts: seq<string>): seq<string> {
    seq(|parts|, i requires 0 <= i < |parts| => UnescapeToken(parts[i]))
  }

  // The tokens of a pointer that starts with "/".
  function Tokens(pointer: string): seq<string>
    requires pointer != ""
  {
    UnescapeAll(Split(pointer[1..]))
  }

  function Print(tokens: seq<string>): string {
    if tokens == [] then "" else "/" + EscapeToken(tokens[0]) + Print(tokens[1..])
  }

  lemma {:induction false} SplitWord(word: string, rest: string)
    requires '/' !in word && (rest == "" || rest[0] == '/')
    ensures Split(word + rest) == [word] + if rest == "" then [] else Split(rest[1..])
    decreases |word|
  {
    if word == "" {
      assert word + rest == rest;
      assert rest != "" ==> Split(rest) == [""] + Split(rest[1..]);
    } else {
      assert (word + rest)[1..] == word[1..] + rest;
      SplitWord(word[1..], rest);
      assert [word[0]] + word[1..] == word;
    }
  }

  /** Parsing recovers every non-empty list of tokens from its escaped printing. */
  lemma {:induction false} PrintParse(tokens: seq<string>)
    requires tokens != []
    ensures Print(tokens)[0] == '/' && Tokens(Print(tokens)) == tokens
    decreases |tokens|
  {
    var word, rest := EscapeToken(tokens[0]), Print(tokens[1..]);
    DecodeEscape(tokens[0]);
    TwoPassesDecode(word);
    PrintHead(tokens);
    if tokens[1..] != [] {
      PrintParse(tokens[1..]);
    }
    SplitWord(word, rest);
    var tail := if rest == "" then [] else Split(rest[1..]);
    UnescapeCons(word, tail);
    assert UnescapeAll(tail) == tokens[1..];
    assert tokens == [tokens[0]] + tokens[1..];
  }

  lemma PrintHead(tokens: seq<string>)
    requires tokens != []
    ensures Print(tokens)[0] == '/'
    ensures Print(tokens)[1..] == EscapeToken(tokens[0]) + Print(tokens[1..])
  {
  }

  lemma UnescapeCons(word: string, rest: seq<string>)
    ensures UnescapeAll([word] + rest) == [UnescapeToken(word)] + UnescapeAll(rest)
  {
  }

  // ---------------------------------------------------------------------------
  // Evaluation
  // ---------------------------------------------------------------------------

  // A per-element result that is itself an array contributes its elements.
  function Spread(v: Json): seq<Json> {
    if v.Arr? then v.items else [v]
  }

  function EvalTokens(doc: Json, tokens: seq<string>): Option<Json>
    decreases |tokens|, 0
  {
    if tokens == [] then Some(doc)
    else
      var token, rest := tokens[0], tokens[1..];
      match doc
      case Obj(fields) => if token in fields then EvalTokens(fields[token], rest) else None
      case Arr(items) =>
        if token == "*" then
          (match EvalEach(items, rest)
           case None => None
           case Some(out) => Some(Arr(out)))
        else
          (match ArrayIndex(token, |items|)
           case None => None
           case Some(i) => EvalTokens(items[i], rest))
      case _ => None
  }

  function EvalEach(items: seq<Json>, rest: seq<string>): Option<seq<Json>>
    decreases |rest|, 1 + |items|
  {
    if items == [] then Some([])
    else
      match EvalEach(items[..|items| - 1], rest)
      case None => None
      case Some(out) =>
        match EvalTokens(items[|items| - 1], rest)
        case None => None
        case Some(v) => Some(out + Spread(v))
  }

  function EvalPointer(doc: Json, pointer: string): Option<Json> {
    if pointer == "" then Some(doc)
    else if pointer[0] != '/' then None
    else EvalTokens(doc, Tokens(pointer))
  }

  /** The printed form of a token list selects what the tokens select, the empty pointer the whole
      document; a pointer that is neither empty nor starts with "/" selects nothing. */
  lemma PointerSelects(doc: Json, tokens: seq<string>, pointer: string)
    ensures EvalPointer(doc, Print(tokens)) == EvalTokens(doc, tokens)
    ensures pointer != "" && pointer[0] != '/' ==> EvalPointer(doc, pointer).None?
  {
    if tokens != [] {
      PrintParse(tokens);
    }
  }

  /** evalTokens as written, with the append loop over an array's elements. */
  method EvalTokensLoop(doc: Json, tokens: seq<string>) returns (r: Option<Json>)
    ensures r == EvalTokens(doc, tokens)
    decreases |tokens|
  {
    if tokens == [] {
      return Some(doc);
    }
    var token, rest := tokens[0], tokens[1..];
    match doc
    case Obj(fields) =>
      if token !in fields {
        return None;
      }
      r := EvalTokensLoop(fields[token], rest);
    case Arr(items) =>
      if token == "*" {
        var out := [];
        for i := 0 to |items|
          invariant EvalEach(items[..i], rest) == Some(out)
        {
          var value := EvalTokensLoop(items[i], rest);
          assert items[..i + 1][..i] == items[..i];
          if value.None? {
            EvalEachPrefix(items, rest, i + 1);
            return None;
          }
          if value.value.Arr? {
            out := out + value.value.items;
          } else {
            out := out + [value.value];
          }
        }
        assert items[..|items|] == items;
        return Some(Arr(out));
      }
      var idx := ArrayIndex(token, |items|);
      if idx.None? {
        return None;
      }
      r := EvalTokensLoop(items[idx.value], rest);
    case _ =>
      return None;
  }

  lemma {:induction false} EvalEachPrefix(items: seq<Json>, rest: seq<string>, n: nat)
    requires n <= |items|
    ensures EvalEach(items[..n], rest).None? ==> EvalEach(items, rest).None?
    decreases |items|
  {
    if n < |items| {
      EvalEachPrefix(items[..|items| - 1], rest, n);
      assert items[..|items| - 1][..n] == items[..n];
    } else {
      assert items[..n] == items;
    }
  }

  // ---------------------------------------------------------------------------
  // The laws of "*" and of composition
  // ---------------------------------------------------------------------------

  function Star(items: seq<Json>, rest: seq<string>): Option<Json> {
    EvalTokens(Arr(items), ["*"] + rest)
  }

  // Two array results side by side, or failure if either failed.
  function Append(a: Option<Json>, b: Option<Json>): Option<Json> {
    if a.Some? && b.Some? && a.value.Arr? && b.value.Arr? then Some(Arr(a.value.items + b.value.items)) else None
  }

  lemma StarIsEach(items: seq<Json>, rest: seq<string>)
    ensures Star(items, rest) == match EvalEach(items, rest)
                                 case None => None
                                 case Some(out) => Some(Arr(out))
  {
    assert (["*"] + rest)[1..] == rest;
  }

  lemma {:induction false} EachConcat(a: seq<Json>, b: seq<Json>, rest: seq<string>)
    ensures EvalEach(a + b, rest) == if EvalEach(a, rest).Some? && EvalEach(b, rest).Some?
                                     then Some(EvalEach(a, rest).value + EvalEach(b, rest).value) else None
    decreases |b|
  {
    if b == [] {
      assert a + b == a;
      assert EvalEach(a, rest).Some? ==> EvalEach(a, rest).value + [] == EvalEach(a, rest).value;
    } else {
      assert (a + b)[..|a + b| - 1] == a + b[..|b| - 1];
      EachConcat(a, b[..|b| - 1], rest);
      var front := EvalEach(b[..|b| - 1], rest);
      var last := EvalTokens(b[|b| - 1], rest);
      if EvalEach(a, rest).Some? && front.Some? && last.Some? {
        assert EvalEach(a, rest).value + front.value + Spread(last.value)
            == EvalEach(a, rest).value + (front.value + Spread(last.value));
      }
    }
  }

  /** "*" is a homomorphism over array concatenation: in order, one level flattened, and failing
      as a whole when any part fails. */
  lemma StarConcat(a: seq<Json>, b: seq<Json>, rest: seq<string>)
    ensures Star(a + b, rest) == Append(Star(a, rest), Star(b, rest))
  {
    EachConcat(a, b, rest);
    StarIsEach(a, rest);
    StarIsEach(b, rest);
    StarIsEach(a + b, rest);
  }

  /** "*" succeeds exactly when the remaining path succeeds on every element, and on a single
      element it yields that element's result, flattened by one level. */
  lemma {:induction false} StarAllOrNothing(items: seq<Json>, rest: seq<string>)
    ensures Star(items, rest).Some? <==> forall i | 0 <= i < |items| :: EvalTokens(items[i], rest).Some?
    ensures |items| == 1 && EvalTokens(items[0], rest).Some? ==>
              Star(items, rest) == Some(Arr(Spread(EvalTokens(items[0], rest).value)))
    decreases |items|
  {
    StarIsEach(items, rest);
    if items != [] {
      StarAllOrNothing(items[..|items| - 1], rest);
      StarIsEach(items[..|items| - 1], rest);
      if |items| == 1 {
        assert EvalEach(items[..0], rest) == Some([]);
        assert EvalTokens(items[0], rest).Some? ==>
            [] + Spread(EvalTokens(items[0], rest).value) == Spread(EvalTokens(items[0], rest).value);
      }
      assert forall i | 0 <= i < |items| - 1 :: items[..|items| - 1][i] == items[i];
    }
  }

  // Evaluating the path on this document never maps through an array.
  predicate MapsNothing(doc: Json, tokens: seq<string>)
    decreases |tokens|
  {
    tokens == [] ||
    match doc
    case Obj(fields) => tokens[0] in fields ==> MapsNothing(fields[tokens[0]], tokens[1..])
    case Arr(items) =>
      && tokens[0] != "*"
      && var i := ArrayIndex(tokens[0], |items|);
      && (i.Some? ==> MapsNothing(items[i.value], tokens[1..]))
    case _ => true
  }

  // One token into an object or an array.
  predicate Child(doc: Json, token: string, v: Json) {
    || (doc.Obj? && token in doc.fields && doc.fields[token] == v)
    || (doc.Arr? && var i := ArrayIndex(token, |doc.items|); i.Some? && doc.items[i.value] == v)
  }

  predicate IsWalk(walk: seq<Json>, tokens: seq<string>) {
    |walk| == |tokens| + 1 && forall i | 0 <= i < |tokens| :: Child(walk[i], tokens[i], walk[i + 1])
  }

  /** Where no array is mapped, a path selects a value exactly when its tokens walk from the document
      to it, each step into a member or an element; in particular no token steps into a scalar. */
  lemma {:induction false} WalkExact(doc: Json, tokens: seq<string>, v: Json)
    requires MapsNothing(doc, tokens)
    ensures EvalTokens(doc, tokens) == Some(v) <==>
              exists walk :: IsWalk(walk, tokens) && walk[0] == doc && walk[|tokens|] == v
    decreases |tokens|
  {
    if tokens == [] {
      assert IsWalk([doc], tokens);
    } else {
      forall next | Child(doc, tokens[0], next)
        ensures MapsNothing(next, tokens[1..]) && EvalTokens(doc, tokens) == EvalTokens(next, tokens[1..])
      {
      }
      if EvalTokens(doc, tokens) == Some(v) {
        var next := if doc.Obj? then doc.fields[tokens[0]] else doc.items[ArrayIndex(tokens[0], |doc.items|).value];
        WalkExact(next, tokens[1..], v);
        var rest :| IsWalk(rest, tokens[1..]) && rest[0] == next && rest[|tokens| - 1] == v;
        assert IsWalk([doc] + rest, tokens);
      }
      if walk :| IsWalk(walk, tokens) && walk[0] == doc && walk[|tokens|] == v {
        WalkTail(walk, tokens);
        WalkExact(walk[1], tokens[1..], v);
        assert IsWalk(walk[1..], tokens[1..]) && walk[1..][0] == walk[1] && walk[1..][|tokens| - 1] == v;
      }
    }
  }

  lemma WalkTail(walk: seq<Json>, tokens: seq<string>)
    requires IsWalk(walk, tokens) && tokens != []
    ensures Child(walk[0], tokens[0], walk[1]) && IsWalk(walk[1..], tokens[1..])
  {
  }

  /** Evaluating p and then q is evaluating p followed by q, whenever p maps through no array. As
      an object key "*" is an ordinary name. */
  lemma {:induction false} PathsCompose(doc: Json, p: seq<string>, q: seq<string>)
    requires MapsNothing(doc, p)
    ensures EvalTokens(doc, p + q) == match EvalTokens(doc, p)
                                      case None => None
                                      case Some(v) => EvalTokens(v, q)
    decreases |p|
  {
    if p == [] {
      assert p + q == q;
    } else {
      assert (p + q)[1..] == p[1..] + q;
      match doc
      case Obj(fields) =>
        if p[0] in fields {
          PathsCompose(fields[p[0]], p[1..], q);
        }
      case Arr(items) =>
        var i := ArrayIndex(p[0], |items|);
        if i.Some? {
          PathsCompose(items[i.value], p[1..], q);
        }
      case _ =>
    }
  }

  /** Through a mapped array composition fails: on [["a"]], the token "*" and then the token "0"
      give the string, while both tokens in one path give the array of it. */
  lemma MappingDoesNotCompose()
    ensures var doc := Arr([Arr([Str("a")])]);
            && EvalTokens(doc, ["*"] + ["0"]) == Some(Arr([Str("a")]))
            && EvalTokens(doc, ["*"]) == Some(Arr([Str("a")]))
            && EvalTokens(Arr([Str("a")]), ["0"]) == Some(Str("a"))
  {
    var inner := Arr([Str("a")]);
    DecimalValue(0);
    assert Decimal(0) == "0";
    UnsignedIndex("0", 1, 0);
    assert EvalTokens(inner, ["0"]) == EvalTokens(Str("a"), ["0"][1..]);
    StarAllOrNothing([inner], ["0"]);
    StarAllOrNothing([inner], []);
    assert ["*"] + [] == ["*"];
  }
}
