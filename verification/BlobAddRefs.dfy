/**
 AddRefs against AddRef in a loop.

 AddRefs groups its references by blob and visits the blobs in sorted hash order, so it
 performs different statements in a different order from adding the references one at a
 time as they arrive. Both are tied to one reference definition of the outcome, which
 names for each reference row the first claim that asked for it.
 */
module BlobAddRefs {
  import opened Prelude
  import opened BlobTables
  import opened Sorting
  import BlobLocks

  // ---------------------------------------------------------------------------
  // One at a time, in arrival order
  // ---------------------------------------------------------------------------

  // AddRef: None is ErrNotFound.
  function AddOne(t: Tables, r: Ref, now: Time): Option<Tables> {
    var op := Add(r.hash, [r.claim]);
    if Finds(op, t) then Some(Apply(op, t, now)) else None
  }

  function AddFold(t: Tables, refs: seq<Ref>, now: Time): Option<Tables> {
    if refs == [] then Some(t)
    else
      match AddFold(t, refs[..|refs| - 1], now)
      case None => None
      case Some(t') => AddOne(t', refs[|refs| - 1], now)
  }

  // ---------------------------------------------------------------------------
  // Grouped by blob, in sorted order
  // ---------------------------------------------------------------------------

  // The distinct hashes in order of first arrival: the slice `order` before it is sorted.
  function Order(refs: seq<Ref>): seq<Hash> {
    if refs == [] then []
    else
      var front, h := Order(refs[..|refs| - 1]), refs[|refs| - 1].hash;
      if h in front then front else front + [h]
  }

  // The group of one blob: byHash[h], in arrival order.
  function ClaimsOf(refs: seq<Ref>, h: Hash): seq<Claim> {
    if refs == [] then []
    else
      var front, last := ClaimsOf(refs[..|refs| - 1], h), refs[|refs| - 1];
      if last.hash == h then front + [last.claim] else front
  }

  // The operations AddRefs performs when it visits the blobs `hs` in turn.
  function Groups(refs: seq<Ref>, hs: seq<Hash>): seq<Op> {
    seq(|hs|, i requires 0 <= i < |hs| => Add(hs[i], ClaimsOf(refs, hs[i])))
  }

  // order, sorted by bytes.Compare.
  function Program(refs: seq<Ref>): seq<Op> {
    Groups(refs, Sort(Order(refs)))
  }

  // ---------------------------------------------------------------------------
  // Sorting gives the lock order
  // ---------------------------------------------------------------------------

  lemma {:induction false} OrderFacts(refs: seq<Ref>)
    ensures Distinct(Order(refs))
    ensures forall h :: h in Order(refs) <==> exists r :: r in refs && r.hash == h
    decreases |refs|
  {
    if refs != [] {
      OrderFacts(refs[..|refs| - 1]);
      assert refs == refs[..|refs| - 1] + [refs[|refs| - 1]];
    }
  }

  /** AddRefs asks for its locks in strictly increasing hash order, each once. */
  lemma ProgramIsOrdered(refs: seq<Ref>)
    ensures BlobLocks.Ordered(Program(refs))
  {
    OrderFacts(refs);
    SortFacts(Order(refs));
  }

  // ---------------------------------------------------------------------------
  // The reference outcome
  // ---------------------------------------------------------------------------

  // The first claim that asks for the row k.
  function First(refs: seq<Ref>, k: RefKey): Option<Claim> {
    if refs == [] then None
    else
      var front, last := First(refs[..|refs| - 1], k), refs[|refs| - 1];
      if front.Some? then front
      else if RefKey(last.hash, last.claim.kind, last.claim.owner) == k then Some(last.claim)
      else None
  }

  predicate Mentions(refs: seq<Ref>, h: Hash) {
    exists i | 0 <= i < |refs| :: refs[i].hash == h
  }

  // Existing reference rows survive untouched; a new row carries the account of the first
  // claim for it; a blob that was mentioned counts its rows and is no longer stamped.
  ghost predicate RowsAre(t: Tables, refs: seq<Ref>, now: Time, t': Tables) {
    forall k :: if k in t.refs then k in t'.refs && t'.refs[k] == t.refs[k]
                else match First(refs, k)
                     case None => k !in t'.refs
                     case Some(c) => k in t'.refs && t'.refs[k] == RefRow(c.account, now)
  }

  function Counted(row: BlobRow, n: nat): BlobRow {
    row.(refcount := n, zeroSince := None)
  }

  predicate BlobsAre(t: Tables, refs: seq<Ref>, t': Tables) {
    && t'.blobs.Keys == t.blobs.Keys
    && forall h | h in t.blobs ::
         t'.blobs[h] == if Mentions(refs, h) then Counted(t.blobs[h], |RefsOf(t'.refs, h)|) else t.blobs[h]
  }

  ghost predicate Outcome(t: Tables, refs: seq<Ref>, now: Time, t': Tables) {
    RowsAre(t, refs, now, t') && BlobsAre(t, refs, t')
  }

  // The outcome is one definite pair of tables.
  lemma OutcomeUnique(t: Tables, refs: seq<Ref>, now: Time, a: Tables, b: Tables)
    requires Outcome(t, refs, now, a) && Outcome(t, refs, now, b)
    ensures a == b
  {
    forall k | k in a.refs || k in b.refs
      ensures k in a.refs && k in b.refs && a.refs[k] == b.refs[k]
    {
    }
    assert a.refs == b.refs;
    assert a.blobs == b.blobs;
  }

  lemma {:induction false} FirstOfJoin(a: seq<Ref>, b: seq<Ref>, k: RefKey)
    ensures First(a + b, k) == if First(a, k).Some? then First(a, k) else First(b, k)
    decreases |b|
  {
    if b == [] {
      assert a + b == a;
    } else {
      assert (a + b)[..|a + b| - 1] == a + b[..|b| - 1];
      FirstOfJoin(a, b[..|b| - 1], k);
    }
  }

  lemma {:induction false} FirstNeedsMention(refs: seq<Ref>, k: RefKey)
    ensures First(refs, k).Some? ==> Mentions(refs, k.hash)
    decreases |refs|
  {
    if refs != [] {
      FirstNeedsMention(refs[..|refs| - 1], k);
      if Mentions(refs[..|refs| - 1], k.hash) {
        var i :| 0 <= i < |refs| - 1 && refs[..|refs| - 1][i].hash == k.hash;
        assert refs[i].hash == k.hash;
      }
    }
  }

  lemma MentionsOfJoin(a: seq<Ref>, b: seq<Ref>, h: Hash)
    ensures Mentions(a + b, h) <==> Mentions(a, h) || Mentions(b, h)
  {
    if Mentions(a, h) {
      var i :| 0 <= i < |a| && a[i].hash == h;
      assert (a + b)[i].hash == h;
    }
    if Mentions(b, h) {
      var i :| 0 <= i < |b| && b[i].hash == h;
      assert (a + b)[|a| + i].hash == h;
    }
  }

  lemma UnmentionedRows(t: Tables, refs: seq<Ref>, now: Time, t': Tables, h: Hash)
    requires RowsAre(t, refs, now, t') && !Mentions(refs, h)
    ensures RefsOf(t'.refs, h) == RefsOf(t.refs, h)
  {
    forall k | k in RefsOf(t'.refs, h)
      ensures k in t.refs
    {
      FirstNeedsMention(refs, k);
    }
  }

  /** Outcomes compose: first `a`, then `b`, is the outcome of both together. */
  lemma OutcomeCompose(t: Tables, a: seq<Ref>, t1: Tables, b: seq<Ref>, t2: Tables, now: Time)
    requires Outcome(t, a, now, t1) && Outcome(t1, b, now, t2)
    ensures Outcome(t, a + b, now, t2)
  {
    forall k
      ensures First(a + b, k) == if First(a, k).Some? then First(a, k) else First(b, k)
    {
      FirstOfJoin(a, b, k);
    }
    forall h | h in t.blobs
      ensures t2.blobs[h] == if Mentions(a + b, h) then Counted(t.blobs[h], |RefsOf(t2.refs, h)|) else t.blobs[h]
    {
      MentionsOfJoin(a, b, h);
      if !Mentions(b, h) {
        UnmentionedRows(t1, b, now, t2, h);
      }
    }
  }

  // ---------------------------------------------------------------------------
  // Both ways of adding reach the outcome
  // ---------------------------------------------------------------------------

  function Tag(h: Hash, claims: seq<Claim>): seq<Ref> {
    seq(|claims|, i requires 0 <= i < |claims| => Ref(h, claims[i]))
  }

  lemma {:induction false} InsertAllRows(refs: map<RefKey, RefRow>, h: Hash, claims: seq<Claim>, now: Time, k: RefKey)
    ensures k in InsertAll(refs, h, claims, now) <==> k in refs || First(Tag(h, claims), k).Some?
    ensures k in refs ==> InsertAll(refs, h, claims, now)[k] == refs[k]
    ensures k !in refs && First(Tag(h, claims), k).Some? ==>
              InsertAll(refs, h, claims, now)[k] == RefRow(First(Tag(h, claims), k).value.account, now)
    decreases |claims|
  {
    if claims != [] {
      var front := claims[..|claims| - 1];
      InsertAllRows(refs, h, front, now, k);
      assert Tag(h, claims)[..|claims| - 1] == Tag(h, front);
    }
  }

  /** One Add reaches the outcome of its claims. */
  lemma AddOutcome(t: Tables, h: Hash, claims: seq<Claim>, now: Time)
    requires h in t.blobs && claims != []
    ensures Outcome(t, Tag(h, claims), now, Apply(Add(h, claims), t, now))
  {
    var t' := Apply(Add(h, claims), t, now);
    forall k
      ensures k in t'.refs <==> k in t.refs || First(Tag(h, claims), k).Some?
      ensures k in t.refs ==> t'.refs[k] == t.refs[k]
      ensures k !in t.refs && First(Tag(h, claims), k).Some? ==>
                t'.refs[k] == RefRow(First(Tag(h, claims), k).value.account, now)
    {
      InsertAllRows(t.refs, h, claims, now, k);
    }
    assert Tag(h, claims)[0].hash == h;
    AddedIsCounted(t, h, claims, now);
  }

  lemma AddedIsCounted(t: Tables, h: Hash, claims: seq<Claim>, now: Time)
    requires claims != []
    ensures |RefsOf(InsertAll(t.refs, h, claims, now), h)| > 0
  {
    var last := claims[|claims| - 1];
    assert RefKey(h, last.kind, last.owner) in RefsOf(InsertAll(t.refs, h, claims, now), h);
  }

  lemma {:induction false} FoldOutcome(t: Tables, refs: seq<Ref>, now: Time)
    ensures AddFold(t, refs, now).Some? <==> forall r | r in refs :: r.hash in t.blobs
    ensures AddFold(t, refs, now).Some? ==> Outcome(t, refs, now, AddFold(t, refs, now).value)
    decreases |refs|
  {
    if refs != [] {
      var front, last := refs[..|refs| - 1], refs[|refs| - 1];
      FoldOutcome(t, front, now);
      assert refs == front + [last];
      if AddFold(t, refs, now).Some? {
        var t1 := AddFold(t, front, now).value;
        AddOutcome(t1, last.hash, [last.claim], now);
        assert Tag(last.hash, [last.claim]) == [last];
        OutcomeCompose(t, front, t1, [last], AddFold(t, refs, now).value, now);
      }
    }
  }

  // The references in the order in which the groups visit them.
  function Visited(refs: seq<Ref>, hs: seq<Hash>): seq<Ref> {
    if hs == [] then []
    else Visited(refs, hs[..|hs| - 1]) + Tag(hs[|hs| - 1], ClaimsOf(refs, hs[|hs| - 1]))
  }

  lemma {:induction false} GroupsOutcome(t: Tables, refs: seq<Ref>, hs: seq<Hash>, now: Time)
    requires forall h | h in hs :: ClaimsOf(refs, h) != []
    ensures Performs(Groups(refs, hs), t, now) <==> forall h | h in hs :: h in t.blobs
    ensures Performs(Groups(refs, hs), t, now) ==>
              Outcome(t, Visited(refs, hs), now, ApplyAll(Groups(refs, hs), t, now))
    decreases |hs|
  {
    if hs != [] {
      var front, h := hs[..|hs| - 1], hs[|hs| - 1];
      GroupsOutcome(t, refs, front, now);
      assert hs == front + [h];
      assert Groups(refs, hs) == Groups(refs, front) + [Add(h, ClaimsOf(refs, h))];
      ApplyAllAppend(Groups(refs, front), Add(h, ClaimsOf(refs, h)), t, now);
      if Performs(Groups(refs, hs), t, now) {
        var t1 := ApplyAll(Groups(refs, front), t, now);
        AddOutcome(t1, h, ClaimsOf(refs, h), now);
        OutcomeCompose(t, Visited(refs, front), t1, Tag(h, ClaimsOf(refs, h)), ApplyAll(Groups(refs, hs), t, now), now);
      }
    }
  }

  // ---------------------------------------------------------------------------
  // Regrouping changes neither the first claim of a row nor which blobs are mentioned
  // ---------------------------------------------------------------------------

  lemma {:induction false} GroupKeepsFirst(refs: seq<Ref>, h: Hash, k: RefKey)
    ensures First(Tag(h, ClaimsOf(refs, h)), k) == if k.hash == h then First(refs, k) else None
    ensures ClaimsOf(refs, h) != [] <==> Mentions(refs, h)
    decreases |refs|
  {
    if refs != [] {
      var front, last := refs[..|refs| - 1], refs[|refs| - 1];
      GroupKeepsFirst(front, h, k);
      assert refs == front + [last];
      MentionsOfJoin(front, [last], h);
      assert [last][0].hash == last.hash;
      if last.hash == h {
        var cs := ClaimsOf(refs, h);
        assert Tag(h, cs)[..|cs| - 1] == Tag(h, ClaimsOf(front, h));
      }
    }
  }

  lemma {:induction false} VisitedKeepsFirst(refs: seq<Ref>, hs: seq<Hash>, k: RefKey)
    ensures First(Visited(refs, hs), k) == if k.hash in hs then First(refs, k) else None
    decreases |hs|
  {
    if hs != [] {
      var front, h := hs[..|hs| - 1], hs[|hs| - 1];
      VisitedKeepsFirst(refs, front, k);
      assert hs == front + [h];
      GroupKeepsFirst(refs, h, k);
      FirstOfJoin(Visited(refs, front), Tag(h, ClaimsOf(refs, h)), k);
    }
  }

  lemma {:induction false} VisitedMentions(refs: seq<Ref>, hs: seq<Hash>, g: Hash)
    ensures Mentions(Visited(refs, hs), g) <==> g in hs && Mentions(refs, g)
    decreases |hs|
  {
    if hs != [] {
      var front, h := hs[..|hs| - 1], hs[|hs| - 1];
      VisitedMentions(refs, front, g);
      assert hs == front + [h];
      GroupKeepsFirst(refs, h, RefKey(h, Message, 0));
      MentionsOfJoin(Visited(refs, front), Tag(h, ClaimsOf(refs, h)), g);
      if g == h && Mentions(refs, g) {
        assert Tag(h, ClaimsOf(refs, h))[0].hash == h;
      }
    }
  }

  lemma ProgramCovers(refs: seq<Ref>, h: Hash)
    ensures h in Sort(Order(refs)) <==> Mentions(refs, h)
  {
    OrderFacts(refs);
    SortFacts(Order(refs));
    if Mentions(refs, h) {
      var i :| 0 <= i < |refs| && refs[i].hash == h;
      assert refs[i] in refs;
    }
  }

  lemma RegroupedOutcome(t: Tables, refs: seq<Ref>, now: Time, t': Tables)
    requires Outcome(t, Visited(refs, Sort(Order(refs))), now, t')
    ensures Outcome(t, refs, now, t')
  {
    var hs := Sort(Order(refs));
    forall k
      ensures First(Visited(refs, hs), k) == First(refs, k)
    {
      VisitedKeepsFirst(refs, hs, k);
      ProgramCovers(refs, k.hash);
      FirstNeedsMention(refs, k);
    }
    forall h
      ensures Mentions(Visited(refs, hs), h) <==> Mentions(refs, h)
    {
      VisitedMentions(refs, hs, h);
      ProgramCovers(refs, h);
    }
  }

  /** AddRefs, grouped and in sorted order, fails exactly when adding the references one at a
      time in arrival order fails, and otherwise leaves exactly the same two tables. */
  lemma GroupedEqualsOneAtATime(t: Tables, refs: seq<Ref>, now: Time)
    ensures Performs(Program(refs), t, now) <==> AddFold(t, refs, now).Some?
    ensures Performs(Program(refs), t, now) ==> AddFold(t, refs, now) == Some(ApplyAll(Program(refs), t, now))
    ensures Performs(Program(refs), t, now) <==> forall r | r in refs :: r.hash in t.blobs
  {
    var hs := Sort(Order(refs));
    forall h
      ensures h in hs <==> Mentions(refs, h)
      ensures h in hs ==> ClaimsOf(refs, h) != []
    {
      ProgramCovers(refs, h);
      GroupKeepsFirst(refs, h, RefKey(h, Message, 0));
    }
    GroupsOutcome(t, refs, hs, now);
    FoldOutcome(t, refs, now);
    forall r | r in refs
      ensures r.hash in hs
    {
      var i :| 0 <= i < |refs| && refs[i] == r;
      assert Mentions(refs, r.hash);
    }
    if Performs(Program(refs), t, now) {
      var t' := ApplyAll(Program(refs), t, now);
      RegroupedOutcome(t, refs, now, t');
      OutcomeUnique(t, refs, now, t', AddFold(t, refs, now).value);
    }
  }
}
