/**
 The credential cache over whole histories.

 `Since` is the reference: it reads the history backwards from now and knows nothing of buckets,
 slices or eviction. `CheckSound` needs no assumption on the clock; `CheckExact` needs one that
 never runs back and separates the user's puts, and `TiesEvictTheWrongPair` shows the separation is needed.
 */
module AuthHistory {
  import opened Prelude
  import opened AuthCache

  datatype Event =
    | Put(user: string, pass: string, at: Time)
    | Check(user: string, pass: string, at: Time)
    | InvalidateUser(user: string, at: Time)
    | InvalidateAll(at: Time)

  datatype Config = Config(mac: Macs, ttl: Time)

  function Act(cfg: Config, c: Cache, e: Event): Cache {
    match e
    case Put(u, p, at) => c[u := PutBucket(Bucket(c, u), cfg.mac(u, p), at + cfg.ttl)]
    case Check(u, _, at) => CheckCache(c, u, at)
    case InvalidateUser(u, _) => c - {u}
    case InvalidateAll(_) => map[]
  }

  function After(cfg: Config, events: seq<Event>): Cache {
    if events == [] then map[]
    else Act(cfg, After(cfg, events[..|events| - 1]), events[|events| - 1])
  }

  predicate Answers(cfg: Config, events: seq<Event>, user: string, pass: string, now: Time) {
    HasMac(Unexpired(Bucket(After(cfg, events), user), now), cfg.mac(user, pass))
  }

  // ---------------------------------------------------------------------------
  // The reference: reading the history backwards
  // ---------------------------------------------------------------------------

  // When the pair was last put, and which other passwords of the user were put after that.
  datatype Standing = Standing(at: Time, others: set<string>)

  function Since(events: seq<Event>, user: string, pass: string): Option<Standing> {
    if events == [] then None
    else
      var before := Since(events[..|events| - 1], user, pass);
      match events[|events| - 1]
      case Put(u, p, at) =>
        if u != user || (before.None? && p != pass) then before
        else if p == pass then Some(Standing(at, {}))
        else Some(before.value.(others := before.value.others + {p}))
      case Check(_, _, _) => before
      case InvalidateUser(u, _) => if u == user then None else before
      case InvalidateAll(_) => None
  }

  // Time never runs back, and no two puts of the user share an instant.
  predicate Clock(events: seq<Event>, user: string) {
    forall i, j | 0 <= i < j < |events| ::
      && events[i].at <= events[j].at
      && (PutOf(events[i], user) && PutOf(events[j], user) ==> events[i].at < events[j].at)
  }

  predicate PutOf(e: Event, user: string) {
    e.Put? && e.user == user
  }

  predicate Until(events: seq<Event>, now: Time) {
    forall i | 0 <= i < |events| :: events[i].at <= now
  }

  // ---------------------------------------------------------------------------
  // Buckets stay small and free of duplicates; every entry is some standing put
  // ---------------------------------------------------------------------------

  // One event's effect on one user's bucket.
  function BucketAct(cfg: Config, bucket: seq<Entry>, user: string, e: Event): seq<Entry> {
    match e
    case Put(u, p, at) => if u == user then PutBucket(bucket, cfg.mac(u, p), at + cfg.ttl) else bucket
    case Check(u, _, at) => if u == user then Unexpired(bucket, at) else bucket
    case InvalidateUser(u, _) => if u == user then [] else bucket
    case InvalidateAll(_) => []
  }

  lemma ActOnBucket(cfg: Config, c: Cache, user: string, e: Event)
    ensures Bucket(Act(cfg, c, e), user) == BucketAct(cfg, Bucket(c, user), user, e)
  {
  }

  predicate DistinctMacs(bucket: seq<Entry>) {
    forall i, j | 0 <= i < j < |bucket| :: bucket[i].mac != bucket[j].mac
  }

  lemma {:induction false} UnexpiredFacts(bucket: seq<Entry>, now: Time)
    ensures |Unexpired(bucket, now)| <= |bucket|
    ensures forall e :: e in Unexpired(bucket, now) <==> e in bucket && now <= e.expires
    ensures DistinctMacs(bucket) ==> DistinctMacs(Unexpired(bucket, now))
  {
    if bucket == [] {
    } else {
      var n := |bucket| - 1;
      UnexpiredFacts(bucket[..n], now);
      assert bucket == bucket[..n] + [bucket[n]];
    }
  }

  lemma PutBounded(bucket: seq<Entry>, mac: Mac, expires: Time)
    requires |bucket| <= MAX_PER_USER && DistinctMacs(bucket)
    ensures |PutBucket(bucket, mac, expires)| <= MAX_PER_USER && DistinctMacs(PutBucket(bucket, mac, expires))
  {
  }

  lemma {:induction false} Bounded(cfg: Config, events: seq<Event>, user: string)
    ensures |Bucket(After(cfg, events), user)| <= MAX_PER_USER
    ensures DistinctMacs(Bucket(After(cfg, events), user))
    decreases |events|
  {
    if events == [] {
    } else {
      var front, last := events[..|events| - 1], events[|events| - 1];
      Bounded(cfg, front, user);
      ActOnBucket(cfg, After(cfg, front), user, last);
      UnexpiredFacts(Bucket(After(cfg, front), user), last.at);
      if last.Put? {
        PutBounded(Bucket(After(cfg, front), user), cfg.mac(last.user, last.pass), last.at + cfg.ttl);
      }
    }
  }

  ghost predicate Stands(cfg: Config, events: seq<Event>, user: string, e: Entry) {
    exists p ::
      && e.mac == cfg.mac(user, p)
      && Since(events, user, p).Some?
      && e.expires == Since(events, user, p).value.at + cfg.ttl
  }

  lemma {:induction false} EntriesStand(cfg: Config, events: seq<Event>, user: string)
    requires CollisionFree(cfg.mac)
    ensures forall e | e in Bucket(After(cfg, events), user) :: Stands(cfg, events, user, e)
    decreases |events|
  {
    if events == [] {
    } else {
      var front, last := events[..|events| - 1], events[|events| - 1];
      EntriesStand(cfg, front, user);
      Bounded(cfg, front, user);
      forall e | e in Bucket(After(cfg, events), user)
        ensures Stands(cfg, events, user, e)
      {
        StandsStep(cfg, events, user, e);
      }
    }
  }

  lemma PutMembers(bucket: seq<Entry>, mac: Mac, expires: Time, e: Entry)
    requires DistinctMacs(bucket) && e in PutBucket(bucket, mac, expires)
    ensures e == Entry(mac, expires) || (e in bucket && e.mac != mac)
  {
    var put := PutBucket(bucket, mac, expires);
    var x :| 0 <= x < |put| && put[x] == e;
    if HasMac(bucket, mac) {
      assert bucket[IndexOfMac(bucket, mac)].mac == mac;
    }
  }

  lemma StandsStep(cfg: Config, events: seq<Event>, user: string, e: Entry)
    requires CollisionFree(cfg.mac) && events != []
    requires var front := events[..|events| - 1];
             && DistinctMacs(Bucket(After(cfg, front), user))
             && forall f | f in Bucket(After(cfg, front), user) :: Stands(cfg, front, user, f)
    requires e in Bucket(After(cfg, events), user)
    ensures Stands(cfg, events, user, e)
  {
    var front, last := events[..|events| - 1], events[|events| - 1];
    var bucket := Bucket(After(cfg, front), user);
    ActOnBucket(cfg, After(cfg, front), user, last);
    UnexpiredFacts(bucket, last.at);
    if last.Put? && last.user == user {
      PutMembers(bucket, cfg.mac(user, last.pass), last.at + cfg.ttl, e);
    }
    if last.Put? && last.user == user && e == Entry(cfg.mac(user, last.pass), last.at + cfg.ttl) {
      assert Since(events, user, last.pass).Some?;
    } else {
      StillStands(cfg, events, user, e);
    }
  }

  lemma StillStands(cfg: Config, events: seq<Event>, user: string, e: Entry)
    requires events != [] && Stands(cfg, events[..|events| - 1], user, e)
    requires match events[|events| - 1]
             case Put(u, p, _) => u == user ==> e.mac != cfg.mac(user, p)
             case Check(_, _, _) => true
             case InvalidateUser(u, _) => u != user
             case InvalidateAll(_) => false
    ensures Stands(cfg, events, user, e)
  {
    var front := events[..|events| - 1];
    var p :| e.mac == cfg.mac(user, p) && Since(front, user, p).Some?
             && e.expires == Since(front, user, p).value.at + cfg.ttl;
    assert Since(events, user, p).Some?;
  }

  /** A positive answer names a pair that was put, never invalidated since, and is within its TTL. */
  lemma CheckSound(cfg: Config, events: seq<Event>, user: string, pass: string, now: Time)
    requires CollisionFree(cfg.mac)
    requires Answers(cfg, events, user, pass, now)
    ensures Since(events, user, pass).Some?
    ensures now <= Since(events, user, pass).value.at + cfg.ttl
  {
    var bucket := Bucket(After(cfg, events), user);
    EntriesStand(cfg, events, user);
    UnexpiredFacts(bucket, now);
    var kept := Unexpired(bucket, now);
    var i :| 0 <= i < |kept| && kept[i].mac == cfg.mac(user, pass);
    assert kept[i] in bucket;
  }

  // ---------------------------------------------------------------------------
  // The user's passwords by recency of their last put
  // ---------------------------------------------------------------------------

  datatype Recent = Recent(pass: string, at: Time)

  function Without(l: seq<Recent>, pass: string): seq<Recent> {
    if l == [] then []
    else if l[0].pass == pass then Without(l[1..], pass)
    else [l[0]] + Without(l[1..], pass)
  }

  // The list after a put of `pass`.
  function Moved(l: seq<Recent>, pass: string, at: Time): seq<Recent> {
    [Recent(pass, at)] + Without(l, pass)
  }

  function Recency(events: seq<Event>, user: string): seq<Recent> {
    if events == [] then []
    else
      var before := Recency(events[..|events| - 1], user);
      match events[|events| - 1]
      case Put(u, p, at) => if u == user then Moved(before, p, at) else before
      case Check(_, _, _) => before
      case InvalidateUser(u, _) => if u == user then [] else before
      case InvalidateAll(_) => []
  }

  // Latest first, each password once.
  predicate Ranked(l: seq<Recent>) {
    forall i, j | 0 <= i < j < |l| :: l[i].pass != l[j].pass && l[i].at > l[j].at
  }

  predicate Absent(l: seq<Recent>, pass: string) {
    forall i | 0 <= i < |l| :: l[i].pass != pass
  }

  lemma {:induction false} WithoutAbsent(l: seq<Recent>, pass: string)
    requires Absent(l, pass)
    ensures Without(l, pass) == l
  {
    if l == [] {
    } else {
      WithoutAbsent(l[1..], pass);
    }
  }

  lemma {:induction false} WithoutAt(l: seq<Recent>, i: nat)
    requires Ranked(l) && i < |l|
    ensures Without(l, l[i].pass) == l[..i] + l[i + 1..]
  {
    if i == 0 {
      WithoutAbsent(l[1..], l[0].pass);
    } else {
      var rest := l[1..];
      RankedTail(l);
      assert rest[i - 1] == l[i] && l[0].pass != l[i].pass;
      WithoutAt(rest, i - 1);
      assert l[..i] + l[i + 1..] == [l[0]] + (rest[..i - 1] + rest[i..]);
    }
  }

  lemma RankedTail(l: seq<Recent>)
    requires Ranked(l) && l != []
    ensures Ranked(l[1..])
  {
  }

  lemma MovedPresent(l: seq<Recent>, i: nat, at: Time)
    requires Ranked(l) && i < |l|
    ensures var m := Moved(l, l[i].pass, at);
            && |m| == |l| && m[0] == Recent(l[i].pass, at)
            && (forall x | 0 < x <= i :: m[x] == l[x - 1])
            && (forall x | i < x < |l| :: m[x] == l[x])
  {
    WithoutAt(l, i);
  }

  lemma MovedAbsent(l: seq<Recent>, pass: string, at: Time)
    requires Absent(l, pass)
    ensures Moved(l, pass, at) == [Recent(pass, at)] + l
  {
    WithoutAbsent(l, pass);
  }

  lemma MovedRanked(l: seq<Recent>, pass: string, at: Time)
    requires Ranked(l) && forall i | 0 <= i < |l| :: l[i].at < at
    ensures Ranked(Moved(l, pass, at))
    ensures forall x | 0 <= x < |Moved(l, pass, at)| :: Moved(l, pass, at)[x].at == at || Moved(l, pass, at)[x] in l
  {
    if i :| 0 <= i < |l| && l[i].pass == pass {
      MovedPresent(l, i, at);
    } else {
      MovedAbsent(l, pass, at);
    }
  }

  ghost predicate PutAt(events: seq<Event>, user: string, at: Time) {
    exists j :: 0 <= j < |events| && PutOf(events[j], user) && events[j].at == at
  }

  lemma PutsBefore(events: seq<Event>, user: string, at: Time)
    requires Clock(events, user) && events != [] && PutAt(events[..|events| - 1], user, at)
    ensures PutAt(events, user, at)
    ensures PutOf(events[|events| - 1], user) ==> at < events[|events| - 1].at
  {
    var front := events[..|events| - 1];
    var j :| 0 <= j < |front| && PutOf(front[j], user) && front[j].at == at;
    assert events[j] == front[j];
  }

  lemma {:induction false} RecencyRanked(events: seq<Event>, user: string)
    requires Clock(events, user)
    ensures Ranked(Recency(events, user))
    ensures forall r | r in Recency(events, user) :: PutAt(events, user, r.at)
    decreases |events|
  {
    if events == [] {
    } else {
      var front, last := events[..|events| - 1], events[|events| - 1];
      var l := Recency(front, user);
      RecencyRanked(front, user);
      forall r | r in l
        ensures PutAt(events, user, r.at) && (PutOf(last, user) ==> r.at < last.at)
      {
        PutsBefore(events, user, r.at);
      }
      if last.Put? && last.user == user {
        MovedRanked(l, last.pass, last.at);
        assert PutAt(events, user, last.at);
      }
    }
  }

  // The passwords ranked above `i`.
  function Above(l: seq<Recent>, i: nat): set<string>
    requires i <= |l|
  {
    set j | 0 <= j < i :: l[j].pass
  }

  lemma {:induction false} AboveSize(l: seq<Recent>, i: nat)
    requires Ranked(l) && i <= |l|
    ensures |Above(l, i)| == i
  {
    if i == 0 {
    } else {
      AboveSize(l, i - 1);
      assert Above(l, i) == Above(l, i - 1) + {l[i - 1].pass};
    }
  }

  // The reference's standing of a password is its rank in the recency list.
  ghost predicate RankedAs(s: Option<Standing>, pass: string, l: seq<Recent>) {
    match s
    case None => Absent(l, pass)
    case Some(s) => exists i :: 0 <= i < |l| && l[i] == Recent(pass, s.at) && s.others == Above(l, i)
  }

  lemma {:induction false} SinceIsRank(events: seq<Event>, user: string, pass: string)
    requires Clock(events, user)
    ensures RankedAs(Since(events, user, pass), pass, Recency(events, user))
    decreases |events|
  {
    if events == [] {
    } else {
      var front, last := events[..|events| - 1], events[|events| - 1];
      var l := Recency(front, user);
      SinceIsRank(front, user, pass);
      RecencyRanked(front, user);
      if last.Put? && last.user == user {
        if last.pass == pass {
          assert Recency(events, user)[0] == Recent(pass, last.at);
        } else {
          match Since(front, user, pass)
          case None => AbsentAfterOther(l, pass, last.pass, last.at);
          case Some(s) => RankAfterOther(l, pass, s, last.pass, last.at);
        }
      }
    }
  }

  lemma AbsentAfterOther(l: seq<Recent>, pass: string, other: string, at: Time)
    requires Ranked(l) && Absent(l, pass) && other != pass
    ensures Absent(Moved(l, other, at), pass)
  {
    if j :| 0 <= j < |l| && l[j].pass == other {
      MovedPresent(l, j, at);
    } else {
      MovedAbsent(l, other, at);
    }
  }

  lemma RankAfterOther(l: seq<Recent>, pass: string, s: Standing, other: string, at: Time)
    requires Ranked(l) && RankedAs(Some(s), pass, l) && other != pass
    ensures RankedAs(Some(s.(others := s.others + {other})), pass, Moved(l, other, at))
  {
    var i :| 0 <= i < |l| && l[i] == Recent(pass, s.at) && s.others == Above(l, i);
    var m := Moved(l, other, at);
    if j :| 0 <= j < |l| && l[j].pass == other {
      MovedPresent(l, j, at);
      var k := if i < j then i + 1 else i;
      AboveMoved(l, i, j, at);
      assert m[k] == Recent(pass, s.at);
    } else {
      MovedAbsent(l, other, at);
      AboveAdded(l, i, Recent(other, at));
      assert m[i + 1] == l[i];
    }
  }

  lemma AboveAdded(l: seq<Recent>, i: nat, r: Recent)
    requires i < |l|
    ensures Above([r] + l, i + 1) == Above(l, i) + {r.pass}
  {
    var m := [r] + l;
    assert m[0] == r;
    forall p | p in Above(l, i)
      ensures p in Above(m, i + 1)
    {
      var x :| 0 <= x < i && l[x].pass == p;
      assert m[x + 1].pass == p;
    }
  }

  lemma AboveMoved(l: seq<Recent>, i: nat, j: nat, at: Time)
    requires Ranked(l) && i < |l| && j < |l| && i != j
    ensures var m := Moved(l, l[j].pass, at);
            var k := if i < j then i + 1 else i;
            k < |m| && Above(m, k) == Above(l, i) + {l[j].pass}
  {
    MovedPresent(l, j, at);
    var m := Moved(l, l[j].pass, at);
    var k := if i < j then i + 1 else i;
    assert m[0].pass == l[j].pass;
    forall p
      ensures p in Above(m, k) <==> p in Above(l, i) + {l[j].pass}
    {
      if p in Above(l, i) {
        var x :| 0 <= x < i && l[x].pass == p;
        assert x < j ==> m[x + 1].pass == p;
        assert x > j ==> m[x].pass == p;
      }
    }
  }

  // ---------------------------------------------------------------------------
  // A bucket holds a prefix of the recency list, up to entries that have expired
  // ---------------------------------------------------------------------------

  function EntryOf(cfg: Config, user: string, r: Recent): Entry {
    Entry(cfg.mac(user, r.pass), r.at + cfg.ttl)
  }

  function Entries(cfg: Config, user: string, l: seq<Recent>): seq<Entry> {
    seq(|l|, i requires 0 <= i < |l| => EntryOf(cfg, user, l[i]))
  }

  ghost predicate SameEntries(a: seq<Entry>, b: seq<Entry>) {
    forall e :: e in a <==> e in b
  }

  ghost predicate Prefix(cfg: Config, user: string, bucket: seq<Entry>, l: seq<Recent>, k: nat, now: Time) {
    && k <= |l| && k <= MAX_PER_USER
    && DistinctMacs(bucket)
    && SameEntries(bucket, Entries(cfg, user, l[..k]))
    && forall i | k <= i < |l| && i < MAX_PER_USER :: l[i].at + cfg.ttl < now
  }

  lemma {:induction false} DistinctSize(bucket: seq<Entry>)
    requires DistinctMacs(bucket)
    ensures |set e | e in bucket| == |bucket|
  {
    if bucket == [] {
    } else {
      var n := |bucket| - 1;
      DistinctSize(bucket[..n]);
      assert (set e | e in bucket) == (set e | e in bucket[..n]) + {bucket[n]};
    }
  }

  lemma PrefixSize(cfg: Config, user: string, bucket: seq<Entry>, l: seq<Recent>, k: nat, now: Time)
    requires CollisionFree(cfg.mac) && Ranked(l)
    requires Prefix(cfg, user, bucket, l, k, now)
    ensures |bucket| == k
  {
    var entries := Entries(cfg, user, l[..k]);
    DistinctSize(bucket);
    DistinctSize(entries);
    assert (set e | e in bucket) == (set e | e in entries);
  }

  // How much of a prefix of the list is unexpired.
  function Live(l: seq<Recent>, k: nat, ttl: Time, now: Time): (r: nat)
    requires k <= |l| && Ranked(l)
    ensures r <= k
    ensures forall i | 0 <= i < r :: now <= l[i].at + ttl
    ensures forall i | r <= i < k :: l[i].at + ttl < now
  {
    if k == 0 then 0
    else if l[k - 1].at + ttl < now then Live(l, k - 1, ttl, now)
    else k
  }

  lemma CheckKeepsPrefix(cfg: Config, user: string, bucket: seq<Entry>, l: seq<Recent>, k: nat,
                         last: Time, now: Time)
    requires Ranked(l) && Prefix(cfg, user, bucket, l, k, last) && last <= now
    ensures Prefix(cfg, user, Unexpired(bucket, now), l, Live(l, k, cfg.ttl, now), now)
  {
    var r := Live(l, k, cfg.ttl, now);
    UnexpiredFacts(bucket, now);
    var entries, live := Entries(cfg, user, l[..k]), Entries(cfg, user, l[..r]);
    forall e | e in entries && now <= e.expires
      ensures e in live
    {
      var i :| 0 <= i < k && entries[i] == e;
      assert live[i] == e;
    }
    forall e | e in live
      ensures e in entries && now <= e.expires
    {
      var i :| 0 <= i < r && live[i] == e;
      assert entries[i] == e;
    }
  }

  /** Refreshing a password of the prefix in place is moving it to the front of the prefix. */
  lemma RefreshKeepsPrefix(cfg: Config, user: string, bucket: seq<Entry>, l: seq<Recent>, k: nat,
                           now: Time, at: Time, i: nat)
    requires CollisionFree(cfg.mac) && Ranked(l)
    requires Prefix(cfg, user, bucket, l, k, now) && i < k
    ensures Prefix(cfg, user, PutBucket(bucket, cfg.mac(user, l[i].pass), at + cfg.ttl),
                   Moved(l, l[i].pass, at), k, now)
  {
    var pass := l[i].pass;
    var m, entry := Moved(l, pass, at), EntryOf(cfg, user, Recent(pass, at));
    var entries := Entries(cfg, user, l[..k]);
    MovedPresent(l, i, at);
    assert EntryOf(cfg, user, l[i]) in bucket by { assert entries[i] == EntryOf(cfg, user, l[i]); }
    var j := IndexOfMac(bucket, entry.mac);
    var put := bucket[j := entry];
    var moved := Entries(cfg, user, m[..k]);
    forall e
      ensures e in put <==> e in moved
    {
      ReplacedEntry(bucket, j, entry, e);
      assert e in moved <==> e == entry || (e in entries && e.mac != entry.mac) by {
        MovedEntries(cfg, user, l, k, i, at, e);
      }
    }
  }

  lemma ReplacedEntry(bucket: seq<Entry>, j: nat, entry: Entry, e: Entry)
    requires DistinctMacs(bucket) && j < |bucket|
    ensures e in bucket[j := entry] <==> e == entry || (e in bucket && e.mac != bucket[j].mac)
  {
    var put := bucket[j := entry];
    if e in put && e != entry {
      var x :| 0 <= x < |put| && put[x] == e;
      assert bucket[x] == e;
    }
    if e in bucket && e.mac != bucket[j].mac {
      var x :| 0 <= x < |bucket| && bucket[x] == e;
      assert put[x] == e;
    }
    assert put[j] == entry;
  }

  lemma MovedEntries(cfg: Config, user: string, l: seq<Recent>, k: nat, i: nat, at: Time, e: Entry)
    requires CollisionFree(cfg.mac) && Ranked(l) && i < k <= |l|
    ensures k <= |Moved(l, l[i].pass, at)|
    ensures var entry := EntryOf(cfg, user, Recent(l[i].pass, at));
            e in Entries(cfg, user, Moved(l, l[i].pass, at)[..k])
            <==> e == entry || (e in Entries(cfg, user, l[..k]) && e.mac != entry.mac)
  {
    MovedPresent(l, i, at);
    var entry := EntryOf(cfg, user, Recent(l[i].pass, at));
    var m := Moved(l, l[i].pass, at);
    var before, after := Entries(cfg, user, l[..k]), Entries(cfg, user, m[..k]);
    assert after[0] == entry;
    if e in after && e != entry {
      var x :| 0 <= x < k && after[x] == e;
      assert x <= i ==> before[x - 1] == e;
      assert x > i ==> before[x] == e;
    }
    if e in before && e.mac != entry.mac {
      var y :| 0 <= y < k && before[y] == e;
      MovedIndex(l, i, y, at);
      assert after[if y < i then y + 1 else y] == e;
    }
  }

  lemma MovedIndex(l: seq<Recent>, i: nat, y: nat, at: Time)
    requires Ranked(l) && i < |l| && y < |l| && y != i
    ensures var x := if y < i then y + 1 else y;
            x < |Moved(l, l[i].pass, at)| && Moved(l, l[i].pass, at)[x] == l[y]
  {
    MovedPresent(l, i, at);
  }

  lemma MovedBeyond(l: seq<Recent>, k: nat, pass: string, at: Time)
    requires Ranked(l) && k <= |l| && forall i | 0 <= i < k :: l[i].pass != pass
    ensures var m := Moved(l, pass, at);
            && k < |m| <= |l| + 1 && m[0] == Recent(pass, at)
            && (forall x | 0 < x <= k :: m[x] == l[x - 1])
            && (forall x | k < x < |m| :: m[x] == l[x - 1] || (x < |l| && m[x] == l[x]))
  {
    if i :| 0 <= i < |l| && l[i].pass == pass {
      MovedPresent(l, i, at);
    } else {
      MovedAbsent(l, pass, at);
    }
  }

  lemma AddedEntries(cfg: Config, user: string, l: seq<Recent>, k: nat, pass: string, at: Time, e: Entry)
    requires Ranked(l) && k <= |l| && forall i | 0 <= i < k :: l[i].pass != pass
    ensures k < |Moved(l, pass, at)|
    ensures e in Entries(cfg, user, Moved(l, pass, at)[..k + 1])
            <==> e == EntryOf(cfg, user, Recent(pass, at)) || e in Entries(cfg, user, l[..k])
  {
    MovedBeyond(l, k, pass, at);
    var m := Moved(l, pass, at);
    var before, after := Entries(cfg, user, l[..k]), Entries(cfg, user, m[..k + 1]);
    assert after[0] == EntryOf(cfg, user, Recent(pass, at));
    if e in after && e != after[0] {
      var x :| 0 <= x < k + 1 && after[x] == e;
      assert before[x - 1] == e;
    }
    if e in before {
      var y :| 0 <= y < k && before[y] == e;
      assert after[y + 1] == e;
    }
  }

  lemma NotInPrefix(cfg: Config, user: string, bucket: seq<Entry>, l: seq<Recent>, k: nat, now: Time, pass: string)
    requires CollisionFree(cfg.mac) && Prefix(cfg, user, bucket, l, k, now)
    requires forall i | 0 <= i < k :: l[i].pass != pass
    ensures !HasMac(bucket, cfg.mac(user, pass))
  {
    var entries := Entries(cfg, user, l[..k]);
    forall x | 0 <= x < |bucket|
      ensures bucket[x].mac != cfg.mac(user, pass)
    {
      assert bucket[x] in entries;
      var i :| 0 <= i < k && entries[i] == bucket[x];
    }
  }

  /** With room in the bucket, a new password joins the front of the prefix. */
  lemma AppendKeepsPrefix(cfg: Config, user: string, bucket: seq<Entry>, l: seq<Recent>, k: nat,
                          now: Time, pass: string, at: Time)
    requires CollisionFree(cfg.mac) && Ranked(l)
    requires Prefix(cfg, user, bucket, l, k, now) && k < MAX_PER_USER
    requires forall i | 0 <= i < k :: l[i].pass != pass
    ensures Prefix(cfg, user, PutBucket(bucket, cfg.mac(user, pass), at + cfg.ttl), Moved(l, pass, at), k + 1, now)
  {
    NotInPrefix(cfg, user, bucket, l, k, now, pass);
    PrefixSize(cfg, user, bucket, l, k, now);
    MovedBeyond(l, k, pass, at);
    var m := Moved(l, pass, at);
    forall i | k + 1 <= i < |m| && i < MAX_PER_USER
      ensures m[i].at + cfg.ttl < now
    {
      assert m[i] == l[i - 1] || (i < |l| && m[i] == l[i]);
      assert k <= i - 1 < |l|;
    }
    var entry := EntryOf(cfg, user, Recent(pass, at));
    forall e
      ensures e in bucket + [entry] <==> e in Entries(cfg, user, Moved(l, pass, at)[..k + 1])
    {
      AddedEntries(cfg, user, l, k, pass, at, e);
    }
  }

  // In a full bucket the entry closest to expiry is the least recent of the prefix.
  lemma OldestIsLast(cfg: Config, user: string, bucket: seq<Entry>, l: seq<Recent>, k: nat, now: Time)
    requires Ranked(l) && Prefix(cfg, user, bucket, l, k, now) && 0 < k && bucket != []
    ensures bucket[Oldest(bucket)] == EntryOf(cfg, user, l[k - 1])
  {
    var entries := Entries(cfg, user, l[..k]);
    assert entries[k - 1] in bucket;
    assert bucket[Oldest(bucket)] in entries;
    var x :| 0 <= x < k && entries[x] == bucket[Oldest(bucket)];
  }

  lemma EvictKeepsPrefix(cfg: Config, user: string, bucket: seq<Entry>, l: seq<Recent>,
                         now: Time, pass: string, at: Time)
    requires CollisionFree(cfg.mac) && Ranked(l)
    requires Prefix(cfg, user, bucket, l, MAX_PER_USER, now)
    requires forall i | 0 <= i < MAX_PER_USER :: l[i].pass != pass
    ensures Prefix(cfg, user, PutBucket(bucket, cfg.mac(user, pass), at + cfg.ttl),
                   Moved(l, pass, at), MAX_PER_USER, now)
  {
    NotInPrefix(cfg, user, bucket, l, MAX_PER_USER, now, pass);
    PrefixSize(cfg, user, bucket, l, MAX_PER_USER, now);
    OldestIsLast(cfg, user, bucket, l, MAX_PER_USER, now);
    var entry := EntryOf(cfg, user, Recent(pass, at));
    MovedBeyond(l, MAX_PER_USER, pass, at);
    forall e
      ensures e in bucket[Oldest(bucket) := entry] <==> e in Entries(cfg, user, Moved(l, pass, at)[..MAX_PER_USER])
    {
      ReplacedEntry(bucket, Oldest(bucket), entry, e);
      AddedEntries(cfg, user, l, MAX_PER_USER - 1, pass, at, e);
      ButTheLast(cfg, user, l, MAX_PER_USER, e);
    }
  }

  lemma ButTheLast(cfg: Config, user: string, l: seq<Recent>, k: nat, e: Entry)
    requires CollisionFree(cfg.mac) && Ranked(l) && 0 < k <= |l|
    ensures e in Entries(cfg, user, l[..k - 1])
            <==> e in Entries(cfg, user, l[..k]) && e.mac != cfg.mac(user, l[k - 1].pass)
  {
    var some, all := Entries(cfg, user, l[..k - 1]), Entries(cfg, user, l[..k]);
    if e in some {
      var x :| 0 <= x < k - 1 && some[x] == e;
      assert all[x] == e;
    }
    if e in all && e.mac != cfg.mac(user, l[k - 1].pass) {
      var x :| 0 <= x < k && all[x] == e;
      assert some[x] == e;
    }
  }

  ghost predicate HoldsPrefix(cfg: Config, user: string, bucket: seq<Entry>, l: seq<Recent>, now: Time) {
    exists k: nat :: Prefix(cfg, user, bucket, l, k, now)
  }

  lemma PutHoldsPrefix(cfg: Config, user: string, bucket: seq<Entry>, l: seq<Recent>, now: Time,
                       pass: string, at: Time)
    requires CollisionFree(cfg.mac) && Ranked(l) && HoldsPrefix(cfg, user, bucket, l, now)
    ensures HoldsPrefix(cfg, user, PutBucket(bucket, cfg.mac(user, pass), at + cfg.ttl), Moved(l, pass, at), now)
  {
    var k: nat :| Prefix(cfg, user, bucket, l, k, now);
    if i :| 0 <= i < k && l[i].pass == pass {
      RefreshKeepsPrefix(cfg, user, bucket, l, k, now, at, i);
    } else if k < MAX_PER_USER {
      AppendKeepsPrefix(cfg, user, bucket, l, k, now, pass, at);
    } else {
      EvictKeepsPrefix(cfg, user, bucket, l, now, pass, at);
    }
  }

  // One event's effect on the recency list.
  function RecencyAct(l: seq<Recent>, user: string, e: Event): seq<Recent> {
    match e
    case Put(u, p, at) => if u == user then Moved(l, p, at) else l
    case Check(_, _, _) => l
    case InvalidateUser(u, _) => if u == user then [] else l
    case InvalidateAll(_) => []
  }

  lemma PrefixLater(cfg: Config, user: string, bucket: seq<Entry>, l: seq<Recent>, past: Time, now: Time)
    requires HoldsPrefix(cfg, user, bucket, l, past) && past <= now
    ensures HoldsPrefix(cfg, user, bucket, l, now)
  {
    var k: nat :| Prefix(cfg, user, bucket, l, k, past);
    assert Prefix(cfg, user, bucket, l, k, now);
  }

  lemma ActHoldsPrefix(cfg: Config, user: string, bucket: seq<Entry>, l: seq<Recent>, e: Event)
    requires CollisionFree(cfg.mac) && Ranked(l) && HoldsPrefix(cfg, user, bucket, l, e.at)
    ensures HoldsPrefix(cfg, user, BucketAct(cfg, bucket, user, e), RecencyAct(l, user, e), e.at)
  {
    assert Prefix(cfg, user, [], [], 0, e.at);
    match e
    case Put(u, p, at) =>
      if u == user {
        PutHoldsPrefix(cfg, user, bucket, l, at, p, at);
      }
    case Check(u, _, at) =>
      if u == user {
        var k: nat :| Prefix(cfg, user, bucket, l, k, at);
        CheckKeepsPrefix(cfg, user, bucket, l, k, at, at);
      }
    case InvalidateUser(_, _) =>
    case InvalidateAll(_) =>
  }

  lemma {:induction false} AlwaysPrefix(cfg: Config, events: seq<Event>, user: string, now: Time)
    requires CollisionFree(cfg.mac) && Clock(events, user) && Until(events, now)
    ensures HoldsPrefix(cfg, user, Bucket(After(cfg, events), user), Recency(events, user), now)
    decreases |events|
  {
    if events == [] {
      assert Prefix(cfg, user, [], [], 0, now);
    } else {
      var front, last := events[..|events| - 1], events[|events| - 1];
      var bucket, l := Bucket(After(cfg, front), user), Recency(front, user);
      AlwaysPrefix(cfg, front, user, last.at);
      RecencyRanked(front, user);
      ActOnBucket(cfg, After(cfg, front), user, last);
      ActHoldsPrefix(cfg, user, bucket, l, last);
      PrefixLater(cfg, user, BucketAct(cfg, bucket, user, last), RecencyAct(l, user, last), last.at, now);
    }
  }

  /**
   The cache answers yes exactly when the pair was put, not invalidated since, is within its TTL,
   and fewer than four other passwords of the user were put after it.
   */
  lemma CheckExact(cfg: Config, events: seq<Event>, user: string, pass: string, now: Time)
    requires CollisionFree(cfg.mac) && Clock(events, user) && Until(events, now)
    ensures Answers(cfg, events, user, pass, now)
            <==> match Since(events, user, pass)
                 case None => false
                 case Some(s) => now <= s.at + cfg.ttl && |s.others| < MAX_PER_USER
  {
    var bucket, l := Bucket(After(cfg, events), user), Recency(events, user);
    AlwaysPrefix(cfg, events, user, now);
    RecencyRanked(events, user);
    SinceIsRank(events, user, pass);
    match Since(events, user, pass)
    case None => AbsentAnswers(cfg, user, bucket, l, now, pass);
    case Some(s) =>
      var i :| 0 <= i < |l| && l[i] == Recent(pass, s.at) && s.others == Above(l, i);
      AboveSize(l, i);
      RankAnswers(cfg, user, bucket, l, now, i);
  }

  lemma RankAnswers(cfg: Config, user: string, bucket: seq<Entry>, l: seq<Recent>, now: Time, i: nat)
    requires CollisionFree(cfg.mac) && Ranked(l) && HoldsPrefix(cfg, user, bucket, l, now) && i < |l|
    ensures HasMac(Unexpired(bucket, now), cfg.mac(user, l[i].pass)) <==> i < MAX_PER_USER && now <= l[i].at + cfg.ttl
  {
    var k: nat :| Prefix(cfg, user, bucket, l, k, now);
    CheckKeepsPrefix(cfg, user, bucket, l, k, now, now);
    PrefixAnswers(cfg, user, Unexpired(bucket, now), l, Live(l, k, cfg.ttl, now), now, i);
  }

  lemma AbsentAnswers(cfg: Config, user: string, bucket: seq<Entry>, l: seq<Recent>, now: Time, pass: string)
    requires CollisionFree(cfg.mac) && Ranked(l) && HoldsPrefix(cfg, user, bucket, l, now) && Absent(l, pass)
    ensures !HasMac(Unexpired(bucket, now), cfg.mac(user, pass))
  {
    var k: nat :| Prefix(cfg, user, bucket, l, k, now);
    CheckKeepsPrefix(cfg, user, bucket, l, k, now, now);
    NotInPrefix(cfg, user, Unexpired(bucket, now), l, Live(l, k, cfg.ttl, now), now, pass);
  }

  lemma PrefixAnswers(cfg: Config, user: string, bucket: seq<Entry>, l: seq<Recent>, k: nat, now: Time, i: nat)
    requires CollisionFree(cfg.mac) && Ranked(l) && Prefix(cfg, user, bucket, l, k, now) && i < |l|
    ensures HasMac(bucket, cfg.mac(user, l[i].pass)) <==> i < k
  {
    if i < k {
      assert Entries(cfg, user, l[..k])[i] in bucket;
    } else {
      NotInPrefix(cfg, user, bucket, l, k, now, l[i].pass);
    }
  }

  // ---------------------------------------------------------------------------
  // Two puts in one instant: eviction no longer follows recency
  // ---------------------------------------------------------------------------

  lemma PutNext(cfg: Config, events: seq<Event>, user: string, pass: string, at: Time)
    ensures var more := events + [Put(user, pass, at)];
            && Bucket(After(cfg, more), user)
               == PutBucket(Bucket(After(cfg, events), user), cfg.mac(user, pass), at + cfg.ttl)
            && (forall p | p != pass && Since(events, user, p).Some? ::
                  Since(more, user, p) == Some(Since(events, user, p).value.(others := Since(events, user, p).value.others + {pass})))
            && Since(more, user, pass) == Some(Standing(at, {}))
  {
    var more := events + [Put(user, pass, at)];
    assert more[..|events|] == events;
  }

  function PutAll(user: string, passes: seq<string>, at: Time): seq<Event> {
    seq(|passes|, i requires 0 <= i < |passes| => Put(user, passes[i], at))
  }

  lemma PutAllNext(user: string, passes: seq<string>, pass: string, at: Time)
    ensures PutAll(user, passes + [pass], at) == PutAll(user, passes, at) + [Put(user, pass, at)]
  {
  }

  predicate DistinctPasses(passes: seq<string>) {
    forall i, j | 0 <= i < j < |passes| :: passes[i] != passes[j]
  }

  function PutEntries(cfg: Config, user: string, passes: seq<string>, at: Time): seq<Entry> {
    seq(|passes|, i requires 0 <= i < |passes| => Entry(cfg.mac(user, passes[i]), at + cfg.ttl))
  }

  lemma {:induction false} FillBucket(cfg: Config, user: string, passes: seq<string>, at: Time)
    requires CollisionFree(cfg.mac) && DistinctPasses(passes) && |passes| <= MAX_PER_USER
    ensures Bucket(After(cfg, PutAll(user, passes, at)), user) == PutEntries(cfg, user, passes, at)
    decreases |passes|
  {
    if passes == [] {
    } else {
      var n := |passes| - 1;
      var front, last := passes[..n], passes[n];
      FillBucket(cfg, user, front, at);
      assert front + [last] == passes;
      PutAllNext(user, front, last, at);
      PutNext(cfg, PutAll(user, front, at), user, last, at);
      assert PutEntries(cfg, user, passes, at)
          == PutEntries(cfg, user, front, at) + [Entry(cfg.mac(user, last), at + cfg.ttl)];
    }
  }

  lemma RefillBucket(cfg: Config, user: string, four: seq<string>, at: Time)
    requires CollisionFree(cfg.mac) && |four| == MAX_PER_USER && DistinctPasses(four)
    ensures var events := PutAll(user, four + [four[0]], at);
            && Bucket(After(cfg, events), user) == PutEntries(cfg, user, four, at)
            && Since(events, user, four[0]) == Some(Standing(at, {}))
  {
    var full := PutEntries(cfg, user, four, at);
    FillBucket(cfg, user, four, at);
    PutAllNext(user, four, four[0], at);
    PutNext(cfg, PutAll(user, four, at), user, four[0], at);
    IndexIsFirst(full, cfg.mac(user, four[0]), 0);
    assert full[0 := full[0]] == full;
  }

  lemma EvictsFirst(cfg: Config, user: string, four: seq<string>, fifth: string, at: Time)
    requires CollisionFree(cfg.mac) && |four| == MAX_PER_USER && fifth !in four
    ensures var entry := Entry(cfg.mac(user, fifth), at + cfg.ttl);
            var full := PutEntries(cfg, user, four, at);
            PutBucket(full, entry.mac, entry.expires) == full[0 := entry]
  {
    var full := PutEntries(cfg, user, four, at);
    assert full[0].expires == full[Oldest(full)].expires;
    assert !HasMac(full, cfg.mac(user, fifth));
  }

  /**
   Four passwords are put, the first of them again, then a fifth, all in one instant: the first is
   evicted although only the fifth came after it.
   */
  lemma TiesEvictTheWrongPair(cfg: Config, user: string, four: seq<string>, fifth: string, at: Time)
    requires CollisionFree(cfg.mac) && cfg.ttl >= 0
    requires |four| == MAX_PER_USER && DistinctPasses(four) && fifth !in four
    ensures var events := PutAll(user, four + [four[0]] + [fifth], at);
            && Since(events, user, four[0]) == Some(Standing(at, {fifth}))
            && !Answers(cfg, events, user, four[0], at)
            && Answers(cfg, events, user, four[1], at)
  {
    var again := four + [four[0]];
    RefillBucket(cfg, user, four, at);
    PutAllNext(user, again, fifth, at);
    PutNext(cfg, PutAll(user, again, at), user, fifth, at);
    EvictsFirst(cfg, user, four, fifth, at);
    assert four[0] in four && {} + {fifth} == {fifth};
    FirstIsGone(cfg, user, four, fifth, at);
  }

  lemma FirstIsGone(cfg: Config, user: string, four: seq<string>, fifth: string, at: Time)
    requires CollisionFree(cfg.mac) && cfg.ttl >= 0
    requires |four| == MAX_PER_USER && DistinctPasses(four) && fifth !in four
    ensures var kept := Unexpired(PutEntries(cfg, user, four, at)[0 := Entry(cfg.mac(user, fifth), at + cfg.ttl)], at);
            !HasMac(kept, cfg.mac(user, four[0])) && HasMac(kept, cfg.mac(user, four[1]))
  {
    var last := PutEntries(cfg, user, four, at)[0 := Entry(cfg.mac(user, fifth), at + cfg.ttl)];
    var kept := Unexpired(last, at);
    UnexpiredFacts(last, at);
    assert last[1] in kept;
    forall x | 0 <= x < |kept|
      ensures kept[x].mac != cfg.mac(user, four[0])
    {
      assert kept[x] in last;
    }
  }
}
