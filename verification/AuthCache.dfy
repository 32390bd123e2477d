/**
 The positive credential cache against the history of what happened to it.

 Entries are MACs of (user, password) pairs; the MAC is a parameter that is collision-free on
 pairs. A reference definition scans the history backwards, and the cache is proved to agree with
 it exactly: an answer is positive if and only if the pair was put, not invalidated since, has not
 outlived its TTL, and fewer than four other pairs of the user were put after it.
 */
module AuthCache {
  import opened Prelude

  type Mac = nat
  type Time = int
  type Macs = (string, string) -> Mac

  const MAX_PER_USER := 4

  datatype Entry = Entry(mac: Mac, expires: Time)

  // Missing users have the empty bucket.
  type Cache = map<string, seq<Entry>>

  ghost predicate CollisionFree(mac: Macs) {
    forall u, p, v, q :: mac(u, p) == mac(v, q) ==> u == v && p == q
  }

  // ---------------------------------------------------------------------------
  // What the MAC is taken of
  // ---------------------------------------------------------------------------

  function Power256(width: nat): nat {
    if width == 0 then 1 else 256 * Power256(width - 1)
  }

  // The low `width` bytes of `n`, most significant first.
  function BigEndian(n: nat, width: nat): (s: seq<nat>)
    ensures |s| == width
  {
    if width == 0 then [] else BigEndian(n / 256, width - 1) + [n % 256]
  }

  function Bytes(s: string): seq<nat> {
    seq(|s|, i requires 0 <= i < |s| => s[i] as nat)
  }

  function MacInput(user: string, pass: string): seq<nat> {
    BigEndian(|user|, 8) + Bytes(user) + BigEndian(|pass|, 8) + Bytes(pass)
  }

  lemma {:induction false} BigEndianInjective(m: nat, n: nat, width: nat)
    requires m < Power256(width) && n < Power256(width)
    requires BigEndian(m, width) == BigEndian(n, width)
    ensures m == n
  {
    if width == 0 {
    } else {
      var a, b := BigEndian(m / 256, width - 1), BigEndian(n / 256, width - 1);
      assert a == BigEndian(m, width)[..width - 1] == BigEndian(n, width)[..width - 1] == b;
      assert BigEndian(m, width)[width - 1] == m % 256 && BigEndian(n, width)[width - 1] == n % 256;
      BigEndianInjective(m / 256, n / 256, width - 1);
    }
  }

  /** The length prefixes make the MAC's input determine the pair: no two pairs share one. */
  lemma MacInputInjective(u: string, p: string, v: string, q: string)
    requires |u| < Power256(8) && |p| < Power256(8) && |v| < Power256(8) && |q| < Power256(8)
    requires MacInput(u, p) == MacInput(v, q)
    ensures u == v && p == q
  {
    SplitInput(u, p);
    SplitInput(v, q);
    BigEndianInjective(|u|, |v|, 8);
    BytesInjective(u, v);
    BytesInjective(p, q);
  }

  lemma SplitInput(u: string, p: string)
    ensures var s := MacInput(u, p);
            && |s| == 16 + |u| + |p|
            && s[..8] == BigEndian(|u|, 8)
            && s[8..8 + |u|] == Bytes(u)
            && s[16 + |u|..] == Bytes(p)
  {
  }

  lemma BytesInjective(s: string, t: string)
    requires Bytes(s) == Bytes(t)
    ensures s == t
  {
    assert |s| == |Bytes(s)| == |t|;
    forall i | 0 <= i < |s|
      ensures s[i] == t[i]
    {
      assert Bytes(s)[i] == Bytes(t)[i];
    }
  }

  // ---------------------------------------------------------------------------

  function Bucket(c: Cache, user: string): seq<Entry> {
    if user in c then c[user] else []
  }

  // ---------------------------------------------------------------------------
  // The operations on one bucket
  // ---------------------------------------------------------------------------

  // The entries that have not expired, in order.
  function Unexpired(bucket: seq<Entry>, now: Time): seq<Entry> {
    if bucket == [] then []
    else
      var front, last := Unexpired(bucket[..|bucket| - 1], now), bucket[|bucket| - 1];
      if now > last.expires then front else front + [last]
  }

  predicate HasMac(bucket: seq<Entry>, mac: Mac) {
    exists i | 0 <= i < |bucket| :: bucket[i].mac == mac
  }

  function IndexOfMac(bucket: seq<Entry>, mac: Mac): nat
    requires HasMac(bucket, mac)
    ensures IndexOfMac(bucket, mac) < |bucket| && bucket[IndexOfMac(bucket, mac)].mac == mac
    ensures forall i | 0 <= i < IndexOfMac(bucket, mac) :: bucket[i].mac != mac
    decreases |bucket|
  {
    if bucket[0].mac == mac then 0
    else
      assert forall i | 0 < i < |bucket| :: bucket[i] == bucket[1..][i - 1];
      1 + IndexOfMac(bucket[1..], mac)
  }

  // The first entry closest to expiry.
  function Oldest(bucket: seq<Entry>): nat
    requires bucket != []
    ensures Oldest(bucket) < |bucket|
    ensures forall i | 0 <= i < |bucket| :: bucket[Oldest(bucket)].expires <= bucket[i].expires
    ensures forall i | 0 <= i < Oldest(bucket) :: bucket[Oldest(bucket)].expires < bucket[i].expires
    decreases |bucket|
  {
    if |bucket| == 1 then 0
    else
      var front := Oldest(bucket[..|bucket| - 1]);
      if bucket[|bucket| - 1].expires < bucket[front].expires then |bucket| - 1 else front
  }

  function PutBucket(bucket: seq<Entry>, mac: Mac, expires: Time): seq<Entry> {
    if HasMac(bucket, mac) then bucket[IndexOfMac(bucket, mac) := Entry(mac, expires)]
    else if |bucket| >= MAX_PER_USER then bucket[Oldest(bucket) := Entry(mac, expires)]
    else bucket + [Entry(mac, expires)]
  }

  function CheckCache(c: Cache, user: string, now: Time): Cache {
    if Bucket(c, user) == [] then c
    else if Unexpired(Bucket(c, user), now) == [] then c - {user}
    else c[user := Unexpired(Bucket(c, user), now)]
  }

  // ---------------------------------------------------------------------------
  // The cache as written, with its slices updated and compacted in place
  // ---------------------------------------------------------------------------

  datatype Slice = Slice(data: array<Entry>, len: nat)

  class CredentialCache {
    var entries: map<string, Slice>

    ghost predicate Valid()
      reads this
    {
      && (forall u | u in entries :: entries[u].len <= entries[u].data.Length)
      && (forall u, v | u in entries && v in entries && u != v :: entries[u].data != entries[v].data)
    }

    ghost function Arrays(): set<array<Entry>>
      reads this
    {
      set u | u in entries :: entries[u].data
    }

    ghost function Contents(): Cache
      requires Valid()
      reads this, Arrays()
    {
      map u | u in entries :: entries[u].data[..entries[u].len]
    }

    constructor ()
      ensures Valid() && Contents() == map[]
    {
      entries := map[];
    }

    /** check: drop the user's expired entries and say whether the pair's is among the others. */
    method Check(user: string, mac: Mac, now: Time) returns (found: bool)
      requires Valid()
      modifies this, Arrays()
      ensures Valid() && Contents() == CheckCache(old(Contents()), user, now)
      ensures found <==> HasMac(Unexpired(Bucket(old(Contents()), user), now), mac)
    {
      if user !in entries || entries[user].len == 0 {
        return false;
      }
      var data := entries[user].data;
      ghost var was := Contents();
      assert data[..entries[user].len] == Bucket(was, user);
      var kept;
      kept, found := Compact(data, entries[user].len, mac, now);
      ghost var bucket := data[..kept];
      SameElsewhere(was, Contents(), user, bucket);
      if kept == 0 {
        InvalidateUser(user);
      } else {
        SetSlice(user, data, kept);
        assert Contents() == was[user := bucket];
      }
    }

    /** The loop of check: the kept entries overwrite the front of the slice being read. */
    static method Compact(data: array<Entry>, len: nat, mac: Mac, now: Time) returns (kept: nat, found: bool)
      requires len <= data.Length
      modifies data
      ensures kept <= len && data[..kept] == Unexpired(old(data[..len]), now)
      ensures found <==> HasMac(data[..kept], mac)
    {
      ghost var before := data[..len];
      kept, found := 0, false;
      for i := 0 to len
        invariant 0 <= kept <= i
        invariant data[..kept] == Unexpired(before[..i], now)
        invariant forall j | i <= j < len :: data[j] == before[j]
        invariant found <==> HasMac(data[..kept], mac)
      {
        var e := data[i];
        assert before[..i + 1][..i] == before[..i];
        if now > e.expires {
        } else {
          ghost var prefix := data[..kept];
          data[kept] := e;
          assert data[..kept + 1] == prefix + [e];
          HasMacAppend(prefix, e, mac);
          kept := kept + 1;
          if e.mac == mac {
            found := true;
          }
        }
      }
      assert before[..len] == before;
    }

    /** put: refresh the pair's entry, or evict the one closest to expiry, or append. */
    method Put(user: string, mac: Mac, expires: Time)
      requires Valid()
      modifies this, Arrays()
      ensures Valid()
      ensures Contents() == old(Contents())[user := PutBucket(Bucket(old(Contents()), user), mac, expires)]
    {
      var data, len := new Entry[0], 0;
      if user in entries {
        data, len := entries[user].data, entries[user].len;
      }
      ghost var was := Contents();
      assert data[..len] == Bucket(was, user);
      var grown, newLen := PutSlice(data, len, mac, expires);
      ghost var bucket := grown[..newLen];
      SameElsewhere(was, Contents(), user, bucket);
      SetSlice(user, grown, newLen);
      assert Contents() == was[user := bucket];
    }

    method SetSlice(user: string, data: array<Entry>, len: nat)
      requires Valid() && len <= data.Length
      requires forall u | u in entries && u != user :: entries[u].data != data
      modifies this
      ensures Valid() && Contents() == old(Contents())[user := data[..len]]
    {
      entries := entries[user := Slice(data, len)];
    }

    static method PutSlice(data: array<Entry>, len: nat, mac: Mac, expires: Time)
      returns (grown: array<Entry>, newLen: nat)
      requires len <= data.Length
      modifies data
      ensures grown == data || fresh(grown)
      ensures newLen <= grown.Length && grown[..newLen] == PutBucket(old(data[..len]), mac, expires)
    {
      ghost var before := data[..len];
      var e := Entry(mac, expires);
      for i := 0 to len
        invariant forall j | 0 <= j < i :: data[j].mac != mac
        invariant data[..len] == before
      {
        if data[i].mac == mac {
          IndexIsFirst(before, mac, i);
          data[i] := e;
          assert data[..len] == before[i := e];
          return data, len;
        }
      }
      assert !HasMac(before, mac);
      if len >= MAX_PER_USER {
        var oldest := FindOldest(data, len);
        data[oldest] := e;
        assert data[..len] == before[oldest := e];
        return data, len;
      }
      grown := Append(data, len, e);
      newLen := len + 1;
    }

    static method FindOldest(data: array<Entry>, len: nat) returns (oldest: nat)
      requires 0 < len <= data.Length
      ensures oldest == Oldest(data[..len])
    {
      oldest := 0;
      for i := 0 to len
        invariant i == 0 ==> oldest == 0
        invariant i > 0 ==> oldest == Oldest(data[..i])
      {
        assert data[..i + 1][..i] == data[..i];
        if data[i].expires < data[oldest].expires {
          oldest := i;
        }
      }
    }

    // Go's append: in place while there is spare capacity, else into a doubled copy.
    static method Append(data: array<Entry>, len: nat, e: Entry) returns (grown: array<Entry>)
      requires len <= data.Length
      modifies data
      ensures grown == data || fresh(grown)
      ensures len < grown.Length && grown[..len + 1] == old(data[..len]) + [e]
    {
      if len < data.Length {
        grown := data;
      } else {
        grown := new Entry[2 * len + 1](_ => e);
        for i := 0 to len
          invariant forall j | 0 <= j < i :: grown[j] == data[j]
          modifies grown
        {
          grown[i] := data[i];
        }
      }
      grown[len] := e;
    }

    method InvalidateUser(user: string)
      requires Valid()
      modifies this
      ensures Valid() && Contents() == old(Contents()) - {user}
    {
      entries := entries - {user};
    }

    method InvalidateAll()
      requires Valid()
      modifies this
      ensures Valid() && Contents() == map[]
    {
      entries := map[];
    }
  }

  lemma SameElsewhere(c: Cache, d: Cache, user: string, bucket: seq<Entry>)
    requires c.Keys == d.Keys && forall u | u in c && u != user :: c[u] == d[u]
    ensures c[user := bucket] == d[user := bucket] && c - {user} == d - {user}
  {
  }

  lemma IndexIsFirst(bucket: seq<Entry>, mac: Mac, i: nat)
    requires i < |bucket| && bucket[i].mac == mac
    requires forall j | 0 <= j < i :: bucket[j].mac != mac
    ensures HasMac(bucket, mac) && IndexOfMac(bucket, mac) == i
  {
  }

  lemma HasMacAppend(bucket: seq<Entry>, e: Entry, mac: Mac)
    ensures HasMac(bucket + [e], mac) <==> HasMac(bucket, mac) || e.mac == mac
  {
    assert (bucket + [e])[|bucket|] == e;
    assert forall i | 0 <= i < |bucket| :: (bucket + [e])[i] == bucket[i];
  }
}
