/**
 The credential envelope: sealing, opening and re-sealing under the primary key.

 The AEAD is a parameter; its one law, that opening what was sealed under the same key, nonce and
 additional data gives the plaintext back, is a precondition wherever it is needed.
 */
module KeyRotation {
  import opened Prelude

  newtype byte = x: int | 0 <= x < 256
  type Bytes = seq<byte>

  const ENVELOPE_V1: byte := 1
  const NONCE_SIZE := 12
  const HEADER_SIZE := 2
  const TAG_SIZE := 16
  const OVERHEAD := HEADER_SIZE + NONCE_SIZE + TAG_SIZE

  // Key material, identified by a number.
  type Material = nat

  datatype Aead = Aead(seal: (Material, Bytes, Bytes, Bytes) -> Bytes,
                       open: (Material, Bytes, Bytes, Bytes) -> Option<Bytes>)

  ghost predicate RoundTrips(aead: Aead) {
    forall k, n, p, a :: aead.open(k, n, aead.seal(k, n, p, a), a) == Some(p) && |aead.seal(k, n, p, a)| == |p| + TAG_SIZE
  }

  datatype Key = Key(id: byte, material: Option<Material>)

  datatype Keyring = Keyring(primary: byte, keys: map<byte, Material>)

  datatype Error = NoKey | ZeroKeyId | DuplicateKeyId | BadEnvelope | UnknownKey | Decrypt

  predicate ValidRing(kr: Keyring) {
    kr.primary in kr.keys && 0 !in kr.keys
  }

  predicate Unusable(key: Key) {
    key.id == 0 || key.material.None?
  }

  function Ids(keys: seq<Key>, n: nat): set<byte>
    requires n <= |keys|
  {
    set j | 0 <= j < n :: keys[j].id
  }

  /** NewKeyring: the first key is the primary; every key is kept under its own id. The first key
      that is unusable or repeats an id decides the error. */
  method NewKeyring(keys: seq<Key>) returns (r: Result<Keyring, Error>, ghost fault: int)
    ensures r.Ok? <==> && keys != []
                       && (forall i | 0 <= i < |keys| :: keys[i].id != 0 && keys[i].material.Some?)
                       && (forall i, j | 0 <= i < j < |keys| :: keys[i].id != keys[j].id)
    ensures r.Ok? ==> ValidRing(r.value) && r.value.primary == keys[0].id
                      && forall id, m :: (id in r.value.keys && r.value.keys[id] == m) <==> Key(id, Some(m)) in keys
    ensures keys == [] <==> r == Err(NoKey)
    ensures keys != [] && r.Err? ==>
              && 0 <= fault < |keys|
              && (forall i | 0 <= i < fault :: !Unusable(keys[i]))
              && (forall i, j | 0 <= i < j < fault :: keys[i].id != keys[j].id)
              && r.error == (if Unusable(keys[fault]) then ZeroKeyId else DuplicateKeyId)
              && (Unusable(keys[fault]) || keys[fault].id in Ids(keys, fault))
  {
    if |keys| == 0 {
      return Err(NoKey), 0;
    }
    var ring: map<byte, Material> := map[];
    for i := 0 to |keys|
      invariant forall j | 0 <= j < i :: keys[j].id != 0 && keys[j].material.Some?
      invariant forall j, k | 0 <= j < k < i :: keys[j].id != keys[k].id
      invariant ring.Keys == Ids(keys, i)
      invariant forall j | 0 <= j < i :: keys[j].id in ring && keys[j].material == Some(ring[keys[j].id])
    {
      if keys[i].id == 0 || keys[i].material.None? {
        return Err(ZeroKeyId), i;
      }
      if keys[i].id in ring {
        return Err(DuplicateKeyId), i;
      }
      ring := ring[keys[i].id := keys[i].material.value];
    }
    assert keys[0].id in ring;
    r, fault := Ok(Keyring(keys[0].id, ring)), 0;
    RingHolds(keys, ring);
  }

  lemma RingHolds(keys: seq<Key>, ring: map<byte, Material>)
    requires ring.Keys == Ids(keys, |keys|)
    requires forall j | 0 <= j < |keys| :: keys[j].id in ring && keys[j].material == Some(ring[keys[j].id])
    ensures forall id, m :: (id in ring && ring[id] == m) <==> Key(id, Some(m)) in keys
  {
    forall id, m
      ensures (id in ring && ring[id] == m) <==> Key(id, Some(m)) in keys
    {
      if id in ring {
        var j :| 0 <= j < |keys| && keys[j].id == id;
        assert keys[j] == Key(id, Some(ring[id]));
      }
    }
  }

  function Seal(aead: Aead, kr: Keyring, nonce: Bytes, plaintext: Bytes, aad: Bytes): Result<Bytes, Error> {
    if kr.primary !in kr.keys then Err(NoKey)
    else
      var header := [ENVELOPE_V1, kr.primary];
      Ok(header + nonce + aead.seal(kr.keys[kr.primary], nonce, plaintext, header + aad))
  }

  function EnvelopeKeyID(envelope: Bytes): Result<byte, Error> {
    if |envelope| < OVERHEAD then Err(BadEnvelope)
    else if envelope[0] != ENVELOPE_V1 then Err(BadEnvelope)
    else if envelope[1] == 0 then Err(BadEnvelope)
    else Ok(envelope[1])
  }

  function Open(aead: Aead, kr: Keyring, envelope: Bytes, aad: Bytes): Result<Bytes, Error> {
    if |envelope| < OVERHEAD then Err(BadEnvelope)
    else if envelope[0] != ENVELOPE_V1 then Err(BadEnvelope)
    else if envelope[1] == 0 then Err(BadEnvelope)
    else if envelope[1] !in kr.keys then Err(UnknownKey)
    else
      var nonce, sealed := envelope[HEADER_SIZE..HEADER_SIZE + NONCE_SIZE], envelope[HEADER_SIZE + NONCE_SIZE..];
      match aead.open(kr.keys[envelope[1]], nonce, sealed, envelope[..HEADER_SIZE] + aad)
      case None => Err(Decrypt)
      case Some(p) => Ok(p)
  }

  // The new envelope and whether anything changed.
  function Rotate(aead: Aead, kr: Keyring, nonce: Bytes, envelope: Bytes, aad: Bytes): Result<(Bytes, bool), Error> {
    match EnvelopeKeyID(envelope)
    case Err(e) => Err(e)
    case Ok(id) =>
      match Open(aead, kr, envelope, aad)
      case Err(e) => Err(e)
      case Ok(plaintext) =>
        if id == kr.primary then Ok((envelope, false))
        else
          match Seal(aead, kr, nonce, plaintext, aad)
          case Err(e) => Err(e)
          case Ok(resealed) => Ok((resealed, true))
  }

  // The ring an operator is left with after dropping every old key.
  function PrimaryOnly(kr: Keyring): Keyring
    requires ValidRing(kr)
  {
    Keyring(kr.primary, map[kr.primary := kr.keys[kr.primary]])
  }

  /** Whatever ring holds the sealing key under its id opens the envelope to the plaintext. */
  lemma SealOpens(aead: Aead, kr: Keyring, other: Keyring, nonce: Bytes, plaintext: Bytes, aad: Bytes)
    requires RoundTrips(aead) && ValidRing(kr) && |nonce| == NONCE_SIZE
    requires kr.primary in other.keys && other.keys[kr.primary] == kr.keys[kr.primary]
    ensures Seal(aead, kr, nonce, plaintext, aad).Ok?
    ensures Open(aead, other, Seal(aead, kr, nonce, plaintext, aad).value, aad) == Ok(plaintext)
  {
    var header := [ENVELOPE_V1, kr.primary];
    var sealed := aead.seal(kr.keys[kr.primary], nonce, plaintext, header + aad);
    var envelope := header + nonce + sealed;
    assert envelope[..HEADER_SIZE] == header;
    assert envelope[HEADER_SIZE..HEADER_SIZE + NONCE_SIZE] == nonce;
    assert envelope[HEADER_SIZE + NONCE_SIZE..] == sealed;
  }

  // Long enough, of the one known version, and naming a key.
  predicate WellFormed(envelope: Bytes) {
    |envelope| >= OVERHEAD && envelope[0] == ENVELOPE_V1 && envelope[1] != 0
  }

  /** Which of the four answers Open gives, and that the key id is the envelope's second byte. */
  lemma OpenExact(aead: Aead, kr: Keyring, envelope: Bytes, aad: Bytes, plaintext: Bytes)
    ensures Open(aead, kr, envelope, aad) == Err(BadEnvelope) <==> !WellFormed(envelope)
    ensures Open(aead, kr, envelope, aad) == Err(UnknownKey) <==> WellFormed(envelope) && envelope[1] !in kr.keys
    ensures Open(aead, kr, envelope, aad) == Ok(plaintext) <==>
              && WellFormed(envelope) && envelope[1] in kr.keys
              && aead.open(kr.keys[envelope[1]], envelope[2..14], envelope[14..], envelope[..2] + aad) == Some(plaintext)
    ensures Open(aead, kr, envelope, aad).Err? ==> Open(aead, kr, envelope, aad).error in {BadEnvelope, UnknownKey, Decrypt}
    ensures EnvelopeKeyID(envelope) == if WellFormed(envelope) then Ok(envelope[1]) else Err(BadEnvelope)
  {
  }

  // What was sealed with one additional datum does not open with another.
  ghost predicate Authentic(aead: Aead) {
    forall k, n, p, a, b | a != b :: aead.open(k, n, aead.seal(k, n, p, a), b) == None
  }

  lemma SealedParts(aead: Aead, kr: Keyring, nonce: Bytes, plaintext: Bytes, aad: Bytes)
    requires RoundTrips(aead) && ValidRing(kr) && |nonce| == NONCE_SIZE
    ensures var r, header := Seal(aead, kr, nonce, plaintext, aad), [ENVELOPE_V1, kr.primary];
            && r.Ok? && WellFormed(r.value) && |r.value| == |plaintext| + OVERHEAD
            && r.value[..2] == header && r.value[2..14] == nonce
            && r.value[14..] == aead.seal(kr.keys[kr.primary], nonce, plaintext, header + aad)
  {
    var header := [ENVELOPE_V1, kr.primary];
    var sealed := aead.seal(kr.keys[kr.primary], nonce, plaintext, header + aad);
    var envelope := header + nonce + sealed;
    assert envelope[..2] == header && envelope[2..14] == nonce && envelope[14..] == sealed;
  }

  /** An envelope is bound to its additional data and to its header: moved to another account it does
      not open, and neither does it under another key id, not even one that stands for the same key. */
  lemma SealIsBound(aead: Aead, kr: Keyring, nonce: Bytes, plaintext: Bytes, aad: Bytes, other: Bytes, id: byte)
    requires RoundTrips(aead) && Authentic(aead) && ValidRing(kr) && |nonce| == NONCE_SIZE
    ensures var envelope := Seal(aead, kr, nonce, plaintext, aad).value;
            && (other != aad ==> Open(aead, kr, envelope, other) == Err(Decrypt))
            && (id in kr.keys && id != kr.primary && kr.keys[id] == kr.keys[kr.primary] ==>
                  Open(aead, kr, envelope[1 := id], aad) == Err(Decrypt))
  {
    SealedParts(aead, kr, nonce, plaintext, aad);
    var envelope := Seal(aead, kr, nonce, plaintext, aad).value;
    if other != aad {
      assert ([ENVELOPE_V1, kr.primary] + aad)[2..] == aad && ([ENVELOPE_V1, kr.primary] + other)[2..] == other;
    }
    if id in kr.keys && id != kr.primary && kr.keys[id] == kr.keys[kr.primary] {
      var moved := envelope[1 := id];
      assert moved[2..14] == envelope[2..14] && moved[14..] == envelope[14..];
      assert (moved[..2] + aad)[1] == id && ([ENVELOPE_V1, kr.primary] + aad)[1] == kr.primary;
    }
  }

  /** Rotate succeeds exactly when the envelope opens, fails as opening fails, and re-seals exactly
      when another key than the primary sealed it. What it returns is under the primary key and opens
      to the same plaintext under the whole ring and under the primary key alone. */
  lemma RotateKeepsPlaintext(aead: Aead, kr: Keyring, nonce: Bytes, envelope: Bytes, aad: Bytes)
    requires RoundTrips(aead) && ValidRing(kr) && |nonce| == NONCE_SIZE
    ensures Rotate(aead, kr, nonce, envelope, aad).Ok? <==> Open(aead, kr, envelope, aad).Ok?
    ensures Rotate(aead, kr, nonce, envelope, aad).Ok? ==>
              var out := Rotate(aead, kr, nonce, envelope, aad).value;
              && Open(aead, kr, out.0, aad) == Open(aead, kr, envelope, aad)
              && Open(aead, PrimaryOnly(kr), out.0, aad) == Open(aead, kr, envelope, aad)
              && (out.1 <==> envelope[1] != kr.primary)
              && (!out.1 ==> out.0 == envelope)
              && EnvelopeKeyID(out.0) == Ok(kr.primary)
    ensures Rotate(aead, kr, nonce, envelope, aad).Err? ==>
              Open(aead, kr, envelope, aad) == Err(Rotate(aead, kr, nonce, envelope, aad).error)
  {
    var plain := Open(aead, kr, envelope, aad);
    if plain.Ok? && envelope[1] != kr.primary {
      SealedParts(aead, kr, nonce, plain.value, aad);
      SealOpens(aead, kr, kr, nonce, plain.value, aad);
      SealOpens(aead, kr, PrimaryOnly(kr), nonce, plain.value, aad);
    }
  }
}
