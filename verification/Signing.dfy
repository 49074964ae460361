/** Signed records and snapshots: what is signed, and what verification recomputes.
    The Ed25519 primitives are parameters. */
module Signing {
  import opened Text
  import opened Json
  import opened JsonRoundTrip
  import opened Canonical
  import opened Events

  /** sign(privateKey, message) and verify(publicKey, message, signature), with base64 text; and what
      Buffer.from makes of an array or an object, None when it throws. */
  datatype Crypto = Crypto(
    sign: (string, string) -> string, verify: (string, string, string) -> bool, bytesOf: Json -> Option<string>)

  /** What every plain object has without being given it; a lookup of such a name finds a function or
      an object, which is truthy and is not text. */
  const INHERITED: seq<string> := [
    "constructor", "toString", "toLocaleString", "valueOf", "hasOwnProperty", "isPrototypeOf",
    "propertyIsEnumerable", "__proto__", "__defineGetter__", "__defineSetter__", "__lookupGetter__",
    "__lookupSetter__" ]

  /** pk accepts what sk signs. */
  ghost predicate KeyPair(c: Crypto, sk: string, pk: string) {
    forall m: string :: c.verify(pk, m, c.sign(sk, m))
  }

  /** ... and accepts it for no other message. */
  ghost predicate ExactKeyPair(c: Crypto, sk: string, pk: string) {
    forall m: string, m': string :: c.verify(pk, m', c.sign(sk, m)) <==> m == m'
  }

  /** { ...fields, [key]: val } */
  function Set(fields: seq<Field>, key: string, val: Json): (r: seq<Field>)
    decreases fields
  {
    if fields == [] then [Field(key, val)]
    else if fields[0].key == key then [Field(key, val)] + fields[1..]
    else [fields[0]] + Set(fields[1..], key, val)
  }

  /** `const { signature: _, ...unsigned } = record` */
  function Unsigned(record: seq<Field>): seq<Field> { Without(record, "signature") }

  function SigningPayload(record: seq<Field>): string {
    CanonicalJson(Obj(Unsigned(record)))
  }

  /** The worker's recordSigningPayload, over the worker's canonicalize. */
  function WorkerPayload(record: seq<Field>): string {
    Print(WorkerCanonicalize(Obj(Unsigned(record))))
  }

  function SignRecord(c: Crypto, record: seq<Field>, sk: string): seq<Field> {
    Set(record, "signature", Str(c.sign(sk, SigningPayload(record))))
  }

  datatype Verdict = Checked(ok: bool) | Threw

  /** Buffer.from(signature, "base64"): any text decodes; null, numbers and the like throw. */
  function SignatureBytes(c: Crypto, signature: Json): Option<string> {
    match signature
    case Str(text) => Some(text)
    case Arr(_) => c.bytesOf(signature)
    case Obj(_) => c.bytesOf(signature)
    case _ => None
  }

  function VerifyRecordSignature(c: Crypto, record: seq<Field>, pk: string): Verdict {
    match SignatureBytes(c, Lookup(record, "signature"))
    case Some(bytes) => Checked(c.verify(pk, SigningPayload(record), bytes))
    case None => Threw
  }

  /** publicKeyId is set on the unsigned copy before the payload is printed. */
  function SignSnapshot(c: Crypto, snapshot: seq<Field>, sk: string, keyId: string): seq<Field> {
    var unsigned := Set(Unsigned(snapshot), "publicKeyId", Str(keyId));
    Set(Set(snapshot, "publicKeyId", Str(keyId)), "signature", Str(c.sign(sk, CanonicalJson(Obj(unsigned)))))
  }

  /** Everything thrown inside is caught and reported as false. */
  function VerifySnapshotSignature(c: Crypto, snapshot: seq<Field>, pk: string): bool {
    match SignatureBytes(c, Lookup(snapshot, "signature"))
    case Some(bytes) => c.verify(pk, SigningPayload(snapshot), bytes)
    case None => false
  }

  predicate RegularFields(fields: seq<Field>) { Regular(Obj(fields)) }

  // ----- laws of Set and Without -----

  lemma {:induction false} KeysCons(f: Field, rest: seq<Field>)
    ensures Keys([f] + rest) == [f.key] + Keys(rest)
  {
  }

  lemma {:induction false} SetKeys(fields: seq<Field>, key: string, val: Json)
    ensures Keys(Set(fields, key, val)) == if key in Keys(fields) then Keys(fields) else Keys(fields) + [key]
  {
    if fields == [] {
      assert Keys([Field(key, val)]) == [key];
    } else {
      var f, rest := fields[0], fields[1..];
      assert fields == [f] + rest;
      KeysCons(f, rest);
      if f.key == key {
        KeysCons(Field(key, val), rest);
      } else {
        SetKeys(rest, key, val);
        KeysCons(f, Set(rest, key, val));
      }
    }
  }

  lemma {:induction false} SetLookup(fields: seq<Field>, key: string, val: Json)
    ensures Lookup(Set(fields, key, val), key) == val
  {
    if fields != [] && fields[0].key != key {
      SetLookup(fields[1..], key, val);
      assert ([fields[0]] + Set(fields[1..], key, val))[1..] == Set(fields[1..], key, val);
    }
  }

  lemma {:induction false} WithoutSet(fields: seq<Field>, key: string, val: Json)
    ensures Without(Set(fields, key, val), key) == Without(fields, key)
  {
    if fields == [] {
      assert [Field(key, val)][1..] == [];
    } else {
      WithoutSet(fields[1..], key, val);
      if fields[0].key == key {
        assert ([Field(key, val)] + fields[1..])[1..] == fields[1..];
      } else {
        assert ([fields[0]] + Set(fields[1..], key, val))[1..] == Set(fields[1..], key, val);
      }
    }
  }

  lemma {:induction false} SetLaws(fields: seq<Field>, key: string, val: Json)
    requires Distinct(Keys(fields))
    ensures Distinct(Keys(Set(fields, key, val)))
    ensures Lookup(Set(fields, key, val), key) == val
    ensures Without(Set(fields, key, val), key) == Without(fields, key)
  {
    SetDistinct(fields, key, val);
    SetLookup(fields, key, val);
    WithoutSet(fields, key, val);
  }

  lemma {:induction false} SetDistinct(fields: seq<Field>, key: string, val: Json)
    requires Distinct(Keys(fields))
    ensures Distinct(Keys(Set(fields, key, val)))
  {
    SetKeys(fields, key, val);
  }

  lemma {:induction false} SetWithoutCommute(fields: seq<Field>, put: string, drop: string, val: Json)
    requires put != drop
    ensures Without(Set(fields, put, val), drop) == Set(Without(fields, drop), put, val)
  {
    if fields == [] {
      assert Without([Field(put, val)], drop) == [Field(put, val)];
    } else {
      var rest := fields[1..];
      SetWithoutCommute(rest, put, drop, val);
      if fields[0].key == put {
        assert ([Field(put, val)] + rest)[1..] == rest;
        assert ([fields[0]] + Without(rest, drop))[1..] == Without(rest, drop);
      } else if fields[0].key == drop {
        assert ([fields[0]] + Set(rest, put, val))[1..] == Set(rest, put, val);
      } else {
        assert ([fields[0]] + Set(rest, put, val))[1..] == Set(rest, put, val);
        assert ([fields[0]] + Without(rest, drop))[1..] == Without(rest, drop);
      }
    }
  }

  lemma {:induction false} WithoutLaws(fields: seq<Field>, key: string)
    requires Distinct(Keys(fields))
    ensures Distinct(Keys(Without(fields, key)))
    ensures forall k :: k in Keys(Without(fields, key)) ==> k in Keys(fields)
    ensures StripFields(Without(fields, key)) == Without(StripFields(fields), key)
  {
    if fields != [] {
      var rest := fields[1..];
      assert Keys(fields) == [fields[0].key] + Keys(rest);
      assert Keys(rest) == Keys(fields)[1..];
      assert fields[0].key !in Keys(rest);
      WithoutLaws(rest, key);
      var w := Without(rest, key);
      if fields[0].key != key {
        assert Keys([fields[0]] + w) == [fields[0].key] + Keys(w);
        assert ([fields[0]] + w)[1..] == w;
      }
      if fields[0].val != Undefined {
        var f := Field(fields[0].key, Strip(fields[0].val));
        assert ([f] + StripFields(rest))[1..] == StripFields(rest);
      }
    }
  }

  lemma {:induction false} SetRegular(fields: seq<Field>, key: string, text: string)
    requires forall i :: 0 <= i < |fields| ==> Regular(fields[i].val)
    ensures forall i :: 0 <= i < |Set(fields, key, Str(text))| ==> Regular(Set(fields, key, Str(text))[i].val)
  {
    if fields != [] { SetRegular(fields[1..], key, text); }
  }

  lemma {:induction false} WithoutRegular(fields: seq<Field>, key: string)
    requires forall i :: 0 <= i < |fields| ==> Regular(fields[i].val)
    ensures forall i :: 0 <= i < |Without(fields, key)| ==> Regular(Without(fields, key)[i].val)
  {
    if fields != [] { WithoutRegular(fields[1..], key); }
  }

  lemma {:induction false} UnsignedRegular(record: seq<Field>)
    requires RegularFields(record)
    ensures RegularFields(Unsigned(record))
  {
    WithoutLaws(record, "signature");
    WithoutRegular(record, "signature");
  }

  // ----- signing -----

  /** Signing does not change what is signed. */
  lemma {:induction false} SignKeepsPayload(c: Crypto, record: seq<Field>, sk: string)
    requires RegularFields(record)
    ensures var s := SignRecord(c, record, sk);
      && RegularFields(s)
      && SigningPayload(s) == SigningPayload(record)
      && Lookup(s, "signature") == Str(c.sign(sk, SigningPayload(record)))
  {
    SetLaws(record, "signature", Str(c.sign(sk, SigningPayload(record))));
    SetRegular(record, "signature", c.sign(sk, SigningPayload(record)));
  }

  /** Neither does a JSON trip, which keeps the signature too. */
  lemma {:induction false} TripKeepsPayload(record: seq<Field>)
    requires RegularFields(record)
    ensures var t := StripFields(record);
      && Parse(Print(Obj(record))) == Done(Obj(t), "")
      && RegularFields(t)
      && SigningPayload(t) == SigningPayload(record)
      && (Lookup(record, "signature").Str? ==> Lookup(t, "signature") == Lookup(record, "signature"))
  {
    RoundTrip(Obj(record));
    StripRegular(Obj(record));
    WithoutLaws(record, "signature");
    UnsignedRegular(record);
    RoundTrip(Obj(Unsigned(record)));
    CanonicalAfterTrip(Obj(Unsigned(record)));
    StripFieldsLookup(record);
  }

  /** What may happen to a record on its way: a stringify/parse trip, or signing it again. */
  datatype Leg = Trip | Resign

  function TravelLeg(c: Crypto, sk: string, record: seq<Field>, leg: Leg): seq<Field> {
    match leg
    case Trip =>
      (match Parse(Print(Obj(record)))
       case Done(Obj(fields), _) => fields
       case _ => record)
    case Resign => SignRecord(c, record, sk)
  }

  function Travel(c: Crypto, sk: string, record: seq<Field>, legs: seq<Leg>): seq<Field>
    decreases |legs|
  {
    if legs == [] then record
    else Travel(c, sk, TravelLeg(c, sk, record, legs[0]), legs[1..])
  }

  /** A signed record verifies after any journey, at the node and over the worker's payload. */
  lemma {:induction false} SignedRecordVerifies(c: Crypto, sk: string, pk: string, record: seq<Field>, legs: seq<Leg>)
    requires KeyPair(c, sk, pk) && RegularFields(record)
    ensures var r := Travel(c, sk, SignRecord(c, record, sk), legs);
      && VerifyRecordSignature(c, r, pk) == Checked(true)
      && WorkerPayload(r) == SigningPayload(r) == SigningPayload(record)
  {
    SignKeepsPayload(c, record, sk);
    JourneyKeepsSignature(c, sk, SignRecord(c, record, sk), SigningPayload(record), legs);
    var r := Travel(c, sk, SignRecord(c, record, sk), legs);
    CopiesAgree(Obj(Unsigned(r)));
  }

  /** A record carrying sk's signature of this payload. */
  ghost predicate Carries(c: Crypto, sk: string, record: seq<Field>, payload: string) {
    && RegularFields(record)
    && SigningPayload(record) == payload
    && Lookup(record, "signature") == Str(c.sign(sk, payload))
  }

  lemma {:induction false} LegKeepsSignature(c: Crypto, sk: string, record: seq<Field>, payload: string, leg: Leg)
    requires Carries(c, sk, record, payload)
    ensures Carries(c, sk, TravelLeg(c, sk, record, leg), payload)
  {
    if leg == Trip {
      TripKeepsPayload(record);
    } else {
      SignKeepsPayload(c, record, sk);
    }
  }

  lemma {:induction false} JourneyKeepsSignature(c: Crypto, sk: string, record: seq<Field>, payload: string,
                                                 legs: seq<Leg>)
    requires Carries(c, sk, record, payload)
    ensures Carries(c, sk, Travel(c, sk, record, legs), payload)
    decreases |legs|
  {
    if legs != [] {
      LegKeepsSignature(c, sk, record, payload, legs[0]);
      JourneyKeepsSignature(c, sk, TravelLeg(c, sk, record, legs[0]), payload, legs[1..]);
    }
  }

  /** Under an exact key pair, a signature made for one record is accepted for another only if they are the
      same value apart from their signatures. */
  lemma {:induction false} PayloadBinds(c: Crypto, a: seq<Field>, b: seq<Field>, sk: string, pk: string)
    requires ExactKeyPair(c, sk, pk) && RegularFields(a) && RegularFields(b)
    requires c.verify(pk, SigningPayload(b), c.sign(sk, SigningPayload(a)))
    ensures SameValue(Obj(Unsigned(a)), Obj(Unsigned(b)))
  {
    UnsignedRegular(a);
    UnsignedRegular(b);
    CanonicalTextIff(Obj(Unsigned(a)), Obj(Unsigned(b)));
  }

  /** With exact keys, a signature made for one record is accepted on another exactly when their
      unsigned parts are the same value. */
  lemma {:induction false} SignatureBindsRecord(c: Crypto, sk: string, pk: string, record: seq<Field>,
                                                other: seq<Field>)
    requires ExactKeyPair(c, sk, pk) && RegularFields(record) && RegularFields(other)
    requires Lookup(other, "signature") == Lookup(SignRecord(c, record, sk), "signature")
    ensures VerifyRecordSignature(c, other, pk) == Checked(true)
       <==> SameValue(Obj(Unsigned(record)), Obj(Unsigned(other)))
  {
    SignKeepsPayload(c, record, sk);
    UnsignedRegular(record);
    UnsignedRegular(other);
    CanonicalTextIff(Obj(Unsigned(record)), Obj(Unsigned(other)));
  }

  /** A record and the same record with an own "__proto__" field have one payload. */
  lemma {:induction false} ProtoFieldNotSigned(record: seq<Field>, val: Json)
    requires RegularFields(record) && Regular(val) && "__proto__" !in Keys(record)
    ensures SigningPayload(record + [Field("__proto__", val)]) == SigningPayload(record)
  {
    var f := Field("__proto__", val);
    var more := record + [f];
    assert Keys(more) == Keys(record) + ["__proto__"];
    UnsignedRegular(record);
    UnsignedRegular(more);
    WithoutAppend(record, f);
    var u := Unsigned(record);
    forall k | k != "__proto__" ensures Lookup(u, k) == Lookup(u + [f], k) {
      LookupAppend(u, f, k);
    }
    SameByLookup(u, u + [f]);
    CanonicalTextIff(Obj(u), Obj(u + [f]));
  }

  lemma {:induction false} SameByLookup(f: seq<Field>, g: seq<Field>)
    requires forall k :: k != "__proto__" ==> Lookup(f, k) == Lookup(g, k)
    ensures SameValue(Obj(f), Obj(g))
  {
    forall k | Kept(f, k) ensures SameValue(Lookup(f, k), Lookup(g, k)) {
      SameReflexive(Lookup(f, k));
    }
  }

  lemma {:induction false} WithoutAppend(fields: seq<Field>, f: Field)
    requires f.key != "signature"
    ensures Unsigned(fields + [f]) == Unsigned(fields) + [f]
  {
    if fields != [] {
      WithoutAppend(fields[1..], f);
      assert (fields + [f])[1..] == fields[1..] + [f];
    } else {
      assert [] + [f] == [f];
      assert [f][1..] == [];
    }
  }

  lemma {:induction false} LookupAppend(fields: seq<Field>, f: Field, k: string)
    requires f.key != k
    ensures Lookup(fields + [f], k) == Lookup(fields, k)
  {
    if fields != [] {
      LookupAppend(fields[1..], f, k);
      assert (fields + [f])[1..] == fields[1..] + [f];
    }
  }

  // ----- snapshots -----

  lemma {:induction false} SnapshotUnsigned(c: Crypto, snapshot: seq<Field>, sk: string, keyId: string)
    requires RegularFields(snapshot)
    ensures Unsigned(SignSnapshot(c, snapshot, sk, keyId)) == Set(Unsigned(snapshot), "publicKeyId", Str(keyId))
  {
    var withId := Set(snapshot, "publicKeyId", Str(keyId));
    SetLaws(snapshot, "publicKeyId", Str(keyId));
    var payload := CanonicalJson(Obj(Set(Unsigned(snapshot), "publicKeyId", Str(keyId))));
    SetLaws(withId, "signature", Str(c.sign(sk, payload)));
    SetWithoutCommute(snapshot, "publicKeyId", "signature", Str(keyId));
  }

  /** signSnapshot signs the payload that verifySnapshotSignature recomputes. */
  lemma {:induction false} SnapshotPayload(c: Crypto, snapshot: seq<Field>, sk: string, keyId: string)
    requires RegularFields(snapshot)
    ensures var s := SignSnapshot(c, snapshot, sk, keyId);
      && RegularFields(s)
      && Lookup(s, "publicKeyId") == Str(keyId)
      && Lookup(s, "signature") == Str(c.sign(sk, SigningPayload(s)))
  {
    SnapshotUnsigned(c, snapshot, sk, keyId);
    var withId := Set(snapshot, "publicKeyId", Str(keyId));
    var sig := c.sign(sk, CanonicalJson(Obj(Set(Unsigned(snapshot), "publicKeyId", Str(keyId)))));
    SetLaws(snapshot, "publicKeyId", Str(keyId));
    SetRegular(snapshot, "publicKeyId", keyId);
    SetLaws(withId, "signature", Str(sig));
    SetRegular(withId, "signature", sig);
    SetOther(withId, "signature", "publicKeyId", Str(sig));
  }

  lemma {:induction false} SetOther(fields: seq<Field>, put: string, key: string, val: Json)
    requires put != key
    ensures Lookup(Set(fields, put, val), key) == Lookup(fields, key)
  {
    if fields != [] {
      SetOther(fields[1..], put, key, val);
      if fields[0].key == put {
        assert ([Field(put, val)] + fields[1..])[1..] == fields[1..];
      } else {
        assert ([fields[0]] + Set(fields[1..], put, val))[1..] == Set(fields[1..], put, val);
      }
    }
  }

  datatype SnapshotLeg = SnapshotTrip | SnapshotSign(keyId: string)

  function SnapshotTravelLeg(c: Crypto, sk: string, snapshot: seq<Field>, leg: SnapshotLeg): seq<Field> {
    match leg
    case SnapshotTrip => TravelLeg(c, sk, snapshot, Trip)
    case SnapshotSign(keyId) => SignSnapshot(c, snapshot, sk, keyId)
  }

  function SnapshotTravel(c: Crypto, sk: string, snapshot: seq<Field>, legs: seq<SnapshotLeg>): seq<Field>
    decreases |legs|
  {
    if legs == [] then snapshot else SnapshotTravel(c, sk, SnapshotTravelLeg(c, sk, snapshot, legs[0]), legs[1..])
  }

  lemma {:induction false} SnapshotJourney(c: Crypto, sk: string, snapshot: seq<Field>, legs: seq<SnapshotLeg>)
    requires Carries(c, sk, snapshot, SigningPayload(snapshot))
    ensures var s := SnapshotTravel(c, sk, snapshot, legs); Carries(c, sk, s, SigningPayload(s))
    decreases |legs|
  {
    if legs != [] {
      match legs[0] {
        case SnapshotTrip => TripKeepsPayload(snapshot);
        case SnapshotSign(keyId) => SnapshotPayload(c, snapshot, sk, keyId);
      }
      SnapshotJourney(c, sk, SnapshotTravelLeg(c, sk, snapshot, legs[0]), legs[1..]);
    }
  }

  /** A signed snapshot verifies after any sequence of JSON trips and signings under any key ids,
      whatever signature and key id it had before. */
  lemma {:induction false} SignedSnapshotVerifies(c: Crypto, sk: string, pk: string, snapshot: seq<Field>,
                                                  keyId: string, legs: seq<SnapshotLeg>)
    requires KeyPair(c, sk, pk) && RegularFields(snapshot)
    ensures VerifySnapshotSignature(c, SnapshotTravel(c, sk, SignSnapshot(c, snapshot, sk, keyId), legs), pk)
  {
    SnapshotPayload(c, snapshot, sk, keyId);
    SnapshotJourney(c, sk, SignSnapshot(c, snapshot, sk, keyId), legs);
  }

  /** Signing a snapshot again under another key id gives what signing it once would have given. */
  lemma {:induction false} ResignSnapshot(c: Crypto, snapshot: seq<Field>, sk: string, keyId: string, sk': string,
                                          keyId': string)
    requires RegularFields(snapshot)
    ensures SigningPayload(SignSnapshot(c, SignSnapshot(c, snapshot, sk, keyId), sk', keyId'))
         == SigningPayload(SignSnapshot(c, snapshot, sk', keyId'))
  {
    var once := SignSnapshot(c, snapshot, sk, keyId);
    SnapshotPayload(c, snapshot, sk, keyId);
    SnapshotUnsigned(c, snapshot, sk, keyId);
    SnapshotUnsigned(c, snapshot, sk', keyId');
    SnapshotUnsigned(c, once, sk', keyId');
    SetTwice(Unsigned(snapshot), "publicKeyId", Str(keyId), Str(keyId'));
  }

  lemma {:induction false} SetTwice(fields: seq<Field>, key: string, a: Json, b: Json)
    ensures Set(Set(fields, key, a), key, b) == Set(fields, key, b)
  {
    if fields != [] {
      SetTwice(fields[1..], key, a, b);
      if fields[0].key == key {
        assert ([Field(key, a)] + fields[1..])[1..] == fields[1..];
      } else {
        assert ([fields[0]] + Set(fields[1..], key, a))[1..] == Set(fields[1..], key, a);
      }
    } else {
      assert [Field(key, a)][1..] == [];
      assert [Field(key, b)] + [] == [Field(key, b)];
    }
  }
}
