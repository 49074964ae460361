/** What verifyPublicRecord accepts, said of the fields of a record, and what a rejection says. */
module Acceptance {
  import opened Json
  import opened Canonical
  import opened Signing
  import opened Events
  import opened Store
  import opened Coordinator
  import opened MeshInvariants

  /** Letters and digits by their codes, and four marks. */
  predicate Allowed(c: char) {
    65 <= c as int <= 90 || 97 <= c as int <= 122 || 48 <= c as int <= 57 || c in {'.', '_', ':', '-'}
  }

  /** The value is the number of a whole number in this range. */
  ghost predicate WholeWithin(v: Json, low: int, high: int) { exists n :: low <= n <= high && v == Int(n) }

  /** The text of a value; "" when it is none. */
  function TextIn(v: Json): string { match v case Str(t) => t case _ => "" }

  /** What the fields of a record must satisfy, in the order in which it is asked. */
  ghost predicate Condition(env: Env, r: Json, now: int, i: nat) {
    if i < 7 then
      IdentityHolds(env, r.Obj? || r.Arr?, Child(r, "schema"), Child(r, "networkId"), Child(r, "nodeId"),
                    Child(r, "protocol"), Child(r, "endpoint"), Child(r, "ingress"), i)
    else if i < 11 then LifecycleHolds(env, Child(r, "lifecycle"), now, i)
    else if i < 14 then KeyHolds(env, TextIn(Child(r, "publicKeyId")), TextIn(Child(r, "signature")), i)
    else Signed(env, r)
  }

  ghost predicate IdentityHolds(env: Env, isObject: bool, schema: Json, networkId: Json, nodeId: Json, protocol: Json,
                                endpoint: Json, ingress: Json, i: nat) {
    match i
    case 0 => isObject
    case 1 => schema == Str("animamesh.proxy.v1")
    case 2 => env.networkId != "" ==> networkId == Str(env.networkId)
    case 3 => TextIn(nodeId) != "" && forall c :: c in TextIn(nodeId) ==> Allowed(c)
    case 4 => protocol == Str("vless") || protocol == Str("hysteria2")
    case 5 => Truthy(endpoint) && env.validHost(TextIn(Child(endpoint, "host")), TextIn(ingress))
    case _ => WholeWithin(Child(endpoint, "port"), 1, 65535)
  }

  ghost predicate LifecycleHolds(env: Env, lifecycle: Json, now: int, i: nat) {
    var expires := env.parseDate(TextIn(Child(lifecycle, "expiresAt")));
    match i
    case 7 => expires.Some? && now < expires.value
    case 8 => expires.Some? ==> expires.value <= now + 7_200_000
    case 9 => env.parseDate(TextIn(Child(lifecycle, "heartbeatAt"))).Some?
    case _ => WholeWithin(Child(lifecycle, "ttlSeconds"), 60, 7200)
  }

  predicate KeyHolds(env: Env, keyId: string, signature: string, i: nat) {
    match i
    case 11 => keyId != "" && signature != ""
    case 12 => keyId in env.publicKeys || keyId !in INHERITED
    case _ => keyId in env.publicKeys && env.publicKeys[keyId] != ""
  }

  const CONDITIONS: nat := 15

  /** The key the record names accepts its signature for the payload that the node signs. */
  ghost predicate Signed(env: Env, r: Json) {
    && r.Obj? && TextOf(r, "publicKeyId") in env.publicKeys
    && env.crypto.verify(env.publicKeys[TextOf(r, "publicKeyId")], SigningPayload(r.fields), TextOf(r, "signature"))
  }

  function ErrorOf(i: nat): Error {
    match i
    case 0 => MissingRecord
    case 1 => UnsupportedSchema
    case 2 => WrongNetworkId
    case 3 => InvalidNodeId
    case 4 => UnsupportedProtocol
    case 5 => InvalidEndpointHost
    case 6 => InvalidEndpointPort
    case 7 => RecordExpired
    case 8 => ExpiresTooFar
    case 9 => InvalidHeartbeatAt
    case 10 => InvalidTtlSeconds
    case 11 => MissingSignature
    case 12 => BadSignature
    case 13 => UnknownPublicKeyId
    case _ => BadSignature
  }

  ghost predicate Meets(env: Env, r: Json, now: int, n: nat) {
    forall i: nat :: i < n ==> Condition(env, r, now, i)
  }

  // ----- the tests of the source against the conditions -----

  lemma {:induction false} CharsIff(s: string)
    ensures AllNodeIdChars(s) <==> forall c :: c in s ==> Allowed(c)
  {
    if s != "" {
      CharsIff(s[1..]);
      assert NodeIdChar(s[0]) <==> Allowed(s[0]);
      assert s == [s[0]] + s[1..];
    }
  }

  lemma {:induction false} IntegerIff(v: Json, low: nat, high: nat)
    ensures IntegerWithin(v, low, high) <==> WholeWithin(v, low, high)
  {
    if IntegerWithin(v, low, high) { assert v == Int(v.whole); }
  }

  lemma {:induction false} IdentityStep(env: Env, r: Json, now: int, i: nat)
    requires i < 7 && Meets(env, r, now, i)
    ensures i > 0 ==> Condition(env, r, now, 0)
    ensures i > 1 ==> Condition(env, r, now, 1)
    ensures i > 2 ==> Condition(env, r, now, 2)
    ensures i > 3 ==> Condition(env, r, now, 3)
    ensures i > 4 ==> Condition(env, r, now, 4)
    ensures i > 5 ==> Condition(env, r, now, 5)
  {
  }

  lemma {:induction false} EarlyFirst(env: Env, r: Json, now: int, i: nat)
    requires i < 3 && Meets(env, r, now, i) && !Condition(env, r, now, i)
    ensures CheckIdentity(env, IdentityOf(r)) == Rejected(ErrorOf(i))
  {
    IdentityStep(env, r, now, i);
  }

  lemma {:induction false} MiddleFirst(env: Env, r: Json, now: int, i: nat)
    requires 3 <= i < 5 && Meets(env, r, now, i) && !Condition(env, r, now, i)
    ensures CheckIdentity(env, IdentityOf(r)) == Rejected(ErrorOf(i))
  {
    CharsIff(TextOf(r, "nodeId"));
    IdentityStep(env, r, now, i);
  }

  /** The identity checks up to the protocol are passed. */
  lemma {:induction false} EndpointNext(env: Env, r: Json, now: int, d: Identity)
    requires Meets(env, r, now, 5) && d == IdentityOf(r)
    ensures r.Obj?
    ensures CheckIdentity(env, d)
         == if !d.hasEndpoint || !env.validHost(d.host, d.ingress) then Rejected(InvalidEndpointHost)
            else if !d.validPort then Rejected(InvalidEndpointPort)
            else Accepted
  {
    CharsIff(TextOf(r, "nodeId"));
    assert Condition(env, r, now, 0) && Condition(env, r, now, 1) && Condition(env, r, now, 2);
    assert Condition(env, r, now, 3) && Condition(env, r, now, 4);
  }

  lemma {:induction false} HostIff(env: Env, r: Json, now: int, d: Identity)
    requires d == IdentityOf(r)
    ensures Condition(env, r, now, 5) <==> d.hasEndpoint && env.validHost(d.host, d.ingress)
  {
  }

  lemma {:induction false} PortIff(env: Env, r: Json, now: int, d: Identity)
    requires d == IdentityOf(r)
    ensures Condition(env, r, now, 6) <==> d.validPort
  {
    IntegerIff(Child(Child(r, "endpoint"), "port"), 1, 65535);
  }

  lemma {:induction false} IdentityFirst(env: Env, r: Json, now: int, i: nat)
    requires i < 7 && Meets(env, r, now, i) && !Condition(env, r, now, i)
    ensures CheckIdentity(env, IdentityOf(r)) == Rejected(ErrorOf(i))
  {
    if i < 3 {
      EarlyFirst(env, r, now, i);
    } else if i < 5 {
      MiddleFirst(env, r, now, i);
    } else {
      MeetsFewer(env, r, now, 5, i);
      EndpointNext(env, r, now, IdentityOf(r));
      HostIff(env, r, now, IdentityOf(r));
      PortIff(env, r, now, IdentityOf(r));
      assert i > 5 ==> Condition(env, r, now, 5);
    }
  }

  lemma {:induction false} IdentityAll(env: Env, r: Json, now: int)
    requires Meets(env, r, now, 7)
    ensures CheckIdentity(env, IdentityOf(r)) == Accepted && r.Obj?
  {
    MeetsFewer(env, r, now, 5, 7);
    EndpointNext(env, r, now, IdentityOf(r));
    HostIff(env, r, now, IdentityOf(r));
    PortIff(env, r, now, IdentityOf(r));
    assert Condition(env, r, now, 5) && Condition(env, r, now, 6);
  }

  lemma {:induction false} LifecycleFirst(env: Env, r: Json, now: int, i: nat)
    requires 7 <= i < 11 && Meets(env, r, now, i) && !Condition(env, r, now, i)
    ensures CheckLifecycle(env, r, now) == Rejected(ErrorOf(i))
  {
    IntegerIff(Child(Child(r, "lifecycle"), "ttlSeconds"), 60, 7200);
    assert i > 7 ==> Condition(env, r, now, 7);
    assert i > 8 ==> Condition(env, r, now, 8);
    assert i > 9 ==> Condition(env, r, now, 9);
  }

  lemma {:induction false} LifecycleAll(env: Env, r: Json, now: int)
    requires Meets(env, r, now, 11)
    ensures CheckLifecycle(env, r, now) == Accepted
  {
    IntegerIff(Child(Child(r, "lifecycle"), "ttlSeconds"), 60, 7200);
    assert Condition(env, r, now, 7) && Condition(env, r, now, 8);
    assert Condition(env, r, now, 9) && Condition(env, r, now, 10);
  }

  lemma {:induction false} PayloadsAgree(fields: seq<Field>)
    ensures WorkerPayload(fields) == SigningPayload(fields)
  {
    CopiesAgree(Obj(Unsigned(fields)));
  }

  lemma {:induction false} KeyFirst(env: Env, r: Json, now: int, i: nat)
    requires 11 <= i < 14 && Meets(env, r, now, i) && !Condition(env, r, now, i)
    ensures CheckSignature(env, r) == Rejected(ErrorOf(i))
  {
    assert i > 11 ==> Condition(env, r, now, 11);
    assert i > 12 ==> Condition(env, r, now, 12);
  }

  lemma {:induction false} SignatureFirst(env: Env, r: Json, now: int, i: nat)
    requires 11 <= i < CONDITIONS && r.Obj? && Meets(env, r, now, i) && !Condition(env, r, now, i)
    ensures CheckSignature(env, r) == Rejected(ErrorOf(i))
  {
    if i < 14 {
      KeyFirst(env, r, now, i);
    } else {
      PayloadsAgree(r.fields);
      assert Condition(env, r, now, 11) && Condition(env, r, now, 12) && Condition(env, r, now, 13);
    }
  }

  lemma {:induction false} SignatureAll(env: Env, r: Json, now: int)
    requires r.Obj? && Meets(env, r, now, CONDITIONS)
    ensures CheckSignature(env, r) == Accepted
  {
    PayloadsAgree(r.fields);
    assert Condition(env, r, now, 11) && Condition(env, r, now, 12);
    assert Condition(env, r, now, 13) && Condition(env, r, now, 14);
  }

  lemma {:induction false} MeetsFewer(env: Env, r: Json, now: int, m: nat, n: nat)
    requires Meets(env, r, now, n) && m <= n
    ensures Meets(env, r, now, m)
  {
  }

  /** A record is rejected with the error of the first condition it does not meet. */
  lemma {:induction false} FirstFailure(env: Env, r: Json, now: int, i: nat)
    requires i < CONDITIONS && Meets(env, r, now, i) && !Condition(env, r, now, i)
    ensures VerifyPublicRecord(env, r, now) == Rejected(ErrorOf(i))
  {
    if i < 7 {
      IdentityFirst(env, r, now, i);
    } else {
      MeetsFewer(env, r, now, 7, i);
      IdentityAll(env, r, now);
      if i < 11 {
        LifecycleFirst(env, r, now, i);
      } else {
        MeetsFewer(env, r, now, 11, i);
        LifecycleAll(env, r, now);
        SignatureFirst(env, r, now, i);
      }
    }
  }

  lemma {:induction false} AllMet(env: Env, r: Json, now: int)
    requires Meets(env, r, now, CONDITIONS)
    ensures Accepts(env, r, now)
  {
    MeetsFewer(env, r, now, 7, CONDITIONS);
    MeetsFewer(env, r, now, 11, CONDITIONS);
    IdentityAll(env, r, now);
    LifecycleAll(env, r, now);
    SignatureAll(env, r, now);
  }

  lemma {:induction false} FirstUnmet(env: Env, r: Json, now: int, n: nat) returns (i: nat)
    requires !Meets(env, r, now, n)
    ensures i < n && Meets(env, r, now, i) && !Condition(env, r, now, i)
  {
    if Meets(env, r, now, n - 1) {
      i := n - 1;
    } else {
      i := FirstUnmet(env, r, now, n - 1);
    }
  }

  /** A record is accepted if and only if its fields meet all conditions; the last of them is that the key
      it names accepts its signature. */
  lemma {:induction false} AcceptsIff(env: Env, r: Json, now: int)
    ensures Accepts(env, r, now) <==> Meets(env, r, now, CONDITIONS)
    ensures Accepts(env, r, now) ==> Signed(env, r) && env.publicKeys[TextOf(r, "publicKeyId")] != ""
  {
    if Meets(env, r, now, CONDITIONS) {
      AllMet(env, r, now);
      assert Condition(env, r, now, 13) && Condition(env, r, now, 14);
    } else {
      var i := FirstUnmet(env, r, now, CONDITIONS);
      FirstFailure(env, r, now, i);
    }
  }

  // ----- forged and genuine signatures -----

  /** A record that carries a signature made for some record, by the holder of the key it names, is accepted
      only if it is that record. */
  lemma {:induction false} NoForgery(env: Env, sk: string, original: seq<Field>, r: Json, now: int)
    requires r.Obj? && RegularFields(original) && RegularFields(r.fields)
    requires TextOf(r, "publicKeyId") in env.publicKeys
    requires ExactKeyPair(env.crypto, sk, env.publicKeys[TextOf(r, "publicKeyId")])
    requires TextOf(r, "signature") == env.crypto.sign(sk, SigningPayload(original))
    requires Accepts(env, r, now)
    ensures SameValue(Obj(Unsigned(original)), Obj(Unsigned(r.fields)))
  {
    AcceptsIff(env, r, now);
    PayloadBinds(env.crypto, original, r.fields, sk, env.publicKeys[TextOf(r, "publicKeyId")]);
  }

  lemma {:induction false} SignedChild(c: Crypto, record: seq<Field>, sk: string, key: string)
    requires key != "signature"
    ensures Child(Obj(SignRecord(c, record, sk)), key) == Child(Obj(record), key)
  {
    SetOther(record, "signature", key, Str(c.sign(sk, SigningPayload(record))));
  }

  lemma {:induction false} SameChildren(env: Env, r: Json, s: Json, now: int, i: nat)
    requires i < 14 && i != 11 && r.Obj? && s.Obj?
    requires Child(r, "schema") == Child(s, "schema") && Child(r, "networkId") == Child(s, "networkId")
    requires Child(r, "nodeId") == Child(s, "nodeId") && Child(r, "protocol") == Child(s, "protocol")
    requires Child(r, "ingress") == Child(s, "ingress") && Child(r, "endpoint") == Child(s, "endpoint")
    requires Child(r, "lifecycle") == Child(s, "lifecycle") && Child(r, "publicKeyId") == Child(s, "publicKeyId")
    ensures Condition(env, r, now, i) <==> Condition(env, s, now, i)
  {
  }

  lemma {:induction false} SignedCondition(env: Env, record: seq<Field>, sk: string, now: int, i: nat)
    requires i < 14 && i != 11
    ensures Condition(env, Obj(SignRecord(env.crypto, record, sk)), now, i) <==> Condition(env, Obj(record), now, i)
  {
    SignedChild(env.crypto, record, sk, "schema");
    SignedChild(env.crypto, record, sk, "networkId");
    SignedChild(env.crypto, record, sk, "nodeId");
    SignedChild(env.crypto, record, sk, "protocol");
    SignedChild(env.crypto, record, sk, "ingress");
    SignedChild(env.crypto, record, sk, "endpoint");
    SignedChild(env.crypto, record, sk, "lifecycle");
    SignedChild(env.crypto, record, sk, "publicKeyId");
    SameChildren(env, Obj(SignRecord(env.crypto, record, sk)), Obj(record), now, i);
  }

  /** What the node signs the worker accepts: a record whose fields meet the conditions and that names a
      configured key, once signed with the private half of that key. */
  lemma {:induction false} SignedIsAccepted(env: Env, record: seq<Field>, sk: string, now: int)
    requires RegularFields(record) && Meets(env, Obj(record), now, 11)
    requires TextOf(Obj(record), "publicKeyId") != "" && TextOf(Obj(record), "publicKeyId") in env.publicKeys
    requires env.publicKeys[TextOf(Obj(record), "publicKeyId")] != ""
    requires KeyPair(env.crypto, sk, env.publicKeys[TextOf(Obj(record), "publicKeyId")])
    requires env.crypto.sign(sk, SigningPayload(record)) != ""
    ensures Accepts(env, Obj(SignRecord(env.crypto, record, sk)), now)
  {
    var signed := SignRecord(env.crypto, record, sk);
    SignKeepsPayload(env.crypto, record, sk);
    SignedChild(env.crypto, record, sk, "publicKeyId");
    forall i: nat | i < CONDITIONS ensures Condition(env, Obj(signed), now, i) {
      if i < 14 && i != 11 { SignedCondition(env, record, sk, now, i); }
      assert i < 11 ==> Condition(env, Obj(record), now, i);
    }
    AcceptsIff(env, Obj(signed), now);
  }

  // ----- what is stored was signed -----

  /** In every run, each live mesh value reads as a record that meets all conditions, its signature
      included, at the time of the request that wrote it. */
  lemma {:induction false} StoredIsSigned(env: Env, ts: seq<Timed<Request>>, k: string)
    requires forall i :: 0 <= i < |ts| ==> WellFormed(ts[i].act)
    requires IsMeshKey(k) && k in Run(env, map[], ts)
    ensures var r := Read(Run(env, map[], ts)[k].value);
      Signed(env, r) && exists i :: 0 <= i < |ts| && Meets(env, r, ts[i].now, CONDITIONS)
  {
    var r := Read(Run(env, map[], ts)[k].value);
    GenuineInEveryRun(env, ts, k);
    var i :| 0 <= i < |ts| && Wrote(env, ts[i], k, Run(env, map[], ts)[k].value) && Accepts(env, r, ts[i].now);
    AcceptsIff(env, r, ts[i].now);
  }
}
