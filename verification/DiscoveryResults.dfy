/** Which records a discovery returns, said of the records. */
module DiscoveryResults {
  import opened Text
  import opened Json
  import opened Canonical
  import opened Events
  import opened Signing
  import opened Discovery

  // ----- what a value is as text -----

  /** The element found by following the path through nested arrays. */
  function At(v: Json, path: seq<nat>): Option<Json>
    decreases |path|
  {
    if path == [] then Some(v)
    else if v.Arr? && path[0] < |v.items| then At(v.items[path[0]], path[1..])
    else None
  }

  ghost predicate HidesAt(v: Json, path: seq<nat>) {
    match At(v, path) case Some(Obj(fields)) => "toString" in Keys(fields) case _ => false
  }

  /** Conversion throws exactly when an object with an own toString stands somewhere in nested arrays, or is
      the value itself. */
  lemma {:induction false} UnconvertibleIff(v: Json)
    ensures Unconvertible(v) <==> exists path :: HidesAt(v, path)
    decreases v
  {
    if Unconvertible(v) {
      if v.Arr? {
        var i :| 0 <= i < |v.items| && Unconvertible(v.items[i]);
        UnconvertibleIff(v.items[i]);
        var path :| HidesAt(v.items[i], path);
        assert ([i] + path)[1..] == path && HidesAt(v, [i] + path);
      } else {
        assert HidesAt(v, []);
      }
    }
    if path :| HidesAt(v, path) && v.Arr? {
      assert path != [];
      UnconvertibleIff(v.items[path[0]]);
      assert HidesAt(v.items[path[0]], path[1..]);
    }
  }

  /** The text JavaScript makes of a value: an array joins the texts of its elements by commas, empty where
      they are null or undefined. */
  ghost predicate IsTextOf(v: Json, text: string)
    decreases v
  {
    match v
    case Undefined => text == "undefined"
    case Null => text == "null"
    case Bool(b) => text == if b then "true" else "false"
    case Num(_, _, _) => text == Print(v)
    case Str(t) => text == t
    case Arr(items) => exists parts :: |parts| == |items| && text == Join(parts) && PartsOf(items, parts)
    case Obj(_) => text == "[object Object]"
  }

  ghost predicate PartsOf(items: seq<Json>, parts: seq<string>)
    requires |parts| == |items|
    decreases items
  {
    forall i :: 0 <= i < |items| ==>
      if items[i].Null? || items[i].Undefined? then parts[i] == "" else IsTextOf(items[i], parts[i])
  }

  lemma {:induction false} KeyTextIff(v: Json, text: string)
    ensures text == KeyText(v) <==> IsTextOf(v, text)
    decreases v, 0
  {
    if v.Arr? {
      forall parts: seq<string> | |parts| == |v.items| ensures parts == KeyTexts(v.items) <==> PartsOf(v.items, parts) {
        KeyTextsIff(v.items, parts);
      }
      KeyTextsLength(v.items);
      assert PartsOf(v.items, KeyTexts(v.items));
    }
  }

  lemma {:induction false} KeyTextsLength(items: seq<Json>)
    ensures |KeyTexts(items)| == |items|
  {
    if items != [] { KeyTextsLength(items[1..]); }
  }

  lemma {:induction false} KeyTextsIff(items: seq<Json>, parts: seq<string>)
    requires |parts| == |items|
    ensures parts == KeyTexts(items) <==> PartsOf(items, parts)
    decreases items, 0
  {
    if items != [] {
      KeyTextIff(items[0], parts[0]);
      KeyTextsIff(items[1..], parts[1..]);
      assert items == [items[0]] + items[1..] && parts == [parts[0]] + parts[1..];
    }
  }

  // ----- which records pass -----

  /** Of the schema, network and protocol asked for, with a lifecycle that has not ended. */
  ghost predicate Current(c: Context, r: Json) {
    && r.Obj?
    && Child(r, "schema") == Str("animamesh.proxy.v1")
    && Child(r, "networkId") == Str(c.networkId)
    && Child(r, "protocol") == Str(c.protocol)
    && !Child(r, "lifecycle").Undefined? && !Child(r, "lifecycle").Null?
    && !Unconvertible(Child(Child(r, "lifecycle"), "expiresAt"))
    && (match c.dateOf(Child(Child(r, "lifecycle"), "expiresAt")) case None => true case Some(t) => c.now < t)
  }

  /** The signature field as the bytes that are verified. */
  ghost predicate Carries(c: Crypto, r: Json, bytes: string) {
    var s := Child(r, "signature");
    s == Str(bytes) || ((s.Arr? || s.Obj?) && c.bytesOf(s) == Some(bytes))
  }

  /** The key the record names is a usable key of the map and accepts the record's signature for the payload
      of its other fields. */
  ghost predicate WellSigned(c: Context, r: Json) {
    && r.Obj? && !Unconvertible(Child(r, "publicKeyId"))
    && (var name := KeyText(Child(r, "publicKeyId"));
        && name in c.publicKeys && c.publicKeys[name] != "" && c.usableKey(c.publicKeys[name])
        && exists bytes ::
             Carries(c.crypto, r, bytes) && c.crypto.verify(c.publicKeys[name], SigningPayload(r.fields), bytes))
  }

  lemma {:induction false} VerifiedIff(c: Crypto, r: Json, pk: string)
    requires r.Obj?
    ensures VerifyRecordSignature(c, r.fields, pk) == Checked(true)
      <==> exists bytes :: Carries(c, r, bytes) && c.verify(pk, SigningPayload(r.fields), bytes)
  {
    var s := SignatureBytes(c, Lookup(r.fields, "signature"));
    if s.Some? { assert Carries(c, r, s.value); }
  }

  lemma {:induction false} KeyIff(c: Context, r: Json)
    requires SchemaMatches(c, r)
    ensures CheckKey(c, r) == Checked(true) <==> WellSigned(c, r)
  {
    var name := KeyText(Child(r, "publicKeyId"));
    if name in c.publicKeys { VerifiedIff(c.crypto, r, c.publicKeys[name]); }
  }

  lemma {:induction false} PassesIff(c: Context, r: Json)
    ensures Examine(c, r) == Checked(true) <==> Current(c, r) && WellSigned(c, r)
  {
    if SchemaMatches(c, r) { KeyIff(c, r); }
  }

  /** The first record's heartbeat stands later, as text, both being there. */
  predicate BeatsLater(a: Json, b: Json) {
    match (Child(Child(a, "lifecycle"), "heartbeatAt"), Child(Child(b, "lifecycle"), "heartbeatAt"))
    case (Str(s), Str(t)) => UnitsLess(Units(t), Units(s))
    case _ => false
  }

  lemma {:induction false} LaterIff(a: Discovered, b: Discovered)
    ensures Later(a, b) <==> BeatsLater(a.record, b.record)
  {
    if Heartbeat(a).Some? && Heartbeat(b).Some? { LessIsUnitOrder(Heartbeat(b).value, Heartbeat(a).value); }
  }

  /** No two entries are of one node. */
  predicate OnePerNode(r: seq<Discovered>) {
    forall i, j :: 0 <= i < j < |r| ==> Child(r[i].record, "nodeId") != Child(r[j].record, "nodeId")
  }

  /** The entry of the node of e, and e is not later. */
  predicate StandsFor(d: Discovered, e: Discovered) {
    Child(d.record, "nodeId") == Child(e.record, "nodeId") && !BeatsLater(e.record, d.record)
  }

  lemma {:induction false} IdsDistinctIff(r: seq<Discovered>)
    ensures Distinct(IdsOf(r)) <==> OnePerNode(r)
  {
    forall i, j | 0 <= i < |r| && 0 <= j < |r|
      ensures IdsOf(r)[i] == IdsOf(r)[j] <==> Child(r[i].record, "nodeId") == Child(r[j].record, "nodeId")
    {
    }
  }

  lemma {:induction false} StandsForIff(d: Discovered, e: Discovered)
    ensures StandsFor(d, e) <==> Id(d) == Id(e) && !Later(e, d)
  {
    LaterIff(e, d);
  }

  /** When no record makes the loop throw, every entry returned is current and well signed, there is one for
      each node that has such a record, and no such record of the node is later. */
  lemma {:induction false} ReturnedAre(c: Context, results: seq<Option<Discovered>>, e: Discovered)
    requires Valid(c, results).Some?
    ensures var r := Deduplicate(Valid(c, results).value);
      && OnePerNode(r)
      && (e in r ==> Some(e) in results && Current(c, e.record) && WellSigned(c, e.record))
      && (Some(e) in results && Current(c, e.record) && WellSigned(c, e.record) ==>
            exists d :: d in r && StandsFor(d, e))
  {
    DiscoveryIs(c, results);
    var r := Deduplicate(Valid(c, results).value);
    IdsDistinctIff(r);
    PassesIff(c, e.record);
    if Some(e) in results && Passes(c, Some(e)) {
      var d :| d in r && Id(d) == Id(e) && !Later(e, d);
      StandsForIff(d, e);
    }
  }

  lemma {:induction false} TextIsVerified(c: Context, r: Json, signature: string)
    requires WellSigned(c, r) && Child(r, "signature") == Str(signature)
    ensures c.crypto.verify(c.publicKeys[KeyText(Child(r, "publicKeyId"))], SigningPayload(r.fields), signature)
  {
  }

  /** A record that carries the text of a signature made for some record, by the holder of the one key it
      names, is returned only if it is that record. */
  lemma {:induction false} NoForgery(c: Context, results: seq<Option<Discovered>>, e: Discovered, sk: string,
                                     original: seq<Field>)
    requires Valid(c, results).Some? && e in Deduplicate(Valid(c, results).value)
    requires e.record.Obj? && RegularFields(e.record.fields) && RegularFields(original)
    requires Child(e.record, "signature") == Str(c.crypto.sign(sk, SigningPayload(original)))
    requires var name := KeyText(Child(e.record, "publicKeyId"));
      name in c.publicKeys && ExactKeyPair(c.crypto, sk, c.publicKeys[name])
    ensures SameValue(Obj(Unsigned(original)), Obj(Unsigned(e.record.fields)))
  {
    ReturnedAre(c, results, e);
    TextIsVerified(c, e.record, c.crypto.sign(sk, SigningPayload(original)));
    var pk := c.publicKeys[KeyText(Child(e.record, "publicKeyId"))];
    PayloadBinds(c.crypto, original, e.record.fields, sk, pk);
  }

  /** What the node signs is well signed: a record that names a usable key, signed with its private half. */
  lemma {:induction false} SignedIsWellSigned(c: Context, record: seq<Field>, sk: string, keyId: string)
    requires RegularFields(record) && Child(Obj(record), "publicKeyId") == Str(keyId)
    requires keyId in c.publicKeys && c.publicKeys[keyId] != "" && c.usableKey(c.publicKeys[keyId])
    requires KeyPair(c.crypto, sk, c.publicKeys[keyId])
    ensures WellSigned(c, Obj(SignRecord(c.crypto, record, sk)))
    ensures Current(c, Obj(record)) ==> Current(c, Obj(SignRecord(c.crypto, record, sk)))
  {
    var signature := c.crypto.sign(sk, SigningPayload(record));
    var signed := Obj(SignRecord(c.crypto, record, sk));
    SignKeepsPayload(c.crypto, record, sk);
    SetOther(record, "signature", "publicKeyId", Str(signature));
    SetOther(record, "signature", "schema", Str(signature));
    SetOther(record, "signature", "networkId", Str(signature));
    SetOther(record, "signature", "protocol", Str(signature));
    SetOther(record, "signature", "lifecycle", Str(signature));
    assert Carries(c.crypto, signed, signature);
  }
}
