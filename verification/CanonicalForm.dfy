/** The canonical form, told from the value: what it keeps, in which order, at every level. */
module CanonicalForm {
  import opened Text
  import opened Json
  import opened Canonical
  import opened Signing

  /** r has the fields of v that hold something, "__proto__" aside, by ascending key, and their values are
      canonical in turn; array elements stand where they stood; everything else is as it was. */
  ghost predicate IsCanonicalOf(v: Json, r: Json)
    decreases v
  {
    match v
    case Arr(items) =>
      && r.Arr? && |r.items| == |items|
      && forall i :: 0 <= i < |items| ==> IsCanonicalOf(items[i], r.items[i])
    case Obj(fields) =>
      && r.Obj? && Ascending(Keys(r.fields))
      && (forall k :: k in Keys(r.fields) <==> k != "__proto__" && Lookup(fields, k) != Undefined)
      && forall k :: k in Keys(r.fields) ==>
           (assert fields decreases to Lookup(fields, k);
            IsCanonicalOf(Lookup(fields, k), Lookup(r.fields, k)))
    case _ => r == v
  }

  lemma {:induction false} FieldsShape(fields: seq<Field>, keys: seq<string>)
    requires Ascending(keys)
    ensures var r := CanonicalFields(fields, keys);
      && Ascending(Keys(r))
      && (forall k :: k in Keys(r) <==> k in keys && k != "__proto__" && Lookup(fields, k) != Undefined)
      && (forall i :: 0 <= i < |r| ==> r[i].val == Canonicalize(Lookup(fields, r[i].key)))
    decreases |keys|
  {
    if keys != [] {
      var rest := keys[1..];
      FieldsShape(fields, rest);
      assert keys == [keys[0]] + rest;
      if Kept(fields, keys[0]) {
        assert Keys(CanonicalFields(fields, keys)) == [keys[0]] + Keys(CanonicalFields(fields, rest));
        AscendingCons(keys[0], Keys(CanonicalFields(fields, rest)));
      }
    }
  }

  lemma {:induction false} ObjectShape(fields: seq<Field>, r: seq<Field>)
    requires Distinct(Keys(fields)) && Canonicalize(Obj(fields)) == Obj(r)
    ensures Ascending(Keys(r))
    ensures forall k :: k in Keys(r) <==> k != "__proto__" && Lookup(fields, k) != Undefined
    ensures forall k :: k in Keys(r) ==> Lookup(r, k) == Canonicalize(Lookup(fields, k))
  {
    SortKeysAscending(Keys(fields));
    FieldsShape(fields, SortKeys(Keys(fields)));
    AscendingDistinct(Keys(r));
    forall k | k in Keys(r) ensures Lookup(r, k) == Canonicalize(Lookup(fields, k)) {
      var i :| 0 <= i < |r| && Keys(r)[i] == k;
      LookupAt(r, i);
    }
  }

  lemma {:induction false} ItemsShape(items: seq<Json>)
    ensures forall i :: 0 <= i < |items| ==> CanonicalItems(items)[i] == Canonicalize(items[i])
  {
    if items != [] { ItemsShape(items[1..]); }
  }

  /** Objects with the same ascending keys and the same values are the same list of fields. */
  lemma {:induction false} AscendingFieldsUnique(a: seq<Field>, b: seq<Field>)
    requires Ascending(Keys(a)) && Ascending(Keys(b))
    requires forall k :: k in Keys(a) <==> k in Keys(b)
    requires forall k :: k in Keys(a) ==> Lookup(a, k) == Lookup(b, k)
    ensures a == b
  {
    AscendingUnique(Keys(a), Keys(b));
    AscendingDistinct(Keys(a));
    assert |a| == |Keys(a)| == |b|;
    forall i | 0 <= i < |a| ensures a[i] == b[i] {
      assert Keys(a)[i] == Keys(b)[i] && Keys(a)[i] in Keys(a);
      LookupAt(a, i);
      LookupAt(b, i);
    }
  }

  /** canonicalize gives the one value of this form. */
  lemma {:induction false} CanonicalIff(v: Json, r: Json)
    requires Regular(v)
    ensures r == Canonicalize(v) <==> IsCanonicalOf(v, r)
    decreases v, 1
  {
    match v
    case Arr(items) => if r.Arr? { ItemsIff(items, r.items); }
    case Obj(fields) => if r.Obj? { FieldsIff(fields, r.fields); }
    case _ =>
  }

  lemma {:induction false} ItemsIff(items: seq<Json>, r: seq<Json>)
    requires Regular(Arr(items))
    ensures Arr(r) == Canonicalize(Arr(items)) <==> IsCanonicalOf(Arr(items), Arr(r))
    decreases Arr(items), 0
  {
    ItemsShape(items);
    if |r| == |items| {
      forall i | 0 <= i < |items| ensures r[i] == Canonicalize(items[i]) <==> IsCanonicalOf(items[i], r[i]) {
        CanonicalIff(items[i], r[i]);
      }
      assert r == CanonicalItems(items) <==> forall i :: 0 <= i < |items| ==> r[i] == Canonicalize(items[i]);
    }
  }

  lemma {:induction false} FieldsIff(fields: seq<Field>, r: seq<Field>)
    requires Regular(Obj(fields))
    ensures Obj(r) == Canonicalize(Obj(fields)) <==> IsCanonicalOf(Obj(fields), Obj(r))
    decreases Obj(fields), 0
  {
    var c := Canonicalize(Obj(fields)).fields;
    ObjectShape(fields, c);
    forall k | Lookup(fields, k) != Undefined
      ensures Lookup(r, k) == Canonicalize(Lookup(fields, k)) <==> IsCanonicalOf(Lookup(fields, k), Lookup(r, k))
    {
      assert Obj(fields) decreases to Lookup(fields, k);
      CanonicalIff(Lookup(fields, k), Lookup(r, k));
    }
    if IsCanonicalOf(Obj(fields), Obj(r)) { AscendingFieldsUnique(r, c); }
  }

  // ----- what is signed -----

  /** The signature is the only field left out of what is signed. */
  lemma {:induction false} UnsignedIs(record: seq<Field>, k: string)
    ensures Lookup(Unsigned(record), k) == if k == "signature" then Undefined else Lookup(record, k)
  {
    if record != [] {
      UnsignedIs(record[1..], k);
      if record[0].key != "signature" { LookupCons(record[0], Unsigned(record[1..]), k); }
    }
  }

  /** Signing a snapshot sets its key id and its signature, and no other field. */
  lemma {:induction false} SnapshotKeeps(c: Crypto, snapshot: seq<Field>, sk: string, keyId: string, k: string)
    requires k != "publicKeyId" && k != "signature"
    ensures Lookup(SignSnapshot(c, snapshot, sk, keyId), k) == Lookup(snapshot, k)
  {
    var payload := CanonicalJson(Obj(Set(Unsigned(snapshot), "publicKeyId", Str(keyId))));
    SetOther(snapshot, "publicKeyId", k, Str(keyId));
    SetOther(Set(snapshot, "publicKeyId", Str(keyId)), "signature", k, Str(c.sign(sk, payload)));
  }

  /** With exact keys, the signature of a snapshot is accepted on another one exactly when they are the same
      value apart from it, the key id included. */
  lemma {:induction false} SnapshotBinds(c: Crypto, sk: string, pk: string, snapshot: seq<Field>, keyId: string,
                                         other: seq<Field>)
    requires ExactKeyPair(c, sk, pk) && RegularFields(snapshot) && RegularFields(other)
    requires Lookup(other, "signature") == Lookup(SignSnapshot(c, snapshot, sk, keyId), "signature")
    ensures VerifySnapshotSignature(c, other, pk)
      <==> SameValue(Obj(Unsigned(SignSnapshot(c, snapshot, sk, keyId))), Obj(Unsigned(other)))
  {
    var signed := SignSnapshot(c, snapshot, sk, keyId);
    SnapshotPayload(c, snapshot, sk, keyId);
    UnsignedRegular(signed);
    UnsignedRegular(other);
    CanonicalTextIff(Obj(Unsigned(signed)), Obj(Unsigned(other)));
  }
}
