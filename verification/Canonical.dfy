/** Canonical JSON: the text both the mesh node and the worker sign and verify. */
module Canonical {
  import opened Text
  import opened Json
  import opened JsonRoundTrip

  // ----- the node's copy -----

  /** `sorted[key] = child` keeps a defined child, except that assigning "__proto__" sets the
      prototype of the new object instead of adding a property. */
  predicate Kept(fields: seq<Field>, key: string) {
    key != "__proto__" && Lookup(fields, key) != Undefined
  }

  function Canonicalize(v: Json): (r: Json)
    ensures r == Undefined <==> v == Undefined
    decreases v, 0, 0
  {
    match v
    case Arr(items) => Arr(CanonicalItems(items))
    case Obj(fields) => Obj(CanonicalFields(fields, SortKeys(Keys(fields))))
    case _ => v
  }

  function CanonicalItems(items: seq<Json>): (r: seq<Json>)
    ensures |r| == |items|
    decreases items, 0, 0
  {
    if items == [] then [] else [Canonicalize(items[0])] + CanonicalItems(items[1..])
  }

  function CanonicalFields(fields: seq<Field>, keys: seq<string>): (r: seq<Field>)
    decreases fields, 0, |keys|
  {
    if keys == [] then []
    else if Kept(fields, keys[0]) then
      assert fields decreases to Lookup(fields, keys[0]);
      [Field(keys[0], Canonicalize(Lookup(fields, keys[0])))] + CanonicalFields(fields, keys[1..])
    else CanonicalFields(fields, keys[1..])
  }

  /** canonicalJSONStringify(v), for v other than undefined. */
  function CanonicalJson(v: Json): string {
    Print(Canonicalize(v))
  }

  lemma {:induction false} ItemsStep(items: seq<Json>, i: nat)
    requires i < |items|
    ensures CanonicalItems(items[i..]) == [Canonicalize(items[i])] + CanonicalItems(items[i + 1..])
  {
    assert items[i..][1..] == items[i + 1..];
  }

  lemma {:induction false} FieldsStep(fields: seq<Field>, keys: seq<string>, i: nat)
    requires i < |keys|
    ensures CanonicalFields(fields, keys[i..])
         == (if Kept(fields, keys[i]) then [Field(keys[i], Canonicalize(Lookup(fields, keys[i])))] else [])
            + CanonicalFields(fields, keys[i + 1..])
  {
    assert keys[i..][1..] == keys[i + 1..];
  }

  /** The recursion and loops of the source, filling `sorted` key by key. */
  method CanonicalizeValue(v: Json) returns (r: Json)
    ensures r == Canonicalize(v)
    decreases v
  {
    match v
    case Arr(items) =>
      var mapped: seq<Json> := [];
      for i := 0 to |items|
        invariant mapped + CanonicalItems(items[i..]) == CanonicalItems(items)
      {
        ItemsStep(items, i);
        var child := CanonicalizeValue(items[i]);
        mapped := mapped + [child];
      }
      assert items[|items|..] == [];
      r := Arr(mapped);
    case Obj(fields) =>
      var keys := SortKeys(Keys(fields));
      var sorted: seq<Field> := [];
      for i := 0 to |keys|
        invariant sorted + CanonicalFields(fields, keys[i..]) == CanonicalFields(fields, keys)
      {
        FieldsStep(fields, keys, i);
        var child := Lookup(fields, keys[i]);
        if child != Undefined {
          assert fields decreases to child;
          var value := CanonicalizeValue(child);
          if keys[i] != "__proto__" {
            sorted := sorted + [Field(keys[i], value)];
          }
        }
      }
      assert keys[|keys|..] == [];
      r := Obj(sorted);
    case _ =>
      r := v;
  }

  // ----- the worker's copy -----

  predicate Truthy(v: Json) {
    match v
    case Undefined => false
    case Null => false
    case Bool(b) => b
    case Num(_, whole, frac) => whole != 0 || frac != ""
    case Str(t) => t != ""
    case _ => true
  }

  /** typeof v === "object" */
  predicate TypeofObject(v: Json) { v.Null? || v.Arr? || v.Obj? }

  function WorkerCanonicalize(v: Json): Json
    decreases v, 0, 0
  {
    if v.Arr? then Arr(WorkerItems(v.items))
    else if Truthy(v) && TypeofObject(v) then Obj(WorkerFields(v.fields, SortKeys(Keys(v.fields))))
    else v
  }

  function WorkerItems(items: seq<Json>): seq<Json>
    decreases items, 0, 0
  {
    if items == [] then [] else [WorkerCanonicalize(items[0])] + WorkerItems(items[1..])
  }

  function WorkerFields(fields: seq<Field>, keys: seq<string>): seq<Field>
    decreases fields, 0, |keys|
  {
    if keys == [] then []
    else if Kept(fields, keys[0]) then
      assert fields decreases to Lookup(fields, keys[0]);
      [Field(keys[0], WorkerCanonicalize(Lookup(fields, keys[0])))] + WorkerFields(fields, keys[1..])
    else WorkerFields(fields, keys[1..])
  }

  /** The two copies print the same text for every value. */
  lemma {:induction false} CopiesAgree(v: Json)
    ensures WorkerCanonicalize(v) == Canonicalize(v)
    decreases v, 0, 0
  {
    match v
    case Arr(items) => CopiesAgreeItems(items);
    case Obj(fields) => CopiesAgreeFields(fields, SortKeys(Keys(fields)));
    case _ =>
  }

  lemma {:induction false} CopiesAgreeItems(items: seq<Json>)
    ensures WorkerItems(items) == CanonicalItems(items)
    decreases items, 0, 0
  {
    if items != [] {
      CopiesAgree(items[0]);
      CopiesAgreeItems(items[1..]);
    }
  }

  lemma {:induction false} CopiesAgreeFields(fields: seq<Field>, keys: seq<string>)
    ensures WorkerFields(fields, keys) == CanonicalFields(fields, keys)
    decreases fields, 0, |keys|
  {
    if keys != [] {
      if Kept(fields, keys[0]) {
        assert fields decreases to Lookup(fields, keys[0]);
        CopiesAgree(Lookup(fields, keys[0]));
      }
      CopiesAgreeFields(fields, keys[1..]);
    }
  }

  // ----- when two values have the same canonical text -----

  predicate Nullish(v: Json) { v.Undefined? || v.Null? }

  /** The same JSON value, up to the order of object keys, fields holding undefined (null, in an
      array) and fields named "__proto__". */
  ghost predicate SameValue(v: Json, w: Json)
    decreases v
  {
    match v
    case Undefined => Nullish(w)
    case Null => Nullish(w)
    case Arr(items) =>
      && w.Arr?
      && |items| == |w.items|
      && forall i :: 0 <= i < |items| ==> SameValue(items[i], w.items[i])
    case Obj(fields) =>
      && w.Obj?
      && (forall k :: Kept(fields, k) <==> Kept(w.fields, k))
      && forall k :: Kept(fields, k) ==>
           (assert fields decreases to Lookup(fields, k);
            SameValue(Lookup(fields, k), Lookup(w.fields, k)))
    case _ => v == w
  }

  function Tidy(v: Json): Json { Strip(Canonicalize(v)) }

  function TidyFields(fields: seq<Field>, keys: seq<string>): seq<Field> {
    StripFields(CanonicalFields(fields, keys))
  }

  /** What the loop over the sorted keys has collected. */
  lemma {:induction false} TidyFieldsShape(fields: seq<Field>, keys: seq<string>)
    requires Ascending(keys)
    ensures var r := TidyFields(fields, keys);
      && Ascending(Keys(r))
      && (forall k :: k in Keys(r) <==> k in keys && Kept(fields, k))
      && (forall i :: 0 <= i < |r| ==> r[i].val == Tidy(Lookup(fields, r[i].key)))
    decreases |keys|
  {
    if keys != [] {
      var rest := keys[1..];
      TidyFieldsShape(fields, rest);
      assert keys == [keys[0]] + rest;
      if Kept(fields, keys[0]) {
        var f := Field(keys[0], Canonicalize(Lookup(fields, keys[0])));
        var g := Field(keys[0], Tidy(Lookup(fields, keys[0])));
        assert ([f] + CanonicalFields(fields, rest))[1..] == CanonicalFields(fields, rest);
        assert TidyFields(fields, keys) == [g] + TidyFields(fields, rest);
        assert Keys(TidyFields(fields, keys)) == [keys[0]] + Keys(TidyFields(fields, rest));
        AscendingCons(keys[0], Keys(TidyFields(fields, rest)));
      }
    }
  }

  lemma {:induction false} AscendingDistinct(s: seq<string>)
    requires Ascending(s)
    ensures Distinct(s)
  {
    forall i, j | 0 <= i < j < |s| ensures s[i] != s[j] {
      LessAsymmetric(s[i], s[j]);
    }
  }

  lemma {:induction false} TidyObject(fields: seq<Field>)
    requires Distinct(Keys(fields))
    ensures Tidy(Obj(fields)) == Obj(TidyFields(fields, SortKeys(Keys(fields))))
    ensures var r := TidyFields(fields, SortKeys(Keys(fields)));
      && Ascending(Keys(r))
      && (forall k :: k in Keys(r) <==> Kept(fields, k))
      && (forall k :: Kept(fields, k) ==> Lookup(r, k) == Tidy(Lookup(fields, k)))
      && (forall i :: 0 <= i < |r| ==> r[i].val == Tidy(Lookup(fields, r[i].key)))
  {
    SortKeysAscending(Keys(fields));
    TidyFieldsShape(fields, SortKeys(Keys(fields)));
    var r := TidyFields(fields, SortKeys(Keys(fields)));
    AscendingDistinct(Keys(r));
    forall k | Kept(fields, k) ensures Lookup(r, k) == Tidy(Lookup(fields, k)) {
      assert k in Keys(r);
      var i :| 0 <= i < |r| && r[i].key == k;
      LookupAt(r, i);
    }
  }

  lemma {:induction false} TidyItems(items: seq<Json>)
    ensures |StripItems(CanonicalItems(items))| == |items|
    ensures forall i :: 0 <= i < |items| ==> StripItems(CanonicalItems(items))[i] == Tidy(items[i])
  {
    if items != [] {
      TidyItems(items[1..]);
      assert CanonicalItems(items)[1..] == CanonicalItems(items[1..]);
    }
  }

  lemma {:induction false} TidyIffSame(v: Json, w: Json)
    requires Regular(v) && Regular(w)
    ensures Tidy(v) == Tidy(w) <==> SameValue(v, w)
    decreases v, 1
  {
    match v
    case Arr(items) => if w.Arr? { TidyIffSameItems(items, w.items); }
    case Obj(fields) => if w.Obj? { TidyIffSameFields(fields, w.fields); }
    case _ =>
  }

  lemma {:induction false} TidyIffSameItems(items: seq<Json>, others: seq<Json>)
    requires Regular(Arr(items)) && Regular(Arr(others))
    ensures Tidy(Arr(items)) == Tidy(Arr(others)) <==> SameValue(Arr(items), Arr(others))
    decreases Arr(items), 0
  {
    TidyItems(items);
    TidyItems(others);
    var r, s := StripItems(CanonicalItems(items)), StripItems(CanonicalItems(others));
    if |items| == |others| {
      forall i | 0 <= i < |items| ensures r[i] == s[i] <==> SameValue(items[i], others[i]) {
        TidyIffSame(items[i], others[i]);
      }
      if SameValue(Arr(items), Arr(others)) { assert r == s; }
    }
  }

  lemma {:induction false} TidyIffSameFields(fields: seq<Field>, others: seq<Field>)
    requires Regular(Obj(fields)) && Regular(Obj(others))
    ensures Tidy(Obj(fields)) == Tidy(Obj(others)) <==> SameValue(Obj(fields), Obj(others))
    decreases Obj(fields), 0
  {
    forall k | Kept(fields, k) && Kept(others, k)
      ensures Tidy(Lookup(fields, k)) == Tidy(Lookup(others, k)) <==>
              SameValue(Lookup(fields, k), Lookup(others, k))
    {
      assert Obj(fields) decreases to Lookup(fields, k);
      TidyIffSame(Lookup(fields, k), Lookup(others, k));
    }
    TidyObjects(fields, others);
  }

  ghost predicate KeptAlike(f: seq<Field>, g: seq<Field>) {
    && (forall k :: Kept(f, k) <==> Kept(g, k))
    && (forall k :: Kept(f, k) ==> Tidy(Lookup(f, k)) == Tidy(Lookup(g, k)))
  }

  /** Two objects tidy alike exactly when they keep the same keys with alike values. */
  lemma {:induction false} TidyObjects(f: seq<Field>, g: seq<Field>)
    requires Distinct(Keys(f)) && Distinct(Keys(g))
    ensures Tidy(Obj(f)) == Tidy(Obj(g)) <==> KeptAlike(f, g)
  {
    if KeptAlike(f, g) { AlikeTidies(f, g); }
    if Tidy(Obj(f)) == Tidy(Obj(g)) {
      TidyObject(f);
      TidyObject(g);
      var r := TidyFields(f, SortKeys(Keys(f)));
      forall k ensures Kept(f, k) <==> Kept(g, k) {
        assert k in Keys(r) <==> Kept(f, k);
      }
    }
  }

  lemma {:induction false} AlikeTidies(f: seq<Field>, g: seq<Field>)
    requires Distinct(Keys(f)) && Distinct(Keys(g)) && KeptAlike(f, g)
    ensures Tidy(Obj(f)) == Tidy(Obj(g))
  {
    TidyObject(f);
    TidyObject(g);
    var r, s := TidyFields(f, SortKeys(Keys(f))), TidyFields(g, SortKeys(Keys(g)));
    AscendingUnique(Keys(r), Keys(s));
    assert |r| == |Keys(r)| == |s|;
    forall i | 0 <= i < |r| ensures r[i] == s[i] {
      var k := Keys(r)[i];
      assert r[i].key == k == s[i].key && k in Keys(r);
    }
  }

  lemma {:induction false} CanonicalRegular(v: Json)
    requires Regular(v)
    ensures Regular(Canonicalize(v))
    decreases v, 0, 0
  {
    match v
    case Arr(items) => CanonicalItemsRegular(items);
    case Obj(fields) =>
      SortKeysAscending(Keys(fields));
      CanonicalFieldsRegular(fields, SortKeys(Keys(fields)));
    case _ =>
  }

  lemma {:induction false} CanonicalItemsRegular(items: seq<Json>)
    requires forall i :: 0 <= i < |items| ==> Regular(items[i])
    ensures forall i :: 0 <= i < |items| ==> Regular(CanonicalItems(items)[i])
    decreases items, 0, 0
  {
    if items != [] {
      CanonicalRegular(items[0]);
      CanonicalItemsRegular(items[1..]);
    }
  }

  lemma {:induction false} CanonicalFieldsRegular(fields: seq<Field>, keys: seq<string>)
    requires forall i :: 0 <= i < |fields| ==> Regular(fields[i].val)
    requires Ascending(keys)
    ensures var r := CanonicalFields(fields, keys);
      && Ascending(Keys(r))
      && (forall k :: k in Keys(r) ==> k in keys)
      && forall i :: 0 <= i < |r| ==> Regular(r[i].val)
    ensures Distinct(Keys(CanonicalFields(fields, keys)))
    decreases fields, 0, |keys|
  {
    if keys != [] {
      var rest := keys[1..];
      CanonicalFieldsRegular(fields, rest);
      assert keys == [keys[0]] + rest;
      if Kept(fields, keys[0]) {
        var child := Lookup(fields, keys[0]);
        assert fields decreases to child;
        CanonicalRegular(child);
        assert Keys(CanonicalFields(fields, keys)) == [keys[0]] + Keys(CanonicalFields(fields, rest));
        AscendingCons(keys[0], Keys(CanonicalFields(fields, rest)));
      }
    }
    AscendingDistinct(Keys(CanonicalFields(fields, keys)));
  }

  /** The canonical text is unambiguous: it is shared exactly by the values that are the same up to
      key order, undefined parts and "__proto__" fields. */
  lemma {:induction false} CanonicalTextIff(v: Json, w: Json)
    requires Regular(v) && Regular(w)
    ensures CanonicalJson(v) == CanonicalJson(w) <==> SameValue(v, w)
  {
    CanonicalRegular(v);
    CanonicalRegular(w);
    PrintInjective(Canonicalize(v), Canonicalize(w));
    TidyIffSame(v, w);
  }

  lemma {:induction false} SameReflexive(v: Json)
    ensures SameValue(v, v)
    decreases v
  {
    match v
    case Arr(items) =>
      forall i | 0 <= i < |items| ensures SameValue(items[i], items[i]) { SameReflexive(items[i]); }
    case Obj(fields) =>
      forall k | Kept(fields, k) ensures SameValue(Lookup(fields, k), Lookup(fields, k)) {
        assert fields decreases to Lookup(fields, k);
        SameReflexive(Lookup(fields, k));
      }
    case _ =>
  }

  // ----- canonicalizing again, and after a JSON trip -----

  lemma {:induction false} CanonicalIdempotent(v: Json)
    requires Regular(v)
    ensures Canonicalize(Canonicalize(v)) == Canonicalize(v)
    decreases v, 1, 0
  {
    match v
    case Arr(items) => CanonicalItemsIdempotent(items);
    case Obj(fields) =>
      var keys := SortKeys(Keys(fields));
      SortKeysAscending(Keys(fields));
      var r := CanonicalFields(fields, keys);
      CanonicalFieldsFixed(fields, keys);
      CanonicalFieldsRegular(fields, keys);
      SortKeysAscending(Keys(r));
      AscendingUnique(SortKeys(Keys(r)), Keys(r));
      CanonicalOfFixed(r, 0);
      assert Keys(r)[0..] == Keys(r) && r[0..] == r;
    case _ =>
  }

  lemma {:induction false} CanonicalItemsIdempotent(items: seq<Json>)
    requires forall i :: 0 <= i < |items| ==> Regular(items[i])
    ensures CanonicalItems(CanonicalItems(items)) == CanonicalItems(items)
    decreases items, 0, 0
  {
    if items != [] {
      CanonicalIdempotent(items[0]);
      CanonicalItemsIdempotent(items[1..]);
      assert CanonicalItems(items)[1..] == CanonicalItems(items[1..]);
    }
  }

  /** A field that canonicalize leaves as it is. */
  predicate Fixed(f: Field) {
    f.key != "__proto__" && f.val != Undefined && Canonicalize(f.val) == f.val
  }

  lemma {:induction false} CanonicalFieldsFixed(fields: seq<Field>, keys: seq<string>)
    requires forall i :: 0 <= i < |fields| ==> Regular(fields[i].val)
    ensures forall i :: 0 <= i < |CanonicalFields(fields, keys)| ==> Fixed(CanonicalFields(fields, keys)[i])
    decreases fields, 1, |keys|
  {
    if keys != [] {
      CanonicalFieldsFixed(fields, keys[1..]);
      if Kept(fields, keys[0]) {
        assert fields decreases to Lookup(fields, keys[0]);
        CanonicalIdempotent(Lookup(fields, keys[0]));
      }
    }
  }

  lemma {:induction false} CanonicalOfFixed(r: seq<Field>, j: nat)
    requires j <= |r| && Distinct(Keys(r)) && forall i :: 0 <= i < |r| ==> Fixed(r[i])
    ensures CanonicalFields(r, Keys(r)[j..]) == r[j..]
    decreases |r| - j
  {
    if j < |r| {
      LookupAt(r, j);
      assert Fixed(r[j]);
      CanonicalOfFixed(r, j + 1);
      FieldsStep(r, Keys(r), j);
      assert r[j..] == [r[j]] + r[j + 1..];
    }
  }

  lemma {:induction false} StripFieldsLookup(fields: seq<Field>)
    requires Distinct(Keys(fields))
    ensures Distinct(Keys(StripFields(fields)))
    ensures forall k :: Lookup(StripFields(fields), k)
                     == if Lookup(fields, k) == Undefined then Undefined else Strip(Lookup(fields, k))
  {
    if fields != [] {
      var rest := fields[1..];
      assert Keys(fields) == [fields[0].key] + Keys(rest);
      assert Keys(rest) == Keys(fields)[1..];
      StripFieldsLookup(rest);
      StripFieldsKeys(rest);
      assert fields[0].key !in Keys(rest);
      if fields[0].val != Undefined {
        var f := Field(fields[0].key, Strip(fields[0].val));
        var r := [f] + StripFields(rest);
        assert Keys(r) == [f.key] + Keys(StripFields(rest));
        assert r[1..] == StripFields(rest);
      }
    }
  }

  lemma {:induction false} StripRegular(v: Json)
    requires Regular(v)
    ensures Regular(Strip(v))
    decreases v
  {
    match v
    case Arr(items) => StripItemsRegular(items);
    case Obj(fields) =>
      StripFieldsLookup(fields);
      StripFieldsRegular(fields);
    case _ =>
  }

  lemma {:induction false} StripItemsRegular(items: seq<Json>)
    requires forall i :: 0 <= i < |items| ==> Regular(items[i])
    ensures forall i :: 0 <= i < |items| ==> Regular(StripItems(items)[i])
    decreases items
  {
    if items != [] {
      StripRegular(items[0]);
      StripItemsRegular(items[1..]);
    }
  }

  lemma {:induction false} StripFieldsRegular(fields: seq<Field>)
    requires forall i :: 0 <= i < |fields| ==> Regular(fields[i].val)
    ensures forall i :: 0 <= i < |StripFields(fields)| ==> Regular(StripFields(fields)[i].val)
    decreases fields
  {
    if fields != [] {
      StripRegular(fields[0].val);
      StripFieldsRegular(fields[1..]);
    }
  }

  lemma {:induction false} StripSame(v: Json)
    requires Regular(v)
    ensures SameValue(v, Strip(v))
    decreases v
  {
    match v
    case Arr(items) =>
      StripItemsAt(items);
      forall i | 0 <= i < |items| ensures SameValue(items[i], StripItems(items)[i]) {
        StripSame(items[i]);
      }
    case Obj(fields) =>
      StripFieldsLookup(fields);
      forall k ensures Kept(fields, k) <==> Kept(StripFields(fields), k) {
        StripDefined(Lookup(fields, k));
      }
      forall k | Kept(fields, k) ensures SameValue(Lookup(fields, k), Lookup(StripFields(fields), k)) {
        assert fields decreases to Lookup(fields, k);
        StripSame(Lookup(fields, k));
      }
    case _ =>
  }

  lemma {:induction false} StripDefined(v: Json)
    ensures Strip(v) != Undefined
  {
  }

  lemma {:induction false} StripItemsAt(items: seq<Json>)
    ensures forall i :: 0 <= i < |items| ==> StripItems(items)[i] == Strip(items[i])
  {
    if items != [] { StripItemsAt(items[1..]); }
  }

  /** JSON.parse(JSON.stringify(v)) does not change the canonical text. */
  lemma {:induction false} CanonicalAfterTrip(v: Json)
    requires Regular(v)
    ensures Parse(Print(v)).Done?
    ensures CanonicalJson(Parse(Print(v)).val) == CanonicalJson(v)
  {
    RoundTrip(v);
    StripRegular(v);
    StripSame(v);
    CanonicalTextIff(v, Strip(v));
  }
}
