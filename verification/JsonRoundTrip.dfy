/** The parser undoes the printer, so printing is unambiguous. */
module JsonRoundTrip {
  import opened Text
  import opened Json

  // ----- numbers -----

  lemma {:induction false} DigitsValue(n: nat)
    ensures ToNat(Digits(n)) == n
    ensures |Digits(n)| > 1 ==> Digits(n)[0] != '0'
    ensures Digits(n)[0] == '0' ==> n == 0
  {
    if n < 10 {
      assert Digits(n)[..0] == "";
    } else {
      DigitsValue(n / 10);
      assert Digits(n)[..|Digits(n)| - 1] == Digits(n / 10);
    }
  }

  lemma {:induction false} TakeDigitsAll(ds: string, k: string)
    requires AllDigits(ds) && (k == "" || !IsDigit(k[0]))
    ensures TakeDigits(ds + k) == (ds, k)
  {
    if ds == "" {
      assert ds + k == k;
    } else {
      TakeDigitsAll(ds[1..], k);
      assert (ds + k)[1..] == ds[1..] + k;
      assert ds == [ds[0]] + ds[1..];
    }
  }

  /** What may follow a number without becoming part of it. */
  predicate Delimited(k: string) {
    k == "" || !(IsDigit(k[0]) || k[0] == '.' || k[0] == 'e' || k[0] == 'E')
  }

  lemma {:induction false} NumberRoundTrip(v: Json, k: string)
    requires v.Num? && Regular(v) && Delimited(k)
    ensures ParseValue(Print(v) + k) == Done(v, k)
  {
    var Num(neg, whole, frac) := v;
    var s := Print(v) + k;
    var tail := (if frac == "" then "" else "." + frac) + k;
    var body := Digits(whole) + tail;
    assert s == (if neg then "-" else "") + body;
    NumberBody(whole, frac, k);
    DigitsValue(whole);
    assert IsDigit(Digits(whole)[0]) && s[0] == if neg then '-' else Digits(whole)[0];
    assert (if neg then s[1..] else s) == body;
    NumberParses(s, neg, Digits(whole), frac, tail, k);
    ParseValueNumber(s);
  }

  lemma {:induction false} ParseValueNumber(s: string)
    requires s != "" && (s[0] == '-' || IsDigit(s[0]))
    ensures ParseValue(s) == ParseNumber(s)
  {
  }

  /** ParseNumber on a text whose runs of digits are known. */
  lemma {:induction false} NumberParses(s: string, neg: bool, ds: string, frac: string, tail: string, k: string)
    requires AllDigits(ds) && ds != "" && (|ds| > 1 ==> ds[0] != '0')
    requires frac != "" ==> frac[|frac| - 1] != '0'
    requires neg ==> ToNat(ds) != 0 || frac != ""
    requires Delimited(k) && StartsWith(s, '-') == neg
    requires TakeDigits(if neg then s[1..] else s) == (ds, tail)
    requires if frac == "" then tail == k
             else StartsWith(tail, '.') && TakeDigits(tail[1..]) == (frac, k)
    ensures ParseNumber(s) == Done(Num(neg, ToNat(ds), frac), k)
  {
    assert TrimZeros(frac) == frac;
  }

  lemma {:induction false} NumberBody(whole: nat, frac: string, k: string)
    requires AllDigits(frac) && Delimited(k)
    ensures var tail := (if frac == "" then "" else "." + frac) + k;
      && TakeDigits(Digits(whole) + tail) == (Digits(whole), tail)
      && (frac != "" ==> StartsWith(tail, '.') && TakeDigits(tail[1..]) == (frac, k))
  {
    if frac == "" {
      assert "" + k == k;
      TakeDigitsAll(Digits(whole), k);
    } else {
      var tail := "." + frac + k;
      assert tail[0] == '.' && tail[1..] == frac + k;
      TakeDigitsAll(Digits(whole), tail);
      TakeDigitsAll(frac, k);
    }
  }

  // ----- strings -----

  lemma {:induction false} EscapeRoundTrip(c: char, k: string)
    ensures Escape(c) != "" && Escape(c)[0] >= ' ' && Escape(c)[0] != '"'
    ensures Escape(c)[0] != '\\' ==> Escape(c) == [c]
    ensures Escape(c)[0] == '\\' ==> ParseEscape((Escape(c) + k)[1..]) == Done(c, k)
  {
    var e := Escape(c);
    if |e| == 6 {
      var n := c as int;
      assert HexValue(HEX[n / 16]) == n / 16 && HexValue(HEX[n % 16]) == n % 16;
      assert (e + k)[1..][5..] == k;
    } else if |e| == 2 {
      assert (e + k)[1..][1..] == k;
    }
  }

  lemma {:induction false} StringRoundTrip(t: string, k: string)
    ensures ParseString(EscapeAll(t) + "\"" + k) == Done(t, k)
  {
    var s := EscapeAll(t) + "\"" + k;
    if t == "" {
      assert s[1..] == k;
    } else {
      var tail := EscapeAll(t[1..]) + "\"" + k;
      assert s == Escape(t[0]) + tail;
      EscapeRoundTrip(t[0], tail);
      StringRoundTrip(t[1..], k);
      assert s[0] == Escape(t[0])[0];
      if s[0] != '\\' { assert s[1..] == tail; }
      assert t == [t[0]] + t[1..];
    }
  }

  lemma {:induction false} QuoteRoundTrip(t: string, k: string)
    ensures StartsWith(Quote(t) + k, '"')
    ensures ParseString((Quote(t) + k)[1..]) == Done(t, k)
  {
    assert (Quote(t) + k)[1..] == EscapeAll(t) + "\"" + k;
    StringRoundTrip(t, k);
  }

  // ----- values -----

  /** The first character of a value, which says how it is read. */
  lemma {:induction false} PrintFirst(v: Json)
    ensures Print(v) != "" && Print(v)[0] != ']' && Print(v)[0] != '}'
  {
    if v.Num? && !v.neg {
      assert Print(v)[0] == Digits(v.whole)[0];
      assert IsDigit(Digits(v.whole)[0]);
    }
  }

  /** Reading back what JSON.stringify printed gives the value without its undefined fields. */
  lemma {:induction false} ValueRoundTrip(v: Json, k: string)
    requires Regular(v) && Delimited(k)
    ensures ParseValue(Print(v) + k) == Done(Strip(v), k)
    decreases v, 0
  {
    match v
    case Num(_, _, _) => NumberRoundTrip(v, k);
    case Str(t) => QuoteRoundTrip(t, k);
    case Arr(items) => ArrayRoundTrip(items, k);
    case Obj(fields) => ObjectRoundTrip(fields, k);
    case _ =>
      var s := Print(v) + k;
      assert s[|Print(v)|..] == k;
      assert s[..|Print(v)|] == Print(v);
  }

  lemma {:induction false} ArrayRoundTrip(items: seq<Json>, k: string)
    requires forall i :: 0 <= i < |items| ==> Regular(items[i])
    ensures ParseValue("[" + Join(Elements(items)) + "]" + k) == Done(Arr(StripItems(items)), k)
    decreases items, 1
  {
    var s := "[" + Join(Elements(items)) + "]" + k;
    if items == [] {
      assert s[1] == ']' && s[2..] == k;
    } else {
      var inner := Join(Elements(items)) + "]" + k;
      assert s[1..] == inner;
      PrintFirst(items[0]);
      JoinFirst(Elements(items));
      ElementsRoundTrip(items, k);
    }
  }

  lemma {:induction false} ObjectRoundTrip(fields: seq<Field>, k: string)
    requires Distinct(Keys(fields)) && forall i :: 0 <= i < |fields| ==> Regular(fields[i].val)
    ensures ParseValue("{" + Join(Members(fields)) + "}" + k) == Done(Obj(StripFields(fields)), k)
    decreases fields, 1
  {
    var s := "{" + Join(Members(fields)) + "}" + k;
    var inner := Join(Members(fields)) + "}" + k;
    assert s[1..] == inner;
    MembersRoundTrip(fields, k);
    if Members(fields) == [] {
      assert s[1] == '}' && s[2..] == k;
    } else {
      MembersFirst(fields);
      JoinFirst(Members(fields));
      assert inner[0] == '"';
    }
  }

  lemma {:induction false} JoinFirst(parts: seq<string>)
    requires parts != [] && parts[0] != ""
    ensures Join(parts) != "" && Join(parts)[0] == parts[0][0]
  {
  }

  lemma {:induction false} MembersFirst(fields: seq<Field>)
    ensures Members(fields) != [] ==> StartsWith(Members(fields)[0], '"')
  {
    if fields != [] { MembersFirst(fields[1..]); }
  }

  lemma {:induction false} ElementsRoundTrip(items: seq<Json>, k: string)
    requires items != [] && forall i :: 0 <= i < |items| ==> Regular(items[i])
    ensures ParseElements(Join(Elements(items)) + "]" + k) == Done(StripItems(items), k)
    decreases items, 0
  {
    var s := Join(Elements(items)) + "]" + k;
    var v, rest := items[0], items[1..];
    assert Elements(items) == [Print(v)] + Elements(rest);
    assert StripItems(items) == [Strip(v)] + StripItems(rest);
    if rest == [] {
      assert Join(Elements(items)) == Print(v);
      assert s == Print(v) + ("]" + k);
      assert StripItems(items) == [Strip(v)];
      ValueRoundTrip(v, "]" + k);
      assert ("]" + k)[1..] == k;
    } else {
      var tail := Join(Elements(rest)) + "]" + k;
      assert Elements(items)[1..] == Elements(rest);
      assert s == Print(v) + ("," + tail);
      ValueRoundTrip(v, "," + tail);
      assert ("," + tail)[1..] == tail;
      ElementsRoundTrip(rest, k);
    }
  }

  lemma {:induction false} StripFieldsKeys(fields: seq<Field>)
    ensures forall key :: key in Keys(StripFields(fields)) ==> key in Keys(fields)
    ensures Members(fields) == [] <==> StripFields(fields) == []
  {
    if fields != [] {
      StripFieldsKeys(fields[1..]);
      assert Keys(fields) == [fields[0].key] + Keys(fields[1..]);
      if fields[0].val != Undefined {
        var f := Field(fields[0].key, Strip(fields[0].val));
        assert Keys([f] + StripFields(fields[1..])) == [f.key] + Keys(StripFields(fields[1..]));
      }
    }
  }

  lemma {:induction false} MembersRoundTrip(fields: seq<Field>, k: string)
    requires Distinct(Keys(fields)) && forall i :: 0 <= i < |fields| ==> Regular(fields[i].val)
    ensures Members(fields) == [] <==> StripFields(fields) == []
    ensures Members(fields) != [] ==>
      ParseMembers(Join(Members(fields)) + "}" + k) == Done(StripFields(fields), k)
    decreases fields, 0
  {
    StripFieldsKeys(fields);
    if fields != [] {
      var rest := fields[1..];
      assert Keys(rest) == Keys(fields)[1..];
      MembersRoundTrip(rest, k);
      if fields[0].val != Undefined {
        MemberRoundTrip(fields[0], rest, k);
      }
    }
  }

  lemma {:induction false} MemberRoundTrip(f: Field, rest: seq<Field>, k: string)
    requires f.val != Undefined && Regular(f.val) && f.key !in Keys(rest)
    requires Members(rest) != [] ==>
      ParseMembers(Join(Members(rest)) + "}" + k) == Done(StripFields(rest), k)
    ensures var one := Quote(f.key) + ":" + Print(f.val);
      ParseMembers(Join([one] + Members(rest)) + "}" + k)
      == Done([Field(f.key, Strip(f.val))] + StripFields(rest), k)
    decreases f.val, 1
  {
    StripFieldsKeys(rest);
    var tail := Join(Members(rest)) + "}" + k;
    var after := if Members(rest) == [] then "}" + k else "," + tail;
    var colon := ":" + (Print(f.val) + after);
    var s := Quote(f.key) + colon;
    MemberText(Quote(f.key), Print(f.val), Members(rest), k);
    QuoteRoundTrip(f.key, colon);
    assert colon[1..] == Print(f.val) + after;
    ValueRoundTrip(f.val, after);
    assert after[1..] == if Members(rest) == [] then k else tail;
    MemberParses(s, f, colon, after);
    var g := Field(f.key, Strip(f.val));
    if Members(rest) == [] {
      assert [g] + StripFields(rest) == [g];
    } else {
      assert Prepend(g, StripFields(rest)) == [g] + StripFields(rest);
    }
  }

  lemma {:induction false} MemberText(q: string, p: string, rest: seq<string>, k: string)
    ensures Join([q + ":" + p] + rest) + "}" + k
         == q + (":" + (p + if rest == [] then "}" + k else "," + (Join(rest) + "}" + k)))
  {
    assert ([q + ":" + p] + rest)[1..] == rest;
  }

  /** ParseMembers on a text whose first member is known. */
  lemma {:induction false} MemberParses(s: string, f: Field, colon: string, after: string)
    requires StartsWith(s, '"') && ParseString(s[1..]) == Done(f.key, colon)
    requires StartsWith(colon, ':') && ParseValue(colon[1..]) == Done(Strip(f.val), after)
    requires after != ""
    ensures after[0] == '}' ==>
      ParseMembers(s) == Done([Field(f.key, Strip(f.val))], after[1..])
    ensures after[0] == ',' && ParseMembers(after[1..]).Done? ==>
      ParseMembers(s) == Done(Prepend(Field(f.key, Strip(f.val)), ParseMembers(after[1..]).val),
                              ParseMembers(after[1..]).rest)
  {
  }

  /** JSON.parse(JSON.stringify(v)): every value reads back as itself without its undefined parts. */
  lemma {:induction false} RoundTrip(v: Json)
    requires Regular(v)
    ensures Parse(Print(v)) == Done(Strip(v), "")
  {
    ValueRoundTrip(v, "");
    assert Print(v) + "" == Print(v);
  }

  /** Two values print alike exactly when they agree once undefined parts are gone. */
  lemma {:induction false} PrintInjective(v: Json, w: Json)
    requires Regular(v) && Regular(w)
    ensures Print(v) == Print(w) <==> Strip(v) == Strip(w)
  {
    RoundTrip(v);
    RoundTrip(w);
    PrintStrip(v);
    PrintStrip(w);
  }

  lemma {:induction false} PrintStrip(v: Json)
    ensures Print(Strip(v)) == Print(v)
    decreases v
  {
    match v
    case Arr(items) => ElementsStrip(items);
    case Obj(fields) => MembersStrip(fields);
    case _ =>
  }

  lemma {:induction false} ElementsStrip(items: seq<Json>)
    ensures Elements(StripItems(items)) == Elements(items)
    decreases items
  {
    if items != [] {
      PrintStrip(items[0]);
      ElementsStrip(items[1..]);
      assert StripItems(items)[1..] == StripItems(items[1..]);
    }
  }

  lemma {:induction false} MembersStrip(fields: seq<Field>)
    ensures Members(StripFields(fields)) == Members(fields)
    decreases fields
  {
    if fields != [] {
      MembersStrip(fields[1..]);
      if fields[0].val != Undefined {
        PrintStrip(fields[0].val);
        assert StripFields(fields)[1..] == StripFields(fields[1..]);
      }
    }
  }

  // ----- what a printed value looks like as text -----

  lemma {:induction false} PrintIsOneLine(v: Json)
    requires Regular(v)
    ensures forall i :: 0 <= i < |Print(v)| ==> Print(v)[i] >= ' '
    decreases v
  {
    match v
    case Str(t) => EscapeIsOneLine(t);
    case Arr(items) =>
      forall i | 0 <= i < |Elements(items)| ensures OneLine(Elements(items)[i]) {
        ElementsIsOneLine(items, i);
      }
      JoinIsOneLine(Elements(items));
    case Obj(fields) =>
      MembersIsOneLine(fields);
      JoinIsOneLine(Members(fields));
    case _ =>
  }

  predicate OneLine(s: string) { forall i :: 0 <= i < |s| ==> s[i] >= ' ' }

  lemma {:induction false} EscapeCharIsOneLine(c: char)
    ensures OneLine(Escape(c))
  {
  }

  lemma {:induction false} EscapeIsOneLine(t: string)
    ensures OneLine(EscapeAll(t))
  {
    if t != "" {
      EscapeIsOneLine(t[1..]);
      EscapeCharIsOneLine(t[0]);
    }
  }

  lemma {:induction false} JoinIsOneLine(parts: seq<string>)
    requires forall i :: 0 <= i < |parts| ==> OneLine(parts[i])
    ensures OneLine(Join(parts))
  {
    if |parts| > 1 {
      JoinIsOneLine(parts[1..]);
      assert OneLine(parts[0]);
    } else if |parts| == 1 {
      assert OneLine(parts[0]);
    }
  }

  lemma {:induction false} ElementsIsOneLine(items: seq<Json>, i: nat)
    requires i < |items| && forall j :: 0 <= j < |items| ==> Regular(items[j])
    ensures OneLine(Elements(items)[i])
    decreases items
  {
    if i == 0 {
      PrintIsOneLine(items[0]);
    } else {
      ElementsIsOneLine(items[1..], i - 1);
    }
  }

  lemma {:induction false} MembersIsOneLine(fields: seq<Field>)
    requires forall i :: 0 <= i < |fields| ==> Regular(fields[i].val)
    ensures forall i :: 0 <= i < |Members(fields)| ==> OneLine(Members(fields)[i])
    decreases fields
  {
    if fields != [] {
      MembersIsOneLine(fields[1..]);
      if fields[0].val != Undefined {
        PrintIsOneLine(fields[0].val);
        EscapeIsOneLine(fields[0].key);
        assert OneLine(Quote(fields[0].key) + ":" + Print(fields[0].val));
      }
    }
  }
}
