/** JSON.stringify prints the shortest text that reads back as the value. */
module JsonShortest {
  import opened Text
  import opened Json
  import opened JsonRoundTrip

  // ----- characters and strings -----

  /** Which characters are escaped, and how long the escape is; a code point escape has no capital digit. */
  lemma {:induction false} EscapeIs(c: char)
    ensures Escape(c) == [c] <==> c >= ' ' && c != '"' && c != '\\'
    ensures Escape(c) != [c] ==> |Escape(c)| == if c < ' ' && c as int !in {8, 9, 10, 12, 13} then 6 else 2
    ensures |Escape(c)| == 6 ==> forall i :: 0 <= i < 6 ==> !('A' <= Escape(c)[i] <= 'F')
  {
  }

  lemma {:induction false} EscapeShortest(s: string)
    requires ParseEscape(s).Done?
    ensures |Escape(ParseEscape(s).val)| + |ParseEscape(s).rest| <= |s| + 1
  {
    EscapeIs(ParseEscape(s).val);
  }

  lemma {:induction false} StringShortest(s: string)
    requires ParseString(s).Done?
    ensures |EscapeAll(ParseString(s).val)| + 1 + |ParseString(s).rest| <= |s|
    decreases |s|
  {
    if s[0] != '"' {
      var c := if s[0] == '\\' then ParseEscape(s[1..]) else Done(s[0], s[1..]);
      EscapeIs(c.val);
      if s[0] == '\\' { EscapeShortest(s[1..]); }
      StringShortest(c.rest);
      var t := ParseString(c.rest);
      assert ([c.val] + t.val)[1..] == t.val;
    }
  }

  // ----- numbers -----

  lemma {:induction false} DigitsShort(ds: string)
    requires AllDigits(ds) && ds != ""
    ensures |Digits(ToNat(ds))| <= |ds|
  {
    var init, d := ds[..|ds| - 1], (ds[|ds| - 1] - '0') as nat;
    var n := ToNat(init);
    assert ToNat(ds) == n * 10 + d && (init == "" ==> n == 0);
    if n > 0 {
      DigitsShort(init);
      assert (n * 10 + d) / 10 == n;
    }
  }

  lemma {:induction false} TrimShort(frac: string)
    ensures |TrimZeros(frac)| <= |frac|
  {
    if frac != "" && frac[|frac| - 1] == '0' { TrimShort(frac[..|frac| - 1]); }
  }

  lemma {:induction false} NumberShortest(s: string)
    requires ParseNumber(s).Done?
    ensures |Print(ParseNumber(s).val)| + |ParseNumber(s).rest| <= |s|
  {
    var neg := StartsWith(s, '-');
    var (ds, rest) := TakeDigits(if neg then s[1..] else s);
    var (frac, rest') := if StartsWith(rest, '.') then TakeDigits(rest[1..]) else ("", rest);
    DigitsShort(ds);
    TrimShort(frac);
  }

  // ----- values -----

  lemma {:induction false} ValueShortest(s: string)
    requires ParseValue(s).Done?
    ensures |Print(ParseValue(s).val)| + |ParseValue(s).rest| <= |s|
    decreases |s|, 0
  {
    if s[0] == '-' || IsDigit(s[0]) {
      NumberShortest(s);
    } else if s[0] == '"' {
      StringShortest(s[1..]);
    } else if s[0] == '[' {
      if !StartsWith(s[1..], ']') { ElementsShortest(s[1..]); }
    } else if s[0] == '{' {
      if !StartsWith(s[1..], '}') { MembersShortest(s[1..]); }
    }
  }

  lemma {:induction false} ElementsShortest(s: string)
    requires ParseElements(s).Done?
    ensures ParseElements(s).val != []
    ensures |Join(Elements(ParseElements(s).val))| + 1 + |ParseElements(s).rest| <= |s|
    decreases |s|, 1
  {
    var v := ParseValue(s);
    ValueShortest(s);
    if StartsWith(v.rest, ',') {
      var l := ParseElements(v.rest[1..]);
      ElementsShortest(v.rest[1..]);
      assert ([v.val] + l.val)[1..] == l.val;
      JoinCons(Print(v.val), Elements(l.val));
    }
  }

  lemma {:induction false} JoinCons(p: string, rest: seq<string>)
    ensures |Join([p] + rest)| == |p| + if rest == [] then 0 else 1 + |Join(rest)|
  {
    assert ([p] + rest)[1..] == rest;
  }

  /** The length of the members with a comma behind each, as if none were left out. */
  function Spelled(fields: seq<Field>): nat {
    if fields == [] then 0
    else |Quote(fields[0].key)| + |Print(fields[0].val)| + 2 + Spelled(fields[1..])
  }

  lemma {:induction false} MembersWithin(fields: seq<Field>)
    ensures Members(fields) == [] ==> |Join(Members(fields))| == 0
    ensures Members(fields) != [] ==> |Join(Members(fields))| + 1 <= Spelled(fields)
  {
    if fields != [] {
      MembersWithin(fields[1..]);
      if fields[0].val != Undefined {
        JoinCons(Quote(fields[0].key) + ":" + Print(fields[0].val), Members(fields[1..]));
      }
    }
  }

  lemma {:induction false} SpelledCons(f: Field, rest: seq<Field>)
    ensures Spelled([f] + rest) == |Quote(f.key)| + |Print(f.val)| + 2 + Spelled(rest)
  {
    assert ([f] + rest)[1..] == rest;
  }

  /** Taking a field out of the list makes room for it. */
  lemma {:induction false} SpelledWithout(fields: seq<Field>, key: string)
    requires key in Keys(fields)
    ensures |Quote(key)| + |Print(Lookup(fields, key))| + 2 + Spelled(Without(fields, key)) <= Spelled(fields)
  {
    var rest := fields[1..];
    assert Keys(fields) == [fields[0].key] + Keys(rest);
    if fields[0].key == key {
      SpelledLess(rest, key);
    } else {
      SpelledWithout(rest, key);
      SpelledCons(fields[0], Without(rest, key));
    }
  }

  lemma {:induction false} SpelledLess(fields: seq<Field>, key: string)
    ensures Spelled(Without(fields, key)) <= Spelled(fields)
  {
    if fields != [] {
      SpelledLess(fields[1..], key);
      SpelledCons(fields[0], Without(fields[1..], key));
    }
  }

  lemma {:induction false} SpelledPrepend(f: Field, fields: seq<Field>)
    ensures Spelled(Prepend(f, fields)) <= |Quote(f.key)| + |Print(f.val)| + 2 + Spelled(fields)
  {
    SpelledCons(f, fields);
    if f.key in Keys(fields) {
      SpelledWithout(fields, f.key);
      SpelledCons(Field(f.key, Lookup(fields, f.key)), Without(fields, f.key));
    }
  }

  lemma {:induction false} MembersSpelled(s: string)
    requires ParseMembers(s).Done?
    ensures Spelled(ParseMembers(s).val) + |ParseMembers(s).rest| <= |s|
    decreases |s|, 1
  {
    var k := ParseString(s[1..]);
    var v := ParseValue(k.rest[1..]);
    StringShortest(s[1..]);
    ValueShortest(k.rest[1..]);
    var f := Field(k.val, v.val);
    if StartsWith(v.rest, '}') {
      SpelledCons(f, []);
      assert [f] + [] == [f];
    } else {
      MembersSpelled(v.rest[1..]);
      SpelledPrepend(f, ParseMembers(v.rest[1..]).val);
    }
  }

  lemma {:induction false} MembersShortest(s: string)
    requires ParseMembers(s).Done?
    ensures |Join(Members(ParseMembers(s).val))| + 1 + |ParseMembers(s).rest| <= |s|
    decreases |s|, 2
  {
    MembersSpelled(s);
    MembersWithin(ParseMembers(s).val);
  }

  /** Of all texts that JSON.parse reads as the value, without its undefined parts, none is shorter. */
  lemma {:induction false} PrintShortest(v: Json, s: string)
    requires Parse(s) == Done(Strip(v), "")
    ensures |Print(v)| <= |s|
  {
    ValueShortest(s);
    PrintStrip(v);
  }
}
