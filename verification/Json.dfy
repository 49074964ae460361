/** JSON.stringify and JSON.parse on plain data: null, booleans, numbers whose JavaScript text has
    no exponent, strings, arrays and objects. String syntax is section 7 of RFC 8259. */
module Json {
  import opened Text

  datatype Json =
    | Undefined
    | Null
    | Bool(b: bool)
    | Num(neg: bool, whole: nat, frac: string)  // -whole.frac
    | Str(text: string)
    | Arr(items: seq<Json>)
    | Obj(fields: seq<Field>)  // own enumerable properties, in insertion order

  datatype Field = Field(key: string, val: Json)

  datatype Parsed<+T> = Fail | Done(val: T, rest: string)

  function Int(n: int): Json {
    if n < 0 then Num(true, -n, "") else Num(false, n, "")
  }

  // ----- objects -----

  function Keys(fields: seq<Field>): (r: seq<string>)
    ensures |r| == |fields| && forall i :: 0 <= i < |r| ==> r[i] == fields[i].key
  {
    seq(|fields|, i requires 0 <= i < |fields| => fields[i].key)
  }

  /** obj[key]; Undefined when there is no such own property. */
  function Lookup(fields: seq<Field>, key: string): (r: Json)
    ensures r == Undefined || exists i :: 0 <= i < |fields| && fields[i] == Field(key, r)
    ensures key !in Keys(fields) ==> r == Undefined
  {
    if fields == [] then Undefined
    else if fields[0].key == key then fields[0].val
    else
      var r := Lookup(fields[1..], key);
      assert forall i :: 0 <= i < |fields| - 1 ==> fields[1..][i] == fields[i + 1];
      r
  }

  /** v[key] for an own property; Undefined when v is no object or has no such property. */
  function Child(v: Json, key: string): Json { if v.Obj? then Lookup(v.fields, key) else Undefined }

  lemma {:induction false} LookupCons(f: Field, rest: seq<Field>, key: string)
    ensures Lookup([f] + rest, key) == if f.key == key then f.val else Lookup(rest, key)
  {
    assert ([f] + rest)[1..] == rest;
  }

  lemma {:induction false} LookupAt(fields: seq<Field>, i: nat)
    requires i < |fields| && Distinct(Keys(fields))
    ensures Lookup(fields, fields[i].key) == fields[i].val
  {
    if i > 0 {
      assert Keys(fields)[0] != Keys(fields)[i];
      assert Keys(fields[1..]) == Keys(fields)[1..];
      LookupAt(fields[1..], i - 1);
    }
  }

  /** The values this model covers: distinct property names, and numbers in lowest form. */
  predicate Regular(v: Json) {
    match v
    case Num(neg, whole, frac) =>
      && AllDigits(frac)
      && (frac != "" ==> frac[|frac| - 1] != '0')
      && (neg ==> whole != 0 || frac != "")
    case Arr(items) => forall i :: 0 <= i < |items| ==> Regular(items[i])
    case Obj(fields) =>
      && Distinct(Keys(fields))
      && forall i :: 0 <= i < |fields| ==> Regular(fields[i].val)
    case _ => true
  }

  // ----- what survives JSON.stringify -----

  /** Fields holding undefined are left out, undefined elements become null. */
  function Strip(v: Json): Json {
    match v
    case Undefined => Null
    case Arr(items) => Arr(StripItems(items))
    case Obj(fields) => Obj(StripFields(fields))
    case _ => v
  }

  /** Strip, with undefined itself left as it is: a field so is dropped, not made null. */
  function StripIfAny(v: Json): Json { if v == Undefined then Undefined else Strip(v) }

  function StripItems(items: seq<Json>): (r: seq<Json>)
    ensures |r| == |items|
  {
    if items == [] then [] else [Strip(items[0])] + StripItems(items[1..])
  }

  function StripFields(fields: seq<Field>): (r: seq<Field>) {
    if fields == [] then []
    else if fields[0].val == Undefined then StripFields(fields[1..])
    else [Field(fields[0].key, Strip(fields[0].val))] + StripFields(fields[1..])
  }

  // ----- printing -----

  const HEX: string := "0123456789abcdef"

  function Escape(c: char): string {
    if c == '"' then "\\\""
    else if c == '\\' then "\\\\"
    else if c == 8 as char then "\\b"
    else if c == 12 as char then "\\f"
    else if c == '\n' then "\\n"
    else if c == '\r' then "\\r"
    else if c == '\t' then "\\t"
    else if c < ' ' then ['\\', 'u', '0', '0', HEX[c as int / 16], HEX[c as int % 16]]
    else [c]
  }

  function EscapeAll(t: string): string {
    if t == "" then "" else Escape(t[0]) + EscapeAll(t[1..])
  }

  function Quote(t: string): string {
    "\"" + EscapeAll(t) + "\""
  }

  function DigitChar(d: nat): (c: char)
    requires d < 10
    ensures IsDigit(c) && (c - '0') as int == d
  {
    '0' + d as char
  }

  function Digits(n: nat): (r: string)
    ensures r != "" && AllDigits(r)
  {
    if n < 10 then [DigitChar(n)] else Digits(n / 10) + [DigitChar(n % 10)]
  }

  function Join(parts: seq<string>): string {
    if parts == [] then ""
    else if |parts| == 1 then parts[0]
    else parts[0] + "," + Join(parts[1..])
  }

  function Print(v: Json): string
    decreases v
  {
    match v
    case Undefined => "null"  // only met as an array element
    case Null => "null"
    case Bool(b) => if b then "true" else "false"
    case Num(neg, whole, frac) =>
      (if neg then "-" else "") + Digits(whole) + (if frac == "" then "" else "." + frac)
    case Str(t) => Quote(t)
    case Arr(items) => "[" + Join(Elements(items)) + "]"
    case Obj(fields) => "{" + Join(Members(fields)) + "}"
  }

  function Elements(items: seq<Json>): (r: seq<string>)
    ensures |r| == |items|
    decreases items
  {
    if items == [] then [] else [Print(items[0])] + Elements(items[1..])
  }

  function Members(fields: seq<Field>): seq<string>
    decreases fields
  {
    if fields == [] then []
    else if fields[0].val == Undefined then Members(fields[1..])
    else [Quote(fields[0].key) + ":" + Print(fields[0].val)] + Members(fields[1..])
  }

  // ----- parsing (compact text) -----

  predicate IsDigit(c: char) { '0' <= c <= '9' }

  predicate AllDigits(s: string) { forall i :: 0 <= i < |s| ==> IsDigit(s[i]) }

  function TakeDigits(s: string): (r: (string, string))
    ensures AllDigits(r.0) && s == r.0 + r.1
    ensures r.1 == "" || !IsDigit(r.1[0])
  {
    if s == "" || !IsDigit(s[0]) then ("", s)
    else var (ds, rest) := TakeDigits(s[1..]); ([s[0]] + ds, rest)
  }

  function ToNat(ds: string): nat
    requires AllDigits(ds)
  {
    if ds == "" then 0 else ToNat(ds[..|ds| - 1]) * 10 + (ds[|ds| - 1] - '0') as nat
  }

  function TrimZeros(frac: string): string {
    if frac != "" && frac[|frac| - 1] == '0' then TrimZeros(frac[..|frac| - 1]) else frac
  }

  predicate StartsWith(s: string, c: char) { s != "" && s[0] == c }

  function ParseNumber(s: string): (r: Parsed<Json>)
    ensures r.Done? ==> |r.rest| < |s|
  {
    var neg := StartsWith(s, '-');
    var (ds, rest) := TakeDigits(if neg then s[1..] else s);
    if ds == "" || (|ds| > 1 && ds[0] == '0') then Fail
    else
      var (frac, rest') := if StartsWith(rest, '.') then TakeDigits(rest[1..]) else ("", rest);
      if (StartsWith(rest, '.') && frac == "") || StartsWith(rest', 'e') || StartsWith(rest', 'E') then Fail
      else
        var whole, frac' := ToNat(ds), TrimZeros(frac);
        Done(Num(neg && (whole != 0 || frac' != ""), whole, frac'), rest')
  }

  function HexValue(c: char): (r: int)
    ensures -1 <= r < 16
  {
    if IsDigit(c) then (c - '0') as int
    else if 'a' <= c <= 'f' then (c - 'a') as int + 10
    else if 'A' <= c <= 'F' then (c - 'A') as int + 10
    else -1
  }

  /** One \uXXXX escape, after the backslash; surrogates are not characters here. */
  function ParseHex(s: string): (r: Parsed<char>)
    ensures r.Done? ==> |r.rest| < |s|
  {
    if |s| < 5 then Fail
    else
      var a, b, c, d := HexValue(s[1]), HexValue(s[2]), HexValue(s[3]), HexValue(s[4]);
      var n := a * 4096 + b * 256 + c * 16 + d;
      if a < 0 || b < 0 || c < 0 || d < 0 || 0xD800 <= n < 0xE000 then Fail
      else Done(n as char, s[5..])
  }

  function ParseEscape(s: string): (r: Parsed<char>)
    ensures r.Done? ==> |r.rest| < |s|
  {
    if s == "" then Fail
    else if s[0] == '"' || s[0] == '\\' || s[0] == '/' then Done(s[0], s[1..])
    else if s[0] == 'b' then Done(8 as char, s[1..])
    else if s[0] == 'f' then Done(12 as char, s[1..])
    else if s[0] == 'n' then Done('\n', s[1..])
    else if s[0] == 'r' then Done('\r', s[1..])
    else if s[0] == 't' then Done('\t', s[1..])
    else if s[0] == 'u' then ParseHex(s)
    else Fail
  }

  /** The rest of a string literal, after its opening quote. */
  function ParseString(s: string): (r: Parsed<string>)
    ensures r.Done? ==> |r.rest| < |s|
  {
    if s == "" || s[0] < ' ' then Fail
    else if s[0] == '"' then Done("", s[1..])
    else
      var c := if s[0] == '\\' then ParseEscape(s[1..]) else Done(s[0], s[1..]);
      if c.Fail? then Fail
      else
        var t := ParseString(c.rest);
        if t.Fail? then Fail else Done([c.val] + t.val, t.rest)
  }

  function ParseLiteral(s: string, word: string, v: Json): (r: Parsed<Json>)
    requires word != ""
    ensures r.Done? ==> |r.rest| < |s|
  {
    if word <= s then Done(v, s[|word|..]) else Fail
  }

  function ParseValue(s: string): (r: Parsed<Json>)
    ensures r.Done? ==> |r.rest| < |s|
    decreases |s|, 0
  {
    if s == "" then Fail
    else if s[0] == '-' || IsDigit(s[0]) then ParseNumber(s)
    else if s[0] == '"' then
      var t := ParseString(s[1..]);
      if t.Fail? then Fail else Done(Str(t.val), t.rest)
    else if s[0] == '[' then
      if StartsWith(s[1..], ']') then Done(Arr([]), s[2..])
      else
        var l := ParseElements(s[1..]);
        if l.Fail? then Fail else Done(Arr(l.val), l.rest)
    else if s[0] == '{' then
      if StartsWith(s[1..], '}') then Done(Obj([]), s[2..])
      else
        var l := ParseMembers(s[1..]);
        if l.Fail? then Fail else Done(Obj(l.val), l.rest)
    else if s[0] == 'n' then ParseLiteral(s, "null", Null)
    else if s[0] == 't' then ParseLiteral(s, "true", Bool(true))
    else if s[0] == 'f' then ParseLiteral(s, "false", Bool(false))
    else Fail
  }

  function ParseElements(s: string): (r: Parsed<seq<Json>>)
    ensures r.Done? ==> |r.rest| < |s|
    decreases |s|, 1
  {
    var v := ParseValue(s);
    if v.Fail? then Fail
    else if StartsWith(v.rest, ']') then Done([v.val], v.rest[1..])
    else if StartsWith(v.rest, ',') then
      var l := ParseElements(v.rest[1..]);
      if l.Fail? then Fail else Done([v.val] + l.val, l.rest)
    else Fail
  }

  /** A repeated name keeps its first place and takes its last value. */
  function Prepend(f: Field, fields: seq<Field>): seq<Field> {
    if f.key in Keys(fields)
    then [Field(f.key, Lookup(fields, f.key))] + Without(fields, f.key)
    else [f] + fields
  }

  function Without(fields: seq<Field>, key: string): seq<Field> {
    if fields == [] then []
    else if fields[0].key == key then Without(fields[1..], key)
    else [fields[0]] + Without(fields[1..], key)
  }

  function ParseMembers(s: string): (r: Parsed<seq<Field>>)
    ensures r.Done? ==> |r.rest| < |s|
    decreases |s|, 1
  {
    if !StartsWith(s, '"') then Fail
    else
      var k := ParseString(s[1..]);
      if k.Fail? || !StartsWith(k.rest, ':') then Fail
      else
        var v := ParseValue(k.rest[1..]);
        if v.Fail? then Fail
        else if StartsWith(v.rest, '}') then Done([Field(k.val, v.val)], v.rest[1..])
        else if StartsWith(v.rest, ',') then
          var l := ParseMembers(v.rest[1..]);
          if l.Fail? then Fail else Done(Prepend(Field(k.val, v.val), l.val), l.rest)
        else Fail
  }

  /** JSON.parse: the whole text must be one value. Fail stands for the thrown SyntaxError. */
  function Parse(s: string): Parsed<Json> {
    var v := ParseValue(s);
    if v.Done? && v.rest == "" then v else Fail
  }
}
