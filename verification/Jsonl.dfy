/** The ledger file: one JSON text per line. */
module Jsonl {
  import opened Text
  import opened Json
  import opened JsonRoundTrip
  import opened Canonical
  import opened Events

  // ----- an event as a JSON object -----

  function OptStr(s: Option<string>): Json { if s.Some? then Str(s.value) else Undefined }

  function OptJson(v: Option<Json>): Json { if v.Some? then v.value else Undefined }

  function KindName(k: EventType): string {
    match k case FACT => "FACT" case STATE => "STATE" case OBSERVATION => "OBSERVATION" case CORRECTION => "CORRECTION"
  }

  /** { ...partial, key, id, logical_time } */
  function EventFields(e: Event): seq<Field> {
    [ Field("parent_id", OptStr(e.parentId)), Field("timestamp", Int(e.timestamp)), Field("tool", Str(e.tool)),
      Field("node_id", OptStr(e.nodeId)), Field("run_id", Str(e.runId)), Field("key", Str(e.key)),
      Field("value", e.value), Field("confidence", e.confidence), Field("type", Str(KindName(e.kind))),
      Field("meta", OptJson(e.meta)), Field("id", Str(e.id)), Field("logical_time", Int(e.time)) ]
  }

  const FIELD_NAMES: seq<string> := [
    "parent_id", "timestamp", "tool", "node_id", "run_id", "key",
    "value", "confidence", "type", "meta", "id", "logical_time" ]

  predicate IsInt(v: Json) { v.Num? && v.frac == "" }

  function IntOf(v: Json): int
    requires IsInt(v)
  {
    var n: int := v.whole;
    if v.neg then -n else n
  }

  predicate IsKind(s: string) { s == "FACT" || s == "STATE" || s == "OBSERVATION" || s == "CORRECTION" }

  function KindOf(s: string): EventType {
    if s == "FACT" then FACT else if s == "STATE" then STATE
    else if s == "OBSERVATION" then OBSERVATION else CORRECTION
  }

  function StrOpt(v: Json): Option<string> { if v.Str? then Some(v.text) else None }

  function JsonOpt(v: Json): Option<Json> { if v == Undefined then None else Some(v) }

  /** The event a parsed line is taken to be; None when a field has another type. */
  function EventOf(v: Json): Option<Event> {
    if !v.Obj? then None
    else
      var f := v.fields;
      EventFrom(Lookup(f, "parent_id"), Lookup(f, "timestamp"), Lookup(f, "tool"), Lookup(f, "node_id"),
                Lookup(f, "run_id"), Lookup(f, "key"), Lookup(f, "value"), Lookup(f, "confidence"),
                Lookup(f, "type"), Lookup(f, "meta"), Lookup(f, "id"), Lookup(f, "logical_time"))
  }

  function EventFrom(parent: Json, stamp: Json, tool: Json, node: Json, run: Json, key: Json, value: Json, conf: Json,
                     kind: Json, meta: Json, id: Json, time: Json): Option<Event> {
    if id.Str? && IsInt(time) && tool.Str? && run.Str? && key.Str? && IsInt(stamp) && conf.Num?
       && kind.Str? && IsKind(kind.text)
    then Some(Event(id.text, StrOpt(parent), IntOf(stamp), IntOf(time), tool.text, StrOpt(node), run.text, key.text,
                    value, conf, KindOf(kind.text), JsonOpt(meta)))
    else None
  }

  /** The values an event may hold: JSON data, numbers within the model. */
  predicate Storable(e: Event) {
    && Regular(e.value)
    && e.confidence.Num? && Regular(e.confidence)
    && (e.meta.Some? ==> Regular(e.meta.value) && e.meta.value != Undefined)
  }

  /** The event as it reads back: undefined parts of its value and meta are gone. */
  function Stored(e: Event): Event {
    e.(value := StripIfAny(e.value), meta := if e.meta.Some? then Some(Strip(e.meta.value)) else None)
  }

  lemma {:induction false} NamesDistinct()
    ensures Distinct(FIELD_NAMES)
  {
    forall i, j | 0 <= i < j < |FIELD_NAMES| ensures FIELD_NAMES[i] != FIELD_NAMES[j] {
      NamesDiffer(i, j);
    }
  }

  lemma {:induction false} NamesDiffer(i: nat, j: nat)
    requires i < j < |FIELD_NAMES|
    ensures FIELD_NAMES[i] != FIELD_NAMES[j]
  {
    var a, b := FIELD_NAMES[i], FIELD_NAMES[j];
    assert |a| != |b| || a[0] != b[0] || a[1] != b[1];
  }

  lemma {:induction false} FieldsRegular(e: Event)
    requires Storable(e)
    ensures Keys(EventFields(e)) == FIELD_NAMES
    ensures Regular(Obj(EventFields(e)))
  {
    NamesDistinct();
    assert Keys(EventFields(e)) == FIELD_NAMES;
  }

  lemma {:induction false} FieldReads(e: Event, i: nat)
    requires Storable(e) && i < |FIELD_NAMES|
    ensures var f := EventFields(e);
      Lookup(StripFields(f), FIELD_NAMES[i]) == StripIfAny(f[i].val)
  {
    FieldsRegular(e);
    LookupAt(EventFields(e), i);
    StripFieldsLookup(EventFields(e));
  }

  /** A printed event reads back as itself, without undefined parts. */
  lemma {:induction false} EventRoundTrip(e: Event)
    requires Storable(e)
    ensures var text := Print(Obj(EventFields(e)));
      Parse(text).Done? && EventOf(Parse(text).val) == Some(Stored(e))
  {
    FieldsRegular(e);
    RoundTrip(Obj(EventFields(e)));
    EventOfStripped(e);
  }

  lemma {:induction false} KindRoundTrip(k: EventType)
    ensures IsKind(KindName(k)) && KindOf(KindName(k)) == k
  {
    assert "FACT"[0] != "STATE"[0] && "FACT"[0] != "OBSERVATION"[0] && "FACT"[0] != "CORRECTION"[0];
    assert "STATE"[0] != "OBSERVATION"[0] && "STATE"[0] != "CORRECTION"[0];
    assert "OBSERVATION"[0] != "CORRECTION"[0];
  }

  lemma {:induction false} ReadTexts(e: Event, f: seq<Field>)
    requires Storable(e) && f == StripFields(EventFields(e))
    ensures Lookup(f, "parent_id") == OptStr(e.parentId) && Lookup(f, "node_id") == OptStr(e.nodeId)
    ensures Lookup(f, "tool") == Str(e.tool) && Lookup(f, "run_id") == Str(e.runId)
    ensures Lookup(f, "key") == Str(e.key) && Lookup(f, "id") == Str(e.id)
  {
    FieldReads(e, 0); FieldReads(e, 2); FieldReads(e, 3);
    FieldReads(e, 4); FieldReads(e, 5); FieldReads(e, 10);
  }

  lemma {:induction false} ReadOthers(e: Event, f: seq<Field>)
    requires Storable(e) && f == StripFields(EventFields(e))
    ensures Lookup(f, "timestamp") == Int(e.timestamp) && Lookup(f, "logical_time") == Int(e.time)
    ensures Lookup(f, "value") == StripIfAny(e.value) && Lookup(f, "confidence") == e.confidence
    ensures Lookup(f, "type") == Str(KindName(e.kind)) && Lookup(f, "meta") == StripIfAny(OptJson(e.meta))
  {
    FieldReads(e, 1); FieldReads(e, 6); FieldReads(e, 7);
    FieldReads(e, 8); FieldReads(e, 9); FieldReads(e, 11);
  }

  lemma {:induction false} EventOfStripped(e: Event)
    requires Storable(e)
    ensures EventOf(Obj(StripFields(EventFields(e)))) == Some(Stored(e))
  {
    var f := StripFields(EventFields(e));
    ReadTexts(e, f);
    ReadOthers(e, f);
    EventFromParts(e);
  }

  lemma {:induction false} EventFromParts(e: Event)
    requires Storable(e)
    ensures EventFrom(OptStr(e.parentId), Int(e.timestamp), Str(e.tool), OptStr(e.nodeId), Str(e.runId), Str(e.key),
                      StripIfAny(e.value), e.confidence, Str(KindName(e.kind)), StripIfAny(OptJson(e.meta)),
                      Str(e.id), Int(e.time)) == Some(Stored(e))
  {
    KindRoundTrip(e.kind);
    if e.meta.Some? { StripDefined(e.meta.value); }
  }

  // ----- the file -----

  function Line(e: Event): string { Print(Obj(EventFields(e))) + "\n" }

  function FileText(log: seq<Event>): string {
    if log == [] then "" else Line(log[0]) + FileText(log[1..])
  }

  /** What String.prototype.trim removes. */
  predicate IsWhite(c: char) {
    var n := c as int;
    || 9 <= n <= 13 || n == 32 || n == 0xA0 || n == 0x1680 || 0x2000 <= n <= 0x200A
    || n == 0x2028 || n == 0x2029 || n == 0x202F || n == 0x205F || n == 0x3000 || n == 0xFEFF
  }

  function TrimStart(s: string): string {
    if s != "" && IsWhite(s[0]) then TrimStart(s[1..]) else s
  }

  function TrimEnd(s: string): string {
    if s != "" && IsWhite(s[|s| - 1]) then TrimEnd(s[..|s| - 1]) else s
  }

  function Trim(s: string): string { TrimEnd(TrimStart(s)) }

  /** s.split("\n") */
  function SplitLines(s: string): (r: seq<string>)
    ensures r != []
  {
    if s == "" then [""]
    else if s[0] == '\n' then [""] + SplitLines(s[1..])
    else
      var r := SplitLines(s[1..]);
      [[s[0]] + r[0]] + r[1..]
  }

  /** The non-blank lines, parsed; None stands for the thrown SyntaxError or a line that is no event. */
  function ParseLines(lines: seq<string>): Option<seq<Event>> {
    if lines == [] then Some([])
    else if Trim(lines[0]) == "" then ParseLines(lines[1..])
    else
      var v, rest := Parse(lines[0]), ParseLines(lines[1..]);
      if v.Fail? || EventOf(v.val) == None || rest == None then None
      else Some([EventOf(v.val).value] + rest.value)
  }

  function ParseFile(text: string): Option<seq<Event>> {
    var raw := Trim(text);
    if raw == "" then Some([]) else ParseLines(SplitLines(raw))
  }

  function StoredAll(log: seq<Event>): (r: seq<Event>)
    ensures |r| == |log| && forall i :: 0 <= i < |log| ==> r[i] == Stored(log[i])
  {
    if log == [] then [] else [Stored(log[0])] + StoredAll(log[1..])
  }

  lemma {:induction false} FileTextAppend(log: seq<Event>, e: Event)
    ensures FileText(log + [e]) == FileText(log) + Line(e)
  {
    if log == [] {
      assert log + [e] == [e] && [e][1..] == [];
      assert Line(e) + "" == Line(e);
    } else {
      FileTextAppend(log[1..], e);
      assert (log + [e])[1..] == log[1..] + [e];
      assert Line(log[0]) + (FileText(log[1..]) + Line(e)) == Line(log[0]) + FileText(log[1..]) + Line(e);
    }
  }

  // ----- reading a written file -----

  /** The lines of a log, without the last line end. */
  function Body(log: seq<Event>): string
    requires log != []
  {
    var first := Print(Obj(EventFields(log[0])));
    if |log| == 1 then first else first + "\n" + Body(log[1..])
  }

  lemma {:induction false} BodyShape(log: seq<Event>)
    requires log != []
    ensures FileText(log) == Body(log) + "\n"
    ensures |Body(log)| > 1 && Body(log)[0] == '{' && Body(log)[|Body(log)| - 1] == '}'
  {
    if |log| == 1 {
      assert FileText(log) == Line(log[0]) + "" == Line(log[0]);
    } else {
      BodyShape(log[1..]);
      var first, rest := Print(Obj(EventFields(log[0]))), Body(log[1..]);
      assert first + "\n" + (rest + "\n") == first + "\n" + rest + "\n";
    }
  }

  lemma {:induction false} TrimBody(log: seq<Event>)
    requires log != []
    ensures Trim(FileText(log)) == Body(log)
  {
    BodyShape(log);
    var t := FileText(log);
    assert TrimStart(t) == t;
    assert t[..|t| - 1] == Body(log);
    assert TrimEnd(Body(log)) == Body(log);
  }

  lemma {:induction false} SplitNoBreak(s: string)
    requires '\n' !in s
    ensures SplitLines(s) == [s]
  {
    if s != "" {
      SplitNoBreak(s[1..]);
      assert s == [s[0]] + s[1..];
    }
  }

  lemma {:induction false} SplitFirst(s: string, t: string)
    requires '\n' !in s
    ensures SplitLines(s + "\n" + t) == [s] + SplitLines(t)
  {
    if s == "" {
      assert s + "\n" + t == "\n" + t && ("\n" + t)[1..] == t;
    } else {
      SplitFirst(s[1..], t);
      assert (s + "\n" + t)[1..] == s[1..] + "\n" + t;
      assert s == [s[0]] + s[1..];
    }
  }

  lemma {:induction false} PrintedLine(e: Event)
    requires Storable(e)
    ensures var p := Print(Obj(EventFields(e))); '\n' !in p && Trim(p) != ""
  {
    FieldsRegular(e);
    var p := Print(Obj(EventFields(e)));
    PrintIsOneLine(Obj(EventFields(e)));
    assert p[0] == '{' && p[|p| - 1] == '}';
    assert TrimStart(p) == p && TrimEnd(p) == p;
  }

  lemma {:induction false} SingleLine(log: seq<Event>)
    requires |log| == 1
    ensures StoredAll(log) == [Stored(log[0])]
  {
  }

  lemma {:induction false} ParseLinesCons(p: string, e: Event, rest: seq<string>)
    requires Trim(p) != "" && Parse(p).Done? && EventOf(Parse(p).val) == Some(e)
    ensures ParseLines([p] + rest)
         == match ParseLines(rest) case None => None case Some(es) => Some([e] + es)
  {
    assert ([p] + rest)[1..] == rest;
  }

  lemma {:induction false} BodyParses(log: seq<Event>)
    requires log != [] && forall e :: e in log ==> Storable(e)
    ensures ParseLines(SplitLines(Body(log))) == Some(StoredAll(log))
  {
    var e := log[0];
    var p := Print(Obj(EventFields(e)));
    PrintedLine(e);
    EventRoundTrip(e);
    if |log| == 1 {
      SplitNoBreak(p);
      ParseLinesCons(p, Stored(e), []);
      assert [p] + [] == [p];
      assert [Stored(e)] + [] == [Stored(e)];
      SingleLine(log);
    } else {
      BodyParses(log[1..]);
      SplitFirst(p, Body(log[1..]));
      ParseLinesCons(p, Stored(e), SplitLines(Body(log[1..])));
    }
  }

  /** Reading the file of a log gives back its events. */
  lemma {:induction false} FileRoundTrip(log: seq<Event>)
    requires forall e :: e in log ==> Storable(e)
    ensures ParseFile(FileText(log)) == Some(StoredAll(log))
  {
    if log == [] {
      assert Trim("") == "";
    } else {
      TrimBody(log);
      BodyShape(log);
      BodyParses(log);
    }
  }

  /** The values hold no undefined parts, as all that JSON.parse gives. */
  predicate Plain(e: Event) {
    (e.value == Undefined || Strip(e.value) == e.value) && (e.meta.Some? ==> Strip(e.meta.value) == e.meta.value)
  }

  lemma {:induction false} StoredPlain(e: Event)
    requires Storable(e) && Plain(e)
    ensures Stored(e) == e
  {
  }

  /** Events of plain JSON data are read back exactly as they were appended. */
  lemma {:induction false} PlainRoundTrip(log: seq<Event>)
    requires forall e :: e in log ==> Storable(e) && Plain(e)
    ensures ParseFile(FileText(log)) == Some(log)
  {
    FileRoundTrip(log);
    forall i | 0 <= i < |log| ensures StoredAll(log)[i] == log[i] {
      assert log[i] in log;
      StoredPlain(log[i]);
    }
    assert StoredAll(log) == log;
  }

  // ----- reading any file -----

  predicate Blank(line: string) { forall i :: 0 <= i < |line| ==> IsWhite(line[i]) }

  lemma {:induction false} TrimStartBlank(s: string)
    ensures TrimStart(s) == "" <==> Blank(s)
    ensures Blank(TrimStart(s)) ==> TrimStart(s) == ""
  {
    if s != "" && IsWhite(s[0]) {
      TrimStartBlank(s[1..]);
      assert s == [s[0]] + s[1..];
    }
  }

  lemma {:induction false} TrimEndBlank(s: string)
    ensures TrimEnd(s) == "" <==> Blank(s)
  {
    if s != "" && IsWhite(s[|s| - 1]) {
      TrimEndBlank(s[..|s| - 1]);
      assert s == s[..|s| - 1] + [s[|s| - 1]];
    }
  }

  lemma {:induction false} TrimBlank(s: string)
    ensures Trim(s) == "" <==> Blank(s)
  {
    TrimStartBlank(s);
    TrimEndBlank(TrimStart(s));
  }

  /** The event of which the line is the JSON text. */
  function EventOfLine(line: string): Option<Event> {
    var v := Parse(line);
    if v.Done? then EventOf(v.val) else None
  }

  /** What a line adds to the events read from the lines after it. */
  function Joined(blank: bool, e: Option<Event>, rest: Option<seq<Event>>): Option<seq<Event>> {
    if blank || rest == None then rest
    else if e == None then None
    else Some([e.value] + rest.value)
  }

  lemma {:induction false} ParseLinesStep(line: string, after: seq<string>, blank: bool, e: Option<Event>,
                                          rest: Option<seq<Event>>)
    requires blank == Blank(line) && e == EventOfLine(line) && rest == ParseLines(after)
    ensures ParseLines([line] + after) == Joined(blank, e, rest)
  {
    TrimBlank(line);
    assert ([line] + after)[1..] == after;
  }

  predicate Readable(blank: bool, e: Option<Event>) { blank || e.Some? }

  /** A file is read exactly when each of its lines is blank or an event: one bad line and nothing is. */
  lemma {:induction false} ParseLinesIff(lines: seq<string>)
    ensures ParseLines(lines).Some?
      <==> forall i :: 0 <= i < |lines| ==> Readable(Blank(lines[i]), EventOfLine(lines[i]))
  {
    if lines != [] {
      var first, after := lines[0], lines[1..];
      ParseLinesIff(after);
      assert lines == [first] + after;
      ParseLinesStep(first, after, Blank(first), EventOfLine(first), ParseLines(after));
      AllReadable(first, after);
    }
  }

  lemma {:induction false} AllReadable(first: string, after: seq<string>)
    ensures var lines := [first] + after;
      (forall i :: 0 <= i < |lines| ==> Readable(Blank(lines[i]), EventOfLine(lines[i])))
      <==> Readable(Blank(first), EventOfLine(first))
           && forall i :: 0 <= i < |after| ==> Readable(Blank(after[i]), EventOfLine(after[i]))
  {
    var lines := [first] + after;
    assert lines[0] == first && forall i :: 0 <= i < |after| ==> lines[i + 1] == after[i];
  }

  /** Blank lines, wherever they stand, do not change what is read. */
  lemma {:induction false} BlankLineIgnored(before: seq<string>, line: string, after: seq<string>)
    requires Blank(line)
    ensures ParseLines(before + [line] + after) == ParseLines(before + after)
  {
    if before == [] {
      assert before + [line] + after == [line] + after && before + after == after;
      ParseLinesStep(line, after, true, EventOfLine(line), ParseLines(after));
    } else {
      var first, more := before[0], before[1..];
      BlankLineIgnored(more, line, after);
      assert before + [line] + after == [first] + (more + [line] + after);
      assert before + after == [first] + (more + after);
      ParseLinesStep(first, more + [line] + after, Blank(first), EventOfLine(first), ParseLines(more + [line] + after));
      ParseLinesStep(first, more + after, Blank(first), EventOfLine(first), ParseLines(more + after));
    }
  }
}
