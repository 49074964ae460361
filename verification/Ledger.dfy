/** The append-only swarm ledger: a file, a logical clock and a read cache. */
module Ledger {
  import opened Json
  import opened Events
  import opened Schema
  import opened Jsonl
  import opened Projections
  import Ancestry

  /** What a caller passes to append: everything but id and logical_time. */
  datatype Partial = Partial(
    parentId: Option<string>, timestamp: int, tool: string, nodeId: Option<string>, runId: string,
    key: string, value: Json, confidence: Json, kind: EventType, meta: Option<Json>)

  function Complete(p: Partial, key: string, id: string, time: int): Event {
    Event(id, p.parentId, p.timestamp, time, p.tool, p.nodeId, p.runId, key, p.value, p.confidence, p.kind, p.meta)
  }

  /** A log after append: unchanged when the key is rejected. */
  function Extended(written: seq<Event>, p: Partial, id: string): seq<Event> {
    match NormalizeKey(p.key)
    case None => written
    case Some(key) => written + [Complete(p, key, id, |written| + 1)]
  }

  predicate StorablePartial(p: Partial) { Storable(Complete(p, "", "", 0)) }

  /** The partial event that correct() appends. */
  function Correction(targetId: string, value: Json, tool: string, runId: string, confidence: Option<Json>,
                      now: int): Partial {
    Partial(Some(targetId), now, tool, None, runId, "correction", value,
            if confidence.Some? then confidence.value else Int(1), CORRECTION,
            Some(Obj([Field("target_event_id", Str(targetId))])))
  }

  /** A random UUID: not an id of the log, and not named by any event yet. */
  ghost predicate FreshId(written: seq<Event>, parentId: Option<string>, id: string) {
    && parentId != Some(id)
    && forall e :: e in written ==> e.id != id && e.parentId != Some(id)
  }

  // ----- what every ledger log satisfies -----

  /** Numbered 1, 2, 3, ...; ids distinct; keys registered; parents in the log earlier. */
  ghost predicate LedgerLog(written: seq<Event>) {
    && Numbered(written)
    && (forall e :: e in written ==> Storable(e) && NormalizeKey(e.key) == Some(e.key))
    && Ancestry.DistinctIds(written)
    && ParentsEarlier(written)
  }

  ghost predicate ParentsEarlier(written: seq<Event>) {
    forall i, j :: 0 <= i <= j < |written| ==> written[i].parentId != Some(written[j].id)
  }

  lemma {:induction false} ParentsEarlierAppend(written: seq<Event>, e: Event)
    requires ParentsEarlier(written) && FreshId(written, e.parentId, e.id)
    ensures ParentsEarlier(written + [e])
  {
    var w := written + [e];
    forall i, j | 0 <= i <= j < |w| ensures w[i].parentId != Some(w[j].id) {
      if i < |written| { assert w[i] in written; }
    }
  }

  lemma {:induction false} DistinctIdsAppend(written: seq<Event>, e: Event)
    requires Ancestry.DistinctIds(written) && FreshId(written, e.parentId, e.id)
    ensures Ancestry.DistinctIds(written + [e])
  {
    var w := written + [e];
    forall i, j | 0 <= i < j < |w| ensures w[i].id != w[j].id {
      assert w[i] in written;
    }
  }

  lemma {:induction false} LedgerLogAppend(written: seq<Event>, e: Event)
    requires LedgerLog(written) && e.time == |written| + 1
    requires Storable(e) && NormalizeKey(e.key) == Some(e.key) && FreshId(written, e.parentId, e.id)
    ensures LedgerLog(written + [e])
  {
    ParentsEarlierAppend(written, e);
    DistinctIdsAppend(written, e);
    assert Numbered(written + [e]);
    forall x | x in written + [e] ensures Storable(x) && NormalizeKey(x.key) == Some(x.key) {
      assert x in written || x == e;
    }
  }

  lemma {:induction false} AppendKeeps(written: seq<Event>, p: Partial, key: string, id: string)
    requires LedgerLog(written) && StorablePartial(p) && FreshId(written, p.parentId, id)
    requires NormalizeKey(p.key) == Some(key)
    ensures var e := Complete(p, key, id, |written| + 1);
      && LedgerLog(written + [e])
      && FileText(written + [e]) == FileText(written) + Line(e)
  {
    var e := Complete(p, key, id, |written| + 1);
    NormalizeIdempotent(p.key);
    LedgerLogAppend(written, e);
    FileTextAppend(written, e);
  }

  /** So the causal theorems hold of what a ledger reads back. */
  lemma {:induction false} LedgerLogIsCausal(written: seq<Event>)
    requires LedgerLog(written)
    ensures Ancestry.CausalLog(StoredAll(written)) && Numbered(StoredAll(written))
  {
    StoredDistinct(written);
    var log := StoredAll(written);
    forall x, y | x in log && y in log && y.parentId == Some(x.id) ensures x.time < y.time {
      StoredParentsEarlier(written, x, y);
    }
  }

  lemma {:induction false} StoredDistinct(written: seq<Event>)
    requires Numbered(written) && Ancestry.DistinctIds(written)
    ensures Numbered(StoredAll(written)) && DistinctTimes(StoredAll(written))
    ensures Ancestry.DistinctIds(StoredAll(written))
  {
    var log := StoredAll(written);
    forall i | 0 <= i < |log| ensures log[i].time == i + 1 && log[i].id == written[i].id {
      assert log[i] == Stored(written[i]);
    }
  }

  lemma {:induction false} StoredParentsEarlier(written: seq<Event>, x: Event, y: Event)
    requires ParentsEarlier(written) && Numbered(written)
    requires x in StoredAll(written) && y in StoredAll(written) && y.parentId == Some(x.id)
    ensures x.time < y.time
  {
    var log := StoredAll(written);
    var j :| 0 <= j < |log| && log[j] == x;
    var i :| 0 <= i < |log| && log[i] == y;
    assert written[i].parentId == Some(written[j].id);
  }

  // ----- the class -----

  class LedgerFile {
    var present: bool
    var text: string

    /** A path where nothing has been written. */
    constructor ()
      ensures !present && text == ""
    {
      present, text := false, "";
    }
  }

  function MaxTime(events: seq<Event>): int
    requires events != []
  {
    if |events| == 1 then events[0].time
    else
      var rest := MaxTime(events[1..]);
      if events[0].time > rest then events[0].time else rest
  }

  lemma {:induction false} MaxTimeIs(events: seq<Event>)
    requires events != []
    ensures exists e :: e in events && e.time == MaxTime(events)
    ensures forall e :: e in events ==> e.time <= MaxTime(events)
  {
    assert events[0] in events;
    if |events| > 1 {
      MaxTimeIs(events[1..]);
      assert events == [events[0]] + events[1..];
      var e :| e in events[1..] && e.time == MaxTime(events[1..]);
      assert e in events;
    }
  }

  /** The number of events is the greatest logical time of the log, as written and as read back. */
  lemma {:induction false} ClockIsMaximum(written: seq<Event>)
    requires Numbered(written) && written != []
    ensures MaxTime(written) == MaxTime(StoredAll(written)) == |written|
  {
    var log := StoredAll(written);
    forall i | 0 <= i < |log| ensures log[i].time == i + 1 { assert log[i] == Stored(written[i]); }
    MaxTimeIs(written);
    MaxTimeIs(log);
    assert written[|written| - 1] in written && log[|log| - 1] in log;
  }

  function Violations(events: seq<Event>): seq<(string, string)> {
    if events == [] then []
    else if IsValidKey(events[0].key) then Violations(events[1..])
    else [(events[0].id, events[0].key)] + Violations(events[1..])
  }

  method CollectViolations(events: seq<Event>) returns (violations: seq<(string, string)>)
    ensures violations == Violations(events)
  {
    violations := [];
    for i := 0 to |events|
      invariant violations + Violations(events[i..]) == Violations(events)
    {
      assert events[i..][0] == events[i] && events[i..][1..] == events[i + 1..];
      if !IsValidKey(events[i].key) {
        violations := violations + [(events[i].id, events[i].key)];
      }
    }
  }

  function IdsAndKeys(events: seq<Event>): seq<(string, string)> {
    seq(|events|, i requires 0 <= i < |events| => (events[i].id, events[i].key))
  }

  function Picked(events: seq<Event>, p: Event -> bool): seq<(string, string)> {
    if events == [] then []
    else if p(events[0]) then [(events[0].id, events[0].key)] + Picked(events[1..], p)
    else Picked(events[1..], p)
  }

  lemma {:induction false} PickedAre(events: seq<Event>, p: Event -> bool)
    ensures Picked(events, p) == IdsAndKeys(Filter(events, p))
  {
    if events != [] {
      PickedAre(events[1..], p);
      if p(events[0]) {
        var f := Filter(events[1..], p);
        assert IdsAndKeys([events[0]] + f) == [(events[0].id, events[0].key)] + IdsAndKeys(f);
      }
    }
  }

  lemma {:induction false} ViolationsPicked(events: seq<Event>)
    ensures Violations(events) == Picked(events, (e: Event) => !IsValidKey(e.key))
  {
    if events != [] { ViolationsPicked(events[1..]); }
  }

  /** The violations are the ids and keys of the events with an invalid key, in the order of the log. */
  lemma {:induction false} ViolationsAre(events: seq<Event>)
    ensures Violations(events) == IdsAndKeys(Filter(events, (e: Event) => !IsValidKey(e.key)))
  {
    ViolationsPicked(events);
    PickedAre(events, (e: Event) => !IsValidKey(e.key));
  }

  lemma {:induction false} NoViolations(written: seq<Event>, log: seq<Event>)
    requires log == StoredAll(written)
    requires forall e :: e in written ==> NormalizeKey(e.key) == Some(e.key)
    ensures Violations(log) == []
  {
    if written != [] {
      assert written[0] in written;
      NoViolations(written[1..], log[1..]);
    }
  }

  class SwarmLedger {
    const file: LedgerFile
    var logicalClock: int
    var cache: Option<seq<Event>>
    ghost var written: seq<Event>  // the events appended to the file, first to last

    /** The file holds exactly the events written, the clock is their number (and by ClockIsMaximum
        their greatest logical time), and the cache, when there is one, is what the file parses to. */
    ghost predicate Valid()
      reads this, file
    {
      && file.present && file.text == FileText(written)
      && LedgerLog(written)
      && logicalClock == |written|
      && (cache.Some? ==> ParseFile(file.text) == cache)
    }

    /** The log as it reads back. */
    ghost function Log(): seq<Event>
      reads this
    {
      StoredAll(written)
    }

    /** A new ledger on a file that is absent or was written by a ledger: a start or a restart. */
    constructor (file: LedgerFile, ghost written: seq<Event>)
      requires file.text == FileText(written) && LedgerLog(written) && (!file.present ==> written == [])
      modifies file
      ensures Valid() && this.file == file && this.written == written
      ensures file.text == old(file.text)
      ensures cache == if old(file.present) && written == [] then Some([]) else None
    {
      this.file, logicalClock, cache := file, 0, None;
      this.written := written;
      new;
      if !file.present {
        file.present := true;
        file.text := file.text + "";
      } else {
        ClockFromExisting();
      }
    }

    method ClockFromExisting()
      requires file.present && file.text == FileText(written) && LedgerLog(written)
      requires logicalClock == 0 && cache == None
      modifies this
      ensures Valid() && written == old(written) && file.text == old(file.text)
      ensures cache == if written == [] then Some([]) else None
    {
      var events := LoadAll();
      if events != [] {
        logicalClock := MaxTime(events);
        cache := None;
        LedgerLogIsCausal(written);
        ClockIsMaximum(written);
      }
    }

    /** loadAll: the parsed file, kept for the next read. */
    method LoadAll() returns (events: seq<Event>)
      requires file.text == FileText(written) && LedgerLog(written)
      requires cache.Some? ==> ParseFile(file.text) == cache
      modifies this`cache
      ensures events == Log() && cache == Some(events) == ParseFile(file.text)
    {
      FileRoundTrip(written);
      if cache.Some? { return cache.value; }
      var raw := Trim(file.text);
      if raw == "" {
        cache := Some([]);
        return [];
      }
      cache := ParseLines(SplitLines(raw));
      events := cache.value;
    }

    /** append: None when the key is rejected. */
    method Append(p: Partial, id: string) returns (r: Option<Event>)
      requires Valid() && StorablePartial(p) && FreshId(written, p.parentId, id)
      modifies this, file
      ensures Valid() && written == Extended(old(written), p, id)
      ensures match NormalizeKey(p.key)
        case None =>
          r == None && written == old(written) && file.text == old(file.text)
          && logicalClock == old(logicalClock) && cache == old(cache)
        case Some(key) =>
          var e := Complete(p, key, id, old(logicalClock) + 1);
          && r == Some(e) && written == old(written) + [e] && Records(AppendEvent(p, id), e)
          && file.text == old(file.text) + Line(e)
          && logicalClock == old(logicalClock) + 1 && cache == None
    {
      var key := NormalizeKey(p.key);
      if key == None { return None; }
      AppendKeeps(written, p, key.value, id);
      logicalClock := logicalClock + 1;
      var e := Complete(p, key.value, id, logicalClock);
      file.text := file.text + Line(e);
      cache := None;
      written := written + [e];
      r := Some(e);
    }

    /** correct: never rejected. */
    method Correct(targetId: string, value: Json, tool: string, runId: string, confidence: Option<Json>, now: int,
                   id: string)
      returns (e: Event)
      requires Valid() && StorablePartial(Correction(targetId, value, tool, runId, confidence, now))
      requires FreshId(written, Some(targetId), id)
      modifies this, file
      ensures Valid() && written == old(written) + [e] && file.text == old(file.text) + Line(e)
      ensures e.time == old(logicalClock) + 1
      ensures Records(AppendCorrection(targetId, value, tool, runId, confidence, now, id), e)
      ensures written == Extended(old(written), Correction(targetId, value, tool, runId, confidence, now), id)
    {
      CorrectionKey();
      var r := Append(Correction(targetId, value, tool, runId, confidence, now), id);
      e := r.value;
    }

    method GetLatest(key: string) returns (r: Option<Event>)
      requires Valid()
      modifies this`cache
      ensures Valid()
      ensures r == GetLatestByKey(Log(), key)
    {
      var events := LoadAll();
      r := GetLatestByKey(events, key);
    }

    /** validateEvents: a log written only through the ledger has no violation. */
    method ValidateEvents() returns (violations: seq<(string, string)>)
      requires Valid()
      modifies this`cache
      ensures Valid() && violations == Violations(Log()) == []
    {
      var events := LoadAll();
      violations := CollectViolations(events);
      NoViolations(written, Log());
    }

    /** _reset */
    method Reset()
      requires Valid()
      modifies this, file
      ensures Valid() && written == [] && file.text == "" && logicalClock == 0
    {
      file.text := "";
      logicalClock, cache := 0, None;
      written := [];
    }
  }

  lemma {:induction false} LettersAreCanonical(s: string)
    requires forall i :: 0 <= i < |s| ==> IsLower(s[i])
    ensures Schema.Canonical(s) == s && '.' !in s
  {
    CamelRuleIsDead(s);
    assert Dots(ToLower(s)) == s;
  }

  lemma {:induction false} CorrectionKey()
    ensures NormalizeKey("correction") == Some("correction")
  {
    LettersAreCanonical("correction");
    RegisteredHasDot("correction");
  }

  // ----- runs -----

  datatype Command =
    | AppendEvent(p: Partial, id: string)
    | AppendCorrection(
        target: string, value: Json, tool: string, runId: string, confidence: Option<Json>, now: int, id: string)
    | ReadAll
    | ReadLatest(key: string)
    | Validate
    | Restart

  function AsPartial(c: Command): Partial
    requires c.AppendEvent? || c.AppendCorrection?
  {
    match c
    case AppendEvent(p, _) => p
    case AppendCorrection(target, value, tool, runId, confidence, now, _) =>
      Correction(target, value, tool, runId, confidence, now)
  }

  /** The events written after a command. */
  function Step(written: seq<Event>, c: Command): seq<Event> {
    if c.AppendEvent? || c.AppendCorrection? then Extended(written, AsPartial(c), c.id) else written
  }

  ghost predicate Allowed(written: seq<Event>, c: Command) {
    c.AppendEvent? || c.AppendCorrection? ==>
      StorablePartial(AsPartial(c)) && FreshId(written, AsPartial(c).parentId, c.id)
  }

  function Run(written: seq<Event>, cs: seq<Command>): seq<Event>
    decreases |cs|
  {
    if cs == [] then written else Run(Step(written, cs[0]), cs[1..])
  }

  ghost predicate AllAllowed(written: seq<Event>, cs: seq<Command>)
    decreases |cs|
  {
    cs != [] ==> Allowed(written, cs[0]) && AllAllowed(Step(written, cs[0]), cs[1..])
  }

  lemma {:induction false} StepKeeps(written: seq<Event>, c: Command)
    requires LedgerLog(written) && Allowed(written, c)
    ensures LedgerLog(Step(written, c)) && written <= Step(written, c)
    ensures FileText(written) <= FileText(Step(written, c))
  {
    if c.AppendEvent? || c.AppendCorrection? {
      var p := AsPartial(c);
      if NormalizeKey(p.key).Some? { AppendKeeps(written, p, NormalizeKey(p.key).value, c.id); }
    }
  }

  /** The event holds what the command says, each argument in its field; a correction is marked as one and
      names its target twice. */
  predicate Records(c: Command, e: Event) {
    match c
    case AppendEvent(p, id) =>
      && e.id == id && Some(e.key) == NormalizeKey(p.key) && e.value == p.value && e.confidence == p.confidence
      && e.kind == p.kind && e.tool == p.tool && e.runId == p.runId && e.nodeId == p.nodeId
      && e.parentId == p.parentId && e.timestamp == p.timestamp && e.meta == p.meta
    case AppendCorrection(target, value, tool, runId, confidence, now, id) =>
      && e.id == id && e.key == "correction" && e.value == value
      && (match confidence case None => e.confidence == Int(1) case Some(n) => e.confidence == n)
      && e.kind == CORRECTION && e.tool == tool && e.runId == runId && e.nodeId == None
      && e.parentId == Some(target) && e.timestamp == now
      && e.meta.Some? && Child(e.meta.value, "target_event_id") == Str(target)
    case _ => false
  }

  predicate Accepted(c: Command) { c.AppendCorrection? || (c.AppendEvent? && IsValidKey(c.p.key)) }

  /** The commands of a run that append an event. */
  function AcceptedOf(cs: seq<Command>): seq<Command> {
    if cs == [] then [] else (if Accepted(cs[0]) then [cs[0]] else []) + AcceptedOf(cs[1..])
  }

  lemma {:induction false} CompleteRecords(c: Command, p: Partial, key: string, time: int)
    requires (c.AppendEvent? || c.AppendCorrection?) && p == AsPartial(c) && NormalizeKey(p.key) == Some(key)
    requires c.AppendCorrection? ==> key == "correction"
    ensures Records(c, Complete(p, key, c.id, time))
  {
  }

  lemma {:induction false} StepRecords(written: seq<Event>, c: Command, next: seq<Event>)
    requires next == Step(written, c)
    ensures !Accepted(c) ==> next == written
    ensures Accepted(c) ==> exists e :: next == written + [e] && Records(c, e)
  {
    if c.AppendCorrection? { CorrectionKey(); }
    if Accepted(c) {
      var p := AsPartial(c);
      var key := NormalizeKey(p.key).value;
      CompleteRecords(c, p, key, |written| + 1);
    }
  }

  /** One event for each command, first to last. */
  predicate EachRecords(a: seq<Command>, es: seq<Event>)
    decreases |a|
  {
    if a == [] || es == [] then a == [] && es == []
    else Records(a[0], es[0]) && EachRecords(a[1..], es[1..])
  }

  lemma {:induction false} EachRecordsAt(a: seq<Command>, es: seq<Event>, i: nat)
    requires EachRecords(a, es) && i < |a|
    ensures |a| == |es| && Records(a[i], es[i])
    decreases |a|
  {
    if i > 0 {
      EachRecordsAt(a[1..], es[1..], i - 1);
    } else if |a| > 1 {
      EachRecordsAt(a[1..], es[1..], 0);
    }
  }

  lemma {:induction false} RecordsCons(written: seq<Event>, e: Event, c: Command, a: seq<Command>, w: seq<Event>)
    requires written + [e] <= w && Records(c, e) && EachRecords(a, w[|written| + 1..])
    ensures EachRecords([c] + a, w[|written|..])
  {
    assert ([c] + a)[1..] == a;
    assert w[|written|] == e && w[|written|..][1..] == w[|written| + 1..];
  }

  lemma {:induction false} RecordsStep(written: seq<Event>, c: Command, next: seq<Event>, a: seq<Command>,
                                       w: seq<Event>)
    requires next == Step(written, c) && next <= w && EachRecords(a, w[|next|..])
    ensures written <= w && EachRecords((if Accepted(c) then [c] else []) + a, w[|written|..])
  {
    StepRecords(written, c, next);
    if Accepted(c) {
      var e :| next == written + [e] && Records(c, e);
      RecordsCons(written, e, c, a, w);
    } else {
      assert [] + a == a;
    }
  }

  /** A run adds one event for each command with a valid key, in their order, holding what the command says. */
  lemma {:induction false} RunRecords(written: seq<Event>, cs: seq<Command>)
    ensures written <= Run(written, cs) && EachRecords(AcceptedOf(cs), Run(written, cs)[|written|..])
    decreases |cs|
  {
    if cs != [] {
      var next := Step(written, cs[0]);
      RunRecords(next, cs[1..]);
      RecordsStep(written, cs[0], next, AcceptedOf(cs[1..]), Run(next, cs[1..]));
    }
  }

  /** In every run the file only gains a suffix, the log keeps its form (times 1, 2, 3, ..., distinct
      ids, earlier parents, registered keys), and the file reads back as exactly the events written. */
  lemma {:induction false} EveryRun(written: seq<Event>, cs: seq<Command>)
    requires LedgerLog(written) && AllAllowed(written, cs)
    ensures var w := Run(written, cs);
      && LedgerLog(w) && written <= w
      && FileText(written) <= FileText(w)
      && ParseFile(FileText(w)) == Some(StoredAll(w))
      && (forall e :: e in StoredAll(w) ==> IsValidKey(e.key))
    decreases |cs|
  {
    if cs == [] {
      FileRoundTrip(written);
      forall e | e in StoredAll(written) ensures IsValidKey(e.key) {
        var i :| 0 <= i < |written| && StoredAll(written)[i] == e;
        assert written[i] in written;
      }
    } else {
      StepKeeps(written, cs[0]);
      EveryRun(Step(written, cs[0]), cs[1..]);
    }
  }

  method ExecuteAppend(ledger: SwarmLedger, c: Command)
    requires ledger.Valid() && Allowed(ledger.written, c) && (c.AppendEvent? || c.AppendCorrection?)
    modifies ledger, ledger.file
    ensures ledger.Valid() && ledger.written == Step(old(ledger.written), c)
  {
    match c {
      case AppendEvent(p, id) =>
        var _ := ledger.Append(p, id);
      case AppendCorrection(target, value, tool, runId, confidence, now, id) =>
        var _ := ledger.Correct(target, value, tool, runId, confidence, now, id);
    }
  }

  method ExecuteOne(ledger: SwarmLedger, c: Command) returns (next: SwarmLedger)
    requires ledger.Valid() && Allowed(ledger.written, c)
    modifies ledger, ledger.file
    ensures next == ledger || fresh(next)
    ensures next.file == ledger.file && next.Valid() && next.written == Step(old(ledger.written), c)
  {
    next := ledger;
    match c {
      case ReadAll =>
        var _ := ledger.LoadAll();
      case ReadLatest(key) =>
        var _ := ledger.GetLatest(key);
      case Validate =>
        var _ := ledger.ValidateEvents();
      case Restart =>
        next := new SwarmLedger(ledger.file, ledger.written);
      case _ =>
        ExecuteAppend(ledger, c);
    }
  }

  /** The class follows the run, restarts on the same file included. */
  method Execute(file: LedgerFile, cs: seq<Command>) returns (ledger: SwarmLedger)
    requires !file.present && file.text == "" && AllAllowed([], cs)
    modifies file
    ensures fresh(ledger) && ledger.file == file && ledger.Valid() && ledger.written == Run([], cs)
  {
    ledger := new SwarmLedger(file, []);
    for i := 0 to |cs|
      invariant fresh(ledger) && ledger.file == file && ledger.Valid()
      invariant Run(ledger.written, cs[i..]) == Run([], cs) && AllAllowed(ledger.written, cs[i..])
    {
      assert cs[i..][0] == cs[i] && cs[i..][1..] == cs[i + 1..];
      ledger := ExecuteOne(ledger, cs[i]);
    }
  }

  /** Replaying a ledger run to logical time t gives the state after its first t events. */
  lemma {:induction false} ReplayOfRun(cs: seq<Command>, t: nat)
    requires AllAllowed([], cs) && t <= |Run([], cs)|
    ensures var log := StoredAll(Run([], cs));
      && Numbered(log)
      && LatestByKey(ReplayAt(log, t)) == SetAll(NONE_YET, log[..t])
  {
    EveryRun([], cs);
    LedgerLogIsCausal(Run([], cs));
    ReplayIsAppends(StoredAll(Run([], cs)), t);
  }
}
