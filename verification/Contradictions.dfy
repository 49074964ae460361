/** The contradiction engine: invariant checks over the latest event per key. */
module Contradictions {
  import opened Json
  import opened Events
  import opened Projections

  datatype Severity = HARD | SOFT | DRIFT

  datatype Contradiction = Contradiction(
    severity: Severity, rule: string, keys: seq<string>, tools: seq<string>, events: seq<Event>)

  datatype Report = Report(hard: nat, soft: nat, drift: nat, contradictions: seq<Contradiction>, consistent: bool)

  datatype Config = Config(hardSkew: int, softSkew: int, ghostRatio: real)

  // ----- numbers -----

  function FracValue(frac: string): real
    requires AllDigits(frac)
  {
    if frac == "" then 0.0 else ((frac[0] - '0') as int as real + FracValue(frac[1..])) / 10.0
  }

  function NumValue(v: Json): real
    requires v.Num? && Regular(v)
  {
    var m := v.whole as real + FracValue(v.frac);
    if v.neg then -m else m
  }

  /** `typeof v === "number" && v > 0` */
  predicate PositiveNumber(v: Json) {
    v.Num? && !v.neg && (v.whole != 0 || v.frac != "")
  }

  lemma {:induction false} FracPositive(frac: string)
    requires AllDigits(frac)
    ensures FracValue(frac) >= 0.0
    ensures frac != "" && frac[|frac| - 1] != '0' ==> FracValue(frac) > 0.0
  {
    if frac != "" { FracPositive(frac[1..]); }
  }

  lemma {:induction false} PositiveValue(v: Json)
    requires Regular(v) && PositiveNumber(v)
    ensures NumValue(v) > 0.0
  {
    FracPositive(v.frac);
  }

  // ----- the rules -----

  function Abs(n: int): nat { if n < 0 then -n else n }

  function Make(severity: Severity, rule: string, keys: seq<string>, a: Event, b: Event): Option<Contradiction> {
    Some(Contradiction(severity, rule, keys, [a.tool, b.tool], [a, b]))
  }

  function PeerCount(latest: Latest, config: Config): Option<Contradiction> {
    var b, s := latest.Get("dht.peer.count.bootstrap"), latest.Get("dht.peer.count.sim");
    if b.Some? && s.Some? && b.value.value == Int(0) && PositiveNumber(s.value.value) then
      var skew := Abs(b.value.timestamp - s.value.timestamp);
      if skew >= config.softSkew then None
      else if skew < config.hardSkew then Make(HARD, "dht-peer-count-consistency", ["dht.peer.count"], b.value, s.value)
      else Make(SOFT, "dht-peer-count-consistency", ["dht.peer.count"], b.value, s.value)
    else None
  }

  predicate GhostOffline(e: Event) { e.key == "node.status" && e.value == Str("offline") && e.tool == "ghost" }

  predicate SimActive(e: Event) { e.key == "node.status" && e.value == Str("online") && e.tool == "sim" }

  /** The nested loops: for the first ghost report, the first sim report about the same node. */
  function FirstClash(offline: seq<Event>, active: seq<Event>): Option<(Event, Event)> {
    if offline == [] then None
    else
      var s := FirstSame(offline[0], active);
      if s.Some? then Some((offline[0], s.value)) else FirstClash(offline[1..], active)
  }

  function FirstSame(g: Event, active: seq<Event>): Option<Event> {
    if active == [] then None
    else if Present(g.nodeId) && g.nodeId == active[0].nodeId then Some(active[0])
    else FirstSame(g, active[1..])
  }

  function NodeLiveness(latest: Latest, config: Config): Option<Contradiction>
    requires latest.Valid()
  {
    var values := latest.Values();
    match FirstClash(Filter(values, GhostOffline), Filter(values, SimActive))
    case None => None
    case Some((g, s)) => Make(HARD, "node-liveness-consistency", ["node.status"], g, s)
  }

  predicate CleanState(e: Event) { e.key == "dht.state.clean" && e.value == Bool(true) }

  function Find(values: seq<Event>, p: Event -> bool): Option<Event> {
    if values == [] then None else if p(values[0]) then Some(values[0]) else Find(values[1..], p)
  }

  function Orphans(latest: Latest, config: Config): Option<Contradiction>
    requires latest.Valid()
  {
    var o := latest.Get("keyspace.orphan.keys");
    if o.Some? && PositiveNumber(o.value.value) then
      var clean := Find(latest.Values(), CleanState);
      if clean.Some?
      then Make(DRIFT, "keyspace-orphan-consistency", ["keyspace.orphan.keys", "dht.state.clean"], o.value, clean.value)
      else None
    else None
  }

  function TunnelAnnounce(latest: Latest, config: Config): Option<Contradiction> {
    var t, a := latest.Get("tunnel.status"), latest.Get("dht.announced");
    if t.Some? && a.Some? && t.value.value == Str("failed") && a.value.value == Bool(true)
    then Make(HARD, "tunnel-vs-announce-consistency", ["tunnel.status", "dht.announced"], t.value, a.value)
    else None
  }

  function GhostDensity(latest: Latest, config: Config): Option<Contradiction> {
    var g, p := latest.Get("ghost.count"), latest.Get("dht.peer.count");
    if g.Some? && p.Some? && g.value.value.Num? && Regular(g.value.value)
       && PositiveNumber(p.value.value) && Regular(p.value.value)
       && (PositiveValue(p.value.value);
           NumValue(g.value.value) / NumValue(p.value.value) > config.ghostRatio)
    then Make(SOFT, "ghost-density", ["ghost.count", "dht.peer.count"], g.value, p.value)
    else None
  }

  const RULES: nat := 5

  /** INVARIANTS[i].check */
  function CheckRule(i: nat, latest: Latest, config: Config): Option<Contradiction>
    requires latest.Valid()
  {
    match i
    case 0 => PeerCount(latest, config)
    case 1 => NodeLiveness(latest, config)
    case 2 => Orphans(latest, config)
    case 3 => TunnelAnnounce(latest, config)
    case _ => GhostDensity(latest, config)
  }

  // ----- detectContradictions -----

  function Findings(i: nat, latest: Latest, config: Config): seq<Contradiction>
    requires latest.Valid() && i <= RULES
    decreases RULES - i
  {
    if i == RULES then []
    else
      var r := CheckRule(i, latest, config);
      (if r.Some? then [r.value] else []) + Findings(i + 1, latest, config)
  }

  function Count(cs: seq<Contradiction>, s: Severity): nat {
    if cs == [] then 0 else (if cs[0].severity == s then 1 else 0) + Count(cs[1..], s)
  }

  function ReportOf(cs: seq<Contradiction>): Report {
    Report(Count(cs, HARD), Count(cs, SOFT), Count(cs, DRIFT), cs, Count(cs, HARD) == 0)
  }

  function Detect(events: seq<Event>, config: Config): Report {
    LatestByKeyIs(events);
    ReportOf(Findings(0, LatestByKey(events), config))
  }

  lemma {:induction false} FindingsStep(done: seq<Contradiction>, i: nat, latest: Latest, config: Config)
    requires latest.Valid() && i < RULES
    ensures done + Findings(i, latest, config)
         == (match CheckRule(i, latest, config) case Some(c) => done + [c] case None => done)
            + Findings(i + 1, latest, config)
  {
    Regroup(done, CheckRule(i, latest, config), Findings(i + 1, latest, config));
  }

  lemma {:induction false} Regroup(done: seq<Contradiction>, r: Option<Contradiction>, rest: seq<Contradiction>)
    ensures done + ((if r.Some? then [r.value] else []) + rest)
         == (match r case Some(c) => done + [c] case None => done) + rest
  {
  }

  method DetectContradictions(events: seq<Event>, config: Config) returns (report: Report)
    ensures report == Detect(events, config)
  {
    var latest := ProjectLatestByKey(events);
    LatestByKeyIs(events);
    var contradictions: seq<Contradiction> := [];
    for i := 0 to RULES
      invariant contradictions + Findings(i, latest, config) == Findings(0, latest, config)
    {
      FindingsStep(contradictions, i, latest, config);
      match CheckRule(i, latest, config) {
        case Some(c) => contradictions := contradictions + [c];
        case None =>
      }
    }
    assert contradictions + [] == contradictions;
    report := ReportOf(contradictions);
  }

  function CiExitCode(r: Report): int {
    if r.hard > 0 then 3 else if r.soft > 0 then 2 else if r.drift > 0 then 1 else 0
  }

  // ----- the report depends on the latest event per key only -----

  ghost predicate OwnKeys(latest: Latest) {
    latest.Valid() && forall k :: k in latest.data ==> latest.data[k].key == k
  }

  lemma {:induction false} ValuesOnce(latest: Latest, i: nat, j: nat)
    requires OwnKeys(latest) && i < |latest.order| && j < |latest.order|
    requires latest.Values()[i].key == latest.Values()[j].key
    ensures i == j
  {
    assert latest.order[i] in latest.data && latest.order[j] in latest.data;
  }

  /** At most one node.status event survives, so no node is both offline and online. */
  lemma {:induction false} LivenessNeverFires(latest: Latest, config: Config)
    requires OwnKeys(latest)
    ensures NodeLiveness(latest, config) == None
  {
    var values := latest.Values();
    var offline, active := Filter(values, GhostOffline), Filter(values, SimActive);
    assert "offline"[1] != "online"[1];
    if offline != [] && active != [] {
      assert offline[0] in offline && active[0] in active;
      var i :| 0 <= i < |values| && values[i] == offline[0];
      var j :| 0 <= j < |values| && values[j] == active[0];
      ValuesOnce(latest, i, j);
    }
    NoClash(offline, active);
  }

  lemma {:induction false} NoClash(offline: seq<Event>, active: seq<Event>)
    requires offline == [] || active == []
    ensures FirstClash(offline, active) == None
    decreases |offline|
  {
    if offline != [] { NoClash(offline[1..], active); }
  }

  lemma {:induction false} FindIs(values: seq<Event>, p: Event -> bool)
    ensures match Find(values, p)
      case None => forall e :: e in values ==> !p(e)
      case Some(e) => e in values && p(e)
  {
    if values != [] {
      FindIs(values[1..], p);
      assert values == [values[0]] + values[1..];
    }
  }

  /** find() over the values meets at most one event of the key, so it is a lookup. */
  lemma {:induction false} CleanIsLookup(latest: Latest)
    requires OwnKeys(latest)
    ensures Find(latest.Values(), CleanState)
         == match latest.Get("dht.state.clean")
            case Some(e) => (if e.value == Bool(true) then Some(e) else None)
            case None => None
  {
    var values := latest.Values();
    FindIs(values, CleanState);
    var found := Find(values, CleanState);
    if found.Some? {
      var i :| 0 <= i < |values| && values[i] == found.value;
      assert latest.order[i] in latest.data;
    } else if "dht.state.clean" in latest.data {
      var i :| 0 <= i < |latest.order| && latest.order[i] == "dht.state.clean";
      assert values[i] in values;
    }
  }

  lemma {:induction false} RuleSees(i: nat, a: Latest, b: Latest, config: Config)
    requires OwnKeys(a) && OwnKeys(b) && a.data == b.data
    ensures CheckRule(i, a, config) == CheckRule(i, b, config)
  {
    if i == 1 {
      LivenessNeverFires(a, config);
      LivenessNeverFires(b, config);
    } else if i == 2 {
      CleanIsLookup(a);
      CleanIsLookup(b);
    }
  }

  lemma {:induction false} FindingsSee(i: nat, a: Latest, b: Latest, config: Config)
    requires OwnKeys(a) && OwnKeys(b) && a.data == b.data && i <= RULES
    ensures Findings(i, a, config) == Findings(i, b, config)
    decreases RULES - i
  {
    if i < RULES {
      RuleSees(i, a, b, config);
      FindingsSee(i + 1, a, b, config);
    }
  }

  /** Two logs with the same latest event for every key get the same report. */
  lemma {:induction false} ReportFromLatest(a: seq<Event>, b: seq<Event>, config: Config)
    requires forall k :: GetLatestByKey(a, k) == GetLatestByKey(b, k)
    ensures Detect(a, config) == Detect(b, config)
  {
    SameLatest(a, b);
    LatestByKeyIs(a);
    LatestByKeyIs(b);
    FindingsSee(0, LatestByKey(a), LatestByKey(b), config);
  }

  /** Reordering events with distinct logical times leaves the report unchanged. */
  lemma {:induction false} OrderDoesNotMatter(a: seq<Event>, b: seq<Event>, config: Config)
    requires DistinctTimes(a) && DistinctTimes(b) && forall e :: e in a <==> e in b
    ensures Detect(a, config) == Detect(b, config)
  {
    SortForgetsOrder(a, b);
  }

  lemma {:induction false} FilterConcat(s: seq<Event>, t: seq<Event>, p: Event -> bool)
    ensures Filter(s + t, p) == Filter(s, p) + Filter(t, p)
  {
    if s == [] {
      assert s + t == t;
      assert [] + Filter(t, p) == Filter(t, p);
    } else {
      FilterConcat(s[1..], t, p);
      FilterCons(s[0], s[1..] + t, p);
      assert s + t == [s[0]] + (s[1..] + t);
      assert [s[0]] + (Filter(s[1..], p) + Filter(t, p)) == [s[0]] + Filter(s[1..], p) + Filter(t, p);
    }
  }

  /** The log has an event of the same key with a greater time, or the same time and further on. */
  predicate Supersedes(before: seq<Event>, gone: Event, after: seq<Event>, later: Event) {
    && later.key == gone.key
    && ((later in before && later.time > gone.time) || (later in after && later.time >= gone.time))
  }

  /** So does adding a superseded event, wherever it is put. */
  lemma {:induction false} SupersededDoesNotMatter(before: seq<Event>, gone: Event, after: seq<Event>, later: Event,
                                                   config: Config)
    requires Supersedes(before, gone, after, later)
    ensures Detect(before + [gone] + after, config) == Detect(before + after, config)
  {
    forall k ensures GetLatestByKey(before + [gone] + after, k) == GetLatestByKey(before + after, k) {
      SupersededAtKey(before, gone, after, later, k);
    }
    ReportFromLatest(before + [gone] + after, before + after, config);
  }

  lemma {:induction false} SupersededAtKey(before: seq<Event>, gone: Event, after: seq<Event>, later: Event, k: string)
    requires Supersedes(before, gone, after, later)
    ensures GetLatestByKey(before + [gone] + after, k) == GetLatestByKey(before + after, k)
  {
    var p := KeyIs(k);
    var f, g := Filter(before, p), Filter(after, p);
    FilterConcat(before, after, p);
    FilterConcat(before + [gone], after, p);
    FilterAppend(before, gone, p);
    PickAppend(f, g);
    if k == gone.key {
      assert later in before ==> later in f;
      assert later in after ==> later in g;
      SupersededPick(f, gone, g, later);
    }
  }

  lemma {:induction false} SupersededPick(f: seq<Event>, gone: Event, g: seq<Event>, later: Event)
    requires (later in f && later.time > gone.time) || (later in g && later.time >= gone.time)
    ensures Pick(f + [gone] + g) == Pick(f + g)
  {
    PickAppend(f, g);
    PickAppend(f, [gone]);
    PickAppend(f + [gone], g);
    if f != [] { PickIsLatest(f); }
    if g != [] { PickIsLatest(g); }
  }

  // ----- counts -----

  lemma {:induction false} CountsAddUp(cs: seq<Contradiction>)
    ensures Count(cs, HARD) + Count(cs, SOFT) + Count(cs, DRIFT) == |cs|
    ensures forall s :: Count(cs, s) > 0 <==> exists c :: c in cs && c.severity == s
  {
    if cs != [] {
      CountsAddUp(cs[1..]);
      assert cs == [cs[0]] + cs[1..];
      forall s ensures Count(cs, s) > 0 <==> exists c :: c in cs && c.severity == s {
        if cs[0].severity == s { assert cs[0] in cs; }
      }
    }
  }

  function ExitCodeOf(s: Severity): int {
    match s case HARD => 3 case SOFT => 2 case DRIFT => 1
  }

  /** The three counts cover all findings, and the exit code is the highest severity present. */
  lemma {:induction false} ReportCounts(events: seq<Event>, config: Config)
    ensures var r := Detect(events, config);
      && r.hard + r.soft + r.drift == |r.contradictions|
      && (r.consistent <==> forall c :: c in r.contradictions ==> c.severity != HARD)
      && (forall c :: c in r.contradictions ==> ExitCodeOf(c.severity) <= CiExitCode(r))
      && (CiExitCode(r) == 0 <==> r.contradictions == [])
      && (CiExitCode(r) != 0 ==> exists c :: c in r.contradictions && ExitCodeOf(c.severity) == CiExitCode(r))
  {
    var r := Detect(events, config);
    CountsAddUp(r.contradictions);
    if r.contradictions != [] { assert r.contradictions[0] in r.contradictions; }
  }

  /** So on any log the liveness rule is silent. */
  lemma {:induction false} LivenessSilent(events: seq<Event>, config: Config)
    ensures LatestByKey(events).Valid() && NodeLiveness(LatestByKey(events), config) == None
  {
    LatestByKeyIs(events);
    LivenessNeverFires(LatestByKey(events), config);
  }
}
