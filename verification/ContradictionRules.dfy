/** What each rule reports, said of the latest events of the log, and what that means for the exit code. */
module ContradictionRules {
  import opened Text
  import opened Json
  import opened Events
  import opened Projections
  import opened Contradictions

  const PEERS := "dht-peer-count-consistency"
  const LIVENESS := "node-liveness-consistency"
  const ORPHANS := "keyspace-orphan-consistency"
  const ANNOUNCE := "tunnel-vs-announce-consistency"
  const GHOSTS := "ghost-density"

  // ----- what the rules compare -----

  /** A number above zero. */
  predicate Positive(v: Json) { v.Num? && !v.neg && v != Int(0) }

  function Pow10(n: nat): (r: nat)
    ensures r > 0
  {
    if n == 0 then 1 else 10 * Pow10(n - 1)
  }

  lemma {:induction false} Shifted(f: real, d: nat, t: real, p: nat, q: nat, n: nat, m: nat)
    requires f == (d as real + t) / 10.0 && t * p as real == n as real && q == 10 * p && m == d * p + n
    ensures f * q as real == m as real
  {
    var u := d as real + t;
    assert q as real == 10.0 * p as real;
    assert f * q as real == u * p as real;
    assert u * p as real == d as real * p as real + t * p as real;
    assert (d * p) as real == d as real * p as real;
  }

  lemma {:induction false} FracIs(frac: string, f: real, q: nat, m: nat)
    requires AllDigits(frac) && f == FracValue(frac) && q == Pow10(|frac|) && m == ToNat(frac)
    ensures f * q as real == m as real
  {
    if frac == "" {
      assert f == 0.0 && m == 0;
    } else {
      var t, p, n := FracValue(frac[1..]), Pow10(|frac| - 1), ToNat(frac[1..]);
      FracIs(frac[1..], t, p, n);
      ToNatCons(frac);
      Shifted(f, (frac[0] - '0') as int, t, p, q, n, m);
    }
  }

  lemma {:induction false} ToNatCons(ds: string)
    requires AllDigits(ds) && ds != ""
    ensures ToNat(ds) == (ds[0] - '0') as int * Pow10(|ds| - 1) + ToNat(ds[1..])
  {
    if |ds| > 1 {
      var init := ds[..|ds| - 1];
      ToNatCons(init);
      assert init[1..] == ds[1..][..|ds| - 2];
      var d, p := (ds[0] - '0') as int, Pow10(|ds| - 2);
      assert (d * p) * 10 == d * (10 * p);
    } else {
      assert ds[..0] == "" && ds[1..] == "";
    }
  }

  lemma {:induction false} AddScaled(y: real, w: nat, t: real, p: nat, n: nat, m: nat)
    requires t * p as real == n as real && m == w * p + n && y == w as real + t
    ensures y * p as real == m as real
  {
    assert y * p as real == w as real * p as real + t * p as real;
    assert (w * p) as real == w as real * p as real;
  }

  lemma {:induction false} Magnitude(w: nat, frac: string, p: nat, n: nat)
    requires AllDigits(frac) && p == Pow10(|frac|) && n == w * p + ToNat(frac)
    ensures (w as real + FracValue(frac)) * p as real == n as real
  {
    var y, t, m := w as real + FracValue(frac), FracValue(frac), ToNat(frac);
    FracIs(frac, t, p, m);
    AddScaled(y, w, t, p, m, n);
  }

  /** A number is its digits as one whole number, over ten to the places after the point. */
  lemma {:induction false} NumValueIs(v: Json, n: nat, p: nat)
    requires v.Num? && Regular(v) && p == Pow10(|v.frac|) && n == v.whole * p + ToNat(v.frac)
    ensures (if v.neg then -NumValue(v) else NumValue(v)) * p as real == n as real
  {
    Magnitude(v.whole, v.frac, p, n);
  }

  lemma {:induction false} PositiveIff(v: Json)
    requires v.Num? && Regular(v)
    ensures Positive(v) <==> NumValue(v) > 0.0
  {
    FracPositive(v.frac);
    if Positive(v) { PositiveValue(v); }
  }

  // ----- when each rule applies -----

  function ValueOf(events: seq<Event>, key: string): Json {
    match GetLatestByKey(events, key) case None => Undefined case Some(e) => e.value
  }

  /** The bootstrap node counts no peers, the simulator some. */
  predicate CountsClash(events: seq<Event>) {
    && ValueOf(events, "dht.peer.count.bootstrap") == Int(0)
    && Positive(ValueOf(events, "dht.peer.count.sim"))
  }

  /** ... within this many milliseconds of each other. */
  predicate CountedWithin(events: seq<Event>, limit: int) {
    match (GetLatestByKey(events, "dht.peer.count.bootstrap"), GetLatestByKey(events, "dht.peer.count.sim"))
    case (Some(b), Some(s)) => b.timestamp - s.timestamp < limit && s.timestamp - b.timestamp < limit
    case _ => false
  }

  predicate OrphansInCleanState(events: seq<Event>) {
    && Positive(ValueOf(events, "keyspace.orphan.keys"))
    && ValueOf(events, "dht.state.clean") == Bool(true)
  }

  predicate AnnouncedWithoutTunnel(events: seq<Event>) {
    && ValueOf(events, "tunnel.status") == Str("failed")
    && ValueOf(events, "dht.announced") == Bool(true)
  }

  predicate ManyGhosts(events: seq<Event>, config: Config) {
    var g, p := ValueOf(events, "ghost.count"), ValueOf(events, "dht.peer.count");
    && g.Num? && Regular(g) && Regular(p) && Positive(p)
    && NumValue(g) > config.ghostRatio * NumValue(p)
  }

  /** The finding of a rule about the latest events of two keys. */
  function About(severity: Severity, rule: string, keys: seq<string>, events: seq<Event>, a: string, b: string)
    : Contradiction
    requires GetLatestByKey(events, a).Some? && GetLatestByKey(events, b).Some?
  {
    var x, y := GetLatestByKey(events, a).value, GetLatestByKey(events, b).value;
    Contradiction(severity, rule, keys, [x.tool, y.tool], [x, y])
  }

  // ----- what each rule reports -----

  /** Where a rule stands among the rules. */
  function Place(rule: string): nat {
    if rule == PEERS then 0
    else if rule == LIVENESS then 1
    else if rule == ORPHANS then 2
    else if rule == ANNOUNCE then 3
    else 4
  }

  lemma {:induction false} Places()
    ensures Place(PEERS) == 0 && Place(ORPHANS) == 2 && Place(ANNOUNCE) == 3 && Place(GHOSTS) == 4
  {
    assert |PEERS| == 26 && |LIVENESS| == 25 && |ORPHANS| == 27 && |ANNOUNCE| == 30 && |GHOSTS| == 13;
  }

  predicate CountsReport(events: seq<Event>, config: Config, c: Contradiction) {
    && CountsClash(events) && CountedWithin(events, config.softSkew)
    && c == About(if CountedWithin(events, config.hardSkew) then HARD else SOFT, PEERS, ["dht.peer.count"],
                  events, "dht.peer.count.bootstrap", "dht.peer.count.sim")
  }

  predicate OrphansReport(events: seq<Event>, c: Contradiction) {
    && OrphansInCleanState(events)
    && c == About(DRIFT, ORPHANS, ["keyspace.orphan.keys", "dht.state.clean"],
                  events, "keyspace.orphan.keys", "dht.state.clean")
  }

  predicate AnnounceReport(events: seq<Event>, c: Contradiction) {
    && AnnouncedWithoutTunnel(events)
    && c == About(HARD, ANNOUNCE, ["tunnel.status", "dht.announced"], events, "tunnel.status", "dht.announced")
  }

  predicate GhostsReport(events: seq<Event>, config: Config, c: Contradiction) {
    && ManyGhosts(events, config)
    && c == About(SOFT, GHOSTS, ["ghost.count", "dht.peer.count"], events, "ghost.count", "dht.peer.count")
  }

  predicate Reported(events: seq<Event>, config: Config, c: Contradiction) {
    || CountsReport(events, config, c)
    || OrphansReport(events, c)
    || AnnounceReport(events, c)
    || GhostsReport(events, config, c)
  }

  // ----- the rules -----

  lemma {:induction false} PeerCountIff(events: seq<Event>, config: Config, c: Contradiction)
    ensures PeerCount(LatestByKey(events), config) == Some(c) <==> CountsReport(events, config, c)
  {
    LatestAgree(events, "dht.peer.count.bootstrap");
    LatestAgree(events, "dht.peer.count.sim");
  }

  lemma {:induction false} OrphansIff(events: seq<Event>, config: Config, c: Contradiction)
    requires LatestByKey(events).Valid()
    ensures Orphans(LatestByKey(events), config) == Some(c) <==> OrphansReport(events, c)
  {
    LatestByKeyIs(events);
    CleanIsLookup(LatestByKey(events));
    LatestAgree(events, "keyspace.orphan.keys");
    LatestAgree(events, "dht.state.clean");
  }

  lemma {:induction false} TunnelAnnounceIff(events: seq<Event>, config: Config, c: Contradiction)
    ensures TunnelAnnounce(LatestByKey(events), config) == Some(c) <==> AnnounceReport(events, c)
  {
    LatestAgree(events, "tunnel.status");
    LatestAgree(events, "dht.announced");
  }

  lemma {:induction false} RatioAbove(g: real, p: real, ratio: real)
    requires p > 0.0
    ensures g / p > ratio <==> g > ratio * p
  {
    assert g / p * p == g;
  }

  lemma {:induction false} GhostDensityIff(events: seq<Event>, config: Config, c: Contradiction)
    ensures GhostDensity(LatestByKey(events), config) == Some(c) <==> GhostsReport(events, config, c)
  {
    LatestAgree(events, "ghost.count");
    LatestAgree(events, "dht.peer.count");
    var g, p := ValueOf(events, "ghost.count"), ValueOf(events, "dht.peer.count");
    if g.Num? && Regular(g) && Regular(p) && Positive(p) {
      PositiveValue(p);
      RatioAbove(NumValue(g), NumValue(p), config.ghostRatio);
    }
  }

  /** The report of the i-th rule. */
  predicate ReportedBy(i: nat, events: seq<Event>, config: Config, c: Contradiction) {
    match i
    case 0 => CountsReport(events, config, c)
    case 1 => false
    case 2 => OrphansReport(events, c)
    case 3 => AnnounceReport(events, c)
    case _ => GhostsReport(events, config, c)
  }

  lemma {:induction false} RuleIff(i: nat, events: seq<Event>, config: Config, c: Contradiction)
    requires LatestByKey(events).Valid()
    ensures CheckRule(i, LatestByKey(events), config) == Some(c) <==> ReportedBy(i, events, config, c)
  {
    match i
    case 0 => PeerCountIff(events, config, c);
    case 1 => LivenessSilent(events, config);
    case 2 => OrphansIff(events, config, c);
    case 3 => TunnelAnnounceIff(events, config, c);
    case _ => GhostDensityIff(events, config, c);
  }

  lemma {:induction false} ReportedAt(i: nat, events: seq<Event>, config: Config, c: Contradiction)
    requires i < RULES && ReportedBy(i, events, config, c)
    ensures Place(c.rule) == i
  {
    Places();
  }

  // ----- the report -----

  ghost predicate InOrder(cs: seq<Contradiction>, i: nat) {
    && (forall c :: c in cs ==> i <= Place(c.rule))
    && (forall m, n :: 0 <= m < n < |cs| ==> Place(cs[m].rule) < Place(cs[n].rule))
  }

  lemma {:induction false} InOrderCons(c: Contradiction, cs: seq<Contradiction>, i: nat)
    requires InOrder(cs, i + 1) && Place(c.rule) == i
    ensures InOrder([c] + cs, i)
  {
    forall m, n | 0 <= m < n < |[c] + cs| ensures Place(([c] + cs)[m].rule) < Place(([c] + cs)[n].rule) {
      assert ([c] + cs)[n] == cs[n - 1] && cs[n - 1] in cs;
      if m > 0 { assert ([c] + cs)[m] == cs[m - 1]; }
    }
  }

  ghost predicate ListedBy(cs: seq<Contradiction>, i: nat, events: seq<Event>, config: Config) {
    && InOrder(cs, i)
    && forall c :: c in cs <==> exists j :: i <= j < RULES && ReportedBy(j, events, config, c)
  }

  lemma {:induction false} ListedCons(i: nat, events: seq<Event>, config: Config, r: Option<Contradiction>,
                                      rest: seq<Contradiction>)
    requires i < RULES && ListedBy(rest, i + 1, events, config)
    requires forall c :: r == Some(c) <==> ReportedBy(i, events, config, c)
    ensures ListedBy((if r.Some? then [r.value] else []) + rest, i, events, config)
  {
    var cs := (if r.Some? then [r.value] else []) + rest;
    if r.Some? {
      ReportedAt(i, events, config, r.value);
      InOrderCons(r.value, rest, i);
    } else {
      assert cs == rest;
    }
    forall c ensures c in cs <==> exists j :: i <= j < RULES && ReportedBy(j, events, config, c) {
      assert c in cs <==> r == Some(c) || c in rest;
    }
  }

  lemma {:induction false} FindingsAre(i: nat, events: seq<Event>, config: Config)
    requires LatestByKey(events).Valid() && i <= RULES
    ensures ListedBy(Findings(i, LatestByKey(events), config), i, events, config)
    decreases RULES - i
  {
    if i < RULES {
      FindingsAre(i + 1, events, config);
      forall c ensures CheckRule(i, LatestByKey(events), config) == Some(c) <==> ReportedBy(i, events, config, c) {
        RuleIff(i, events, config, c);
      }
      ListedCons(i, events, config, CheckRule(i, LatestByKey(events), config),
                 Findings(i + 1, LatestByKey(events), config));
    }
  }

  /** A finding is reported exactly when the latest values are those its rule looks for, with the severity,
      keys, tools and events of the rule; at most one for each rule, in the order of the rules. */
  lemma {:induction false} ReportIs(events: seq<Event>, config: Config)
    ensures var cs := Detect(events, config).contradictions;
      && (forall m, n :: 0 <= m < n < |cs| ==> Place(cs[m].rule) < Place(cs[n].rule))
      && forall c :: c in cs <==> Reported(events, config, c)
  {
    LatestByKeyIs(events);
    FindingsAre(0, events, config);
    forall c ensures Reported(events, config, c) <==> exists j :: 0 <= j < RULES && ReportedBy(j, events, config, c) {
      assert ReportedBy(0, events, config, c) <==> CountsReport(events, config, c);
      assert ReportedBy(2, events, config, c) <==> OrphansReport(events, c);
      assert ReportedBy(3, events, config, c) <==> AnnounceReport(events, c);
      assert ReportedBy(4, events, config, c) <==> GhostsReport(events, config, c);
    }
  }

  predicate Applies(events: seq<Event>, config: Config, s: Severity) {
    var close := CountsClash(events) && CountedWithin(events, config.softSkew);
    match s
    case HARD => AnnouncedWithoutTunnel(events) || (close && CountedWithin(events, config.hardSkew))
    case SOFT => ManyGhosts(events, config) || (close && !CountedWithin(events, config.hardSkew))
    case DRIFT => OrphansInCleanState(events)
  }

  lemma {:induction false} ReportedApplies(events: seq<Event>, config: Config, c: Contradiction)
    requires Reported(events, config, c)
    ensures Applies(events, config, c.severity)
  {
  }

  lemma {:induction false} AppliesReported(events: seq<Event>, config: Config, s: Severity) returns (c: Contradiction)
    requires Applies(events, config, s)
    ensures Reported(events, config, c) && c.severity == s
  {
    if s == DRIFT {
      c := About(DRIFT, ORPHANS, ["keyspace.orphan.keys", "dht.state.clean"],
                 events, "keyspace.orphan.keys", "dht.state.clean");
    } else if s == HARD && AnnouncedWithoutTunnel(events) {
      c := About(HARD, ANNOUNCE, ["tunnel.status", "dht.announced"], events, "tunnel.status", "dht.announced");
    } else if s == SOFT && ManyGhosts(events, config) {
      c := About(SOFT, GHOSTS, ["ghost.count", "dht.peer.count"], events, "ghost.count", "dht.peer.count");
    } else {
      c := About(s, PEERS, ["dht.peer.count"], events, "dht.peer.count.bootstrap", "dht.peer.count.sim");
    }
  }

  /** The severities of a report are those whose conditions hold. */
  lemma {:induction false} SeveritiesAre(events: seq<Event>, config: Config, s: Severity)
    ensures (exists c :: c in Detect(events, config).contradictions && c.severity == s) <==> Applies(events, config, s)
  {
    ReportIs(events, config);
    if c :| c in Detect(events, config).contradictions && c.severity == s { ReportedApplies(events, config, c); }
    if Applies(events, config, s) { var c := AppliesReported(events, config, s); }
  }

  /** Exit code 3 means that an announced node has no tunnel or that the peer counts clash within the hard
      limit; 2 and 1 are the next severities, 0 is the rest. */
  lemma {:induction false} ExitCodeIs(events: seq<Event>, config: Config)
    ensures CiExitCode(Detect(events, config))
      == if Applies(events, config, HARD) then 3
         else if Applies(events, config, SOFT) then 2
         else if Applies(events, config, DRIFT) then 1 else 0
  {
    CountsAddUp(Detect(events, config).contradictions);
    SeveritiesAre(events, config, HARD);
    SeveritiesAre(events, config, SOFT);
    SeveritiesAre(events, config, DRIFT);
  }
}
