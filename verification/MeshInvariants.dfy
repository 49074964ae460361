/** What every run of requests keeps: mesh records that were accepted when they were written, heartbeats
    that do not go back, and the time an entry stays listed. */
module MeshInvariants {
  import opened Json
  import opened JsonRoundTrip
  import opened Canonical
  import opened Signing
  import opened Store
  import opened Coordinator

  // ----- runs -----

  ghost predicate WellFormed(req: Request) {
    (req.Register? || req.HeartbeatRecord?) ==> Regular(req.record)
  }

  /** The entries live when a request arrives, then its effect. */
  function After(env: Env, v: View, t: Timed<Request>): View { Handle(env, Live(v, t.now), t.now, t.act).0 }

  function Run(env: Env, v: View, ts: seq<Timed<Request>>): View
    decreases |ts|
  {
    if ts == [] then v else Run(env, After(env, v, ts[0]), ts[1..])
  }

  // ----- keys -----

  lemma {:induction false} KeysApart(n: string, a: string, id: string)
    ensures MeshKey(n, a) != ProxyKey(id) && IsMeshKey(MeshKey(n, a)) && IsProxyKey(ProxyKey(id))
    ensures !IsMeshKey(ProxyKey(id)) && !IsProxyKey(MeshKey(n, a))
  {
    assert MeshKey(n, a)[0] == 'm' && ProxyKey(id)[0] == 'p';
    assert "mesh:"[0] == 'm' && "proxy:"[0] == 'p';
  }

  lemma {:induction false} ProxyKeyInjective(a: string, b: string)
    requires ProxyKey(a) == ProxyKey(b)
    ensures a == b
  {
    assert ProxyKey(a)[6..] == a && ProxyKey(b)[6..] == b;
  }

  /** Within one network, or for one node, the mesh key determines the rest. */
  lemma {:induction false} MeshKeyInjective(m: string, n: string, a: string, b: string)
    requires MeshKey(m, a) == MeshKey(n, b)
    ensures m == n <==> a == b
  {
    var x, y := MeshKey(m, a), MeshKey(n, b);
    if m == n {
      assert x[|m| + 6..] == a && y[|n| + 6..] == b;
    }
    if a == b {
      assert |m| == |n|;
      assert x[5..5 + |m|] == m && y[5..5 + |n|] == n;
    }
  }

  // ----- a record after its trip through the store -----

  lemma {:induction false} ChildStrip(v: Json, k: string)
    requires Regular(v)
    ensures Child(StripIfAny(v), k) == StripIfAny(Child(v, k))
    ensures TextOf(StripIfAny(v), k) == TextOf(v, k)
    ensures Regular(Child(v, k))
  {
    if v.Obj? { StripFieldsLookup(v.fields); }
  }

  lemma {:induction false} ReadRecord(r: Json)
    requires Regular(r) && r != Undefined
    ensures Read(RecordText(r)) == Strip(r) && Regular(Strip(r)) && Strip(Strip(r)) == Strip(r)
    ensures RecordText(r) == Print(r) == Print(Strip(r))
  {
    PrintStrip(r);
    RoundTrip(r);
    StripRegular(r);
    RoundTrip(Strip(r));
  }

  lemma {:induction false} StripKeepsTexts(r: Json)
    requires Regular(r)
    ensures NetworkOf(StripIfAny(r)) == NetworkOf(r) && NetworkText(StripIfAny(r)) == NetworkText(r)
    ensures NodeIdOf(StripIfAny(r)) == NodeIdOf(r)
    ensures ExpiresAt(StripIfAny(r)) == ExpiresAt(r) && HeartbeatAt(StripIfAny(r)) == HeartbeatAt(r)
  {
    ChildStrip(r, "networkId");
    ChildStrip(r, "nodeId");
    ChildStrip(r, "lifecycle");
    ChildStrip(Child(r, "lifecycle"), "expiresAt");
    ChildStrip(Child(r, "lifecycle"), "heartbeatAt");
  }

  lemma {:induction false} NestedStrip(r: Json, a: string, b: string)
    requires Regular(r)
    ensures Child(Child(StripIfAny(r), a), b) == StripIfAny(Child(Child(r, a), b))
    ensures TextOf(Child(StripIfAny(r), a), b) == TextOf(Child(r, a), b)
    ensures Regular(Child(Child(r, a), b))
  {
    ChildStrip(r, a);
    ChildStrip(Child(r, a), b);
  }

  lemma {:induction false} StripKeepsIdentity(r: Json, s: Json)
    requires Regular(r) && s == StripIfAny(r)
    ensures IdentityOf(s) == IdentityOf(r)
  {
    StripKeepsTexts(r);
    ChildStrip(r, "schema");
    ChildStrip(r, "protocol");
    ChildStrip(r, "ingress");
    ChildStrip(r, "endpoint");
    NestedStrip(r, "endpoint", "host");
    NestedStrip(r, "endpoint", "port");
  }

  lemma {:induction false} StripKeepsLifecycle(env: Env, r: Json, now: int)
    requires Regular(r)
    ensures CheckLifecycle(env, StripIfAny(r), now) == CheckLifecycle(env, r, now)
  {
    StripKeepsTexts(r);
    NestedStrip(r, "lifecycle", "ttlSeconds");
  }

  lemma {:induction false} StripKeepsWorkerPayload(fields: seq<Field>)
    requires Regular(Obj(fields))
    ensures WorkerPayload(StripFields(fields)) == WorkerPayload(fields)
  {
    TripKeepsPayload(fields);
    CopiesAgree(Obj(Unsigned(fields)));
    CopiesAgree(Obj(Unsigned(StripFields(fields))));
  }

  lemma {:induction false} StripKeepsSignature(env: Env, r: Json)
    requires Regular(r)
    ensures CheckSignature(env, StripIfAny(r)) == CheckSignature(env, r)
  {
    ChildStrip(r, "publicKeyId");
    ChildStrip(r, "signature");
    if r.Obj? { StripKeepsWorkerPayload(r.fields); }
  }

  /** A stored record is accepted exactly when the record that was sent is. */
  lemma {:induction false} StoredVerifiesAlike(env: Env, r: Json, now: int)
    requires Regular(r) && r != Undefined
    ensures VerifyPublicRecord(env, Strip(r), now) == VerifyPublicRecord(env, r, now)
  {
    StripKeepsIdentity(r, Strip(r));
    StripKeepsLifecycle(env, r, now);
    StripKeepsSignature(env, r);
  }

  // ----- each mesh entry was accepted, and sits under its own key -----

  /** The value is a printed record of the network and node its key is built from. */
  ghost predicate Genuine(k: string, value: string) {
    var r := Read(value);
    r.Obj? && Regular(r) && value == Print(r) && k == MeshKey(NetworkOf(r), NodeIdOf(r))
  }

  ghost predicate AllGenuine(v: View) {
    forall k :: k in v && IsMeshKey(k) ==> Genuine(k, v[k].value)
  }

  /** The request brought a record that verifyPublicRecord accepted at that time, and this is its entry. */
  ghost predicate Wrote(env: Env, t: Timed<Request>, k: string, value: string) {
    && (t.act.Register? || t.act.HeartbeatRecord?) && Accepts(env, t.act.record, t.now)
    && k == MeshKey(NetworkOf(t.act.record), NodeIdOf(t.act.record)) && value == RecordText(t.act.record)
  }

  /** What is stored then is genuine, and would have been accepted at that time as well. */
  lemma {:induction false} WroteGenuine(env: Env, t: Timed<Request>, k: string, value: string)
    requires WellFormed(t.act) && Wrote(env, t, k, value)
    ensures Genuine(k, value) && Accepts(env, Read(value), t.now)
  {
    var r := t.act.record;
    AcceptedIsObject(env, r, t.now);
    ReadRecord(r);
    StripKeepsTexts(r);
    StoredVerifiesAlike(env, r, t.now);
  }

  lemma {:induction false} AcceptedIsObject(env: Env, r: Json, now: int)
    requires Accepts(env, r, now)
    ensures r.Obj? && NodeIdOf(r) != ""
    ensures env.networkId != "" ==> NetworkText(r) == NetworkOf(r) == env.networkId
    ensures env.parseDate(ExpiresAt(r)).Some? && now < env.parseDate(ExpiresAt(r)).value <= now + TWO_HOURS
    ensures env.parseDate(HeartbeatAt(r)).Some?
  {
  }

  /** A request changes the value of a mesh entry only by storing an accepted record there. */
  lemma {:induction false} MeshValueWritten(env: Env, v: View, now: int, req: Request, k: string)
    requires IsMeshKey(k) && k in Handle(env, v, now, req).0
    requires k !in v || Handle(env, v, now, req).0[k].value != v[k].value
    ensures Wrote(env, Timed(now, req), k, Handle(env, v, now, req).0[k].value)
  {
    match req
    case Register(r) => WrittenByRecord(v, r, k);
    case HeartbeatRecord(r) => WrittenByRecord(v, r, k);
    case HeartbeatNode(n, id, _) => KeysApart(n, id, id);
    case Deregister(n, id) =>
    case LegacyRegister(id, _, _) => KeysApart("", "", id);
    case LegacyHeartbeat(id, _) => KeysApart("", "", id);
    case LegacyDelete(id) =>
  }

  lemma {:induction false} WrittenByRecord(v: View, r: Json, k: string)
    requires IsMeshKey(k)
    ensures k == MeshKey(NetworkOf(r), NodeIdOf(r)) || forall expires ::
      (k in PutBoth(v, r, expires) <==> k in v) && (k in v ==> PutBoth(v, r, expires)[k] == v[k])
    ensures forall expires ::
      PutBoth(v, r, expires)[MeshKey(NetworkOf(r), NodeIdOf(r))] == Entry(RecordText(r), expires)
  {
    KeysApart(NetworkOf(r), NodeIdOf(r), NodeIdOf(r));
  }

  /** Over any run, a mesh value was there from the start or was written by one of the requests. */
  lemma {:induction false} WrittenInRun(env: Env, v: View, ts: seq<Timed<Request>>, k: string)
    requires IsMeshKey(k) && k in Run(env, v, ts)
    ensures var value := Run(env, v, ts)[k].value;
      (k in v && v[k].value == value) || exists i :: 0 <= i < |ts| && Wrote(env, ts[i], k, value)
    decreases |ts|
  {
    if ts != [] {
      var now, rest, live, next := ts[0].now, ts[1..], Live(v, ts[0].now), After(env, v, ts[0]);
      var value := Run(env, v, ts)[k].value;
      WrittenInRun(env, next, rest, k);
      if i :| 0 <= i < |rest| && Wrote(env, rest[i], k, value) {
        assert ts[i + 1] == rest[i];
      } else if k !in live || live[k].value != value {
        MeshValueWritten(env, live, now, ts[0].act, k);
        assert Wrote(env, ts[0], k, value);
      }
    }
  }

  /** In every run over all endpoints, each live mesh value was written by one of the requests: one whose
      record verifyPublicRecord accepted when it arrived. It is that record as printed, and sits under
      the key of the record's own network and node. */
  lemma {:induction false} GenuineInEveryRun(env: Env, ts: seq<Timed<Request>>, k: string)
    requires forall i :: 0 <= i < |ts| ==> WellFormed(ts[i].act)
    requires IsMeshKey(k) && k in Run(env, map[], ts)
    ensures var value := Run(env, map[], ts)[k].value;
      && Genuine(k, value)
      && exists i :: 0 <= i < |ts| && Wrote(env, ts[i], k, value) && Accepts(env, Read(value), ts[i].now)
  {
    var value := Run(env, map[], ts)[k].value;
    WrittenInRun(env, map[], ts, k);
    var i :| 0 <= i < |ts| && Wrote(env, ts[i], k, value);
    WroteGenuine(env, ts[i], k, value);
  }

  // ----- heartbeats do not go back -----

  ghost predicate NotBack(env: Env, before: string, after: string) {
    var a, b := env.parseDate(HeartbeatAt(Read(before))), env.parseDate(HeartbeatAt(Read(after)));
    a.Some? ==> b.Some? && a.value <= b.value
  }

  lemma {:induction false} RegisterNotBack(env: Env, v: View, now: int, req: Request, k: string)
    requires WellFormed(req) && !req.HeartbeatRecord? && IsMeshKey(k)
    requires k in v && k in Handle(env, v, now, req).0
    ensures NotBack(env, v[k].value, Handle(env, v, now, req).0[k].value)
  {
    var w := Handle(env, v, now, req).0;
    if w[k].value != v[k].value {
      MeshValueWritten(env, v, now, req, k);
      var r := req.record;
      AcceptedIsObject(env, r, now);
      ReadRecord(r);
      StripKeepsTexts(r);
      assert !StaleHeartbeat(env, Read(v[k].value), r) by { RegisterNotStale(env, v, now, r); }
    }
  }

  lemma {:induction false} RegisterNotStale(env: Env, v: View, now: int, r: Json)
    requires Handle(env, v, now, Register(r)).0 != v
    ensures var k := MeshKey(NetworkOf(r), NodeIdOf(r)); k in v ==> !StaleHeartbeat(env, Read(v[k].value), r)
  {
  }

  /** The entry is live when each request arrives and survives it. */
  ghost predicate Stays(env: Env, v: View, ts: seq<Timed<Request>>, k: string)
    decreases |ts|
  {
    ts != [] ==> k in Live(v, ts[0].now) && k in After(env, v, ts[0]) && Stays(env, After(env, v, ts[0]), ts[1..], k)
  }

  /** Where /mesh/register is the only route that writes records, the stored heartbeatAt of an entry
      that stays live and registered never goes back. */
  lemma {:induction false} HeartbeatNeverGoesBack(env: Env, v: View, ts: seq<Timed<Request>>, k: string)
    requires IsMeshKey(k) && k in v && Stays(env, v, ts, k)
    requires forall i :: 0 <= i < |ts| ==> WellFormed(ts[i].act) && !ts[i].act.HeartbeatRecord?
    ensures k in Run(env, v, ts) && NotBack(env, v[k].value, Run(env, v, ts)[k].value)
    decreases |ts|
  {
    if ts != [] {
      RegisterNotBack(env, Live(v, ts[0].now), ts[0].now, ts[0].act, k);
      HeartbeatNeverGoesBack(env, After(env, v, ts[0]), ts[1..], k);
    }
  }

  lemma {:induction false} NotBackIff(env: Env, before: string, r: Json)
    requires Regular(r) && r != Undefined && env.parseDate(HeartbeatAt(r)).Some?
    ensures NotBack(env, before, RecordText(r)) <==> !StaleHeartbeat(env, Read(before), r)
  {
    ReadRecord(r);
    StripKeepsTexts(r);
  }

  /** /mesh/heartbeat with a record has no such check: it keeps the order exactly when register would
      not have called the record stale. */
  lemma {:induction false} HeartbeatRecordIff(env: Env, v: View, now: int, r: Json)
    requires Regular(r) && Accepts(env, r, now) && MeshKey(NetworkOf(r), NodeIdOf(r)) in v
    ensures var k := MeshKey(NetworkOf(r), NodeIdOf(r));
      var w := Handle(env, v, now, HeartbeatRecord(r)).0;
      k in w && (NotBack(env, v[k].value, w[k].value) <==> !StaleHeartbeat(env, Read(v[k].value), r))
  {
    AcceptedIsObject(env, r, now);
    KeysApart(NetworkOf(r), NodeIdOf(r), NodeIdOf(r));
    NotBackIff(env, v[MeshKey(NetworkOf(r), NodeIdOf(r))].value, r);
  }

  // ----- how long an entry stays listed -----

  /** The keys a request may write or remove. */
  function Touched(env: Env, req: Request): set<string> {
    match req
    case Register(r) => {MeshKey(NetworkOf(r), NodeIdOf(r)), ProxyKey(NodeIdOf(r))}
    case HeartbeatRecord(r) => {MeshKey(NetworkOf(r), NodeIdOf(r)), ProxyKey(NodeIdOf(r))}
    case HeartbeatNode(n, id, _) => {MeshKey(Effective(env, n), id), ProxyKey(id)}
    case Deregister(n, id) => {MeshKey(Effective(env, n), id), ProxyKey(id)}
    case LegacyRegister(id, _, _) => {ProxyKey(id)}
    case LegacyHeartbeat(id, _) => {ProxyKey(id)}
    case LegacyDelete(id) => {ProxyKey(id)}
  }

  lemma {:induction false} Untouched(env: Env, v: View, now: int, req: Request, k: string)
    requires k !in Touched(env, req)
    ensures k in Handle(env, v, now, req).0 <==> k in v
    ensures k in v ==> Handle(env, v, now, req).0[k] == v[k]
  {
  }

  /** An entry no request touches is there at the end exactly when no request came after its expiry. */
  lemma {:induction false} UntouchedRun(env: Env, v: View, ts: seq<Timed<Request>>, k: string)
    requires forall i :: 0 <= i < |ts| ==> k !in Touched(env, ts[i].act)
    ensures k in Run(env, v, ts) <==> k in v && forall i :: 0 <= i < |ts| ==> ts[i].now <= v[k].expires
    ensures k in Run(env, v, ts) ==> Run(env, v, ts)[k] == v[k]
    decreases |ts|
  {
    if ts != [] {
      var rest, next := ts[1..], After(env, v, ts[0]);
      Untouched(env, Live(v, ts[0].now), ts[0].now, ts[0].act, k);
      UntouchedRun(env, next, rest, k);
      if k in v { AllBy(ts, v[k].expires); }
    }
  }

  lemma {:induction false} AllBy(ts: seq<Timed<Request>>, expires: int)
    requires ts != []
    ensures (forall i :: 0 <= i < |ts| ==> ts[i].now <= expires)
      <==> ts[0].now <= expires && forall i :: 0 <= i < |ts[1..]| ==> ts[1..][i].now <= expires
  {
    assert ts == [ts[0]] + ts[1..];
  }

  /** A record that was accepted and stored, by either route, stays listed at least until its own
      expiresAt, unless its entry is written or removed again. */
  lemma {:induction false} ListedUntilExpiry(env: Env, v: View, now: int, req: Request, ts: seq<Timed<Request>>)
    requires (req.Register? || req.HeartbeatRecord?) && Regular(req.record) && Accepts(env, req.record, now)
    requires Handle(env, v, now, req).1.Success?
    requires forall i :: 0 <= i < |ts| ==>
      && MeshKey(NetworkOf(req.record), NodeIdOf(req.record)) !in Touched(env, ts[i].act)
      && ts[i].now <= env.parseDate(ExpiresAt(req.record)).value
    ensures var w := Run(env, Handle(env, v, now, req).0, ts);
      var k := MeshKey(NetworkOf(req.record), NodeIdOf(req.record));
      k in w && w[k].value == RecordText(req.record)
  {
    RecordStores(env, v, now, req);
    UntouchedRun(env, Handle(env, v, now, req).0, ts, MeshKey(NetworkOf(req.record), NodeIdOf(req.record)));
  }

  lemma {:induction false} RecordStores(env: Env, v: View, now: int, req: Request)
    requires (req.Register? || req.HeartbeatRecord?) && Accepts(env, req.record, now)
    requires Handle(env, v, now, req).1.Success?
    ensures var r, w := req.record, Handle(env, v, now, req).0;
      var k := MeshKey(NetworkOf(r), NodeIdOf(r));
      && env.parseDate(ExpiresAt(r)).Some?
      && k in w && w[k].value == RecordText(r)
      && w[k].expires >= env.parseDate(ExpiresAt(r)).value
  {
    var r := req.record;
    AcceptedIsObject(env, r, now);
    KeysApart(NetworkOf(r), NodeIdOf(r), NodeIdOf(r));
    TtlBounds(env, ExpiresAt(r), now);
  }

  // ----- a heartbeat that does go back -----

  lemma {:induction false} RunOfOne(env: Env, t: Timed<Request>)
    ensures Run(env, map[], [t]) == Handle(env, map[], t.now, t.act).0
  {
    assert [t][1..] == [] && Live(map[], t.now) == map[];
    assert Run(env, After(env, map[], t), []) == After(env, map[], t);
  }

  lemma {:induction false} RunOfTwo(env: Env, t: Timed<Request>, u: Timed<Request>)
    ensures Run(env, map[], [t, u]) == After(env, Run(env, map[], [t]), u)
  {
    var v := After(env, map[], t);
    assert [t, u][1..] == [u] && [u][1..] == [] && [t][1..] == [];
    assert Run(env, map[], [t]) == Run(env, v, []) == v;
    assert Run(env, v, [u]) == Run(env, After(env, v, u), []) == After(env, v, u);
  }

  lemma {:induction false} RegisteredFirst(env: Env, r: Json, now: int, ttl: int)
    requires Accepts(env, r, now) && ttl == TtlFromExpiresAt(env, ExpiresAt(r), now)
    ensures Handle(env, map[], now, Register(r)).0 == PutBoth(map[], r, now + ttl * 1000)
  {
    StoredIs(env, map[], now, r, ttl);
  }

  lemma {:induction false} LiveBoth(r: Json, expires: int, now: int)
    requires now <= expires
    ensures var k, v := MeshKey(NetworkOf(r), NodeIdOf(r)), Live(PutBoth(map[], r, expires), now);
      && k in v && v[k] == Entry(RecordText(r), expires)
      && ProxyKey(NodeIdOf(r)) in v
  {
    KeysApart(NetworkOf(r), NodeIdOf(r), NodeIdOf(r));
  }

  /** The first record of a run is stored, and still live up to its own expiresAt. */
  lemma {:induction false} FirstStored(env: Env, r: Json, t1: int, t2: int)
    requires Accepts(env, r, t1) && env.parseDate(ExpiresAt(r)).Some?
    requires t1 <= t2 <= env.parseDate(ExpiresAt(r)).value
    ensures var v, k := Live(Run(env, map[], [Timed(t1, Register(r))]), t2), MeshKey(NetworkOf(r), NodeIdOf(r));
      && k in v && v[k] == Entry(RecordText(r), t1 + TtlFromExpiresAt(env, ExpiresAt(r), t1) * 1000)
      && ProxyKey(NodeIdOf(r)) in v
  {
    var ttl := TtlFromExpiresAt(env, ExpiresAt(r), t1);
    AcceptedIsObject(env, r, t1);
    TtlBounds(env, ExpiresAt(r), t1);
    RunOfOne(env, Timed(t1, Register(r)));
    RegisteredFirst(env, r, t1, ttl);
    LiveBoth(r, t1 + ttl * 1000, t2);
  }

  /** Two records of one node are accepted in turn, the second with the older heartbeat and while the first
      is live: the heartbeat route stores it all the same. */
  lemma {:induction false} HeartbeatGoesBack(env: Env, first: Json, r: Json, t1: int, t2: int)
    requires Regular(first) && Accepts(env, first, t1) && Regular(r) && Accepts(env, r, t2)
    requires MeshKey(NetworkOf(first), NodeIdOf(first)) == MeshKey(NetworkOf(r), NodeIdOf(r))
    requires env.parseDate(ExpiresAt(first)).Some? && t1 <= t2 <= env.parseDate(ExpiresAt(first)).value
    requires env.parseDate(HeartbeatAt(first)).Some? && env.parseDate(HeartbeatAt(r)).Some?
    requires env.parseDate(HeartbeatAt(r)).value < env.parseDate(HeartbeatAt(first)).value
    ensures var k := MeshKey(NetworkOf(r), NodeIdOf(r));
      var t, u := Timed(t1, Register(first)), Timed(t2, HeartbeatRecord(r));
      var v, w := Run(env, map[], [t]), Run(env, map[], [t, u]);
      k in v && k in w && !NotBack(env, v[k].value, w[k].value)
  {
    AcceptedIsObject(env, first, t1);
    FirstStored(env, first, t1, t2);
    RunOfTwo(env, Timed(t1, Register(first)), Timed(t2, HeartbeatRecord(r)));
    ReadRecord(first);
    StripKeepsTexts(first);
    HeartbeatRecordIff(env, Live(Run(env, map[], [Timed(t1, Register(first))]), t2), t2, r);
  }

  // ----- how long an entry can last -----

  /** No mesh entry outlives two hours from now. */
  ghost predicate Bounded(v: View, now: int) {
    forall k :: k in v && IsMeshKey(k) ==> v[k].expires <= now + TWO_HOURS
  }

  lemma {:induction false} BoundedStep(env: Env, v: View, now: int, req: Request)
    requires Bounded(v, now)
    ensures Bounded(Handle(env, v, now, req).0, now)
  {
    var w := Handle(env, v, now, req).0;
    forall k | k in w && IsMeshKey(k) ensures w[k].expires <= now + TWO_HOURS {
      if k !in v || w[k] != v[k] { MeshExpiryWritten(env, v, now, req, k); }
    }
  }

  lemma {:induction false} MeshExpiryWritten(env: Env, v: View, now: int, req: Request, k: string)
    requires IsMeshKey(k) && k in Handle(env, v, now, req).0
    requires k !in v || Handle(env, v, now, req).0[k] != v[k]
    ensures Handle(env, v, now, req).0[k].expires <= now + TWO_HOURS
  {
    match req
    case Register(r) =>
      KeysApart(NetworkOf(r), NodeIdOf(r), NodeIdOf(r));
      TtlBounds(env, ExpiresAt(r), now);
    case HeartbeatRecord(r) =>
      KeysApart(NetworkOf(r), NodeIdOf(r), NodeIdOf(r));
      TtlBounds(env, ExpiresAt(r), now);
    case HeartbeatNode(n, id, e) =>
      KeysApart(Effective(env, n), id, id);
      var key := MeshKey(Effective(env, n), id);
      if key in v {
        TtlBounds(env, if e != "" then e else ExpiresAt(Read(v[key].value)), now);
      }
    case Deregister(n, id) =>
    case LegacyRegister(id, _, _) => KeysApart("", "", id);
    case LegacyHeartbeat(id, _) => KeysApart("", "", id);
    case LegacyDelete(id) =>
  }

  lemma {:induction false} BoundedInEveryRun(env: Env, v: View, start: int, ts: seq<Timed<Request>>)
    requires Bounded(v, start) && Ordered(start, ts)
    ensures Bounded(Run(env, v, ts), End(start, ts))
    decreases |ts|
  {
    if ts != [] {
      assert Bounded(Live(v, ts[0].now), ts[0].now);
      BoundedStep(env, Live(v, ts[0].now), ts[0].now, ts[0].act);
      BoundedInEveryRun(env, After(env, v, ts[0]), ts[0].now, ts[1..]);
    }
  }

  /** A node that no request has touched for more than two hours is not listed: after any run, however
      long, followed by requests about other keys, the last of them more than two hours later. */
  lemma {:induction false} GoneAfterTwoHours(env: Env, before: seq<Timed<Request>>, start: int,
                                             others: seq<Timed<Request>>, k: string)
    requires Ordered(start, before) && IsMeshKey(k)
    requires forall i :: 0 <= i < |others| ==> k !in Touched(env, others[i].act)
    requires others != [] && others[|others| - 1].now > End(start, before) + TWO_HOURS
    ensures k !in Run(env, Run(env, map[], before), others)
  {
    BoundedInEveryRun(env, map[], start, before);
    UntouchedRun(env, Run(env, map[], before), others, k);
  }
}
