/** What each request does, said of the entries alone, and what that means for the two listings. */
module MeshEffects {
  import opened Json
  import opened Signing
  import opened Events
  import opened Store
  import opened Coordinator
  import opened MeshInvariants
  import opened MeshInStep
  import Serving

  // ----- ttlFromExpiresAt -----

  /** The TTL in full: an expiry less than a second away, past or unparsable counts as an hour from now;
      five minutes are added, to the whole second; two hours are the most. */
  lemma {:induction false} TtlIs(env: Env, expiresAt: string, now: int)
    ensures var t, end := env.parseDate(expiresAt), now + TtlFromExpiresAt(env, expiresAt, now) * 1000;
      if t == None || t.value < now + 1000 then end == now + 3_900_000
      else if t.value >= now + 6_900_000 then end == now + 7_200_000
      else t.value + 299_000 < end <= t.value + 300_000
  {
  }

  // ----- the proxy config -----

  lemma {:induction false} ProxyFieldIs(r: Json, i: nat)
    requires Regular(r) && r.Obj? && i < |PROXY_NAMES|
    ensures Child(DeriveProxyConfig(r), PROXY_NAMES[i]) == ProxyValue(r, i)
  {
    var f := DeriveProxyConfig(r).fields;
    ProxyRegular(r);
    assert f[i].key == PROXY_NAMES[i];
    LookupAt(f, i);
  }

  /** Where each field of the proxy config comes from. */
  lemma {:induction false} ProxyFieldsAre(r: Json)
    requires Regular(r) && r.Obj?
    ensures var c, endpoint, lifecycle := DeriveProxyConfig(r), Child(r, "endpoint"), Child(r, "lifecycle");
      && Child(c, "id") == Child(r, "nodeId") && Child(c, "protocol") == Child(r, "protocol")
      && Child(c, "host") == Child(endpoint, "host") && Child(c, "port") == Child(endpoint, "port")
      && Child(c, "sni") == Child(endpoint, "sni") && Child(c, "type") == Child(endpoint, "transport")
      && Child(c, "path") == Child(endpoint, "path") && Child(c, "security") == Child(endpoint, "security")
      && Child(c, "createdAt") == Child(lifecycle, "createdAt")
      && Child(c, "expiresAt") == Child(lifecycle, "expiresAt")
      && Child(c, "networkId") == Child(r, "networkId") && Child(c, "nodeId") == Child(r, "nodeId")
      && Child(c, "publicRecord") == Strip(r)
  {
    ProxyFieldIs(r, 0);
    ProxyFieldIs(r, 1);
    ProxyFieldIs(r, 2);
    ProxyFieldIs(r, 3);
    ProxyFieldIs(r, 4);
    ProxyFieldIs(r, 5);
    ProxyFieldIs(r, 6);
    ProxyFieldIs(r, 7);
    ProxyFieldIs(r, 8);
    ProxyFieldIs(r, 9);
    ProxyFieldIs(r, 10);
    ProxyFieldIs(r, 11);
    ProxyFieldIs(r, 12);
  }

  // ----- what each request does -----

  /** The two views agree on all other keys. */
  ghost predicate Elsewhere(v: View, w: View, k: string, p: string) {
    forall x :: x != k && x != p ==> (x in w <==> x in v) && (x in v ==> w[x] == v[x])
  }

  /** Both entries of the record are there with this expiry, and nothing else has changed. */
  ghost predicate BothWritten(v: View, w: View, r: Json, expires: int) {
    var k, p := "mesh:" + NetworkOf(r) + ":" + TextOf(r, "nodeId"), "proxy:" + TextOf(r, "nodeId");
    && k in w && w[k] == Entry(Print(r), expires)
    && p in w && w[p] == Entry(Print(DeriveProxyConfig(r)), expires)
    && Elsewhere(v, w, k, p)
  }

  /** A live entry of the node holds a later heartbeat, both being dates. */
  ghost predicate HoldsLater(env: Env, v: View, r: Json) {
    var k := "mesh:" + NetworkOf(r) + ":" + TextOf(r, "nodeId");
    k in v &&
    (var a := env.parseDate(TextOf(Child(Read(v[k].value), "lifecycle"), "heartbeatAt"));
     var b := env.parseDate(TextOf(Child(r, "lifecycle"), "heartbeatAt"));
     a.Some? && b.Some? && a.value > b.value)
  }

  lemma {:induction false} PutBothWrites(v: View, r: Json, expires: int)
    requires Regular(r) && r != Undefined
    ensures BothWritten(v, PutBoth(v, r, expires), r, expires)
  {
    ReadRecord(r);
    KeysApart(NetworkOf(r), NodeIdOf(r), NodeIdOf(r));
  }

  lemma {:induction false} StoredWrites(env: Env, v: View, now: int, r: Json, ttl: int)
    requires Regular(r) && r != Undefined && ttl == TtlFromExpiresAt(env, ExpiresAt(r), now)
    ensures BothWritten(v, Stored(env, v, now, r).0, r, now + ttl * 1000) && Stored(env, v, now, r).1 == Success(ttl)
  {
    StoredIs(env, v, now, r, ttl);
    PutBothWrites(v, r, now + ttl * 1000);
  }

  lemma {:induction false} RefusedUnread(env: Env, v: View, now: int, req: Request)
    requires (req.Register? || req.HeartbeatRecord?) && !Accepts(env, req.record, now)
    ensures Handle(env, v, now, req) == (v, Refused(400, VerifyPublicRecord(env, req.record, now).error))
  {
  }

  lemma {:induction false} RegisterSplits(env: Env, v: View, now: int, r: Json)
    requires Accepts(env, r, now)
    ensures Handle(env, v, now, Register(r))
         == if HoldsLater(env, v, r) then (v, Refused(409, StaleHeartbeatError)) else Stored(env, v, now, r)
  {
  }

  /** /mesh/register: a rejected or stale record changes nothing; any other is written, also over a live
      entry with an older heartbeat. */
  lemma {:induction false} RegisterDoes(env: Env, v: View, now: int, r: Json)
    requires Regular(r) && r != Undefined
    ensures var (w, response) := Handle(env, v, now, Register(r));
      if !Accepts(env, r, now) then
        w == v && response == Refused(400, VerifyPublicRecord(env, r, now).error)
      else if HoldsLater(env, v, r) then
        w == v && response == Refused(409, StaleHeartbeatError)
      else
        var ttl := TtlFromExpiresAt(env, ExpiresAt(r), now);
        BothWritten(v, w, r, now + ttl * 1000) && response == Success(ttl)
  {
    if Accepts(env, r, now) {
      RegisterSplits(env, v, now, r);
      StoredWrites(env, v, now, r, TtlFromExpiresAt(env, ExpiresAt(r), now));
    } else {
      RefusedUnread(env, v, now, Register(r));
    }
  }

  lemma {:induction false} HeartbeatStores(env: Env, v: View, now: int, r: Json)
    requires Accepts(env, r, now)
    ensures Handle(env, v, now, HeartbeatRecord(r)) == Stored(env, v, now, r)
  {
  }

  /** /mesh/heartbeat with a record: written whenever it is accepted. */
  lemma {:induction false} HeartbeatRecordDoes(env: Env, v: View, now: int, r: Json)
    requires Regular(r) && r != Undefined
    ensures var (w, response) := Handle(env, v, now, HeartbeatRecord(r));
      if !Accepts(env, r, now) then
        w == v && response == Refused(400, VerifyPublicRecord(env, r, now).error)
      else
        var ttl := TtlFromExpiresAt(env, ExpiresAt(r), now);
        BothWritten(v, w, r, now + ttl * 1000) && response == Success(ttl)
  {
    if Accepts(env, r, now) {
      HeartbeatStores(env, v, now, r);
      StoredWrites(env, v, now, r, TtlFromExpiresAt(env, ExpiresAt(r), now));
    } else {
      RefusedUnread(env, v, now, HeartbeatRecord(r));
    }
  }

  /** The entry keeps its value and gets this expiry. */
  predicate RenewedAt(v: View, w: View, k: string, expires: int) {
    k in v && k in w && w[k] == Entry(v[k].value, expires)
  }

  /** /mesh/heartbeat naming a node: both entries keep their values and get the same new expiry, from the
      date sent or else from the stored record. */
  lemma {:induction false} HeartbeatNodeDoes(env: Env, v: View, now: int, networkId: string, node: string,
                                             expiresAt: string)
    ensures var (w, response) := Handle(env, v, now, HeartbeatNode(networkId, node, expiresAt));
      var n := if networkId == "" then env.networkId else networkId;
      var k, p := "mesh:" + n + ":" + node, "proxy:" + node;
      if n == "" || node == "" then w == v && response == Refused(400, MissingIds)
      else if k !in v then w == v && response == Refused(404, MeshRecordNotFound)
      else
        var until := if expiresAt == "" then TextOf(Child(Read(v[k].value), "lifecycle"), "expiresAt") else expiresAt;
        var ttl := TtlFromExpiresAt(env, until, now);
        && RenewedAt(v, w, k, now + ttl * 1000)
        && (if p in v then RenewedAt(v, w, p, now + ttl * 1000) else p !in w)
        && Elsewhere(v, w, k, p) && response == Success(ttl)
  {
    var n := if networkId == "" then env.networkId else networkId;
    KeysApart(n, node, node);
    HeartbeatNodeCases(env, v, now, networkId, node, expiresAt, MeshKey(n, node));
  }

  /** /mesh/deregister: neither entry of the node is left, and every other entry stays. */
  lemma {:induction false} DeregisterDoes(env: Env, v: View, now: int, networkId: string, node: string)
    ensures var (w, response) := Handle(env, v, now, Deregister(networkId, node));
      var n := if networkId == "" then env.networkId else networkId;
      var k, p := "mesh:" + n + ":" + node, "proxy:" + node;
      if n == "" || node == "" then w == v && response == Refused(400, MissingIds)
      else k !in w && p !in w && Elsewhere(v, w, k, p) && response == Removed
  {
  }

  /** The legacy routes, with their TTL given, touch the proxy entry only. */
  lemma {:induction false} LegacyDoes(env: Env, v: View, now: int, req: Request)
    requires req.LegacyRegister? || req.LegacyHeartbeat? || req.LegacyDelete?
    ensures var (w, response) := Handle(env, v, now, req);
      var p := "proxy:" + req.id;
      && Elsewhere(v, w, p, p)
      && match req
         case LegacyRegister(_, config, ttl) =>
           p in w && w[p] == Entry(config, now + ttl * 1000) && response == Success(ttl)
         case LegacyHeartbeat(_, ttl) =>
           if p in v then RenewedAt(v, w, p, now + ttl * 1000) && response == Success(ttl)
           else w == v && response == Refused(404, ProxyNotFound)
         case _ => p !in w && response == Removed
  {
  }

  // ----- what the listings show then -----

  /** With a network configured, /mesh/status shows the nodes whose key of that network holds a record of it;
      with none, the node of every mesh record. */
  lemma {:induction false} StatusAre(env: Env, v: View, id: string)
    requires AllGenuine(v)
    ensures env.networkId != "" ==>
      (id in StatusNodes(env, v) <==>
         var k := "mesh:" + env.networkId + ":" + id;
         k in v && Child(Read(v[k].value), "networkId") == Str(env.networkId)
         && TextOf(Read(v[k].value), "nodeId") == id)
    ensures env.networkId == "" ==>
      (id in StatusNodes(env, v) <==> exists k :: k in v && "mesh:" <= k && TextOf(Read(v[k].value), "nodeId") == id)
  {
    var own := MeshKey(env.networkId, id);
    KeysApart(env.networkId, id, id);
    if env.networkId != "" && id in StatusNodes(env, v) {
      var k :| k in v && IsMeshKey(k) && Shown(env, Read(v[k].value)) && NodeIdOf(Read(v[k].value)) == id;
      assert Genuine(k, v[k].value) && k == own;
    }
  }

  lemma {:induction false} GoneFromView(env: Env, v: View, node: string)
    requires env.networkId != "" && InStep(env, v) && AllGenuine(v) && MeshKey(env.networkId, node) !in v
    ensures node !in StatusNodes(env, v) && node !in ProxyNodes(v)
  {
    forall k | k in v && IsMeshKey(k) ensures NodeIdOf(Read(v[k].value)) != node {
      assert OwnRecord(env, k, v[k].value);
    }
    SameNodesListed(env, v);
  }

  lemma {:induction false} RunStaysGood(env: Env, ts: seq<Timed<Request>>, t: Timed<Request>)
    requires env.networkId != "" && WellFormed(t.act) && NamesNetwork(env, t.act)
    requires forall i :: 0 <= i < |ts| ==> WellFormed(ts[i].act) && NamesNetwork(env, ts[i].act)
    ensures InStep(env, Run(env, map[], ts + [t])) && AllGenuine(Run(env, map[], ts + [t]))
    ensures Run(env, map[], ts + [t]) == Handle(env, Live(Run(env, map[], ts), t.now), t.now, t.act).0
  {
    var all := ts + [t];
    NothingInStep(env);
    InStepInEveryRun(env, map[], all);
    forall k | k in Run(env, map[], all) && IsMeshKey(k) ensures Genuine(k, Run(env, map[], all)[k].value) {
      GenuineInEveryRun(env, all, k);
    }
    Serving.RunOneMore(env, map[], ts, t);
  }

  /** After any run of mesh requests naming the network, a node that is deregistered shows in neither list. */
  lemma {:induction false} DeregisteredIsGone(env: Env, ts: seq<Timed<Request>>, now: int, networkId: string,
                                              node: string)
    requires env.networkId != "" && node != "" && (networkId == "" || networkId == env.networkId)
    requires forall i :: 0 <= i < |ts| ==> WellFormed(ts[i].act) && NamesNetwork(env, ts[i].act)
    ensures var v := Run(env, map[], ts + [Timed(now, Deregister(networkId, node))]);
      node !in StatusNodes(env, v) && node !in ProxyNodes(v)
  {
    var t := Timed(now, Deregister(networkId, node));
    RunStaysGood(env, ts, t);
    DeregisterDoes(env, Live(Run(env, map[], ts), now), now, networkId, node);
    assert MeshKey(env.networkId, node) == "mesh:" + env.networkId + ":" + node;
    GoneFromView(env, Run(env, map[], ts + [t]), node);
  }

  /** And one whose record was stored by the last request shows in both. */
  lemma {:induction false} RegisteredIsShown(env: Env, ts: seq<Timed<Request>>, t: Timed<Request>)
    requires env.networkId != "" && WellFormed(t.act) && (t.act.Register? || t.act.HeartbeatRecord?)
    requires forall i :: 0 <= i < |ts| ==> WellFormed(ts[i].act) && NamesNetwork(env, ts[i].act)
    requires Handle(env, Live(Run(env, map[], ts), t.now), t.now, t.act).1.Success?
    ensures var v, node := Run(env, map[], ts + [t]), NodeIdOf(t.act.record);
      node in StatusNodes(env, v) && node in ProxyNodes(v)
  {
    var v, live, r := Run(env, map[], ts + [t]), Live(Run(env, map[], ts), t.now), t.act.record;
    RunStaysGood(env, ts, t);
    if t.act.Register? { RegisterRefuses(env, live, t.now, r); } else { HeartbeatRefuses(env, live, t.now, r); }
    AcceptedIsObject(env, r, t.now);
    RecordStores(env, live, t.now, t.act);
    ShownInStatus(env, v, r);
    SameNodesListed(env, v);
  }

  lemma {:induction false} RegisterRefuses(env: Env, v: View, now: int, r: Json)
    ensures Handle(env, v, now, Register(r)).1.Success? ==> Accepts(env, r, now)
  {
  }

  lemma {:induction false} HeartbeatRefuses(env: Env, v: View, now: int, r: Json)
    ensures Handle(env, v, now, HeartbeatRecord(r)).1.Success? ==> Accepts(env, r, now)
  {
  }

  lemma {:induction false} ShownInStatus(env: Env, v: View, r: Json)
    requires Regular(r) && r.Obj? && NetworkText(r) == NetworkOf(r) == env.networkId
    requires var k := MeshKey(NetworkOf(r), NodeIdOf(r)); k in v && v[k].value == RecordText(r)
    ensures NodeIdOf(r) in StatusNodes(env, v)
  {
    var k := MeshKey(NetworkOf(r), NodeIdOf(r));
    ReadRecord(r);
    StripKeepsTexts(r);
    KeysApart(NetworkOf(r), NodeIdOf(r), NodeIdOf(r));
    assert Shown(env, Read(v[k].value));
  }
}
