/** The worker's mesh endpoints: register, heartbeat and deregister keep a mesh: entry and a proxy:
    entry for each node. Records are JSON objects of the declared shape. */
module Coordinator {
  import opened Text
  import opened Json
  import opened Canonical
  import opened Signing
  import opened Events
  import opened Store

  // ----- reading a record -----

  /** A string field; "" when it is absent (every such field is tested for truth before use). */
  function TextOf(v: Json, key: string): string {
    match Child(v, key) case Str(t) => t case _ => ""
  }

  function NetworkText(r: Json): string { TextOf(r, "networkId") }

  /** networkId as it stands in a key, where an absent one is written out. */
  function NetworkOf(r: Json): string {
    match Child(r, "networkId") case Str(t) => t case _ => "undefined"
  }

  function NodeIdOf(r: Json): string { TextOf(r, "nodeId") }

  function ExpiresAt(r: Json): string { TextOf(Child(r, "lifecycle"), "expiresAt") }

  function HeartbeatAt(r: Json): string { TextOf(Child(r, "lifecycle"), "heartbeatAt") }

  // ----- the environment -----

  /** networkId is "" when NETWORK_ID is not set; parseDate is None for an invalid date. */
  datatype Env = Env(
    networkId: string, publicKeys: map<string, string>, crypto: Crypto,
    parseDate: string -> Option<int>, validHost: (string, string) -> bool)

  // ----- verifyPublicRecord -----

  datatype Error =
    | MissingRecord | UnsupportedSchema | WrongNetworkId | InvalidNodeId | UnsupportedProtocol
    | InvalidEndpointHost | InvalidEndpointPort | RecordExpired | ExpiresTooFar | InvalidHeartbeatAt
    | InvalidTtlSeconds | MissingSignature | UnknownPublicKeyId | BadSignature
    | StaleHeartbeatError | MissingIds | MeshRecordNotFound | ProxyNotFound

  datatype Verdict = Accepted | Rejected(error: Error)

  predicate NodeIdChar(c: char) {
    'A' <= c <= 'Z' || 'a' <= c <= 'z' || '0' <= c <= '9' || c == '.' || c == '_' || c == ':' || c == '-'
  }

  /** /^[A-Za-z0-9._:-]+$/ on a non-empty string */
  predicate AllNodeIdChars(s: string) { s == "" || (NodeIdChar(s[0]) && AllNodeIdChars(s[1..])) }

  predicate IntegerWithin(v: Json, low: nat, high: nat) {
    v.Num? && v.frac == "" && !v.neg && low <= v.whole <= high
  }

  const TWO_HOURS: int := 2 * 60 * 60 * 1000

  /** What the identity checks look at. */
  datatype Identity = Identity(
    isObject: bool, schema: string, networkId: string, nodeId: string, protocol: string, hasEndpoint: bool,
    host: string, ingress: string, validPort: bool)

  function IdentityOf(r: Json): Identity {
    Identity(
      TypeofObject(r) && r != Null, TextOf(r, "schema"), NetworkText(r), NodeIdOf(r), TextOf(r, "protocol"),
      Truthy(Child(r, "endpoint")), TextOf(Child(r, "endpoint"), "host"), TextOf(r, "ingress"),
      IntegerWithin(Child(Child(r, "endpoint"), "port"), 1, 65535))
  }

  function CheckIdentity(env: Env, d: Identity): Verdict {
    if !d.isObject then Rejected(MissingRecord)
    else if d.schema != "animamesh.proxy.v1" then Rejected(UnsupportedSchema)
    else if env.networkId != "" && d.networkId != env.networkId then Rejected(WrongNetworkId)
    else if d.nodeId == "" || !AllNodeIdChars(d.nodeId) then Rejected(InvalidNodeId)
    else if d.protocol != "vless" && d.protocol != "hysteria2" then Rejected(UnsupportedProtocol)
    else if !d.hasEndpoint || !env.validHost(d.host, d.ingress) then Rejected(InvalidEndpointHost)
    else if !d.validPort then Rejected(InvalidEndpointPort)
    else Accepted
  }

  function CheckLifecycle(env: Env, r: Json, now: int): Verdict {
    var expires, heartbeat := env.parseDate(ExpiresAt(r)), env.parseDate(HeartbeatAt(r));
    if expires == None || expires.value <= now then Rejected(RecordExpired)
    else if expires.value - now > TWO_HOURS then Rejected(ExpiresTooFar)
    else if heartbeat == None then Rejected(InvalidHeartbeatAt)
    else if !IntegerWithin(Child(Child(r, "lifecycle"), "ttlSeconds"), 60, 7200) then Rejected(InvalidTtlSeconds)
    else Accepted
  }

  /** A key id that names an inherited property finds no text, and reading it as a key throws. */
  function CheckSignature(env: Env, r: Json): Verdict {
    var keyId, signature := TextOf(r, "publicKeyId"), TextOf(r, "signature");
    if keyId == "" || signature == "" then Rejected(MissingSignature)
    else if keyId !in env.publicKeys && keyId in INHERITED then Rejected(BadSignature)
    else if keyId !in env.publicKeys || env.publicKeys[keyId] == "" then Rejected(UnknownPublicKeyId)
    else if r.Obj? && env.crypto.verify(env.publicKeys[keyId], WorkerPayload(r.fields), signature) then Accepted
    else Rejected(BadSignature)
  }

  /** verifyPublicRecord: the first failed check, in the order of the source. */
  function VerifyPublicRecord(env: Env, r: Json, now: int): Verdict {
    if CheckIdentity(env, IdentityOf(r)).Rejected? then CheckIdentity(env, IdentityOf(r))
    else if CheckLifecycle(env, r, now).Rejected? then CheckLifecycle(env, r, now)
    else CheckSignature(env, r)
  }

  predicate Accepts(env: Env, r: Json, now: int) { VerifyPublicRecord(env, r, now) == Accepted }

  // ----- ttlFromExpiresAt -----

  function Max(a: int, b: int): int { if a > b then a else b }

  function Min(a: int, b: int): int { if a < b then a else b }

  function TtlFromExpiresAt(env: Env, expiresAt: string, now: int): int {
    var t := env.parseDate(expiresAt);
    var remaining := if t.Some? then (t.value - now) / 1000 else 0;
    Max(60, Min((if remaining > 0 then remaining else 3600) + 300, 7200))
  }

  /** The TTL stays within 301 to 7200 seconds, unparsable dates included, and reaches the expiry of
      every date that verifyPublicRecord accepts. */
  lemma {:induction false} TtlBounds(env: Env, expiresAt: string, now: int)
    ensures 301 <= TtlFromExpiresAt(env, expiresAt, now) <= 7200
    ensures var t := env.parseDate(expiresAt);
      t.Some? && t.value <= now + TWO_HOURS ==> now + TtlFromExpiresAt(env, expiresAt, now) * 1000 >= t.value
  {
  }

  // ----- stored values -----

  function MeshKey(networkId: string, nodeId: string): string { "mesh:" + networkId + ":" + nodeId }

  function ProxyKey(nodeId: string): string { "proxy:" + nodeId }

  predicate IsMeshKey(k: string) { "mesh:" <= k }

  predicate IsProxyKey(k: string) { "proxy:" <= k }

  /** JSON.stringify(sanitizePublicRecord(record)) */
  function RecordText(r: Json): string { Print(Strip(r)) }

  const PROXY_NAMES: seq<string> := [
    "id", "protocol", "host", "port", "sni", "type", "path", "security",
    "createdAt", "expiresAt", "networkId", "nodeId", "publicRecord" ]

  /** The value of the i-th field of the proxy config. */
  function ProxyValue(r: Json, i: nat): Json {
    match i
    case 0 => Child(r, "nodeId")
    case 1 => Child(r, "protocol")
    case 2 => Child(Child(r, "endpoint"), "host")
    case 3 => Child(Child(r, "endpoint"), "port")
    case 4 => Child(Child(r, "endpoint"), "sni")
    case 5 => Child(Child(r, "endpoint"), "transport")
    case 6 => Child(Child(r, "endpoint"), "path")
    case 7 => Child(Child(r, "endpoint"), "security")
    case 8 => Child(Child(r, "lifecycle"), "createdAt")
    case 9 => Child(Child(r, "lifecycle"), "expiresAt")
    case 10 => Child(r, "networkId")
    case 11 => Child(r, "nodeId")
    case _ => Strip(r)
  }

  function DeriveProxyConfig(r: Json): Json {
    Obj(seq(|PROXY_NAMES|, i requires 0 <= i < |PROXY_NAMES| => Field(PROXY_NAMES[i], ProxyValue(r, i))))
  }

  function ProxyText(r: Json): string { Print(DeriveProxyConfig(r)) }

  /** JSON.parse of a stored value. */
  function Read(value: string): Json {
    match Parse(value) case Done(v, _) => v case Fail => Undefined
  }

  // ----- requests that write -----

  datatype Request =
    | Register(record: Json)
    | HeartbeatRecord(record: Json)
    | HeartbeatNode(networkId: string, nodeId: string, expiresAt: string)
    | Deregister(networkId: string, nodeId: string)
    | LegacyRegister(id: string, config: string, ttl: int)
    | LegacyHeartbeat(id: string, ttl: int)
    | LegacyDelete(id: string)

  datatype Response = Refused(status: int, error: Error) | Success(ttl: int) | Removed

  type View = map<string, Entry>

  function PutBoth(v: View, r: Json, expires: int): View {
    v[MeshKey(NetworkOf(r), NodeIdOf(r)) := Entry(RecordText(r), expires)]
     [ProxyKey(NodeIdOf(r)) := Entry(ProxyText(r), expires)]
  }

  /** `new Date(previous.heartbeatAt) > new Date(record.heartbeatAt)`; false for an invalid date. */
  predicate StaleHeartbeat(env: Env, previous: Json, r: Json) {
    var a, b := env.parseDate(HeartbeatAt(previous)), env.parseDate(HeartbeatAt(r));
    a.Some? && b.Some? && a.value > b.value
  }

  /** `data.networkId || env.NETWORK_ID` */
  function Effective(env: Env, networkId: string): string {
    if networkId != "" then networkId else env.networkId
  }

  /** Both entries with this TTL. */
  function StoredFor(v: View, now: int, r: Json, ttl: int): (View, Response) {
    (PutBoth(v, r, now + ttl * 1000), Success(ttl))
  }

  /** The end of register and of heartbeat with a record. */
  function Stored(env: Env, v: View, now: int, r: Json): (View, Response) {
    StoredFor(v, now, r, TtlFromExpiresAt(env, ExpiresAt(r), now))
  }

  lemma {:induction false} StoredIs(env: Env, v: View, now: int, r: Json, ttl: int)
    requires ttl == TtlFromExpiresAt(env, ExpiresAt(r), now)
    ensures Stored(env, v, now, r).0 == PutBoth(v, r, now + ttl * 1000)
    ensures Stored(env, v, now, r).1 == Success(ttl)
  {
  }

  function HandleRegister(env: Env, v: View, now: int, r: Json): (View, Response) {
    var verdict, key := VerifyPublicRecord(env, r, now), MeshKey(NetworkOf(r), NodeIdOf(r));
    if verdict.Rejected? then (v, Refused(400, verdict.error))
    else if key in v && StaleHeartbeat(env, Read(v[key].value), r) then (v, Refused(409, StaleHeartbeatError))
    else Stored(env, v, now, r)
  }

  function HandleHeartbeatRecord(env: Env, v: View, now: int, r: Json): (View, Response) {
    var verdict := VerifyPublicRecord(env, r, now);
    if verdict.Rejected? then (v, Refused(400, verdict.error)) else Stored(env, v, now, r)
  }

  /** The mesh entry with a new expiry, and the proxy entry with it when there is one. */
  function Renewed(v: View, key: string, proxy: string, expires: int): View
    requires key in v
  {
    var v' := v[key := Entry(v[key].value, expires)];
    if proxy in v' then v'[proxy := Entry(v'[proxy].value, expires)] else v'
  }

  function HandleHeartbeatNode(env: Env, v: View, now: int, networkId: string, nodeId: string,
                               expiresAt: string): (View, Response) {
    var n := Effective(env, networkId);
    var key, proxy := MeshKey(n, nodeId), ProxyKey(nodeId);
    if n == "" || nodeId == "" then (v, Refused(400, MissingIds))
    else if key !in v then (v, Refused(404, MeshRecordNotFound))
    else
      var ttl := HeartbeatTtl(env, v[key].value, expiresAt, now);
      (Renewed(v, key, proxy, now + ttl * 1000), Success(ttl))
  }

  function HandleDeregister(env: Env, v: View, networkId: string, nodeId: string): (View, Response) {
    var n := Effective(env, networkId);
    if n == "" || nodeId == "" then (v, Refused(400, MissingIds))
    else (v - {MeshKey(n, nodeId)} - {ProxyKey(nodeId)}, Removed)
  }

  /** A request's effect on the entries live at the time it is handled. */
  function Handle(env: Env, v: View, now: int, req: Request): (View, Response) {
    match req
    case Register(r) => HandleRegister(env, v, now, r)
    case HeartbeatRecord(r) => HandleHeartbeatRecord(env, v, now, r)
    case HeartbeatNode(networkId, nodeId, expiresAt) => HandleHeartbeatNode(env, v, now, networkId, nodeId, expiresAt)
    case Deregister(networkId, nodeId) => HandleDeregister(env, v, networkId, nodeId)
    case LegacyRegister(id, config, ttl) => (v[ProxyKey(id) := Entry(config, now + ttl * 1000)], Success(ttl))
    case LegacyHeartbeat(id, ttl) =>
      if ProxyKey(id) in v then (v[ProxyKey(id) := Entry(v[ProxyKey(id)].value, now + ttl * 1000)], Success(ttl))
      else (v, Refused(404, ProxyNotFound))
    case LegacyDelete(id) => (v - {ProxyKey(id)}, Removed)
  }

  /** The TTLs of the legacy routes are never negative. */
  predicate Servable(req: Request) { req.LegacyRegister? || req.LegacyHeartbeat? ==> req.ttl >= 0 }

  /** ttlFromExpiresAt(data.expiresAt || record.lifecycle.expiresAt) */
  function HeartbeatTtl(env: Env, value: string, expiresAt: string, now: int): int {
    TtlFromExpiresAt(env, if expiresAt != "" then expiresAt else ExpiresAt(Read(value)), now)
  }

  // ----- the handlers, over the store -----

  class Worker {
    const env: Env
    const kv: KvStore

    constructor (env: Env, kv: KvStore)
      ensures this.env == env && this.kv == kv
    {
      this.env, this.kv := env, kv;
    }

    ghost function Seen(now: int): View
      reads kv
    {
      Live(kv.memory.data, now)
    }

    method Write(now: int, key: string, value: string, ttl: int)
      requires kv.memory.Valid() && ttl >= 0
      modifies kv
      ensures kv.memory.Valid() && Seen(now) == old(Seen(now))[key := Entry(value, now + ttl * 1000)]
    {
      kv.KvPut(now, key, value, ttl);
      LiveAfterPut(old(kv.memory.data), now, key, Entry(value, now + ttl * 1000));
    }

    method Lookup(now: int, key: string) returns (r: Option<string>)
      requires kv.memory.Valid()
      modifies kv
      ensures kv.memory.Valid() && Seen(now) == old(Seen(now))
      ensures r == if key in Seen(now) then Some(Seen(now)[key].value) else None
    {
      GetLive(kv.memory, now, key);
      r := kv.KvGet(now, key);
    }

    method Remove(now: int, key: string)
      requires kv.memory.Valid()
      modifies kv
      ensures kv.memory.Valid() && Seen(now) == old(Seen(now)) - {key}
    {
      kv.KvDelete(key);
    }

    method WriteBoth(now: int, r: Json, ttl: int)
      requires kv.memory.Valid() && ttl >= 0
      modifies kv
      ensures kv.memory.Valid() && Seen(now) == PutBoth(old(Seen(now)), r, now + ttl * 1000)
    {
      Write(now, MeshKey(NetworkOf(r), NodeIdOf(r)), RecordText(r), ttl);
      Write(now, ProxyKey(NodeIdOf(r)), ProxyText(r), ttl);
    }

    /** Both entries of a record, with its TTL. */
    method Store(now: int, r: Json) returns (response: Response)
      requires kv.memory.Valid()
      modifies kv
      ensures kv.memory.Valid()
      ensures Seen(now) == Stored(env, old(Seen(now)), now, r).0
      ensures response == Stored(env, old(Seen(now)), now, r).1
    {
      var ttl := TtlFromExpiresAt(env, ExpiresAt(r), now);
      TtlBounds(env, ExpiresAt(r), now);
      StoredIs(env, Seen(now), now, r, ttl);
      WriteBoth(now, r, ttl);
      return Success(ttl);
    }

    /** POST /mesh/register */
    method PostRegister(now: int, r: Json) returns (response: Response)
      requires kv.memory.Valid()
      modifies kv
      ensures kv.memory.Valid()
      ensures Seen(now) == HandleRegister(env, old(Seen(now)), now, r).0
      ensures response == HandleRegister(env, old(Seen(now)), now, r).1
    {
      var verdict := VerifyPublicRecord(env, r, now);
      if verdict.Rejected? { return Refused(400, verdict.error); }
      var existing := Lookup(now, MeshKey(NetworkOf(r), NodeIdOf(r)));
      if existing.Some? {
        if StaleHeartbeat(env, Read(existing.value), r) { return Refused(409, StaleHeartbeatError); }
      }
      response := Store(now, r);
    }

    /** POST /mesh/heartbeat with a record */
    method PostHeartbeatRecord(now: int, r: Json) returns (response: Response)
      requires kv.memory.Valid()
      modifies kv
      ensures kv.memory.Valid()
      ensures Seen(now) == HandleHeartbeatRecord(env, old(Seen(now)), now, r).0
      ensures response == HandleHeartbeatRecord(env, old(Seen(now)), now, r).1
    {
      var verdict := VerifyPublicRecord(env, r, now);
      if verdict.Rejected? { return Refused(400, verdict.error); }
      response := Store(now, r);
    }

    /** POST /mesh/heartbeat naming a node */
    method PostHeartbeatNode(now: int, networkId: string, nodeId: string, expiresAt: string)
    returns (response: Response)
      requires kv.memory.Valid()
      modifies kv
      ensures kv.memory.Valid()
      ensures Seen(now) == HandleHeartbeatNode(env, old(Seen(now)), now, networkId, nodeId, expiresAt).0
      ensures response == HandleHeartbeatNode(env, old(Seen(now)), now, networkId, nodeId, expiresAt).1
    {
      var n := Effective(env, networkId);
      if n == "" || nodeId == "" { return Refused(400, MissingIds); }
      var existing := Lookup(now, MeshKey(n, nodeId));
      if existing == None { return Refused(404, MeshRecordNotFound); }
      var ttl := HeartbeatTtl(env, existing.value, expiresAt, now);
      Write(now, MeshKey(n, nodeId), existing.value, ttl);
      var proxy := Lookup(now, ProxyKey(nodeId));
      if proxy.Some? { Write(now, ProxyKey(nodeId), proxy.value, ttl); }
      return Success(ttl);
    }

    /** POST /mesh/deregister */
    method PostDeregister(now: int, networkId: string, nodeId: string) returns (response: Response)
      requires kv.memory.Valid()
      modifies kv
      ensures kv.memory.Valid()
      ensures Seen(now) == HandleDeregister(env, old(Seen(now)), networkId, nodeId).0
      ensures response == HandleDeregister(env, old(Seen(now)), networkId, nodeId).1
    {
      var n := Effective(env, networkId);
      if n == "" || nodeId == "" { return Refused(400, MissingIds); }
      Remove(now, MeshKey(n, nodeId));
      Remove(now, ProxyKey(nodeId));
      return Removed;
    }

    /** One read for each key. */
    method ReadAll(now: int, keys: seq<string>) returns (values: seq<Json>)
      requires kv.memory.Valid() && forall k :: k in keys ==> k in Seen(now)
      modifies kv
      ensures kv.memory.Valid() && Seen(now) == old(Seen(now))
      ensures |values| == |keys|
      ensures forall j :: 0 <= j < |keys| ==> keys[j] in Seen(now) && values[j] == Read(Seen(now)[keys[j]].value)
    {
      ghost var view := Seen(now);
      assert forall j :: 0 <= j < |keys| ==> keys[j] in keys;
      values := [];
      for i := 0 to |keys|
        invariant kv.memory.Valid() && Seen(now) == view
        invariant |values| == i
        invariant forall j :: 0 <= j < i ==> values[j] == Read(view[keys[j]].value)
      {
        var data := Lookup(now, keys[i]);
        if data.Some? { values := values + [Read(data.value)]; }
      }
    }

    /** listMeshRecords and listProxyConfigs: the parsed live values under a prefix, one for each live
        key, in the order in which the keys were first set. */
    method ListValues(now: int, prefix: string) returns (values: seq<Json>, ghost keys: seq<string>)
      requires kv.memory.Valid()
      modifies kv
      ensures kv.memory.Valid() && Seen(now) == old(Seen(now))
      ensures keys == LiveUnder(Seen(now), prefix, old(kv.memory.order))
      ensures Distinct(keys) && forall k :: k in keys <==> k in Seen(now) && prefix <= k
      ensures |values| == |keys|
      ensures forall j :: 0 <= j < |keys| ==> keys[j] in Seen(now) && values[j] == Read(Seen(now)[keys[j]].value)
    {
      ListLive(kv.memory, now, prefix, kv.memory.order);
      ListOrder(kv.memory, now, prefix, kv.memory.order);
      var listed := kv.KvList(now, prefix);
      values := ReadAll(now, listed);
      keys := listed;
    }

    /** The legacy routes, which touch only the proxy entry; their TTL is given. */
    method PostLegacyRegister(now: int, id: string, config: string, ttl: int) returns (response: Response)
      requires kv.memory.Valid() && ttl >= 0
      modifies kv
      ensures kv.memory.Valid()
      ensures (Seen(now), response) == Handle(env, old(Seen(now)), now, LegacyRegister(id, config, ttl))
    {
      Write(now, ProxyKey(id), config, ttl);
      return Success(ttl);
    }

    method PostLegacyHeartbeat(now: int, id: string, ttl: int) returns (response: Response)
      requires kv.memory.Valid() && ttl >= 0
      modifies kv
      ensures kv.memory.Valid()
      ensures (Seen(now), response) == Handle(env, old(Seen(now)), now, LegacyHeartbeat(id, ttl))
    {
      var existing := Lookup(now, ProxyKey(id));
      if existing == None { return Refused(404, ProxyNotFound); }
      Write(now, ProxyKey(id), existing.value, ttl);
      return Success(ttl);
    }

    method DeleteLegacy(now: int, id: string) returns (response: Response)
      requires kv.memory.Valid()
      modifies kv
      ensures kv.memory.Valid()
      ensures (Seen(now), response) == Handle(env, old(Seen(now)), now, LegacyDelete(id))
    {
      Remove(now, ProxyKey(id));
      return Removed;
    }

    /** The router. */
    method ServeOne(now: int, req: Request) returns (response: Response)
      requires kv.memory.Valid() && Servable(req)
      modifies kv
      ensures kv.memory.Valid()
      ensures Seen(now) == Handle(env, old(Seen(now)), now, req).0
      ensures response == Handle(env, old(Seen(now)), now, req).1
    {
      match req
      case Register(r) => response := PostRegister(now, r);
      case HeartbeatRecord(r) => response := PostHeartbeatRecord(now, r);
      case HeartbeatNode(n, id, e) => response := PostHeartbeatNode(now, n, id, e);
      case Deregister(n, id) => response := PostDeregister(now, n, id);
      case LegacyRegister(id, config, ttl) => response := PostLegacyRegister(now, id, config, ttl);
      case LegacyHeartbeat(id, ttl) => response := PostLegacyHeartbeat(now, id, ttl);
      case LegacyDelete(id) => response := DeleteLegacy(now, id);
    }
  }
}
