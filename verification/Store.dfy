/** The worker's in-memory key-value store: entries carry an expiry time and are deleted lazily, when
    a read or a listing meets them after it. */
module Store {
  import opened Text
  import opened Events

  datatype Entry = Entry(value: string, expires: int)

  type Memory = JsMap<string, Entry>

  /** The entries a read at this time can see. */
  function Live(data: map<string, Entry>, now: int): map<string, Entry> {
    map k | k in data && now <= data[k].expires :: data[k]
  }

  // ----- the operations -----

  function Put(m: Memory, now: int, key: string, value: string, ttl: int): Memory {
    m.Set(key, Entry(value, now + ttl * 1000))
  }

  function Get(m: Memory, now: int, key: string): (Memory, Option<string>) {
    if key !in m.data then (m, None)
    else if now > m.data[key].expires then (m.Delete(key), None)
    else (m, Some(m.data[key].value))
  }

  /** The loop of kvList over the keys in insertion order. */
  function List(m: Memory, now: int, prefix: string, keys: seq<string>): (Memory, seq<string>)
    decreases |keys|
  {
    if keys == [] then (m, [])
    else if keys[0] in m.data && now > m.data[keys[0]].expires then List(m.Delete(keys[0]), now, prefix, keys[1..])
    else
      var (m', rest) := List(m, now, prefix, keys[1..]);
      (m', if prefix <= keys[0] then [keys[0]] + rest else rest)
  }

  /** One round of that loop, by position. */
  lemma {:induction false} ListAt(m: Memory, now: int, prefix: string, order: seq<string>, i: nat)
    requires i < |order| && order[i] in m.data
    ensures var (k, here, next) := (order[i], List(m, now, prefix, order[i..]), order[i + 1..]);
      && (now > m.data[k].expires ==> here == List(m.Delete(k), now, prefix, next))
      && (now <= m.data[k].expires ==>
           here.0 == List(m, now, prefix, next).0
           && here.1 == (if prefix <= k then [k] else []) + List(m, now, prefix, next).1)
  {
    assert order[i..][0] == order[i] && order[i..][1..] == order[i + 1..];
  }

  /** The loop stands at key i: what it has collected and what List makes of the rest is the whole. */
  ghost predicate Listing(m: Memory, now: int, prefix: string, order: seq<string>, i: nat, keys: seq<string>,
                          whole: (Memory, seq<string>))
    requires i <= |order|
  {
    && m.Valid() && Distinct(order)
    && (forall j :: i <= j < |order| ==> order[j] in m.data)
    && whole.0 == List(m, now, prefix, order[i..]).0
    && whole.1 == keys + List(m, now, prefix, order[i..]).1
  }

  lemma {:induction false} ListRound(m: Memory, now: int, prefix: string, order: seq<string>, i: nat, keys: seq<string>,
                                     whole: (Memory, seq<string>))
    requires i < |order| && Listing(m, now, prefix, order, i, keys, whole)
    ensures order[i] in m.data
    ensures now > m.data[order[i]].expires ==>
      Listing(m.Delete(order[i]), now, prefix, order, i + 1, keys, whole)
    ensures now <= m.data[order[i]].expires ==>
      Listing(m, now, prefix, order, i + 1, keys + if prefix <= order[i] then [order[i]] else [], whole)
  {
    ListAt(m, now, prefix, order, i);
    assert forall j :: i < j < |order| ==> order[j] != order[i];
    var rest := List(m, now, prefix, order[i + 1..]).1;
    assert (keys + [order[i]]) + rest == keys + ([order[i]] + rest);
    assert keys + [] == keys && [] + rest == rest;
  }

  lemma {:induction false} ListingStarts(m: Memory, now: int, prefix: string) returns (whole: (Memory, seq<string>))
    requires m.Valid()
    ensures whole == List(m, now, prefix, m.order) && Listing(m, now, prefix, m.order, 0, [], whole)
  {
    whole := List(m, now, prefix, m.order);
    assert m.order[0..] == m.order && [] + whole.1 == whole.1;
    assert forall j :: 0 <= j < |m.order| ==> m.order[j] in m.order;
  }

  lemma {:induction false} ListingEnds(m: Memory, now: int, prefix: string, order: seq<string>, keys: seq<string>,
                                       whole: (Memory, seq<string>))
    requires Listing(m, now, prefix, order, |order|, keys, whole)
    ensures whole == (m, keys) && m.Valid()
  {
    assert order[|order|..] == [] && keys + [] == keys;
  }

  class KvStore {
    var memory: Memory

    constructor ()
      ensures memory == JsMap([], map[]) && memory.Valid()
    {
      memory := JsMap([], map[]);
    }

    method KvPut(now: int, key: string, value: string, ttl: int)
      requires memory.Valid()
      modifies this
      ensures memory == Put(old(memory), now, key, value, ttl) && memory.Valid()
    {
      memory := memory.Set(key, Entry(value, now + ttl * 1000));
    }

    method KvGet(now: int, key: string) returns (r: Option<string>)
      requires memory.Valid()
      modifies this
      ensures (memory, r) == Get(old(memory), now, key) && memory.Valid()
    {
      if !memory.Has(key) { return None; }
      var entry := memory.data[key];
      if now > entry.expires {
        memory := memory.Delete(key);
        return None;
      }
      return Some(entry.value);
    }

    method KvDelete(key: string)
      requires memory.Valid()
      modifies this
      ensures memory == old(memory).Delete(key) && memory.Valid()
    {
      memory := memory.Delete(key);
    }

    method KvList(now: int, prefix: string) returns (keys: seq<string>)
      requires memory.Valid()
      modifies this
      ensures (memory, keys) == List(old(memory), now, prefix, old(memory).order) && memory.Valid()
    {
      keys := [];
      var order := memory.order;
      ghost var whole := ListingStarts(memory, now, prefix);
      for i := 0 to |order|
        invariant Listing(memory, now, prefix, order, i, keys, whole)
      {
        ListRound(memory, now, prefix, order, i, keys, whole);
        var k := order[i];
        if now > memory.data[k].expires {
          memory := memory.Delete(k);
        } else if prefix <= k {
          keys := keys + [k];
        }
      }
      ListingEnds(memory, now, prefix, order, keys, whole);
    }
  }

  // ----- what the operations do to the live entries -----

  /** Time only takes entries away. */
  lemma {:induction false} LiveLater(data: map<string, Entry>, now: int, later: int)
    requires now <= later
    ensures Live(Live(data, now), later) == Live(data, later)
  {
  }

  lemma {:induction false} GetLive(m: Memory, now: int, key: string)
    ensures var (m', r) := Get(m, now, key);
      && Live(m'.data, now) == Live(m.data, now)
      && r == (if key in Live(m.data, now) then Some(Live(m.data, now)[key].value) else None)
  {
  }

  lemma {:induction false} ListLive(m: Memory, now: int, prefix: string, keys: seq<string>)
    requires m.Valid() && Distinct(keys) && forall k :: k in keys ==> k in m.data
    ensures var (m', r) := List(m, now, prefix, keys);
      && m'.Valid()
      && Live(m'.data, now) == Live(m.data, now)
      && (forall k :: k in r <==> k in keys && k in Live(m.data, now) && prefix <= k)
      && Distinct(r)
    decreases |keys|
  {
    if keys != [] {
      var k, rest := keys[0], keys[1..];
      assert keys == [k] + rest;
      if now > m.data[k].expires {
        assert Live(m.Delete(k).data, now) == Live(m.data, now);
        ListLive(m.Delete(k), now, prefix, rest);
      } else {
        ListLive(m, now, prefix, rest);
        assert k !in rest && k !in List(m, now, prefix, rest).1;
      }
    }
  }

  /** A listing keeps the order in which the keys were first set. */
  function LiveUnder(live: map<string, Entry>, prefix: string, keys: seq<string>): seq<string> {
    if keys == [] then []
    else (if keys[0] in live && prefix <= keys[0] then [keys[0]] else []) + LiveUnder(live, prefix, keys[1..])
  }

  lemma {:induction false} ListOrder(m: Memory, now: int, prefix: string, keys: seq<string>)
    requires Distinct(keys) && forall k :: k in keys ==> k in m.data
    ensures List(m, now, prefix, keys).1 == LiveUnder(Live(m.data, now), prefix, keys)
    decreases |keys|
  {
    if keys != [] {
      var k, rest := keys[0], keys[1..];
      assert keys == [k] + rest;
      if now > m.data[k].expires {
        assert Live(m.Delete(k).data, now) == Live(m.data, now);
        ListOrder(m.Delete(k), now, prefix, rest);
      } else {
        ListOrder(m, now, prefix, rest);
      }
    }
  }

  // ----- refinement of a store that never deletes an expired entry -----

  datatype Op =
    | PutOp(key: string, value: string, ttl: int)
    | GetOp(key: string)
    | DeleteOp(key: string)
    | ListOp(prefix: string)

  datatype Out = Nothing | Found(v: Option<string>) | Listed(ks: set<string>)

  function ToSet(s: seq<string>): set<string> { set k | k in s }

  /** One operation on the lazy store. */
  function LazyStep(m: Memory, now: int, op: Op): (Memory, Out) {
    match op
    case PutOp(key, value, ttl) => (Put(m, now, key, value, ttl), Nothing)
    case GetOp(key) => var (m', r) := Get(m, now, key); (m', Found(r))
    case DeleteOp(key) => (m.Delete(key), Nothing)
    case ListOp(prefix) => var (m', r) := List(m, now, prefix, m.order); (m', Listed(ToSet(r)))
  }

  /** The same on a plain map, where reads ignore expired entries and nothing is cleaned up. */
  function SimpleStep(s: map<string, Entry>, now: int, op: Op): (map<string, Entry>, Out) {
    match op
    case PutOp(key, value, ttl) => (s[key := Entry(value, now + ttl * 1000)], Nothing)
    case GetOp(key) => (s, Found(if key in s && now <= s[key].expires then Some(s[key].value) else None))
    case DeleteOp(key) => (s - {key}, Nothing)
    case ListOp(prefix) => (s, Listed(set k | k in s && now <= s[k].expires && prefix <= k))
  }

  /** What is done, with the clock reading it is done at. */
  datatype Timed<+T> = Timed(now: int, act: T)

  /** The clock never goes back. */
  ghost predicate Ordered<T>(start: int, ts: seq<Timed<T>>) {
    && (ts != [] ==> start <= ts[0].now)
    && forall i, j :: 0 <= i < j < |ts| ==> ts[i].now <= ts[j].now
  }

  /** The last clock reading. */
  function End<T>(start: int, ts: seq<Timed<T>>): int { if ts == [] then start else ts[|ts| - 1].now }

  function LazyOutputs(m: Memory, ops: seq<Timed<Op>>): seq<Out>
    decreases |ops|
  {
    if ops == [] then []
    else var (m', out) := LazyStep(m, ops[0].now, ops[0].act); [out] + LazyOutputs(m', ops[1..])
  }

  function SimpleOutputs(s: map<string, Entry>, ops: seq<Timed<Op>>): seq<Out>
    decreases |ops|
  {
    if ops == [] then []
    else var (s', out) := SimpleStep(s, ops[0].now, ops[0].act); [out] + SimpleOutputs(s', ops[1..])
  }

  lemma {:induction false} StepRefines(m: Memory, s: map<string, Entry>, now: int, op: Op)
    requires m.Valid() && Live(m.data, now) == Live(s, now)
    ensures LazyStep(m, now, op).0.Valid()
    ensures LazyStep(m, now, op).1 == SimpleStep(s, now, op).1
    ensures Live(LazyStep(m, now, op).0.data, now) == Live(SimpleStep(s, now, op).0, now)
  {
    match op
    case PutOp(key, value, ttl) => PutLive(m.data, s, now, key, Entry(value, now + ttl * 1000));
    case GetOp(key) => GetRefines(m, s, now, key);
    case DeleteOp(key) => DeleteLive(m.data, s, now, key);
    case ListOp(prefix) =>
      ListRefines(m, s, now, prefix);
      var (m', r) := List(m, now, prefix, m.order);
      assert LazyStep(m, now, op) == (m', Listed(ToSet(r)));
  }

  lemma {:induction false} GetRefines(m: Memory, s: map<string, Entry>, now: int, key: string)
    requires m.Valid() && Live(m.data, now) == Live(s, now)
    ensures var (m', r) := Get(m, now, key);
      && m'.Valid()
      && Live(m'.data, now) == Live(s, now)
      && r == if key in s && now <= s[key].expires then Some(s[key].value) else None
  {
    GetLive(m, now, key);
    assert key in Live(s, now) <==> key in s && now <= s[key].expires;
  }

  lemma {:induction false} ListRefines(m: Memory, s: map<string, Entry>, now: int, prefix: string)
    requires m.Valid() && Live(m.data, now) == Live(s, now)
    ensures var (m', r) := List(m, now, prefix, m.order);
      && m'.Valid()
      && Live(m'.data, now) == Live(s, now)
      && ToSet(r) == set k | k in s && now <= s[k].expires && prefix <= k
  {
    ListLive(m, now, prefix, m.order);
    var r := List(m, now, prefix, m.order).1;
    forall k ensures k in r <==> k in s && now <= s[k].expires && prefix <= k {
      assert k in Live(m.data, now) <==> k in s && now <= s[k].expires;
    }
  }

  lemma {:induction false} PutLive(a: map<string, Entry>, b: map<string, Entry>, now: int, key: string, e: Entry)
    requires Live(a, now) == Live(b, now)
    ensures Live(a[key := e], now) == Live(b[key := e], now)
  {
    LiveAfterPut(a, now, key, e);
    LiveAfterPut(b, now, key, e);
  }

  lemma {:induction false} LiveAfterPut(a: map<string, Entry>, now: int, key: string, e: Entry)
    ensures Live(a[key := e], now) == if now <= e.expires then Live(a, now)[key := e] else Live(a, now) - {key}
  {
  }

  lemma {:induction false} DeleteLive(a: map<string, Entry>, b: map<string, Entry>, now: int, key: string)
    requires Live(a, now) == Live(b, now)
    ensures Live(a - {key}, now) == Live(b - {key}, now)
  {
    assert Live(a - {key}, now) == Live(a, now) - {key};
    assert Live(b - {key}, now) == Live(b, now) - {key};
  }

  /** Under a clock that never goes back, the two stores answer every sequence of operations alike. */
  lemma {:induction false} LazyRefinesSimple(m: Memory, s: map<string, Entry>, start: int, ops: seq<Timed<Op>>)
    requires m.Valid() && Live(m.data, start) == Live(s, start) && Ordered(start, ops)
    ensures LazyOutputs(m, ops) == SimpleOutputs(s, ops)
    decreases |ops|
  {
    if ops != [] {
      var now, op := ops[0].now, ops[0].act;
      LiveLater(m.data, start, now);
      LiveLater(s, start, now);
      StepRefines(m, s, now, op);
      assert Ordered(now, ops[1..]);
      LazyRefinesSimple(LazyStep(m, now, op).0, SimpleStep(s, now, op).0, now, ops[1..]);
    }
  }
}
