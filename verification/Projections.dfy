/** The latest event per key, and replay of a log up to a logical time. */
module Projections {
  import opened Events

  type Latest = JsMap<string, Event>

  const NONE_YET: Latest := JsMap([], map[])

  // ----- projections.ts: latestByKey -----

  function SetAll(m: Latest, events: seq<Event>): Latest
    decreases |events|
  {
    if events == [] then m else SetAll(m.Set(events[0].key, events[0]), events[1..])
  }

  function LatestByKey(events: seq<Event>): Latest { SetAll(NONE_YET, SortByTime(events)) }

  method ProjectLatestByKey(events: seq<Event>) returns (m: Latest)
    ensures m == LatestByKey(events)
  {
    m := NONE_YET;
    var sorted := SortByTime(events);
    for i := 0 to |sorted|
      invariant SetAll(m, sorted[i..]) == LatestByKey(events)
    {
      assert sorted[i..][0] == sorted[i] && sorted[i..][1..] == sorted[i + 1..];
      m := m.Set(sorted[i].key, sorted[i]);
    }
  }

  // ----- ledger.ts: getLatestByKey -----

  function KeyIs(key: string): Event -> bool { (e: Event) => e.key == key }

  /** reduce((a, b) => (a.logical_time > b.logical_time ? a : b)) */
  function Reduce(acc: Event, events: seq<Event>): Event
    decreases |events|
  {
    if events == [] then acc else Reduce(if acc.time > events[0].time then acc else events[0], events[1..])
  }

  function Pick(events: seq<Event>): Option<Event> {
    if events == [] then None else Some(Reduce(events[0], events[1..]))
  }

  function GetLatestByKey(events: seq<Event>, key: string): Option<Event> {
    Pick(Filter(events, KeyIs(key)))
  }

  // ----- Pick as a sum over the list -----

  function Later(a: Option<Event>, b: Option<Event>): Option<Event> {
    if a == None then b
    else if b == None then a
    else if a.value.time > b.value.time then a else b
  }

  lemma {:induction false} PickCons(e: Event, s: seq<Event>)
    ensures Pick([e] + s) == Later(Some(e), Pick(s))
    decreases |s|
  {
    assert ([e] + s)[1..] == s;
    if s != [] {
      PickCons(if e.time > s[0].time then e else s[0], s[1..]);
      PickCons(s[0], s[1..]);
      assert s == [s[0]] + s[1..];
      assert ([s[0]] + s[1..])[1..] == s[1..];
      assert ([if e.time > s[0].time then e else s[0]] + s[1..])[1..] == s[1..];
    }
  }

  lemma {:induction false} PickAppend(s: seq<Event>, t: seq<Event>)
    ensures Pick(s + t) == Later(Pick(s), Pick(t))
  {
    if s == [] {
      assert s + t == t;
    } else {
      PickAppend(s[1..], t);
      PickCons(s[0], s[1..]);
      PickCons(s[0], s[1..] + t);
      assert s == [s[0]] + s[1..];
      assert s + t == [s[0]] + (s[1..] + t);
    }
  }

  lemma {:induction false} PickInsert(e: Event, s: seq<Event>)
    ensures Pick(Insert(e, s)) == Later(Some(e), Pick(s))
  {
    if s == [] || e.time <= s[0].time {
      PickCons(e, s);
    } else {
      PickInsert(e, s[1..]);
      PickCons(s[0], Insert(e, s[1..]));
      PickCons(s[0], s[1..]);
      assert s == [s[0]] + s[1..];
    }
  }

  lemma {:induction false} PickSort(s: seq<Event>)
    ensures Pick(SortByTime(s)) == Pick(s)
  {
    if s != [] {
      PickSort(s[1..]);
      PickInsert(s[0], SortByTime(s[1..]));
      PickCons(s[0], s[1..]);
      assert s == [s[0]] + s[1..];
    }
  }

  lemma {:induction false} PickSorted(s: seq<Event>)
    requires Sorted(s) && s != []
    ensures Pick(s) == Some(s[|s| - 1])
  {
    if |s| > 1 {
      PickSorted(s[1..]);
      PickCons(s[0], s[1..]);
      assert s == [s[0]] + s[1..];
    } else {
      assert s[1..] == [];
    }
  }

  /** Pick returns an event of the list that no other event of the list is later than. */
  lemma {:induction false} PickIsLatest(s: seq<Event>)
    requires s != []
    ensures Pick(s).Some? && Pick(s).value in s
    ensures forall e :: e in s ==> e.time <= Pick(s).value.time
  {
    assert s == [s[0]] + s[1..];
    PickCons(s[0], s[1..]);
    if s[1..] != [] { PickIsLatest(s[1..]); }
  }

  /** Of the events of the key, the last of those with the greatest logical time. */
  ghost predicate LatestAt(events: seq<Event>, key: string, i: int) {
    && 0 <= i < |events| && events[i].key == key
    && forall j :: 0 <= j < |events| && events[j].key == key ==>
         events[j].time < events[i].time || (events[j].time == events[i].time && j <= i)
  }

  lemma {:induction false} LatestIs(events: seq<Event>, key: string)
    ensures match GetLatestByKey(events, key)
      case None => forall i :: 0 <= i < |events| ==> events[i].key != key
      case Some(e) => exists i :: LatestAt(events, key, i) && events[i] == e
  {
    if events != [] {
      var head, rest := events[0], events[1..];
      LatestIs(rest, key);
      if head.key == key {
        PickCons(head, Filter(rest, KeyIs(key)));
        match GetLatestByKey(rest, key) {
          case None => assert LatestAt(events, key, 0);
          case Some(e) =>
            var i :| LatestAt(rest, key, i) && rest[i] == e;
            assert LatestAt(events, key, if head.time > e.time then 0 else i + 1);
        }
      } else if GetLatestByKey(rest, key).Some? {
        var i :| LatestAt(rest, key, i) && rest[i] == GetLatestByKey(rest, key).value;
        assert LatestAt(events, key, i + 1);
      }
    }
  }

  /** getLatestByKey returns an event exactly when it stands at that place. */
  lemma {:induction false} LatestIff(events: seq<Event>, key: string, e: Event)
    ensures GetLatestByKey(events, key) == Some(e) <==> exists i :: LatestAt(events, key, i) && events[i] == e
  {
    LatestIs(events, key);
    if i :| LatestAt(events, key, i) && events[i] == e {
      var j :| LatestAt(events, key, j) && events[j] == GetLatestByKey(events, key).value;
      assert i == j;
    }
  }

  // ----- the two agree -----

  lemma {:induction false} SetAllGet(m: Latest, s: seq<Event>, key: string)
    ensures var f := Filter(s, KeyIs(key));
      SetAll(m, s).Get(key) == if f == [] then m.Get(key) else Some(f[|f| - 1])
    decreases |s|
  {
    if s != [] { SetAllGet(m.Set(s[0].key, s[0]), s[1..], key); }
  }

  /** latestByKey and the ledger's getLatestByKey give the same event for every key, with ties in
      logical_time broken the same way. */
  lemma {:induction false} LatestAgree(events: seq<Event>, key: string)
    ensures LatestByKey(events).Get(key) == GetLatestByKey(events, key)
  {
    var f := Filter(events, KeyIs(key));
    SetAllGet(NONE_YET, SortByTime(events), key);
    SortFilter(events, KeyIs(key));
    SortSorts(f);
    PickSort(f);
    if f != [] { PickSorted(SortByTime(f)); }
  }

  lemma {:induction false} SetAllValid(m: Latest, s: seq<Event>)
    requires m.Valid() && forall k :: k in m.data ==> m.data[k].key == k
    ensures SetAll(m, s).Valid() && forall k :: k in SetAll(m, s).data ==> SetAll(m, s).data[k].key == k
    decreases |s|
  {
    if s != [] { SetAllValid(m.Set(s[0].key, s[0]), s[1..]); }
  }

  /** Each key holds an event of that key, from the log, at the greatest logical time of the key. */
  lemma {:induction false} LatestByKeyIs(events: seq<Event>)
    ensures LatestByKey(events).Valid()
    ensures forall k :: k in LatestByKey(events).data <==> exists e :: e in events && e.key == k
    ensures forall k :: k in LatestByKey(events).data ==>
      var e := LatestByKey(events).data[k];
      e in events && e.key == k && forall x :: x in events && x.key == k ==> x.time <= e.time
  {
    var m := LatestByKey(events);
    SetAllValid(NONE_YET, SortByTime(events));
    forall k
      ensures k in m.data <==> exists e :: e in events && e.key == k
      ensures k in m.data ==> m.data[k] in events && m.data[k].key == k
      ensures k in m.data ==> forall x :: x in events && x.key == k ==> x.time <= m.data[k].time
    {
      LatestAgree(events, k);
      var f := Filter(events, KeyIs(k));
      if f != [] {
        PickIsLatest(f);
        assert f[0] in f;
      }
      assert forall x :: x in events && x.key == k ==> x in f;
    }
  }

  /** The projection is the same map whenever getLatestByKey is the same for every key. */
  lemma {:induction false} SameLatest(a: seq<Event>, b: seq<Event>)
    requires forall k :: GetLatestByKey(a, k) == GetLatestByKey(b, k)
    ensures LatestByKey(a).data == LatestByKey(b).data
  {
    var m, n := LatestByKey(a), LatestByKey(b);
    forall k ensures m.Get(k) == n.Get(k) {
      LatestAgree(a, k);
      LatestAgree(b, k);
    }
    assert forall k :: k in m.data <==> m.Get(k).Some?;
    assert forall k :: k in n.data <==> n.Get(k).Some?;
    assert forall k :: k in m.data ==> m.Get(k) == Some(m.data[k]) == n.Get(k);
  }

  // ----- appends, one at a time -----

  lemma {:induction false} InsertAtEnd(e: Event, s: seq<Event>)
    requires forall x :: x in s ==> x.time < e.time
    ensures Insert(e, s) == s + [e]
  {
    if s != [] {
      assert s[0] in s;
      InsertAtEnd(e, s[1..]);
      assert s == [s[0]] + s[1..];
    }
  }

  lemma {:induction false} InsertBeforeLast(e: Event, s: seq<Event>, last: Event)
    requires e.time < last.time
    ensures Insert(e, s + [last]) == Insert(e, s) + [last]
  {
    if s == [] {
      assert s + [last] == [last];
      assert Insert(e, [last]) == [e] + [last];
    } else {
      assert (s + [last])[1..] == s[1..] + [last];
      if e.time <= s[0].time {
        assert [e] + (s + [last]) == [e] + s + [last];
      } else {
        InsertBeforeLast(e, s[1..], last);
        assert [s[0]] + (Insert(e, s[1..]) + [last]) == [s[0]] + Insert(e, s[1..]) + [last];
      }
    }
  }

  lemma {:induction false} SortAppend(s: seq<Event>, e: Event)
    requires forall x :: x in s ==> x.time < e.time
    ensures SortByTime(s + [e]) == SortByTime(s) + [e]
  {
    if s == [] {
      assert s + [e] == [e] && [e][1..] == [];
    } else {
      assert (s + [e])[1..] == s[1..] + [e] && s[0] in s;
      SortAppend(s[1..], e);
      InsertBeforeLast(s[0], SortByTime(s[1..]), e);
    }
  }

  lemma {:induction false} SetAllAppend(m: Latest, s: seq<Event>, e: Event)
    ensures SetAll(m, s + [e]) == SetAll(m, s).Set(e.key, e)
    decreases |s|
  {
    if s == [] {
      assert s + [e] == [e];
      assert SetAll(m.Set(e.key, e), []) == m.Set(e.key, e);
    } else {
      assert (s + [e])[1..] == s[1..] + [e];
      SetAllAppend(m.Set(s[0].key, s[0]), s[1..], e);
    }
  }

  /** Appending an event later than all others only sets its own key, whatever the order of the log. */
  lemma {:induction false} AppendSetsOneKey(log: seq<Event>, e: Event)
    requires forall x :: x in log ==> x.time < e.time
    ensures LatestByKey(log + [e]) == LatestByKey(log).Set(e.key, e)
  {
    SortAppend(log, e);
    SetAllAppend(NONE_YET, SortByTime(log), e);
  }

  // ----- replay.ts -----

  function UpTo(t: int): Event -> bool { (e: Event) => e.time <= t }

  function ReplayAt(events: seq<Event>, t: int): seq<Event> { SortByTime(Filter(events, UpTo(t))) }

  /** A log numbered 1, 2, 3, ... in logical time, as the ledger writes it. */
  ghost predicate Numbered(log: seq<Event>) {
    forall i :: 0 <= i < |log| ==> log[i].time == i + 1
  }

  lemma {:induction false} FilterPrefix(log: seq<Event>, t: nat)
    requires Numbered(log)
    ensures Filter(log, UpTo(t)) == log[..if t < |log| then t else |log|]
  {
    if log != [] {
      var init, e := log[..|log| - 1], log[|log| - 1];
      assert log == init + [e];
      FilterPrefix(init, t);
      FilterAppend(init, e, UpTo(t));
      if t < |log| {
        assert init[..if t < |init| then t else |init|] == log[..t];
      } else {
        assert log[..|log|] == log;
      }
    }
  }

  /** Replaying a ledger log to time t gives its first t events. */
  lemma {:induction false} ReplayIsPrefix(log: seq<Event>, t: nat)
    requires Numbered(log)
    ensures ReplayAt(log, t) == log[..if t < |log| then t else |log|]
  {
    FilterPrefix(log, t);
    SortOfSorted(log[..if t < |log| then t else |log|]);
  }

  /** State at time t is the state after t appends to an empty log, each setting one key. */
  lemma {:induction false} ReplayIsAppends(log: seq<Event>, t: nat)
    requires Numbered(log) && t <= |log|
    ensures LatestByKey(ReplayAt(log, t)) == SetAll(NONE_YET, log[..t])
    ensures t > 0 ==>
      LatestByKey(ReplayAt(log, t)) == LatestByKey(ReplayAt(log, t - 1)).Set(log[t - 1].key, log[t - 1])
  {
    ReplayIsPrefix(log, t);
    SortOfSorted(log[..t]);
    if t > 0 {
      ReplayIsPrefix(log, t - 1);
      assert log[..t] == log[..t - 1] + [log[t - 1]];
      AppendSetsOneKey(log[..t - 1], log[t - 1]);
    }
  }

  datatype ReplayFilter = ReplayFilter(
    tool: Option<string>, nodeId: Option<string>, runId: Option<string>,
    sinceLogical: Option<int>, untilLogical: Option<int>,
    sinceTimestamp: Option<int>, untilTimestamp: Option<int>, keyPrefix: Option<string>)

  /** A string filter counts as absent when it is empty. */
  predicate Present(s: Option<string>) { s.Some? && s.value != "" }

  const CHECKS: nat := 8

  /** The i-th filter of the chain. */
  predicate Check(f: ReplayFilter, i: nat, e: Event) {
    match i
    case 0 => Present(f.tool) ==> e.tool == f.tool.value
    case 1 => Present(f.nodeId) ==> e.nodeId == f.nodeId
    case 2 => Present(f.runId) ==> e.runId == f.runId.value
    case 3 => f.sinceLogical.Some? ==> e.time >= f.sinceLogical.value
    case 4 => f.untilLogical.Some? ==> e.time <= f.untilLogical.value
    case 5 => f.sinceTimestamp.Some? ==> e.timestamp >= f.sinceTimestamp.value
    case 6 => f.untilTimestamp.Some? ==> e.timestamp <= f.untilTimestamp.value
    case _ => Present(f.keyPrefix) ==> f.keyPrefix.value <= e.key
  }

  function PassesOne(f: ReplayFilter, i: nat): Event -> bool { (e: Event) => Check(f, i, e) }

  function PassesFirst(f: ReplayFilter, n: nat): Event -> bool {
    (e: Event) => forall i :: 0 <= i < n ==> Check(f, i, e)
  }

  lemma {:induction false} FilterTwice(s: seq<Event>, p: Event -> bool, q: Event -> bool, both: Event -> bool)
    requires forall e :: both(e) <==> p(e) && q(e)
    ensures Filter(Filter(s, p), q) == Filter(s, both)
  {
    if s != [] {
      FilterTwice(s[1..], p, q, both);
      if p(s[0]) { FilterCons(s[0], Filter(s[1..], p), q); }
    }
  }

  predicate Given(f: ReplayFilter, i: nat) {
    match i
    case 0 => Present(f.tool)
    case 1 => Present(f.nodeId)
    case 2 => Present(f.runId)
    case 3 => f.sinceLogical.Some?
    case 4 => f.untilLogical.Some?
    case 5 => f.sinceTimestamp.Some?
    case 6 => f.untilTimestamp.Some?
    case _ => Present(f.keyPrefix)
  }

  lemma {:induction false} ChainStep(events: seq<Event>, f: ReplayFilter, n: nat, r: seq<Event>, r': seq<Event>)
    requires r == Filter(events, PassesFirst(f, n))
    requires r' == if Given(f, n) then Filter(r, PassesOne(f, n)) else r
    ensures r' == Filter(events, PassesFirst(f, n + 1))
  {
    if !Given(f, n) { FilterAll(r, PassesOne(f, n)); }
    FilterTwice(events, PassesFirst(f, n), PassesOne(f, n), PassesFirst(f, n + 1));
  }

  /** `if (filter has the i-th field) filtered = filtered.filter(...)` */
  method FilterStep(ghost events: seq<Event>, f: ReplayFilter, i: nat, filtered: seq<Event>) returns (r: seq<Event>)
    requires filtered == Filter(events, PassesFirst(f, i))
    ensures r == Filter(events, PassesFirst(f, i + 1))
  {
    r := filtered;
    if Given(f, i) { r := Filter(r, PassesOne(f, i)); }
    ChainStep(events, f, i, filtered, r);
  }

  /** The filter chain and the final sort of replay, without the fingerprint warning. The result is
      the events that pass all filters given, sorted by time. */
  method Replay(events: seq<Event>, f: ReplayFilter) returns (r: seq<Event>)
    ensures r == SortByTime(Filter(events, PassesFirst(f, CHECKS)))
  {
    r := events;
    FilterAll(events, PassesFirst(f, 0));
    for i := 0 to CHECKS
      invariant r == Filter(events, PassesFirst(f, i))
    {
      r := FilterStep(events, f, i, r);
    }
    r := SortByTime(r);
  }

  /** The filters given, each on its own field; an empty string filters nothing. */
  predicate Wanted(f: ReplayFilter, e: Event) {
    && f.tool in {None, Some(""), Some(e.tool)}
    && f.nodeId in {None, Some(""), e.nodeId}
    && f.runId in {None, Some(""), Some(e.runId)}
    && (match f.sinceLogical case None => true case Some(t) => t <= e.time)
    && (match f.untilLogical case None => true case Some(t) => e.time <= t)
    && (match f.sinceTimestamp case None => true case Some(t) => t <= e.timestamp)
    && (match f.untilTimestamp case None => true case Some(t) => e.timestamp <= t)
    && (match f.keyPrefix case None => true case Some(p) => |p| <= |e.key| && e.key[..|p|] == p)
  }

  lemma {:induction false} WantedIff(f: ReplayFilter, e: Event)
    ensures Wanted(f, e) <==> PassesFirst(f, CHECKS)(e)
  {
    if PassesFirst(f, CHECKS)(e) {
      assert Check(f, 0, e) && Check(f, 1, e) && Check(f, 2, e) && Check(f, 3, e);
      assert Check(f, 4, e) && Check(f, 5, e) && Check(f, 6, e) && Check(f, 7, e);
    }
  }

  /** The events of a replay are those that every filter given lets through, in time order; one that only
      bounds logical_time above is replayAt. */
  lemma {:induction false} ReplayMeans(events: seq<Event>, f: ReplayFilter)
    ensures var r := SortByTime(Filter(events, PassesFirst(f, CHECKS)));
      && Sorted(r)
      && (forall e :: e in r <==> e in events && Wanted(f, e))
    ensures f == ReplayFilter(None, None, None, None, f.untilLogical, None, None, None) && f.untilLogical.Some?
      ==> SortByTime(Filter(events, PassesFirst(f, CHECKS))) == ReplayAt(events, f.untilLogical.value)
  {
    SortSorts(Filter(events, PassesFirst(f, CHECKS)));
    forall e ensures Wanted(f, e) <==> PassesFirst(f, CHECKS)(e) { WantedIff(f, e); }
    if f == ReplayFilter(None, None, None, None, f.untilLogical, None, None, None) && f.untilLogical.Some? {
      forall e ensures PassesFirst(f, CHECKS)(e) <==> UpTo(f.untilLogical.value)(e) { WantedIff(f, e); }
      FilterSame(events, PassesFirst(f, CHECKS), UpTo(f.untilLogical.value));
    }
  }

  lemma {:induction false} FilterSame(s: seq<Event>, p: Event -> bool, q: Event -> bool)
    requires forall e :: e in s ==> (p(e) <==> q(e))
    ensures Filter(s, p) == Filter(s, q)
  {
    if s != [] {
      assert s[0] in s;
      FilterSame(s[1..], p, q);
    }
  }

  /** Replaying a replay changes nothing more. */
  lemma {:induction false} ReplayIdempotent(events: seq<Event>, p: Event -> bool)
    ensures SortByTime(Filter(SortByTime(Filter(events, p)), p)) == SortByTime(Filter(events, p))
  {
    var r := SortByTime(Filter(events, p));
    SortSorts(Filter(events, p));
    FilterAll(r, p);
    SortOfSorted(r);
  }
}
