/** Swarm events, the JavaScript Map, and the stable sort by logical_time. */
module Events {
  import opened Text
  import Json

  datatype Option<+T> = None | Some(value: T)

  // ----- Map: entries are enumerated in the order their keys were first set -----

  datatype JsMap<K(==,!new), V> = JsMap(order: seq<K>, data: map<K, V>) {
    ghost predicate Valid() {
      && Distinct(order)
      && forall k :: k in order <==> k in data
    }

    predicate Has(k: K) { k in data }

    function Get(k: K): Option<V> {
      if k in data then Some(data[k]) else None
    }

    function Set(k: K, v: V): (m: JsMap<K, V>)
      ensures Valid() ==> m.Valid()
      ensures m.data == data[k := v]
    {
      JsMap(if k in data then order else order + [k], data[k := v])
    }

    function Delete(k: K): (m: JsMap<K, V>)
      ensures Valid() ==> m.Valid()
      ensures m.data == data - {k}
    {
      Dropped(order, k);
      JsMap(Drop(order, k), data - {k})
    }

    function Values(): (r: seq<V>)
      requires Valid()
      ensures |r| == |order| && forall i :: 0 <= i < |r| ==> r[i] == data[order[i]]
    {
      seq(|order|, i requires 0 <= i < |order| => assert order[i] in order; data[order[i]])
    }
  }

  function Drop<K(==)>(s: seq<K>, k: K): seq<K> {
    if s == [] then [] else (if s[0] == k then [] else [s[0]]) + Drop(s[1..], k)
  }

  lemma {:induction false} Dropped<K(!new)>(s: seq<K>, k: K)
    ensures forall x :: x in Drop(s, k) <==> x in s && x != k
    ensures Distinct(s) ==> Distinct(Drop(s, k))
  {
    if s != [] {
      Dropped(s[1..], k);
      assert s == [s[0]] + s[1..];
      if Distinct(s) {
        assert Distinct(s[1..]);
        assert s[0] !in Drop(s[1..], k);
      }
    }
  }

  // ----- events -----

  datatype EventType = FACT | STATE | OBSERVATION | CORRECTION

  datatype Event = Event(
    id: string, parentId: Option<string>, timestamp: int, time: int, tool: string,
    nodeId: Option<string>, runId: string, key: string, value: Json.Json, confidence: Json.Json,
    kind: EventType, meta: Option<Json.Json>)

  function Filter(s: seq<Event>, p: Event -> bool): (r: seq<Event>)
    ensures forall e :: e in r <==> e in s && p(e)
  {
    if s == [] then []
    else
      assert s == [s[0]] + s[1..];
      if p(s[0]) then [s[0]] + Filter(s[1..], p) else Filter(s[1..], p)
  }

  lemma {:induction false} FilterAppend(s: seq<Event>, e: Event, p: Event -> bool)
    ensures Filter(s + [e], p) == if p(e) then Filter(s, p) + [e] else Filter(s, p)
  {
    if s == [] {
      assert s + [e] == [e];
    } else {
      FilterAppend(s[1..], e, p);
      assert (s + [e])[1..] == s[1..] + [e];
    }
  }

  /** Filtering on what every element satisfies changes nothing. */
  lemma {:induction false} FilterAll(s: seq<Event>, p: Event -> bool)
    requires forall e :: e in s ==> p(e)
    ensures Filter(s, p) == s
  {
    if s != [] {
      assert s[0] in s;
      FilterAll(s[1..], p);
      assert s == [s[0]] + s[1..];
    }
  }

  // ----- events.sort((a, b) => a.logical_time - b.logical_time) -----

  function SortByTime(s: seq<Event>): (r: seq<Event>) {
    if s == [] then [] else Insert(s[0], SortByTime(s[1..]))
  }

  /** Before the first element that is not earlier, so that equal times keep their order. */
  function Insert(e: Event, sorted: seq<Event>): seq<Event> {
    if sorted == [] || e.time <= sorted[0].time then [e] + sorted
    else [sorted[0]] + Insert(e, sorted[1..])
  }

  ghost predicate Sorted(s: seq<Event>) {
    forall i, j :: 0 <= i < j < |s| ==> s[i].time <= s[j].time
  }

  ghost predicate StrictlySorted(s: seq<Event>) {
    forall i, j :: 0 <= i < j < |s| ==> s[i].time < s[j].time
  }

  ghost predicate DistinctTimes(s: seq<Event>) {
    forall i, j :: 0 <= i < j < |s| ==> s[i].time != s[j].time
  }

  lemma {:induction false} SortedCons(e: Event, s: seq<Event>)
    requires Sorted(s) && forall x :: x in s ==> e.time <= x.time
    ensures Sorted([e] + s)
  {
  }

  lemma {:induction false} InsertSorts(e: Event, s: seq<Event>)
    requires Sorted(s)
    ensures Sorted(Insert(e, s)) && |Insert(e, s)| == |s| + 1
    ensures forall x :: x in Insert(e, s) <==> x == e || x in s
  {
    if s == [] || e.time <= s[0].time {
      forall x | x in s ensures e.time <= x.time { assert s[0].time <= x.time; }
      SortedCons(e, s);
    } else {
      InsertSorts(e, s[1..]);
      assert s == [s[0]] + s[1..];
      SortedCons(s[0], Insert(e, s[1..]));
    }
  }

  lemma {:induction false} SortSorts(s: seq<Event>)
    ensures Sorted(SortByTime(s)) && |SortByTime(s)| == |s|
    ensures forall x :: x in SortByTime(s) <==> x in s
  {
    if s != [] {
      SortSorts(s[1..]);
      assert s == [s[0]] + s[1..];
      InsertSorts(s[0], SortByTime(s[1..]));
    }
  }

  lemma {:induction false} InsertPermutes(e: Event, s: seq<Event>)
    ensures multiset(Insert(e, s)) == multiset(s) + multiset{e}
  {
    if s != [] && !(e.time <= s[0].time) {
      InsertPermutes(e, s[1..]);
      assert s == [s[0]] + s[1..];
    }
  }

  lemma {:induction false} SortPermutes(s: seq<Event>)
    ensures multiset(SortByTime(s)) == multiset(s)
  {
    if s != [] {
      SortPermutes(s[1..]);
      InsertPermutes(s[0], SortByTime(s[1..]));
      assert s == [s[0]] + s[1..];
    }
  }

  lemma {:induction false} SortOfSorted(s: seq<Event>)
    requires Sorted(s)
    ensures SortByTime(s) == s
  {
    if s != [] {
      SortOfSorted(s[1..]);
      assert s == [s[0]] + s[1..];
    }
  }

  lemma {:induction false} FilterCons(e: Event, s: seq<Event>, p: Event -> bool)
    ensures Filter([e] + s, p) == if p(e) then [e] + Filter(s, p) else Filter(s, p)
  {
    assert ([e] + s)[1..] == s;
  }

  /** Sorting is stable: it commutes with every filter, so the events of any one time (or any
      one key) keep their relative order. */
  lemma {:induction false} SortFilter(s: seq<Event>, p: Event -> bool)
    ensures Filter(SortByTime(s), p) == SortByTime(Filter(s, p))
  {
    if s != [] {
      SortFilter(s[1..], p);
      SortSorts(s[1..]);
      InsertFilter(s[0], SortByTime(s[1..]), p);
      if p(s[0]) {
        assert Filter(s, p)[1..] == Filter(s[1..], p);
      }
    }
  }

  lemma {:induction false} InsertFilter(e: Event, s: seq<Event>, p: Event -> bool)
    requires Sorted(s)
    ensures Filter(Insert(e, s), p) == if p(e) then Insert(e, Filter(s, p)) else Filter(s, p)
  {
    if s == [] || e.time <= s[0].time {
      FilterCons(e, s, p);
      forall x | x in Filter(s, p) ensures e.time <= x.time { assert x in s; }
      InsertFirst(e, Filter(s, p));
    } else {
      var head, rest := s[0], s[1..];
      InsertFilter(e, rest, p);
      FilterCons(head, Insert(e, rest), p);
      if p(e) && p(head) {
        InsertPast(e, head, Filter(rest, p));
      }
    }
  }

  lemma {:induction false} InsertFirst(e: Event, s: seq<Event>)
    requires forall x :: x in s ==> e.time <= x.time
    ensures Insert(e, s) == [e] + s
  {
    assert s != [] ==> s[0] in s;
  }

  lemma {:induction false} InsertPast(e: Event, head: Event, s: seq<Event>)
    requires head.time < e.time
    ensures Insert(e, [head] + s) == [head] + Insert(e, s)
  {
    assert ([head] + s)[1..] == s;
  }

  /** Distinct times leave one sorted arrangement. */
  lemma {:induction false} StrictlySortedUnique(a: seq<Event>, b: seq<Event>)
    requires StrictlySorted(a) && StrictlySorted(b)
    requires forall e :: e in a <==> e in b
    ensures a == b
  {
    assert a != [] ==> a[0] in b;
    assert b != [] ==> b[0] in a;
    if a != [] {
      forall e ensures e in a[1..] <==> e in b[1..] {
        assert a == [a[0]] + a[1..] && b == [b[0]] + b[1..];
        assert e in a[1..] ==> e in a && a[0].time < e.time;
        assert e in b[1..] ==> e in b && b[0].time < e.time;
      }
      StrictlySortedUnique(a[1..], b[1..]);
    }
  }

  lemma {:induction false} SortStrict(s: seq<Event>)
    requires DistinctTimes(s)
    ensures StrictlySorted(SortByTime(s))
  {
    SortSorts(s);
    var r := SortByTime(s);
    forall i, j | 0 <= i < j < |r| ensures r[i].time < r[j].time {
      if r[i].time == r[j].time {
        SameTimeTwice(r, i, j);
        SortFilter(s, TimeIs(r[i].time));
        SortSorts(Filter(s, TimeIs(r[i].time)));
        DistinctTimesOnce(s, r[i].time);
      }
    }
  }

  function TimeIs(t: int): Event -> bool { (e: Event) => e.time == t }

  lemma {:induction false} SameTimeTwice(s: seq<Event>, i: nat, j: nat)
    requires i < j < |s| && s[i].time == s[j].time
    ensures |Filter(s, TimeIs(s[i].time))| >= 2
  {
    if i == 0 {
      assert s[j] in s[1..];
      assert s[j] in Filter(s[1..], TimeIs(s[0].time));
    } else {
      SameTimeTwice(s[1..], i - 1, j - 1);
    }
  }

  lemma {:induction false} FilterNone(s: seq<Event>, t: int)
    requires forall i :: 0 <= i < |s| ==> s[i].time != t
    ensures Filter(s, TimeIs(t)) == []
  {
    if s != [] { FilterNone(s[1..], t); }
  }

  lemma {:induction false} DistinctTimesOnce(s: seq<Event>, t: int)
    requires DistinctTimes(s)
    ensures |Filter(s, TimeIs(t))| <= 1
  {
    if s != [] {
      DistinctTimesOnce(s[1..], t);
      if s[0].time == t {
        FilterNone(s[1..], t);
      }
    }
  }

  /** With distinct times the order of the input does not matter. */
  lemma {:induction false} SortForgetsOrder(a: seq<Event>, b: seq<Event>)
    requires DistinctTimes(a) && DistinctTimes(b)
    requires forall e :: e in a <==> e in b
    ensures SortByTime(a) == SortByTime(b)
  {
    SortStrict(a);
    SortStrict(b);
    SortSorts(a);
    SortSorts(b);
    StrictlySortedUnique(SortByTime(a), SortByTime(b));
  }
}
