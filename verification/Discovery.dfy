/** discoverAndVerify's filter loop, and keeping one record per node. */
module Discovery {
  import opened Text
  import opened Json
  import opened Canonical
  import opened Events
  import opened Signing

  /** A discovered record; the other fields of the entry ride along in `peerId`. */
  datatype Discovered = Discovered(peerId: string, record: Json)

  function Id(e: Discovered): Json { Child(e.record, "nodeId") }

  /** None when there is no heartbeatAt. */
  function Heartbeat(e: Discovered): Option<string> {
    match Child(Child(e.record, "lifecycle"), "heartbeatAt") case Str(t) => Some(t) case _ => None
  }

  /** The JavaScript comparison a.heartbeatAt > b.heartbeatAt, false when either is undefined. */
  predicate Later(a: Discovered, b: Discovered) {
    Heartbeat(a).Some? && Heartbeat(b).Some? && Less(Heartbeat(b).value, Heartbeat(a).value)
  }

  type ByNode = JsMap<Json, Discovered>

  const EMPTY: ByNode := JsMap([], map[])

  // ----- deduplicateByNodeId and deduplicateRecords -----

  function Step(m: ByNode, e: Discovered): ByNode {
    if Id(e) !in m.data || Later(e, m.data[Id(e)]) then m.Set(Id(e), e) else m
  }

  function Merge(m: ByNode, entries: seq<Discovered>): ByNode {
    if entries == [] then m else Step(Merge(m, entries[..|entries| - 1]), entries[|entries| - 1])
  }

  lemma {:induction false} MergeValid(m: ByNode, entries: seq<Discovered>)
    requires m.Valid() && forall k :: k in m.data ==> Id(m.data[k]) == k
    ensures var r := Merge(m, entries); r.Valid() && forall k :: k in r.data ==> Id(r.data[k]) == k
  {
    if entries != [] { MergeValid(m, entries[..|entries| - 1]); }
  }

  function Deduplicate(entries: seq<Discovered>): seq<Discovered> {
    MergeValid(EMPTY, entries);
    Merge(EMPTY, entries).Values()
  }

  method DeduplicateByNodeId(entries: seq<Discovered>) returns (r: seq<Discovered>)
    ensures r == Deduplicate(entries)
  {
    var m: ByNode := EMPTY;
    for i := 0 to |entries|
      invariant m == Merge(EMPTY, entries[..i])
    {
      assert entries[..i + 1][..i] == entries[..i];
      var entry := entries[i];
      var existing := m.Get(Id(entry));
      if existing == None || Later(entry, existing.value) {
        m := m.Set(Id(entry), entry);
      }
    }
    assert entries[..|entries|] == entries;
    MergeValid(EMPTY, entries);
    r := m.Values();
  }

  // ----- what is kept, stated without the map -----

  /** The second entry only if there is no first or its heartbeat is greater. */
  function Newer(a: Option<Discovered>, b: Discovered): Discovered {
    if a == None || Later(b, a.value) then b else a.value
  }

  /** The entry held for a node after the list, when cur was held before it. */
  function Held(cur: Option<Discovered>, entries: seq<Discovered>, id: Json): Option<Discovered> {
    if entries == [] then cur
    else
      var prior, e := Held(cur, entries[..|entries| - 1], id), entries[|entries| - 1];
      if Id(e) == id then Some(Newer(prior, e)) else prior
  }

  function Best(entries: seq<Discovered>, id: Json): Option<Discovered> { Held(None, entries, id) }

  /** The node's first entry. */
  function First(entries: seq<Discovered>, id: Json): Option<Discovered> {
    if entries == [] then None
    else
      var prior, e := First(entries[..|entries| - 1], id), entries[|entries| - 1];
      if prior == None && Id(e) == id then Some(e) else prior
  }

  predicate StartsUndated(entries: seq<Discovered>, id: Json) {
    First(entries, id).Some? && Heartbeat(First(entries, id).value) == None
  }

  /** The node's first entry, if that has no heartbeat; otherwise the earliest of those whose heartbeat
      is greatest. */
  ghost predicate Wins(entries: seq<Discovered>, id: Json, i: nat)
    requires i < |entries|
  {
    && Id(entries[i]) == id
    && (if Heartbeat(entries[i]) == None then forall j :: 0 <= j < i ==> Id(entries[j]) != id
        else
          && !StartsUndated(entries, id)
          && (forall j :: 0 <= j < |entries| && Id(entries[j]) == id ==> !Later(entries[j], entries[i]))
          && (forall j :: 0 <= j < i && Id(entries[j]) == id && Heartbeat(entries[j]).Some? ==>
                Later(entries[i], entries[j])))
  }

  lemma {:induction false} LaterTransitive(a: Discovered, b: Discovered, c: Discovered)
    requires Later(a, b) && Later(b, c)
    ensures Later(a, c)
  {
    LessTransitive(Heartbeat(c).value, Heartbeat(b).value, Heartbeat(a).value);
  }

  lemma {:induction false} LaterAsymmetric(a: Discovered, b: Discovered)
    requires Later(a, b)
    ensures !Later(b, a)
  {
    LessAsymmetric(Heartbeat(b).value, Heartbeat(a).value);
  }

  /** Among dated entries, what is later than b is later than everything not later than b. */
  lemma {:induction false} LaterThanAll(a: Discovered, b: Discovered, c: Discovered)
    requires Later(a, b) && !Later(c, b)
    ensures !Later(c, a)
    ensures Heartbeat(c).Some? ==> Later(a, c)
  {
    if Heartbeat(c).Some? {
      LessTotal(Heartbeat(c).value, Heartbeat(b).value);
      if Later(b, c) { LaterTransitive(a, b, c); }
      LaterAsymmetric(a, c);
    }
  }

  ghost predicate IsFirst(entries: seq<Discovered>, id: Json, i: nat) {
    i < |entries| && Id(entries[i]) == id && forall j :: 0 <= j < i ==> Id(entries[j]) != id
  }

  lemma {:induction false} FirstIs(entries: seq<Discovered>, id: Json) returns (i: nat)
    ensures First(entries, id) == None <==> forall e :: e in entries ==> Id(e) != id
    ensures First(entries, id).Some? ==> IsFirst(entries, id, i) && First(entries, id) == Some(entries[i])
  {
    i := 0;
    if entries != [] {
      var init, e := entries[..|entries| - 1], entries[|entries| - 1];
      assert entries == init + [e];
      i := FirstIs(init, id);
      if First(init, id).Some? {
        assert forall j :: 0 <= j <= i ==> entries[j] == init[j];
      } else {
        i := |init|;
        assert forall j :: 0 <= j < |init| ==> entries[j] in init;
      }
    }
  }

  lemma {:induction false} FirstKept(init: seq<Discovered>, e: Discovered, id: Json)
    ensures First(init + [e], id) == if First(init, id) == None && Id(e) == id then Some(e) else First(init, id)
  {
    assert (init + [e])[..|init|] == init;
  }

  lemma {:induction false} NotLaterThanItself(e: Discovered)
    ensures !Later(e, e)
  {
    if Later(e, e) { LaterAsymmetric(e, e); }
  }

  /** The first entry of a node wins while it is alone. */
  lemma {:induction false} LoneWins(init: seq<Discovered>, e: Discovered, id: Json)
    requires Id(e) == id && forall x :: x in init ==> Id(x) != id
    ensures Wins(init + [e], id, |init|)
  {
    var entries := init + [e];
    var f := FirstIs(init, id);
    FirstKept(init, e, id);
    NotLaterThanItself(e);
    assert forall j :: 0 <= j < |init| ==> entries[j] in init;
  }

  lemma {:induction false} LaterWins(init: seq<Discovered>, e: Discovered, id: Json, i: nat)
    requires i < |init| && Wins(init, id, i) && Id(e) == id && Later(e, init[i])
    ensures Wins(init + [e], id, |init|)
  {
    var entries := init + [e];
    var f := FirstIs(init, id);
    FirstKept(init, e, id);
    assert init[i] in init;
    forall j | 0 <= j < |init| && Id(entries[j]) == id
      ensures !Later(entries[j], e) && (Heartbeat(entries[j]).Some? ==> Later(e, entries[j]))
    {
      assert entries[j] == init[j];
      LaterThanAll(e, init[i], init[j]);
    }
    NotLaterThanItself(e);
  }

  lemma {:induction false} StillWins(init: seq<Discovered>, e: Discovered, id: Json, i: nat)
    requires i < |init| && Wins(init, id, i) && (Id(e) == id ==> !Later(e, init[i]))
    ensures Wins(init + [e], id, i)
  {
    var entries := init + [e];
    var f := FirstIs(init, id);
    FirstKept(init, e, id);
    assert init[i] in init;
    assert forall j :: 0 <= j < |init| ==> entries[j] == init[j];
  }

  /** Some entry wins when the node has one, and it is the one kept. */
  lemma {:induction false} BestWins(entries: seq<Discovered>, id: Json) returns (i: nat)
    ensures Best(entries, id) == None <==> First(entries, id) == None
    ensures Best(entries, id).Some? ==> i < |entries| && Best(entries, id) == Some(entries[i]) && Wins(entries, id, i)
  {
    i := 0;
    if entries != [] {
      var n := |entries| - 1;
      var init, e := entries[..n], entries[n];
      assert entries == init + [e];
      i := BestWins(init, id);
      var f := FirstIs(init, id);
      if Best(init, id) == None {
        if Id(e) == id {
          LoneWins(init, e, id);
          i := n;
        }
      } else if Id(e) == id && Later(e, init[i]) {
        LaterWins(init, e, id, i);
        i := n;
      } else {
        StillWins(init, e, id, i);
      }
    }
  }

  lemma {:induction false} UndatedWinsFirst(entries: seq<Discovered>, id: Json, i: nat)
    requires i < |entries| && Wins(entries, id, i) && Heartbeat(entries[i]) == None
    ensures First(entries, id) == Some(entries[i])
  {
    var f := FirstIs(entries, id);
    assert entries[i] in entries;
  }

  lemma {:induction false} WinnerUnique(entries: seq<Discovered>, id: Json, i: nat, k: nat)
    requires i < k < |entries| && Wins(entries, id, i)
    ensures !Wins(entries, id, k)
  {
    if Heartbeat(entries[i]) == None { UndatedWinsFirst(entries, id, i); }
  }

  /** The entry kept for a node is exactly the winner. */
  lemma {:induction false} BestIs(entries: seq<Discovered>, id: Json, i: nat)
    requires i < |entries| && Wins(entries, id, i)
    ensures Best(entries, id) == Some(entries[i])
  {
    var k := BestWins(entries, id);
    var f := FirstIs(entries, id);
    assert entries[i] in entries;
    if i < k { WinnerUnique(entries, id, i, k); }
    if k < i { WinnerUnique(entries, id, k, i); }
  }

  lemma {:induction false} BestMember(entries: seq<Discovered>, id: Json)
    ensures Best(entries, id) == None <==> forall e :: e in entries ==> Id(e) != id
    ensures Best(entries, id).Some? ==>
      Best(entries, id).value in entries && Id(Best(entries, id).value) == id
      && forall e :: e in entries && Id(e) == id ==> !Later(e, Best(entries, id).value)
  {
    var i := BestWins(entries, id);
    var f := FirstIs(entries, id);
    if Best(entries, id).Some? {
      forall e | e in entries && Id(e) == id ensures !Later(e, entries[i]) {
        var j :| 0 <= j < |entries| && entries[j] == e;
      }
    }
  }

  lemma {:induction false} MergeGet(m: ByNode, entries: seq<Discovered>, id: Json)
    ensures Merge(m, entries).Get(id) == Held(m.Get(id), entries, id)
  {
    if entries != [] { MergeGet(m, entries[..|entries| - 1], id); }
  }

  lemma {:induction false} MergeAppend(m: ByNode, xs: seq<Discovered>, ys: seq<Discovered>)
    ensures Merge(m, xs + ys) == Merge(Merge(m, xs), ys)
  {
    if ys == [] {
      assert xs + ys == xs;
    } else {
      var n := |ys| - 1;
      assert (xs + ys)[..|xs| + n] == xs + ys[..n];
      MergeAppend(m, xs, ys[..n]);
    }
  }

  /** The list extended by those ids that are new to it, each once, in order. */
  function AddNew(order: seq<Json>, ids: seq<Json>): seq<Json> {
    if ids == [] then order
    else
      var r, id := AddNew(order, ids[..|ids| - 1]), ids[|ids| - 1];
      if id in r then r else r + [id]
  }

  function IdsOf(entries: seq<Discovered>): (r: seq<Json>)
    ensures |r| == |entries| && forall i :: 0 <= i < |r| ==> r[i] == Id(entries[i])
  {
    seq(|entries|, i requires 0 <= i < |entries| => Id(entries[i]))
  }

  lemma {:induction false} MergeOrder(m: ByNode, entries: seq<Discovered>)
    requires m.Valid()
    ensures Merge(m, entries).Valid()
    ensures Merge(m, entries).order == AddNew(m.order, IdsOf(entries))
  {
    if entries != [] {
      var init := entries[..|entries| - 1];
      MergeOrder(m, init);
      assert IdsOf(entries)[..|entries| - 1] == IdsOf(init);
    }
  }

  lemma {:induction false} AddNewMembers(order: seq<Json>, ids: seq<Json>)
    ensures forall x :: x in AddNew(order, ids) <==> x in order || x in ids
  {
    if ids != [] {
      AddNewMembers(order, ids[..|ids| - 1]);
      assert ids == ids[..|ids| - 1] + [ids[|ids| - 1]];
    }
  }

  lemma {:induction false} AddNewTwice(order: seq<Json>, ids: seq<Json>)
    ensures AddNew(order, AddNew([], ids)) == AddNew(order, ids)
  {
    if ids != [] {
      var init, id := ids[..|ids| - 1], ids[|ids| - 1];
      AddNewTwice(order, init);
      AddNewMembers([], init);
      AddNewMembers(order, init);
      var r := AddNew([], init);
      if id !in r { assert (r + [id])[..|r + [id]| - 1] == r; }
    }
  }

  /** Exactly one entry per node, in order of first appearance, each the node's best. */
  lemma {:induction false} DeduplicateKeeps(entries: seq<Discovered>)
    ensures IdsOf(Deduplicate(entries)) == AddNew([], IdsOf(entries))
    ensures Distinct(IdsOf(Deduplicate(entries)))
    ensures forall e :: e in Deduplicate(entries) ==> Best(entries, Id(e)) == Some(e)
    ensures forall e :: e in entries ==> exists d :: d in Deduplicate(entries) && Id(d) == Id(e)
  {
    var m, r := Merge(EMPTY, entries), Deduplicate(entries);
    MergeValid(EMPTY, entries);
    MergeOrder(EMPTY, entries);
    forall i | 0 <= i < |r| ensures Id(r[i]) == m.order[i] && Best(entries, Id(r[i])) == Some(r[i]) {
      assert m.order[i] in m.data;
      MergeGet(EMPTY, entries, m.order[i]);
    }
    assert IdsOf(r) == m.order;
    forall e | e in entries ensures exists d :: d in r && Id(d) == Id(e) {
      AppearsInOrder(entries, e);
      var j :| 0 <= j < |m.order| && m.order[j] == Id(e);
      assert r[j] in r;
    }
  }

  lemma {:induction false} AppearsInOrder(entries: seq<Discovered>, e: Discovered)
    requires e in entries
    ensures Id(e) in AddNew([], IdsOf(entries))
  {
    var i :| 0 <= i < |entries| && entries[i] == e;
    assert IdsOf(entries)[i] == Id(e);
    AddNewMembers([], IdsOf(entries));
  }

  // ----- algebra -----

  lemma {:induction false} HeldOther(cur: Option<Discovered>, entries: seq<Discovered>, id: Json)
    requires forall e :: e in entries ==> Id(e) != id
    ensures Held(cur, entries, id) == cur
  {
    if entries != [] {
      assert entries == entries[..|entries| - 1] + [entries[|entries| - 1]];
      HeldOther(cur, entries[..|entries| - 1], id);
    }
  }

  lemma {:induction false} LastAlone(r: seq<Discovered>)
    requires Distinct(IdsOf(r)) && r != []
    ensures var n := |r| - 1;
      (forall e :: e in r[..n] ==> Id(e) != Id(r[n])) && Distinct(IdsOf(r[..n]))
  {
    var n := |r| - 1;
    assert IdsOf(r[..n]) == IdsOf(r)[..n];
    forall e | e in r[..n] ensures Id(e) != Id(r[n]) {
      var j :| 0 <= j < n && r[..n][j] == e;
      assert IdsOf(r)[j] != IdsOf(r)[n];
    }
  }

  /** A list with one entry per node offers just that entry. */
  lemma {:induction false} HeldOfDistinct(cur: Option<Discovered>, r: seq<Discovered>, i: nat)
    requires Distinct(IdsOf(r)) && i < |r|
    ensures Held(cur, r, Id(r[i])) == Some(Newer(cur, r[i]))
  {
    var n := |r| - 1;
    LastAlone(r);
    if i == n {
      HeldOther(cur, r[..n], Id(r[n]));
    } else {
      assert r[..n][i] == r[i] && r[i] in r[..n];
      HeldOfDistinct(cur, r[..n], i);
    }
  }

  /** What deduplicated entries offer is the node's best. */
  lemma {:induction false} HeldDeduplicated(cur: Option<Discovered>, entries: seq<Discovered>, id: Json)
    ensures Held(cur, Deduplicate(entries), id)
         == match Best(entries, id) case None => cur case Some(b) => Some(Newer(cur, b))
  {
    var r := Deduplicate(entries);
    DeduplicateKeeps(entries);
    BestMember(entries, id);
    if e :| e in r && Id(e) == id {
      var i :| 0 <= i < |r| && r[i] == e;
      HeldOfDistinct(cur, r, i);
    } else {
      HeldOther(cur, r, id);
    }
  }

  /** Deduplicating the second list first hides from the entry b, held for a node, that list's later
      heartbeats: its first entry has none, and b has one. */
  ghost predicate Masked(b: Discovered, entries: seq<Discovered>, id: Json) {
    && Heartbeat(b).Some? && StartsUndated(entries, id)
    && exists e :: e in entries && Id(e) == id && Later(e, b)
  }

  lemma {:induction false} HeldUndated(b: Discovered, entries: seq<Discovered>, id: Json)
    requires Heartbeat(b) == None
    ensures Held(Some(b), entries, id) == Some(b)
  {
    if entries != [] { HeldUndated(b, entries[..|entries| - 1], id); }
  }

  /** What is held after the list is b itself, or later than b. */
  lemma {:induction false} HeldNotOlder(b: Discovered, entries: seq<Discovered>, id: Json)
    ensures Held(Some(b), entries, id).Some?
    ensures var h := Held(Some(b), entries, id).value; h == b || Later(h, b)
  {
    if entries != [] {
      var init, e := entries[..|entries| - 1], entries[|entries| - 1];
      HeldNotOlder(b, init, id);
      var h := Held(Some(b), init, id).value;
      if Later(e, h) && Later(h, b) { LaterTransitive(e, h, b); }
    }
  }

  /** It stays b exactly if nothing is later. */
  lemma {:induction false} HeldStaysIff(b: Discovered, entries: seq<Discovered>, id: Json)
    ensures Held(Some(b), entries, id) == Some(b) <==> !exists e :: e in entries && Id(e) == id && Later(e, b)
  {
    if entries != [] {
      var init, e := entries[..|entries| - 1], entries[|entries| - 1];
      assert entries == init + [e];
      HeldStaysIff(b, init, id);
      HeldNotOlder(b, init, id);
      var h := Held(Some(b), init, id).value;
      NotLaterThanItself(b);
      if Later(h, b) && Later(e, h) { LaterTransitive(e, h, b); }
    }
  }

  /** Where the list's first entry of the node is dated, or there is none, only its best counts. */
  lemma {:induction false} HeldByBest(b: Discovered, entries: seq<Discovered>, id: Json)
    requires Heartbeat(b).Some? && !StartsUndated(entries, id)
    ensures Best(entries, id) == None ==> Held(Some(b), entries, id) == Some(b)
    ensures Best(entries, id).Some? ==>
      Heartbeat(Best(entries, id).value).Some?
      && Held(Some(b), entries, id) == Some(Newer(Some(b), Best(entries, id).value))
  {
    if entries != [] {
      var init, e := entries[..|entries| - 1], entries[|entries| - 1];
      NoneBest(init, id);
      HeldByBest(b, init, id);
      if Id(e) == id && Best(init, id).Some? { NewerAssociative(b, Best(init, id).value, e); }
    }
  }

  lemma {:induction false} NoneBest(entries: seq<Discovered>, id: Json)
    ensures Best(entries, id) == None <==> First(entries, id) == None
  {
    var k := BestWins(entries, id);
  }

  lemma {:induction false} NewerAssociative(a: Discovered, b: Discovered, c: Discovered)
    requires Heartbeat(a).Some? && Heartbeat(b).Some?
    ensures Newer(Some(Newer(Some(a), b)), c) == Newer(Some(a), Newer(Some(b), c))
  {
    if Later(c, b) && Later(b, a) { LaterTransitive(c, b, a); }
    if Later(c, b) && !Later(c, a) && Later(b, a) { LaterThanAll(b, a, c); }
    if !Later(c, b) && Later(c, a) && !Later(b, a) { LaterThanAll(c, a, b); }
  }

  /** For one node, deduplicating first gives what the whole list gives exactly when nothing is masked. */
  lemma {:induction false} HeldAlikeIff(b: Discovered, entries: seq<Discovered>, id: Json)
    ensures Held(Some(b), Deduplicate(entries), id) == Held(Some(b), entries, id) <==> !Masked(b, entries, id)
  {
    HeldDeduplicated(Some(b), entries, id);
    HeldStaysIff(b, entries, id);
    var k := BestWins(entries, id);
    if Heartbeat(b) == None {
      HeldUndated(b, entries, id);
    } else if !StartsUndated(entries, id) {
      HeldByBest(b, entries, id);
    } else {
      FirstWins(entries, id);
    }
  }

  lemma {:induction false} FirstWins(entries: seq<Discovered>, id: Json)
    requires StartsUndated(entries, id)
    ensures Best(entries, id) == First(entries, id)
  {
    var f := FirstIs(entries, id);
    BestIs(entries, id, f);
  }

  /** Two maps over the same nodes list the same values exactly when they hold the same for each. */
  lemma {:induction false} SameValuesIff(a: ByNode, b: ByNode)
    requires a.Valid() && b.Valid() && a.order == b.order
    ensures a.Values() == b.Values() <==> forall id :: a.Get(id) == b.Get(id)
  {
    if a.Values() == b.Values() {
      forall id ensures a.Get(id) == b.Get(id) {
        if id in a.data {
          var i :| 0 <= i < |a.order| && a.order[i] == id;
          assert a.Values()[i] == b.Values()[i];
        }
        assert id in a.data <==> id in a.order;
        assert id in b.data <==> id in b.order;
      }
    }
    if forall id :: a.Get(id) == b.Get(id) {
      forall i | 0 <= i < |a.order| ensures a.Values()[i] == b.Values()[i] {
        assert a.order[i] in a.data && a.order[i] in b.data;
        assert a.Get(a.order[i]) == b.Get(a.order[i]);
      }
    }
  }

  lemma {:induction false} MergeDeduplicatedOrder(m: ByNode, entries: seq<Discovered>)
    requires m.Valid()
    ensures Merge(m, Deduplicate(entries)).Valid() && Merge(m, entries).Valid()
    ensures Merge(m, Deduplicate(entries)).order == Merge(m, entries).order
  {
    DeduplicateKeeps(entries);
    MergeOrder(m, Deduplicate(entries));
    MergeOrder(m, entries);
    AddNewTwice(m.order, IdsOf(entries));
  }

  lemma {:induction false} MergeDeduplicatedIff(m: ByNode, entries: seq<Discovered>)
    requires m.Valid()
    ensures Merge(m, Deduplicate(entries)).Valid() && Merge(m, entries).Valid()
    ensures Merge(m, Deduplicate(entries)).Values() == Merge(m, entries).Values()
      <==> forall id :: id in m.data ==> !Masked(m.data[id], entries, id)
  {
    var a, b := Merge(m, Deduplicate(entries)), Merge(m, entries);
    MergeDeduplicatedOrder(m, entries);
    SameValuesIff(a, b);
    forall id ensures a.Get(id) == b.Get(id) <==> (id in m.data ==> !Masked(m.data[id], entries, id)) {
      MergeGet(m, Deduplicate(entries), id);
      MergeGet(m, entries, id);
      if id in m.data { HeldAlikeIff(m.data[id], entries, id); } else { HeldDeduplicated(None, entries, id); }
    }
  }

  /** Deduplicating twice changes nothing more. */
  lemma {:induction false} DeduplicateIdempotent(xs: seq<Discovered>)
    ensures Deduplicate(Deduplicate(xs)) == Deduplicate(xs)
  {
    MergeDeduplicatedIff(EMPTY, xs);
  }

  /** Deduplicating the parts of a list first changes nothing, exactly when for no node the second part
      starts with an entry without heartbeat and goes on with one later than the first part's best. */
  lemma {:induction false} DeduplicatePartsIff(xs: seq<Discovered>, ys: seq<Discovered>)
    ensures Deduplicate(Deduplicate(xs) + Deduplicate(ys)) == Deduplicate(xs + ys)
      <==> forall id :: Best(xs, id).Some? ==> !Masked(Best(xs, id).value, ys, id)
  {
    var m, d := Merge(EMPTY, xs), Merge(EMPTY, Deduplicate(xs));
    MergeAppend(EMPTY, xs, ys);
    MergeAppend(EMPTY, Deduplicate(xs), Deduplicate(ys));
    MergeValid(EMPTY, xs);
    SameMaps(xs);
    MergeDeduplicatedIff(m, ys);
    forall id ensures m.Get(id) == Best(xs, id) { MergeGet(EMPTY, xs, id); }
    assert forall id :: id in m.data <==> m.Get(id).Some?;
  }

  lemma {:induction false} SameMaps(xs: seq<Discovered>)
    ensures Merge(EMPTY, Deduplicate(xs)) == Merge(EMPTY, xs)
  {
    var a, b := Merge(EMPTY, Deduplicate(xs)), Merge(EMPTY, xs);
    MergeDeduplicatedOrder(EMPTY, xs);
    forall id ensures a.Get(id) == b.Get(id) {
      MergeGet(EMPTY, Deduplicate(xs), id);
      MergeGet(EMPTY, xs, id);
      HeldDeduplicated(None, xs, id);
    }
    assert forall id :: id in a.data <==> a.Get(id).Some?;
    assert forall id :: id in b.data <==> b.Get(id).Some?;
    assert forall id :: id in a.data ==> Some(a.data[id]) == a.Get(id) == b.Get(id) == Some(b.data[id]);
    assert a.data == b.data;
  }

  /** An entry of one fixed node, with or without a heartbeat. */
  function Sample(heartbeat: Option<string>): Discovered {
    var lifecycle := if heartbeat.Some? then [Field("heartbeatAt", Str(heartbeat.value))] else [];
    Discovered("peer", Obj([Field("nodeId", Str("node")), Field("lifecycle", Obj(lifecycle))]))
  }

  lemma {:induction false} SampleReads(heartbeat: Option<string>)
    ensures Id(Sample(heartbeat)) == Str("node") && Heartbeat(Sample(heartbeat)) == heartbeat
  {
    var fields := Sample(heartbeat).record.fields;
    LookupAt(fields, 0);
    LookupAt(fields, 1);
    var lifecycle := fields[1].val.fields;
    if heartbeat.Some? { LookupAt(lifecycle, 0); }
  }

  /** Such lists exist: a dated entry, and a list that starts undated and goes on with a later one. */
  lemma {:induction false} PartsCanDiffer()
    ensures var xs, ys := [Sample(Some("1"))], [Sample(None), Sample(Some("2"))];
      Deduplicate(Deduplicate(xs) + Deduplicate(ys)) != Deduplicate(xs + ys)
  {
    var b, u, e := Sample(Some("1")), Sample(None), Sample(Some("2"));
    SampleReads(Some("1"));
    SampleReads(None);
    SampleReads(Some("2"));
    assert Later(e, b);
    MaskedByUndated(b, u, e, Str("node"));
    DeduplicatePartsIff([b], [u, e]);
  }

  lemma {:induction false} MaskedByUndated(b: Discovered, u: Discovered, e: Discovered, id: Json)
    requires Id(b) == Id(u) == Id(e) == id && Heartbeat(u) == None && Later(e, b)
    ensures Best([b], id) == Some(b) && Masked(b, [u, e], id)
  {
    assert [b][..0] == [] && [u, e][..1] == [u] && [u][..0] == [];
    assert Held(None, [b], id) == Some(b);
    assert First([u], id) == Some(u);
    assert e in [u, e];
  }

  /** In particular for lists in which every entry has a heartbeat, as every declared record does. */
  lemma {:induction false} DeduplicateParts(xs: seq<Discovered>, ys: seq<Discovered>)
    requires forall e :: e in ys ==> Heartbeat(e).Some?
    ensures Deduplicate(Deduplicate(xs) + Deduplicate(ys)) == Deduplicate(xs + ys)
  {
    forall id | Best(xs, id).Some? ensures !Masked(Best(xs, id).value, ys, id) { var f := FirstIs(ys, id); }
    DeduplicatePartsIff(xs, ys);
  }

  // ----- the filter loop of discoverAndVerify -----

  /** The key map is a plain object whose own values are text. `dateOf` is new Date(v).getTime(), None
      for an invalid date; `usableKey` says whether a key object can be made of the text. */
  datatype Context = Context(
    networkId: string, protocol: string, publicKeys: map<string, string>, crypto: Crypto,
    dateOf: Json -> Option<int>, usableKey: string -> bool, now: int)

  /** Turning the value into text or into a date throws: its own "toString" hides the inherited one. */
  predicate Unconvertible(v: Json) {
    match v
    case Obj(fields) => "toString" in Keys(fields)
    case Arr(items) => exists i :: 0 <= i < |items| && Unconvertible(items[i])
    case _ => false
  }

  /** The property name a value is used as. */
  function KeyText(v: Json): string {
    match v
    case Undefined => "undefined"
    case Null => "null"
    case Bool(b) => if b then "true" else "false"
    case Num(_, _, _) => Print(v)
    case Str(text) => text
    case Arr(items) => Join(KeyTexts(items))
    case Obj(_) => "[object Object]"
  }

  /** Empty elements of an array are joined as empty text. */
  function KeyTexts(items: seq<Json>): seq<string> {
    if items == [] then []
    else [if Nullish(items[0]) then "" else KeyText(items[0])] + KeyTexts(items[1..])
  }

  /** record.lifecycle?.expiresAt, where reading it does not throw. */
  function Expiry(r: Json): Json { Child(Child(r, "lifecycle"), "expiresAt") }

  /** isRecordExpired, where it does not throw: an invalid date compares as not expired. */
  predicate IsRecordExpired(c: Context, r: Json) {
    var t := c.dateOf(Expiry(r));
    t.Some? && t.value <= c.now
  }

  predicate SchemaMatches(c: Context, r: Json) {
    && Child(r, "schema") == Str("animamesh.proxy.v1")
    && Child(r, "networkId") == Str(c.networkId)
    && Child(r, "protocol") == Str(c.protocol)
  }

  /** publicKeyMap[rec.publicKeyId] and the verification with what it finds. */
  function CheckKey(c: Context, r: Json): Verdict
    requires SchemaMatches(c, r)
  {
    var keyId := Child(r, "publicKeyId");
    if Unconvertible(keyId) then Threw
    else
      var name := KeyText(keyId);
      if name !in c.publicKeys then if name in INHERITED then Threw else Checked(false)
      else if c.publicKeys[name] == "" then Checked(false)
      else if !c.usableKey(c.publicKeys[name]) then Threw
      else VerifyRecordSignature(c.crypto, r.fields, c.publicKeys[name])
  }

  /** What the loop body makes of a fetched record, whatever JSON value a peer sent. */
  function Examine(c: Context, r: Json): Verdict {
    if !SchemaMatches(c, r) then Checked(false)
    else if Nullish(Child(r, "lifecycle")) then Threw
    else if Unconvertible(Expiry(r)) then Threw
    else if IsRecordExpired(c, r) then Checked(false)
    else CheckKey(c, r)
  }

  /** Results whose fetch failed or brought no record are None. The outcome is None when examining a
      record throws, which rejects the whole discovery. */
  function Valid(c: Context, results: seq<Option<Discovered>>): Option<seq<Discovered>> {
    if results == [] then Some([])
    else
      var rest := Valid(c, results[1..]);
      if results[0] == None then rest
      else match Examine(c, results[0].value.record)
        case Threw => None
        case Checked(ok) =>
          if rest == None then None else if ok then Some([results[0].value] + rest.value) else rest
  }

  function Behind(valid: seq<Discovered>, rest: Option<seq<Discovered>>): Option<seq<Discovered>> {
    match rest case None => None case Some(v) => Some(valid + v)
  }

  lemma {:induction false} BehindStep(valid: seq<Discovered>, e: Discovered, rest: Option<seq<Discovered>>)
    ensures Behind(valid + [e], rest)
         == Behind(valid, match rest case None => None case Some(v) => Some([e] + v))
  {
    if rest.Some? { assert valid + [e] + rest.value == valid + ([e] + rest.value); }
  }

  method FilterAndVerify(c: Context, results: seq<Option<Discovered>>) returns (r: Option<seq<Discovered>>)
    ensures r == match Valid(c, results) case None => None case Some(v) => Some(Deduplicate(v))
  {
    var valid: seq<Discovered> := [];
    assert results[0..] == results && Behind([], Valid(c, results)) == Valid(c, results) by {
      if Valid(c, results).Some? { assert [] + Valid(c, results).value == Valid(c, results).value; }
    }
    for i := 0 to |results|
      invariant Valid(c, results) == Behind(valid, Valid(c, results[i..]))
    {
      assert results[i..][0] == results[i] && results[i..][1..] == results[i + 1..];
      if results[i] == None { continue; }
      var entry := results[i].value;
      match Examine(c, entry.record) {
        case Threw => return None;
        case Checked(verified) =>
          if !verified { continue; }
      }
      BehindStep(valid, entry, Valid(c, results[i + 1..]));
      valid := valid + [entry];
    }
    assert valid + [] == valid;
    var d := DeduplicateByNodeId(valid);
    r := Some(d);
  }

  predicate Passes(c: Context, e: Option<Discovered>) {
    e.Some? && Examine(c, e.value.record) == Checked(true)
  }

  /** A record that no check turns away before something about it throws: it is of the schema, network
      and protocol asked for; and it has no lifecycle, or an expiresAt no date can be read from by
      conversion; or it is not expired, and its key id does not convert, names an inherited property,
      or names a key that is unusable or whose record carries a signature Buffer.from refuses. */
  predicate Breaks(c: Context, r: Json) {
    && SchemaMatches(c, r)
    && (|| Nullish(Child(r, "lifecycle"))
        || Unconvertible(Expiry(r))
        || (!IsRecordExpired(c, r) && KeyBreaks(c, Child(r, "publicKeyId"), Child(r, "signature"))))
  }

  predicate KeyBreaks(c: Context, keyId: Json, signature: Json) {
    var name := KeyText(keyId);
    || Unconvertible(keyId)
    || (name in INHERITED && name !in c.publicKeys)
    || (name in c.publicKeys && c.publicKeys[name] != ""
        && (!c.usableKey(c.publicKeys[name]) || SignatureBytes(c.crypto, signature) == None))
  }

  lemma {:induction false} ThrowsIff(c: Context, r: Json)
    ensures Examine(c, r) == Threw <==> Breaks(c, r)
  {
  }

  predicate BreaksAt(c: Context, results: seq<Option<Discovered>>, i: nat)
    requires i < |results|
  {
    results[i].Some? && Breaks(c, results[i].value.record)
  }

  lemma {:induction false} ValidFailsIff(c: Context, results: seq<Option<Discovered>>)
    ensures Valid(c, results) == None <==> exists i :: 0 <= i < |results| && BreaksAt(c, results, i)
  {
    if results != [] {
      var rest := results[1..];
      ValidFailsIff(c, rest);
      if results[0].Some? { ThrowsIff(c, results[0].value.record); }
      assert BreaksAt(c, results, 0) <==> results[0].Some? && Examine(c, results[0].value.record) == Threw;
      assert forall i :: 0 <= i < |rest| ==> BreaksAt(c, rest, i) == BreaksAt(c, results, i + 1);
      assert forall i :: 0 < i < |results| ==> BreaksAt(c, results, i) == BreaksAt(c, rest, i - 1);
    }
  }

  lemma {:induction false} ValidIs(c: Context, results: seq<Option<Discovered>>)
    requires Valid(c, results).Some?
    ensures forall e :: e in Valid(c, results).value <==> Some(e) in results && Passes(c, Some(e))
  {
    if results != [] {
      ValidIs(c, results[1..]);
      assert results == [results[0]] + results[1..];
    }
  }

  /** Discovery fails as a whole exactly when one of the fetched records breaks the loop. Otherwise it
      returns entries that pass every check, one for each node that has one, and none that passed is
      later than the one returned. */
  lemma {:induction false} DiscoveryIs(c: Context, results: seq<Option<Discovered>>)
    ensures Valid(c, results) == None <==> exists i :: 0 <= i < |results| && BreaksAt(c, results, i)
    ensures Valid(c, results).Some? ==>
      var r := Deduplicate(Valid(c, results).value);
      && Distinct(IdsOf(r))
      && (forall e :: e in r ==> Some(e) in results && Passes(c, Some(e)))
      && (forall e :: Some(e) in results && Passes(c, Some(e)) ==>
            exists d :: d in r && Id(d) == Id(e) && !Later(e, d))
  {
    ValidFailsIff(c, results);
    if Valid(c, results).Some? {
      ValidIs(c, results);
      var v := Valid(c, results).value;
      var r := Deduplicate(v);
      DeduplicateKeeps(v);
      forall e | e in r ensures e in v { BestMember(v, Id(e)); }
      forall e | e in v ensures exists d :: d in r && Id(d) == Id(e) && !Later(e, d) {
        var d :| d in r && Id(d) == Id(e);
        BestMember(v, Id(e));
      }
    }
  }

  // ----- records that break a discovery -----

  /** A record of the right schema, network and protocol with these further fields. */
  function Sent(c: Context, more: seq<Field>): Json {
    Obj([Field("schema", Str("animamesh.proxy.v1"))]
        + ([Field("networkId", Str(c.networkId))] + ([Field("protocol", Str(c.protocol))] + more)))
  }

  lemma {:induction false} SentReads(c: Context, more: seq<Field>, key: string)
    ensures Lookup(Sent(c, more).fields, key)
         == if key == "schema" then Str("animamesh.proxy.v1")
            else if key == "networkId" then Str(c.networkId)
            else if key == "protocol" then Str(c.protocol)
            else Lookup(more, key)
  {
    var b, d := Field("networkId", Str(c.networkId)), Field("protocol", Str(c.protocol));
    LookupCons(Field("schema", Str("animamesh.proxy.v1")), [b] + ([d] + more), key);
    LookupCons(b, [d] + more, key);
    LookupCons(d, more, key);
  }

  lemma {:induction false} SentMatches(c: Context, more: seq<Field>)
    ensures SchemaMatches(c, Sent(c, more))
  {
    SentReads(c, more, "schema");
    SentReads(c, more, "networkId");
    SentReads(c, more, "protocol");
  }

  /** One such record among the results and nothing is returned. */
  lemma {:induction false} OneBreaksAll(c: Context, results: seq<Option<Discovered>>, i: nat)
    requires i < |results| && BreaksAt(c, results, i)
    ensures Valid(c, results) == None
  {
    DiscoveryIs(c, results);
  }

  /** No lifecycle. */
  lemma {:induction false} NoLifecycleBreaks(c: Context, peerId: string)
    ensures Valid(c, [Some(Discovered(peerId, Sent(c, [])))]) == None
  {
    SentMatches(c, []);
    SentReads(c, [], "lifecycle");
    OneBreaksAll(c, [Some(Discovered(peerId, Sent(c, [])))], 0);
  }

  /** A record that is of the schema asked for and not expired, so that its key is looked up. */
  predicate ReachesKey(c: Context, r: Json) {
    && SchemaMatches(c, r) && !Nullish(Child(r, "lifecycle"))
    && !Unconvertible(Expiry(r)) && !IsRecordExpired(c, r)
  }

  lemma {:induction false} BreaksAtKeyIff(c: Context, r: Json, keyId: Json, signature: Json)
    requires ReachesKey(c, r) && keyId == Child(r, "publicKeyId") && signature == Child(r, "signature")
    ensures Breaks(c, r) <==> KeyBreaks(c, keyId, signature)
  {
  }

  /** The fields of a record with this expiry and key id. */
  function KeyFields(expiresAt: Json, keyId: Json, signature: Json): seq<Field> {
    [Field("lifecycle", Obj([Field("expiresAt", expiresAt)]))]
    + ([Field("publicKeyId", keyId)] + [Field("signature", signature)])
  }

  lemma {:induction false} KeyFieldsRead(expiresAt: Json, keyId: Json, signature: Json)
    ensures var more := KeyFields(expiresAt, keyId, signature);
      && Lookup(more, "lifecycle").Obj? && Child(Lookup(more, "lifecycle"), "expiresAt") == expiresAt
      && Lookup(more, "publicKeyId") == keyId && Lookup(more, "signature") == signature
  {
    var life, id, last := Field("lifecycle", Obj([Field("expiresAt", expiresAt)])), Field("publicKeyId", keyId),
      [Field("signature", signature)];
    LookupCons(life, [id] + last, "lifecycle");
    LookupCons(life, [id] + last, "publicKeyId");
    LookupCons(life, [id] + last, "signature");
    LookupCons(id, last, "publicKeyId");
    LookupCons(id, last, "signature");
  }

  lemma {:induction false} Unexpired(c: Context, r: Json, lifecycle: Json, expiresAt: Json)
    requires SchemaMatches(c, r) && Child(r, "lifecycle") == lifecycle
    requires lifecycle.Obj? && Child(lifecycle, "expiresAt") == expiresAt
    requires !Unconvertible(expiresAt) && (c.dateOf(expiresAt) == None || c.dateOf(expiresAt).value > c.now)
    ensures ReachesKey(c, r)
  {
  }

  /** A key id that names an inherited property. */
  lemma {:induction false} InheritedKeyBreaks(c: Context, peerId: string, expiresAt: Json, signature: Json)
    requires "constructor" !in c.publicKeys
    requires !Unconvertible(expiresAt) && (c.dateOf(expiresAt) == None || c.dateOf(expiresAt).value > c.now)
    ensures var r := Sent(c, KeyFields(expiresAt, Str("constructor"), signature));
      Valid(c, [Some(Discovered(peerId, r))]) == None
  {
    var more := KeyFields(expiresAt, Str("constructor"), signature);
    KeyFieldsRead(expiresAt, Str("constructor"), signature);
    KeyNameBreaks(c, peerId, more, expiresAt, signature);
  }

  lemma {:induction false} KeyNameBreaks(c: Context, peerId: string, more: seq<Field>, expiresAt: Json, signature: Json)
    requires "constructor" !in c.publicKeys
    requires Lookup(more, "lifecycle").Obj? && Child(Lookup(more, "lifecycle"), "expiresAt") == expiresAt
    requires Lookup(more, "publicKeyId") == Str("constructor") && Lookup(more, "signature") == signature
    requires !Unconvertible(expiresAt) && (c.dateOf(expiresAt) == None || c.dateOf(expiresAt).value > c.now)
    ensures Valid(c, [Some(Discovered(peerId, Sent(c, more)))]) == None
  {
    SentMatches(c, more);
    SentReads(c, more, "lifecycle");
    SentReads(c, more, "publicKeyId");
    SentReads(c, more, "signature");
    InheritedBreaks(c, Sent(c, more), Lookup(more, "lifecycle"), expiresAt, signature);
    OneBreaksAll(c, [Some(Discovered(peerId, Sent(c, more)))], 0);
  }

  lemma {:induction false} InheritedBreaks(c: Context, r: Json, lifecycle: Json, expiresAt: Json, signature: Json)
    requires "constructor" !in c.publicKeys && SchemaMatches(c, r) && Child(r, "lifecycle") == lifecycle
    requires lifecycle.Obj? && Child(lifecycle, "expiresAt") == expiresAt
    requires Child(r, "publicKeyId") == Str("constructor") && Child(r, "signature") == signature
    requires !Unconvertible(expiresAt) && (c.dateOf(expiresAt) == None || c.dateOf(expiresAt).value > c.now)
    ensures Breaks(c, r)
  {
    Unexpired(c, r, lifecycle, expiresAt);
    BreaksAtKeyIff(c, r, Str("constructor"), signature);
    InheritedName(c, signature);
  }

  lemma {:induction false} InheritedName(c: Context, signature: Json)
    requires "constructor" !in c.publicKeys
    ensures KeyBreaks(c, Str("constructor"), signature)
  {
    assert INHERITED[0] == "constructor";
  }

  /** Under a known key a record breaks discovery exactly when its signature is neither text nor an
      array or object that Buffer.from accepts. */
  lemma {:induction false} SignatureBreaksIff(c: Context, r: Json, keyId: string, signature: Json)
    requires ReachesKey(c, r) && Child(r, "publicKeyId") == Str(keyId) && Child(r, "signature") == signature
    requires keyId in c.publicKeys && c.publicKeys[keyId] != "" && c.usableKey(c.publicKeys[keyId])
    ensures Breaks(c, r) <==>
      !signature.Str? && (signature.Arr? || signature.Obj? ==> c.crypto.bytesOf(signature) == None)
  {
    BreaksAtKeyIff(c, r, Str(keyId), signature);
  }
}
