/** The canonical key registry. */
module Schema {
  import opened Events

  const CANONICAL_KEYS: seq<string> := [
    "dht.peer.count", "dht.peer.count.bootstrap", "dht.peer.count.sim", "dht.active.nodes",
    "dht.orphan.keys", "dht.announced", "dht.state.clean",
    "node.status",
    "ghost.count",
    "keyspace.vless.count", "keyspace.hysteria2.count", "keyspace.tombstone.count", "keyspace.orphan.keys",
    "tunnel.status", "tunnel.provider", "tunnel.host", "tunnel.port",
    "bootstrap.peer.status",
    "spec.alignment",
    "correction", "env.fingerprint"
  ]

  // ----- the replace chain -----

  predicate IsLower(c: char) { 'a' <= c <= 'z' }

  predicate IsUpper(c: char) { 'A' <= c <= 'Z' }

  function LowerChar(c: char): char { if IsUpper(c) then c - 'A' + 'a' else c }

  function DotChar(c: char): char { if c == '-' || c == '_' then '.' else c }

  function ToLower(s: string): (r: string)
    ensures |r| == |s| && forall i :: 0 <= i < |s| ==> r[i] == LowerChar(s[i])
  {
    if s == "" then "" else [LowerChar(s[0])] + ToLower(s[1..])
  }

  /** .replace(/-/g, ".").replace(/_/g, ".") */
  function Dots(s: string): (r: string)
    ensures |r| == |s| && forall i :: 0 <= i < |s| ==> r[i] == DotChar(s[i])
  {
    if s == "" then "" else [DotChar(s[0])] + Dots(s[1..])
  }

  /** .replace(/([a-z])([A-Z])/g, ...): a dot between a lower- and an upper-case letter. */
  function CamelDots(s: string): string {
    if |s| < 2 then s
    else if IsLower(s[0]) && IsUpper(s[1]) then [s[0], '.', LowerChar(s[1])] + CamelDots(s[2..])
    else [s[0]] + CamelDots(s[1..])
  }

  function Canonical(raw: string): string { CamelDots(Dots(ToLower(raw))) }

  // ----- lookup -----

  /** The index of the last dot, or -1. */
  function LastDot(s: string): (r: int)
    ensures -1 <= r < |s|
    ensures r >= 0 ==> s[r] == '.'
    ensures '.' in s ==> r >= 0
  {
    if s == "" then -1
    else if s[|s| - 1] == '.' then |s| - 1
    else
      assert s == s[..|s| - 1] + [s[|s| - 1]];
      LastDot(s[..|s| - 1])
  }

  /** key.startsWith(prefix + "."), the prefix being a canonical key without its last segment. */
  predicate Under(k: string, key: string) {
    '.' in k && k[..LastDot(k)] + "." <= key
  }

  predicate Registered(key: string) {
    key in CANONICAL_KEYS || exists i :: 0 <= i < |CANONICAL_KEYS| && Under(CANONICAL_KEYS[i], key)
  }

  /** None stands for the thrown error. */
  function NormalizeKey(raw: string): Option<string> {
    var key := Canonical(raw);
    if Registered(key) then Some(key) else None
  }

  predicate IsValidKey(raw: string) { NormalizeKey(raw).Some? }

  method NormalizeKeyLoop(raw: string) returns (r: Option<string>)
    ensures r == NormalizeKey(raw)
  {
    var key := CamelDots(Dots(ToLower(raw)));
    if key in CANONICAL_KEYS { return Some(key); }
    for i := 0 to |CANONICAL_KEYS|
      invariant forall j :: 0 <= j < i ==> !Under(CANONICAL_KEYS[j], key)
    {
      if Under(CANONICAL_KEYS[i], key) { return Some(key); }
    }
    return None;
  }

  // ----- laws -----

  lemma {:induction false} CamelDotsLower(s: string)
    requires forall i :: 0 <= i < |s| ==> !IsUpper(s[i])
    ensures CamelDots(s) == s
  {
    if |s| >= 2 {
      CamelDotsLower(s[1..]);
      assert s == [s[0]] + s[1..];
    }
  }

  /** The text is lower-cased first, so the camel-case rule never applies. */
  lemma {:induction false} CamelRuleIsDead(raw: string)
    ensures Canonical(raw) == Dots(ToLower(raw))
  {
    CamelDotsLower(Dots(ToLower(raw)));
  }

  /** Normalizing a normalized key gives it back; so a key the ledger wrote is valid. */
  lemma {:induction false} NormalizeIdempotent(raw: string)
    ensures Canonical(Canonical(raw)) == Canonical(raw)
    ensures NormalizeKey(raw).Some? ==> NormalizeKey(NormalizeKey(raw).value) == NormalizeKey(raw)
  {
    CamelRuleIsDead(raw);
    var key := Dots(ToLower(raw));
    CamelRuleIsDead(key);
    assert Dots(ToLower(key)) == key;
  }

  lemma {:induction false} DotInKeys(i: nat)
    requires i < |CANONICAL_KEYS| && CANONICAL_KEYS[i] != "correction"
    ensures '.' in CANONICAL_KEYS[i]
  {
    var k := CANONICAL_KEYS[i];
    assert k[3] == '.' || k[4] == '.' || k[5] == '.' || k[6] == '.' || k[8] == '.' || k[9] == '.';
  }

  lemma {:induction false} UnderHasDot(k: string, key: string)
    requires Under(k, key)
    ensures '.' in key
  {
    var p := k[..LastDot(k)] + ".";
    assert p[|p| - 1] == '.' && key[|p| - 1] == p[|p| - 1];
  }

  lemma {:induction false} RegisteredHasDot(key: string)
    requires '.' !in key
    ensures Registered(key) <==> key == "correction"
  {
    forall i | 0 <= i < |CANONICAL_KEYS| ensures !Under(CANONICAL_KEYS[i], key) {
      if Under(CANONICAL_KEYS[i], key) { UnderHasDot(CANONICAL_KEYS[i], key); }
    }
    if key in CANONICAL_KEYS && key != "correction" {
      var i :| 0 <= i < |CANONICAL_KEYS| && CANONICAL_KEYS[i] == key;
      DotInKeys(i);
    }
  }

  /** The documented DHTPeerCount -> dht.peer.count does not happen: a key written without a
      separator is accepted exactly when it spells "correction". */
  lemma {:induction false} CamelCaseRejected(raw: string)
    requires '-' !in raw && '_' !in raw && '.' !in raw
    ensures NormalizeKey(raw).Some? <==> ToLower(raw) == "correction"
  {
    CamelRuleIsDead(raw);
    var key := Dots(ToLower(raw));
    assert key == ToLower(raw);
    RegisteredHasDot(key);
  }

  // ----- the rules in the order that would let the camel-case rule work -----

  /** Hyphens and underscores, then camel case, then lower case. */
  function Documented(raw: string): string { ToLower(CamelDots(Dots(raw))) }

  predicate HasCamel(s: string) { exists i :: 0 <= i < |s| - 1 && IsLower(s[i]) && IsUpper(s[i + 1]) }

  lemma {:induction false} CamelGrows(s: string)
    ensures |CamelDots(s)| >= |s|
    ensures HasCamel(s) ==> |CamelDots(s)| > |s|
    ensures !HasCamel(s) ==> CamelDots(s) == s
  {
    if |s| >= 2 {
      if IsLower(s[0]) && IsUpper(s[1]) {
        CamelGrows(s[2..]);
      } else {
        CamelGrows(s[1..]);
        if i :| 0 <= i < |s| - 1 && IsLower(s[i]) && IsUpper(s[i + 1]) {
          assert s[1..][i - 1] == s[i] && s[1..][i] == s[i + 1];
        }
        if i :| 0 <= i < |s[1..]| - 1 && IsLower(s[1..][i]) && IsUpper(s[1..][i + 1]) {
          assert s[i + 1] == s[1..][i] && s[i + 2] == s[1..][i + 1];
        }
      }
    }
  }

  /** Over all keys: what the code makes of a key is what the documented rules, the camel-case rule
      included, make of it, exactly when the key has no lower-case letter before an upper-case one. */
  lemma {:induction false} DocumentedIff(raw: string)
    ensures Canonical(raw) == Documented(raw) <==> !HasCamel(Dots(raw))
  {
    CamelRuleIsDead(raw);
    CamelGrows(Dots(raw));
    assert ToLower(Dots(raw)) == Dots(ToLower(raw));
  }

  lemma {:induction false} UnderDht(key: string)
    requires "dht." <= key
    ensures Registered(key)
  {
    var k := CANONICAL_KEYS[5];
    assert k == "dht.announced" && k[3] == '.';
    LastDotIs(k, 3);
    assert k[..3] + "." == "dht.";
    assert Under(CANONICAL_KEYS[5], key);
  }

  lemma {:induction false} LastDotIs(s: string, i: nat)
    requires i < |s| && s[i] == '.' && forall j :: i < j < |s| ==> s[j] != '.'
    ensures LastDot(s) == i
  {
    if i < |s| - 1 { LastDotIs(s[..|s| - 1], i); }
  }

  /** The only camel-case place of a text. */
  lemma {:induction false} CamelOnce(a: string, l: char, u: char, b: string)
    requires !HasCamel(a + [l]) && IsLower(l) && IsUpper(u) && !HasCamel(b)
    ensures CamelDots(a + [l, u] + b) == a + [l, '.', LowerChar(u)] + b
  {
    var s := a + [l, u] + b;
    if a == "" {
      assert s[2..] == b;
      CamelGrows(b);
    } else {
      assert s[1..] == a[1..] + [l, u] + b;
      assert a[1..] + [l] == (a + [l])[1..];
      assert (a + [l])[0] == s[0] && (a + [l])[1] == s[1];
      CamelOnce(a[1..], l, u, b);
    }
  }

  lemma {:induction false} Lowered(s: string, t: string)
    requires |s| == |t| && forall i :: 0 <= i < |s| ==> t[i] == LowerChar(s[i])
    ensures ToLower(s) == t
  {
  }

  lemma {:induction false} Lowering(a: string, l: char, u: char, b: string, low: string, high: string)
    requires IsLower(l) && IsUpper(u) && ToLower(a) == low && ToLower(b) == high
    ensures ToLower(a + [l, u] + b) == low + [l, LowerChar(u)] + high
    ensures ToLower(a + [l, '.', LowerChar(u)] + b) == low + [l, '.', LowerChar(u)] + high
  {
    Lowered(a + [l, u] + b, low + [l, LowerChar(u)] + high);
    Lowered(a + [l, '.', LowerChar(u)] + b, low + [l, '.', LowerChar(u)] + high);
  }

  lemma {:induction false} DotsFirst(raw: string)
    requires Dots(raw) == raw
    ensures Canonical(raw) == ToLower(raw)
  {
    CamelRuleIsDead(raw);
    forall i | 0 <= i < |raw| ensures DotChar(LowerChar(raw[i])) == LowerChar(raw[i]) {
      assert DotChar(raw[i]) == Dots(raw)[i] == raw[i];
    }
    assert Dots(ToLower(raw)) == ToLower(raw);
  }

  /** What a key with one camel-case place becomes, and what the documented rules would make of it. */
  lemma {:induction false} OneCamel(a: string, l: char, u: char, b: string, low: string, high: string)
    requires IsLower(l) && IsUpper(u) && !HasCamel(a + [l]) && !HasCamel(b)
    requires Dots(a) == a && Dots(b) == b && ToLower(a) == low && ToLower(b) == high
    ensures Canonical(a + [l, u] + b) == low + [l, LowerChar(u)] + high
    ensures Documented(a + [l, u] + b) == low + [l, '.', LowerChar(u)] + high
  {
    assert Dots(a + [l, u] + b) == Dots(a) + [l, u] + Dots(b);
    DotsFirst(a + [l, u] + b);
    CamelOnce(a, l, u, b);
    Lowering(a, l, u, b, low, high);
  }

  lemma {:induction false} AcceptedUnderDht(raw: string, key: string)
    requires Canonical(raw) == key && |key| > 3
    requires key[0] == 'd' && key[1] == 'h' && key[2] == 't' && key[3] == '.'
    ensures NormalizeKey(raw) == Some(key)
  {
    assert key == "dht." + key[4..];
    UnderDht(key);
  }

  lemma {:induction false} DhtPart(a: string)
    requires a == "dht.pee"
    ensures ToLower(a) == a && Dots(a) == a && !HasCamel(a + ['r'])
  {
    Lowered(a, a);
  }

  lemma {:induction false} CountPart(b: string)
    requires b == "ount"
    ensures ToLower(b) == b && Dots(b) == b && !HasCamel(b)
  {
    Lowered(b, b);
  }

  lemma {:induction false} DhtPeerCount(a: string, b: string, raw: string)
    requires a == "dht.pee" && b == "ount" && raw == a + ['r', 'C'] + b
    ensures Canonical(raw) == a + ['r', 'c'] + b && Documented(raw) == a + ['r', '.', 'c'] + b
  {
    DhtPart(a);
    CountPart(b);
    OneCamel(a, 'r', 'C', b, a, b);
  }

  /** A camel-case key under a registered prefix is accepted, under another name than documented. */
  lemma {:induction false} CamelCaseRenamed(a: string, b: string, raw: string)
    requires a == "dht.pee" && b == "ount" && raw == a + ['r', 'C'] + b
    ensures NormalizeKey(raw) == Some("dht.peercount") && Documented(raw) == "dht.peer.count"
  {
    DhtPeerCount(a, b, raw);
    assert a + ['r', 'c'] + b == "dht.peercount" && a + ['r', '.', 'c'] + b == "dht.peer.count";
    AcceptedUnderDht(raw, "dht.peercount");
  }

  lemma {:induction false} UpperPart(a: string)
    requires a == "DHTPee"
    ensures ToLower(a) == "dhtpee" && Dots(a) == a && !HasCamel(a + ['r'])
  {
    Lowered(a, "dhtpee");
  }

  lemma {:induction false} UpperPeerCount(a: string, b: string, raw: string, low: string)
    requires a == "DHTPee" && low == "dhtpee" && b == "ount" && raw == a + ['r', 'C'] + b
    ensures Canonical(raw) == low + ['r', 'c'] + b && Documented(raw) == low + ['r', '.', 'c'] + b
  {
    UpperPart(a);
    CountPart(b);
    OneCamel(a, 'r', 'C', b, low, b);
  }

  lemma {:induction false} RejectedUndotted(raw: string, key: string)
    requires Canonical(raw) == key && '.' !in key && key != "correction"
    ensures NormalizeKey(raw) == None
  {
    RegisteredHasDot(key);
  }

  /** The documented example is rejected; and with the rules in an order that would let the camel-case
      rule work it would become dhtpeer.count, which is not the documented result either. */
  lemma {:induction false} DocumentedExample(a: string, b: string, raw: string)
    requires a == "DHTPee" && b == "ount" && raw == a + ['r', 'C'] + b
    ensures NormalizeKey(raw) == None && Documented(raw) == "dhtpeer.count"
  {
    var low := "dhtpee";
    UpperPeerCount(a, b, raw, low);
    assert low + ['r', 'c'] + b == "dhtpeercount" && low + ['r', '.', 'c'] + b == "dhtpeer.count";
    RejectedUndotted(raw, "dhtpeercount");
  }
}
