/** The registered keys, by the prefixes under which they lie. */
module KeyPrefixes {
  import opened Events
  import opened Schema

  /** All of the dht and tunnel keys, but of the keyspace keys only those of four families. */
  predicate Prefixed(key: string) {
    || "dht." <= key || "node." <= key || "ghost." <= key
    || "keyspace.vless." <= key || "keyspace.hysteria2." <= key || "keyspace.tombstone." <= key
    || "keyspace.orphan." <= key
    || "tunnel." <= key || "bootstrap.peer." <= key || "spec." <= key || "env." <= key
  }

  /** A key of the registry is cut after its last dot. */
  lemma {:induction false} Cut(k: string, stem: string, last: string, key: string)
    requires k == stem + last && stem != "" && stem[|stem| - 1] == '.' && '.' !in last
    ensures Under(k, key) <==> stem <= key
  {
    var i := |stem| - 1;
    forall j | i < j < |k| ensures k[j] != '.' { assert k[j] == last[j - |stem|]; }
    LastDotIs(k, i);
    assert k[..i] + "." == stem;
  }

  lemma {:induction false} CutDht(i: nat, key: string)
    requires i < 7
    ensures Under(CANONICAL_KEYS[i], key) ==> "dht." <= key
    ensures i == 5 && "dht." <= key ==> Under(CANONICAL_KEYS[i], key)
  {
    match i
    case 0 => Cut(CANONICAL_KEYS[0], "dht.peer.", "count", key);
    case 1 => Cut(CANONICAL_KEYS[1], "dht.peer.count.", "bootstrap", key);
    case 2 => Cut(CANONICAL_KEYS[2], "dht.peer.count.", "sim", key);
    case 3 => Cut(CANONICAL_KEYS[3], "dht.active.", "nodes", key);
    case 4 => Cut(CANONICAL_KEYS[4], "dht.orphan.", "keys", key);
    case 5 => Cut(CANONICAL_KEYS[5], "dht.", "announced", key);
    case 6 => Cut(CANONICAL_KEYS[6], "dht.state.", "clean", key);
  }

  lemma {:induction false} CutKeyspace(key: string)
    ensures Under(CANONICAL_KEYS[9], key) <==> "keyspace.vless." <= key
    ensures Under(CANONICAL_KEYS[10], key) <==> "keyspace.hysteria2." <= key
    ensures Under(CANONICAL_KEYS[11], key) <==> "keyspace.tombstone." <= key
    ensures Under(CANONICAL_KEYS[12], key) <==> "keyspace.orphan." <= key
  {
    Cut(CANONICAL_KEYS[9], "keyspace.vless.", "count", key);
    Cut(CANONICAL_KEYS[10], "keyspace.hysteria2.", "count", key);
    Cut(CANONICAL_KEYS[11], "keyspace.tombstone.", "count", key);
    Cut(CANONICAL_KEYS[12], "keyspace.orphan.", "keys", key);
  }

  lemma {:induction false} CutTunnel(key: string)
    ensures Under(CANONICAL_KEYS[13], key) <==> "tunnel." <= key
    ensures Under(CANONICAL_KEYS[14], key) <==> "tunnel." <= key
    ensures Under(CANONICAL_KEYS[15], key) <==> "tunnel." <= key
    ensures Under(CANONICAL_KEYS[16], key) <==> "tunnel." <= key
  {
    Cut(CANONICAL_KEYS[13], "tunnel.", "status", key);
    Cut(CANONICAL_KEYS[14], "tunnel.", "provider", key);
    Cut(CANONICAL_KEYS[15], "tunnel.", "host", key);
    Cut(CANONICAL_KEYS[16], "tunnel.", "port", key);
  }

  lemma {:induction false} CutShort(key: string)
    ensures Under(CANONICAL_KEYS[7], key) <==> "node." <= key
    ensures Under(CANONICAL_KEYS[8], key) <==> "ghost." <= key
    ensures Under(CANONICAL_KEYS[17], key) <==> "bootstrap.peer." <= key
    ensures Under(CANONICAL_KEYS[18], key) <==> "spec." <= key
    ensures Under(CANONICAL_KEYS[20], key) <==> "env." <= key
  {
    Cut(CANONICAL_KEYS[7], "node.", "status", key);
    Cut(CANONICAL_KEYS[8], "ghost.", "count", key);
    Cut(CANONICAL_KEYS[17], "bootstrap.peer.", "status", key);
    Cut(CANONICAL_KEYS[18], "spec.", "alignment", key);
    Cut(CANONICAL_KEYS[20], "env.", "fingerprint", key);
  }

  lemma {:induction false} UnderPrefixed(i: nat, key: string)
    requires i < 21 && i != 19 && Under(CANONICAL_KEYS[i], key)
    ensures Prefixed(key)
  {
    if i < 7 {
      CutDht(i, key);
    } else if 9 <= i < 13 {
      CutKeyspace(key);
    } else if 13 <= i < 17 {
      CutTunnel(key);
    } else {
      CutShort(key);
    }
  }

  lemma {:induction false} PrefixedUnder(key: string) returns (i: nat)
    requires Prefixed(key)
    ensures i < 21 && Under(CANONICAL_KEYS[i], key)
  {
    CutDht(5, key);
    CutKeyspace(key);
    CutTunnel(key);
    CutShort(key);
    i := if "dht." <= key then 5 else if "node." <= key then 7 else if "ghost." <= key then 8
         else if "keyspace.vless." <= key then 9 else if "keyspace.hysteria2." <= key then 10
         else if "keyspace.tombstone." <= key then 11 else if "keyspace.orphan." <= key then 12
         else if "tunnel." <= key then 13 else if "bootstrap.peer." <= key then 17
         else if "spec." <= key then 18 else 20;
  }

  lemma {:induction false} UnderItself(k: string)
    requires '.' in k
    ensures Under(k, k)
  {
    assert k[..LastDot(k)] + "." == k[..LastDot(k) + 1];
  }

  lemma {:induction false} KeyAt(key: string) returns (i: nat)
    requires Registered(key) && '.' in key
    ensures i < 21 && i != 19 && Under(CANONICAL_KEYS[i], key)
  {
    if j :| 0 <= j < |CANONICAL_KEYS| && Under(CANONICAL_KEYS[j], key) {
      i := j;
    } else {
      i :| i < |CANONICAL_KEYS| && CANONICAL_KEYS[i] == key;
      UnderItself(key);
    }
  }

  /** A key is registered exactly when it is "correction" or starts with one of eleven prefixes. */
  lemma {:induction false} RegisteredIff(key: string)
    ensures Registered(key) <==> key == "correction" || Prefixed(key)
  {
    if Registered(key) && '.' in key {
      var i := KeyAt(key);
      UnderPrefixed(i, key);
    } else if Prefixed(key) {
      var i := PrefixedUnder(key);
    } else if '.' !in key {
      RegisteredHasDot(key);
    } else {
      assert '.' !in "correction";
    }
  }

  // ----- normalizing -----

  /** ASCII letters in lower case, a hyphen or an underscore as a dot, any other character as it is. */
  predicate Becomes(c: char, d: char) {
    if 65 <= c as int <= 90 then d as int == c as int + 32
    else if c in {'-', '_'} then d == '.'
    else d == c
  }

  ghost predicate Spells(raw: string, key: string) {
    |key| == |raw| && forall i :: 0 <= i < |raw| ==> Becomes(raw[i], key[i])
  }

  lemma {:induction false} CanonicalSpells(raw: string, key: string)
    ensures key == Canonical(raw) <==> Spells(raw, key)
  {
    CamelRuleIsDead(raw);
    var r := Dots(ToLower(raw));
    forall i | 0 <= i < |raw| ensures forall d :: Becomes(raw[i], d) <==> d == r[i] { }
    if Spells(raw, key) { assert forall i :: 0 <= i < |raw| ==> key[i] == r[i]; }
  }

  /** A key is accepted exactly when what it spells is registered, and becomes that. */
  lemma {:induction false} NormalizeIff(raw: string, key: string)
    ensures NormalizeKey(raw) == Some(key) <==> Spells(raw, key) && (key == "correction" || Prefixed(key))
  {
    CanonicalSpells(raw, key);
    RegisteredIff(key);
  }
}
