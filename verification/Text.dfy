/** Strings as JavaScript compares and sorts them.
    JavaScript orders strings by UTF-16 code units; a Dafny string is a sequence of Unicode
    scalar values, so Rank maps each scalar value to its place in the code-unit order. */
module Text {

  /** A supplementary character starts with a unit in D800..DBFF and so sorts before E000..FFFF. */
  function Rank(c: char): nat {
    if 0xE000 <= c as int < 0x1_0000 then c as int + 0x20_0000 else c as int
  }

  /** The JavaScript comparison a < b on strings. */
  predicate Less(a: string, b: string) {
    if b == "" then false
    else if a == "" then true
    else if a[0] == b[0] then Less(a[1..], b[1..])
    else Rank(a[0]) < Rank(b[0])
  }

  // ----- the order of UTF-16 code units -----

  /** The UTF-16 code units of a character; above FFFF, a surrogate pair. */
  function CharUnits(c: char): seq<nat> {
    if c as int < 0x1_0000 then [c as int]
    else [0xD800 + (c as int - 0x1_0000) / 0x400, 0xDC00 + (c as int - 0x1_0000) % 0x400]
  }

  function Units(s: string): seq<nat> { if s == "" then [] else CharUnits(s[0]) + Units(s[1..]) }

  predicate UnitsLess(a: seq<nat>, b: seq<nat>) {
    if b == [] then false
    else if a == [] then true
    else if a[0] == b[0] then UnitsLess(a[1..], b[1..])
    else a[0] < b[0]
  }

  lemma {:induction false} UnitsStep(a: seq<nat>, b: seq<nat>, x: nat, y: nat)
    ensures UnitsLess([x] + a, [y] + b) <==> if x == y then UnitsLess(a, b) else x < y
  {
    assert ([x] + a)[1..] == a && ([y] + b)[1..] == b;
  }

  lemma {:induction false} CharOrder(c: char, d: char, a: seq<nat>, b: seq<nat>)
    ensures c == d ==> (UnitsLess(CharUnits(c) + a, CharUnits(d) + b) <==> UnitsLess(a, b))
    ensures c != d ==> (UnitsLess(CharUnits(c) + a, CharUnits(d) + b) <==> Rank(c) < Rank(d))
  {
    var p, q := CharUnits(c), CharUnits(d);
    assert p + a == [p[0]] + (p[1..] + a) && q + b == [q[0]] + (q[1..] + b);
    UnitsStep(p[1..] + a, q[1..] + b, p[0], q[0]);
    if |p| == 2 && |q| == 2 {
      assert p[1..] + a == [p[1]] + a && q[1..] + b == [q[1]] + b;
      UnitsStep(a, b, p[1], q[1]);
    } else if |p| == 1 && |q| == 1 {
      assert p[1..] + a == a && q[1..] + b == b;
    }
  }

  /** Less is the order of the UTF-16 code units, one by one. */
  lemma {:induction false} LessIsUnitOrder(a: string, b: string)
    ensures Less(a, b) <==> UnitsLess(Units(a), Units(b))
  {
    if a != "" && b != "" {
      CharOrder(a[0], b[0], Units(a[1..]), Units(b[1..]));
      LessIsUnitOrder(a[1..], b[1..]);
    }
  }

  // ----- a strict total order -----

  lemma {:induction false} LessTransitive(a: string, b: string, c: string)
    requires Less(a, b) && Less(b, c)
    ensures Less(a, c)
  {
    if a != "" && a[0] == b[0] && b[0] == c[0] {
      LessTransitive(a[1..], b[1..], c[1..]);
    }
  }

  lemma {:induction false} LessTotal(a: string, b: string)
    ensures Less(a, b) || Less(b, a) || a == b
  {
    if a != "" && b != "" && a[0] == b[0] {
      LessTotal(a[1..], b[1..]);
      assert a == [a[0]] + a[1..] && b == [b[0]] + b[1..];
    }
  }

  lemma {:induction false} LessAsymmetric(a: string, b: string)
    requires Less(a, b)
    ensures a != b && !Less(b, a)
  {
    if a != "" && a[0] == b[0] {
      LessAsymmetric(a[1..], b[1..]);
    }
  }

  /** Object.keys(o).sort(), by insertion. */
  function SortKeys(keys: seq<string>): (r: seq<string>) {
    if keys == [] then [] else InsertKey(keys[0], SortKeys(keys[1..]))
  }

  function InsertKey(k: string, sorted: seq<string>): (r: seq<string>) {
    if sorted == [] then [k]
    else if Less(sorted[0], k) then [sorted[0]] + InsertKey(k, sorted[1..])
    else [k] + sorted
  }

  predicate Distinct<T(==)>(s: seq<T>) {
    forall i, j :: 0 <= i < j < |s| ==> s[i] != s[j]
  }

  ghost predicate Ascending(s: seq<string>) {
    forall i, j :: 0 <= i < j < |s| ==> Less(s[i], s[j])
  }

  lemma {:induction false} AscendingCons(h: string, t: seq<string>)
    requires Ascending(t) && forall x :: x in t ==> Less(h, x)
    ensures Ascending([h] + t)
  {
    var s := [h] + t;
    forall i, j | 0 <= i < j < |s| ensures Less(s[i], s[j]) {
      assert s[j] == t[j - 1];
      if i > 0 { assert s[i] == t[i - 1]; }
    }
  }

  lemma {:induction false} InsertKeyAscending(k: string, s: seq<string>)
    requires Ascending(s) && k !in s
    ensures Ascending(InsertKey(k, s))
    ensures forall x :: x in InsertKey(k, s) <==> x == k || x in s
  {
    if s != [] {
      assert forall x :: x in s[1..] ==> Less(s[0], x);
      if Less(s[0], k) {
        InsertKeyAscending(k, s[1..]);
        AscendingCons(s[0], InsertKey(k, s[1..]));
      } else {
        LessTotal(k, s[0]);
        forall x | x in s ensures Less(k, x) {
          if x != s[0] { LessTransitive(k, s[0], x); }
        }
        AscendingCons(k, s);
      }
    }
  }

  lemma {:induction false} SortKeysAscending(keys: seq<string>)
    requires Distinct(keys)
    ensures Ascending(SortKeys(keys))
    ensures forall k :: k in SortKeys(keys) <==> k in keys
  {
    if keys != [] {
      assert keys == [keys[0]] + keys[1..];
      SortKeysAscending(keys[1..]);
      InsertKeyAscending(keys[0], SortKeys(keys[1..]));
    }
  }

  /** A set of strings has one ascending arrangement: sorting forgets the order it was given. */
  lemma {:induction false} AscendingUnique(a: seq<string>, b: seq<string>)
    requires Ascending(a) && Ascending(b)
    requires forall k :: k in a <==> k in b
    ensures a == b
  {
    assert forall k :: k in b ==> k in a;
    if b != [] { assert b[0] in b; }
    if a != [] {
      assert a[0] in b;
      if a[0] != b[0] {
        assert Less(b[0], a[0]) && Less(a[0], b[0]);
        LessAsymmetric(a[0], b[0]);
      }
      forall k ensures k in a[1..] <==> k in b[1..] {
        if k in a[1..] {
          assert k in b && Less(a[0], k);
          LessAsymmetric(a[0], k);
        }
        if k in b[1..] {
          assert k in a && Less(b[0], k);
          LessAsymmetric(b[0], k);
        }
      }
      AscendingUnique(a[1..], b[1..]);
    }
  }
}
