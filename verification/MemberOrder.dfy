/**
  The order of object members in canonical JSON: by UTF-16 code unit (section 3.2.3 of RFC 8785;
  the encoding is section 2.1 of RFC 2781), as lessUTF16 in protocol/v1/canonical.go compares them.
  A char is a Unicode scalar value.
  */
module MemberOrder {
  /** The one or two code units of a scalar value. */
  function Units(c: char): (us: seq<int>)
    ensures 1 <= |us| <= 2
    ensures |us| == 1 ==> us[0] == c as int && !(0xD800 <= us[0] < 0xE000)
    ensures |us| == 2 ==> 0xD800 <= us[0] < 0xDC00 <= us[1] < 0xE000
    ensures |us| == 2 ==> c as int == 0x10000 + (us[0] - 0xD800) * 0x400 + (us[1] - 0xDC00)
  {
    var v := c as int;
    if v < 0x10000 then [v] else [0xD800 + (v - 0x10000) / 0x400, 0xDC00 + (v - 0x10000) % 0x400]
  }

  function Encode(s: string): seq<int> {
    if s == "" then [] else Units(s[0]) + Encode(s[1..])
  }

  function UnitsLess(a: seq<int>, b: seq<int>): bool {
    if b == [] then false
    else if a == [] then true
    else if a[0] != b[0] then a[0] < b[0]
    else UnitsLess(a[1..], b[1..])
  }

  predicate Less(left: string, right: string) {
    UnitsLess(Encode(left), Encode(right))
  }

  /** The loop of lessUTF16. */
  method LessUtf16(left: string, right: string) returns (less: bool)
    ensures less == Less(left, right)
  {
    var l, r := Encode(left), Encode(right);
    var i := 0;
    while i < |l| && i < |r|
      invariant i <= |l| && i <= |r|
      invariant UnitsLess(l, r) == UnitsLess(l[i..], r[i..])
      decreases |l| - i
    {
      if l[i] != r[i] {
        return l[i] < r[i];
      }
      assert l[i..][1..] == l[i + 1..] && r[i..][1..] == r[i + 1..];
      i := i + 1;
    }
    return |l| < |r|;
  }

  // ---- A strict total order ----

  /** Code units determine the text. */
  lemma {:induction false} EncodeInjective(s: string, t: string)
    requires Encode(s) == Encode(t)
    ensures s == t
  {
    if s != "" && t != "" {
      var a, b := Units(s[0]), Units(t[0]);
      var x, y := Encode(s[1..]), Encode(t[1..]);
      assert (a + x)[0] == a[0] && (b + y)[0] == b[0];
      assert |a| == 2 ==> (a + x)[1] == a[1];
      assert |b| == 2 ==> (b + y)[1] == b[1];
      assert |a| == |b| && s[0] == t[0];
      assert x == (a + x)[|a|..] && y == (b + y)[|b|..];
      EncodeInjective(s[1..], t[1..]);
      assert s == [s[0]] + s[1..] && t == [t[0]] + t[1..];
    }
  }

  lemma {:induction false} UnitsIrreflexive(a: seq<int>)
    ensures !UnitsLess(a, a)
  {
    if a != [] {
      UnitsIrreflexive(a[1..]);
    }
  }

  lemma {:induction false} UnitsTransitive(a: seq<int>, b: seq<int>, c: seq<int>)
    requires UnitsLess(a, b) && UnitsLess(b, c)
    ensures UnitsLess(a, c)
    decreases |b|
  {
    if a != [] && a[0] == b[0] == c[0] {
      UnitsTransitive(a[1..], b[1..], c[1..]);
    }
  }

  lemma {:induction false} UnitsConnected(a: seq<int>, b: seq<int>)
    ensures a == b || UnitsLess(a, b) || UnitsLess(b, a)
    decreases |a|
  {
    if a != [] && b != [] && a[0] == b[0] {
      UnitsConnected(a[1..], b[1..]);
      assert a == [a[0]] + a[1..] && b == [b[0]] + b[1..];
    }
  }

  /** Irreflexive, transitive, and deciding between any two different member names. */
  lemma StrictTotalOrder(a: string, b: string, c: string)
    ensures !Less(a, a)
    ensures Less(a, b) && Less(b, c) ==> Less(a, c)
    ensures a == b || Less(a, b) || Less(b, a)
    ensures !(Less(a, b) && Less(b, a))
  {
    UnitsIrreflexive(Encode(a));
    if Less(a, b) && Less(b, c) {
      UnitsTransitive(Encode(a), Encode(b), Encode(c));
    }
    if Less(a, b) && Less(b, a) {
      UnitsTransitive(Encode(a), Encode(b), Encode(a));
    }
    UnitsConnected(Encode(a), Encode(b));
    if Encode(a) == Encode(b) {
      EncodeInjective(a, b);
    }
  }

  // ---- Agreement with code point order ----

  function CodePointLess(a: string, b: string): bool {
    if b == "" then false
    else if a == "" then true
    else if a[0] != b[0] then a[0] < b[0]
    else CodePointLess(a[1..], b[1..])
  }

  /** Text below the surrogate range, which includes all ASCII. */
  predicate BelowSurrogates(s: string) {
    forall i :: 0 <= i < |s| ==> s[i] as int < 0xD800
  }

  /** On such names the order is the order of code points. */
  lemma {:induction false} AgreesBelowSurrogates(a: string, b: string)
    requires BelowSurrogates(a) && BelowSurrogates(b)
    ensures Less(a, b) == CodePointLess(a, b)
  {
    if a != "" && b != "" {
      AgreesBelowSurrogates(a[1..], b[1..]);
      assert Units(a[0]) == [a[0] as int] && Units(b[0]) == [b[0] as int];
      assert Encode(a)[1..] == Encode(a[1..]) && Encode(b)[1..] == Encode(b[1..]);
    }
  }

  /** Above it the two orders part: U+FF5E sorts after U+1F600. */
  lemma OrdersDiffer()
    ensures CodePointLess("\U{FF5E}", "\U{1F600}") && Less("\U{1F600}", "\U{FF5E}")
  {
    var a, b := "\U{FF5E}", "\U{1F600}";
    assert a[0] as int == 0xFF5E && b[0] as int == 0x1F600;
    assert Units(b[0])[0] == 0xD83D && Units(a[0])[0] == 0xFF5E;
    assert Encode(b)[0] == Units(b[0])[0] && Encode(a)[0] == Units(a[0])[0];
  }

  // ---- Sorting ----

  predicate Sorted(keys: seq<string>) {
    forall i, j :: 0 <= i < j < |keys| ==> Less(keys[i], keys[j])
  }

  function Names(keys: seq<string>): set<string> {
    set k | k in keys
  }

  /** One set of names has one sorted sequence. */
  lemma {:induction false} SortedIsUnique(a: seq<string>, b: seq<string>)
    requires Sorted(a) && Sorted(b) && Names(a) == Names(b)
    ensures a == b
    decreases |a|
  {
    if a == [] {
      if b != [] {
        SameFirst(b, a);
      }
    } else {
      SameFirst(a, b);
      RestNames(a);
      RestNames(b);
      SortedIsUnique(a[1..], b[1..]);
      assert a == [a[0]] + a[1..] && b == [b[0]] + b[1..];
    }
  }

  lemma SameFirst(a: seq<string>, b: seq<string>)
    requires Sorted(a) && Sorted(b) && Names(a) == Names(b) && a != []
    ensures b != [] && a[0] == b[0]
  {
    assert a[0] in Names(b);
    var j :| 0 <= j < |b| && b[j] == a[0];
    assert b[0] in Names(a);
    var i :| 0 <= i < |a| && a[i] == b[0];
    if i > 0 && j > 0 {
      StrictTotalOrder(a[0], b[0], a[0]);
    }
  }

  lemma RestNames(a: seq<string>)
    requires Sorted(a) && a != []
    ensures Names(a[1..]) == Names(a) - {a[0]}
  {
    StrictTotalOrder(a[0], a[0], a[0]);
    forall k | k in Names(a) && k != a[0] ensures k in a[1..] {
      var i :| 0 <= i < |a| && a[i] == k;
      assert a[1..][i - 1] == k;
    }
  }

  predicate IsLeast(least: string, keys: set<string>) {
    least in keys && forall k :: k in keys && k != least ==> Less(least, k)
  }

  lemma {:induction false} LeastExists(keys: set<string>) returns (least: string)
    requires keys != {}
    ensures IsLeast(least, keys)
    decreases |keys|
  {
    least :| least in keys;
    var rest := keys - {least};
    assert keys == rest + {least};
    if rest != {} {
      var other := LeastExists(rest);
      var first := least;
      StrictTotalOrder(first, other, first);
      if Less(other, first) {
        least := other;
      }
      forall k | k in keys && k != least ensures Less(least, k) {
        if k != first && k != other {
          assert k in rest && Less(other, k);
          StrictTotalOrder(first, other, k);
        }
      }
    }
  }

  /** The member names of an object in canonical order. */
  ghost function SortedNames(keys: set<string>): (ks: seq<string>)
    ensures Sorted(ks) && Names(ks) == keys && |ks| == |keys|
    decreases |keys|
  {
    if keys == {} then []
    else
      var least := Least(keys);
      var rest := SortedNames(keys - {least});
      LeastFirst(least, rest, keys);
      [least] + rest
  }

  ghost function Least(keys: set<string>): (least: string)
    requires keys != {}
    ensures IsLeast(least, keys)
  {
    assert exists k :: IsLeast(k, keys) by {
      var k := LeastExists(keys);
    }
    var k :| IsLeast(k, keys);
    k
  }

  lemma LeastFirst(least: string, rest: seq<string>, keys: set<string>)
    requires IsLeast(least, keys) && Sorted(rest) && Names(rest) == keys - {least}
    ensures Sorted([least] + rest) && Names([least] + rest) == keys
  {
    assert forall i :: 0 <= i < |rest| ==> rest[i] in Names(rest);
    forall k ensures k in Names([least] + rest) <==> k in keys {
      assert k in [least] + rest <==> k == least || k in rest;
      assert k in Names(rest) <==> k in rest;
    }
  }

  /** The key slice, sorted: whatever order the map was iterated in, the result is the same. */
  method SortKeys(collected: seq<string>) returns (keys: seq<string>)
    requires forall i, j :: 0 <= i < j < |collected| ==> collected[i] != collected[j]
    ensures keys == SortedNames(Names(collected))
  {
    keys := [];
    for n := 0 to |collected|
      invariant Sorted(keys) && Names(keys) == Names(collected[..n])
    {
      var key := collected[n];
      assert collected[..n + 1] == collected[..n] + [key];
      assert key !in Names(collected[..n]);
      keys := Insert(keys, key);
    }
    assert collected[..|collected|] == collected;
    SortedIsUnique(keys, SortedNames(Names(collected)));
  }

  method Insert(keys: seq<string>, key: string) returns (r: seq<string>)
    requires Sorted(keys) && key !in Names(keys)
    ensures Sorted(r) && Names(r) == Names(keys) + {key}
  {
    var i := 0;
    while i < |keys|
      invariant i <= |keys| && forall k :: 0 <= k < i ==> Less(keys[k], key)
    {
      var less := LessUtf16(keys[i], key);
      if !less {
        break;
      }
      i := i + 1;
    }
    InsertIsSorted(keys, key, i);
    r := keys[..i] + [key] + keys[i..];
  }

  lemma InsertIsSorted(keys: seq<string>, key: string, i: nat)
    requires Sorted(keys) && key !in Names(keys) && i <= |keys|
    requires forall k :: 0 <= k < i ==> Less(keys[k], key)
    requires i < |keys| ==> !Less(keys[i], key)
    ensures Sorted(keys[..i] + [key] + keys[i..])
    ensures Names(keys[..i] + [key] + keys[i..]) == Names(keys) + {key}
  {
    var r := keys[..i] + [key] + keys[i..];
    forall k | i <= k < |keys| ensures Less(key, keys[k]) {
      assert keys[i] in Names(keys);
      StrictTotalOrder(key, keys[i], keys[k]);
    }
    forall a, b | 0 <= a < b < |r| ensures Less(r[a], r[b]) {
      assert r[a] == if a < i then keys[a] else if a == i then key else keys[a - 1];
      assert r[b] == if b < i then keys[b] else if b == i then key else keys[b - 1];
    }
    assert keys == keys[..i] + keys[i..];
    forall k ensures k in r <==> k in keys || k == key {
    }
  }
}
