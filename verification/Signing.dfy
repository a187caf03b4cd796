/**
  From canonical text to the bytes a signature covers (protocol/v1/canonical.go:111-159): UTF-8, the
  omission of the signature member, and the domain prefix.
  */
module Signing {
  import opened Outcomes
  import JsonTree
  import MemberOrder
  import opened CanonicalJson
  import CanonicalWriter

  // ---- UTF-8 ----

  function Bytes(c: char): (bs: seq<int>)
    ensures 1 <= |bs| <= 4
    ensures forall i :: 0 <= i < |bs| ==> 0 <= bs[i] < 256
  {
    var v := c as int;
    if v < 0x80 then [v]
    else if v < 0x800 then [0xC0 + v / 0x40, 0x80 + v % 0x40]
    else if v < 0x10000 then [0xE0 + v / 0x1000, 0x80 + v / 0x40 % 0x40, 0x80 + v % 0x40]
    else [0xF0 + v / 0x40000, 0x80 + v / 0x1000 % 0x40, 0x80 + v / 0x40 % 0x40, 0x80 + v % 0x40]
  }

  function Utf8(s: string): seq<int> {
    if s == "" then [] else Bytes(s[0]) + Utf8(s[1..])
  }

  /** The scalar value a leading byte sequence stands for, and its length. */
  function Decoded(bs: seq<int>): (int, nat)
    requires bs != []
  {
    if bs[0] < 0x80 then (bs[0], 1)
    else if bs[0] < 0xE0 && |bs| >= 2 then ((bs[0] - 0xC0) * 0x40 + (bs[1] - 0x80), 2)
    else if bs[0] < 0xF0 && |bs| >= 3 then ((bs[0] - 0xE0) * 0x1000 + (bs[1] - 0x80) * 0x40 + (bs[2] - 0x80), 3)
    else if |bs| >= 4 then
      ((bs[0] - 0xF0) * 0x40000 + (bs[1] - 0x80) * 0x1000 + (bs[2] - 0x80) * 0x40 + (bs[3] - 0x80), 4)
    else (0, 1)
  }

  lemma DecodedInverts(c: char, rest: seq<int>)
    ensures Decoded(Bytes(c) + rest) == (c as int, |Bytes(c)|)
  {
    var own, bs := Bytes(c), Bytes(c) + rest;
    assert bs[0] == own[0];
    assert |own| > 1 ==> bs[1] == own[1];
    assert |own| > 2 ==> bs[2] == own[2];
    assert |own| > 3 ==> bs[3] == own[3];
    Recombined(c as int);
  }

  /** A number put together again from its six-bit groups. */
  lemma Recombined(v: nat)
    ensures v == v / 0x40 * 0x40 + v % 0x40
    ensures v == v / 0x1000 * 0x1000 + v / 0x40 % 0x40 * 0x40 + v % 0x40
    ensures v == v / 0x40000 * 0x40000 + v / 0x1000 % 0x40 * 0x1000 + v / 0x40 % 0x40 * 0x40 + v % 0x40
  {
    SixBits(v, v + 1);
    var x, y := v / 0x40, v / 0x1000;
    assert x == y * 0x40 + x % 0x40;
    assert y == y / 0x40 * 0x40 + y % 0x40;
  }

  lemma {:induction false} Utf8Injective(s: string, t: string)
    requires Utf8(s) == Utf8(t)
    ensures s == t
  {
    if s != "" && t != "" {
      DecodedInverts(s[0], Utf8(s[1..]));
      DecodedInverts(t[0], Utf8(t[1..]));
      assert Utf8(s[1..]) == Utf8(s)[|Bytes(s[0])|..];
      assert Utf8(t[1..]) == Utf8(t)[|Bytes(t[0])|..];
      Utf8Injective(s[1..], t[1..]);
      assert s == [s[0]] + s[1..] && t == [t[0]] + t[1..];
    }
  }

  // ---- Byte order ----

  /** The first difference decides a lexicographic comparison. */
  lemma {:induction false} FirstDifferenceDecides(a: seq<int>, b: seq<int>, k: nat)
    requires k < |a| && k < |b| && a[..k] == b[..k] && a[k] < b[k]
    ensures MemberOrder.UnitsLess(a, b) && !MemberOrder.UnitsLess(b, a)
    decreases k
  {
    if k > 0 {
      assert a[0] == a[..k][0] == b[..k][0] == b[0];
      assert a[1..][..k - 1] == a[..k][1..] && b[1..][..k - 1] == b[..k][1..];
      FirstDifferenceDecides(a[1..], b[1..], k - 1);
    }
  }

  lemma {:induction false} CommonPrefixDropsOut(p: seq<int>, a: seq<int>, b: seq<int>)
    ensures MemberOrder.UnitsLess(p + a, p + b) == MemberOrder.UnitsLess(a, b)
    decreases |p|
  {
    if p == [] {
      assert p + a == a && p + b == b;
    } else {
      assert (p + a)[1..] == p[1..] + a && (p + b)[1..] == p[1..] + b;
      CommonPrefixDropsOut(p[1..], a, b);
    }
  }

  /** The bytes agree before k and the smaller scalar value has the smaller byte there. */
  predicate DifferAt(c: char, d: char, k: nat) {
    k < |Bytes(c)| && k < |Bytes(d)| && Bytes(c)[..k] == Bytes(d)[..k] && Bytes(c)[k] < Bytes(d)[k]
  }

  lemma BytesDiffer(c: char, d: char) returns (k: nat)
    requires c < d
    ensures DifferAt(c, d, k)
  {
    if |Bytes(c)| == |Bytes(d)| == 2 {
      SixBits(c as int, d as int);
      k := if c as int / 0x40 == d as int / 0x40 then 1 else 0;
    } else if |Bytes(c)| == |Bytes(d)| == 3 {
      k := ThreeBytesDiffer(c, d);
    } else if |Bytes(c)| == |Bytes(d)| == 4 {
      k := FourBytesDiffer(c, d);
    } else {
      k := 0;
    }
  }

  lemma ThreeBytesDiffer(c: char, d: char) returns (k: nat)
    requires c < d && |Bytes(c)| == |Bytes(d)| == 3
    ensures DifferAt(c, d, k)
  {
    var v, w := c as int, d as int;
    SixBits(v, w);
    if v / 0x40 == w / 0x40 {
      k := 2;
      assert v / 0x1000 == w / 0x1000;
    } else {
      SixBits(v / 0x40, w / 0x40);
      k := if v / 0x1000 == w / 0x1000 then 1 else 0;
    }
  }

  lemma FourBytesDiffer(c: char, d: char) returns (k: nat)
    requires c < d && |Bytes(c)| == |Bytes(d)| == 4
    ensures DifferAt(c, d, k)
  {
    var v, w := c as int, d as int;
    SixBits(v, w);
    if v / 0x40 == w / 0x40 {
      k := 3;
      assert v / 0x1000 == w / 0x1000 && v / 0x40000 == w / 0x40000;
    } else {
      SixBits(v / 0x40, w / 0x40);
      if v / 0x1000 == w / 0x1000 {
        k := 2;
        assert v / 0x40000 == w / 0x40000;
      } else {
        SixBits(v / 0x1000, w / 0x1000);
        k := if v / 0x40000 == w / 0x40000 then 1 else 0;
      }
    }
  }

  /** Of two numbers the smaller has the smaller quotient, or the same one and the smaller last six bits. */
  lemma SixBits(v: int, w: int)
    requires 0 <= v < w
    ensures v / 0x40 < w / 0x40 || (v / 0x40 == w / 0x40 && v % 0x40 < w % 0x40)
    ensures v / 0x40 / 0x40 == v / 0x1000 && w / 0x40 / 0x40 == w / 0x1000
    ensures v / 0x1000 / 0x40 == v / 0x40000 && w / 0x1000 / 0x40 == w / 0x40000
  {
  }

  /** The order of UTF-8 bytes is the order of code points, for all text. */
  lemma {:induction false} ByteOrderIsCodePointOrder(a: string, b: string)
    ensures MemberOrder.UnitsLess(Utf8(a), Utf8(b)) == MemberOrder.CodePointLess(a, b)
  {
    if a != "" && b != "" {
      if a[0] == b[0] {
        ByteOrderIsCodePointOrder(a[1..], b[1..]);
        CommonPrefixDropsOut(Bytes(a[0]), Utf8(a[1..]), Utf8(b[1..]));
      } else if a[0] < b[0] {
        FirstScalarDecides(a, b);
      } else {
        FirstScalarDecides(b, a);
      }
    }
  }

  lemma FirstScalarDecides(a: string, b: string)
    requires a != "" && b != "" && a[0] < b[0]
    ensures MemberOrder.UnitsLess(Utf8(a), Utf8(b)) && !MemberOrder.UnitsLess(Utf8(b), Utf8(a))
  {
    var k := BytesDiffer(a[0], b[0]);
    assert Utf8(a)[..k] == Bytes(a[0])[..k] && Utf8(b)[..k] == Bytes(b[0])[..k];
    FirstDifferenceDecides(Utf8(a), Utf8(b), k);
  }

  /** On member names below the surrogate range, ASCII included, the code-unit order is the byte order. */
  lemma MemberOrderIsByteOrder(a: string, b: string)
    requires MemberOrder.BelowSurrogates(a) && MemberOrder.BelowSurrogates(b)
    ensures MemberOrder.Less(a, b) == MemberOrder.UnitsLess(Utf8(a), Utf8(b))
  {
    MemberOrder.AgreesBelowSurrogates(a, b);
    ByteOrderIsCodePointOrder(a, b);
  }

  // ---- Payloads ----

  const JOB_DOMAIN := "RetentionOps-Job-v1"
  const EVIDENCE_DOMAIN := "RetentionOps-Evidence-v1"
  const CONTROL_DOMAIN := "RetentionOps-Control-v1"
  const REQUEST_DOMAIN := "RetentionOps-Request-v1"

  const DOMAINS: set<string> := {JOB_DOMAIN, EVIDENCE_DOMAIN, CONTROL_DOMAIN, REQUEST_DOMAIN}

  /** SigningPayload: the domain label, a newline, the attested bytes. */
  function SigningPayload(domain: string, body: seq<int>): seq<int> {
    Utf8(domain) + [0x0A] + body
  }

  predicate OneLine(domain: string) {
    forall i :: 0 <= i < |domain| ==> domain[i] != '\n'
  }

  lemma {:induction false} OneLineBytes(s: string)
    requires OneLine(s)
    ensures forall i :: 0 <= i < |Utf8(s)| ==> Utf8(s)[i] != 0x0A
  {
    if s != "" {
      OneLineBytes(s[1..]);
      assert forall i :: 0 <= i < |Bytes(s[0])| ==> Bytes(s[0])[i] != 0x0A;
    }
  }

  lemma PayloadInjective(domain: string, body: seq<int>, other: string, its: seq<int>)
    requires OneLine(domain) && OneLine(other)
    requires SigningPayload(domain, body) == SigningPayload(other, its)
    ensures domain == other && body == its
  {
    var p, q := SigningPayload(domain, body), SigningPayload(other, its);
    var a, b := Utf8(domain), Utf8(other);
    OneLineBytes(domain);
    OneLineBytes(other);
    assert p[|a|] == 0x0A && q[|b|] == 0x0A;
    assert forall i :: 0 <= i < |a| ==> p[i] == a[i];
    assert forall i :: 0 <= i < |b| ==> q[i] == b[i];
    assert |a| == |b|;
    assert a == p[..|a|] && b == q[..|b|];
    assert body == p[|a| + 1..] && its == q[|b| + 1..];
    Utf8Injective(domain, other);
  }

  /** What is signed for one purpose is never what is signed for another, whatever the bodies. */
  lemma DomainsSeparate(domain: string, body: seq<int>, other: string, its: seq<int>)
    requires domain in DOMAINS && other in DOMAINS
    ensures SigningPayload(domain, body) == SigningPayload(other, its) <==> domain == other && body == its
  {
    DomainIsOneLine(domain);
    DomainIsOneLine(other);
    if SigningPayload(domain, body) == SigningPayload(other, its) {
      PayloadInjective(domain, body, other, its);
    }
  }

  lemma DomainIsOneLine(domain: string)
    requires domain in DOMAINS
    ensures OneLine(domain)
  {
  }

  const SIGNATURE := "signature"

  /** CanonicalizeRawWithout, from a decoded object: the named members are deleted one by one. */
  method CanonicalizeWithout(members: map<string, JsonTree.Tree>, omit: seq<string>) returns (r: Option<string>)
    ensures r == Canonical(JsonTree.Object(members - MemberOrder.Names(omit)))
  {
    var tree := members;
    for i := 0 to |omit|
      invariant tree == members - MemberOrder.Names(omit[..i])
    {
      assert omit[..i + 1] == omit[..i] + [omit[i]];
      tree := tree - {omit[i]};
    }
    assert omit[..|omit|] == omit;
    r := CanonicalWriter.Canonicalize(JsonTree.Object(tree));
  }

  /**
    What is signed of a received object: everything but its signature member, or nothing when that
    has no canonical form.
    */
  ghost function SignedBytes(domain: string, members: map<string, JsonTree.Tree>): Option<seq<int>> {
    match Canonical(JsonTree.Object(members - {SIGNATURE}))
    case None => None
    case Some(text) => Some(SigningPayload(domain, Utf8(text)))
  }

  method SigningInput(domain: string, members: map<string, JsonTree.Tree>) returns (r: Option<seq<int>>)
    ensures r == SignedBytes(domain, members)
  {
    assert MemberOrder.Names([SIGNATURE]) == {SIGNATURE};
    var text := CanonicalizeWithout(members, [SIGNATURE]);
    return if text.None? then None else Some(SigningPayload(domain, Utf8(text.value)));
  }

  /** Two received objects mean the same, their signatures aside. */
  predicate AgreeUnsigned(members: map<string, JsonTree.Tree>, its: map<string, JsonTree.Tree>) {
    && members.Keys - {SIGNATURE} == its.Keys - {SIGNATURE}
    && forall k :: k in members && k != SIGNATURE ==> k in its && Normalize(members[k]) == Normalize(its[k])
  }

  lemma UnsignedNormalizes(members: map<string, JsonTree.Tree>)
    ensures Normalize(JsonTree.Object(members - {SIGNATURE})).Some? <==>
            forall k :: k in members && k != SIGNATURE ==> Normalize(members[k]).Some?
    ensures Normalize(JsonTree.Object(members - {SIGNATURE})).Some? ==>
              var d := Normalize(JsonTree.Object(members - {SIGNATURE})).value;
              && d.Object? && d.members.Keys == members.Keys - {SIGNATURE}
              && forall k :: k in d.members ==> Some(d.members[k]) == Normalize(members[k])
  {
    var rest := members - {SIGNATURE};
    assert forall k :: k in members && k != SIGNATURE ==> k in rest && rest[k] == members[k];
  }

  lemma AgreeMeansSameDocument(members: map<string, JsonTree.Tree>, its: map<string, JsonTree.Tree>)
    requires Normalize(JsonTree.Object(members - {SIGNATURE})).Some?
             && Normalize(JsonTree.Object(its - {SIGNATURE})).Some?
    ensures Normalize(JsonTree.Object(members - {SIGNATURE})) == Normalize(JsonTree.Object(its - {SIGNATURE}))
            <==> AgreeUnsigned(members, its)
  {
    UnsignedNormalizes(members);
    UnsignedNormalizes(its);
    var d := Normalize(JsonTree.Object(members - {SIGNATURE})).value;
    var e := Normalize(JsonTree.Object(its - {SIGNATURE})).value;
    if AgreeUnsigned(members, its) {
      assert d.members == e.members;
    } else if d == e {
      assert forall k :: k in members && k != SIGNATURE ==> k in d.members && k in e.members;
    }
  }

  /**
    A signature pins down the document: an object can be signed exactly when every member but the
    signature has a canonical form, and under one-line domains two objects have the same signed bytes
    exactly when the domains are equal and the objects agree on every member but the signature.
    */
  lemma SignedBytesDetermineDocument(domain: string, members: map<string, JsonTree.Tree>, other: string,
                                     its: map<string, JsonTree.Tree>)
    requires OneLine(domain) && OneLine(other)
    ensures SignedBytes(domain, members).Some? <==>
              forall k :: k in members && k != SIGNATURE ==> Normalize(members[k]).Some?
    ensures SignedBytes(domain, members).Some? && SignedBytes(other, its).Some? ==>
              (SignedBytes(domain, members) == SignedBytes(other, its) <==>
                 domain == other && AgreeUnsigned(members, its))
  {
    UnsignedNormalizes(members);
    if SignedBytes(domain, members).Some? && SignedBytes(other, its).Some? {
      AgreeMeansSameDocument(members, its);
      var a, b := JsonTree.Object(members - {SIGNATURE}), JsonTree.Object(its - {SIGNATURE});
      CanonicalIsInjective(a, b);
      if SignedBytes(domain, members) == SignedBytes(other, its) {
        PayloadInjective(domain, Utf8(Canonical(a).value), other, Utf8(Canonical(b).value));
        Utf8Injective(Canonical(a).value, Canonical(b).value);
      }
    }
  }
}
