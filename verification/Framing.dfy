/**
  The associated data of a sealed envelope (internal/sealedconfig/sealedconfig.go:87-115): each field
  as a 16-bit big-endian length and its bytes, in a fixed order. Fields are byte sequences.
  */
module Framing {
  import opened Outcomes
  import opened Sequences
  import Decimal

  type Field = seq<int>

  datatype Envelope = Envelope(
    version: int,
    envelopeId: Field,
    organization: Field,
    source: Field,
    connector: Field,
    issuedAt: Field,
    expiresAt: Field)

  function Ascii(s: string): Field {
    seq(|s|, i requires 0 <= i < |s| => s[i] as int)
  }

  const DOMAIN := "retentionops/sealed-config/v1"

  function Fields(e: Envelope): seq<Field> {
    [Ascii(DOMAIN), Ascii(Decimal.FormatInt(e.version)), e.envelopeId, e.organization, e.source, e.connector,
     e.issuedAt, e.expiresAt]
  }

  /** A length as uint16, high byte first; longer lengths wrap. */
  function Prefix(length: nat): (p: seq<int>)
    ensures |p| == 2
  {
    var n := length % 0x10000;
    [n / 256, n % 256]
  }

  function Frame(fields: seq<Field>): seq<int> {
    if fields == [] then [] else Prefix(|fields[0]|) + fields[0] + Frame(fields[1..])
  }

  /** AdditionalData: the appending loop. */
  method AdditionalData(e: Envelope) returns (out: seq<int>)
    ensures out == Frame(Fields(e))
  {
    var fields := Fields(e);
    out := [];
    for i := 0 to |fields|
      invariant out + Frame(fields[i..]) == Frame(fields)
    {
      FrameStep(out, fields, i);
      out := out + Prefix(|fields[i]|);
      out := out + fields[i];
    }
    assert out + [] == out;
  }

  lemma FrameStep(out: seq<int>, fields: seq<Field>, i: nat)
    requires i < |fields|
    ensures out + Frame(fields[i..]) == out + Prefix(|fields[i]|) + fields[i] + Frame(fields[i + 1..])
  {
    assert fields[i..][1..] == fields[i + 1..];
    var p, f, rest := Prefix(|fields[i]|), fields[i], Frame(fields[i + 1..]);
    Regroup(out, p, f);
    Regroup(out, p + f, rest);
  }

  /** Reads count fields back. */
  function Unframe(bytes: seq<int>, count: nat): Option<seq<Field>>
    decreases count
  {
    if count == 0 then (if bytes == [] then Some([]) else None)
    else if |bytes| < 2 then None
    else
      var n := bytes[0] * 256 + bytes[1];
      if !(0 <= n <= |bytes| - 2) then None
      else
        match Unframe(bytes[2 + n..], count - 1)
        case None => None
        case Some(rest) => Some([bytes[2..2 + n]] + rest)
  }

  predicate Short(fields: seq<Field>) {
    forall i :: 0 <= i < |fields| ==> |fields[i]| < 0x10000
  }

  lemma {:induction false} UnframeInverts(fields: seq<Field>)
    requires Short(fields)
    ensures Unframe(Frame(fields), |fields|) == Some(fields)
    decreases |fields|
  {
    if fields != [] {
      var first, others := fields[0], fields[1..];
      UnframeInverts(others);
      UnframeOne(first, Frame(others), others);
      assert fields == [first] + others && |fields| == |others| + 1;
      assert Frame(fields) == Prefix(|first|) + first + Frame(others);
    }
  }

  lemma PrefixReads(length: nat)
    requires length < 0x10000
    ensures Prefix(length)[0] * 256 + Prefix(length)[1] == length
  {
  }

  lemma UnframeOne(first: Field, rest: seq<int>, others: seq<Field>)
    requires |first| < 0x10000 && Unframe(rest, |others|) == Some(others)
    ensures Unframe(Prefix(|first|) + first + rest, |others| + 1) == Some([first] + others)
  {
    var p := Prefix(|first|);
    var bytes := p + first + rest;
    PrefixReads(|first|);
    assert bytes[0] == p[0] && bytes[1] == p[1];
    assert bytes[2..2 + |first|] == first && bytes[2 + |first|..] == rest;
  }

  lemma AsciiInjective(s: string, t: string)
    requires Ascii(s) == Ascii(t)
    ensures s == t
  {
    assert |s| == |Ascii(s)| == |Ascii(t)| == |t|;
    forall i | 0 <= i < |s| ensures s[i] == t[i] {
      assert Ascii(s)[i] == Ascii(t)[i];
    }
  }

  /** Equal associated data means equal version and equal bound fields, while every field is short. */
  lemma AdditionalDataInjective(a: Envelope, b: Envelope)
    requires Decimal.IsInt64(a.version) && Decimal.IsInt64(b.version)
    requires Short(Fields(a)) && Short(Fields(b))
    requires Frame(Fields(a)) == Frame(Fields(b))
    ensures a == b
  {
    UnframeInverts(Fields(a));
    UnframeInverts(Fields(b));
    assert Fields(a) == Fields(b);
    assert forall i :: 0 <= i < 8 ==> Fields(a)[i] == Fields(b)[i];
    AsciiInjective(Decimal.FormatInt(a.version), Decimal.FormatInt(b.version));
    Decimal.ParseFormat(a.version);
    Decimal.ParseFormat(b.version);
  }

  /** The eight fields in the order a reader finds them. */
  lemma AdditionalDataReads(e: Envelope)
    requires Short(Fields(e))
    ensures Unframe(Frame(Fields(e)), 8) ==
            Some([Ascii("retentionops/sealed-config/v1"), Ascii(Decimal.FormatInt(e.version)), e.envelopeId,
                  e.organization, e.source, e.connector, e.issuedAt, e.expiresAt])
  {
    UnframeInverts(Fields(e));
  }

  // ---- Exactly how long a field may be ----

  lemma {:induction false} FieldWithinFrame(fields: seq<Field>, i: nat)
    requires i < |fields|
    ensures |fields[i]| + 2 <= |Frame(fields)|
    decreases |fields|
  {
    if i > 0 {
      FieldWithinFrame(fields[1..], i - 1);
    }
  }

  /** Associated data below 65536 bytes in all identifies its envelope among envelopes of any size. */
  lemma ShortDataIdentifiesEnvelope(a: Envelope, b: Envelope)
    requires Decimal.IsInt64(a.version) && Decimal.IsInt64(b.version)
    requires |Frame(Fields(a))| < 0x10000
    ensures Frame(Fields(a)) == Frame(Fields(b)) <==> a == b
  {
    if Frame(Fields(a)) == Frame(Fields(b)) {
      forall i | 0 <= i < 8 ensures |Fields(a)[i]| < 0x10000 && |Fields(b)[i]| < 0x10000 {
        FieldWithinFrame(Fields(a), i);
        FieldWithinFrame(Fields(b), i);
      }
      AdditionalDataInjective(a, b);
    }
  }

  /**
    What Open (internal/sealedconfig/sealedconfig.go:139-144) compares with its own identity before
    it builds any associated data.
    */
  predicate SameRecipient(a: Envelope, b: Envelope) {
    a.version == b.version && a.organization == b.organization && a.connector == b.connector
  }

  /** The other bound fields have at most n bytes. */
  predicate Bounded(e: Envelope, n: nat) {
    |e.envelopeId| <= n && |e.source| <= n && |e.issuedAt| <= n && |e.expiresAt| <= n
  }

  /** Among envelopes to one recipient with fields of at most n bytes, associated data identifies the envelope. */
  ghost predicate Identifies(recipient: Envelope, n: nat) {
    forall a, b ::
      && SameRecipient(a, recipient) && SameRecipient(b, recipient) && Bounded(a, n) && Bounded(b, n)
      && Frame(Fields(a)) == Frame(Fields(b))
      ==> a == b
  }

  /** The organization field with its prefix, and the prefix of the source. */
  function Between(e: Envelope): Field {
    Prefix(|e.organization|) + e.organization + Prefix(|e.source|)
  }

  /** The bytes that carry a field just past 65535. */
  function Filler(e: Envelope): Field
    requires |e.organization| <= 0xFFFC
  {
    seq(0xFFFC - |e.organization|, i => 0)
  }

  /** The same bytes read as a longer envelope id, or as a longer source. */
  function LongId(e: Envelope): Envelope
    requires |e.organization| <= 0xFFFC
  {
    e.(envelopeId := e.envelopeId + (Between(e) + Filler(e)))
  }

  function LongSource(e: Envelope): Envelope
    requires |e.organization| <= 0xFFFC
  {
    e.(source := Filler(e) + Between(e) + e.source)
  }

  lemma PrefixWraps(length: nat)
    ensures Prefix(length + 0x10000) == Prefix(length)
  {
    var q, r := length / 0x10000, length % 0x10000;
    assert length + 0x10000 == (q + 1) * 0x10000 + r;
    assert (length + 0x10000) % 0x10000 == r;
  }

  lemma Rearranged(id: Field, org: Field, source: Field, p: Field, q: Field, r: Field, filler: Field, rest: Field)
    ensures p + (id + (q + org + r + filler)) + (q + org + (r + source + rest))
            == p + id + (q + org + (r + (filler + (q + org + r) + source) + rest))
  {
  }

  /**
    A recipient can be sent two different envelopes with equal associated data: same organization,
    connector and times, but what one reads as its id the other reads as its source.
    */
  lemma LongFieldsCollide(e: Envelope)
    requires |e.organization| <= 0xFFFC
    ensures SameRecipient(LongId(e), e) && SameRecipient(LongSource(e), e) && LongId(e) != LongSource(e)
    ensures |LongId(e).envelopeId| == |e.envelopeId| + 0x10000 && |LongSource(e).source| == |e.source| + 0x10000
    ensures Frame(Fields(LongId(e))) == Frame(Fields(LongSource(e)))
  {
    var f, g := Fields(LongId(e)), Fields(LongSource(e));
    assert |LongId(e).envelopeId| == |e.envelopeId| + 0x10000;
    PrefixWraps(|e.envelopeId|);
    PrefixWraps(|e.source|);
    Frame5(f);
    Frame5(g);
    assert f[5..] == g[5..];
    Rearranged(e.envelopeId, e.organization, e.source, Prefix(|e.envelopeId|), Prefix(|e.organization|),
               Prefix(|e.source|), Filler(e), Frame(f[5..]));
  }

  lemma Frame5(f: seq<Field>)
    requires |f| >= 5
    ensures Frame(f) == Prefix(|f[0]|) + f[0] + (Prefix(|f[1]|) + f[1] + (Prefix(|f[2]|) + f[2] + (Prefix(|f[3]|) + f[3]
                        + (Prefix(|f[4]|) + f[4] + Frame(f[5..])))))
  {
    assert f[1..][1..] == f[2..] && f[2..][1..] == f[3..] && f[3..][1..] == f[4..] && f[4..][1..] == f[5..];
    assert Frame(f[4..]) == Prefix(|f[4]|) + f[4] + Frame(f[5..]);
    assert Frame(f[3..]) == Prefix(|f[3]|) + f[3] + Frame(f[4..]);
    assert Frame(f[2..]) == Prefix(|f[2]|) + f[2] + Frame(f[3..]);
    assert Frame(f[1..]) == Prefix(|f[1]|) + f[1] + Frame(f[2..]);
  }

  lemma BoundedIsShort(e: Envelope, n: nat)
    requires Decimal.IsInt64(e.version) && Bounded(e, n) && n < 0x10000
    requires |e.organization| < 0x10000 && |e.connector| < 0x10000
    ensures Short(Fields(e))
  {
    Decimal.FormatIntLength(e.version);
    assert |Ascii(Decimal.FormatInt(e.version))| == |Decimal.FormatInt(e.version)|;
  }

  /**
    For every recipient, associated data identifies envelopes with fields of at most n bytes if and
    only if n < 65536.
    */
  lemma IdentifiesIffShort(recipient: Envelope, n: nat)
    requires Decimal.IsInt64(recipient.version)
    requires |recipient.organization| <= 0xFFFC && |recipient.connector| < 0x10000
    requires |recipient.issuedAt| < 0x10000 && |recipient.expiresAt| < 0x10000
    ensures Identifies(recipient, n) <==> n < 0x10000
  {
    if n < 0x10000 {
      forall a, b | SameRecipient(a, recipient) && SameRecipient(b, recipient) && Bounded(a, n) && Bounded(b, n)
                    && Frame(Fields(a)) == Frame(Fields(b))
        ensures a == b
      {
        BoundedIsShort(a, n);
        BoundedIsShort(b, n);
        AdditionalDataInjective(a, b);
      }
    } else {
      var e := recipient.(envelopeId := [], source := []);
      LongFieldsCollide(e);
      assert Bounded(LongId(e), n) && Bounded(LongSource(e), n);
    }
  }
}
