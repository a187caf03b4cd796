/**
  Base-ten text of integers, as strconv.FormatInt, strconv.ParseInt and the "%d" verb treat it.
  Shared by the placeholder numbers of the SQL builder, the numbers of canonical JSON and the
  version field of a sealed envelope.
  */
module Decimal {
  import opened Outcomes

  const INT64_MIN: int := -0x8000_0000_0000_0000
  const INT64_MAX: int := 0x7FFF_FFFF_FFFF_FFFF

  predicate IsInt64(n: int) {
    INT64_MIN <= n <= INT64_MAX
  }

  predicate IsDigit(c: char) {
    '0' <= c <= '9'
  }

  function Digit(d: nat): (c: char)
    requires d < 10
    ensures IsDigit(c) && DigitValue(c) == d
  {
    ('0' as int + d) as char
  }

  function DigitValue(c: char): (d: nat)
    requires IsDigit(c)
    ensures d < 10
  {
    c as int - '0' as int
  }

  predicate AllDigits(s: string) {
    forall i :: 0 <= i < |s| ==> IsDigit(s[i])
  }

  /** The number a run of digits denotes. */
  function NatOf(s: string): nat
    requires AllDigits(s)
  {
    if s == "" then 0 else NatOf(s[..|s| - 1]) * 10 + DigitValue(s[|s| - 1])
  }

  function FormatNat(n: nat): (s: string)
    ensures s != "" && AllDigits(s)
  {
    if n < 10 then [Digit(n)] else FormatNat(n / 10) + [Digit(n % 10)]
  }

  function FormatInt(n: int): string {
    if n < 0 then "-" + FormatNat(-n) else FormatNat(n)
  }

  /** strconv.ParseInt(text, 10, 64): an optional sign, at least one digit, and the int64 range. */
  function ParseInt64(text: string): (r: Option<int>)
    ensures r.Some? ==> IsInt64(r.value)
  {
    var signed := text != "" && (text[0] == '-' || text[0] == '+');
    var digits := if signed then text[1..] else text;
    if digits == "" || !AllDigits(digits) then None
    else
      var magnitude: int := NatOf(digits);
      var n := if text[0] == '-' then -magnitude else magnitude;
      if IsInt64(n) then Some(n) else None
  }

  /** The text is a decimal spelling of n: digits, after a sign if there is one. */
  predicate Spells(text: string, n: int) {
    || (text != "" && AllDigits(text) && n == NatOf(text))
    || (|text| > 1 && text[0] == '+' && AllDigits(text[1..]) && n == NatOf(text[1..]))
    || (|text| > 1 && text[0] == '-' && AllDigits(text[1..]) && -n == NatOf(text[1..]))
  }

  /** ParseInt64 reads exactly the spellings of the integers in range. */
  lemma ParseInt64Iff(text: string, n: int)
    ensures ParseInt64(text) == Some(n) <==> IsInt64(n) && Spells(text, n)
  {
    if text != "" {
      assert IsDigit(text[0]) ==> text[0] != '-' && text[0] != '+';
    }
  }

  lemma {:induction false} NatOfFormat(n: nat)
    ensures NatOf(FormatNat(n)) == n
  {
    if n >= 10 {
      var s := FormatNat(n);
      assert s[..|s| - 1] == FormatNat(n / 10);
      NatOfFormat(n / 10);
    }
  }

  /** Reading back what FormatInt wrote gives the same integer, over the whole int64 range. */
  lemma ParseFormat(n: int)
    requires IsInt64(n)
    ensures ParseInt64(FormatInt(n)) == Some(n)
  {
    var s := FormatInt(n);
    NatOfFormat(if n < 0 then -n else n);
    if n < 0 {
      assert s[1..] == FormatNat(-n);
    } else {
      assert IsDigit(s[0]);
    }
  }

  /** A number below a power of ten has at most that many digits. */
  lemma {:induction false} FormatLength(n: nat, digits: nat)
    requires 0 < digits && n < Power10(digits)
    ensures |FormatNat(n)| <= digits
    decreases digits
  {
    if n >= 10 {
      FormatLength(n / 10, digits - 1);
    }
  }

  function Power10(k: nat): nat {
    if k == 0 then 1 else 10 * Power10(k - 1)
  }

  /** A formatted int64 has at most twenty characters. */
  lemma FormatIntLength(n: int)
    requires IsInt64(n)
    ensures |FormatInt(n)| <= 20
  {
    assert Power10(19) == 10_000_000_000_000_000_000 by {
      assert Power10(4) == 10_000;
      assert Power10(9) == 1_000_000_000;
      assert Power10(14) == 100_000_000_000_000;
    }
    FormatLength(if n < 0 then -n else n, 19);
  }

  lemma {:induction false} NatOfBound(s: string)
    requires AllDigits(s)
    ensures NatOf(s) < Power10(|s|)
    decreases |s|
  {
    if s != "" {
      NatOfBound(s[..|s| - 1]);
    }
  }

  /** FormatInt gives a shortest spelling. */
  lemma FormatIntIsShortest(text: string, n: int)
    requires Spells(text, n)
    ensures |FormatInt(n)| <= |text|
  {
    var digits := if IsDigit(text[0]) then text else text[1..];
    NatOfBound(digits);
    FormatLength(NatOf(digits), |digits|);
  }

  /** How many digits s starts with. */
  function DigitRun(s: string): (k: nat)
    ensures k <= |s| && AllDigits(s[..k])
  {
    if s == "" || !IsDigit(s[0]) then 0
    else
      var k := DigitRun(s[1..]);
      assert s[..1 + k] == [s[0]] + s[1..][..k];
      1 + k
  }

  predicate NoDigitAhead(rest: string) {
    rest == "" || !IsDigit(rest[0])
  }

  lemma {:induction false} DigitRunOf(digits: string, rest: string)
    requires AllDigits(digits) && NoDigitAhead(rest)
    ensures DigitRun(digits + rest) == |digits|
  {
    if digits == "" {
      assert digits + rest == rest;
    } else {
      assert (digits + rest)[1..] == digits[1..] + rest;
      DigitRunOf(digits[1..], rest);
    }
  }

  /** Scans a run of digits off the front, as a tokenizer does. */
  function ScanNat(s: string): (r: Option<(nat, string)>)
    ensures r.Some? ==> |r.value.1| < |s|
  {
    var k := DigitRun(s);
    if k == 0 then None else Some((NatOf(s[..k]), s[k..]))
  }

  lemma ScanFormat(n: nat, rest: string)
    requires NoDigitAhead(rest)
    ensures ScanNat(FormatNat(n) + rest) == Some((n, rest))
  {
    var s := FormatNat(n);
    DigitRunOf(s, rest);
    NatOfFormat(n);
    assert (s + rest)[..|s|] == s;
    assert (s + rest)[|s|..] == rest;
  }
}
