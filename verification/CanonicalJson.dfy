/**
  The canonical form of protocol/v1/canonical.go: the integer-only restriction of RFC 8785, sections
  3.2.2.2 (strings), 3.2.2.3 (numbers) and 3.2.3 (member sorting). Output is text here; module Signing
  takes it to bytes.
  */
module CanonicalJson {
  import opened Outcomes
  import opened Sequences
  import Decimal
  import JsonTree
  import opened MemberOrder

  /** A document as the signature covers it: numbers are integers, not their spelling. */
  datatype Doc =
    | Null
    | Bool(b: bool)
    | Text(s: string)
    | Int(n: int)
    | Array(items: seq<Doc>)
    | Object(members: map<string, Doc>)

  // ---- From decoded JSON to documents ----

  /** writeCanonicalNumber: no fraction, no exponent, within int64. */
  function IntegerOf(text: string): Option<int> {
    if '.' in text || 'e' in text || 'E' in text then None else Decimal.ParseInt64(text)
  }

  /** The document a tree denotes, or None when some number in it is refused. */
  function Normalize(t: JsonTree.Tree): Option<Doc>
    decreases t, 1
  {
    match t
    case Null => Some(Null)
    case Bool(b) => Some(Bool(b))
    case Text(s) => Some(Text(s))
    case Number(text) => (match IntegerOf(text) case Some(n) => Some(Int(n)) case None => None)
    case Array(items) => (match NormalizeItems(items) case Some(ds) => Some(Array(ds)) case None => None)
    case Object(members) =>
      if forall k :: k in members ==> Normalize(members[k]).Some?
      then Some(Object(map k | k in members :: Normalize(members[k]).value))
      else None
  }

  function NormalizeItems(items: seq<JsonTree.Tree>): (r: Option<seq<Doc>>)
    ensures r.Some? ==> |r.value| == |items|
    decreases items, 0
  {
    if items == [] then Some([])
    else
      match (Normalize(items[0]), NormalizeItems(items[1..]))
      case (Some(d), Some(ds)) => Some([d] + ds)
      case _ => None
  }

  /** A decoded tree and the document it stands for: the same shape throughout, and each number its integer. */
  ghost predicate Represents(t: JsonTree.Tree, d: Doc)
    decreases t
  {
    match t
    case Null => d == Null
    case Bool(b) => d == Bool(b)
    case Text(s) => d == Text(s)
    case Number(text) => d.Int? && Decimal.IsInt64(d.n) && Decimal.Spells(text, d.n)
    case Array(items) =>
      d.Array? && |d.items| == |items| && forall i :: 0 <= i < |items| ==> Represents(items[i], d.items[i])
    case Object(members) =>
      d.Object? && d.members.Keys == members.Keys && forall k :: k in members ==> Represents(members[k], d.members[k])
  }

  /** Normalizing gives a document exactly when the tree stands for it. */
  lemma {:induction false} NormalizeIff(t: JsonTree.Tree, d: Doc)
    ensures Normalize(t) == Some(d) <==> Represents(t, d)
    decreases t, 1
  {
    match t {
      case Number(text) => Decimal.ParseInt64Iff(text, if d.Int? then d.n else 0);
      case Array(items) =>
        if d.Array? {
          NormalizeItemsIff(items, d.items);
        }
      case Object(members) =>
        if d.Object? && d.members.Keys == members.Keys {
          forall k | k in members
            ensures Normalize(members[k]) == Some(d.members[k]) <==> Represents(members[k], d.members[k])
          {
            NormalizeIff(members[k], d.members[k]);
          }
          NormalizedMembers(members, d.members);
        }
      case _ =>
    }
  }

  lemma NormalizedMembers(members: map<string, JsonTree.Tree>, ds: map<string, Doc>)
    requires ds.Keys == members.Keys
    ensures Normalize(JsonTree.Object(members)) == Some(Object(ds)) <==>
            forall k :: k in members ==> Normalize(members[k]) == Some(ds[k])
  {
    var t := JsonTree.Object(members);
    if forall k :: k in members ==> Normalize(members[k]) == Some(ds[k]) {
      assert Normalize(t).Some? && Normalize(t).value.Object?;
      assert Normalize(t).value.members == ds;
    }
  }

  lemma {:induction false} NormalizeItemsIff(items: seq<JsonTree.Tree>, ds: seq<Doc>)
    ensures NormalizeItems(items) == Some(ds) <==>
            |ds| == |items| && forall i :: 0 <= i < |items| ==> Represents(items[i], ds[i])
    decreases items, 0
  {
    if items != [] && |ds| == |items| {
      NormalizeIff(items[0], ds[0]);
      NormalizeItemsIff(items[1..], ds[1..]);
      assert ds == [ds[0]] + ds[1..];
      if NormalizeItems(items) == Some(ds) {
        forall i | 0 <= i < |items| ensures Represents(items[i], ds[i]) {
          assert i > 0 ==> items[1..][i - 1] == items[i] && ds[1..][i - 1] == ds[i];
        }
      }
    }
  }

  // ---- Rendering ----

  function HexDigit(n: nat): char
    requires n < 16
  {
    if n < 10 then ('0' as int + n) as char else ('a' as int + (n - 10)) as char
  }

  /** The two mandatory escapes, the short forms, and \u00xx for the other control characters. */
  function Escape(c: char): (e: string)
    ensures e != ""
  {
    if c == '"' then ['\\', '"']
    else if c == '\\' then ['\\', '\\']
    else if c as int == 0x08 then ['\\', 'b']
    else if c as int == 0x0C then ['\\', 'f']
    else if c == '\n' then ['\\', 'n']
    else if c == '\r' then ['\\', 'r']
    else if c == '\t' then ['\\', 't']
    else if c as int < 0x20 then ['\\', 'u', '0', '0', HexDigit(c as int / 16), HexDigit(c as int % 16)]
    else [c]
  }

  function EscapeAll(s: string): string {
    if s == "" then "" else Escape(s[0]) + EscapeAll(s[1..])
  }

  function Quote(s: string): string {
    "\"" + EscapeAll(s) + "\""
  }

  ghost function Render(d: Doc): string
    decreases d, 1
  {
    match d
    case Null => "null"
    case Bool(b) => if b then "true" else "false"
    case Text(s) => Quote(s)
    case Int(n) => Decimal.FormatInt(n)
    case Array(items) => "[" + RenderItems(items) + "]"
    case Object(members) => "{" + RenderMembers(d, SortedNames(members.Keys)) + "}"
  }

  ghost function RenderItems(items: seq<Doc>): string
    decreases items, 0
  {
    if items == [] then ""
    else Render(items[0]) + if |items| == 1 then "" else "," + RenderItems(items[1..])
  }

  ghost function RenderMembers(d: Doc, keys: seq<string>): string
    requires d.Object? && forall k :: k in keys ==> k in d.members
    decreases d, 0, |keys|
  {
    if keys == [] then ""
    else
      Quote(keys[0]) + ":" + Render(d.members[keys[0]])
      + if |keys| == 1 then "" else "," + RenderMembers(d, keys[1..])
  }

  /** What Canonicalize returns for a decoded tree. */
  ghost function Canonical(t: JsonTree.Tree): Option<string> {
    match Normalize(t)
    case Some(d) => Some(Render(d))
    case None => None
  }

  // ---- The parser that inverts it ----

  function HexValue(c: char): Option<nat> {
    if '0' <= c <= '9' then Some(c as int - '0' as int)
    else if 'a' <= c <= 'f' then Some(c as int - 'a' as int + 10)
    else None
  }

  /** One possibly escaped character off the front. */
  function ParseChar(s: string): (r: Option<(char, string)>)
    ensures r.Some? ==> |r.value.1| < |s|
  {
    if s == "" then None
    else if s[0] == '"' || s[0] as int < 0x20 then None
    else if s[0] != '\\' then Some((s[0], s[1..]))
    else if |s| < 2 then None
    else
      match s[1]
      case '"' => Some(('"', s[2..]))
      case '\\' => Some(('\\', s[2..]))
      case 'b' => Some((0x08 as char, s[2..]))
      case 'f' => Some((0x0C as char, s[2..]))
      case 'n' => Some(('\n', s[2..]))
      case 'r' => Some(('\r', s[2..]))
      case 't' => Some(('\t', s[2..]))
      case 'u' =>
        if |s| < 6 || s[2] != '0' || s[3] != '0' then None
        else
          (match (HexValue(s[4]), HexValue(s[5]))
           case (Some(hi), Some(lo)) => Some(((hi * 16 + lo) as char, s[6..]))
           case _ => None)
      case _ => None
  }

  /** The rest of a string whose opening quote has been read. */
  function ParseString(s: string): (r: Option<(string, string)>)
    ensures r.Some? ==> |r.value.1| < |s|
    decreases |s|
  {
    if s != "" && s[0] == '"' then Some(("", s[1..]))
    else
      match ParseChar(s)
      case None => None
      case Some((c, rest)) =>
        match ParseString(rest)
        case None => None
        case Some((tail, end)) => Some(([c] + tail, end))
  }

  function Expect(word: string, s: string): (r: Option<string>)
    ensures r.Some? ==> |r.value| == |s| - |word|
  {
    if word <= s then Some(s[|word|..]) else None
  }

  function Keyword(word: string, d: Doc, s: string): (r: Option<(Doc, string)>)
    requires word != ""
    ensures r.Some? ==> |r.value.1| < |s|
  {
    match Expect(word, s) case Some(rest) => Some((d, rest)) case None => None
  }

  function ParseNumber(s: string): (r: Option<(Doc, string)>)
    ensures r.Some? ==> |r.value.1| < |s|
  {
    if s != "" && s[0] == '-' then
      match Decimal.ScanNat(s[1..])
      case None => None
      case Some((n, rest)) => Some((Int(-(n as int)), rest))
    else
      match Decimal.ScanNat(s)
      case None => None
      case Some((n, rest)) => Some((Int(n), rest))
  }

  function ParseValue(s: string): (r: Option<(Doc, string)>)
    ensures r.Some? ==> |r.value.1| < |s|
    decreases |s|, 1
  {
    if s == "" then None
    else
      match s[0]
      case 'n' => Keyword("null", Null, s)
      case 't' => Keyword("true", Bool(true), s)
      case 'f' => Keyword("false", Bool(false), s)
      case '"' =>
        (match ParseString(s[1..])
         case None => None
         case Some((text, rest)) => Some((Text(text), rest)))
      case '[' =>
        if |s| > 1 && s[1] == ']' then Some((Array([]), s[2..]))
        else
          (match ParseItems(s[1..])
           case None => None
           case Some((items, rest)) => Some((Array(items), rest)))
      case '{' =>
        if |s| > 1 && s[1] == '}' then Some((Object(map[]), s[2..]))
        else
          (match ParseMembers(s[1..])
           case None => None
           case Some((members, rest)) => Some((Object(members), rest)))
      case _ => ParseNumber(s)
  }

  /** Items up to and including the closing bracket. */
  function ParseItems(s: string): (r: Option<(seq<Doc>, string)>)
    ensures r.Some? ==> |r.value.1| < |s|
    decreases |s|, 2
  {
    match ParseValue(s)
    case None => None
    case Some((d, rest)) =>
      if rest == "" then None
      else if rest[0] == ']' then Some(([d], rest[1..]))
      else if rest[0] != ',' then None
      else
        match ParseItems(rest[1..])
        case None => None
        case Some((ds, end)) => Some(([d] + ds, end))
  }

  /** Members up to and including the closing brace. */
  function ParseMembers(s: string): (r: Option<(map<string, Doc>, string)>)
    ensures r.Some? ==> |r.value.1| < |s|
    decreases |s|, 2
  {
    if s == "" || s[0] != '"' then None
    else
      match ParseString(s[1..])
      case None => None
      case Some((key, after)) =>
        if after == "" || after[0] != ':' then None
        else
          match ParseValue(after[1..])
          case None => None
          case Some((d, rest)) => ParseMoreMembers(key, d, rest)
  }

  /** What may follow a member: the end of its object, or a comma and more members. */
  function ParseMoreMembers(key: string, d: Doc, rest: string): (r: Option<(map<string, Doc>, string)>)
    ensures r.Some? ==> |r.value.1| < |rest|
    decreases |rest|, 3
  {
    if rest == "" then None
    else if rest[0] == '}' then Some((map[key := d], rest[1..]))
    else if rest[0] != ',' then None
    else
      match ParseMembers(rest[1..])
      case None => None
      case Some((more, end)) => Some((more[key := d], end))
  }

  // ---- Inversion ----

  lemma EscapeReads(c: char, rest: string)
    ensures ParseChar(Escape(c) + rest) == Some((c, rest))
    ensures (Escape(c) + rest)[0] != '"'
  {
    var e := Escape(c);
    var s := e + rest;
    assert forall i :: 0 <= i < |e| ==> s[i] == e[i];
    assert s[|e|..] == rest;
    if |e| == 6 {
      assert c as int == (c as int / 16) * 16 + c as int % 16;
    }
  }

  /** The writer's escape is the one shortest text the parser reads as the character. */
  lemma EscapeIsShortest(c: char, text: string)
    requires ParseChar(text) == Some((c, ""))
    ensures |Escape(c)| <= |text|
    ensures |Escape(c)| == |text| ==> Escape(c) == text
  {
    if text[0] != '\\' {
      assert text == [text[0]];
    } else if text[1] != 'u' {
      assert text == [text[0], text[1]];
    } else {
      assert text == [text[0], text[1], text[2], text[3], text[4], text[5]];
      HexReads(text[4], text[5]);
    }
  }

  lemma HexReads(hi: char, lo: char)
    requires HexValue(hi).Some? && HexValue(lo).Some?
    ensures var v := HexValue(hi).value * 16 + HexValue(lo).value;
            v < 256 && HexDigit(v / 16) == hi && HexDigit(v % 16) == lo
  {
  }

  lemma {:induction false} StringReads(s: string, rest: string)
    ensures ParseString(EscapeAll(s) + "\"" + rest) == Some((s, rest))
  {
    if s == "" {
      assert EscapeAll(s) + "\"" + rest == "\"" + rest;
      assert ("\"" + rest)[1..] == rest;
    } else {
      var tail := EscapeAll(s[1..]) + "\"" + rest;
      assert EscapeAll(s) + "\"" + rest == Escape(s[0]) + tail;
      StringReads(s[1..], rest);
      EscapedThenString(s[0], tail, s[1..], rest);
      assert s == [s[0]] + s[1..];
    }
  }

  lemma EscapedThenString(c: char, tail: string, str: string, rest: string)
    requires ParseString(tail) == Some((str, rest))
    ensures ParseString(Escape(c) + tail) == Some(([c] + str, rest))
  {
    EscapeReads(c, tail);
  }

  lemma QuoteReads(s: string, rest: string)
    ensures Quote(s) + rest != "" && (Quote(s) + rest)[0] == '"'
    ensures ParseString((Quote(s) + rest)[1..]) == Some((s, rest))
  {
    assert (Quote(s) + rest)[1..] == EscapeAll(s) + "\"" + rest;
    StringReads(s, rest);
  }

  lemma NumberReads(n: int, rest: string)
    requires Decimal.NoDigitAhead(rest)
    ensures ParseNumber(Decimal.FormatInt(n) + rest) == Some((Int(n), rest))
    ensures var c := (Decimal.FormatInt(n) + rest)[0]; c == '-' || Decimal.IsDigit(c)
  {
    var digits := Decimal.FormatNat(if n < 0 then -n else n);
    Decimal.ScanFormat(if n < 0 then -n else n, rest);
    if n < 0 {
      NegativeReads(digits, -n, rest);
    } else {
      assert (digits + rest)[0] == digits[0];
    }
  }

  lemma NegativeReads(digits: string, n: nat, rest: string)
    requires Decimal.ScanNat(digits + rest) == Some((n, rest))
    ensures ParseNumber("-" + digits + rest) == Some((Int(-(n as int)), rest))
    ensures ("-" + digits + rest)[0] == '-'
  {
    assert ("-" + digits + rest)[1..] == digits + rest;
  }

  lemma KeywordReads(word: string, d: Doc, rest: string)
    requires word != ""
    ensures Keyword(word, d, word + rest) == Some((d, rest))
  {
    assert (word + rest)[|word|..] == rest;
  }

  /** A rendered value starts with none of the closing brackets. */
  lemma RenderStarts(d: Doc)
    ensures Render(d) != "" && Render(d)[0] != ']' && Render(d)[0] != '}'
  {
    if d.Int? {
      NumberReads(d.n, "");
      assert Decimal.FormatInt(d.n) + "" == Decimal.FormatInt(d.n);
    }
  }

  /** The parser gives back every document from its rendering, and leaves what follows it alone. */
  lemma {:induction false} RenderReads(d: Doc, rest: string)
    requires Decimal.NoDigitAhead(rest)
    ensures ParseValue(Render(d) + rest) == Some((d, rest))
    decreases d, 1
  {
    if d.Array? && d.items != [] {
      ItemsRead(d.items, rest);
      BracketedReads(d, rest);
    } else if d.Object? && d.members != map[] {
      var keys := SortedNames(d.members.Keys);
      WholeObject(d, keys);
      MembersRead(d, keys, rest);
      BracedReads(RenderMembers(d, keys), d.members, rest);
    } else {
      LeafReads(d, rest);
    }
  }

  lemma LeafReads(d: Doc, rest: string)
    requires (d.Array? ==> d.items == []) && (d.Object? ==> d.members == map[]) && Decimal.NoDigitAhead(rest)
    ensures ParseValue(Render(d) + rest) == Some((d, rest))
  {
    match d {
      case Null => WordReads("null", d, rest);
      case Bool(b) => WordReads(if b then "true" else "false", d, rest);
      case Text(s) => TextReads(s, rest);
      case Int(n) => IntReads(n, rest);
      case Array(_) => EmptyReads(d, "[]", rest);
      case Object(_) =>
        assert SortedNames({}) == [];
        EmptyReads(d, "{}", rest);
    }
  }

  lemma WordReads(word: string, d: Doc, rest: string)
    requires (d == Null && word == "null") || (d == Bool(true) && word == "true")
             || (d == Bool(false) && word == "false")
    ensures ParseValue(word + rest) == Some((d, rest))
  {
    KeywordReads(word, d, rest);
    assert (word + rest)[0] == word[0];
  }

  lemma TextReads(s: string, rest: string)
    ensures ParseValue(Quote(s) + rest) == Some((Text(s), rest))
  {
    QuoteReads(s, rest);
  }

  lemma IntReads(n: int, rest: string)
    requires Decimal.NoDigitAhead(rest)
    ensures ParseValue(Decimal.FormatInt(n) + rest) == Some((Int(n), rest))
  {
    NumberReads(n, rest);
  }

  lemma EmptyReads(d: Doc, text: string, rest: string)
    requires (d == Array([]) && text == "[]") || (d == Object(map[]) && text == "{}")
    ensures ParseValue(text + rest) == Some((d, rest))
  {
    var s := text + rest;
    assert s[0] == text[0] && s[1] == text[1] && s[2..] == rest;
  }

  lemma BracketedReads(d: Doc, rest: string)
    requires d.Array? && d.items != []
    requires ParseItems(RenderItems(d.items) + "]" + rest) == Some((d.items, rest))
    ensures ParseValue("[" + RenderItems(d.items) + "]" + rest) == Some((d, rest))
  {
    var body := RenderItems(d.items) + "]" + rest;
    assert "[" + RenderItems(d.items) + "]" + rest == "[" + body;
    assert ("[" + body)[1..] == body;
    RenderStarts(d.items[0]);
    assert body[0] == Render(d.items[0])[0];
  }

  lemma BracedReads(text: string, members: map<string, Doc>, rest: string)
    requires text != "" && text[0] == '"'
    requires ParseMembers(text + "}" + rest) == Some((members, rest))
    ensures ParseValue("{" + text + "}" + rest) == Some((Object(members), rest))
  {
    var body := text + "}" + rest;
    assert "{" + text + "}" + rest == "{" + body;
    assert ("{" + body)[1..] == body;
  }

  lemma {:induction false} ItemsRead(items: seq<Doc>, rest: string)
    requires items != []
    ensures ParseItems(RenderItems(items) + "]" + rest) == Some((items, rest))
    decreases items, 0
  {
    var first := Render(items[0]);
    if |items| == 1 {
      RenderReads(items[0], "]" + rest);
      LastItemReads(first + ("]" + rest), items[0], rest);
      assert items == [items[0]];
    } else {
      var more := RenderItems(items[1..]) + "]" + rest;
      RenderReads(items[0], "," + more);
      ItemsRead(items[1..], rest);
      NextItemReads(first + ("," + more), items[0], more, items[1..], rest);
      assert items == [items[0]] + items[1..];
    }
    ItemsSplit(items, rest);
  }

  /** How the text of the items splits after the first one. */
  lemma ItemsSplit(items: seq<Doc>, rest: string)
    requires items != []
    ensures RenderItems(items) + "]" + rest ==
            Render(items[0]) + if |items| == 1 then "]" + rest else "," + (RenderItems(items[1..]) + "]" + rest)
  {
    CloseText(Render(items[0]), RenderItems(items[1..]), "]", rest);
  }

  lemma CloseText(first: string, text: string, close: string, rest: string)
    ensures first + "" + close + rest == first + (close + rest)
    ensures first + ("," + text) + close + rest == first + ("," + (text + close + rest))
  {
  }

  lemma LastItemReads(s: string, d: Doc, rest: string)
    requires ParseValue(s) == Some((d, "]" + rest))
    ensures ParseItems(s) == Some(([d], rest))
  {
    assert ("]" + rest)[1..] == rest;
  }

  lemma NextItemReads(s: string, d: Doc, more: string, ds: seq<Doc>, rest: string)
    requires ParseValue(s) == Some((d, "," + more)) && ParseItems(more) == Some((ds, rest))
    ensures ParseItems(s) == Some(([d] + ds, rest))
  {
    assert ("," + more)[1..] == more;
  }

  ghost function Restrict(d: Doc, keys: seq<string>): map<string, Doc>
    requires d.Object? && forall k :: k in keys ==> k in d.members
  {
    map k | k in keys :: d.members[k]
  }

  lemma WholeObject(d: Doc, keys: seq<string>)
    requires d.Object? && Names(keys) == d.members.Keys
    ensures (forall k :: k in keys ==> k in d.members) && Restrict(d, keys) == d.members
  {
    assert forall k :: k in keys <==> k in Names(keys);
  }

  lemma KeyedValueReads(s: string, key: string, value: string, d: Doc, tail: string)
    requires s != "" && s[0] == '"' && ParseString(s[1..]) == Some((key, ":" + value))
    requires ParseValue(value) == Some((d, tail))
    ensures ParseMembers(s) == ParseMoreMembers(key, d, tail)
  {
    assert (":" + value)[1..] == value;
  }

  /** One member, up to what separates it from the next. */
  lemma MemberReads(key: string, d: Doc, text: string, tail: string)
    requires ParseValue(text + tail) == Some((d, tail))
    ensures ParseMembers(Quote(key) + ":" + text + tail) == ParseMoreMembers(key, d, tail)
  {
    var name := Quote(key);
    QuoteReads(key, ":" + (text + tail));
    Regroup(name, ":", text);
    Regroup(name, ":" + text, tail);
    Regroup(":", text, tail);
    KeyedValueReads(name + (":" + (text + tail)), key, text + tail, d, tail);
  }

  lemma LastMemberReads(key: string, d: Doc, rest: string)
    ensures ParseMoreMembers(key, d, "}" + rest) == Some((map[key := d], rest))
  {
    assert ("}" + rest)[1..] == rest;
  }

  lemma NextMemberReads(key: string, d: Doc, more: string, members: map<string, Doc>, rest: string)
    requires ParseMembers(more) == Some((members, rest))
    ensures ParseMoreMembers(key, d, "," + more) == Some((members[key := d], rest))
  {
    assert ("," + more)[1..] == more;
  }

  lemma {:induction false} MembersRead(d: Doc, keys: seq<string>, rest: string)
    requires d.Object? && keys != [] && forall k :: k in keys ==> k in d.members
    ensures ParseMembers(RenderMembers(d, keys) + "}" + rest) == Some((Restrict(d, keys), rest))
    ensures RenderMembers(d, keys) != "" && RenderMembers(d, keys)[0] == '"'
    decreases d, 0, |keys|
  {
    var key := keys[0];
    var value, text := d.members[key], Render(d.members[key]);
    if |keys| == 1 {
      RenderReads(value, "}" + rest);
      LastMemberReads(key, value, rest);
      MemberReads(key, value, text, "}" + rest);
      assert Restrict(d, keys) == map[key := value] by { assert keys == [key]; }
    } else {
      var more := RenderMembers(d, keys[1..]) + "}" + rest;
      RenderReads(value, "," + more);
      MembersRead(d, keys[1..], rest);
      NextMemberReads(key, value, more, Restrict(d, keys[1..]), rest);
      MemberReads(key, value, text, "," + more);
      RestrictGrows(d, keys);
    }
    MembersText(d, keys, rest);
  }

  /** The member names of an object in the order its text gives them, after the opening brace. */
  function ParseKeys(s: string): (r: Option<(seq<string>, string)>)
    decreases |s|
  {
    if s == "" || s[0] != '"' then None
    else
      match ParseString(s[1..])
      case None => None
      case Some((key, after)) =>
        if after == "" || after[0] != ':' then None
        else
          match ParseValue(after[1..])
          case None => None
          case Some((_, rest)) =>
            if rest == "" then None
            else if rest[0] == '}' then Some(([key], rest[1..]))
            else if rest[0] != ',' then None
            else
              match ParseKeys(rest[1..])
              case None => None
              case Some((keys, end)) => Some(([key] + keys, end))
  }

  /** The name of one member, up to what separates it from the next. */
  lemma KeyReads(key: string, d: Doc, text: string, tail: string)
    requires ParseValue(text + tail) == Some((d, tail))
    ensures var s := Quote(key) + ":" + text + tail;
            && s[0] == '"' && ParseString(s[1..]) == Some((key, ":" + (text + tail)))
            && (":" + (text + tail))[1..] == text + tail
  {
    QuoteReads(key, ":" + (text + tail));
    Regroup(Quote(key), ":", text);
    Regroup(Quote(key), ":" + text, tail);
    Regroup(":", text, tail);
  }

  lemma LastKeyReads(key: string, d: Doc, text: string, rest: string)
    requires ParseValue(text + ("}" + rest)) == Some((d, "}" + rest))
    ensures ParseKeys(Quote(key) + ":" + text + ("}" + rest)) == Some(([key], rest))
  {
    KeyReads(key, d, text, "}" + rest);
    assert ("}" + rest)[1..] == rest;
  }

  lemma NextKeyReads(key: string, d: Doc, text: string, more: string, keys: seq<string>, rest: string)
    requires ParseValue(text + ("," + more)) == Some((d, "," + more)) && ParseKeys(more) == Some((keys, rest))
    ensures ParseKeys(Quote(key) + ":" + text + ("," + more)) == Some(([key] + keys, rest))
  {
    KeyReads(key, d, text, "," + more);
    assert ("," + more)[1..] == more;
  }

  lemma {:induction false} KeysRead(d: Doc, keys: seq<string>, rest: string)
    requires d.Object? && keys != [] && forall k :: k in keys ==> k in d.members
    ensures ParseKeys(RenderMembers(d, keys) + "}" + rest) == Some((keys, rest))
    decreases |keys|
  {
    var key, value, text := keys[0], d.members[keys[0]], Render(d.members[keys[0]]);
    MembersText(d, keys, rest);
    if |keys| == 1 {
      assert RenderMembers(d, keys) + "}" + rest == Quote(key) + ":" + text + ("}" + rest);
      RenderReads(value, "}" + rest);
      LastKeyReads(key, value, text, rest);
      assert keys == [key];
    } else {
      var more := RenderMembers(d, keys[1..]) + "}" + rest;
      assert RenderMembers(d, keys) + "}" + rest == Quote(key) + ":" + text + ("," + more);
      RenderReads(value, "," + more);
      KeysRead(d, keys[1..], rest);
      NextKeyReads(key, value, text, more, keys[1..], rest);
      assert keys == [key] + keys[1..];
    }
  }

  /** In the text of an object every member name appears once, in code-unit order. */
  lemma NamesAppearSorted(members: map<string, Doc>, rest: string)
    requires members != map[]
    ensures var s := Render(Object(members)) + rest;
            && s != "" && s[0] == '{'
            && exists keys :: ParseKeys(s[1..]) == Some((keys, rest)) && Sorted(keys) && Names(keys) == members.Keys
  {
    var d, keys := Object(members), SortedNames(members.Keys);
    WholeObject(d, keys);
    KeysRead(d, keys, rest);
    AfterBrace(RenderMembers(d, keys), rest);
  }

  lemma AfterBrace(body: string, rest: string)
    ensures ("{" + body + "}" + rest)[0] == '{' && ("{" + body + "}" + rest)[1..] == body + "}" + rest
  {
  }

  /** How the text of the members splits after the first one. */
  lemma MembersText(d: Doc, keys: seq<string>, rest: string)
    requires d.Object? && keys != [] && forall k :: k in keys ==> k in d.members
    ensures var lead := Quote(keys[0]) + ":" + Render(d.members[keys[0]]);
            RenderMembers(d, keys) + "}" + rest ==
            lead + if |keys| == 1 then "}" + rest else "," + (RenderMembers(d, keys[1..]) + "}" + rest)
    ensures RenderMembers(d, keys) != "" && RenderMembers(d, keys)[0] == '"'
  {
    CloseText(Quote(keys[0]) + ":" + Render(d.members[keys[0]]), RenderMembers(d, keys[1..]), "}", rest);
  }

  lemma RestrictGrows(d: Doc, keys: seq<string>)
    requires d.Object? && keys != [] && forall k :: k in keys ==> k in d.members
    ensures Restrict(d, keys) == Restrict(d, keys[1..])[keys[0] := d.members[keys[0]]]
  {
    assert forall k :: k in keys <==> k == keys[0] || k in keys[1..];
  }

  // ---- What a signature can rely on ----

  /** Reading a canonical text gives exactly the document it came from. */
  lemma ParseInvertsRender(d: Doc)
    ensures ParseValue(Render(d)) == Some((d, ""))
  {
    RenderReads(d, "");
    assert Render(d) + "" == Render(d);
  }

  /** Two decoded trees have the same canonical text exactly when they denote the same document. */
  lemma CanonicalIsInjective(t: JsonTree.Tree, u: JsonTree.Tree)
    requires Canonical(t).Some? && Canonical(u).Some?
    ensures Canonical(t) == Canonical(u) <==> Normalize(t) == Normalize(u)
  {
    ParseInvertsRender(Normalize(t).value);
    ParseInvertsRender(Normalize(u).value);
  }

  /** The decoded tree of a document, with every number in canonical spelling. */
  function TreeOf(d: Doc): JsonTree.Tree
    decreases d, 1
  {
    match d
    case Null => JsonTree.Null
    case Bool(b) => JsonTree.Bool(b)
    case Text(s) => JsonTree.Text(s)
    case Int(n) => JsonTree.Number(Decimal.FormatInt(n))
    case Array(items) => JsonTree.Array(TreesOf(items))
    case Object(members) => JsonTree.Object(map k | k in members :: TreeOf(members[k]))
  }

  function TreesOf(ds: seq<Doc>): seq<JsonTree.Tree>
    decreases ds, 0
  {
    if ds == [] then [] else [TreeOf(ds[0])] + TreesOf(ds[1..])
  }

  predicate InRange(d: Doc)
    decreases d, 1
  {
    match d
    case Int(n) => Decimal.IsInt64(n)
    case Array(items) => AllInRange(items)
    case Object(members) => forall k :: k in members ==> InRange(members[k])
    case _ => true
  }

  predicate AllInRange(ds: seq<Doc>)
    decreases ds, 0
  {
    ds == [] || (InRange(ds[0]) && AllInRange(ds[1..]))
  }

  lemma {:induction false} NormalizedIsInRange(t: JsonTree.Tree)
    requires Normalize(t).Some?
    ensures InRange(Normalize(t).value)
    decreases t, 1
  {
    match t {
      case Array(items) => NormalizedItemsInRange(items);
      case Object(members) =>
        forall k | k in members ensures InRange(Normalize(members[k]).value) {
          NormalizedIsInRange(members[k]);
        }
      case _ =>
    }
  }

  lemma {:induction false} NormalizedItemsInRange(items: seq<JsonTree.Tree>)
    requires NormalizeItems(items).Some?
    ensures AllInRange(NormalizeItems(items).value)
    decreases items, 0
  {
    if items != [] {
      NormalizedIsInRange(items[0]);
      NormalizedItemsInRange(items[1..]);
    }
  }

  lemma DigitsHaveNoPoint(n: int)
    ensures IntegerOf(Decimal.FormatInt(n)) == Decimal.ParseInt64(Decimal.FormatInt(n))
  {
    var s := Decimal.FormatInt(n);
    assert forall i :: 0 <= i < |s| ==> s[i] == '-' || Decimal.IsDigit(s[i]);
  }

  lemma {:induction false} NormalizeInvertsTreeOf(d: Doc)
    requires InRange(d)
    ensures Normalize(TreeOf(d)) == Some(d)
    decreases d, 1
  {
    match d {
      case Int(n) =>
        DigitsHaveNoPoint(n);
        Decimal.ParseFormat(n);
      case Array(items) => NormalizeInvertsTreesOf(items);
      case Object(members) =>
        forall k | k in members ensures Normalize(TreeOf(members[k])) == Some(members[k]) {
          NormalizeInvertsTreeOf(members[k]);
        }
        var t := TreeOf(d);
        assert Normalize(t).value.members == members;
      case _ =>
    }
  }

  lemma NormalizeFirst(items: seq<JsonTree.Tree>, first: JsonTree.Tree, rest: seq<JsonTree.Tree>)
    requires items == [first] + rest && Normalize(first).Some? && NormalizeItems(rest).Some?
    ensures NormalizeItems(items) == Some([Normalize(first).value] + NormalizeItems(rest).value)
  {
    assert items[1..] == rest;
  }

  lemma {:induction false} NormalizeInvertsTreesOf(ds: seq<Doc>)
    requires AllInRange(ds)
    ensures NormalizeItems(TreesOf(ds)) == Some(ds)
    decreases ds, 0
  {
    if ds != [] {
      NormalizeInvertsTreeOf(ds[0]);
      NormalizeInvertsTreesOf(ds[1..]);
      NormalizeFirst(TreesOf(ds), TreeOf(ds[0]), TreesOf(ds[1..]));
      assert ds == [ds[0]] + ds[1..];
    }
  }

  /** Canonicalizing what a canonical text decodes to changes nothing. */
  lemma CanonicalizingTwice(t: JsonTree.Tree)
    requires Canonical(t).Some?
    ensures ParseValue(Canonical(t).value).Some?
    ensures Canonical(TreeOf(ParseValue(Canonical(t).value).value.0)) == Canonical(t)
  {
    var d := Normalize(t).value;
    ParseInvertsRender(d);
    NormalizedIsInRange(t);
    NormalizeInvertsTreeOf(d);
  }
}
