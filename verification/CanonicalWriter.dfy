/**
  writeCanonical and its helpers as they run (protocol/v1/canonical.go:161-249): appending to one
  buffer, collecting map keys in whatever order the map yields them, and sorting.
  */
module CanonicalWriter {
  import opened Outcomes
  import opened Sequences
  import Decimal
  import JsonTree
  import opened MemberOrder
  import opened CanonicalJson

  class Buffer {
    var text: string

    constructor ()
      ensures text == ""
    {
      text := "";
    }

    method WriteString(s: string)
      modifies this
      ensures text == old(text) + Quote(s)
    {
      text := text + "\"";
      for i := 0 to |s|
        invariant text + EscapeAll(s[i..]) == old(text) + "\"" + EscapeAll(s)
      {
        assert s[i..][1..] == s[i + 1..];
        Regroup(text, Escape(s[i]), EscapeAll(s[i + 1..]));
        text := text + Escape(s[i]);
      }
      assert s[|s|..] == "" && text + "" == text;
      Regroup(old(text), "\"" + EscapeAll(s), "\"");
      Regroup(old(text), "\"", EscapeAll(s));
      text := text + "\"";
    }

    method WriteNumber(number: string) returns (ok: bool)
      modifies this
      ensures ok == IntegerOf(number).Some?
      ensures ok ==> text == old(text) + Decimal.FormatInt(IntegerOf(number).value)
    {
      if '.' in number || 'e' in number || 'E' in number {
        return false;
      }
      var n := Decimal.ParseInt64(number);
      if n.None? {
        return false;
      }
      text := text + Decimal.FormatInt(n.value);
      return true;
    }

    method Write(t: JsonTree.Tree) returns (ok: bool)
      modifies this
      ensures ok == Normalize(t).Some?
      ensures ok ==> text == old(text) + Render(Normalize(t).value)
      decreases t, 2
    {
      match t {
        case Null =>
          text := text + "null";
          ok := true;
        case Bool(b) =>
          text := text + if b then "true" else "false";
          ok := true;
        case Text(s) =>
          WriteString(s);
          ok := true;
        case Number(number) => ok := WriteNumber(number);
        case Array(_) => ok := WriteArray(t);
        case Object(_) => ok := WriteObject(t);
      }
    }

    method WriteArray(t: JsonTree.Tree) returns (ok: bool)
      requires t.Array?
      modifies this
      ensures ok == Normalize(t).Some?
      ensures ok ==> text == old(text) + Render(Normalize(t).value)
      decreases t, 1
    {
      text := text + "[";
      ok := WriteItems(t.items);
      if ok {
        text := text + "]";
        Regroup(old(text), "[", ItemsText(t.items));
        Regroup(old(text), "[" + ItemsText(t.items), "]");
      }
    }

    method WriteItems(items: seq<JsonTree.Tree>) returns (ok: bool)
      modifies this
      ensures ok == NormalizeItems(items).Some?
      ensures ok ==> text == old(text) + ItemsText(items)
      decreases items, 0
    {
      assert items[0..] == items;
      for i := 0 to |items|
        invariant NormalizeItems(items).Some? <==> NormalizeItems(items[i..]).Some?
        invariant NormalizeItems(items).Some? ==>
                    text + Continued(i, ItemsText(items[i..])) == old(text) + ItemsText(items)
      {
        assert items[i..][1..] == items[i + 1..];
        ghost var before := text;
        if i > 0 {
          text := text + ",";
        }
        ok := Write(items[i]);
        if !ok {
          return;
        }
        if NormalizeItems(items).Some? {
          ItemsStep(items[i..]);
          Separate(before, i, Render(Normalize(items[i]).value), Continued(1, ItemsText(items[i + 1..])));
        }
      }
      ok := true;
      assert items[|items|..] == [] && text + "" == text;
    }

    method WriteObject(t: JsonTree.Tree) returns (ok: bool)
      requires t.Object?
      modifies this
      ensures ok == Normalize(t).Some?
      ensures ok ==> text == old(text) + Render(Normalize(t).value)
      decreases t, 1
    {
      var collected := CollectKeys(t.members);
      var keys := SortKeys(collected);
      NamesAreMembers(t, keys);
      text := text + "{";
      ok := WriteMembers(t, keys);
      if ok {
        text := text + "}";
        Regroup(old(text), "{", MembersOf(t, keys));
        Regroup(old(text), "{" + MembersOf(t, keys), "}");
        ObjectText(t, keys);
      }
    }

    method WriteMember(t: JsonTree.Tree, key: string, separate: bool) returns (ok: bool)
      requires t.Object? && key in t.members
      modifies this
      ensures ok == Normalize(t.members[key]).Some?
      ensures ok ==> text == (if separate then old(text) + "," else old(text)) + MemberText(t, key)
      decreases t, 0, 0
    {
      if separate {
        text := text + ",";
      }
      ghost var start := text;
      WriteString(key);
      text := text + ":";
      ok := Write(t.members[key]);
      if ok {
        Regroup(start, Quote(key), ":");
        Regroup(start, Quote(key) + ":", Render(Normalize(t.members[key]).value));
      }
    }

    method WriteMembers(t: JsonTree.Tree, keys: seq<string>) returns (ok: bool)
      requires t.Object? && Names(keys) == t.members.Keys
      modifies this
      ensures ok == Normalize(t).Some?
      ensures ok ==> text == old(text) + MembersOf(t, keys)
      decreases t, 0, 1
    {
      NamesAreMembers(t, keys);
      ghost var goal := text + MembersOf(t, keys);
      assert keys[0..] == keys;
      for i := 0 to |keys|
        invariant FirstNormalize(t, keys, i)
        invariant Normalize(t).Some? ==> MembersLeft(t, keys, i, text) == goal
      {
        ghost var before := text;
        ok := WriteMember(t, keys[i], i > 0);
        if !ok {
          MemberRefused(t, keys[i]);
          return;
        }
        if Normalize(t).Some? {
          MemberWritten(t, keys, i, before);
        }
      }
      ok := true;
      AllMembersNormalize(t, keys);
      NoneLeft(t, keys, text);
    }
  }

  /** The text of the normalized items, empty when some item is refused. */
  ghost function ItemsText(items: seq<JsonTree.Tree>): string {
    if NormalizeItems(items).Some? then RenderItems(NormalizeItems(items).value) else ""
  }

  ghost function MemberText(t: JsonTree.Tree, key: string): string
    requires t.Object? && key in t.members && Normalize(t.members[key]).Some?
  {
    Quote(key) + ":" + Render(Normalize(t.members[key]).value)
  }

  ghost function MembersOf(t: JsonTree.Tree, keys: seq<string>): string
    requires t.Object? && forall k :: k in keys ==> k in t.members
  {
    if Normalize(t).Some? then RenderMembers(Normalize(t).value, keys) else ""
  }

  /** What the text will be once the members from the i-th on are written too. */
  ghost function MembersLeft(t: JsonTree.Tree, keys: seq<string>, i: nat, text: string): string
    requires t.Object? && i <= |keys| && forall k :: k in keys ==> k in t.members
  {
    text + Continued(i, MembersOf(t, keys[i..]))
  }

  lemma MemberWritten(t: JsonTree.Tree, keys: seq<string>, i: nat, before: string)
    requires t.Object? && Normalize(t).Some? && i < |keys| && forall k :: k in keys ==> k in t.members
    ensures Normalize(t.members[keys[i]]).Some?
    ensures MembersLeft(t, keys, i, before)
            == MembersLeft(t, keys, i + 1, (if i > 0 then before + "," else before) + MemberText(t, keys[i]))
  {
    MembersStep(t, keys[i..]);
    assert keys[i..][1..] == keys[i + 1..];
    Separate(before, i, MemberText(t, keys[i]), Continued(1, MembersOf(t, keys[i + 1..])));
  }

  lemma MemberRefused(t: JsonTree.Tree, key: string)
    requires t.Object? && key in t.members && Normalize(t.members[key]).None?
    ensures Normalize(t).None?
  {
  }

  /** None of the first n members is refused. */
  predicate FirstNormalize(t: JsonTree.Tree, keys: seq<string>, n: nat)
    requires t.Object? && n <= |keys| && forall k :: k in keys ==> k in t.members
  {
    n == 0 || (FirstNormalize(t, keys, n - 1) && Normalize(t.members[keys[n - 1]]).Some?)
  }

  lemma {:induction false} EachOfFirstNormalizes(t: JsonTree.Tree, keys: seq<string>, n: nat, j: nat)
    requires t.Object? && j < n <= |keys| && (forall k :: k in keys ==> k in t.members) && FirstNormalize(t, keys, n)
    ensures Normalize(t.members[keys[j]]).Some?
  {
    if j < n - 1 {
      EachOfFirstNormalizes(t, keys, n - 1, j);
    }
  }

  lemma AllMembersNormalize(t: JsonTree.Tree, keys: seq<string>)
    requires t.Object? && (forall k :: k in keys <==> k in t.members) && FirstNormalize(t, keys, |keys|)
    ensures Normalize(t).Some?
  {
    forall k | k in t.members ensures Normalize(t.members[k]).Some? {
      var j :| 0 <= j < |keys| && keys[j] == k;
      EachOfFirstNormalizes(t, keys, |keys|, j);
    }
  }

  lemma NoneLeft(t: JsonTree.Tree, keys: seq<string>, text: string)
    requires t.Object? && (forall k :: k in keys ==> k in t.members) && Normalize(t).Some?
    ensures MembersLeft(t, keys, |keys|, text) == text
  {
    assert keys[|keys|..] == [] && text + "" == text;
  }

  lemma NamesAreMembers(t: JsonTree.Tree, keys: seq<string>)
    requires t.Object? && Names(keys) == t.members.Keys
    ensures forall k :: k in keys <==> k in t.members
  {
    assert forall k :: k in keys <==> k in Names(keys);
  }

  lemma ObjectText(t: JsonTree.Tree, keys: seq<string>)
    requires t.Object? && Normalize(t).Some? && keys == SortedNames(t.members.Keys)
    ensures (forall k :: k in keys ==> k in t.members) && Render(Normalize(t).value) == "{" + MembersOf(t, keys) + "}"
  {
    NamesAreMembers(t, keys);
    assert Normalize(t).value.members.Keys == t.members.Keys;
  }

  /** Writing one element after its separator uses up exactly the front of what was left. */
  lemma Separate(before: string, i: nat, head: string, more: string)
    requires head != ""
    ensures before + Continued(i, head + more) == (if i > 0 then before + "," else before) + head + more
    ensures Continued(i + 1, "") == ""
  {
    if i > 0 {
      assert before + ("," + (head + more)) == before + "," + head + more;
    } else {
      assert before + (head + more) == before + head + more;
    }
  }

  /** What is still to be written after i elements, the separator included. */
  function Continued(i: nat, rest: string): string {
    if i > 0 && rest != "" then "," + rest else rest
  }

  lemma ItemsStep(items: seq<JsonTree.Tree>)
    requires items != [] && NormalizeItems(items).Some?
    ensures Render(Normalize(items[0]).value) != ""
    ensures ItemsText(items) == Render(Normalize(items[0]).value) + Continued(1, ItemsText(items[1..]))
  {
    var ds := NormalizeItems(items).value;
    assert ds[1..] == NormalizeItems(items[1..]).value;
    RenderStarts(ds[0]);
    if |ds| > 1 {
      RenderStarts(ds[1]);
    }
  }

  lemma MembersStep(t: JsonTree.Tree, keys: seq<string>)
    requires t.Object? && keys != [] && (forall k :: k in keys ==> k in t.members) && Normalize(t).Some?
    ensures Normalize(t.members[keys[0]]).Some?
    ensures MembersOf(t, keys) == MemberText(t, keys[0]) + Continued(1, MembersOf(t, keys[1..]))
  {
    var d := Normalize(t).value;
    assert d.members[keys[0]] == Normalize(t.members[keys[0]]).value;
    if |keys| > 1 {
      MembersText(d, keys[1..], "");
    }
  }

  /** Ranging over a map: every key once, in no particular order. */
  method CollectKeys(members: map<string, JsonTree.Tree>) returns (keys: seq<string>)
    ensures Names(keys) == members.Keys
    ensures forall i, j :: 0 <= i < j < |keys| ==> keys[i] != keys[j]
  {
    keys := [];
    var todo := members.Keys;
    while todo != {}
      invariant todo <= members.Keys && Names(keys) == members.Keys - todo
      invariant forall i, j :: 0 <= i < j < |keys| ==> keys[i] != keys[j]
      decreases |todo|
    {
      var key :| key in todo;
      assert forall i :: 0 <= i < |keys| ==> keys[i] in Names(keys);
      assert forall k :: k in keys + [key] <==> k in keys || k == key;
      assert Names(keys + [key]) == Names(keys) + {key};
      keys := keys + [key];
      todo := todo - {key};
    }
  }

  /** Canonicalize, from a decoded tree. */
  method Canonicalize(t: JsonTree.Tree) returns (r: Option<string>)
    ensures r == Canonical(t)
  {
    var out := new Buffer();
    var ok := out.Write(t);
    if !ok {
      return None;
    }
    assert "" + Render(Normalize(t).value) == Render(Normalize(t).value);
    return Some(out.text);
  }
}
