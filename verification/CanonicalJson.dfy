/** The canonical printer: no whitespace, object members sorted by key at every
    level, strings escaped as the JSON library does. */
module CanonicalJson {
  import opened TextOrder
  import opened Sequences
  import opened JsonValues
  import opened JsonEquality

  // ---- The text of a value, members in the order given -------------------------

  const DIGITS := "0123456789abcdef"

  function Digits(n: nat): (t: string)
    ensures |t| > 0
  {
    if n < 10 then [DIGITS[n]] else Digits(n / 10) + [DIGITS[n % 10]]
  }

  function NumText(n: int): string {
    if n < 0 then "-" + Digits(-n) else Digits(n)
  }

  /** Quotation mark, reverse solidus and control characters are escaped, with the
      two-character forms where they exist; everything else stands for itself. */
  function EscapeChar(c: char): (t: string)
    ensures |t| > 0
  {
    if c == '\"' then "\\\""
    else if c == '\\' then "\\\\"
    else if c == '\U{0008}' then "\\b"
    else if c == '\U{000C}' then "\\f"
    else if c == '\n' then "\\n"
    else if c == '\r' then "\\r"
    else if c == '\t' then "\\t"
    else if c < ' ' then "\\u00" + [DIGITS[c as int / 16], DIGITS[c as int % 16]]
    else [c]
  }

  function EscapeAll(s: string): string {
    if s == "" then "" else EscapeChar(s[0]) + EscapeAll(s[1..])
  }

  function Quote(s: string): string {
    "\"" + EscapeAll(s) + "\""
  }

  function Text(v: Json): string
    decreases v
  {
    match v
    case Null => "null"
    case Bool(b) => if b then "true" else "false"
    case Num(n) => NumText(n)
    case Str(s) => Quote(s)
    case Arr(items) => "[" + TextItems(items) + "]"
    case Obj(ms) => "{" + TextMembers(ms) + "}"
  }

  function TextItems(items: seq<Json>): string
    decreases items
  {
    if items == [] then ""
    else if |items| == 1 then Text(items[0])
    else Text(items[0]) + ("," + TextItems(items[1..]))
  }

  function MemberText(m: Member): string
    decreases m
  {
    Quote(m.key) + (":" + Text(m.value))
  }

  function TextMembers(ms: seq<Member>): string
    decreases ms
  {
    if ms == [] then ""
    else if |ms| == 1 then MemberText(ms[0])
    else MemberText(ms[0]) + ("," + TextMembers(ms[1..]))
  }

  /** What `canonical_json` returns. */
  function Canonical(v: Json): string {
    Text(Normalize(v))
  }

  // ---- The printer as it runs: one buffer, appended to -------------------------

  class TextBuffer {
    var text: string

    constructor ()
      ensures text == ""
    {
      text := "";
    }

    method Push(more: string)
      modifies this
      ensures text == old(text) + more
    {
      text := text + more;
    }
  }

  function KeysOf(ms: seq<Member>): (ks: seq<string>)
    ensures |ks| == |ms|
    ensures forall i :: 0 <= i < |ms| ==> ks[i] == ms[i].key
  {
    seq(|ms|, i requires 0 <= i < |ms| => ms[i].key)
  }

  function InsertKey(k: string, ks: seq<string>): seq<string> {
    if ks == [] || Less(k, ks[0]) then [k] + ks else [ks[0]] + InsertKey(k, ks[1..])
  }

  /** The library sort of the key list. */
  function SortKeys(ks: seq<string>): seq<string> {
    if ks == [] then [] else InsertKey(ks[0], SortKeys(ks[1..]))
  }

  lemma {:induction false} InsertKeyMatches(m: Member, ms: seq<Member>)
    ensures KeysOf(InsertByKey(m, ms)) == InsertKey(m.key, KeysOf(ms))
  {
    hide Less;
    if ms == [] || Less(m.key, ms[0].key) {
      assert KeysOf([m] + ms) == [m.key] + KeysOf(ms);
    } else {
      var rest := InsertByKey(m, ms[1..]);
      InsertKeyMatches(m, ms[1..]);
      assert KeysOf(ms)[1..] == KeysOf(ms[1..]);
      assert KeysOf([ms[0]] + rest) == [ms[0].key] + KeysOf(rest);
    }
  }

  /** Sorting the keys and looking the values up is sorting the members. */
  lemma {:induction false} SortKeysMatches(ms: seq<Member>)
    ensures KeysOf(SortByKey(ms)) == SortKeys(KeysOf(ms))
  {
    if ms == [] {
    } else {
      SortKeysMatches(ms[1..]);
      assert KeysOf(ms)[1..] == KeysOf(ms[1..]);
      InsertKeyMatches(ms[0], SortByKey(ms[1..]));
    }
  }

  /** What is still to be written of a list from position `i` on. */
  function ItemsFrom(items: seq<Json>, i: nat): string
    requires i <= |items|
  {
    if i == |items| then "" else (if i > 0 then "," else "") + TextItems(items[i..])
  }

  function MembersFrom(ms: seq<Member>, i: nat): string
    requires i <= |ms|
  {
    if i == |ms| then "" else (if i > 0 then "," else "") + TextMembers(ms[i..])
  }

  lemma ItemsFromStep(items: seq<Json>, i: nat)
    requires i < |items|
    ensures ItemsFrom(items, i) == (if i > 0 then "," else "") + (Text(items[i]) + ItemsFrom(items, i + 1))
  {
    assert items[i..][1..] == items[i + 1..];
    if i + 1 == |items| {
      assert Text(items[i]) + "" == Text(items[i]);
    }
  }

  lemma MembersFromStep(ms: seq<Member>, i: nat)
    requires i < |ms|
    ensures MembersFrom(ms, i) == (if i > 0 then "," else "") + (MemberText(ms[i]) + MembersFrom(ms, i + 1))
  {
    assert ms[i..][1..] == ms[i + 1..];
    if i + 1 == |ms| {
      assert MemberText(ms[i]) + "" == MemberText(ms[i]);
    }
  }

  /** The sorted keys, with the values found under them, are the sorted members. */
  lemma SortedMembers(ms: seq<Member>, i: nat)
    requires UniqueKeys(ms) && i < |ms|
    ensures |SortKeys(KeysOf(ms))| == |SortByKey(NormalizeMembers(ms))| == |ms|
    ensures var k := SortKeys(KeysOf(ms))[i];
            HasKey(ms, k) && SortByKey(NormalizeMembers(ms))[i] == Member(k, Normalize(ms[IndexOf(ms, k)].value))
  {
    var ns := NormalizeMembers(ms);
    forall j | 0 <= j < |ms| ensures KeysOf(ns)[j] == KeysOf(ms)[j] {
      NormalizeMembersAt(ms, j);
    }
    assert KeysOf(ns) == KeysOf(ms);
    NormalizedUnique(ms);
    SortIsRight(ns);
    SortKeysMatches(ns);
    var m := SortByKey(ns)[i];
    assert m in ns;
    assert m == Member(m.key, m.value);
    NormalizedMember(ms, m.key, m.value);
  }

  lemma SortKeysLength(ms: seq<Member>)
    requires UniqueKeys(ms)
    ensures |SortKeys(KeysOf(ms))| == |ms|
  {
    if ms == [] {
      assert KeysOf(ms) == [];
    } else {
      SortedMembers(ms, 0);
    }
  }

  /** The recursive printer: it only appends, and what it appends is the canonical text. */
  method WriteCanonical(value: Json, buf: TextBuffer)
    requires WellFormed(value)
    modifies buf
    ensures buf.text == old(buf.text) + Canonical(value)
    decreases value, 1
  {
    match value {
      case Null => buf.Push("null");
      case Bool(b) => buf.Push(if b then "true" else "false");
      case Num(n) => buf.Push(NumText(n));
      case Str(s) => buf.Push(Quote(s));
      case Arr(items) =>
        buf.Push("[");
        WriteItems(items, buf);
        buf.Push("]");
        Bracketing(old(buf.text), "[", TextItems(NormalizeItems(items)), "]");
      case Obj(members) =>
        buf.Push("{");
        WriteMembers(members, buf);
        buf.Push("}");
        Bracketing(old(buf.text), "{", TextMembers(SortByKey(NormalizeMembers(members))), "}");
    }
  }

  lemma Bracketing(before: string, open: string, middle: string, close: string)
    ensures before + open + middle + close == before + (open + middle + close)
  {
  }

  method WriteItems(items: seq<Json>, buf: TextBuffer)
    requires forall i :: 0 <= i < |items| ==> WellFormed(items[i])
    modifies buf
    ensures buf.text == old(buf.text) + TextItems(NormalizeItems(items))
    decreases items, 0
  {
    hide Text;
    hide TextItems;
    ghost var start, all := buf.text, NormalizeItems(items);
    assert all[0..] == all;
    NothingToWrite();
    for i := 0 to |items|
      invariant buf.text + ItemsFrom(all, i) == start + ItemsFrom(all, 0)
    {
      ItemsFromStep(all, i);
      NormalizeItemsAt(items, i);
      Shift(buf.text, if i > 0 then "," else "", Text(all[i]), ItemsFrom(all, i + 1));
      if i > 0 {
        buf.Push(",");
      }
      WriteCanonical(items[i], buf);
    }
    assert buf.text + "" == buf.text;
  }

  lemma NothingToWrite()
    ensures TextItems([]) == "" && TextMembers([]) == ""
  {
  }

  lemma Shift(before: string, comma: string, item: string, rest: string)
    ensures before + (comma + (item + rest)) == before + comma + item + rest
    ensures before + "" == before
  {
  }

  method WriteMembers(members: seq<Member>, buf: TextBuffer)
    requires WellFormed(Obj(members))
    modifies buf
    ensures buf.text == old(buf.text) + TextMembers(SortByKey(NormalizeMembers(members)))
    decreases members, 0
  {
    hide Text;
    hide TextMembers;
    hide Quote;
    var keys := SortKeys(KeysOf(members));
    ghost var start, all := buf.text, SortByKey(NormalizeMembers(members));
    SortKeysLength(members);
    NothingToWrite();
    SortIsRightLength(members);
    assert all[0..] == all;
    for i := 0 to |keys|
      invariant buf.text + MembersFrom(all, i) == start + MembersFrom(all, 0)
    {
      SortedMembers(members, i);
      MembersFromStep(all, i);
      var key := keys[i];
      var value := members[IndexOf(members, key)].value;
      Shift(buf.text, if i > 0 then "," else "", MemberText(all[i]), MembersFrom(all, i + 1));
      ConcatAssociative(buf.text + (if i > 0 then "," else ""), Quote(key), ":" + Canonical(value));
      ConcatAssociative(buf.text + (if i > 0 then "," else "") + Quote(key), ":", Canonical(value));
      if i > 0 {
        buf.Push(",");
      }
      buf.Push(Quote(key));
      buf.Push(":");
      WriteCanonical(value, buf);
    }
    assert buf.text + "" == buf.text;
  }

  lemma SortIsRightLength(ms: seq<Member>)
    requires UniqueKeys(ms)
    ensures |SortByKey(NormalizeMembers(ms))| == |ms|
  {
    NormalizedUnique(ms);
    SortIsRight(NormalizeMembers(ms));
  }

  /** The entry point: canonical text in a fresh buffer. */
  method CanonicalText(value: Json) returns (text: string)
    requires WellFormed(value)
    ensures text == Canonical(value)
  {
    var buf := new TextBuffer();
    WriteCanonical(value, buf);
    assert "" + Canonical(value) == Canonical(value);
    text := buf.text;
  }
}
