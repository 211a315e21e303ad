/** A reader for JSON text, sections 2 to 7 of RFC 8259, with numbers restricted to
    integers. A repeated key keeps the last value, as inserting into a map does. */
module JsonReader {
  import opened TextOrder
  import opened Wrappers
  import opened JsonValues

  predicate IsWhitespace(c: char) {
    c == ' ' || c == '\t' || c == '\n' || c == '\r'
  }

  function SkipWhitespace(s: string): (r: string)
    ensures |r| <= |s|
  {
    if s != "" && IsWhitespace(s[0]) then SkipWhitespace(s[1..]) else s
  }

  /** The number spelled by the leading digits, continuing from `n`, and what follows. */
  function ReadDigits(s: string, n: nat): (r: (nat, string))
    ensures |r.1| <= |s|
  {
    if s != "" && IsDigit(s[0]) then ReadDigits(s[1..], 10 * n + (s[0] as int - '0' as int)) else (n, s)
  }

  /** An unsigned integer without superfluous leading zeros. */
  function ReadNat(s: string): (r: Option<(nat, string)>)
    ensures r.Some? ==> |r.value.1| < |s|
  {
    if s == "" || !IsDigit(s[0]) then None
    else if s[0] == '0' then Some((0, s[1..]))
    else Some(ReadDigits(s[1..], s[0] as int - '0' as int))
  }

  function ReadNumber(s: string): (r: Option<(int, string)>)
    ensures r.Some? ==> |r.value.1| < |s|
  {
    if s != "" && s[0] == '-' then
      match ReadNat(s[1..])
      case None => None
      case Some((n, rest)) => if n == 0 then None else Some((-(n as int), rest))
    else
      match ReadNat(s)
      case None => None
      case Some((n, rest)) => Some((n, rest))
  }

  function HexValue(c: char): Option<nat> {
    if IsDigit(c) then Some(c as int - '0' as int)
    else if 'a' <= c <= 'f' then Some(c as int - 'a' as int + 10)
    else if 'A' <= c <= 'F' then Some(c as int - 'A' as int + 10)
    else None
  }

  /** Four hexadecimal digits: one UTF-16 code unit. */
  function ReadUnit(s: string): (r: Option<(nat, string)>)
    ensures r.Some? ==> r.value.0 < 0x10000 && |r.value.1| < |s|
  {
    if |s| < 4 then None
    else
      var a :- HexValue(s[0]);
      var b :- HexValue(s[1]);
      var c :- HexValue(s[2]);
      var d :- HexValue(s[3]);
      if a < 16 && b < 16 && c < 16 && d < 16 then Some((((a * 16 + b) * 16 + c) * 16 + d, s[4..])) else None
  }

  /** A code point given as one escaped unit, or as a surrogate pair of two. */
  function ReadUnicode(s: string): (r: Option<(char, string)>)
    ensures r.Some? ==> |r.value.1| < |s|
  {
    var (u, rest) :- ReadUnit(s);
    if u < 0xD800 || 0xE000 <= u then Some((u as char, rest))
    else if 0xDC00 <= u || |rest| < 2 || rest[0] != '\\' || rest[1] != 'u' then None
    else
      var (w, rest') :- ReadUnit(rest[2..]);
      if 0xDC00 <= w < 0xE000 then Some(((0x10000 + (u - 0xD800) * 0x400 + (w - 0xDC00)) as char, rest'))
      else None
  }

  /** What follows a reverse solidus. */
  function ReadEscape(s: string): (r: Option<(char, string)>)
    ensures r.Some? ==> |r.value.1| < |s|
  {
    if s == "" then None
    else match s[0]
      case '\"' => Some(('\"', s[1..]))
      case '\\' => Some(('\\', s[1..]))
      case '/' => Some(('/', s[1..]))
      case 'b' => Some(('\U{0008}', s[1..]))
      case 'f' => Some(('\U{000C}', s[1..]))
      case 'n' => Some(('\n', s[1..]))
      case 'r' => Some(('\r', s[1..]))
      case 't' => Some(('\t', s[1..]))
      case 'u' => ReadUnicode(s[1..])
      case _ => None
  }

  /** The rest of a string, up to and including the closing quotation mark. */
  function ReadString(s: string): (r: Option<(string, string)>)
    ensures r.Some? ==> |r.value.1| < |s|
    decreases |s|
  {
    if s == "" || s[0] < ' ' then None
    else if s[0] == '\"' then Some(("", s[1..]))
    else if s[0] == '\\' then
      var (c, rest) :- ReadEscape(s[1..]);
      var (t, rest') :- ReadString(rest);
      Some(([c] + t, rest'))
    else
      var (t, rest) :- ReadString(s[1..]);
      Some(([s[0]] + t, rest))
  }

  /** Insert a member, or replace the value of the member with that key. */
  function Put(ms: seq<Member>, m: Member): seq<Member> {
    if ms == [] then [m]
    else if ms[0].key == m.key then [m] + ms[1..]
    else [ms[0]] + Put(ms[1..], m)
  }

  function KeepLast(ms: seq<Member>): seq<Member> {
    if ms == [] then [] else Put(KeepLast(ms[..|ms| - 1]), ms[|ms| - 1])
  }

  function ReadWord(s: string, word: string, v: Json): (r: Option<(Json, string)>)
    requires word != ""
    ensures r.Some? ==> |r.value.1| < |s|
  {
    if word <= s then Some((v, s[|word|..])) else None
  }

  function ReadValue(s: string): (r: Option<(Json, string)>)
    ensures r.Some? ==> |r.value.1| < |s|
    decreases |s|, 0
  {
    var t := SkipWhitespace(s);
    if t == "" then None
    else if t[0] == 'n' then ReadWord(t, "null", Null)
    else if t[0] == 't' then ReadWord(t, "true", Bool(true))
    else if t[0] == 'f' then ReadWord(t, "false", Bool(false))
    else if t[0] == '\"' then
      var (str, rest) :- ReadString(t[1..]);
      Some((Str(str), rest))
    else if t[0] == '[' then
      var u := SkipWhitespace(t[1..]);
      if u != "" && u[0] == ']' then Some((Arr([]), u[1..]))
      else
        var (items, rest) :- ReadItems(t[1..]);
        Some((Arr(items), rest))
    else if t[0] == '{' then
      var u := SkipWhitespace(t[1..]);
      if u != "" && u[0] == '}' then Some((Obj([]), u[1..]))
      else
        var (ms, rest) :- ReadMembers(t[1..]);
        Some((Obj(KeepLast(ms)), rest))
    else
      var (n, rest) :- ReadNumber(t);
      Some((Num(n), rest))
  }

  /** One or more values separated by commas, up to and including the closing bracket. */
  function ReadItems(s: string): (r: Option<(seq<Json>, string)>)
    ensures r.Some? ==> |r.value.1| < |s|
    decreases |s|, 1
  {
    var (v, rest) :- ReadValue(s);
    var t := SkipWhitespace(rest);
    if t == "" then None
    else if t[0] == ']' then Some(([v], t[1..]))
    else if t[0] == ',' then
      var (more, rest') :- ReadItems(t[1..]);
      Some(([v] + more, rest'))
    else None
  }

  function ReadMember(s: string): (r: Option<(Member, string)>)
    ensures r.Some? ==> |r.value.1| < |s|
    decreases |s|, 1
  {
    var t := SkipWhitespace(s);
    if t == "" || t[0] != '\"' then None
    else
      var (key, rest) :- ReadString(t[1..]);
      var u := SkipWhitespace(rest);
      if u == "" || u[0] != ':' then None
      else
        var (v, rest') :- ReadValue(u[1..]);
        Some((Member(key, v), rest'))
  }

  /** One or more members separated by commas, up to and including the closing brace. */
  function ReadMembers(s: string): (r: Option<(seq<Member>, string)>)
    ensures r.Some? ==> |r.value.1| < |s|
    decreases |s|, 2
  {
    var (m, rest) :- ReadMember(s);
    var t := SkipWhitespace(rest);
    if t == "" then None
    else if t[0] == '}' then Some(([m], t[1..]))
    else if t[0] == ',' then
      var (more, rest') :- ReadMembers(t[1..]);
      Some(([m] + more, rest'))
    else None
  }

  /** A whole document: one value, with whitespace around it allowed. */
  function Parse(s: string): Option<Json> {
    var (v, rest) :- ReadValue(s);
    if SkipWhitespace(rest) == "" then Some(v) else None
  }

  // ---- What is read is well formed ---------------------------------------------

  lemma {:induction false} PutUnique(ms: seq<Member>, m: Member)
    requires UniqueKeys(ms)
    ensures UniqueKeys(Put(ms, m))
    ensures forall x :: x in Put(ms, m) ==> x == m || x in ms
    ensures forall x :: x in Put(ms, m) ==> x.key == m.key || exists i :: 0 <= i < |ms| && ms[i].key == x.key
  {
    if ms == [] {
    } else if ms[0].key != m.key {
      PutUnique(ms[1..], m);
      var rest := Put(ms[1..], m);
      forall j | 0 <= j < |rest| ensures rest[j].key != ms[0].key {
        assert rest[j] in rest;
        if rest[j].key != m.key {
          var i :| 0 <= i < |ms| - 1 && ms[1..][i].key == rest[j].key;
          assert ms[i + 1].key != ms[0].key;
        }
      }
      forall x | x in Put(ms, m) ensures x.key == m.key || exists i :: 0 <= i < |ms| && ms[i].key == x.key {
        if x in rest && x.key != m.key {
          var i :| 0 <= i < |ms| - 1 && ms[1..][i].key == x.key;
          assert ms[i + 1].key == x.key;
        } else if x == ms[0] {
          assert ms[0].key == x.key;
        }
      }
    }
  }

  lemma {:induction false} KeepLastUnique(ms: seq<Member>)
    ensures UniqueKeys(KeepLast(ms))
    ensures forall x :: x in KeepLast(ms) ==> x in ms
  {
    if ms == [] {
    } else {
      KeepLastUnique(ms[..|ms| - 1]);
      PutUnique(KeepLast(ms[..|ms| - 1]), ms[|ms| - 1]);
    }
  }

  lemma {:induction false} PutNew(ms: seq<Member>, m: Member)
    requires forall i :: 0 <= i < |ms| ==> ms[i].key != m.key
    ensures Put(ms, m) == ms + [m]
  {
    if ms == [] {
    } else {
      PutNew(ms[1..], m);
      assert ms == [ms[0]] + ms[1..];
    }
  }

  /** Without repeated keys nothing is replaced. */
  lemma {:induction false} KeepLastOfUnique(ms: seq<Member>)
    requires UniqueKeys(ms)
    ensures KeepLast(ms) == ms
  {
    if ms == [] {
    } else {
      var init, last := ms[..|ms| - 1], ms[|ms| - 1];
      assert ms == init + [last];
      KeepLastOfUnique(init);
      PutNew(init, last);
    }
  }
}
