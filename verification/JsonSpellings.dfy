/** What the reader makes of text that is not canonical: repeated keys, other spellings of
    a character, whitespace; and what the order of keys is. */
module JsonSpellings {
  import opened TextOrder
  import opened Wrappers
  import opened JsonValues
  import opened CanonicalJson
  import opened JsonReader
  import opened CanonicalTheorems

  // ---- Repeated keys ----------------------------------------------------------------

  /** Member `i` is the last one with its key. */
  predicate LastOfKey(ms: seq<Member>, i: nat) {
    i < |ms| && forall j :: i < j < |ms| ==> ms[j].key != ms[i].key
  }

  lemma {:induction false} PutReplaces(ms: seq<Member>, m: Member, x: Member)
    requires UniqueKeys(ms)
    ensures x in Put(ms, m) <==> x == m || (x in ms && x.key != m.key)
  {
    if ms == [] {
    } else {
      assert ms == [ms[0]] + ms[1..];
      PutReplaces(ms[1..], m, x);
      if ms[0].key == m.key && x in ms[1..] {
        var i :| 0 <= i < |ms| - 1 && ms[1..][i] == x;
        assert ms[i + 1].key != ms[0].key;
      }
    }
  }

  ghost predicate IsLastOfKey(ms: seq<Member>, m: Member) {
    exists i: nat :: LastOfKey(ms, i) && ms[i] == m
  }

  lemma LastOneMore(init: seq<Member>, last: Member, i: nat)
    ensures var ms := init + [last];
            && LastOfKey(ms, |init|)
            && (i < |init| ==> (LastOfKey(ms, i) <==> LastOfKey(init, i) && init[i].key != last.key))
  {
    var ms := init + [last];
    assert forall j :: 0 <= j < |init| ==> ms[j] == init[j];
    assert ms[|init|] == last;
    if i < |init| && LastOfKey(ms, i) {
      assert forall j :: i < j < |init| ==> ms[j].key != ms[i].key;
    }
  }

  lemma IsLastOneMore(init: seq<Member>, last: Member, m: Member)
    ensures IsLastOfKey(init + [last], m) <==> m == last || (IsLastOfKey(init, m) && m.key != last.key)
  {
    var ms := init + [last];
    assert forall j :: 0 <= j < |init| ==> ms[j] == init[j];
    assert ms[|init|] == last;
    forall i: nat
      ensures LastOfKey(ms, |init|)
      ensures i < |init| ==> (LastOfKey(ms, i) <==> LastOfKey(init, i) && init[i].key != last.key)
    {
      LastOneMore(init, last, i);
    }
    assert forall i: nat :: LastOfKey(ms, i) ==> i <= |init|;
    assert forall i: nat :: LastOfKey(init, i) ==> i < |init|;
    hide LastOfKey;
  }

  /** Of several members with one key the last is kept, and every key is kept. */
  lemma {:induction false} KeepLastKeepsLast(ms: seq<Member>, m: Member)
    ensures m in KeepLast(ms) <==> IsLastOfKey(ms, m)
    decreases |ms|
  {
    if ms == [] {
    } else {
      var init, last := ms[..|ms| - 1], ms[|ms| - 1];
      hide IsLastOfKey;
      assert ms == init + [last];
      KeepLastKeepsLast(init, m);
      KeepLastUnique(init);
      PutReplaces(KeepLast(init), last, m);
      IsLastOneMore(init, last, m);
      hide Put;
    }
  }

  /** An object whose text repeats keys is read, and each key has the last value. */
  lemma RepeatedKeysAreRead(ms: seq<Member>)
    requires ms != [] && forall i :: 0 <= i < |ms| ==> WellFormed(ms[i].value)
    ensures Parse("{" + TextMembers(ms) + "}") == Some(Obj(KeepLast(ms)))
  {
    hide KeepLast;
    hide TextMembers;
    hide ReadMembers;
    hide ReadValue;
    MembersRead(ms, "");
    ObjStep(ms, "");
    assert "{" + TextMembers(ms) + "}" + "" == "{" + TextMembers(ms) + "}";
  }

  // ---- Other spellings of a character ---------------------------------------------------

  /** A hexadecimal digit in either case, and the number it stands for. */
  predicate Spells(d: char, n: nat) {
    || ('0' <= d <= '9' && n == d as int - 48)
    || ('a' <= d <= 'f' && n == d as int - 87)
    || ('A' <= d <= 'F' && n == d as int - 55)
  }

  /** Four digits of either case that stand for the number, most significant first. */
  predicate SpellUnit(t: string, u: nat) {
    && |t| == 4 && u < 65536
    && Spells(t[0], u / 4096) && Spells(t[1], u / 256 % 16) && Spells(t[2], u / 16 % 16) && Spells(t[3], u % 16)
  }

  lemma UnitIsRead(t: string, u: nat, rest: string)
    requires SpellUnit(t, u)
    ensures ReadUnit(t + rest) == Some((u, rest))
  {
    var s := t + rest;
    assert s[0] == t[0] && s[1] == t[1] && s[2] == t[2] && s[3] == t[3] && s[4..] == rest;
    assert ((u / 4096 * 16 + u / 256 % 16) * 16 + u / 16 % 16) * 16 + u % 16 == u by {
      assert u / 16 / 16 == u / 256 && u / 256 / 16 == u / 4096;
    }
  }

  /** Every character below U+10000 may be written as `\u` and four digits. */
  lemma UnitSpelling(t: string, c: char, rest: string)
    requires SpellUnit(t, c as int)
    ensures ReadString("\\u" + t + rest) == Prepend(c, ReadString(rest))
  {
    hide ReadUnit;
    UnitIsRead(t, c as int, rest);
    assert ("u" + t + rest)[1..] == t + rest;
    assert "\\u" + t + rest == "\\" + ("u" + t) + rest;
    EscapedRead(c, "u" + t, rest);
  }

  /** Every other character may be written as a surrogate pair. */
  lemma PairSpelling(t: string, t': string, c: char, rest: string)
    requires c as int >= 0x10000
    requires SpellUnit(t, 0xD800 + (c as int - 0x10000) / 1024) && SpellUnit(t', 0xDC00 + (c as int - 0x10000) % 1024)
    ensures ReadString("\\u" + t + "\\u" + t' + rest) == Prepend(c, ReadString(rest))
  {
    hide ReadUnit;
    var u, w := 0xD800 + (c as int - 0x10000) / 1024, 0xDC00 + (c as int - 0x10000) % 1024;
    var more := "\\u" + t' + rest;
    UnitIsRead(t, u, more);
    UnitIsRead(t', w, rest);
    assert more[0] == '\\' && more[1] == 'u' && more[2..] == t' + rest;
    var body := "u" + t + "\\u" + t';
    assert (body + rest)[1..] == t + more;
    assert ReadEscape(body + rest) == Some((c, rest));
    assert "\\u" + t + "\\u" + t' + rest == "\\" + body + rest;
    EscapedRead(c, body, rest);
  }

  /** A surrogate without its partner is refused. */
  lemma LoneSurrogateIsRefused(t: string, u: nat, rest: string)
    requires SpellUnit(t, u) && 0xD800 <= u < 0xE000 && (u >= 0xDC00 || rest == "" || rest[0] != '\\')
    ensures ReadString("\\u" + t + rest) == None
  {
    hide ReadUnit;
    UnitIsRead(t, u, rest);
    hide SpellUnit;
    assert ("\\u" + t + rest)[1..] == "u" + t + rest && ("u" + t + rest)[1..] == t + rest;
    assert ReadEscape("u" + t + rest) == None;
  }

  /** A letter that names no escape is refused. */
  lemma UnknownEscapeIsRefused(letter: char, rest: string)
    requires letter !in {'\"', '\\', '/', 'b', 'f', 'n', 'r', 't', 'u'}
    ensures ReadString("\\" + [letter] + rest) == None
  {
    assert ("\\" + [letter] + rest)[1..] == [letter] + rest;
    assert ReadEscape([letter] + rest) == None;
  }

  /** A solidus may be escaped. */
  lemma SolidusSpelling(rest: string)
    ensures ReadString("\\/" + rest) == Prepend('/', ReadString(rest))
  {
    assert ("/" + rest)[1..] == rest;
    assert "\\/" + rest == "\\" + "/" + rest;
    EscapedRead('/', "/", rest);
  }

  // ---- Whitespace ---------------------------------------------------------------------

  /** Spaces, tabs and line ends only. */
  predicate Blank(w: string) {
    forall i :: 0 <= i < |w| ==> w[i] in {' ', '\t', '\n', '\r'}
  }

  lemma {:induction false} BlankIsSkipped(w: string, rest: string)
    requires Blank(w) && (rest != "" ==> rest[0] !in {' ', '\t', '\n', '\r'})
    ensures SkipWhitespace(w + rest) == rest
  {
    if w == "" {
      assert w + rest == rest;
    } else {
      assert (w + rest)[1..] == w[1..] + rest;
      BlankIsSkipped(w[1..], rest);
    }
  }

  lemma SkippedIsRead(s: string)
    ensures ReadValue(SkipWhitespace(s)) == ReadValue(s)
  {
    SkipTwice(s);
    var t := SkipWhitespace(s);
    assert SkipWhitespace(t) == t;
    hide SkipWhitespace;
    hide ReadString;
    hide ReadItems;
    hide ReadMembers;
    hide ReadNumber;
    hide KeepLast;
    hide ReadWord;
  }

  lemma {:induction false} SkipTwice(s: string)
    ensures SkipWhitespace(SkipWhitespace(s)) == SkipWhitespace(s)
  {
    if s != "" && IsWhitespace(s[0]) {
      SkipTwice(s[1..]);
    }
  }

  /** Whitespace around a document does not change what is read. */
  lemma WhitespaceAround(before: string, v: Json, after: string)
    requires WellFormed(v) && Blank(before) && Blank(after)
    ensures Parse(before + Text(v) + after) == Some(v)
  {
    hide Text;
    TextStart(v);
    TextRead(v, after);
    assert before + Text(v) + after == before + (Text(v) + after);
    assert (Text(v) + after)[0] == Text(v)[0];
    BlankIsSkipped(before, Text(v) + after);
    BlankIsSkipped(after, "");
    assert after + "" == after;
    hide ReadValue;
    SkippedIsRead(before + (Text(v) + after));
  }

  // ---- The order of keys ----------------------------------------------------------------

  /** Key `a` comes before `b`: it is the shorter of the two and begins the other, or has
      the smaller code point where they first differ. */
  ghost predicate Precedes(a: string, b: string) {
    || (|a| < |b| && a == b[..|a|])
    || exists i :: 0 <= i < |a| && i < |b| && a[..i] == b[..i] && a[i] as int < b[i] as int
  }

  lemma {:induction false} LessExactly(a: string, b: string)
    ensures Less(a, b) <==> Precedes(a, b)
  {
    if a == "" || b == "" {
      assert a == "" ==> a == b[..0];
    } else {
      LessExactly(a[1..], b[1..]);
      var p, q := a[1..], b[1..];
      if a[0] == b[0] {
        if |p| < |q| && p == q[..|p|] {
          assert a == [a[0]] + p && b[..|a|] == [b[0]] + q[..|p|];
        } else if i :| 0 <= i < |p| && i < |q| && p[..i] == q[..i] && p[i] as int < q[i] as int {
          assert a[..i + 1] == [a[0]] + p[..i] && b[..i + 1] == [b[0]] + q[..i];
          assert a[i + 1] as int < b[i + 1] as int;
        }
        if |a| < |b| && a == b[..|a|] {
          assert p == b[..|a|][1..] == q[..|p|];
        } else if i :| 0 <= i < |a| && i < |b| && a[..i] == b[..i] && a[i] as int < b[i] as int {
          assert p[..i - 1] == a[..i][1..] && q[..i - 1] == b[..i][1..];
          assert p[i - 1] as int < q[i - 1] as int;
        }
      } else {
        assert a[..0] == b[..0];
        assert |a| < |b| ==> b[..|a|][0] == b[0];
        assert forall i :: 0 < i < |a| && i < |b| ==> a[..i][0] == a[0] && b[..i][0] == b[0];
      }
    }
  }

  /** The members of a printed object are those of the object, each key before the next by
      code points. */
  lemma PrintedInOrder(ms: seq<Member>)
    requires WellFormed(Obj(ms))
    ensures Normalize(Obj(ms)).Obj?
    ensures var sorted := Normalize(Obj(ms)).members;
            && |sorted| == |ms|
            && (forall i, j :: 0 <= i < j < |sorted| ==> Precedes(sorted[i].key, sorted[j].key))
            && forall m :: m in ms ==> Member(m.key, Normalize(m.value)) in sorted
  {
    hide Less;
    hide Precedes;
    var ns := NormalizeMembers(ms);
    forall i, j | 0 <= i < j < |ns| ensures ns[i].key != ns[j].key {
      NormalizeMembersAt(ms, i);
      NormalizeMembersAt(ms, j);
    }
    SortIsRight(ns);
    var sorted := SortByKey(ns);
    forall i, j | 0 <= i < j < |sorted| ensures Precedes(sorted[i].key, sorted[j].key) {
      LessExactly(sorted[i].key, sorted[j].key);
    }
    forall m | m in ms ensures Member(m.key, Normalize(m.value)) in sorted {
      var i :| 0 <= i < |ms| && ms[i] == m;
      NormalizeMembersAt(ms, i);
      assert ns[i] in ns;
    }
  }
}
