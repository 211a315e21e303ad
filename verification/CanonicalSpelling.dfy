/** Which of the texts of a value is the canonical one: none is shorter, and where a
    character has several spellings of the same length the digits are lower case. */
module CanonicalSpelling {
  import opened TextOrder
  import opened Wrappers
  import opened Sequences
  import opened JsonValues
  import opened CanonicalJson
  import opened JsonReader
  import opened CanonicalTheorems

  // ---- No text of a value is shorter --------------------------------------------------

  lemma MoreDigits(n: nat, d: nat)
    requires d < 10
    ensures |Digits(10 * n + d)| <= |Digits(n)| + 1
  {
    assert (10 * n + d) / 10 == n;
  }

  lemma {:induction false} DigitsAreShortest(s: string, n: nat)
    ensures var (r, rest) := ReadDigits(s, n); |Digits(r)| <= |Digits(n)| + |s| - |rest|
    decreases |s|
  {
    hide Digits;
    if s != "" && IsDigit(s[0]) {
      var d := s[0] as int - '0' as int;
      MoreDigits(n, d);
      DigitsAreShortest(s[1..], 10 * n + d);
    }
  }

  lemma NatIsShortest(s: string)
    ensures match ReadNat(s)
            case None => true
            case Some((n, rest)) => |Digits(n)| <= |s| - |rest|
  {
    if s != "" && IsDigit(s[0]) && s[0] != '0' {
      DigitsAreShortest(s[1..], s[0] as int - '0' as int);
    }
  }

  lemma NumberIsShortest(s: string)
    ensures match ReadNumber(s)
            case None => true
            case Some((n, rest)) => |NumText(n)| <= |s| - |rest|
  {
    hide Digits;
    hide ReadNat;
    NatIsShortest(s);
    if s != "" {
      NatIsShortest(s[1..]);
    }
  }

  lemma EscapeIsShortest(s: string)
    ensures match ReadEscape(s)
            case None => true
            case Some((c, rest)) => |EscapeChar(c)| <= 1 + |s| - |rest|
  {
    if s != "" && s[0] == 'u' {
      UnitTakesFour(s[1..]);
      hide ReadUnit;
      assert forall c :: |EscapeChar(c)| <= 6;
    }
  }

  lemma UnitTakesFour(s: string)
    ensures ReadUnit(s).Some? ==> |ReadUnit(s).value.1| == |s| - 4
  {
  }

  lemma {:induction false} StringIsShortest(s: string)
    ensures match ReadString(s)
            case None => true
            case Some((t, rest)) => |EscapeAll(t)| + 1 <= |s| - |rest|
    decreases |s|
  {
    hide ReadEscape;
    if s == "" || s[0] < ' ' || s[0] == '\"' {
    } else if s[0] == '\\' {
      EscapeIsShortest(s[1..]);
      if ReadEscape(s[1..]).Some? {
        var (c, rest) := ReadEscape(s[1..]).value;
        StringIsShortest(rest);
        hide EscapeChar;
        if ReadString(rest).Some? {
          EscapeAllStep(c, ReadString(rest).value.0);
        }
      }
    } else {
      StringIsShortest(s[1..]);
      if ReadString(s[1..]).Some? {
        EscapeAllStep(s[0], ReadString(s[1..]).value.0);
      }
    }
  }

  lemma EscapeAllStep(c: char, t: string)
    ensures EscapeAll([c] + t) == EscapeChar(c) + EscapeAll(t)
  {
    assert ([c] + t)[1..] == t;
  }

  /** The length of the text of the members, each with a comma or brace after it. */
  function MembersLength(ms: seq<Member>): nat {
    if ms == [] then 0 else |MemberText(ms[0])| + 1 + MembersLength(ms[1..])
  }

  lemma {:induction false} MembersLengthIs(ms: seq<Member>)
    requires ms != []
    ensures |TextMembers(ms)| + 1 == MembersLength(ms)
  {
    hide MemberText;
    if |ms| > 1 {
      MembersLengthIs(ms[1..]);
    }
  }

  lemma {:induction false} PutLength(ms: seq<Member>, m: Member)
    ensures Put(ms, m) != [] && MembersLength(Put(ms, m)) <= MembersLength(ms) + |MemberText(m)| + 1
  {
    hide MemberText;
    if ms == [] {
    } else if ms[0].key == m.key {
      assert ([m] + ms[1..])[1..] == ms[1..];
    } else {
      PutLength(ms[1..], m);
      assert ([ms[0]] + Put(ms[1..], m))[1..] == Put(ms[1..], m);
    }
  }

  lemma {:induction false} LengthOneMore(ms: seq<Member>, m: Member)
    ensures MembersLength(ms + [m]) == MembersLength(ms) + |MemberText(m)| + 1
  {
    hide MemberText;
    if ms == [] {
      assert ms + [m] == [m];
    } else {
      assert (ms + [m])[1..] == ms[1..] + [m];
      LengthOneMore(ms[1..], m);
    }
  }

  lemma {:induction false} KeepLastLength(ms: seq<Member>)
    ensures MembersLength(KeepLast(ms)) <= MembersLength(ms) && (ms != [] ==> KeepLast(ms) != [])
  {
    hide MemberText;
    hide Put;
    if ms != [] {
      var init, last := ms[..|ms| - 1], ms[|ms| - 1];
      KeepLastLength(init);
      PutLength(KeepLast(init), last);
      LengthOneMore(init, last);
      assert ms == init + [last];
    }
  }

  lemma ObjectLength(ms: seq<Member>)
    requires ms != []
    ensures |Text(Obj(KeepLast(ms)))| <= MembersLength(ms) + 1
  {
    hide KeepLast;
    hide TextMembers;
    KeepLastLength(ms);
    MembersLengthIs(KeepLast(ms));
  }

  lemma WordLength(s: string, word: string, v: Json)
    requires word != "" && Text(v) == word
    ensures match ReadWord(s, word, v)
            case None => true
            case Some((w, rest)) => w == v && |Text(v)| == |s| - |rest|
  {
  }

  /** What is read as a value is at least as long as the text of the value. */
  lemma {:induction false} ValueIsShortest(s: string)
    ensures match ReadValue(s)
            case None => true
            case Some((v, rest)) => |Text(v)| <= |s| - |rest|
    decreases |s|, 0
  {
    hide ReadString;
    hide ReadItems;
    hide ReadMembers;
    hide ReadNumber;
    hide KeepLast;
    hide NumText;
    hide EscapeAll;
    hide TextItems;
    hide TextMembers;
    hide ReadWord;
    var t := SkipWhitespace(s);
    if t == "" {
    } else if t[0] == 'n' {
      WordLength(t, "null", Null);
    } else if t[0] == 't' {
      WordLength(t, "true", Bool(true));
    } else if t[0] == 'f' {
      WordLength(t, "false", Bool(false));
    } else if t[0] == '\"' {
      StringIsShortest(t[1..]);
    } else if t[0] == '[' {
      ItemsAreShortest(t[1..]);
      assert Text(Arr([])) == "[" + TextItems([]) + "]";
      NothingToWrite();
    } else if t[0] == '{' {
      MembersAreShortest(t[1..]);
      if ReadMembers(t[1..]).Some? {
        ObjectLength(ReadMembers(t[1..]).value.0);
      }
      assert Text(Obj([])) == "{" + TextMembers([]) + "}";
      NothingToWrite();
    } else {
      NumberIsShortest(t);
    }
  }

  lemma {:induction false} ItemsAreShortest(s: string)
    ensures match ReadItems(s)
            case None => true
            case Some((items, rest)) => |TextItems(items)| + 1 <= |s| - |rest|
    decreases |s|, 1
  {
    hide ReadValue;
    hide Text;
    ValueIsShortest(s);
    if ReadValue(s).Some? {
      var (v, rest) := ReadValue(s).value;
      var t := SkipWhitespace(rest);
      if t != "" && t[0] == ',' {
        ItemsAreShortest(t[1..]);
        if ReadItems(t[1..]).Some? {
          var more := ReadItems(t[1..]).value.0;
          assert ([v] + more)[1..] == more;
        }
      }
    }
  }

  lemma MemberIsShortest(s: string)
    ensures match ReadMember(s)
            case None => true
            case Some((m, rest)) => |MemberText(m)| <= |s| - |rest|
    decreases |s|, 1
  {
    hide ReadValue;
    hide ReadString;
    hide Text;
    hide EscapeAll;
    var t := SkipWhitespace(s);
    if t != "" && t[0] == '\"' {
      StringIsShortest(t[1..]);
      if ReadString(t[1..]).Some? {
        var (key, rest) := ReadString(t[1..]).value;
        var u := SkipWhitespace(rest);
        if u != "" {
          ValueIsShortest(u[1..]);
        }
      }
    }
  }

  lemma {:induction false} MembersAreShortest(s: string)
    ensures match ReadMembers(s)
            case None => true
            case Some((ms, rest)) => ms != [] && MembersLength(ms) <= |s| - |rest|
    decreases |s|, 2
  {
    hide ReadMember;
    hide MemberText;
    MemberIsShortest(s);
    if ReadMember(s).Some? {
      var (m, rest) := ReadMember(s).value;
      var t := SkipWhitespace(rest);
      if t != "" && t[0] == ',' {
        MembersAreShortest(t[1..]);
        if ReadMembers(t[1..]).Some? {
          var more := ReadMembers(t[1..]).value.0;
          assert ([m] + more)[1..] == more;
        }
      }
    }
  }

  // ---- Sorting the members does not change the length ----------------------------------

  lemma {:induction false} InsertLength(m: Member, ms: seq<Member>)
    ensures MembersLength(InsertByKey(m, ms)) == |MemberText(m)| + 1 + MembersLength(ms)
  {
    hide MemberText;
    hide Less;
    if ms == [] || Less(m.key, ms[0].key) {
      assert ([m] + ms)[1..] == ms;
    } else {
      InsertLength(m, ms[1..]);
      assert ([ms[0]] + InsertByKey(m, ms[1..]))[1..] == InsertByKey(m, ms[1..]);
    }
  }

  lemma {:induction false} SortLength(ms: seq<Member>)
    ensures MembersLength(SortByKey(ms)) == MembersLength(ms)
  {
    hide MemberText;
    if ms == [] {
    } else {
      SortLength(ms[1..]);
      InsertLength(ms[0], SortByKey(ms[1..]));
    }
  }

  lemma {:induction false} NormalizeLength(v: Json)
    ensures |Text(Normalize(v))| == |Text(v)|
    decreases v
  {
    hide TextItems;
    hide TextMembers;
    match v {
      case Arr(items) => NormalizeItemsLength(items);
      case Obj(ms) =>
        NormalizeMembersLength(ms);
        SortLength(NormalizeMembers(ms));
        var sorted := SortByKey(NormalizeMembers(ms));
        if ms == [] {
        } else {
          MembersLengthIs(ms);
          if sorted != [] {
            MembersLengthIs(sorted);
          }
        }
      case _ =>
    }
  }

  lemma {:induction false} NormalizeItemsLength(items: seq<Json>)
    ensures |TextItems(NormalizeItems(items))| == |TextItems(items)|
    decreases items
  {
    hide Text;
    hide Normalize;
    if items != [] {
      NormalizeLength(items[0]);
      NormalizeItemsLength(items[1..]);
      assert NormalizeItems(items)[1..] == NormalizeItems(items[1..]);
    }
  }

  lemma {:induction false} NormalizeMembersLength(ms: seq<Member>)
    ensures MembersLength(NormalizeMembers(ms)) == MembersLength(ms)
    decreases ms
  {
    hide Text;
    hide Quote;
    hide Normalize;
    if ms != [] {
      NormalizeLength(ms[0].value);
      NormalizeMembersLength(ms[1..]);
      assert NormalizeMembers(ms)[1..] == NormalizeMembers(ms[1..]);
    }
  }

  /** Whatever text has a value, the canonical text of that value is no longer. So every
      character is printed in its shortest spelling, and nothing is printed in between. */
  lemma CanonicalIsShortest(text: string, v: Json)
    requires WellFormed(v) && Parse(text).Some? && Same(Parse(text).value, v)
    ensures |Canonical(v)| <= |text|
  {
    hide Text;
    hide ReadValue;
    hide Same;
    hide Normalize;
    ValueIsShortest(text);
    ReadIsWellFormed(text);
    var w := Parse(text).value;
    CanonicalDecidesSame(w, v);
    NormalizeLength(w);
  }

  /** No way to write the rest of a string up to its closing quotation mark is shorter than
      the one printed. */
  lemma PrintedStringIsShortest(s: string, text: string, rest: string)
    requires ReadString(text) == Some((s, rest))
    ensures |Canonical(Str(s))| <= 1 + |text| - |rest|
  {
    hide ReadString;
    hide EscapeAll;
    StringIsShortest(text);
  }

  // ---- Among spellings of the same length ----------------------------------------------

  lemma {:induction false} EscapeAllOfConcat(a: string, b: string)
    ensures EscapeAll(a + b) == EscapeAll(a) + EscapeAll(b)
  {
    hide EscapeChar;
    if a == "" {
      assert a + b == b;
    } else {
      assert (a + b)[1..] == a[1..] + b;
      EscapeAllOfConcat(a[1..], b);
      ConcatAssociative(EscapeChar(a[0]), EscapeAll(a[1..]), EscapeAll(b));
    }
  }

  /** The text between the quotation marks. */
  function Inside(s: string): string {
    var t := Canonical(Str(s));
    if |t| < 2 then "" else t[1..|t| - 1]
  }

  lemma InsideIs(s: string)
    ensures Canonical(Str(s)) == "\"" + Inside(s) + "\"" && Inside(s) == EscapeAll(s)
  {
  }

  /** Characters are spelled one by one, wherever they stand. */
  lemma SpelledOneByOne(a: string, b: string)
    ensures Canonical(Str(a + b)) == "\"" + Inside(a) + Inside(b) + "\""
  {
    hide EscapeAll;
    InsideIs(a);
    InsideIs(b);
    EscapeAllOfConcat(a, b);
  }

  /** A character is spelled with its reverse solidus and letter, with `\u` and four
      lower-case digits, or as itself. */
  lemma CharacterSpelling(c: char)
    ensures match c
            case '\"' => Inside([c]) == "\\\""
            case '\\' => Inside([c]) == "\\\\"
            case '\U{0008}' => Inside([c]) == "\\b"
            case '\U{000C}' => Inside([c]) == "\\f"
            case '\n' => Inside([c]) == "\\n"
            case '\r' => Inside([c]) == "\\r"
            case '\t' => Inside([c]) == "\\t"
            case _ =>
              if c < '\U{0010}' then exists d :: Inside([c]) == "\\u000" + [d] && HexSpells(d, c as int)
              else if c < ' ' then exists d :: Inside([c]) == "\\u001" + [d] && HexSpells(d, c as int - 16)
              else Inside([c]) == [c]
  {
    InsideIs([c]);
    var t := EscapeChar(c);
    assert EscapeAll([c]) == t + EscapeAll("") && t + "" == t;
    assert DIGITS == ['0', '1', '2', '3', '4', '5', '6', '7', '8', '9', 'a', 'b', 'c', 'd', 'e', 'f'];
    if c < ' ' && |t| == 6 {
      assert HexSpells(t[5], c as int % 16);
      assert t[..5] == (if c < '\U{0010}' then "\\u000" else "\\u001");
      assert t == t[..5] + [t[5]];
    }
  }

  /** A digit, or a lower-case letter, that stands for the number. */
  predicate HexSpells(d: char, n: int) {
    if n < 10 then d as int == '0' as int + n else d as int == 'a' as int + n - 10
  }
}
