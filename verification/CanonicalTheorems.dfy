/** Reading undoes printing, so canonical text determines the value up to the order
    of object members. */
module CanonicalTheorems {
  import opened TextOrder
  import opened Wrappers
  import opened Sequences
  import opened JsonValues
  import opened JsonEquality
  import opened CanonicalJson
  import opened JsonReader

  // ---- Numbers ----------------------------------------------------------------

  lemma DigitChars(n: nat)
    requires n < 16
    ensures HexValue(DIGITS[n]) == Some(n)
    ensures n < 10 ==> IsDigit(DIGITS[n]) && DIGITS[n] as int == '0' as int + n
    ensures n != 0 ==> DIGITS[n] != '0'
  {
    assert DIGITS == ['0', '1', '2', '3', '4', '5', '6', '7', '8', '9', 'a', 'b', 'c', 'd', 'e', 'f'];
  }

  lemma {:induction false} DigitsRead(n: nat, rest: string)
    ensures ReadDigits(Digits(n) + rest, 0) == ReadDigits(rest, n)
  {
    var d := DIGITS[n % 10];
    var q := n / 10;
    OneDigitRead(n % 10, q, rest);
    if n < 10 {
      assert Digits(n) == [d];
    } else {
      assert Digits(n) == Digits(q) + [d];
      hide Digits;
      hide ReadDigits;
      ConcatAssociative(Digits(q), [d], rest);
      DigitsRead(q, [d] + rest);
      assert n == 10 * q + n % 10;
    }
  }

  lemma OneDigitRead(k: nat, n: nat, rest: string)
    requires k < 10
    ensures ReadDigits([DIGITS[k]] + rest, n) == ReadDigits(rest, 10 * n + k)
  {
    DigitChars(k);
    assert ([DIGITS[k]] + rest)[1..] == rest;
  }

  lemma {:induction false} DigitsStart(n: nat)
    ensures IsDigit(Digits(n)[0]) && (Digits(n)[0] == '0' <==> n == 0)
  {
    DigitChars(n % 10);
    if n < 10 {
    } else {
      DigitsStart(n / 10);
    }
  }

  ghost predicate NoDigitNext(rest: string) {
    rest == "" || !IsDigit(rest[0])
  }

  lemma NatRead(n: nat, rest: string)
    requires NoDigitNext(rest)
    ensures ReadNat(Digits(n) + rest) == Some((n, rest))
  {
    var t := Digits(n) + rest;
    DigitsStart(n);
    assert t[0] == Digits(n)[0];
    if n == 0 {
      assert Digits(0) == "0";
      assert t[1..] == rest;
    } else {
      DigitsRead(n, rest);
      assert ReadDigits(t, 0) == ReadDigits(t[1..], t[0] as int - '0' as int);
    }
  }

  lemma NumberRead(n: int, rest: string)
    requires NoDigitNext(rest)
    ensures ReadNumber(NumText(n) + rest) == Some((n, rest))
  {
    hide Digits;
    hide ReadNat;
    if n < 0 {
      NatRead(-n, rest);
      assert (NumText(n) + rest)[1..] == Digits(-n) + rest;
    } else {
      NatRead(n, rest);
      DigitsStart(n);
      assert (NumText(n) + rest)[0] == Digits(n)[0];
    }
  }

  // ---- Strings ----------------------------------------------------------------

  lemma ControlRead(c: char, t: string)
    requires c < ' '
    ensures ReadUnit("00" + [DIGITS[c as int / 16], DIGITS[c as int % 16]] + t) == Some((c as int, t))
  {
    DigitChars(c as int / 16);
    DigitChars(c as int % 16);
    DigitChars(0);
    var u := "00" + [DIGITS[c as int / 16], DIGITS[c as int % 16]] + t;
    assert u[4..] == t && u[0] == '0' && u[1] == '0';
  }

  /** The reading of a string that starts with `c`, given the reading of the rest. */
  function Prepend(c: char, r: Option<(string, string)>): Option<(string, string)> {
    match r
    case None => None
    case Some((t, rest)) => Some(([c] + t, rest))
  }

  lemma EscapedRead(c: char, body: string, t: string)
    requires ReadEscape(body + t) == Some((c, t))
    ensures ReadString("\\" + body + t) == Prepend(c, ReadString(t))
  {
    var s := "\\" + body + t;
    assert s[1..] == body + t;
  }

  lemma ShortEscapes(t: string)
    ensures ReadEscape("\"" + t) == Some(('\"', t)) && ReadEscape("\\" + t) == Some(('\\', t))
    ensures ReadEscape("b" + t) == Some(('\U{0008}', t)) && ReadEscape("f" + t) == Some(('\U{000C}', t))
    ensures ReadEscape("n" + t) == Some(('\n', t)) && ReadEscape("r" + t) == Some(('\r', t))
    ensures ReadEscape("t" + t) == Some(('\t', t))
  {
    assert forall c: char :: ([c] + t)[1..] == t;
  }

  lemma UnicodeEscape(c: char, t: string)
    requires c < ' '
    ensures ReadEscape("u" + ("00" + [DIGITS[c as int / 16], DIGITS[c as int % 16]] + t)) == Some((c, t))
  {
    ControlRead(c, t);
    var u := "00" + [DIGITS[c as int / 16], DIGITS[c as int % 16]] + t;
    assert ("u" + u)[1..] == u;
  }

  /** The body of the escape of `c`, when `c` needs one. */
  lemma EscapeBody(c: char, t: string) returns (body: string)
    requires |EscapeChar(c)| > 1
    ensures EscapeChar(c) == "\\" + body && ReadEscape(body + t) == Some((c, t))
  {
    hide ReadEscape;
    hide EscapeChar;
    if |EscapeChar(c)| == 2 {
      body := [ShortLetter(c)];
      ShortEscape(c);
      ShortEscapes(t);
    } else {
      LongEscape(c);
      body := "u" + ("00" + [DIGITS[c as int / 16], DIGITS[c as int % 16]]);
      UnicodeEscape(c, t);
      assert body + t == "u" + ("00" + [DIGITS[c as int / 16], DIGITS[c as int % 16]] + t);
    }
  }

  /** The letter of a two-character escape. */
  function ShortLetter(c: char): char {
    match c
    case '\U{0008}' => 'b'
    case '\U{000C}' => 'f'
    case '\n' => 'n'
    case '\r' => 'r'
    case '\t' => 't'
    case _ => c
  }

  lemma ShortEscape(c: char)
    requires |EscapeChar(c)| == 2
    ensures EscapeChar(c) == "\\" + [ShortLetter(c)]
    ensures c in {'\"', '\\', '\U{0008}', '\U{000C}', '\n', '\r', '\t'}
  {
  }

  lemma LongEscape(c: char)
    requires |EscapeChar(c)| > 2
    ensures c < ' '
    ensures EscapeChar(c) == "\\" + ("u" + ("00" + [DIGITS[c as int / 16], DIGITS[c as int % 16]]))
  {
  }

  lemma PlainChar(c: char)
    requires |EscapeChar(c)| == 1
    ensures EscapeChar(c) == [c] && c >= ' ' && c != '\"' && c != '\\'
  {
  }

  /** One escaped character is read back, whatever follows. */
  lemma CharRead(c: char, t: string)
    ensures ReadString(EscapeChar(c) + t) == Prepend(c, ReadString(t))
  {
    hide EscapeChar;
    hide ReadEscape;
    if |EscapeChar(c)| == 1 {
      PlainChar(c);
      assert ([c] + t)[1..] == t;
    } else {
      hide ReadString;
      var body := EscapeBody(c, t);
      EscapedRead(c, body, t);
    }
  }

  lemma {:induction false} StringRead(s: string, rest: string)
    ensures ReadString(EscapeAll(s) + ("\"" + rest)) == Some((s, rest))
  {
    if s == "" {
      assert "" + ("\"" + rest) == "\"" + rest;
      assert ("\"" + rest)[1..] == rest;
    } else {
      StringRead(s[1..], rest);
      ConcatAssociative(EscapeChar(s[0]), EscapeAll(s[1..]), "\"" + rest);
      CharRead(s[0], EscapeAll(s[1..]) + ("\"" + rest));
      assert s == [s[0]] + s[1..];
    }
  }

  lemma QuoteReads(s: string, rest: string)
    ensures Quote(s) + rest == ['\"'] + (EscapeAll(s) + ("\"" + rest))
  {
  }

  // ---- Values -----------------------------------------------------------------

  lemma TextStart(v: Json)
    ensures |Text(v)| > 0 && !IsWhitespace(Text(v)[0]) && Text(v)[0] != ']' && Text(v)[0] != '}'
    ensures v.Num? ==> Text(v)[0] == '-' || IsDigit(Text(v)[0])
  {
    if v.Num? {
      DigitsStart(if v.n < 0 then -v.n else v.n);
    }
  }

  lemma ItemsStart(items: seq<Json>)
    requires items != []
    ensures |TextItems(items)| > 0 && !IsWhitespace(TextItems(items)[0]) && TextItems(items)[0] != ']'
  {
    hide Text;
    TextStart(items[0]);
  }

  lemma MembersStart(ms: seq<Member>)
    requires ms != []
    ensures |TextMembers(ms)| > 0 && TextMembers(ms)[0] == '\"'
  {
    hide Text;
    hide EscapeAll;
  }

  lemma WordsRead(v: Json, rest: string)
    requires v.Null? || v.Bool?
    ensures ReadValue(Text(v) + rest) == Some((v, rest))
  {
    var word := Text(v);
    assert (word + rest)[|word|..] == rest;
    assert word <= word + rest;
  }

  lemma NumValueRead(n: int, rest: string)
    requires NoDigitNext(rest)
    ensures ReadValue(NumText(n) + rest) == Some((Num(n), rest))
  {
    hide ReadNumber;
    hide NumText;
    NumberRead(n, rest);
    TextStart(Num(n));
    assert (NumText(n) + rest)[0] == Text(Num(n))[0];
  }

  lemma StrRead(s: string, rest: string)
    ensures ReadValue(Quote(s) + rest) == Some((Str(s), rest))
  {
    hide ReadString;
    hide Quote;
    QuoteReads(s, rest);
    StringRead(s, rest);
    var tail := EscapeAll(s) + ("\"" + rest);
    assert (['\"'] + tail)[1..] == tail;
  }

  lemma ArrStep(items: seq<Json>, rest: string)
    requires items != [] ==> ReadItems(TextItems(items) + ("]" + rest)) == Some((items, rest))
    ensures ReadValue("[" + TextItems(items) + "]" + rest) == Some((Arr(items), rest))
  {
    hide ReadItems;
    hide Text;
    var tail := TextItems(items) + ("]" + rest);
    var t := "[" + TextItems(items) + "]" + rest;
    assert t[0] == '[' && t[1..] == tail;
    if items == [] {
      assert tail == "]" + rest && tail[1..] == rest;
    } else {
      ItemsStart(items);
      assert tail[0] == TextItems(items)[0];
    }
  }

  lemma ItemsStep(v: Json, more: seq<Json>, rest: string)
    requires more == [] ==> ReadValue(Text(v) + ("]" + rest)) == Some((v, "]" + rest))
    requires more != [] ==> ReadValue(Text(v) + ("," + (TextItems(more) + ("]" + rest))))
                            == Some((v, "," + (TextItems(more) + ("]" + rest))))
    requires more != [] ==> ReadItems(TextItems(more) + ("]" + rest)) == Some((more, rest))
    ensures ReadItems(TextItems([v] + more) + ("]" + rest)) == Some(([v] + more, rest))
  {
    hide ReadValue;
    hide Text;
    if more == [] {
      assert [v] + more == [v];
      assert ("]" + rest)[1..] == rest;
    } else {
      var tail := TextItems(more) + ("]" + rest);
      assert ([v] + more)[1..] == more;
      assert TextItems([v] + more) + ("]" + rest) == Text(v) + ("," + tail);
      assert ("," + tail)[1..] == tail;
    }
  }

  lemma ObjStep(ms: seq<Member>, rest: string)
    requires ms != [] ==> ReadMembers(TextMembers(ms) + ("}" + rest)) == Some((ms, rest))
    ensures ReadValue("{" + TextMembers(ms) + "}" + rest) == Some((Obj(KeepLast(ms)), rest))
  {
    assert KeepLast([]) == [];
    hide KeepLast;
    hide TextMembers;
    hide Text;
    hide ReadValue;
    hide ReadMembers;
    NothingToWrite();
    if ms != [] {
      MembersStart(ms);
    }
    Braced(TextMembers(ms), rest);
    BraceRead("{" + TextMembers(ms) + "}" + rest, TextMembers(ms) + ("}" + rest));
  }

  lemma Braced(inner: string, rest: string)
    ensures var t, tail := "{" + inner + "}" + rest, inner + ("}" + rest);
            && t[0] == '{' && t[1..] == tail && tail != ""
            && if inner == "" then tail[0] == '}' && tail[1..] == rest else tail[0] == inner[0]
  {
  }

  /** What is read after an opening brace. */
  lemma BraceRead(t: string, tail: string)
    requires t != "" && t[0] == '{' && t[1..] == tail && tail != "" && !IsWhitespace(tail[0])
    ensures ReadValue(t) ==
              if tail[0] == '}' then Some((Obj([]), tail[1..]))
              else match ReadMembers(tail)
                   case None => None
                   case Some((ms, rest)) => Some((Obj(KeepLast(ms)), rest))
  {
    hide ReadMembers;
    hide KeepLast;
    hide ReadString;
    hide ReadItems;
    hide ReadNumber;
    hide ReadWord;
    assert SkipWhitespace(t) == t && SkipWhitespace(tail) == tail;
  }

  lemma MemberStep(m: Member, rest: string)
    requires ReadValue(Text(m.value) + rest) == Some((m.value, rest))
    ensures ReadMember(MemberText(m) + rest) == Some((m, rest))
  {
    hide ReadString;
    hide ReadValue;
    hide Text;
    hide EscapeAll;
    hide Quote;
    var tail := ":" + (Text(m.value) + rest);
    QuoteReads(m.key, tail);
    StringRead(m.key, tail);
    var inner := EscapeAll(m.key) + ("\"" + tail);
    ConcatAssociative(":", Text(m.value), rest);
    ConcatAssociative(Quote(m.key), ":" + Text(m.value), rest);
    assert (['\"'] + inner)[1..] == inner;
    assert tail[1..] == Text(m.value) + rest;
  }

  lemma MembersStep(m: Member, more: seq<Member>, rest: string)
    requires more == [] ==> ReadMember(MemberText(m) + ("}" + rest)) == Some((m, "}" + rest))
    requires more != [] ==> ReadMember(MemberText(m) + ("," + (TextMembers(more) + ("}" + rest))))
                            == Some((m, "," + (TextMembers(more) + ("}" + rest))))
    requires more != [] ==> ReadMembers(TextMembers(more) + ("}" + rest)) == Some((more, rest))
    ensures ReadMembers(TextMembers([m] + more) + ("}" + rest)) == Some(([m] + more, rest))
  {
    hide ReadMember;
    hide MemberText;
    if more == [] {
      assert [m] + more == [m];
      assert ("}" + rest)[1..] == rest;
    } else {
      var tail := TextMembers(more) + ("}" + rest);
      assert ([m] + more)[1..] == more;
      assert TextMembers([m] + more) + ("}" + rest) == MemberText(m) + ("," + tail);
      assert ("," + tail)[1..] == tail;
    }
  }

  /** Reading the text of a value returns the value, whatever follows it. */
  lemma {:induction false} TextRead(v: Json, rest: string)
    requires WellFormed(v) && (v.Num? ==> NoDigitNext(rest))
    ensures ReadValue(Text(v) + rest) == Some((v, rest))
    decreases v, 1
  {
    hide ReadValue;
    match v {
      case Num(n) => NumValueRead(n, rest);
      case Str(s) => StrRead(s, rest);
      case Arr(items) =>
        if items != [] {
          ItemsRead(items, rest);
        }
        ArrStep(items, rest);
      case Obj(ms) =>
        if ms != [] {
          MembersRead(ms, rest);
        }
        ObjStep(ms, rest);
        KeepLastOfUnique(ms);
      case _ => WordsRead(v, rest);
    }
  }

  lemma {:induction false} ItemsRead(items: seq<Json>, rest: string)
    requires items != [] && forall i :: 0 <= i < |items| ==> WellFormed(items[i])
    ensures ReadItems(TextItems(items) + ("]" + rest)) == Some((items, rest))
    decreases items, 0
  {
    hide ReadItems;
    hide ReadValue;
    hide TextItems;
    hide Text;
    var more := items[1..];
    assert items == [items[0]] + more;
    if more == [] {
      TextRead(items[0], "]" + rest);
    } else {
      ItemsRead(more, rest);
      TextRead(items[0], "," + (TextItems(more) + ("]" + rest)));
    }
    ItemsStep(items[0], more, rest);
  }

  lemma {:induction false} MembersRead(ms: seq<Member>, rest: string)
    requires ms != [] && forall i :: 0 <= i < |ms| ==> WellFormed(ms[i].value)
    ensures ReadMembers(TextMembers(ms) + ("}" + rest)) == Some((ms, rest))
    decreases ms, 0
  {
    hide ReadMembers;
    hide ReadMember;
    hide ReadValue;
    hide TextMembers;
    hide Text;
    hide MemberText;
    var more := ms[1..];
    assert ms == [ms[0]] + more;
    if more == [] {
      TextRead(ms[0].value, "}" + rest);
      MemberStep(ms[0], "}" + rest);
    } else {
      MembersRead(more, rest);
      var tail := "," + (TextMembers(more) + ("}" + rest));
      TextRead(ms[0].value, tail);
      MemberStep(ms[0], tail);
    }
    MembersStep(ms[0], more, rest);
  }

  // ---- Canonical text ---------------------------------------------------------

  lemma {:induction false} NormalizeIsWellFormed(v: Json)
    requires WellFormed(v)
    ensures WellFormed(Normalize(v))
    decreases v
  {
    match v {
      case Arr(items) =>
        forall i | 0 <= i < |items| ensures WellFormed(NormalizeItems(items)[i]) {
          NormalizeItemsAt(items, i);
          NormalizeIsWellFormed(items[i]);
        }
      case Obj(ms) =>
        NormalizedUnique(ms);
        SortIsRight(NormalizeMembers(ms));
        SortedIsUnique(SortByKey(NormalizeMembers(ms)));
        forall i | 0 <= i < |ms| ensures WellFormed(SortByKey(NormalizeMembers(ms))[i].value) {
          SortedMembers(ms, i);
          NormalizeIsWellFormed(ms[IndexOf(ms, SortKeys(KeysOf(ms))[i])].value);
        }
      case _ =>
    }
  }

  /** Sorting a second time changes nothing. */
  lemma {:induction false} NormalizeIsStable(v: Json)
    requires WellFormed(v)
    ensures Normalize(Normalize(v)) == Normalize(v)
    decreases v
  {
    match v {
      case Arr(items) =>
        var ns := NormalizeItems(items);
        forall i | 0 <= i < |items| ensures NormalizeItems(ns)[i] == ns[i] {
          NormalizeItemsAt(items, i);
          NormalizeItemsAt(ns, i);
          NormalizeIsStable(items[i]);
        }
        assert NormalizeItems(ns) == ns;
      case Obj(ms) =>
        var s := SortByKey(NormalizeMembers(ms));
        NormalizedUnique(ms);
        SortIsRight(NormalizeMembers(ms));
        SortedIsUnique(s);
        forall i | 0 <= i < |s| ensures NormalizeMembers(s)[i] == s[i] {
          NormalizeMembersAt(s, i);
          SortedMembers(ms, i);
          NormalizeIsStable(ms[IndexOf(ms, SortKeys(KeysOf(ms))[i])].value);
        }
        assert NormalizeMembers(s) == s;
        SortIsRight(s);
        SortedDetermined(SortByKey(s), s);
      case _ =>
    }
  }

  /** Parsing canonical text returns the value with its members sorted at every level. */
  lemma CanonicalIsRead(v: Json)
    requires WellFormed(v)
    ensures Parse(Canonical(v)) == Some(Normalize(v))
  {
    NormalizeIsWellFormed(v);
    TextRead(Normalize(v), "");
    assert Canonical(v) + "" == Canonical(v);
  }

  /** Two values have the same canonical text exactly when they are equal up to the
      order of object members. */
  lemma CanonicalDecidesSame(v: Json, w: Json)
    requires WellFormed(v) && WellFormed(w)
    ensures Canonical(v) == Canonical(w) <==> Same(v, w)
  {
    CanonicalIsRead(v);
    CanonicalIsRead(w);
    SameMeansNormalizeAlike(v, w);
  }

  /** Printing what was read from canonical text gives the same text again. */
  lemma CanonicalIsStable(v: Json)
    requires WellFormed(v)
    ensures Parse(Canonical(v)).Some? && Canonical(Parse(Canonical(v)).value) == Canonical(v)
  {
    CanonicalIsRead(v);
    NormalizeIsStable(v);
  }

  // ---- Whatever is read is well formed -----------------------------------------

  lemma {:induction false} ReadIsWellFormed(s: string)
    ensures ReadValue(s).Some? ==> WellFormed(ReadValue(s).value.0)
    decreases |s|, 0
  {
    var t := SkipWhitespace(s);
    if t != "" && t[0] == '[' {
      ItemsReadAreWellFormed(t[1..]);
    } else if t != "" && t[0] == '{' {
      MembersReadAreWellFormed(t[1..]);
      if ReadMembers(t[1..]).Some? {
        KeptIsWellFormed(ReadMembers(t[1..]).value.0);
      }
    }
  }

  lemma KeptIsWellFormed(ms: seq<Member>)
    requires forall m :: m in ms ==> WellFormed(m.value)
    ensures WellFormed(Obj(KeepLast(ms)))
  {
    KeepLastUnique(ms);
    forall i | 0 <= i < |KeepLast(ms)| ensures WellFormed(KeepLast(ms)[i].value) {
      assert KeepLast(ms)[i] in ms;
    }
  }

  lemma {:induction false} ItemsReadAreWellFormed(s: string)
    ensures ReadItems(s).Some? ==> forall i :: 0 <= i < |ReadItems(s).value.0| ==> WellFormed(ReadItems(s).value.0[i])
    decreases |s|, 1
  {
    ReadIsWellFormed(s);
    if ReadValue(s).Some? {
      var t := SkipWhitespace(ReadValue(s).value.1);
      if t != "" && t[0] == ',' {
        ItemsReadAreWellFormed(t[1..]);
      }
    }
  }

  lemma {:induction false} MembersReadAreWellFormed(s: string)
    ensures ReadMembers(s).Some? ==> forall m :: m in ReadMembers(s).value.0 ==> WellFormed(m.value)
    decreases |s|, 2
  {
    MemberReadIsWellFormed(s);
    if ReadMember(s).Some? {
      var t := SkipWhitespace(ReadMember(s).value.1);
      if t != "" && t[0] == ',' {
        MembersReadAreWellFormed(t[1..]);
      }
    }
  }

  lemma {:induction false} MemberReadIsWellFormed(s: string)
    ensures ReadMember(s).Some? ==> WellFormed(ReadMember(s).value.0.value)
    decreases |s|, 1
  {
    var t := SkipWhitespace(s);
    if t != "" && t[0] == '\"' && ReadString(t[1..]).Some? {
      var u := SkipWhitespace(ReadString(t[1..]).value.1);
      if u != "" {
        ReadIsWellFormed(u[1..]);
      }
    }
  }
}
