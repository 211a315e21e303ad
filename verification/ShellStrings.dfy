/** Shell text generated from translations: the quoting of a string, and the case
    statement that selects the strings of a locale. */
module ShellStrings {
  import opened Wrappers
  import opened Sequences

  const NUL: char := '\U{0000}'

  predicate HasNul(s: string) {
    NUL in s
  }

  /** `'` becomes `'\''`: close, an escaped quote, open again. */
  function EscapeQuotes(s: string): string {
    if s == "" then "" else (if s[0] == '\'' then "'\\''" else [s[0]]) + EscapeQuotes(s[1..])
  }

  /** The quoted string, for strings without NUL. */
  function SingleQuoted(s: string): string {
    "'" + (EscapeQuotes(s) + "'")
  }

  /** The text between the outer quotes. */
  function Inner(q: string): string {
    if |q| < 2 then "" else q[1..|q| - 1]
  }

  lemma {:induction false} EscapeOfConcat(a: string, b: string)
    ensures EscapeQuotes(a + b) == EscapeQuotes(a) + EscapeQuotes(b)
  {
    if a == "" {
      assert a + b == b;
    } else {
      assert (a + b)[1..] == a[1..] + b;
      EscapeOfConcat(a[1..], b);
      ConcatAssociative(if a[0] == '\'' then "'\\''" else [a[0]], EscapeQuotes(a[1..]), EscapeQuotes(b));
    }
  }

  /** Characters are quoted one by one: a single quote as four characters, every other
      character as itself. */
  lemma QuotedOneByOne(a: string, c: char, b: string)
    ensures SingleQuoted("") == "''"
    ensures SingleQuoted(a + [c] + b) ==
              "'" + Inner(SingleQuoted(a)) + (if c == '\'' then "'\\''" else [c]) + Inner(SingleQuoted(b)) + "'"
  {
    OneCharacter(c);
    hide EscapeQuotes;
    hide Inner;
    EscapeOfConcat(a + [c], b);
    EscapeOfConcat(a, [c]);
    InnerIs(a);
    InnerIs(b);
    Enclosed(EscapeQuotes(a), EscapeQuotes([c]), EscapeQuotes(b));
  }

  lemma OneCharacter(c: char)
    ensures EscapeQuotes("") == "" && EscapeQuotes([c]) == if c == '\'' then "'\\''" else [c]
  {
    assert EscapeQuotes([c]) == (if c == '\'' then "'\\''" else [c]) + EscapeQuotes("");
  }

  lemma Enclosed(a: string, m: string, b: string)
    ensures "'" + (((a + m) + b) + "'") == "'" + a + m + b + "'"
  {
  }

  lemma InnerIs(s: string)
    ensures Inner(SingleQuoted(s)) == EscapeQuotes(s)
  {
  }

  datatype NulError = NulInTranslation(text: string)

  function BashSingleQuote(s: string): Result<string, NulError> {
    if HasNul(s) then Failure(NulInTranslation(s)) else Success(SingleQuoted(s))
  }

  // ---- The generated case statement ------------------------------------------------

  datatype Motd = Motd(
    tagline: string, deployedHeader: string, noAppsHint: string,
    aiHeader: string, toolsInstalling: string, cmdsHeader: string)

  datatype Assignment = Assignment(name: string, value: string)

  /** The variables that a branch sets, in order. */
  function Assignments(m: Motd): seq<Assignment> {
    [Assignment("BANNER_TAGLINE", m.tagline), Assignment("DEPLOYED_HEADER", m.deployedHeader),
     Assignment("EMPTY_LINE", m.noAppsHint), Assignment("AI_HEADER", m.aiHeader),
     Assignment("TOOLS_INSTALLING", m.toolsInstalling), Assignment("CMDS_HEADER", m.cmdsHeader)]
  }

  datatype Clause = Clause(pattern: string, body: seq<Assignment>)

  const HEADER := "case \"$USER_LOCALE\" in"
  const ESAC := "esac"

  const ALL_LOCALES: seq<string> := ["en", "ja", "ko", "de", "pt-BR", "fr"]
  const SHIPPED_LOCALES: set<string> := {"en", "ja"}

  /** The translations shipped: English, and whatever other languages have a tree. */
  datatype Translations = Translations(en: Motd, others: map<string, Motd>) {
    function For(locale: string): Motd {
      if locale != "en" && locale in others then others[locale] else en
    }
  }

  function BodyLines(body: seq<Assignment>): seq<string> {
    if body == [] then ["    ;;"]
    else ["    " + (body[0].name + ("=" + SingleQuoted(body[0].value)))] + BodyLines(body[1..])
  }

  function ClauseLines(c: Clause): seq<string> {
    ["  " + (c.pattern + ")")] + BodyLines(c.body)
  }

  function AllLines(clauses: seq<Clause>): seq<string> {
    if clauses == [] then [] else ClauseLines(clauses[0]) + AllLines(clauses[1..])
  }

  /** The branches: one for each shipped locale in order, then the default. */
  function Clauses(locales: seq<string>, t: Translations): seq<Clause> {
    if locales == [] then [Clause("*", Assignments(t.en))]
    else
      (if locales[0] in SHIPPED_LOCALES then [Clause(locales[0], Assignments(t.For(locales[0])))] else [])
      + Clauses(locales[1..], t)
  }

  function Join(lines: seq<string>): string {
    if lines == [] then "" else if |lines| == 1 then lines[0] else lines[0] + ("\n" + Join(lines[1..]))
  }

  function CaseText(clauses: seq<Clause>): string {
    Join([HEADER] + AllLines(clauses) + [ESAC])
  }

  predicate BodyHasNul(body: seq<Assignment>) {
    exists i :: 0 <= i < |body| && HasNul(body[i].value)
  }

  /** Quote the strings of one branch; fails on the first that contains NUL. */
  method QuoteBody(body: seq<Assignment>) returns (r: Result<seq<string>, NulError>)
    ensures r.Success? <==> !BodyHasNul(body)
    ensures r.Success? ==> r.value == BodyLines(body)
    ensures r.Failure? ==>
              exists i :: 0 <= i < |body| && r.error.text == body[i].value && '\U{0000}' in body[i].value
                          && forall j :: 0 <= j < i ==> '\U{0000}' !in body[j].value
  {
    hide SingleQuoted;
    var lines: seq<string> := [];
    assert body[0..] == body;
    for i := 0 to |body|
      invariant lines + BodyLines(body[i..]) == BodyLines(body)
      invariant forall j :: 0 <= j < i ==> !HasNul(body[j].value)
    {
      var q := BashSingleQuote(body[i].value);
      if q.Failure? {
        return Failure(q.error);
      }
      assert body[i..][1..] == body[i + 1..];
      var line := "    " + (body[i].name + ("=" + q.value));
      ConcatAssociative(lines, [line], BodyLines(body[i + 1..]));
      lines := lines + [line];
    }
    assert body[|body|..] == [];
    return Success(lines + ["    ;;"]);
  }

  lemma {:induction false} AllLinesAppend(a: seq<Clause>, b: seq<Clause>)
    ensures AllLines(a + b) == AllLines(a) + AllLines(b)
  {
    if a == [] {
      assert a + b == b;
    } else {
      assert (a + b)[1..] == a[1..] + b;
      AllLinesAppend(a[1..], b);
      ConcatAssociative(ClauseLines(a[0]), AllLines(a[1..]), AllLines(b));
    }
  }

  predicate MotdHasNul(m: Motd) {
    BodyHasNul(Assignments(m))
  }

  /** Some string that would be quoted contains NUL. */
  predicate AnyNul(t: Translations) {
    MotdHasNul(t.en) || exists l :: l in ALL_LOCALES && l in SHIPPED_LOCALES && MotdHasNul(t.For(l))
  }

  /** Close the statement after the default branch. */
  function Close(lines: seq<string>, body: Result<seq<string>, NulError>): Result<string, NulError> {
    match body
    case Failure(e) => Failure(e)
    case Success(b) => Success(Join(lines + (["  *)"] + b) + [ESAC]))
  }

  /** The strings of `m` in the order in which they are written. */
  function StringsOf(m: Motd): seq<string> {
    [m.tagline, m.deployedHeader, m.noAppsHint, m.aiHeader, m.toolsInstalling, m.cmdsHeader]
  }

  /** Some string of `m` contains NUL. */
  predicate AnyStringHasNul(m: Motd) {
    exists i :: 0 <= i < 6 && '\U{0000}' in StringsOf(m)[i]
  }

  /** Strings are written for English, and for Japanese if it is there. */
  lemma NulExactly(t: Translations)
    ensures AnyNul(t) <==> AnyStringHasNul(t.en) || ("ja" in t.others && AnyStringHasNul(t.others["ja"]))
  {
    MotdNul(t.en);
    if "ja" in t.others {
      MotdNul(t.others["ja"]);
    }
    hide MotdHasNul;
    assert ALL_LOCALES[1] == "ja" && ALL_LOCALES[0] == "en";
    assert forall l :: l in SHIPPED_LOCALES ==> l == "en" || l == "ja";
  }

  lemma MotdNul(m: Motd)
    ensures MotdHasNul(m) <==> AnyStringHasNul(m)
  {
    assert forall i :: 0 <= i < 6 ==> Assignments(m)[i].value == StringsOf(m)[i];
    hide Assignments;
    hide StringsOf;
  }

  /** The whole statement, or the error for a string with NUL. */
  method BuildMotdShellCase(t: Translations) returns (r: Result<string, NulError>)
    ensures r.Success? <==> !AnyNul(t)
    ensures r.Failure? <==> AnyStringHasNul(t.en) || ("ja" in t.others && AnyStringHasNul(t.others["ja"]))
    ensures r.Failure? ==> '\U{0000}' in r.error.text
    ensures r.Success? ==> r.value == CaseText(Clauses(ALL_LOCALES, t))
  {
    NulExactly(t);
    hide BodyLines;
    hide BodyHasNul;
    hide Assignments;
    hide AnyStringHasNul;
    var lines := [HEADER];
    ghost var done: seq<Clause> := [];
    assert ALL_LOCALES[0..] == ALL_LOCALES;
    for i := 0 to |ALL_LOCALES|
      invariant lines == [HEADER] + AllLines(done)
      invariant done + Clauses(ALL_LOCALES[i..], t) == Clauses(ALL_LOCALES, t)
      invariant forall j :: 0 <= j < i && ALL_LOCALES[j] in SHIPPED_LOCALES ==> !MotdHasNul(t.For(ALL_LOCALES[j]))
    {
      var locale := ALL_LOCALES[i];
      assert ALL_LOCALES[i..][1..] == ALL_LOCALES[i + 1..];
      assert locale in ALL_LOCALES;
      if locale !in SHIPPED_LOCALES {
        assert [] + Clauses(ALL_LOCALES[i + 1..], t) == Clauses(ALL_LOCALES[i + 1..], t);
        continue;
      }
      var body := QuoteBody(Assignments(t.For(locale)));
      if body.Failure? {
        return Failure(body.error);
      }
      var clause := Clause(locale, Assignments(t.For(locale)));
      OneMoreClause(done, clause);
      ConcatAssociative(done, [clause], Clauses(ALL_LOCALES[i + 1..], t));
      lines := lines + (["  " + (locale + ")")] + body.value);
      done := done + [clause];
    }
    assert ALL_LOCALES[|ALL_LOCALES|..] == [];
    OneMoreClause(done, Clause("*", Assignments(t.en)));
    assert "  " + ("*" + ")") == "  *)";
    var body := QuoteBody(Assignments(t.en));
    return Close(lines, body);
  }

  lemma OneMoreClause(done: seq<Clause>, c: Clause)
    ensures [HEADER] + AllLines(done + [c]) == ([HEADER] + AllLines(done)) + ClauseLines(c)
  {
    AllLinesAppend(done, [c]);
    assert AllLines([c]) == ClauseLines(c) + [];
  }

  // ---- The shell's side ------------------------------------------------------------

  /** Characters that an unquoted word may contain as themselves, in this subset of the
      shell grammar. */
  predicate IsPlain(c: char) {
    'a' <= c <= 'z' || 'A' <= c <= 'Z' || '0' <= c <= '9' || c == '_' || c == '-' || c == '.' || c == '/'
  }

  /** A character that ends a word. */
  predicate EndsWord(rest: string) {
    rest == "" || rest[0] == ' ' || rest[0] == '\t' || rest[0] == '\n' || rest[0] == ';'
  }

  /** Section 2.2.2: everything up to the next single quote stands for itself. */
  function ReadSingle(s: string): (r: Option<(string, string)>)
    ensures r.Some? ==> |r.value.1| < |s|
  {
    if s == "" || s[0] == NUL then None
    else if s[0] == '\'' then Some(("", s[1..]))
    else
      var (t, rest) :- ReadSingle(s[1..]);
      Some(([s[0]] + t, rest))
  }

  /** One word, with quotes removed: plain characters, single-quoted strings, and
      characters escaped by a backslash (section 2.2.1; a backslash before a newline
      continues the line). */
  function ReadWord(s: string): (r: Option<(string, string)>)
    ensures r.Some? ==> |r.value.1| <= |s|
    decreases |s|
  {
    if EndsWord(s) then Some(("", s))
    else if s[0] == '\'' then
      var (t, rest) :- ReadSingle(s[1..]);
      var (more, rest') :- ReadWord(rest);
      Some((t + more, rest'))
    else if s[0] == '\\' then
      if |s| < 2 || s[1] == NUL then None
      else if s[1] == '\n' then ReadWord(s[2..])
      else
        var (more, rest) :- ReadWord(s[2..]);
        Some(([s[1]] + more, rest))
    else if IsPlain(s[0]) then
      var (more, rest) :- ReadWord(s[1..]);
      Some(([s[0]] + more, rest))
    else None
  }

  /** Reading on from inside single quotes. */
  function ReadInside(s: string): Option<(string, string)> {
    var (t, rest) :- ReadSingle(s);
    var (more, rest') :- ReadWord(rest);
    Some((t + more, rest'))
  }

  lemma InsideLiteral(c: char, s: string)
    requires c != '\'' && c != NUL
    ensures ReadInside([c] + s) == match ReadInside(s)
                                   case None => None
                                   case Some((t, rest)) => Some(([c] + t, rest))
  {
    hide ReadWord;
    assert ([c] + s)[1..] == s;
    if ReadSingle(s).Some? && ReadWord(ReadSingle(s).value.1).Some? {
      ConcatAssociative([c], ReadSingle(s).value.0, ReadWord(ReadSingle(s).value.1).value.0);
    }
  }

  lemma InsideQuote(s: string)
    ensures ReadInside("'\\''" + s) == match ReadInside(s)
                                   case None => None
                                   case Some((t, rest)) => Some((['\''] + t, rest))
  {
    var u := "'\\''" + s;
    var v := "\\''" + s;
    assert u[1..] == v;
    assert v[2..] == "'" + s;
    assert ("'" + s)[1..] == s;
    assert ReadSingle(u) == Some(("", v));
    QuoteOpens(s);
    assert v[0] == '\\' && v[1] == '\'' && !EndsWord(v);
    var inner := ReadWord("'" + s);
    assert ReadWord(v) == if inner.None? then None else Some((['\''] + inner.value.0, inner.value.1));
    if inner.Some? {
      assert "" + (['\''] + inner.value.0) == ['\''] + inner.value.0;
    }
  }

  lemma {:induction false} InsideReads(s: string, rest: string)
    requires !HasNul(s) && EndsWord(rest)
    ensures ReadInside(EscapeQuotes(s) + ("'" + rest)) == Some((s, rest))
  {
    hide ReadInside;
    if s == "" {
      NothingInside(rest);
      assert EscapeQuotes(s) + ("'" + rest) == "'" + rest;
    } else {
      var tail := EscapeQuotes(s[1..]) + ("'" + rest);
      assert s[0] != NUL;
      InsideReads(s[1..], rest);
      ConcatAssociative(if s[0] == '\'' then "'\\''" else [s[0]], EscapeQuotes(s[1..]), "'" + rest);
      if s[0] == '\'' {
        InsideQuote(tail);
      } else {
        InsideLiteral(s[0], tail);
      }
      assert s == [s[0]] + s[1..];
    }
  }

  lemma NothingInside(rest: string)
    requires EndsWord(rest)
    ensures ReadInside("'" + rest) == Some(("", rest))
  {
    assert ("'" + rest)[1..] == rest;
    assert "" + "" == "";
  }

  /** The shell reads the quoted string as one word, equal to the string. */
  lemma QuotedReadsBack(s: string, rest: string)
    requires !HasNul(s) && EndsWord(rest)
    ensures ReadWord(SingleQuoted(s) + rest) == Some((s, rest))
  {
    hide ReadInside;
    InsideReads(s, rest);
    var tail := EscapeQuotes(s) + ("'" + rest);
    assert SingleQuoted(s) + rest == "'" + tail;
    QuoteOpens(tail);
  }

  lemma QuoteOpens(s: string)
    ensures ReadWord("'" + s) == ReadInside(s)
  {
    assert ("'" + s)[1..] == s;
  }
}
