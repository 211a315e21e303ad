/** Running the generated case statement: a reader for the lines it is made of and the
    assignments that the selected branch performs. */
module ShellCase {
  import opened Wrappers
  import opened Sequences
  import opened ShellStrings

  function SkipBlanks(s: string): (r: string)
    ensures |r| <= |s|
  {
    if s != "" && (s[0] == ' ' || s[0] == '\t') then SkipBlanks(s[1..]) else s
  }

  /** Plain characters up to a delimiter, which is consumed. */
  function ReadUpTo(s: string, end: char): (r: Option<(string, string)>)
    ensures r.Some? ==> |r.value.1| < |s|
  {
    if s == "" then None
    else if s[0] == end then Some(("", s[1..]))
    else if !IsPlain(s[0]) && s[0] != '*' then None
    else
      var (t, rest) :- ReadUpTo(s[1..], end);
      Some(([s[0]] + t, rest))
  }

  function EndLine(s: string): (r: Option<string>)
    ensures r.Some? ==> |r.value| < |s|
  {
    if s != "" && s[0] == '\n' then Some(s[1..]) else None
  }

  /** The assignments of a branch, up to and including the line with `;;`. */
  function ReadBody(s: string): (r: Option<(seq<Assignment>, string)>)
    ensures r.Some? ==> |r.value.1| < |s|
    decreases |s|
  {
    var u := SkipBlanks(s);
    if ";;" <= u then
      var rest :- EndLine(u[2..]);
      Some(([], rest))
    else
      var (name, afterName) :- ReadUpTo(u, '=');
      var (value, afterValue) :- ReadWord(afterName);
      var next :- EndLine(afterValue);
      var (more, rest) :- ReadBody(next);
      Some(([Assignment(name, value)] + more, rest))
  }

  function ReadClauses(s: string): Option<seq<Clause>>
    decreases |s|
  {
    var u := SkipBlanks(s);
    if ESAC <= u then (if u == ESAC then Some([]) else None)
    else
      var (pattern, afterPattern) :- ReadUpTo(u, ')');
      var bodyText :- EndLine(afterPattern);
      var (body, next) :- ReadBody(bodyText);
      var more :- ReadClauses(next);
      Some([Clause(pattern, body)] + more)
  }

  function ReadScript(s: string): Option<seq<Clause>> {
    if HEADER + "\n" <= s then ReadClauses(s[|HEADER| + 1..]) else None
  }

  type Environment = map<string, string>

  function Perform(env: Environment, body: seq<Assignment>): Environment
    decreases |body|
  {
    if body == [] then env else Perform(env[body[0].name := body[0].value], body[1..])
  }

  /** The first branch whose pattern matches; `*` matches everything. */
  function Select(clauses: seq<Clause>, locale: string): seq<Assignment> {
    if clauses == [] then []
    else if clauses[0].pattern == "*" || clauses[0].pattern == locale then clauses[0].body
    else Select(clauses[1..], locale)
  }

  /** Run the script with USER_LOCALE set to `locale`. */
  function RunScript(s: string, locale: string): Option<Environment> {
    var clauses :- ReadScript(s);
    Some(Perform(map[], Select(clauses, locale)))
  }

  // ---- Lines -----------------------------------------------------------------------

  function Terminated(lines: seq<string>): string {
    if lines == [] then "" else lines[0] + ("\n" + Terminated(lines[1..]))
  }

  lemma {:induction false} JoinIsTerminated(lines: seq<string>, last: string)
    ensures Join(lines + [last]) == Terminated(lines) + last
  {
    if lines == [] {
      assert lines + [last] == [last];
    } else {
      assert (lines + [last])[0] == lines[0] && (lines + [last])[1..] == lines[1..] + [last];
      JoinIsTerminated(lines[1..], last);
      Regroup(lines[0], Terminated(lines[1..]), last);
    }
  }

  lemma Regroup(line: string, rest: string, tail: string)
    ensures (line + ("\n" + rest)) + tail == line + ("\n" + (rest + tail))
  {
  }

  lemma {:induction false} TerminatedAppend(a: seq<string>, b: seq<string>)
    ensures Terminated(a + b) == Terminated(a) + Terminated(b)
  {
    if a == [] {
      assert a + b == b;
    } else {
      assert (a + b)[0] == a[0] && (a + b)[1..] == a[1..] + b;
      TerminatedAppend(a[1..], b);
      Regroup(a[0], Terminated(a[1..]), Terminated(b));
    }
  }

  // ---- Reading back what was generated ------------------------------------------------

  predicate PlainWord(s: string) {
    forall i :: 0 <= i < |s| ==> IsPlain(s[i]) || s[i] == '*'
  }

  predicate Readable(a: Assignment) {
    a.name != "" && PlainWord(a.name) && !HasNul(a.value)
  }

  predicate ReadableClause(c: Clause) {
    && PlainWord(c.pattern) && c.pattern != "" && !(ESAC <= c.pattern)
    && forall i :: 0 <= i < |c.body| ==> Readable(c.body[i])
  }

  lemma {:induction false} WordReadUpTo(w: string, end: char, rest: string)
    requires PlainWord(w) && !IsPlain(end) && end != '*'
    ensures ReadUpTo(w + ([end] + rest), end) == Some((w, rest))
  {
    if w == "" {
      assert w + ([end] + rest) == [end] + rest;
      assert ([end] + rest)[1..] == rest;
    } else {
      WordReadUpTo(w[1..], end, rest);
      assert (w + ([end] + rest))[1..] == w[1..] + ([end] + rest);
      assert w == [w[0]] + w[1..];
    }
  }

  lemma Indented(s: string)
    requires s != "" && s[0] != ' ' && s[0] != '\t'
    ensures SkipBlanks("    " + s) == s && SkipBlanks("  " + s) == s
  {
    assert (" " + s)[1..] == s && SkipBlanks(" " + s) == SkipBlanks(s) == s;
    assert ("  " + s)[1..] == " " + s && SkipBlanks("  " + s) == SkipBlanks(" " + s);
    assert ("   " + s)[1..] == "  " + s && SkipBlanks("   " + s) == SkipBlanks("  " + s);
    assert ("    " + s)[1..] == "   " + s && SkipBlanks("    " + s) == SkipBlanks("   " + s);
  }

  lemma LineIsRead(rest: string)
    ensures EndLine("\n" + rest) == Some(rest)
  {
  }

  lemma AssignmentStep(a: Assignment, more: seq<Assignment>, tail: string, rest: string)
    requires Readable(a) && ReadBody(tail) == Some((more, rest))
    ensures ReadBody(("    " + (a.name + ("=" + SingleQuoted(a.value)))) + ("\n" + tail)) == Some(([a] + more, rest))
  {
    hide SingleQuoted;
    hide ReadWord;
    var afterName := SingleQuoted(a.value) + ("\n" + tail);
    var u := a.name + (['='] + afterName);
    var s := ("    " + (a.name + ("=" + SingleQuoted(a.value)))) + ("\n" + tail);
    assert s == "    " + u;
    Indented(u);
    assert u[0] == a.name[0];
    WordReadUpTo(a.name, '=', afterName);
    QuotedReadsBack(a.value, "\n" + tail);
    LineIsRead(tail);
  }

  lemma {:induction false} BodyReads(body: seq<Assignment>, rest: string)
    requires forall i :: 0 <= i < |body| ==> Readable(body[i])
    ensures ReadBody(Terminated(BodyLines(body)) + rest) == Some((body, rest))
  {
    hide ReadBody;
    hide SingleQuoted;
    if body == [] {
      EmptyBodyReads(rest);
      assert Terminated(BodyLines([])) + rest == "    ;;" + ("\n" + rest);
    } else {
      var tail := Terminated(BodyLines(body[1..])) + rest;
      BodyReads(body[1..], rest);
      var line := "    " + (body[0].name + ("=" + SingleQuoted(body[0].value)));
      assert BodyLines(body) == [line] + BodyLines(body[1..]);
      assert BodyLines(body)[1..] == BodyLines(body[1..]);
      Regroup(line, Terminated(BodyLines(body[1..])), rest);
      AssignmentStep(body[0], body[1..], tail, rest);
      assert body == [body[0]] + body[1..];
    }
  }

  lemma EmptyBodyReads(rest: string)
    ensures ReadBody("    ;;" + ("\n" + rest)) == Some(([], rest))
  {
    var u := ";;" + ("\n" + rest);
    assert "    ;;" + ("\n" + rest) == "    " + u;
    Indented(u);
    assert u[2..] == "\n" + rest;
  }

  lemma NotEsac(p: string, rest: string)
    requires PlainWord(p) && !(ESAC <= p)
    ensures !(ESAC <= p + (")" + rest))
  {
    var u := p + (")" + rest);
    if |p| < 4 {
      assert u[|p|] == ')';
      assert ESAC[0] == 'e' && ESAC[1] == 's' && ESAC[2] == 'a' && ESAC[3] == 'c';
    } else {
      assert u[..4] == p[..4];
    }
  }

  lemma ClauseStep(c: Clause, more: seq<Clause>, next: string)
    requires ReadableClause(c) && ReadClauses(next) == Some(more)
    ensures ReadClauses(Terminated(ClauseLines(c)) + next) == Some([c] + more)
  {
    hide ReadBody;
    hide BodyLines;
    var bodyText := Terminated(BodyLines(c.body)) + next;
    var u := c.pattern + ([')'] + ("\n" + bodyText));
    var line := "  " + (c.pattern + ")");
    assert ClauseLines(c)[1..] == BodyLines(c.body);
    Regroup(line, Terminated(BodyLines(c.body)), next);
    assert line + ("\n" + bodyText) == "  " + u;
    Indented(u);
    assert u[0] == c.pattern[0];
    NotEsac(c.pattern, "\n" + bodyText);
    WordReadUpTo(c.pattern, ')', "\n" + bodyText);
    LineIsRead(bodyText);
    BodyReads(c.body, next);
    assert c == Clause(c.pattern, c.body);
  }

  lemma {:induction false} ClausesRead(clauses: seq<Clause>)
    requires forall i :: 0 <= i < |clauses| ==> ReadableClause(clauses[i])
    ensures ReadClauses(Terminated(AllLines(clauses)) + ESAC) == Some(clauses)
  {
    hide ReadableClause;
    hide ClauseLines;
    if clauses == [] {
      assert "" + ESAC == ESAC;
      assert SkipBlanks(ESAC) == ESAC;
    } else {
      hide ReadClauses;
      var next := Terminated(AllLines(clauses[1..])) + ESAC;
      ClausesRead(clauses[1..]);
      TerminatedAppend(ClauseLines(clauses[0]), AllLines(clauses[1..]));
      ConcatAssociative(Terminated(ClauseLines(clauses[0])), Terminated(AllLines(clauses[1..])), ESAC);
      ClauseStep(clauses[0], clauses[1..], next);
      assert clauses == [clauses[0]] + clauses[1..];
    }
  }

  /** The generated text reads back as the branches it was generated from. */
  lemma ScriptReadsBack(clauses: seq<Clause>)
    requires forall i :: 0 <= i < |clauses| ==> ReadableClause(clauses[i])
    ensures ReadScript(CaseText(clauses)) == Some(clauses)
  {
    hide ReadClauses;
    hide ReadableClause;
    var lines := [HEADER] + AllLines(clauses);
    JoinIsTerminated(lines, ESAC);
    assert lines[1..] == AllLines(clauses);
    var text := CaseText(clauses);
    Regroup(HEADER, Terminated(AllLines(clauses)), ESAC);
    var tail := Terminated(AllLines(clauses)) + ESAC;
    assert text == HEADER + ("\n" + tail);
    assert text == (HEADER + "\n") + tail;
    assert text[|HEADER| + 1..] == tail;
    ClausesRead(clauses);
  }

  // ---- What running it does ---------------------------------------------------------

  /** The environment that sets the six variables to the strings of `m`. */
  function Assigned(m: Motd): Environment {
    map["BANNER_TAGLINE" := m.tagline, "DEPLOYED_HEADER" := m.deployedHeader, "EMPTY_LINE" := m.noAppsHint,
        "AI_HEADER" := m.aiHeader, "TOOLS_INSTALLING" := m.toolsInstalling, "CMDS_HEADER" := m.cmdsHeader]
  }

  lemma PerformsAll(m: Motd)
    ensures Perform(map[], Assignments(m)) == Assigned(m)
  {
    var b := Assignments(m);
    var e0: Environment := map[];
    var e1 := e0[b[0].name := b[0].value];
    var e2 := e1[b[1].name := b[1].value];
    var e3 := e2[b[2].name := b[2].value];
    var e4 := e3[b[3].name := b[3].value];
    var e5 := e4[b[4].name := b[4].value];
    var e6 := e5[b[5].name := b[5].value];
    assert b[5..][1..] == [];
    assert Perform(e5, b[5..]) == Perform(e6, []) == e6;
    assert b[4..][1..] == b[5..] && b[3..][1..] == b[4..] && b[2..][1..] == b[3..] && b[1..][1..] == b[2..];
    assert Perform(e3, b[3..]) == Perform(e4, b[4..]) == Perform(e5, b[5..]);
    assert Perform(e1, b[1..]) == Perform(e2, b[2..]) == Perform(e3, b[3..]);
    assert e6 == Assigned(m);
  }

  lemma {:induction false} SelectsLocale(locales: seq<string>, t: Translations, locale: string)
    requires "*" !in locales
    ensures Select(Clauses(locales, t), locale)
         == Assignments(if locale in locales && locale in SHIPPED_LOCALES then t.For(locale) else t.en)
  {
    hide Assignments;
    if locales == [] {
    } else {
      assert locales == [locales[0]] + locales[1..];
      SelectsLocale(locales[1..], t, locale);
      var rest := Clauses(locales[1..], t);
      if locales[0] in SHIPPED_LOCALES {
        assert Clauses(locales, t)[1..] == rest;
      } else {
        assert Clauses(locales, t) == rest;
      }
    }
  }

  predicate LocaleName(s: string) {
    s != "" && PlainWord(s) && !(ESAC <= s) && s != "*"
  }

  lemma AssignmentsReadable(m: Motd)
    requires !MotdHasNul(m)
    ensures forall i :: 0 <= i < 6 ==> Readable(Assignments(m)[i])
  {
  }

  lemma {:induction false} ClausesReadable(locales: seq<string>, t: Translations)
    requires !MotdHasNul(t.en)
    requires forall l :: l in locales ==> LocaleName(l) && (l in SHIPPED_LOCALES ==> !MotdHasNul(t.For(l)))
    ensures forall i :: 0 <= i < |Clauses(locales, t)| ==> ReadableClause(Clauses(locales, t)[i])
  {
    hide Readable;
    AssignmentsReadable(t.en);
    if locales == [] {
    } else {
      ClausesReadable(locales[1..], t);
      if locales[0] in SHIPPED_LOCALES {
        AssignmentsReadable(t.For(locales[0]));
      }
    }
  }

  lemma ShortWordIsName(s: string)
    requires s != "" && PlainWord(s) && s[0] != '*'
    requires |s| < 4 || s[0] != 'e'
    ensures LocaleName(s)
  {
    assert ESAC[0] == 'e';
  }

  lemma NameAt(i: nat)
    requires i < |ALL_LOCALES|
    ensures LocaleName(ALL_LOCALES[i])
  {
    var l := ALL_LOCALES[i];
    assert l == "en" || l == "ja" || l == "ko" || l == "de" || l == "pt-BR" || l == "fr";
    ShortWordIsName(l);
  }

  lemma LocalesAreNames()
    ensures forall l :: l in ALL_LOCALES ==> LocaleName(l)
  {
    forall i | 0 <= i < |ALL_LOCALES| ensures LocaleName(ALL_LOCALES[i]) {
      NameAt(i);
    }
  }

  /** Running the generated statement sets every variable to exactly its translation for
      a shipped locale, and to the English strings for any other value of USER_LOCALE. */
  lemma EveryLocaleGetsItsStrings(t: Translations, locale: string)
    requires !AnyNul(t)
    ensures RunScript(CaseText(Clauses(ALL_LOCALES, t)), locale)
         == Some(Assigned(if locale in ALL_LOCALES && locale in SHIPPED_LOCALES then t.For(locale) else t.en))
  {
    hide CaseText;
    hide ReadScript;
    hide Clauses;
    hide Assignments;
    hide Assigned;
    LocalesAreNames();
    ClausesReadable(ALL_LOCALES, t);
    ScriptReadsBack(Clauses(ALL_LOCALES, t));
    SelectsLocale(ALL_LOCALES, t, locale);
    PerformsAll(t.For(locale));
    PerformsAll(t.en);
  }

  /** The strings that a value of USER_LOCALE selects: the Japanese ones for `ja` if they
      are there, and the English ones otherwise. */
  lemma GeneratedStringsExactly(t: Translations, locale: string)
    requires !AnyNul(t)
    ensures var m := if locale == "ja" && "ja" in t.others then t.others["ja"] else t.en;
            RunScript(CaseText(Clauses(ALL_LOCALES, t)), locale)
            == Some(map["BANNER_TAGLINE" := m.tagline, "DEPLOYED_HEADER" := m.deployedHeader,
                        "EMPTY_LINE" := m.noAppsHint, "AI_HEADER" := m.aiHeader,
                        "TOOLS_INSTALLING" := m.toolsInstalling, "CMDS_HEADER" := m.cmdsHeader])
  {
    EveryLocaleGetsItsStrings(t, locale);
    hide RunScript;
    hide CaseText;
    hide Clauses;
    assert ALL_LOCALES[1] == "ja";
    assert locale in SHIPPED_LOCALES ==> locale == "en" || locale == "ja";
  }
}
