/**
 Values that cross a remote shell and then SQLite: how they are quoted, and that the two
 languages read them back exactly. The reader of the first is the word splitting and
 quote removal of the POSIX shell (IEEE Std 1003.1, XCU sections 2.2.1 to 2.2.3 and 2.3),
 the reader of the second is SQL's string literal.
 */
module Quoting {
  import opened Disk

  /* ----------------------------------------------------------- the writers */

  /** strings.ReplaceAll(s, "'", with) */
  function ReplaceQuote(s: string, with: string): string {
    if s == [] then []
    else (if s[0] == '\'' then with else [s[0]]) + ReplaceQuote(s[1..], with)
  }

  function ShellSingleQuote(s: string): string {
    "'" + ReplaceQuote(s, "'\\''") + "'"
  }

  /** The other shell quoting of the program: a quote goes between double quotes. */
  function ShellQuote(s: string): string {
    if s == [] then "''" else "'" + ReplaceQuote(s, "'\"'\"'") + "'"
  }

  function SqlString(s: string): string {
    "'" + ReplaceQuote(s, "''") + "'"
  }

  const UPDATE := "UPDATE users SET token_hash = "
  const WHERE := " WHERE nickname = "
  const CHANGES := "; SELECT changes();"
  const SELECT := "SELECT 1 FROM users WHERE nickname = "
  const LIMIT := " LIMIT 1;"
  const SQLITE3 := "sqlite3"
  const STATE_DB := "/var/lib/wg-monitor/state.db"

  function BuildUpdateAgentTokenHashSQL(nick: string, tokenHash: string): string {
    UPDATE + SqlString(tokenHash) + (WHERE + SqlString(nick) + CHANGES)
  }

  function BuildUserExistsSQL(nick: string): string {
    SELECT + SqlString(nick) + LIMIT
  }

  /** Hand one SQL text to the backend's database over a remote shell. */
  function Sqlite3Command(sql: string): string {
    SQLITE3 + " " + (STATE_DB + " " + ShellSingleQuote(sql))
  }

  /* ------------------------------------------------------ the shell's reader */

  datatype Mode = Blank | Bare | Single | Double

  /** Characters that, unquoted, are more to the shell than themselves. */
  predicate IsActive(c: char) {
    c in {'|', '&', ';', '<', '>', '(', ')', '$', '`', '\n', '*', '?', '[', '#', '~'}
  }

  predicate IsQuoting(c: char) {
    c in {'\'', '"', '\\', ' ', '\t'}
  }

  /** The words of a command line; None where it is not just words, or a quote is not closed. */
  function Words(s: string, mode: Mode, word: string): Option<seq<string>>
    decreases |s|
  {
    if s == [] then
      match mode
      case Blank => Some([])
      case Bare => Some([word])
      case _ => None
    else
      var c, rest := s[0], s[1..];
      match mode
      case Single =>
        if c == '\'' then Words(rest, Bare, word) else Words(rest, Single, word + [c])
      case Double =>
        if c == '"' then Words(rest, Bare, word)
        else if c in {'$', '`', '\\'} then None
        else Words(rest, Double, word + [c])
      case _ =>
        if c == '\'' then Words(rest, Single, word)
        else if c == '"' then Words(rest, Double, word)
        else if c == ' ' || c == '\t' then
          match Words(rest, Blank, [])
          case None => None
          case Some(more) => Some((if mode == Bare then [word] else []) + more)
        else if c == '\\' then
          if rest == [] then None
          else if rest[0] == '\n' then Words(rest[1..], mode, word)
          else Words(rest[1..], Bare, word + [rest[0]])
        else if IsActive(c) then None
        else Words(rest, Bare, word + [c])
  }

  predicate IsPlainWord(p: string) {
    p != [] && forall c :: c in p ==> !IsQuoting(c) && !IsActive(c)
  }

  /** The words a POSIX shell passes on for this command line. */
  function ShellWords(command: string): Option<seq<string>> {
    Words(command, Blank, [])
  }

  /* -------------------------------------------------------- SQL's reader */

  /** SQL text is plain text with string literals in it. */
  datatype SqlPart = Plain(text: string) | Literal(value: string)

  /** The parts of an SQL text; None if a literal is not closed. In a literal a doubled quote stands for one. */
  function SqlParts(s: string, inside: bool, acc: string): Option<seq<SqlPart>>
    decreases |s|
  {
    if s == [] then
      if inside then None else Some([Plain(acc)])
    else if !inside then
      if s[0] == '\'' then
        var more := SqlParts(s[1..], true, []);
        if more.None? then None else Some([Plain(acc)] + more.value)
      else SqlParts(s[1..], false, acc + [s[0]])
    else if s[0] == '\'' then
      if |s| > 1 && s[1] == '\'' then SqlParts(s[2..], true, acc + ['\''])
      else
        var more := SqlParts(s[1..], false, []);
        if more.None? then None else Some([Literal(acc)] + more.value)
    else SqlParts(s[1..], true, acc + [s[0]])
  }

  function ReadSql(sql: string): Option<seq<SqlPart>> {
    SqlParts(sql, false, [])
  }

  /* ------------------------------------------------------------ shell proofs */

  /** Close, an escaped quote, open again: one quote of the word. */
  lemma ReadQuoteMark(word: string, tail: string)
    ensures Words("'\\''" + tail, Single, word) == Words(tail, Single, word + ['\''])
  {
    var t0, t1, t3 := "'\\''" + tail, "\\''" + tail, "'" + tail;
    assert t0[1..] == t1 && t1[1..][1..] == t3 && t3[1..] == tail;
    assert Words(t0, Single, word) == Words(t1, Bare, word);
    assert Words(t1, Bare, word) == Words(t3, Bare, word + ['\'']);
  }

  /** Close, a double-quoted quote, open again. */
  lemma ReadDoubleQuoteMark(word: string, tail: string)
    ensures Words("'\"'\"'" + tail, Single, word) == Words(tail, Single, word + ['\''])
  {
    var t0, t1, t2, t3, t4 := "'\"'\"'" + tail, "\"'\"'" + tail, "'\"'" + tail, "\"'" + tail, "'" + tail;
    assert t0[1..] == t1 && t1[1..] == t2 && t2[1..] == t3 && t3[1..] == t4 && t4[1..] == tail;
    assert Words(t0, Single, word) == Words(t1, Bare, word);
    assert Words(t1, Bare, word) == Words(t2, Double, word);
    assert Words(t2, Double, word) == Words(t3, Double, word + ['\'']);
    assert Words(t3, Double, word + ['\'']) == Words(t4, Bare, word + ['\'']);
  }

  /** Inside single quotes, the escaped text and the closing quote read as the text. */
  lemma {:induction false} ReadEscaped(s: string, word: string, rest: string)
    ensures Words(ReplaceQuote(s, "'\\''") + "'" + rest, Single, word) == Words(rest, Bare, word + s)
  {
    if s == [] {
      assert ReplaceQuote(s, "'\\''") + "'" + rest == "'" + rest;
      assert ("'" + rest)[1..] == rest;
      assert word + s == word;
    } else {
      var tail := ReplaceQuote(s[1..], "'\\''") + "'" + rest;
      ReadEscaped(s[1..], word + [s[0]], rest);
      assert word + [s[0]] + s[1..] == word + s;
      if s[0] == '\'' {
        assert ReplaceQuote(s, "'\\''") + "'" + rest == "'\\''" + tail;
        ReadQuoteMark(word, tail);
      } else {
        assert ReplaceQuote(s, "'\\''") + "'" + rest == [s[0]] + tail;
      }
    }
  }

  lemma {:induction false} ReadDoubleEscaped(s: string, word: string, rest: string)
    ensures Words(ReplaceQuote(s, "'\"'\"'") + "'" + rest, Single, word) == Words(rest, Bare, word + s)
  {
    if s == [] {
      assert ReplaceQuote(s, "'\"'\"'") + "'" + rest == "'" + rest;
      assert ("'" + rest)[1..] == rest;
      assert word + s == word;
    } else {
      var tail := ReplaceQuote(s[1..], "'\"'\"'") + "'" + rest;
      ReadDoubleEscaped(s[1..], word + [s[0]], rest);
      assert word + [s[0]] + s[1..] == word + s;
      if s[0] == '\'' {
        assert ReplaceQuote(s, "'\"'\"'") + "'" + rest == "'\"'\"'" + tail;
        ReadDoubleQuoteMark(word, tail);
      } else {
        assert ReplaceQuote(s, "'\"'\"'") + "'" + rest == [s[0]] + tail;
      }
    }
  }

  /** Plain characters before a quoted word belong to the words they spell. */
  lemma {:induction false} ReadPlain(p: string, word: string, rest: string)
    requires p == [] || IsPlainWord(p)
    ensures Words(p + rest, Bare, word) == Words(rest, Bare, word + p)
  {
    if p == [] {
      assert p + rest == rest && word + p == word;
    } else {
      assert (p + rest)[1..] == p[1..] + rest;
      assert p[0] in p && (p[1..] == [] || IsPlainWord(p[1..]));
      ReadPlain(p[1..], word + [p[0]], rest);
      assert word + [p[0]] + p[1..] == word + p;
    }
  }

  /** Whatever the text, the shell reads its quoted form as that one word. */
  lemma ShellSingleQuoteRoundTrip(s: string)
    ensures ShellWords(ShellSingleQuote(s)) == Some([s])
  {
    var q := ShellSingleQuote(s);
    assert q[1..] == ReplaceQuote(s, "'\\''") + "'" + "";
    ReadEscaped(s, [], "");
    assert [] + s == s;
  }

  lemma ShellQuoteRoundTrip(s: string)
    ensures ShellWords(ShellQuote(s)) == Some([s])
  {
    var q := ShellQuote(s);
    if s == [] {
      assert q[1..] == "'" && q[1..][1..] == "";
      assert Words("'", Single, []) == Words("", Bare, []);
    } else {
      assert q[1..] == ReplaceQuote(s, "'\"'\"'") + "'" + "";
      ReadDoubleEscaped(s, [], "");
      assert [] + s == s;
    }
  }

  /** A plain word, a space, and a line that reads as `words`. */
  lemma ReadPlainWord(p: string, line: string, words: seq<string>)
    requires IsPlainWord(p) && ShellWords(line) == Some(words)
    ensures ShellWords(p + " " + line) == Some([p] + words)
  {
    var t := " " + line;
    assert t[1..] == line && t[0] == ' ';
    assert Words(t, Bare, p) == Some([p] + words);
    ReadPlain(p, [], t);
    assert [] + p == p && p + " " + line == p + t;
    assert p[0] in p && (p + t)[0] == p[0];
    assert Words(p + t, Blank, []) == Words(p + t, Bare, []);
  }

  lemma PlainCommand()
    ensures IsPlainWord(SQLITE3)
  {
  }

  lemma PlainPath()
    ensures IsPlainWord(STATE_DB)
  {
  }

  lemma TwoPlainWords(a: string, b: string, arg: string)
    requires IsPlainWord(a) && IsPlainWord(b)
    ensures ShellWords(a + " " + (b + " " + ShellSingleQuote(arg))) == Some([a, b, arg])
  {
    ShellSingleQuoteRoundTrip(arg);
    ReadPlainWord(b, ShellSingleQuote(arg), [arg]);
    ReadPlainWord(a, b + " " + ShellSingleQuote(arg), [b] + [arg]);
    assert [a] + ([b] + [arg]) == [a, b, arg];
  }

  /** The command line that hands SQLite a text: three words, the last of them that text. */
  lemma Sqlite3Words(sql: string)
    ensures ShellWords(Sqlite3Command(sql)) == Some([SQLITE3, STATE_DB, sql])
  {
    PlainCommand();
    PlainPath();
    TwoPlainWords(SQLITE3, STATE_DB, sql);
  }

  /* -------------------------------------------------------------- SQL proofs */

  /** A doubled-quote literal followed by anything but a quote reads as its value. */
  lemma {:induction false} ReadLiteral(v: string, acc: string, rest: string)
    requires rest == [] || rest[0] != '\''
    ensures SqlParts(ReplaceQuote(v, "''") + "'" + rest, true, acc) ==
            match SqlParts(rest, false, []) case None => None case Some(more) => Some([Literal(acc + v)] + more)
  {
    var s := ReplaceQuote(v, "''") + "'" + rest;
    if v == [] {
      assert s == "'" + rest && s[1..] == rest && acc + v == acc;
    } else {
      var tail := ReplaceQuote(v[1..], "''") + "'" + rest;
      ReadLiteral(v[1..], acc + [v[0]], rest);
      assert acc + [v[0]] + v[1..] == acc + v;
      if v[0] == '\'' {
        assert s == "''" + tail && s[2..] == tail;
      } else {
        assert s == [v[0]] + tail && s[1..] == tail;
      }
    }
  }

  /** Text without quotes is plain up to the next literal. */
  lemma {:induction false} ReadText(p: string, acc: string, rest: string)
    requires '\'' !in p
    ensures SqlParts(p + rest, false, acc) == SqlParts(rest, false, acc + p)
  {
    if p == [] {
      assert p + rest == rest && acc + p == acc;
    } else {
      assert (p + rest)[1..] == p[1..] + rest && (p + rest)[0] == p[0];
      ReadText(p[1..], acc + [p[0]], rest);
      assert acc + [p[0]] + p[1..] == acc + p;
    }
  }

  /** Text, then one literal, then the rest. */
  lemma ReadTextAndLiteral(p: string, v: string, rest: string, parts: seq<SqlPart>)
    requires '\'' !in p && (rest == [] || rest[0] != '\'') && ReadSql(rest) == Some(parts)
    ensures ReadSql(p + SqlString(v) + rest) == Some([Plain(p), Literal(v)] + parts)
  {
    var lit := ReplaceQuote(v, "''") + "'" + rest;
    var t := "'" + lit;
    assert p + SqlString(v) + rest == p + t;
    ReadText(p, [], t);
    assert [] + p == p && t[1..] == lit && [] + v == v;
    ReadLiteral(v, [], rest);
    assert [Plain(p)] + ([Literal(v)] + parts) == [Plain(p), Literal(v)] + parts;
  }

  lemma ReadPlainText(p: string)
    requires '\'' !in p
    ensures ReadSql(p) == Some([Plain(p)])
  {
    ReadText(p, [], []);
    assert p + [] == p && [] + p == p;
  }

  lemma SqlStringRoundTrip(v: string)
    ensures ReadSql(SqlString(v)) == Some([Plain([]), Literal(v), Plain([])])
  {
    ReadPlainText([]);
    ReadTextAndLiteral([], v, [], [Plain([])]);
    assert [] + SqlString(v) + [] == SqlString(v);
    assert [Plain([]), Literal(v)] + [Plain([])] == [Plain([]), Literal(v), Plain([])];
  }

  lemma UpdateHasNoQuotes()
    ensures '\'' !in UPDATE && '\'' !in WHERE && '\'' !in CHANGES && CHANGES[0] != '\''
  {
  }

  lemma SelectHasNoQuotes()
    ensures '\'' !in SELECT && '\'' !in LIMIT && LIMIT[0] != '\''
  {
  }

  lemma OneLiteral(a: string, v: string, b: string)
    requires '\'' !in a && '\'' !in b
    ensures ReadSql(a + SqlString(v) + b) == Some([Plain(a), Literal(v), Plain(b)])
  {
    ReadPlainText(b);
    ReadTextAndLiteral(a, v, b, [Plain(b)]);
    assert [Plain(a), Literal(v)] + [Plain(b)] == [Plain(a), Literal(v), Plain(b)];
  }

  lemma TwoLiterals(a: string, v: string, b: string, w: string, c: string)
    requires '\'' !in a && '\'' !in b && '\'' !in c && b != []
    ensures ReadSql(a + SqlString(v) + (b + SqlString(w) + c)) ==
            Some([Plain(a), Literal(v), Plain(b), Literal(w), Plain(c)])
  {
    OneLiteral(b, w, c);
    var rest := b + SqlString(w) + c;
    assert rest[0] == b[0] && b[0] in b;
    ReadTextAndLiteral(a, v, rest, [Plain(b), Literal(w), Plain(c)]);
    assert [Plain(a), Literal(v)] + [Plain(b), Literal(w), Plain(c)] ==
           [Plain(a), Literal(v), Plain(b), Literal(w), Plain(c)];
  }

  /**
   The committing command, read by the shell and then by SQL, sets exactly this hash for
   exactly this nickname, whatever characters they hold.
   */
  lemma UpdateTokenRoundTrip(nick: string, tokenHash: string)
    ensures exists sql ::
              && ShellWords(Sqlite3Command(BuildUpdateAgentTokenHashSQL(nick, tokenHash))) ==
                 Some([SQLITE3, STATE_DB, sql])
              && ReadSql(sql) == Some([Plain(UPDATE), Literal(tokenHash), Plain(WHERE), Literal(nick), Plain(CHANGES)])
  {
    var sql := BuildUpdateAgentTokenHashSQL(nick, tokenHash);
    Sqlite3Words(sql);
    UpdateHasNoQuotes();
    TwoLiterals(UPDATE, tokenHash, WHERE, nick, CHANGES);
  }

  lemma UserExistsRoundTrip(nick: string)
    ensures exists sql ::
              && ShellWords(Sqlite3Command(BuildUserExistsSQL(nick))) == Some([SQLITE3, STATE_DB, sql])
              && ReadSql(sql) == Some([Plain(SELECT), Literal(nick), Plain(LIMIT)])
  {
    var sql := BuildUserExistsSQL(nick);
    Sqlite3Words(sql);
    SelectHasNoQuotes();
    OneLiteral(SELECT, nick, LIMIT);
  }
}
