/** The SQL statement splitter of infra/database/migrations.py.

    `Split` is a recursive scanner over four modes that emits characters and
    statement cuts; `SplitSqlStatements` is the program's index loop, which keeps
    two comment flags, an optional quote and a buffer, and looks one character
    ahead and, for escapes, one character back. */
module SqlSplitter {
  import opened Sequences
  import opened Text

  datatype Mode = Normal | Quoted(q: char, escaped: bool) | LineComment | BlockComment

  datatype Event = Emit(c: char) | Cut

  datatype Token = Token(mode: Mode, width: nat, events: seq<Event>)

  predicate IsQuote(c: char) {
    c == '\'' || c == '"' || c == '`'
  }

  predicate StartsWith(s: string, c: char, d: char) {
    |s| >= 2 && s[0] == c && s[1] == d
  }

  /** The token at the front of `s`: the mode after it, its width and what it emits. */
  function NextToken(m: Mode, s: string): (t: Token)
    requires s != ""
    ensures 1 <= t.width <= |s|
  {
    match m
    case LineComment =>
      if s[0] == '\n' then Token(Normal, 1, [Emit('\n')]) else Token(LineComment, 1, [])
    case BlockComment =>
      if StartsWith(s, '*', '/') then Token(Normal, 2, []) else Token(BlockComment, 1, [])
    case Quoted(q, escaped) =>
      if s[0] == q && !escaped then Token(Normal, 1, [Emit(q)])
      else Token(Quoted(q, s[0] == '\\'), 1, [Emit(s[0])])
    case Normal =>
      if StartsWith(s, '-', '-') then Token(LineComment, 2, [])
      else if StartsWith(s, '/', '*') then Token(BlockComment, 2, [])
      else if IsQuote(s[0]) then Token(Quoted(s[0], false), 1, [Emit(s[0])])
      else if s[0] == ';' then Token(Normal, 1, [Cut])
      else Token(Normal, 1, [Emit(s[0])])
  }

  function Events(m: Mode, s: string): seq<Event>
    decreases |s|
  {
    if s == "" then []
    else
      var t := NextToken(m, s);
      t.events + Events(t.mode, s[t.width..])
  }

  function EndMode(m: Mode, s: string): Mode
    decreases |s|
  {
    if s == "" then m
    else
      var t := NextToken(m, s);
      EndMode(t.mode, s[t.width..])
  }

  /** The scanner started in mode `m` stands between two tokens at index `i` of `s`. */
  predicate Reaches(m: Mode, s: string, i: nat)
    requires i <= |s|
    decreases |s|
  {
    i == 0
    || var t := NextToken(m, s);
       t.width <= i && Reaches(t.mode, s[t.width..], i - t.width)
  }

  function Finish(pending: string): seq<string> {
    if Strip(pending) == "" then [] else [Strip(pending)]
  }

  /** The statements of an event stream, when `pending` has been emitted already. */
  function Statements(pending: string, ev: seq<Event>): seq<string>
    decreases |ev|
  {
    if ev == [] then Finish(pending)
    else match ev[0]
      case Emit(c) => Statements(pending + [c], ev[1..])
      case Cut => Finish(pending) + Statements("", ev[1..])
  }

  function Split(sql: string): seq<string> {
    Statements("", Events(Normal, sql))
  }

  // ------------------------------------------------------- the program's loop

  function NextSqlChar(sql: string, index: nat): string {
    if index + 1 < |sql| then [sql[index + 1]] else ""
  }

  predicate IsEscapedSqlQuote(sql: string, index: nat)
    requires index < |sql|
  {
    index > 0 && sql[index - 1] == '\\'
  }

  function UpdatedSqlQuote(sql: string, index: nat, quote: Option<char>): Option<char>
    requires index < |sql|
  {
    match quote
    case None => Some(sql[index])
    case Some(q) => if q == sql[index] && !IsEscapedSqlQuote(sql, index) then None else quote
  }

  function AppendSqlStatement(statements: seq<string>, buffer: string): seq<string> {
    var statement := Strip(buffer);
    if statement != "" then statements + [statement] else statements
  }

  /** The scanner mode that the loop's flags stand for at `index`. */
  ghost function LoopMode(sql: string, index: nat, quote: Option<char>, inLine: bool, inBlock: bool): Mode
    requires index <= |sql|
  {
    if inLine then LineComment
    else if inBlock then BlockComment
    else match quote
      case None => Normal
      case Some(q) => Quoted(q, index > 0 && sql[index - 1] == '\\')
  }

  /** With `statements` finished and `buffer` collected, the scanner standing at
      `index` in mode `m` still produces exactly `Split(sql)`. */
  ghost predicate Progress(sql: string, index: nat, m: Mode, buffer: string, statements: seq<string>) {
    index <= |sql| && statements + Statements(buffer, Events(m, sql[index..])) == Split(sql)
  }

  lemma Advance(sql: string, index: nat, m: Mode, buffer: string, statements: seq<string>)
    requires index < |sql| && Progress(sql, index, m, buffer, statements)
    ensures var t := NextToken(m, sql[index..]);
            && (t.events == [] ==> Progress(sql, index + t.width, t.mode, buffer, statements))
            && (t.events == [Cut] ==>
                 Progress(sql, index + t.width, t.mode, "", AppendSqlStatement(statements, buffer)))
            && (forall c :: t.events == [Emit(c)] ==>
                 Progress(sql, index + t.width, t.mode, buffer + [c], statements))
  {
    hide NextToken, Events, Statements, Strip;
    var t := NextToken(m, sql[index..]);
    assert sql[index..][t.width..] == sql[index + t.width..];
    var rest := Events(t.mode, sql[index + t.width..]);
    Unfold(m, sql[index..]);
    TokenEvents(m, sql[index..]);
    if t.events == [] {
      assert t.events + rest == rest;
    } else {
      StatementsNext(buffer, t.events[0], rest);
      assert t.events == [t.events[0]];
      Assoc(statements, Finish(buffer), Statements("", rest));
      assert statements + [] == statements;
    }
  }

  lemma TokenEvents(m: Mode, s: string)
    requires s != ""
    ensures var t := NextToken(m, s); t.events == [] || (|t.events| == 1 && (t.events[0].Cut? ==> t.events == [Cut]))
  {
  }

  lemma StatementsNext(pending: string, e: Event, ev: seq<Event>)
    ensures Statements(pending, [e] + ev) ==
            match e {
              case Emit(c) => Statements(pending + [c], ev)
              case Cut => Finish(pending) + Statements("", ev)
            }
  {
    assert ([e] + ev)[1..] == ev;
  }

  lemma ProgressStart(sql: string)
    ensures Progress(sql, 0, Normal, "", [])
  {
  }

  lemma ProgressEnd(sql: string, m: Mode, buffer: string, statements: seq<string>)
    requires Progress(sql, |sql|, m, buffer, statements)
    ensures AppendSqlStatement(statements, buffer) == Split(sql)
  {
    assert sql[|sql|..] == "";
    assert statements + [] == statements;
  }

  method SplitSqlStatements(sql: string) returns (statements: seq<string>)
    ensures statements == Split(sql)
  {
    hide Progress, IsSpace;
    ProgressStart(sql);
    statements := [];
    var buffer: string := "";
    var quote: Option<char> := None;
    var inLineComment, inBlockComment := false, false;
    var index: nat := 0;
    while index < |sql|
      invariant index <= |sql|
      invariant inLineComment || inBlockComment ==> quote == None
      invariant !(inLineComment && inBlockComment)
      invariant quote.Some? ==> IsQuote(quote.value)
      invariant Progress(sql, index, LoopMode(sql, index, quote, inLineComment, inBlockComment), buffer, statements)
    {
      var c := sql[index];
      var nextChar := NextSqlChar(sql, index);
      ghost var m := LoopMode(sql, index, quote, inLineComment, inBlockComment);
      Advance(sql, index, m, buffer, statements);
      if inLineComment {
        if c == '\n' {
          buffer, inLineComment := buffer + [c], false;
        }
        index := index + 1;
        continue;
      }
      if inBlockComment {
        if c == '*' && nextChar == "/" {
          index, inBlockComment := index + 2, false;
        } else {
          index := index + 1;
        }
        continue;
      }
      if quote == None && c == '-' && nextChar == "-" {
        inLineComment, index := true, index + 2;
        continue;
      }
      if quote == None && c == '/' && nextChar == "*" {
        inBlockComment, index := true, index + 2;
        continue;
      }
      if IsQuote(c) {
        quote := UpdatedSqlQuote(sql, index, quote);
        buffer := buffer + [c];
        index := index + 1;
        continue;
      }
      if c == ';' && quote == None {
        statements := AppendSqlStatement(statements, buffer);
        buffer := "";
        index := index + 1;
        continue;
      }
      buffer := buffer + [c];
      index := index + 1;
    }
    ProgressEnd(sql, LoopMode(sql, index, quote, inLineComment, inBlockComment), buffer, statements);
    statements := AppendSqlStatement(statements, buffer);
  }

  // ------------------------------------------------------ gluing scripts

  /** The last character of `a` and the first of `b` could form a comment opener. */
  predicate Fuses(a: string, b: string) {
    a != "" && b != ""
    && ((a[|a| - 1] == '-' && b[0] == '-') || (a[|a| - 1] == '/' && b[0] == '*'))
  }

  lemma DropGlue(a: string, b: string, k: nat)
    requires k <= |a|
    ensures (a + b)[k..] == a[k..] + b
    ensures a[k..] != "" ==> a[k..][|a[k..]| - 1] == a[|a| - 1]
  {
  }

  lemma DropCut(s: string, k: nat, i: nat)
    requires k <= i <= |s|
    ensures s[..i][k..] == s[k..][..i - k] && s[k..][i - k..] == s[i..]
  {
  }

  lemma NoEvents(m: Mode)
    ensures Events(m, "") == [] && EndMode(m, "") == m
  {
  }

  lemma Unfold(m: Mode, s: string)
    requires s != ""
    ensures var t := NextToken(m, s);
            && Events(m, s) == t.events + Events(t.mode, s[t.width..])
            && EndMode(m, s) == EndMode(t.mode, s[t.width..])
  {
  }

  /** The token at the front of `a` is read the same when `b` follows. */
  lemma TokenGlue(m: Mode, a: string, b: string)
    requires a != "" && EndMode(m, a) == Normal && !Fuses(a, b)
    ensures NextToken(m, a + b) == NextToken(m, a)
  {
    if |a| == 1 {
      assert EndMode(m, a) == NextToken(m, a).mode;
    }
  }

  /** A script that ends outside quotes and comments can be followed by any text
      without changing how either part is read. */
  lemma {:induction false} EventsGlue(m: Mode, a: string, b: string)
    requires EndMode(m, a) == Normal && !Fuses(a, b)
    ensures Events(m, a + b) == Events(m, a) + Events(Normal, b)
    ensures EndMode(m, a + b) == EndMode(Normal, b)
    decreases |a|
  {
    hide Events, EndMode, NextToken;
    if a == "" {
      NoEvents(m);
      assert a + b == b && [] + Events(Normal, b) == Events(Normal, b);
    } else {
      TokenGlue(m, a, b);
      Unfold(m, a);
      Unfold(m, a + b);
      var t := NextToken(m, a);
      var a' := a[t.width..];
      DropGlue(a, b, t.width);
      EventsGlue(t.mode, a', b);
      Assoc(t.events, Events(t.mode, a'), Events(Normal, b));
    }
  }

  lemma TokenCut(m: Mode, s: string, i: nat)
    requires 0 < i <= |s| && NextToken(m, s).width <= i
    ensures NextToken(m, s[..i]) == NextToken(m, s)
  {
  }

  /** At any index the scanner reaches, the script is its two halves put together. */
  lemma {:induction false} EventsCut(m: Mode, s: string, i: nat)
    requires i <= |s| && Reaches(m, s, i)
    ensures Events(m, s) == Events(m, s[..i]) + Events(EndMode(m, s[..i]), s[i..])
    decreases |s|
  {
    hide Events, EndMode, NextToken;
    if i == 0 {
      NoEvents(m);
      assert s[0..] == s && s[..0] == "" && [] + Events(m, s) == Events(m, s);
    } else {
      TokenCut(m, s, i);
      Unfold(m, s);
      Unfold(m, s[..i]);
      var t := NextToken(m, s);
      var s', j := s[t.width..], i - t.width;
      DropCut(s, t.width, i);
      EventsCut(t.mode, s', j);
      Assoc(t.events, Events(t.mode, s'[..j]), Events(EndMode(t.mode, s'[..j]), s'[j..]));
    }
  }

  lemma {:induction false} StatementsAppend(pending: string, ev: seq<Event>, ev': seq<Event>)
    ensures Statements(pending, ev + [Cut] + ev') == Statements(pending, ev) + Statements("", ev')
    decreases |ev|
  {
    if ev == [] {
      assert (ev + [Cut] + ev')[1..] == ev';
    } else {
      assert (ev + [Cut] + ev')[1..] == ev[1..] + [Cut] + ev';
      match ev[0]
      case Emit(c) => StatementsAppend(pending + [c], ev[1..], ev');
      case Cut => StatementsAppend("", ev[1..], ev');
    }
  }

  /** Splitting is compositional at a semicolon outside quotes and comments. */
  lemma SplitAtSemicolon(a: string, b: string)
    requires EndMode(Normal, a) == Normal
    ensures Split(a + ";" + b) == Split(a) + Split(b)
  {
    hide Events, EndMode, NextToken, Statements;
    Assoc(a, ";", b);
    EventsGlue(Normal, a, ";" + b);
    PlainToken(';', b);
    Assoc(Events(Normal, a), [Cut], Events(Normal, b));
    StatementsAppend("", Events(Normal, a), Events(Normal, b));
  }

  // ------------------------------------------------------------ round trip

  /** Read from mode `m`, which is Normal or Quoted, `s` opens no comment, cuts
      nowhere and closes every quote it opens. */
  predicate Inert(m: Mode, s: string)
    decreases |s|
  {
    if s == "" then m == Normal
    else match m
      case Normal =>
        !StartsWith(s, '-', '-') && !StartsWith(s, '/', '*') && s[0] != ';'
        && Inert(if IsQuote(s[0]) then Quoted(s[0], false) else Normal, s[1..])
      case Quoted(q, escaped) =>
        Inert(if s[0] == q && !escaped then Normal else Quoted(q, s[0] == '\\'), s[1..])
      case _ => false
  }

  predicate Clean(s: string) {
    s != "" && Trimmed(s) && Inert(Normal, s)
  }

  function Emits(s: string): seq<Event> {
    seq(|s|, i requires 0 <= i < |s| => Emit(s[i]))
  }

  lemma {:induction false} InertIsEmitted(m: Mode, s: string)
    requires Inert(m, s)
    ensures Events(m, s) == Emits(s) && EndMode(m, s) == Normal
    decreases |s|
  {
    if s != "" {
      InertIsEmitted(NextToken(m, s).mode, s[1..]);
      assert Emits(s) == [Emit(s[0])] + Emits(s[1..]);
    } else {
      assert Emits(s) == [];
    }
  }

  lemma {:induction false} EmittedIsPending(pending: string, s: string, ev: seq<Event>)
    ensures Statements(pending, Emits(s) + ev) == Statements(pending + s, ev)
    decreases |s|
  {
    if s == "" {
      assert Emits(s) + ev == ev && pending + s == pending;
    } else {
      assert (Emits(s) + ev)[1..] == Emits(s[1..]) + ev;
      assert (pending + [s[0]]) + s[1..] == pending + s;
      EmittedIsPending(pending + [s[0]], s[1..], ev);
    }
  }

  lemma CleanIsOneStatement(s: string)
    requires Clean(s)
    ensures Split(s) == [s]
  {
    InertIsEmitted(Normal, s);
    EmittedIsPending("", s, []);
    assert Emits(s) + [] == Emits(s) && "" + s == s;
    StripTrims(s);
  }

  predicate AfterBackslash(body: string, j: nat, before: bool)
    requires j < |body|
  {
    if j == 0 then before else body[j - 1] == '\\'
  }

  /** Inside quotes `q`, every quote in `body` directly follows a backslash, and the
      closing quote does not; `before` tells whether `body` itself follows one. */
  predicate StaysOpen(q: char, body: string, before: bool) {
    && (forall j :: 0 <= j < |body| && body[j] == q ==> AfterBackslash(body, j, before))
    && (if body == "" then !before else body[|body| - 1] != '\\')
  }

  lemma {:induction false} QuotedIsInert(q: char, body: string, before: bool)
    requires StaysOpen(q, body, before) && q != '\\'
    ensures Inert(Quoted(q, before), body + [q])
    decreases |body|
  {
    if body == "" {
      assert "" + [q] == [q] && [q][1..] == "";
    } else {
      assert (body + [q])[1..] == body[1..] + [q] && (body + [q])[0] == body[0];
      var escapes := body[0] == '\\';
      assert body[0] == q ==> AfterBackslash(body, 0, before);
      forall j | 0 <= j < |body| - 1 && body[1..][j] == q ensures AfterBackslash(body[1..], j, escapes) {
        assert AfterBackslash(body, j + 1, before);
      }
      QuotedIsInert(q, body[1..], escapes);
      assert Inert(Quoted(q, escapes), (body + [q])[1..]);
    }
  }

  /** A text in single quotes, double quotes or backquotes is read as it stands, whatever
      semicolons, comment openers and other quotes it holds. */
  lemma QuotedTextIsKept(a: string, q: char, body: string, b: string)
    requires EndMode(Normal, a) == Normal && q in "'\"`" && StaysOpen(q, body, false)
    ensures Split(a + ";" + ([q] + body + [q]) + ";" + b) == Split(a) + [[q] + body + [q]] + Split(b)
  {
    hide Events, EndMode, Statements, NextToken, StaysOpen;
    var text := [q] + body + [q];
    QuotedIsInert(q, body, false);
    assert text[1..] == body + [q] && text[0] == q;
    assert Clean(text);
    InertIsEmitted(Normal, text);
    CleanIsOneStatement(text);
    assert a + ";" + text + ";" + b == a + ";" + (text + ";" + b);
    SplitAtSemicolon(text, b);
    SplitAtSemicolon(a, text + ";" + b);
    Assoc(Split(a), [text], Split(b));
  }

  /** And only those three characters quote. */
  lemma OnlyQuotesQuote(c: char)
    ensures Split([c, ';', c]) == [[c, ';', c]] <==> c in "'\"`"
  {
    var s := [c, ';', c];
    if c in "'\"`" {
      QuotedIsInert(c, ";", false);
      assert s[1..] == ";" + [c] && s[0] == c == s[2];
      CleanIsOneStatement(s);
    } else {
      hide Events, Statements, EndMode, Finish;
      OneCharacter(c);
      assert s == [c] + ";" + [c];
      SplitAtSemicolon([c], [c]);
    }
  }

  lemma OneCharacter(c: char)
    requires c !in "'\"`"
    ensures EndMode(Normal, [c]) == Normal
    ensures forall x :: x in Split([c]) ==> |x| == 1
  {
    assert [c][1..] == "";
    NoEvents(Normal);
    assert Events(Normal, [c]) == if c == ';' then [Cut] else [Emit(c)];
    hide Events, EndMode, NextToken, Strip;
    assert [Cut][1..] == [] && [Emit(c)][1..] == [];
    if c == ';' {
      assert Trimmed("");
      StripTrims("");
      assert Statements("", []) == [];
    } else {
      StripOne(c);
      assert "" + [c] == [c];
      assert Statements([c], []) == Finish([c]);
    }
  }

  lemma StripOne(c: char)
    ensures Strip([c]) == if IsSpace(c) then "" else [c]
  {
    hide IsSpace, Strip;
    if IsSpace(c) {
      assert Blank([c]) && Blank("") && Trimmed("");
      StripDrops([c], "", "");
      assert [c] + "" + "" == [c];
    } else {
      assert Trimmed([c]);
      StripTrims([c]);
    }
  }

  /** Leading white space of the first statement is invisible. */
  lemma {:induction false} PendingSpace(pending: string, ev: seq<Event>)
    ensures Statements("\n" + pending, ev) == Statements(pending, ev)
    decreases |ev|
  {
    StripDropsLeadingSpace('\n', pending);
    if ev != [] {
      match ev[0]
      case Emit(c) =>
        assert ("\n" + pending) + [c] == "\n" + (pending + [c]);
        PendingSpace(pending + [c], ev[1..]);
      case Cut =>
    }
  }

  lemma LeadingNewline(s: string)
    ensures Split("\n" + s) == Split(s)
  {
    assert ("\n" + s)[1..] == s;
    assert Events(Normal, "\n" + s) == [Emit('\n')] + Events(Normal, s);
    assert ([Emit('\n')] + Events(Normal, s))[1..] == Events(Normal, s);
    PendingSpace("", Events(Normal, s));
    assert "\n" + "" == "\n" == "" + ['\n'];
  }

  function Join(statements: seq<string>): string {
    if statements == [] then ""
    else if |statements| == 1 then statements[0]
    else statements[0] + ";" + ("\n" + Join(statements[1..]))
  }

  /** Clean statements survive being written to a script and split again. */
  lemma {:induction false} SplitJoin(statements: seq<string>)
    requires forall i :: 0 <= i < |statements| ==> Clean(statements[i])
    ensures Split(Join(statements)) == statements
    decreases |statements|
  {
    if statements == [] {
    } else {
      var s, rest := statements[0], statements[1..];
      assert statements == [s] + rest;
      CleanIsOneStatement(s);
      if rest != [] {
        InertIsEmitted(Normal, s);
        SplitAtSemicolon(s, "\n" + Join(rest));
        LeadingNewline(Join(rest));
        SplitJoin(rest);
      }
    }
  }

  /** Whatever the script, every statement is trimmed and non-empty. */
  lemma {:induction false} StatementsAreTrimmed(pending: string, ev: seq<Event>)
    ensures forall st :: st in Statements(pending, ev) ==> st != "" && Trimmed(st)
    decreases |ev|
  {
    StripTrims(pending);
    if ev != [] {
      match ev[0]
      case Emit(c) => StatementsAreTrimmed(pending + [c], ev[1..]);
      case Cut => StatementsAreTrimmed("", ev[1..]);
    }
  }

  // -------------------------------------------------------------- comments

  function InsertAt(s: string, i: nat, x: string): string
    requires i <= |s|
  {
    s[..i] + x + s[i..]
  }

  predicate ClosesBlock(s: string) {
    exists k :: 0 <= k < |s| - 1 && s[k] == '*' && s[k + 1] == '/'
  }

  lemma {:induction false} BlockBody(body: string)
    requires !ClosesBlock(body)
    ensures forall rest :: Events(BlockComment, body + "*/" + rest) == Events(Normal, rest)
    decreases |body|
  {
    forall rest
      ensures Events(BlockComment, body + "*/" + rest) == Events(Normal, rest)
    {
      var s := body + "*/" + rest;
      if body == "" {
        assert s[2..] == rest;
      } else {
        assert s[1..] == body[1..] + "*/" + rest;
        assert !ClosesBlock(body[1..]) by {
          forall k | 0 <= k < |body[1..]| - 1 ensures !(body[1..][k] == '*' && body[1..][k + 1] == '/') {
            assert body[k + 1] == body[1..][k];
          }
        }
        BlockBody(body[1..]);
      }
    }
  }

  lemma OpensComment(rest: string)
    ensures Events(Normal, "/*" + rest) == Events(BlockComment, rest)
    ensures Events(Normal, "--" + rest) == Events(LineComment, rest)
  {
    hide Events;
    Unfold(Normal, "/*" + rest);
    Unfold(Normal, "--" + rest);
    assert ("/*" + rest)[2..] == rest && ("--" + rest)[2..] == rest;
    assert [] + Events(BlockComment, rest) == Events(BlockComment, rest);
    assert [] + Events(LineComment, rest) == Events(LineComment, rest);
  }

  lemma PlainToken(c: char, rest: string)
    requires c == '\n' || c == ';'
    ensures Events(Normal, [c] + rest) == [if c == ';' then Cut else Emit(c)] + Events(Normal, rest)
  {
    hide Events;
    Unfold(Normal, [c] + rest);
    assert ([c] + rest)[1..] == rest;
  }

  /** A closed block comment may be inserted wherever the scanner stands outside
      quotes and comments; the statements stay the same. */
  lemma BlockCommentIsInvisible(s: string, i: nat, body: string)
    requires i <= |s| && Reaches(Normal, s, i) && EndMode(Normal, s[..i]) == Normal
    requires !ClosesBlock(body)
    ensures Split(InsertAt(s, i, "/*" + body + "*/")) == Split(s)
  {
    hide Events, EndMode, NextToken, Statements;
    var rest := body + "*/" + s[i..];
    var comment := "/*" + rest;
    assert InsertAt(s, i, "/*" + body + "*/") == s[..i] + comment;
    OpensComment(rest);
    EventsGlue(Normal, s[..i], comment);
    BlockBody(body);
    EventsCut(Normal, s, i);
  }

  lemma {:induction false} LineBody(body: string, rest: string)
    requires '\n' !in body
    ensures Events(LineComment, body + "\n" + rest) == [Emit('\n')] + Events(Normal, rest)
    decreases |body|
  {
    var s := body + "\n" + rest;
    if body == "" {
      assert s[1..] == rest;
    } else {
      assert s[1..] == body[1..] + "\n" + rest;
      LineBody(body[1..], rest);
    }
  }

  /** `a` in Normal mode followed by a line comment emits only the newline. */
  lemma LineCommentEvents(a: string, body: string, rest: string)
    requires EndMode(Normal, a) == Normal && '\n' !in body
    requires a == "" || a[|a| - 1] != '-'
    ensures Events(Normal, a + ("--" + (body + "\n" + rest))) == Events(Normal, a) + [Emit('\n')] + Events(Normal, rest)
  {
    hide Events, EndMode, NextToken;
    var x := body + "\n" + rest;
    EventsGlue(Normal, a, "--" + x);
    OpensComment(x);
    LineBody(body, rest);
    Assoc(Events(Normal, a), [Emit('\n')], Events(Normal, rest));
  }

  lemma NewlineEvents(a: string, rest: string)
    requires EndMode(Normal, a) == Normal
    ensures Events(Normal, a + ("\n" + rest)) == Events(Normal, a) + [Emit('\n')] + Events(Normal, rest)
  {
    hide Events, EndMode, NextToken;
    EventsGlue(Normal, a, "\n" + rest);
    PlainToken('\n', rest);
    Assoc(Events(Normal, a), [Emit('\n')], Events(Normal, rest));
  }

  /** A dash that is its own token is not preceded by another dash. */
  lemma LoneDash(m: Mode, a: string)
    requires a != "" && a[|a| - 1] == '-' && EndMode(m, a) == Normal
    requires m.Quoted? ==> IsQuote(m.q)
    ensures var w := NextToken(m, a).width;
            if w == |a| then m == Normal && w == 1 else |a| == w + 1 ==> a[w - 1] != '-'
  {
    var t := NextToken(m, a);
    Unfold(m, a);
    if t.width < |a| {
      Unfold(t.mode, a[t.width..]);
    }
  }

  lemma SingleDash(a: string)
    requires |a| == 1 && a[0] == '-'
    ensures Events(Normal, a) == Events(Normal, a[..0]) + [Emit('-')]
    ensures EndMode(Normal, a[..0]) == Normal
  {
    assert a[1..] == "" == a[..0];
  }

  lemma QuotesStayQuotes(m: Mode, s: string)
    requires s != "" && (m.Quoted? ==> IsQuote(m.q))
    ensures var m' := NextToken(m, s).mode; m'.Quoted? ==> IsQuote(m'.q)
  {
  }

  /** A script that ends in Normal mode with '-' ends with a token that is just '-'. */
  lemma {:induction false} TrailingDash(m: Mode, a: string)
    requires a != "" && a[|a| - 1] == '-' && EndMode(m, a) == Normal
    requires m.Quoted? ==> IsQuote(m.q)
    ensures EndMode(m, a[..|a| - 1]) == Normal
    ensures Events(m, a) == Events(m, a[..|a| - 1]) + [Emit('-')]
    decreases |a|
  {
    hide Events, EndMode, NextToken;
    var t, n := NextToken(m, a), |a| - 1;
    LoneDash(m, a);
    if t.width == |a| {
      SingleDash(a);
    } else {
      Unfold(m, a);
      TokenCut(m, a, n);
      Unfold(m, a[..n]);
      DropCut(a, t.width, n);
      QuotesStayQuotes(m, a);
      var b := a[t.width..];
      TrailingDash(t.mode, b);
      Assoc(t.events, Events(t.mode, b[..|b| - 1]), [Emit('-')]);
    }
  }

  lemma {:induction false} NoDoubleDash(m: Mode, a: string)
    requires |a| > 1 && a[|a| - 1] == '-' && EndMode(m, a) == Normal
    requires m.Quoted? ==> IsQuote(m.q)
    ensures a[|a| - 2] != '-'
    decreases |a|
  {
    hide Events, EndMode, NextToken;
    var t := NextToken(m, a);
    LoneDash(m, a);
    Unfold(m, a);
    QuotesStayQuotes(m, a);
    if t.width + 1 < |a| {
      NoDoubleDash(t.mode, a[t.width..]);
    }
  }

  function Dashes(s: string): nat {
    if s == "" then 0 else (if s[0] == '-' then 1 else 0) + Dashes(s[1..])
  }

  function DashesEmitted(ev: seq<Event>): nat {
    if ev == [] then 0 else (if ev[0] == Emit('-') then 1 else 0) + DashesEmitted(ev[1..])
  }

  function TotalDashes(statements: seq<string>): nat {
    if statements == [] then 0 else Dashes(statements[0]) + TotalDashes(statements[1..])
  }

  lemma {:induction false} DashesAppend(a: string, b: string)
    ensures Dashes(a + b) == Dashes(a) + Dashes(b)
    decreases |a|
  {
    if a == "" {
      assert a + b == b;
    } else {
      assert (a + b)[1..] == a[1..] + b;
      DashesAppend(a[1..], b);
    }
  }

  lemma {:induction false} DashesEmittedAppend(a: seq<Event>, b: seq<Event>)
    ensures DashesEmitted(a + b) == DashesEmitted(a) + DashesEmitted(b)
    decreases |a|
  {
    if a == [] {
      assert a + b == b;
    } else {
      assert (a + b)[1..] == a[1..] + b;
      DashesEmittedAppend(a[1..], b);
    }
  }

  lemma {:induction false} LStripKeepsDashes(s: string)
    ensures Dashes(LStrip(s)) == Dashes(s)
  {
    if s != "" && IsSpace(s[0]) {
      LStripKeepsDashes(s[1..]);
    }
  }

  lemma {:induction false} RStripKeepsDashes(s: string)
    ensures Dashes(RStrip(s)) == Dashes(s)
  {
    if s != "" && IsSpace(s[|s| - 1]) {
      RStripKeepsDashes(s[..|s| - 1]);
      assert s == s[..|s| - 1] + [s[|s| - 1]];
      DashesAppend(s[..|s| - 1], [s[|s| - 1]]);
    }
  }

  /** Splitting loses no dash that the scanner emits. */
  lemma {:induction false} DashesKept(pending: string, ev: seq<Event>)
    ensures TotalDashes(Statements(pending, ev)) == Dashes(pending) + DashesEmitted(ev)
    decreases |ev|
  {
    hide Finish, Dashes, TotalDashes;
    if ev == [] {
      FinishKeepsDashes(pending, []);
      assert Finish(pending) + [] == Finish(pending);
    } else {
      match ev[0]
      case Emit(c) =>
        DashesKept(pending + [c], ev[1..]);
        DashesAppend(pending, [c]);
        OneDash(c);
      case Cut =>
        DashesKept("", ev[1..]);
        FinishKeepsDashes(pending, Statements("", ev[1..]));
    }
  }

  lemma OneDash(c: char)
    ensures Dashes([c]) == if c == '-' then 1 else 0
  {
    assert [c][1..] == "";
  }

  lemma FinishKeepsDashes(pending: string, rest: seq<string>)
    ensures TotalDashes(Finish(pending) + rest) == Dashes(pending) + TotalDashes(rest)
    ensures TotalDashes([]) == 0 == Dashes("")
  {
    LStripKeepsDashes(pending);
    RStripKeepsDashes(LStrip(pending));
    if Finish(pending) == [] {
      assert [] + rest == rest;
    } else {
      assert (Finish(pending) + rest)[1..] == rest;
    }
  }

  /** A line comment with its newline may be replaced by the newline alone exactly
      when it does not directly follow a '-': the program reads a third dash as part
      of the comment opener and drops the first. */
  lemma LineCommentIsNewline(s: string, i: nat, body: string)
    requires i <= |s| && EndMode(Normal, s[..i]) == Normal && '\n' !in body
    ensures Split(InsertAt(s, i, "--" + body + "\n")) == Split(InsertAt(s, i, "\n"))
      <==> (i == 0 || s[i - 1] != '-')
  {
    hide Events, EndMode, Statements;
    var a, rest := s[..i], s[i..];
    NewlineEvents(a, rest);
    assert InsertAt(s, i, "\n") == a + ("\n" + rest);
    if i == 0 || s[i - 1] != '-' {
      LineCommentEvents(a, body, rest);
      assert InsertAt(s, i, "--" + body + "\n") == a + ("--" + (body + "\n" + rest));
    } else {
      var a' := a[..i - 1];
      TrailingDash(Normal, a);
      if i > 1 { NoDoubleDash(Normal, a); }
      assert a == a' + "-";
      LineCommentEvents(a', "-" + body, rest);
      AbsorbedDash(a', body, rest);
      assert InsertAt(s, i, "--" + body + "\n") == a' + ("--" + (("-" + body) + "\n" + rest));
      var kept := [Emit('\n')] + Events(Normal, rest);
      OneDashLess(Events(Normal, a'), kept);
      Assoc(Events(Normal, a'), [Emit('\n')], Events(Normal, rest));
      Assoc(Events(Normal, a), [Emit('\n')], Events(Normal, rest));
    }
  }

  lemma AbsorbedDash(a: string, body: string, rest: string)
    ensures (a + "-") + ("--" + body + "\n") + rest == a + ("--" + (("-" + body) + "\n" + rest))
  {
    assert "-" + ("--" + body) == "--" + ("-" + body);
  }

  /** Two event streams that differ in one emitted dash give different statements. */
  lemma OneDashLess(a: seq<Event>, b: seq<Event>)
    ensures Statements("", a + b) != Statements("", (a + [Emit('-')]) + b)
  {
    DashesKept("", a + b);
    DashesKept("", (a + [Emit('-')]) + b);
    DashesEmittedAppend(a, b);
    DashesEmittedAppend(a + [Emit('-')], b);
    DashesEmittedAppend(a, [Emit('-')]);
  }

  // ------------------------------------------------- escapes in quoted text

  /** The token of a reader that pairs backslashes inside quotes, so that an escaped
      backslash escapes nothing. The program looks one character back instead. */
  function PairingToken(m: Mode, s: string): (t: Token)
    requires s != ""
    ensures 1 <= t.width <= |s|
  {
    if !m.Quoted? then NextToken(m, s)
    else if s[0] == m.q && !m.escaped then Token(Normal, 1, [Emit(m.q)])
    else Token(Quoted(m.q, s[0] == '\\' && !m.escaped), 1, [Emit(s[0])])
  }

  function ReaderToken(pairs: bool, m: Mode, s: string): (t: Token)
    requires s != ""
    ensures 1 <= t.width <= |s|
  {
    if pairs then PairingToken(m, s) else NextToken(m, s)
  }

  /** The mode in which a reader that starts in mode `m` stands at index `i`, if it stands
      there between two tokens. */
  function StandsIn(pairs: bool, m: Mode, s: string, i: nat): Option<Mode>
    decreases |s|
  {
    if i == 0 then Some(m)
    else if s == "" then None
    else
      var t := ReaderToken(pairs, m, s);
      if t.width > i then None else StandsIn(pairs, t.mode, s[t.width..], i - t.width)
  }

  /** The statements as the pairing reader reads them. */
  function PairingEvents(m: Mode, s: string): seq<Event>
    decreases |s|
  {
    if s == "" then []
    else
      var t := PairingToken(m, s);
      t.events + PairingEvents(t.mode, s[t.width..])
  }

  /** Outside quotes, or inside the same kind of quotes. */
  predicate SameKind(a: Option<Mode>, b: Option<Mode>) {
    a == b || (a.Some? && b.Some? && a.value.Quoted? && b.value.Quoted? && a.value.q == b.value.q)
  }

  predicate BackslashAt(s: string, i: int) {
    0 <= i < |s| && s[i] == '\\'
  }

  /** The pairing reader closes a quote at `i` that directly follows a backslash; `before`
      tells whether `s` itself does. */
  predicate ClosesAfterBackslash(m: Mode, s: string, i: nat, before: bool) {
    && i < |s| && StandsIn(true, m, s, i) == Some(Quoted(s[i], false))
    && (if i == 0 then before else BackslashAt(s, i - 1))
  }

  ghost predicate NeverClosesAfterBackslash(m: Mode, s: string, before: bool) {
    forall i :: 0 <= i < |s| ==> !ClosesAfterBackslash(m, s, i, before)
  }

  ghost predicate StandAlike(m: Mode, m': Mode, s: string) {
    forall i :: 0 <= i <= |s| ==> SameKind(StandsIn(false, m, s, i), StandsIn(true, m', s, i))
  }

  /** The two readers' states after a common beginning: `m` is the program's. */
  predicate InStep(m: Mode, m': Mode, before: bool) {
    if m.Quoted? then m'.Quoted? && m.q == m'.q && IsQuote(m.q) && m.escaped == before && (m'.escaped ==> before)
    else m == m'
  }

  lemma StandsNext(pairs: bool, m: Mode, s: string, i: nat)
    requires s != ""
    ensures var t := ReaderToken(pairs, m, s);
            && (0 < i < t.width ==> StandsIn(pairs, m, s, i) == None)
            && (i >= t.width ==> StandsIn(pairs, m, s, i) == StandsIn(pairs, t.mode, s[t.width..], i - t.width))
  {
  }

  /** If the readers part at the first token, it is a quote that only the pairing reader
      closes; otherwise they are in step after it. */
  lemma FirstTokens(m: Mode, m': Mode, s: string, before: bool)
    requires s != "" && InStep(m, m', before)
    ensures var t, t' := NextToken(m, s), PairingToken(m', s);
            && t.width == t'.width
            && (ClosesAfterBackslash(m', s, 0, before) ==> t.mode.Quoted? && t'.mode == Normal && t.width == 1)
            && (!ClosesAfterBackslash(m', s, 0, before) ==>
                 t.events == t'.events && InStep(t.mode, t'.mode, BackslashAt(s, t.width - 1)))
  {
  }

  /** Whether a later quote is closed after a backslash shows in the rest alone. */
  lemma ClosesLater(m': Mode, s: string, before: bool)
    requires s != ""
    ensures var t' := PairingToken(m', s);
            var rest, b := s[t'.width..], BackslashAt(s, t'.width - 1);
            NeverClosesAfterBackslash(m', s, before) <==>
              !ClosesAfterBackslash(m', s, 0, before) && NeverClosesAfterBackslash(t'.mode, rest, b)
  {
    hide PairingToken;
    var t' := PairingToken(m', s);
    var w := t'.width;
    var rest, b := s[w..], BackslashAt(s, w - 1);
    forall i | 0 < i < |s|
      ensures ClosesAfterBackslash(m', s, i, before) <==> i >= w && ClosesAfterBackslash(t'.mode, rest, i - w, b)
    {
      StandsNext(true, m', s, i);
    }
    if NeverClosesAfterBackslash(m', s, before) {
      forall i | 0 <= i < |rest| ensures !ClosesAfterBackslash(t'.mode, rest, i, b) {
        assert !ClosesAfterBackslash(m', s, i + w, before);
      }
    }
    if !ClosesAfterBackslash(m', s, 0, before) && NeverClosesAfterBackslash(t'.mode, rest, b) {
      forall i | 0 <= i < |s| ensures !ClosesAfterBackslash(m', s, i, before) {
        if i >= w && i > 0 {
          assert !ClosesAfterBackslash(t'.mode, rest, i - w, b);
        }
      }
    }
  }

  lemma StandAlikeNext(m: Mode, m': Mode, s: string)
    requires s != "" && NextToken(m, s).width == PairingToken(m', s).width
    ensures var t, t' := NextToken(m, s), PairingToken(m', s);
            StandAlike(m, m', s) <==> SameKind(Some(m), Some(m')) && StandAlike(t.mode, t'.mode, s[t.width..])
  {
    hide NextToken, PairingToken, SameKind;
    var t, t' := NextToken(m, s), PairingToken(m', s);
    var w, rest := t.width, s[t.width..];
    forall i | 0 < i <= |s|
      ensures i < w ==> StandsIn(false, m, s, i) == None == StandsIn(true, m', s, i)
      ensures i >= w ==> StandsIn(false, m, s, i) == StandsIn(false, t.mode, rest, i - w)
      ensures i >= w ==> StandsIn(true, m', s, i) == StandsIn(true, t'.mode, rest, i - w)
    {
      StandsNext(false, m, s, i);
      StandsNext(true, m', s, i);
    }
    NoneAlike();
    if StandAlike(m, m', s) {
      forall i | 0 <= i <= |rest| ensures SameKind(StandsIn(false, t.mode, rest, i), StandsIn(true, t'.mode, rest, i)) {
        assert SameKind(StandsIn(false, m, s, i + w), StandsIn(true, m', s, i + w));
      }
      assert SameKind(StandsIn(false, m, s, 0), StandsIn(true, m', s, 0));
    }
  }

  lemma NoneAlike()
    ensures SameKind(None, None)
  {
  }

  lemma {:induction false} InStepStandAlike(m: Mode, m': Mode, s: string, before: bool)
    requires InStep(m, m', before)
    ensures StandAlike(m, m', s) <==> NeverClosesAfterBackslash(m', s, before)
    ensures NeverClosesAfterBackslash(m', s, before) ==> Events(m, s) == PairingEvents(m', s)
    decreases |s|
  {
    hide StandsIn, StandAlike, NeverClosesAfterBackslash, ClosesAfterBackslash, NextToken, PairingToken, SameKind;
    StepIsSameKind(m, m', before);
    if s == "" {
      NothingToRead(m, m', before);
    } else {
      var t, t' := NextToken(m, s), PairingToken(m', s);
      var rest := s[t.width..];
      FirstTokens(m, m', s, before);
      ClosesLater(m', s, before);
      StandAlikeNext(m, m', s);
      if ClosesAfterBackslash(m', s, 0, before) {
        PartedStandApart(t.mode, t'.mode, rest);
      } else {
        InStepStandAlike(t.mode, t'.mode, rest, BackslashAt(s, t.width - 1));
      }
    }
  }

  lemma StepIsSameKind(m: Mode, m': Mode, before: bool)
    requires InStep(m, m', before)
    ensures SameKind(Some(m), Some(m'))
  {
  }

  lemma NothingToRead(m: Mode, m': Mode, before: bool)
    requires SameKind(Some(m), Some(m'))
    ensures StandAlike(m, m', "") && NeverClosesAfterBackslash(m', "", before)
  {
  }

  lemma PartedStandApart(m: Mode, m': Mode, s: string)
    requires m.Quoted? && m' == Normal
    ensures !StandAlike(m, m', s)
  {
    assert !SameKind(StandsIn(false, m, s, 0), StandsIn(true, m', s, 0));
  }

  /** The program stands inside and outside the same quotes as a reader that pairs
      backslashes, at every index, if and only if that reader closes no quote directly
      after a backslash; and then it finds the same statements. */
  lemma ReadersAgreeExactly(s: string)
    ensures StandAlike(Normal, Normal, s) <==> NeverClosesAfterBackslash(Normal, s, false)
    ensures NeverClosesAfterBackslash(Normal, s, false) ==> Split(s) == Statements("", PairingEvents(Normal, s))
  {
    InStepStandAlike(Normal, Normal, s, false);
  }

  lemma StandsAtStart(m: Mode, s: string)
    ensures StandsIn(false, m, s, 0) == Some(m) && EndMode(m, s[..0]) == m
  {
  }

  /** Where the program's own reader stands is where its scanner does. */
  lemma {:induction false} StandsWhereReached(m: Mode, s: string, i: nat)
    requires i <= |s|
    ensures StandsIn(false, m, s, i).Some? <==> Reaches(m, s, i)
    ensures Reaches(m, s, i) ==> StandsIn(false, m, s, i) == Some(EndMode(m, s[..i]))
    decreases |s|
  {
    hide NextToken, StandsIn;
    StandsAtStart(m, s);
    if i > 0 {
      var t := NextToken(m, s);
      StandsNext(false, m, s, i);
      if t.width <= i {
        StandsWhereReached(t.mode, s[t.width..], i - t.width);
        TokenCut(m, s, i);
        DropCut(s, t.width, i);
      }
    }
  }

  lemma QuotedStep(q: char, escaped: bool, c: char, rest: string)
    ensures var m := if c == q && !escaped then Normal else Quoted(q, c == '\\');
            && Events(Quoted(q, escaped), [c] + rest) == [Emit(c)] + Events(m, rest)
            && EndMode(Quoted(q, escaped), [c] + rest) == EndMode(m, rest)
    ensures var m := if c == q && !escaped then Normal else Quoted(q, c == '\\' && !escaped);
            PairingEvents(Quoted(q, escaped), [c] + rest) == [Emit(c)] + PairingEvents(m, rest)
    ensures Emits([c] + rest) == [Emit(c)] + Emits(rest)
  {
    assert ([c] + rest)[0] == c && ([c] + rest)[1..] == rest;
  }

  lemma OpeningStep(q: char, rest: string)
    requires IsQuote(q)
    ensures Events(Normal, [q] + rest) == [Emit(q)] + Events(Quoted(q, false), rest)
    ensures EndMode(Normal, [q] + rest) == EndMode(Quoted(q, false), rest)
    ensures PairingEvents(Normal, [q] + rest) == [Emit(q)] + PairingEvents(Quoted(q, false), rest)
    ensures Emits([q] + rest) == [Emit(q)] + Emits(rest)
  {
    var s := [q] + rest;
    assert s[0] == q && s[1..] == rest;
    assert NextToken(Normal, s) == Token(Quoted(q, false), 1, [Emit(q)]) == PairingToken(Normal, s);
    hide NextToken, PairingToken, IsQuote;
    Unfold(Normal, s);
  }

  lemma CutStep(rest: string)
    ensures PairingEvents(Normal, [';'] + rest) == [Cut] + PairingEvents(Normal, rest)
  {
    assert ([';'] + rest)[0] == ';' && ([';'] + rest)[1..] == rest;
  }

  /** A quoted backslash, escaped as a pairing reader expects, and a second statement. */
  const ESCAPED_BACKSLASH: string := ['\''] + (['\\'] + (['\\'] + (['\''] + ([';'] + "b"))))

  lemma EscapedBackslashRead()
    ensures Events(Normal, ESCAPED_BACKSLASH) == Emits(ESCAPED_BACKSLASH)
    ensures EndMode(Normal, ESCAPED_BACKSLASH).Quoted?
  {
    hide Events, EndMode, Emits, PairingEvents;
    var q := '\'';
    OpeningStep(q, ['\\'] + (['\\'] + ([q] + ([';'] + "b"))));
    QuotedStep(q, false, '\\', ['\\'] + ([q] + ([';'] + "b")));
    QuotedStep(q, true, '\\', [q] + ([';'] + "b"));
    QuotedStep(q, true, q, [';'] + "b");
    QuotedStep(q, false, ';', "b");
    QuotedStep(q, false, 'b', "");
    NothingLeft(Quoted(q, false));
    assert ['b'] + "" == "b";
  }

  lemma NothingLeft(m: Mode)
    ensures Events(m, "") == [] == PairingEvents(m, "") && EndMode(m, "") == m && Emits("") == []
    ensures PairingEvents(Normal, "b") == [Emit('b')] == Emits("b")
  {
  }

  lemma EscapedBackslashPaired()
    ensures PairingEvents(Normal, ESCAPED_BACKSLASH) == Emits("'\\\\'") + [Cut] + Emits("b")
  {
    hide Events, EndMode, Emits, PairingEvents;
    var q := '\'';
    OpeningStep(q, ['\\'] + (['\\'] + ([q] + ([';'] + "b"))));
    QuotedStep(q, false, '\\', ['\\'] + ([q] + ([';'] + "b")));
    QuotedStep(q, true, '\\', [q] + ([';'] + "b"));
    QuotedStep(q, false, q, [';'] + "b");
    CutStep("b");
    NothingLeft(Normal);
    OpeningStep(q, ['\\'] + (['\\'] + ([q] + "")));
    QuotedStep(q, false, '\\', ['\\'] + ([q] + ""));
    QuotedStep(q, true, '\\', [q] + "");
    QuotedStep(q, false, q, "");
    assert "'\\\\'" == [q] + (['\\'] + (['\\'] + ([q] + "")));
  }

  lemma EscapedBackslashCloses()
    ensures ClosesAfterBackslash(Normal, ESCAPED_BACKSLASH, 3, false)
  {
    hide StandsIn;
    var q := '\'';
    var r := [q] + ([';'] + "b");
    StandsStep(Normal, q, ['\\'] + (['\\'] + r), 2);
    StandsStep(Quoted(q, false), '\\', ['\\'] + r, 1);
    StandsStep(Quoted(q, true), '\\', r, 0);
    StandsHere(Quoted(q, false), r);
  }

  lemma StandsStep(m: Mode, c: char, rest: string, i: nat)
    requires m.Quoted? || IsQuote(c)
    ensures StandsIn(true, m, [c] + rest, i + 1) == StandsIn(true, PairingToken(m, [c] + rest).mode, rest, i)
  {
    assert ([c] + rest)[0] == c && ([c] + rest)[1..] == rest;
    StandsNext(true, m, [c] + rest, i + 1);
  }

  lemma StandsHere(m: Mode, s: string)
    ensures StandsIn(true, m, s, 0) == Some(m)
  {
  }

  /** Trimmed texts that are emitted with a cut in between are two statements. */
  lemma TwoOfAll(a: string, b: string)
    requires a != "" && Trimmed(a) && b != "" && Trimmed(b)
    ensures Statements("", Emits(a) + [Cut] + Emits(b)) == [a, b]
    ensures Statements("", Emits(a)) == [a]
  {
    hide Strip, Trimmed, Emits;
    StatementsAppend("", Emits(a), Emits(b));
    EmittedIsPending("", a, []);
    EmittedIsPending("", b, []);
    assert Emits(a) + [] == Emits(a) && "" + a == a && Emits(b) + [] == Emits(b) && "" + b == b;
    StripTrims(a);
    StripTrims(b);
  }

  /** The program does not see the quote closed, and reads one statement for two. */
  lemma EscapedBackslashKeepsQuoteOpen()
    ensures EndMode(Normal, ESCAPED_BACKSLASH).Quoted?
    ensures Split(ESCAPED_BACKSLASH) == [ESCAPED_BACKSLASH]
    ensures Statements("", PairingEvents(Normal, ESCAPED_BACKSLASH)) == ["'\\\\'", "b"]
    ensures !NeverClosesAfterBackslash(Normal, ESCAPED_BACKSLASH, false)
  {
    hide Events, PairingEvents, Emits, Statements, Strip, EndMode, ClosesAfterBackslash;
    EscapedBackslashRead();
    EscapedBackslashPaired();
    EscapedBackslashCloses();
    assert Trimmed(ESCAPED_BACKSLASH) && Trimmed("'\\\\'") && Trimmed("b");
    TwoOfAll(ESCAPED_BACKSLASH, "b");
    TwoOfAll("'\\\\'", "b");
  }
}
