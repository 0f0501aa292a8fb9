/** The env-file reader of infra/config/loader.py.

    The reader finds the closing double quote by counting backslashes backwards,
    and decodes escapes forwards. The two agree, and an encoder for arbitrary
    strings is undone by the reader. */
module EnvFile {
  import opened Text

  datatype EnvError =
    | NotKeyValue
    | InvalidKey
    | Unterminated
    | UnexpectedSuffix

  datatype FileError = LineError(line: nat, error: EnvError)

  // ---------------------------------------------------- backslash parity

  /** The number of backslashes directly before `index`. */
  function SlashRun(value: string, index: nat): nat
    requires index <= |value|
  {
    if index > 0 && value[index - 1] == '\\' then SlashRun(value, index - 1) + 1 else 0
  }

  predicate Escaped(value: string, index: nat)
    requires index <= |value|
  {
    SlashRun(value, index) % 2 == 1
  }

  method EscapedByBackslash(value: string, index: nat) returns (escaped: bool)
    requires index < |value|
    ensures escaped == Escaped(value, index)
  {
    var slashCount := 0;
    var cursor := index - 1;
    while cursor >= 0 && value[cursor] == '\\'
      invariant -1 <= cursor < index
      invariant slashCount + SlashRun(value, cursor + 1) == SlashRun(value, index)
    {
      slashCount := slashCount + 1;
      cursor := cursor - 1;
    }
    escaped := slashCount % 2 == 1;
  }

  predicate Closes(value: string, quote: char, index: nat)
    requires index < |value|
  {
    value[index] == quote && (quote == '\'' || !Escaped(value, index))
  }

  /** The first index from `from` on that closes `quote`. */
  function ClosingFrom(value: string, quote: char, from: nat): Option<nat>
    decreases |value| - from
  {
    if from >= |value| then None
    else if Closes(value, quote, from) then Some(from)
    else ClosingFrom(value, quote, from + 1)
  }

  method ClosingQuoteIndex(value: string, quote: char) returns (r: Option<nat>)
    ensures r == ClosingFrom(value, quote, 1)
    ensures match r
            case Some(c) =>
              1 <= c < |value| && Closes(value, quote, c) && forall i: nat :: 1 <= i < c ==> !Closes(value, quote, i)
            case None => forall i: nat :: 1 <= i < |value| ==> !Closes(value, quote, i)
  {
    var index: nat := 1;
    while index < |value|
      invariant 1 <= index
      invariant ClosingFrom(value, quote, index) == ClosingFrom(value, quote, 1)
      invariant forall i: nat :: 1 <= i < index && i < |value| ==> !Closes(value, quote, i)
    {
      if value[index] == quote {
        if quote == '\'' {
          return Some(index);
        }
        var escaped := EscapedByBackslash(value, index);
        if !escaped {
          return Some(index);
        }
      }
      index := index + 1;
    }
    r := None;
  }

  // ------------------------------------------------------------- decoding

  function Unescape(c: char): string {
    match c
    case 'n' => "\n"
    case 'r' => "\r"
    case 't' => "\t"
    case _ => if c == '"' || c == '\\' || c == '$' then [c] else ['\\', c]
  }

  function Decode(value: string): string {
    if value == "" then ""
    else if value[0] != '\\' || |value| == 1 then [value[0]] + Decode(value[1..])
    else Unescape(value[1]) + Decode(value[2..])
  }

  lemma DecodeStep(value: string, index: nat)
    requires index < |value|
    ensures Decode(value[index..]) ==
            if value[index] != '\\' || index == |value| - 1
            then [value[index]] + Decode(value[index + 1..])
            else Unescape(value[index + 1]) + Decode(value[index + 2..])
  {
    var rest := value[index..];
    assert rest[1..] == value[index + 1..];
    if |rest| > 1 {
      assert rest[2..] == value[index + 2..];
    }
  }

  method DecodeDoubleQuotedEnvValue(value: string) returns (result: string)
    ensures result == Decode(value)
  {
    hide Decode, Unescape;
    result := "";
    var index: nat := 0;
    assert value[0..] == value && "" + Decode(value) == Decode(value);
    while index < |value|
      invariant index <= |value|
      invariant result + Decode(value[index..]) == Decode(value)
    {
      DecodeStep(value, index);
      var c := value[index];
      if c != '\\' || index == |value| - 1 {
        result := result + [c];
        index := index + 1;
        continue;
      }
      var escaped := value[index + 1];
      result := result + Unescape(escaped);
      index := index + 2;
    }
    DecodeNothing(value[index..]);
  }

  lemma DecodeNothing(value: string)
    requires value == ""
    ensures Decode(value) == ""
  {
  }

  // ---------------------------------------------------------- one KEY=VALUE

  function IndexOf(s: string, c: char): nat {
    if s == "" || s[0] == c then 0 else 1 + IndexOf(s[1..], c)
  }

  lemma {:induction false} IndexOfFirst(s: string, c: char)
    ensures IndexOf(s, c) <= |s|
    ensures forall i :: 0 <= i < IndexOf(s, c) ==> s[i] != c
    ensures IndexOf(s, c) < |s| ==> s[IndexOf(s, c)] == c
  {
    if s != "" && s[0] != c {
      IndexOfFirst(s[1..], c);
    }
  }

  predicate IsLetter(c: char) {
    'a' <= c <= 'z' || 'A' <= c <= 'Z'
  }

  predicate ValidEnvKey(key: string) {
    key != ""
    && (IsLetter(key[0]) || key[0] == '_')
    && forall i :: 0 <= i < |key| ==> IsLetter(key[i]) || '0' <= key[i] <= '9' || key[i] == '_'
  }

  /** The text before an unquoted `#` that opens the value or follows white space. */
  function StripUnquotedComment(value: string, index: nat): string
    requires index <= |value|
    decreases |value| - index
  {
    if index == |value| then value
    else if value[index] == '#' && (index == 0 || IsSpace(value[index - 1])) then value[..index]
    else StripUnquotedComment(value, index + 1)
  }

  function ParseEnvValue(value: string): Result<string, EnvError> {
    if value == "" then Success("")
    else if value[0] == '\'' || value[0] == '"' then
      match ClosingFrom(value, value[0], 1)
      case None => Failure(Unterminated)
      case Some(closing) =>
        ClosingInRange(value, value[0], 1);
        var suffix := Strip(value[closing + 1..]);
        if suffix != "" && suffix[0] != '#' then Failure(UnexpectedSuffix)
        else
          var inner := value[1..closing];
          Success(if value[0] == '"' then Decode(inner) else inner)
    else Success(Strip(StripUnquotedComment(value, 0)))
  }

  lemma {:induction false} ClosingInRange(value: string, quote: char, from: nat)
    ensures var r := ClosingFrom(value, quote, from); r.Some? ==> from <= r.value < |value|
    decreases |value| - from
  {
    if from < |value| {
      ClosingInRange(value, quote, from + 1);
    }
  }

  const EXPORT := "export "

  function ParseEnvLine(raw: string): Result<Option<(string, string)>, EnvError> {
    var stripped := Strip(raw);
    if stripped == "" || stripped[0] == '#' then Success(None)
    else
      var line := if EXPORT <= stripped then Strip(stripped[|EXPORT|..]) else stripped;
      IndexOfFirst(line, '=');
      var eq := IndexOf(line, '=');
      if eq == |line| then Failure(NotKeyValue)
      else
        var key, value := Strip(line[..eq]), Strip(line[eq + 1..]);
        if !ValidEnvKey(key) then Failure(InvalidKey)
        else match ParseEnvValue(value)
          case Failure(e) => Failure(e)
          case Success(v) => Success(Some((key, v)))
  }

  // ------------------------------------- the backward test reads forwards

  /** The first quote a left-to-right reader that skips escaped characters meets. */
  function ForwardClose(value: string, i: nat): Option<nat>
    decreases |value| - i
  {
    if i >= |value| then None
    else if value[i] == '"' then Some(i)
    else if value[i] == '\\' then ForwardClose(value, i + 2)
    else ForwardClose(value, i + 1)
  }

  /** Counting backslashes backwards finds exactly the quote that the forward
      decoder would not consume as an escape. */
  lemma {:induction false} BackwardIsForward(value: string, i: nat)
    requires i <= |value| && !Escaped(value, i)
    ensures ClosingFrom(value, '"', i) == ForwardClose(value, i)
    decreases |value| - i
  {
    if i < |value| && value[i] != '"' {
      if value[i] == '\\' {
        if i + 1 < |value| {
          assert Escaped(value, i + 1);
          assert !Escaped(value, i + 2);
          BackwardIsForward(value, i + 2);
        }
      } else {
        BackwardIsForward(value, i + 1);
      }
    }
  }

  /** Every backslash of `s`, read from the left, has a character to escape. */
  predicate Paired(s: string) {
    if s == "" then true
    else if s[0] == '\\' then |s| >= 2 && Paired(s[2..])
    else Paired(s[1..])
  }

  lemma {:induction false} ForwardIsPaired(value: string, i: nat)
    requires i <= |value|
    ensures var r := ForwardClose(value, i);
            r.Some? ==> i <= r.value < |value| && Paired(value[i..r.value])
    decreases |value| - i
  {
    var r := ForwardClose(value, i);
    if r.Some? && value[i] != '"' {
      var w := if value[i] == '\\' then 2 else 1;
      if i + w <= |value| {
        ForwardIsPaired(value, i + w);
        assert value[i..r.value][w..] == value[i + w..r.value];
      }
    }
  }

  /** The inner text of a double-quoted value never ends in an unpaired backslash,
      so the decoder's end-of-text branch is never taken on it. */
  lemma InnerTextIsPaired(value: string)
    requires value != "" && value[0] == '"'
    ensures var r := ClosingFrom(value, '"', 1);
            r.Some? ==> 1 <= r.value < |value| && Paired(value[1..r.value])
  {
    assert SlashRun(value, 1) == 0;
    BackwardIsForward(value, 1);
    ForwardIsPaired(value, 1);
  }

  // ------------------------------------------------------------ round trip

  function Escape(c: char): string {
    match c
    case '\n' => "\\n"
    case '\r' => "\\r"
    case '\t' => "\\t"
    case _ => if c == '"' || c == '\\' then ['\\', c] else [c]
  }

  function Encode(v: string): string {
    if v == "" then "" else Escape(v[0]) + Encode(v[1..])
  }

  function Assignment(key: string, v: string): string {
    key + ("=" + ("\"" + (Encode(v) + "\"")))
  }

  lemma DecodeEscaped(c: char, rest: string)
    ensures Decode(Escape(c) + rest) == [c] + Decode(rest)
  {
    var e := Escape(c);
    if |e| == 1 {
      assert (e + rest)[1..] == rest;
    } else {
      assert (e + rest)[2..] == rest;
    }
  }

  lemma {:induction false} DecodeEncode(v: string)
    ensures Decode(Encode(v)) == v
  {
    hide Decode, Escape;
    if v == "" {
      DecodeNothing("");
    } else {
      DecodeEncode(v[1..]);
      DecodeEscaped(v[0], Encode(v[1..]));
    }
  }

  /** `value` holds `piece` at index `i`. */
  predicate Holds(value: string, i: nat, piece: string) {
    i + |piece| <= |value| && forall k :: 0 <= k < |piece| ==> value[i + k] == piece[k]
  }

  /** Reading `Encode(v)` from index `i`, the forward reader goes on to its end. */
  lemma {:induction false} EncodedHasNoQuote(value: string, i: nat, v: string)
    requires Holds(value, i, Encode(v))
    ensures ForwardClose(value, i) == ForwardClose(value, i + |Encode(v)|)
    decreases |v|
  {
    if v != "" {
      var e, rest := Escape(v[0]), Encode(v[1..]);
      assert value[i] == (e + rest)[0] && (|e| == 2 ==> value[i + 1] == (e + rest)[1]);
      forall k | 0 <= k < |rest| ensures value[i + |e| + k] == rest[k] {
        assert value[i + (|e| + k)] == (e + rest)[|e| + k];
      }
      EncodedHasNoQuote(value, i + |e|, v[1..]);
    }
  }

  lemma EncodedValueCloses(v: string)
    ensures var value := "\"" + (Encode(v) + "\""); ClosingFrom(value, '"', 1) == Some(|Encode(v)| + 1)
  {
    var value := "\"" + (Encode(v) + "\"");
    assert SlashRun(value, 1) == 0;
    BackwardIsForward(value, 1);
    EncodedHasNoQuote(value, 1, v);
  }

  lemma EncodedValueParses(v: string)
    ensures ParseEnvValue("\"" + (Encode(v) + "\"")) == Success(v)
  {
    hide ClosingFrom, Encode, Decode;
    var value := "\"" + (Encode(v) + "\"");
    var n := |Encode(v)|;
    EncodedValueCloses(v);
    assert value[1..n + 1] == Encode(v);
    assert value[n + 2..] == "";
    DecodeEncode(v);
  }

  lemma KeyHasNoPrefix(key: string, rest: string)
    requires ValidEnvKey(key)
    ensures !(EXPORT <= key + ("=" + rest))
    ensures Trimmed(key)
  {
    var line := key + ("=" + rest);
    assert line[|key|] == '=';
    if |key| < 7 {
      assert EXPORT[|key|] != '=';
    } else {
      assert line[6] == key[6] && EXPORT[6] == ' ';
    }
  }

  lemma {:induction false} IndexAfter(a: string, c: char, b: string)
    requires c !in a
    ensures IndexOf(a + ([c] + b), c) == |a|
  {
    if a == "" {
      assert a + ([c] + b) == [c] + b;
    } else {
      assert (a + ([c] + b))[1..] == a[1..] + ([c] + b);
      IndexAfter(a[1..], c, b);
    }
  }

  /** A line `KEY=rest` whose value is `value` after trimming parses to the key and
      whatever the value parses to. */
  lemma KeyedLine(key: string, rest: string)
    requires ValidEnvKey(key) && rest != "" && !IsSpace(rest[|rest| - 1]) && !IsSpace(rest[0])
    ensures ParseEnvLine(key + ("=" + rest)) ==
            match ParseEnvValue(rest) {
              case Failure(e) => Failure(e)
              case Success(v) => Success(Some((key, v)))
            }
  {
    hide ParseEnvValue, IsSpace;
    var line := key + ("=" + rest);
    KeyHasNoPrefix(key, rest);
    StripTrims(line);
    assert line[0] == key[0] && line[|line| - 1] == rest[|rest| - 1];
    assert Strip(line) == line;
    IndexAfter(key, '=', rest);
    assert line[..|key|] == key && line[|key| + 1..] == rest;
    StripTrims(key);
    StripTrims(rest);
  }

  /** Every string survives being written as `KEY="..."` and read back. */
  lemma LineRoundTrip(key: string, v: string)
    requires ValidEnvKey(key)
    ensures ParseEnvLine(Assignment(key, v)) == Success(Some((key, v)))
  {
    hide ParseEnvLine, ParseEnvValue;
    EncodedValueParses(v);
    KeyedLine(key, "\"" + (Encode(v) + "\""));
  }

  // ------------------------------------------------- values without escapes

  predicate HasComment(v: string) {
    exists i :: 0 <= i < |v| && OpensComment(v, i)
  }

  predicate OpensComment(v: string, i: nat)
    requires i < |v|
  {
    v[i] == '#' && (i == 0 || IsSpace(v[i - 1]))
  }

  lemma {:induction false} CommentCuts(v: string, i: nat)
    requires i <= |v| && forall k :: 0 <= k < i ==> !OpensComment(v, k)
    ensures StripUnquotedComment(v, i) <= v
    ensures StripUnquotedComment(v, i) == v <==> !HasComment(v)
    decreases |v| - i
  {
    if i < |v| && !OpensComment(v, i) {
      CommentCuts(v, i + 1);
    }
  }

  lemma StripShortens(s: string)
    ensures |Strip(s)| <= |s|
  {
    RStripEnds(LStrip(s));
    LStripShortens(s);
  }

  lemma {:induction false} LStripShortens(s: string)
    ensures |LStrip(s)| <= |s|
  {
    if s != "" && IsSpace(s[0]) {
      LStripShortens(s[1..]);
    }
  }

  lemma {:induction false} DecodeShortens(s: string)
    ensures |Decode(s)| <= |s|
    decreases |s|
  {
    if s != "" {
      DecodeShortens(if s[0] != '\\' || |s| == 1 then s[1..] else s[2..]);
    }
  }

  lemma PlainValue(v: string)
    requires v != "" && Trimmed(v)
    ensures ParseEnvValue(v) == Success(v) <==> v[0] != '\'' && v[0] != '"' && !HasComment(v)
  {
    hide IsSpace, Trimmed, HasComment, Decode, Strip, StripUnquotedComment, ClosingFrom;
    if v[0] == '\'' || v[0] == '"' {
      ClosingInRange(v, v[0], 1);
      var closing := ClosingFrom(v, v[0], 1);
      if closing.Some? {
        DecodeShortens(v[1..closing.value]);
      }
    } else {
      CommentCuts(v, 0);
      StripTrims(v);
      StripShortens(StripUnquotedComment(v, 0));
    }
  }

  /** A trimmed value may be written without quotes if and only if it does not start
      with a quote and no `#` opens a comment in it. */
  lemma PlainRoundTrip(key: string, v: string)
    requires ValidEnvKey(key) && v != "" && Trimmed(v)
    ensures ParseEnvLine(key + ("=" + v)) == Success(Some((key, v)))
      <==> v[0] != '\'' && v[0] != '"' && !HasComment(v)
  {
    hide ParseEnvLine, ParseEnvValue, HasComment;
    PlainValue(v);
    KeyedLine(key, v);
  }

  lemma {:induction false} ClosingAt(value: string, from: nat, i: nat)
    requires from <= i < |value| && value[i] == '\'' && forall k :: from <= k < i ==> value[k] != '\''
    ensures ClosingFrom(value, '\'', from) == Some(i)
    decreases i - from
  {
    if from < i {
      ClosingAt(value, from + 1, i);
    }
  }

  /** Single quotes take a value as it stands: it is read back if and only if it holds
      no single quote, whatever backslashes it holds. */
  lemma SingleQuotedRoundTrip(key: string, v: string)
    requires ValidEnvKey(key)
    ensures ParseEnvLine(key + ("=" + ("'" + v + "'"))) == Success(Some((key, v))) <==> '\'' !in v
  {
    hide ParseEnvLine, ClosingFrom, Strip, Decode, IndexOf;
    var value := "'" + v + "'";
    IndexOfFirst(v, '\'');
    var n := IndexOf(v, '\'');
    assert n < |v| ==> v[n] in v;
    assert value[n + 1] == '\'';
    ClosingAt(value, 1, n + 1);
    if '\'' !in v {
      assert n == |v|;
      assert value[n + 2..] == "" && value[1..n + 1] == v;
      StripTrims("");
    } else {
      assert n < |v|;
      assert |value[1..n + 1]| < |v|;
    }
    KeyedLine(key, value);
  }

  lemma LettersAreVisible()
    ensures !IsSpace('e') && !IsSpace('t') && IsSpace(' ')
  {
  }

  lemma {:induction false} RStripSuffix(a: string, s: string)
    requires RStrip(s) != ""
    ensures RStrip(a + s) == a + RStrip(s)
  {
    assert (a + s)[|a + s| - 1] == s[|s| - 1];
    if IsSpace(s[|s| - 1]) {
      assert (a + s)[..|a + s| - 1] == a + s[..|s| - 1];
      RStripSuffix(a, s[..|s| - 1]);
    }
  }

  lemma {:induction false} RStripAllSpace(a: string, s: string)
    requires RStrip(s) == ""
    ensures RStrip(a + s) == RStrip(a)
  {
    if s == "" {
      assert a + s == a;
    } else {
      assert (a + s)[|a + s| - 1] == s[|s| - 1] && (a + s)[..|a + s| - 1] == a + s[..|s| - 1];
      RStripAllSpace(a, s[..|s| - 1]);
    }
  }

  /** Stripping the right end first makes no difference. */
  lemma {:induction false} StripRightFirst(s: string)
    ensures Strip(RStrip(s)) == Strip(s)
    ensures RStrip(s) == "" <==> Strip(s) == ""
  {
    if s != "" && IsSpace(s[|s| - 1]) {
      var front := s[..|s| - 1];
      StripRightFirst(front);
      StripDropsLast(front, s[|s| - 1]);
      assert s == front + [s[|s| - 1]];
    } else if s != "" {
      RStripKeeps(s, |s| - 1);
      LStripKeepsLast(s);
    }
  }

  lemma {:induction false} LStripKeepsLast(s: string)
    requires s != "" && !IsSpace(s[|s| - 1])
    ensures LStrip(s) != "" && !IsSpace(LStrip(s)[|LStrip(s)| - 1])
  {
    if IsSpace(s[0]) {
      LStripKeepsLast(s[1..]);
    }
  }

  lemma {:induction false} StripDropsLast(s: string, c: char)
    requires IsSpace(c)
    ensures Strip(s + [c]) == Strip(s)
  {
    if s == "" {
      assert s + [c] == [c] && [c][1..] == "";
    } else if IsSpace(s[0]) {
      assert (s + [c])[1..] == s[1..] + [c];
      StripDropsLast(s[1..], c);
    } else {
      assert (s + [c])[..|s|] == s;
    }
  }

  /** What `export` and any line after it come to once stripped. */
  lemma StripExported(line: string)
    ensures Strip(line) != "" ==> EXPORT <= Strip(EXPORT + line)
    ensures Strip(line) != "" ==> Strip(Strip(EXPORT + line)[|EXPORT|..]) == Strip(line)
    ensures Strip(line) == "" ==> Strip(EXPORT + line) == "export"
  {
    hide IsSpace;
    var raw := EXPORT + line;
    LettersAreVisible();
    assert raw[0] == 'e';
    assert Strip(raw) == RStrip(raw);
    StripRightFirst(line);
    if Strip(line) != "" {
      RStripSuffix(EXPORT, line);
      assert Strip(raw)[|EXPORT|..] == RStrip(line);
    } else {
      RStripAllSpace(EXPORT, line);
      assert EXPORT[..6] == "export" && "export"[5] == 't';
      assert RStrip(EXPORT) == "export";
    }
  }

  /** `export` before a line, padded or not, changes nothing unless the line is blank or
      a comment. (A line that itself starts with `export` is not an assignment twice
      exported.) */
  lemma ExportIsOptional(line: string)
    requires !(EXPORT <= Strip(line))
    ensures ParseEnvLine(EXPORT + line) == ParseEnvLine(line) <==> Strip(line) != "" && Strip(line)[0] != '#'
  {
    hide IsSpace, ParseEnvValue, Strip;
    StripExported(line);
    var stripped := Strip(line);
    if stripped == "" {
      IndexOfFirst("export", '=');
    } else {
      assert Strip(EXPORT + line)[0] == 'e';
    }
  }

  // ------------------------------------------------ what else a line may hold

  lemma {:induction false} DecodeEncodedFront(a: string, rest: string)
    ensures Decode(Encode(a) + rest) == a + Decode(rest)
    decreases |a|
  {
    hide Decode, Escape;
    if a == "" {
      assert "" + rest == rest;
    } else {
      assert Encode(a) + rest == Escape(a[0]) + (Encode(a[1..]) + rest);
      DecodeEscaped(a[0], Encode(a[1..]) + rest);
      DecodeEncodedFront(a[1..], rest);
    }
  }

  /** A line feed, a carriage return, a tab, the character itself where it is one of three,
      and else nothing, so that both stay. */
  function Meaning(c: char): string {
    if c == 'n' then [10 as char] else if c == 'r' then [13 as char] else if c == 't' then [9 as char]
    else if c in "\"\\$" then [c] else ['\\', c]
  }

  lemma UnescapeIs(c: char)
    ensures Unescape(c) == Meaning(c)
  {
  }

  /** What a backslash makes of the character after it, wherever it stands. */
  lemma EscapeMeans(a: string, c: char, b: string)
    ensures Decode(Encode(a) + (['\\', c] + Encode(b))) == a + (Meaning(c) + b)
  {
    hide Decode, Encode, Unescape, Meaning;
    var rest := ['\\', c] + Encode(b);
    DecodeEncodedFront(a, rest);
    DecodeStep(rest, 0);
    assert rest[0..] == rest && rest[2..] == Encode(b);
    DecodeEncode(b);
    UnescapeIs(c);
  }

  /** Such a value ends at the first quote after it, whichever character is escaped. */
  lemma EscapedCloses(a: string, c: char, b: string)
    ensures var inner := Encode(a) + (['\\', c] + Encode(b));
            ClosingFrom("\"" + inner + "\"", '"', 1) == Some(|inner| + 1)
  {
    hide Encode, ClosingFrom;
    var inner := Encode(a) + (['\\', c] + Encode(b));
    var value, n := "\"" + inner + "\"", |Encode(a)|;
    assert SlashRun(value, 1) == 0;
    BackwardIsForward(value, 1);
    EncodedHasNoQuote(value, 1, a);
    assert value[n + 1] == '\\';
    EncodedHasNoQuote(value, n + 3, b);
    assert value[|inner| + 1] == '"';
  }

  lemma EscapedCharacter(a: string, c: char, b: string)
    ensures ParseEnvValue("\"" + (Encode(a) + (['\\', c] + Encode(b))) + "\"") == Success(a + (Meaning(c) + b))
  {
    hide Encode, Decode, ClosingFrom, Strip, Meaning;
    var inner := Encode(a) + (['\\', c] + Encode(b));
    var value := "\"" + inner + "\"";
    EscapedCloses(a, c, b);
    EscapeMeans(a, c, b);
    assert value[1..|inner| + 1] == inner && value[|inner| + 2..] == "";
    StripTrims("");
  }

  /** After a quoted value there may be blanks and a comment, and nothing else. */
  lemma AfterTheValue(v: string, suffix: string)
    ensures ParseEnvValue("\"" + Encode(v) + "\"" + suffix) ==
            if Strip(suffix) == "" || Strip(suffix)[0] == '#' then Success(v) else Failure(UnexpectedSuffix)
    ensures '\'' !in v ==>
      ParseEnvValue("'" + v + "'" + suffix) ==
      if Strip(suffix) == "" || Strip(suffix)[0] == '#' then Success(v) else Failure(UnexpectedSuffix)
  {
    hide Encode, Decode, ClosingFrom, Strip;
    var value, n := "\"" + Encode(v) + "\"" + suffix, |Encode(v)|;
    assert SlashRun(value, 1) == 0;
    BackwardIsForward(value, 1);
    EncodedHasNoQuote(value, 1, v);
    assert value[n + 1] == '"';
    assert value[1..n + 1] == Encode(v) && value[n + 2..] == suffix;
    DecodeEncode(v);
    if '\'' !in v {
      SingleQuotedValue(v, suffix);
    }
  }

  lemma SingleQuotedValue(v: string, suffix: string)
    requires '\'' !in v
    ensures ParseEnvValue("'" + v + "'" + suffix) ==
            if Strip(suffix) == "" || Strip(suffix)[0] == '#' then Success(v) else Failure(UnexpectedSuffix)
  {
    hide Decode, ClosingFrom, Strip;
    var value := "'" + v + "'" + suffix;
    assert value[|v| + 1] == '\'' && value[0] == '\'';
    assert forall k :: 1 <= k < |v| + 1 ==> value[k] == v[k - 1];
    ClosingAt(value, 1, |v| + 1);
    assert value[1..|v| + 1] == v && value[|v| + 2..] == suffix;
  }

  lemma {:induction false} CutsHere(v: string, from: nat, i: nat)
    requires from <= i < |v| && OpensComment(v, i) && forall k :: from <= k < i ==> !OpensComment(v, k)
    ensures StripUnquotedComment(v, from) == v[..i]
    decreases i - from
  {
    if from < i {
      assert !OpensComment(v, from);
      CutsHere(v, from + 1, i);
    }
  }

  /** A comment after an unquoted value is cut off, with the blanks before it. */
  lemma CommentIsCutOff(v: string, blank: char, comment: string)
    requires v == "" || (Trimmed(v) && v[0] != '\'' && v[0] != '"' && !HasComment(v) && IsSpace(blank))
    ensures v == "" ==> ParseEnvValue("#" + comment) == Success("")
    ensures v != "" ==> ParseEnvValue(v + [blank] + "#" + comment) == Success(v)
  {
    hide Strip, StripUnquotedComment, ClosingFrom, Decode, IsSpace;
    if v == "" {
      CutsHere("#" + comment, 0, 0);
      assert Trimmed("");
      StripTrims("");
    } else {
      var value := v + [blank] + "#" + comment;
      HashIsNoSpace(blank);
      assert value[|v| + 1] == '#' && value[|v|] == blank && value[0] == v[0];
      forall k | 0 <= k < |v| + 1 ensures !OpensComment(value, k) {
        assert k < |v| ==> !OpensComment(v, k) && value[k] == v[k] && (k > 0 ==> value[k - 1] == v[k - 1]);
      }
      CutsHere(value, 0, |v| + 1);
      assert value[..|v| + 1] == "" + v + [blank];
      assert Blank("") && Blank([blank]);
      StripDrops("", v, [blank]);
    }
  }

  lemma HashIsNoSpace(c: char)
    requires IsSpace(c)
    ensures c != '#'
  {
  }

  /** A letter or an underscore, and then letters, figures and underscores, all ASCII. */
  predicate IsWord(key: string) {
    && key != "" && !(48 <= key[0] as int <= 57)
    && forall i :: 0 <= i < |key| ==>
       var n := key[i] as int; 48 <= n <= 57 || 65 <= n <= 90 || n == 95 || 97 <= n <= 122
  }

  lemma KeysAreWords(key: string)
    ensures ValidEnvKey(key) <==> IsWord(key)
  {
  }

  /** What is wrong with a line: it has no '=', or what comes before the first one is not
      a key, or else what the value raises. */
  lemma LineErrors(raw: string, a: string, b: string)
    requires Strip(raw) != "" && Strip(raw)[0] != '#' && !(EXPORT <= Strip(raw))
    ensures '=' !in Strip(raw) ==> ParseEnvLine(raw) == Failure(NotKeyValue)
    ensures Strip(raw) == a + ("=" + b) && '=' !in a && !IsWord(Strip(a)) ==> ParseEnvLine(raw) == Failure(InvalidKey)
    ensures Strip(raw) == a + ("=" + b) && '=' !in a && IsWord(Strip(a)) ==>
      ParseEnvLine(raw) == match ParseEnvValue(Strip(b))
        case Failure(e) => Failure(e)
        case Success(v) => Success(Some((Strip(a), v)))
  {
    hide Strip, ParseEnvValue, ValidEnvKey, IsWord, IndexOf;
    var line := Strip(raw);
    IndexOfFirst(line, '=');
    if '=' in line && line == a + ("=" + b) && '=' !in a {
      IndexAfter(a, '=', b);
      assert line[..|a|] == a && line[|a| + 1..] == b;
      KeysAreWords(Strip(a));
    }
  }

  /** Blank lines and comments assign nothing. */
  lemma NothingAssigned(raw: string)
    ensures ParseEnvLine(raw) == Success(None) <==> Strip(raw) == "" || Strip(raw)[0] == '#'
  {
    hide Strip, ParseEnvValue;
  }

  // ------------------------------------------------------------ whole files

  /** The characters `str.splitlines` breaks at. */
  predicate IsLineBreak(c: char) {
    || '\n' <= c <= '\r'
    || '\U{1c}' <= c <= '\U{1e}'
    || c == '\U{85}' || c == '\U{2028}' || c == '\U{2029}'
  }

  function LineLength(s: string): nat {
    if s == "" || IsLineBreak(s[0]) then 0 else 1 + LineLength(s[1..])
  }

  lemma {:induction false} LineLengthFirst(s: string)
    ensures LineLength(s) <= |s|
    ensures forall i :: 0 <= i < LineLength(s) ==> !IsLineBreak(s[i])
    ensures LineLength(s) < |s| ==> IsLineBreak(s[LineLength(s)])
  {
    if s != "" && !IsLineBreak(s[0]) {
      LineLengthFirst(s[1..]);
    }
  }

  function SplitLines(s: string): seq<string>
    decreases |s|
  {
    if s == "" then []
    else
      LineLengthFirst(s);
      var n := LineLength(s);
      if n == |s| then [s]
      else
        var w := if s[n] == '\r' && n + 1 < |s| && s[n + 1] == '\n' then 2 else 1;
        [s[..n]] + SplitLines(s[n + w..])
  }

  type Environment = map<string, string>

  function Assigned(env: Environment, parsed: Option<(string, string)>): Environment {
    if parsed.Some? then env[parsed.value.0 := parsed.value.1] else env
  }

  /** Lines `number`, `number + 1`, ... applied to `env` in order. */
  function LoadLines(lines: seq<string>, number: nat, env: Environment): Result<Environment, FileError> {
    if lines == [] then Success(env)
    else match ParseEnvLine(lines[0])
      case Failure(e) => Failure(LineError(number, e))
      case Success(parsed) => LoadLines(lines[1..], number + 1, Assigned(env, parsed))
  }

  method LoadEnvFile(text: string, base: Environment) returns (r: Result<Environment, FileError>)
    ensures r == LoadLines(SplitLines(text), 1, base)
  {
    var lines := SplitLines(text);
    var env := base;
    var i: nat := 0;
    while i < |lines|
      invariant i <= |lines|
      invariant LoadLines(lines[i..], i + 1, env) == LoadLines(lines, 1, base)
    {
      assert lines[i..][0] == lines[i] && lines[i..][1..] == lines[i + 1..];
      var parsed := ParseEnvLine(lines[i]);
      if parsed.Failure? {
        return Failure(LineError(i + 1, parsed.error));
      }
      env := Assigned(env, parsed.value);
      i := i + 1;
    }
    r := Success(env);
  }

  /** `v` holds no character, other than those the encoder escapes, that would
      break the line it is written on. */
  predicate OneLine(v: string) {
    forall i :: 0 <= i < |v| ==> IsLineBreak(v[i]) ==> v[i] == '\n' || v[i] == '\r'
  }

  function Render(pairs: seq<(string, string)>): string {
    if pairs == [] then "" else Assignment(pairs[0].0, pairs[0].1) + ("\n" + Render(pairs[1..]))
  }

  function Apply(env: Environment, pairs: seq<(string, string)>): Environment
    decreases |pairs|
  {
    if pairs == [] then env else Apply(env[pairs[0].0 := pairs[0].1], pairs[1..])
  }

  /** The encoding breaks lines exactly where the value holds an unescaped break. */
  lemma {:induction false} EncodedBreaks(v: string)
    ensures LineLength(Encode(v)) == |Encode(v)| <==> OneLine(v)
  {
    if v != "" {
      var e, rest := Escape(v[0]), Encode(v[1..]);
      EncodedBreaks(v[1..]);
      LineLengthGlue(e, rest);
      assert OneLine(v) <==> (IsLineBreak(v[0]) ==> v[0] == '\n' || v[0] == '\r') && OneLine(v[1..]);
      LineLengthFirst(e);
      assert LineLength(e) == |e| <==> (IsLineBreak(v[0]) ==> v[0] == '\n' || v[0] == '\r');
      LineLengthFirst(rest);
    }
  }

  lemma {:induction false} LineLengthGlue(a: string, b: string)
    ensures LineLength(a + b) == if LineLength(a) == |a| then |a| + LineLength(b) else LineLength(a)
    ensures LineLength(a) <= |a|
  {
    if a == "" {
      assert a + b == b;
    } else {
      assert (a + b)[1..] == a[1..] + b;
      LineLengthGlue(a[1..], b);
    }
  }

  /** The part of the assignment that stays on its first line. */
  lemma AssignmentLine(key: string, v: string, rest: string)
    requires ValidEnvKey(key)
    ensures LineLength(Assignment(key, v) + ("\n" + rest)) ==
            if OneLine(v) then |Assignment(key, v)| else |key| + 2 + LineLength(Encode(v))
    ensures LineLength(Encode(v)) <= |Encode(v)|
  {
    hide Encode, OneLine;
    EncodedBreaks(v);
    AllOnLine(key);
    LineLengthGlue(Assignment(key, v), "\n" + rest);
    LineLengthGlue(key, "=" + ("\"" + (Encode(v) + "\"")));
    LineLengthGlue("=", "\"" + (Encode(v) + "\""));
    LineLengthGlue("\"", Encode(v) + "\"");
    LineLengthGlue(Encode(v), "\"");
  }

  lemma {:induction false} AllOnLine(key: string)
    requires forall i :: 0 <= i < |key| ==> !IsLineBreak(key[i])
    ensures LineLength(key) == |key|
  {
    if key != "" {
      AllOnLine(key[1..]);
    }
  }

  /** A value cut short before its closing quote is unterminated. */
  lemma {:induction false} CutValueNeverCloses(value: string, i: nat, v: string)
    requires i <= |value| && |value| - i <= |Encode(v)|
    requires forall k :: 0 <= k < |value| - i ==> value[i + k] == Encode(v)[k]
    ensures ForwardClose(value, i) == None
    decreases |v|
  {
    if v != "" && i < |value| {
      var e, rest := Escape(v[0]), Encode(v[1..]);
      assert value[i] == (e + rest)[0];
      if i + |e| <= |value| {
        forall k | 0 <= k < |value| - (i + |e|) ensures value[i + |e| + k] == rest[k] {
          assert value[i + (|e| + k)] == (e + rest)[|e| + k];
        }
        CutValueNeverCloses(value, i + |e|, v[1..]);
      }
    }
  }

  lemma CutValueFails(p: string, v: string)
    requires p <= Encode(v)
    ensures ParseEnvValue("\"" + p) == Failure(Unterminated)
  {
    var value := "\"" + p;
    assert SlashRun(value, 1) == 0;
    BackwardIsForward(value, 1);
    CutValueNeverCloses(value, 1, v);
  }

  lemma StripTwice(raw: string)
    ensures ParseEnvLine(Strip(raw)) == ParseEnvLine(raw)
  {
    StripTrims(raw);
    StripTrims(Strip(raw));
  }

  /** Trimming a line that starts with a key keeps it up to its last visible character. */
  lemma StripKeyed(raw: string, k: nat) returns (n: nat)
    requires k < |raw| && !IsSpace(raw[0]) && !IsSpace(raw[k])
    ensures k < n <= |raw| && Strip(raw) == raw[..n] && !IsSpace(raw[n - 1])
  {
    RStripEnds(raw);
    RStripKeeps(raw, k);
    n := |Strip(raw)|;
  }

  lemma CutLineFails(key: string, p: string, v: string)
    requires ValidEnvKey(key) && p <= Encode(v)
    ensures ParseEnvLine(key + ("=" + ("\"" + p))) == Failure(Unterminated)
  {
    hide ParseEnvLine, ParseEnvValue, Encode, RStrip, LStrip;
    var raw := key + ("=" + ("\"" + p));
    assert raw[0] == key[0] && raw[|key| + 1] == '"';
    var n := StripKeyed(raw, |key| + 1);
    var m := n - |key| - 2;
    assert raw[..n] == key + ("=" + ("\"" + p[..m]));
    assert raw[n - 1] == ("\"" + p[..m])[m];
    StripTwice(raw);
    CutValueFails(p[..m], v);
    KeyedLine(key, "\"" + p[..m]);
  }

  predicate NoBreak(s: string) {
    forall i :: 0 <= i < |s| ==>
      s[i] as int !in {10, 11, 12, 13, 28, 29, 30, 133, 8232, 8233}
  }

  lemma BreaksAre(s: string)
    ensures NoBreak(s) <==> LineLength(s) == |s|
  {
    LineLengthFirst(s);
    hide LineLength;
    assert forall c :: IsLineBreak(c) <==> c as int in {10, 11, 12, 13, 28, 29, 30, 133, 8232, 8233};
    if LineLength(s) < |s| {
      assert IsLineBreak(s[LineLength(s)]);
    }
  }

  /** Lines are what stands between the breaks: a carriage return with a line feed is one
      break, and the end of the text after a break is no line. */
  lemma LinesAre(s: string, c: char, rest: string)
    requires NoBreak(s)
    ensures SplitLines(s) == if s == "" then [] else [s]
    ensures !NoBreak([c]) && !(c == '\r' && rest != "" && rest[0] == '\n') ==>
      SplitLines(s + ([c] + rest)) == [s] + SplitLines(rest)
    ensures SplitLines(s + ("\r\n" + rest)) == [s] + SplitLines(rest)
  {
    hide SplitLines, LineLength, NoBreak;
    LastLine(s);
    if !NoBreak([c]) && !(c == '\r' && rest != "" && rest[0] == '\n') {
      LineBefore(s, c, rest);
    }
    LineBeforeBoth(s, rest);
  }

  lemma LastLine(s: string)
    requires NoBreak(s)
    ensures SplitLines(s) == if s == "" then [] else [s]
  {
    hide LineLength, NoBreak;
    BreaksAre(s);
  }

  lemma LineBefore(s: string, c: char, rest: string)
    requires NoBreak(s) && !NoBreak([c]) && !(c == '\r' && rest != "" && rest[0] == '\n')
    ensures SplitLines(s + ([c] + rest)) == [s] + SplitLines(rest)
  {
    hide LineLength, NoBreak;
    BreaksAre(s);
    var t := s + ([c] + rest);
    LineLengthGlue(s, [c] + rest);
    BreakHere(c, rest);
    assert t[|s|] == c && t[..|s|] == s && t[|s| + 1..] == rest;
    assert rest != "" ==> t[|s| + 1] == rest[0];
  }

  lemma LineBeforeBoth(s: string, rest: string)
    requires NoBreak(s)
    ensures SplitLines(s + ("\r\n" + rest)) == [s] + SplitLines(rest)
  {
    hide LineLength, NoBreak;
    ReturnBreaks();
    BreakHere('\r', "\n" + rest);
    BreaksAre(s);
    var t := s + ("\r\n" + rest);
    LineLengthGlue(s, "\r\n" + rest);
    assert "\r\n" + rest == ['\r'] + ("\n" + rest);
    assert t[|s|] == '\r' && t[|s| + 1] == '\n' && t[..|s|] == s && t[|s| + 2..] == rest;
  }

  lemma ReturnBreaks()
    ensures !NoBreak(['\r'])
  {
    assert ['\r'][0] as int == 13;
  }

  lemma BreakHere(c: char, rest: string)
    ensures !NoBreak([c]) ==> LineLength([c] + rest) == 0
  {
    BreaksAre([c]);
    assert ([c] + rest)[0] == c;
  }

  predicate Sets(line: string, key: string) {
    ParseEnvLine(line).Success? && ParseEnvLine(line).value.Some? && ParseEnvLine(line).value.value.0 == key
  }

  /** `key` is to have the value `v`: the last line that assigns it says so, or no line
      does and it had that value before. */
  ghost predicate LastSays(lines: seq<string>, env: Environment, key: string, v: string) {
    || (exists i :: 0 <= i < |lines| && SaysAt(lines, i, key, v))
    || (key in env && env[key] == v && forall j :: 0 <= j < |lines| ==> !Sets(lines[j], key))
  }

  ghost predicate SaysAt(lines: seq<string>, i: nat, key: string, v: string)
    requires i < |lines|
  {
    ParseEnvLine(lines[i]) == Success(Some((key, v))) && forall j :: i < j < |lines| ==> !Sets(lines[j], key)
  }

  ghost predicate FailsFirst(lines: seq<string>, i: nat, e: EnvError)
    requires i < |lines|
  {
    ParseEnvLine(lines[i]) == Failure(e) && forall j :: 0 <= j < i ==> ParseEnvLine(lines[j]).Success?
  }

  /** The first line that cannot be read raises, with its number; otherwise the last
      assignment of every key wins over earlier ones and over what was there before. */
  lemma {:induction false} LoadedIs(lines: seq<string>, number: nat, env: Environment)
    ensures forall e :: LoadLines(lines, number, env) == Failure(e) <==>
      exists i :: 0 <= i < |lines| && FailsFirst(lines, i, e.error) && e.line == number + i
    ensures LoadLines(lines, number, env).Success? ==> forall key, v ::
      (key in LoadLines(lines, number, env).value && LoadLines(lines, number, env).value[key] == v)
      <==> LastSays(lines, env, key, v)
    decreases |lines|
  {
    hide ParseEnvLine;
    if lines != [] {
      var first, rest := ParseEnvLine(lines[0]), lines[1..];
      if first.Success? {
        var next := Assigned(env, first.value);
        LoadedIs(rest, number + 1, next);
        assert LoadLines(lines, number, env) == LoadLines(rest, number + 1, next);
        FailsLater(lines, number);
        forall key, v ensures LastSays(rest, next, key, v) <==> LastSays(lines, env, key, v) {
          SaysLater(lines, env, key, v);
        }
      } else {
        assert FailsFirst(lines, 0, first.error);
        FailsAtOnce(lines, first.error);
      }
    }
  }

  lemma FailsAtOnce(lines: seq<string>, e: EnvError)
    requires lines != [] && ParseEnvLine(lines[0]) == Failure(e)
    ensures forall i: nat, x :: i < |lines| && FailsFirst(lines, i, x) ==> i == 0 && x == e
  {
    hide ParseEnvLine;
  }

  lemma FailsLater(lines: seq<string>, number: nat)
    requires lines != [] && ParseEnvLine(lines[0]).Success?
    ensures forall e: FileError ::
      (exists i :: 0 <= i < |lines| && FailsFirst(lines, i, e.error) && e.line == number + i)
      <==> exists i :: 0 <= i < |lines[1..]| && FailsFirst(lines[1..], i, e.error) && e.line == number + 1 + i
  {
    hide ParseEnvLine;
    var rest := lines[1..];
    forall i: nat, x | i < |rest| ensures FailsFirst(rest, i, x) <==> FailsFirst(lines, i + 1, x) {
      assert forall j :: 0 <= j < i ==> rest[j] == lines[j + 1];
      if FailsFirst(rest, i, x) {
        assert forall j :: 0 <= j < i + 1 ==> j == 0 || lines[j] == rest[j - 1];
      }
    }
    forall e: FileError
      ensures (exists i :: 0 <= i < |lines| && FailsFirst(lines, i, e.error) && e.line == number + i)
        <==> exists i :: 0 <= i < |rest| && FailsFirst(rest, i, e.error) && e.line == number + 1 + i
    {
      if i :| 0 <= i < |lines| && FailsFirst(lines, i, e.error) && e.line == number + i {
        assert i > 0 && FailsFirst(rest, i - 1, e.error);
      }
      if i :| 0 <= i < |rest| && FailsFirst(rest, i, e.error) && e.line == number + 1 + i {
        assert FailsFirst(lines, i + 1, e.error);
      }
    }
  }

  lemma SaysLater(lines: seq<string>, env: Environment, key: string, v: string)
    requires lines != [] && ParseEnvLine(lines[0]).Success?
    ensures LastSays(lines[1..], Assigned(env, ParseEnvLine(lines[0]).value), key, v) <==> LastSays(lines, env, key, v)
  {
    hide ParseEnvLine;
    var rest, next := lines[1..], Assigned(env, ParseEnvLine(lines[0]).value);
    forall i: nat | i < |rest| ensures SaysAt(rest, i, key, v) <==> SaysAt(lines, i + 1, key, v) {
      assert rest[i] == lines[i + 1];
      assert forall j :: i < j < |rest| ==> rest[j] == lines[j + 1];
      assert forall j :: i + 1 < j < |lines| ==> lines[j] == rest[j - 1];
    }
    assert forall j :: 0 <= j < |rest| ==> rest[j] == lines[j + 1];
    assert forall j :: 1 <= j < |lines| ==> lines[j] == rest[j - 1];
    if LastSays(lines, env, key, v) {
      if i :| 0 <= i < |lines| && SaysAt(lines, i, key, v) {
        if i > 0 {
          assert SaysAt(rest, i - 1, key, v);
        }
      }
    }
    if LastSays(rest, next, key, v) {
      if i :| 0 <= i < |rest| && SaysAt(rest, i, key, v) {
        assert SaysAt(lines, i + 1, key, v);
      } else if Sets(lines[0], key) {
        assert SaysAt(lines, 0, key, v);
      }
    }
  }

  lemma FirstLine(s: string, rest: string)
    requires LineLength(s + ("\n" + rest)) == |s|
    ensures SplitLines(s + ("\n" + rest)) == [s] + SplitLines(rest)
  {
    var t := s + ("\n" + rest);
    assert t[|s|] == '\n' && t[..|s|] == s && t[|s| + 1..] == rest;
  }

  /** A rendered file loads to exactly the assignments it was made from if and only
      if no value holds a line break the encoder leaves alone; otherwise the load
      raises. (The encoder is the reader's inverse on lines, not on files.) */
  lemma {:induction false} FileRoundTrip(pairs: seq<(string, string)>, number: nat, env: Environment)
    requires forall i :: 0 <= i < |pairs| ==> ValidEnvKey(pairs[i].0)
    ensures (forall i :: 0 <= i < |pairs| ==> OneLine(pairs[i].1))
      ==> LoadLines(SplitLines(Render(pairs)), number, env) == Success(Apply(env, pairs))
    ensures LoadLines(SplitLines(Render(pairs)), number, env).Success?
      ==> forall i :: 0 <= i < |pairs| ==> OneLine(pairs[i].1)
    decreases |pairs|
  {
    hide ParseEnvLine, Assignment, OneLine;
    if pairs != [] {
      var (key, v) := pairs[0];
      var rest := pairs[1..];
      FirstAssignment(key, v, Render(rest), number, env);
      if OneLine(v) {
        FileRoundTrip(rest, number + 1, env[key := v]);
      }
    }
  }

  lemma FirstAssignment(key: string, v: string, rest: string, number: nat, env: Environment)
    requires ValidEnvKey(key)
    ensures var lines := SplitLines(Assignment(key, v) + ("\n" + rest));
            LoadLines(lines, number, env) ==
              if OneLine(v) then LoadLines(SplitLines(rest), number + 1, env[key := v])
              else Failure(LineError(number, Unterminated))
  {
    hide ParseEnvLine, OneLine, Encode;
    var text := Assignment(key, v) + ("\n" + rest);
    AssignmentLine(key, v, rest);
    if OneLine(v) {
      FirstLine(Assignment(key, v), rest);
      LineRoundTrip(key, v);
      assert ([Assignment(key, v)] + SplitLines(rest))[1..] == SplitLines(rest);
    } else {
      var n := LineLength(Encode(v));
      var p := Encode(v)[..n];
      assert text[..|key| + 2 + n] == key + ("=" + ("\"" + p));
      CutLineFails(key, p, v);
      assert SplitLines(text)[0] == key + ("=" + ("\"" + p));
    }
  }
}
