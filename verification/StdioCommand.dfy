/**
 * The shell-like command line of a stdio server: a scanner with five
 * variables, and a quoting printer. Printing then parsing is the identity on
 * exactly the pairs the editor can hold, and every accepted line reaches a
 * normal form after one round.
 */
module StdioCommand {
  import opened Basics

  datatype Command = Command(command: string, args: seq<string>)

  datatype ParseError = TrailingEscape | UnterminatedQuote | CommandRequired

  datatype ParseResult = Parsed(value: Command) | Rejected(error: ParseError)

  /** ECMAScript `\s`, which is also what `trim` removes. */
  predicate IsSpace(c: char) {
    var n := c as int;
    9 <= n <= 13 || n == 32 || n == 0xA0 || n == 0x1680 || 0x2000 <= n <= 0x200A
    || n == 0x2028 || n == 0x2029 || n == 0x202F || n == 0x205F || n == 0x3000 || n == 0xFEFF
  }

  function Trim(s: string): string {
    TrimEnd(IsSpace, TrimStart(IsSpace, s))
  }

  predicate NameStart(c: char) { 'A' <= c <= 'Z' || 'a' <= c <= 'z' || c == '_' }

  predicate NameChar(c: char) { NameStart(c) || '0' <= c <= '9' }

  /** `/^[A-Za-z_][A-Za-z0-9_]*=/` */
  predicate IsEnvAssignment(token: string) {
    token != "" && NameStart(token[0])
    && exists k :: 0 < k < |token| && token[k] == '=' && forall j :: 0 < j < k ==> NameChar(token[j])
  }

  // ---- The scanner ---------------------------------------------------------

  datatype Scan = Scan(tokens: seq<string>, token: string, quote: Option<char>, escaped: bool, started: bool)

  const START := Scan([], "", None, false, false)

  function Feed(s: Scan, c: char): Scan {
    if s.escaped then s.(token := s.token + [c], started := true, escaped := false)
    else if c == '\\' && s.quote != Some('\'') then s.(escaped := true, started := true)
    else if (c == '\'' || c == '"') && s.quote == None then s.(quote := Some(c), started := true)
    else if s.quote == Some(c) then s.(quote := None, started := true)
    else if IsSpace(c) && s.quote == None then
      if s.started then s.(tokens := s.tokens + [s.token], token := "", started := false) else s
    else s.(token := s.token + [c], started := true)
  }

  ghost predicate Between(s: Scan) {
    s.token == "" && s.quote == None && !s.escaped && !s.started
  }

  function FeedAll(s: Scan, text: string): Scan
    decreases |text|
  {
    if text == "" then s else FeedAll(Feed(s, text[0]), text[1..])
  }

  function Finish(s: Scan): ParseResult {
    if s.escaped then Rejected(TrailingEscape)
    else if s.quote.Some? then Rejected(UnterminatedQuote)
    else
      var tokens := if s.started then s.tokens + [s.token] else s.tokens;
      if tokens == [] || tokens[0] == "" then Rejected(CommandRequired)
      else if IsEnvAssignment(tokens[0]) && |tokens| > 1 then Parsed(Command("env", tokens))
      else Parsed(Command(tokens[0], tokens[1..]))
  }

  function Parse(input: string): ParseResult {
    Finish(FeedAll(START, Trim(input)))
  }

  lemma {:induction false} FeedAllConcat(s: Scan, a: string, b: string)
    ensures FeedAll(s, a + b) == FeedAll(FeedAll(s, a), b)
    decreases |a|
  {
    if a == "" {
      assert a + b == b;
    } else {
      assert (a + b)[1..] == a[1..] + b;
      FeedAllConcat(Feed(s, a[0]), a[1..], b);
    }
  }

  /** The character loop of the program. */
  method ParseStdioCommandLine(input: string) returns (result: ParseResult)
    ensures result == Parse(input)
  {
    var text := Trim(input);
    var tokens: seq<string> := [];
    var token := "";
    var quote: Option<char> := None;
    var escaped, tokenStarted := false, false;
    for i := 0 to |text|
      invariant Scan(tokens, token, quote, escaped, tokenStarted) == FeedAll(START, text[..i])
    {
      var c := text[i];
      FeedAllConcat(START, text[..i], [c]);
      assert text[..i + 1] == text[..i] + [c];
      if escaped {
        token, tokenStarted, escaped := token + [c], true, false;
        continue;
      }
      if c == '\\' && quote != Some('\'') {
        escaped, tokenStarted := true, true;
        continue;
      }
      if (c == '\'' || c == '"') && quote == None {
        quote, tokenStarted := Some(c), true;
        continue;
      }
      if Some(c) == quote {
        quote, tokenStarted := None, true;
        continue;
      }
      if IsSpace(c) && quote == None {
        if tokenStarted {
          tokens := tokens + [token];
          token, tokenStarted := "", false;
        }
        continue;
      }
      token, tokenStarted := token + [c], true;
    }
    assert text[..|text|] == text;
    if escaped { return Rejected(TrailingEscape); }
    if quote.Some? { return Rejected(UnterminatedQuote); }
    if tokenStarted { tokens := tokens + [token]; }
    if |tokens| == 0 || tokens[0] == "" { return Rejected(CommandRequired); }
    if IsEnvAssignment(tokens[0]) && |tokens| > 1 { return Parsed(Command("env", tokens)); }
    return Parsed(Command(tokens[0], tokens[1..]));
  }

  // ---- A reader by nested constructs, independent of the scanner ------------

  /** A value read off the front of the text, or the reason it cannot be. */
  datatype Lexed = Got(value: string, rest: string) | Failed(error: ParseError)

  function Prepend(prefix: string, l: Lexed): Lexed {
    if l.Got? then l.(value := prefix + l.value) else l
  }

  /** The rest of a single-quoted stretch: verbatim up to the next single quote. */
  function ReadSingle(text: string): (l: Lexed)
    ensures l.Got? ==> |l.rest| < |text|
  {
    if text == "" then Failed(UnterminatedQuote)
    else if text[0] == '\'' then Got("", text[1..])
    else Prepend([text[0]], ReadSingle(text[1..]))
  }

  /** The rest of a double-quoted stretch: a backslash protects any one character. */
  function ReadDouble(text: string): (l: Lexed)
    ensures l.Got? ==> |l.rest| < |text|
  {
    if text == "" then Failed(UnterminatedQuote)
    else if text[0] == '"' then Got("", text[1..])
    else if text[0] != '\\' then Prepend([text[0]], ReadDouble(text[1..]))
    else if |text| == 1 then Failed(TrailingEscape)
    else Prepend([text[1]], ReadDouble(text[2..]))
  }

  /** A word: stretches glued together up to unquoted white space or the end. */
  function ReadWord(text: string): (l: Lexed)
    ensures l.Got? ==> |l.rest| <= |text|
    ensures l.Got? && text != "" && !IsSpace(text[0]) ==> |l.rest| < |text|
    decreases |text|
  {
    if text == "" || IsSpace(text[0]) then Got("", text)
    else if text[0] == '\\' then
      if |text| == 1 then Failed(TrailingEscape) else Prepend([text[1]], ReadWord(text[2..]))
    else if text[0] == '\'' || text[0] == '"' then
      var stretch := if text[0] == '\'' then ReadSingle(text[1..]) else ReadDouble(text[1..]);
      if stretch.Failed? then stretch else Prepend(stretch.value, ReadWord(stretch.rest))
    else Prepend([text[0]], ReadWord(text[1..]))
  }

  datatype Words = Words(words: seq<string>) | NoWords(error: ParseError)

  function ReadWords(text: string): Words
    decreases |text|
  {
    if text == "" then Words([])
    else if IsSpace(text[0]) then ReadWords(text[1..])
    else
      match ReadWord(text)
      case Failed(e) => NoWords(e)
      case Got(word, rest) =>
        match ReadWords(rest)
        case NoWords(e) => NoWords(e)
        case Words(more) => Words([word] + more)
  }

  /** What the words of a line amount to. */
  function Outcome(words: Words): ParseResult {
    match words
    case NoWords(e) => Rejected(e)
    case Words(ws) =>
      if ws == [] || ws[0] == "" then Rejected(CommandRequired)
      else if IsEnvAssignment(ws[0]) && |ws| > 1 then Parsed(Command("env", ws))
      else Parsed(Command(ws[0], ws[1..]))
  }

  /** What the scanner has when the text runs out. */
  function Ending(s: Scan): Words {
    if s.escaped then NoWords(TrailingEscape)
    else if s.quote.Some? then NoWords(UnterminatedQuote)
    else Words(if s.started then s.tokens + [s.token] else s.tokens)
  }

  function Grown(s: Scan, text: string): Scan {
    s.(token := s.token + text, started := true)
  }

  lemma FeedTwo(s: Scan, text: string)
    requires |text| >= 2
    ensures FeedAll(s, text) == FeedAll(Feed(Feed(s, text[0]), text[1]), text[2..])
  {
    assert text[1..][1..] == text[2..];
  }

  lemma {:induction false} ScanSingle(s: Scan, text: string)
    requires s.quote == Some('\'') && !s.escaped && s.started
    ensures match ReadSingle(text)
            case Failed(e) => Ending(FeedAll(s, text)) == NoWords(e)
            case Got(v, rest) => FeedAll(s, text) == FeedAll(Grown(s, v).(quote := None), rest)
    decreases |text|
  {
    if text != "" && text[0] != '\'' {
      var next := Grown(s, [text[0]]);
      ScanSingle(next, text[1..]);
      var l := ReadSingle(text[1..]);
      assert l.Got? ==> next.token + l.value == s.token + ([text[0]] + l.value);
    } else {
      assert s.token + "" == s.token;
    }
  }

  lemma {:induction false} ScanDouble(s: Scan, text: string)
    requires s.quote == Some('"') && !s.escaped && s.started
    ensures match ReadDouble(text)
            case Failed(e) => Ending(FeedAll(s, text)) == NoWords(e)
            case Got(v, rest) => FeedAll(s, text) == FeedAll(Grown(s, v).(quote := None), rest)
    decreases |text|
  {
    assert s.token + "" == s.token;
    if text != "" && text[0] == '\\' {
      if |text| >= 2 {
        FeedTwo(s, text);
        var next := Grown(s, [text[1]]);
        ScanDouble(next, text[2..]);
        var l := ReadDouble(text[2..]);
        assert l.Got? ==> next.token + l.value == s.token + ([text[1]] + l.value);
      }
    } else if text != "" && text[0] != '"' {
      var next := Grown(s, [text[0]]);
      ScanDouble(next, text[1..]);
      var l := ReadDouble(text[1..]);
      assert l.Got? ==> next.token + l.value == s.token + ([text[0]] + l.value);
    }
  }

  lemma {:induction false} ScanWord(s: Scan, text: string)
    requires s.quote == None && !s.escaped
    ensures match ReadWord(text)
            case Failed(e) => Ending(FeedAll(s, text)) == NoWords(e)
            case Got(v, rest) =>
              && (rest == "" || IsSpace(rest[0]))
              && FeedAll(s, text) == FeedAll(if |rest| < |text| then Grown(s, v) else s, rest)
    decreases |text|, 0
  {
    if text == "" || IsSpace(text[0]) {
    } else if text[0] == '\\' {
      if |text| >= 2 {
        FeedTwo(s, text);
        WordGoesOn(s, [text[1]], text[2..]);
      }
    } else if text[0] == '\'' || text[0] == '"' {
      var started := Feed(s, text[0]);
      var stretch := if text[0] == '\'' then ReadSingle(text[1..]) else ReadDouble(text[1..]);
      if text[0] == '\'' { ScanSingle(started, text[1..]); } else { ScanDouble(started, text[1..]); }
      if stretch.Got? {
        WordGoesOn(s, stretch.value, stretch.rest);
      }
    } else {
      WordGoesOn(s, [text[0]], text[1..]);
    }
  }

  lemma {:induction false} WordGoesOn(s: Scan, v: string, text: string)
    requires s.quote == None && !s.escaped
    ensures match Prepend(v, ReadWord(text))
            case Failed(e) => Ending(FeedAll(Grown(s, v), text)) == NoWords(e)
            case Got(w, rest) =>
              (rest == "" || IsSpace(rest[0])) && FeedAll(Grown(s, v), text) == FeedAll(Grown(s, w), rest)
    decreases |text|, 1
  {
    ScanWord(Grown(s, v), text);
    match ReadWord(text)
    case Failed(_) =>
    case Got(u, rest) =>
      WordStays(text);
      assert s.token + v + u == s.token + (v + u);
      if |rest| == |text| {
        assert v + u == v;
      } else {
        assert Grown(Grown(s, v), u) == Grown(s, v + u);
      }
  }

  lemma WordStays(text: string)
    ensures ReadWord(text).Got? && |ReadWord(text).rest| == |text| ==> ReadWord(text) == Got("", text)
  {
  }

  lemma {:induction false} ScanWords(s: Scan, text: string)
    requires Between(s)
    ensures Ending(FeedAll(s, text)) ==
            match ReadWords(text)
            case NoWords(e) => NoWords(e)
            case Words(more) => Words(s.tokens + more)
    decreases |text|
  {
    if text == "" {
      assert s.tokens + [] == s.tokens;
    } else if IsSpace(text[0]) {
      ScanWords(s, text[1..]);
    } else {
      ScanWord(s, text);
      match ReadWord(text)
      case Failed(_) =>
      case Got(word, rest) =>
        var held, next := Grown(s, word), s.(tokens := s.tokens + [word]);
        assert s.token + word == word;
        if rest != "" {
          assert Feed(held, rest[0]) == next;
          ScanWords(next, rest[1..]);
          assert ReadWords(rest) == ReadWords(rest[1..]);
        }
        var after := ReadWords(rest);
        assert after.Words? ==> s.tokens + [word] + after.words == s.tokens + ([word] + after.words);
    }
  }

  /** The one-pass scanner reads every input exactly as the nested reader does, errors included. */
  lemma ScannerReads(line: string)
    ensures Finish(FeedAll(START, line)) == Outcome(ReadWords(line))
  {
    ScanWords(START, line);
    var after := ReadWords(line);
    assert after.Words? ==> [] + after.words == after.words;
  }

  lemma ParseOfPadded(lead: string, line: string, trail: string)
    requires AllBlank(IsSpace, lead) && Bare(IsSpace, line) && AllBlank(IsSpace, trail)
    ensures Parse(lead + line + trail) == Finish(FeedAll(START, line))
  {
    TrimExactly(IsSpace, lead, line, trail);
  }

  /** White space around a line is dropped, and the rest is read word by word; errors are the reader's. */
  lemma ParseReadsWords(lead: string, line: string, trail: string)
    requires AllBlank(IsSpace, lead) && Bare(IsSpace, line) && AllBlank(IsSpace, trail)
    ensures Parse(lead + line + trail) ==
            match ReadWords(line)
            case NoWords(e) => Rejected(e)
            case Words(words) =>
              if words == [] || words[0] == "" then Rejected(CommandRequired)
              else if IsEnvAssignment(words[0]) && |words| > 1 then Parsed(Command("env", words))
              else Parsed(Command(words[0], words[1..]))
  {
    ParseOfPadded(lead, line, trail);
    ScannerReads(line);
  }

  /** The white space there is. */
  lemma SpaceList(c: char)
    ensures IsSpace(c) <==> c as int in {
              0x9, 0xA, 0xB, 0xC, 0xD, 0x20, 0xA0, 0x1680, 0x2000, 0x2001, 0x2002, 0x2003, 0x2004, 0x2005, 0x2006,
              0x2007, 0x2008, 0x2009, 0x200A, 0x2028, 0x2029, 0x202F, 0x205F, 0x3000, 0xFEFF}
  {
  }

  predicate IsLetter(c: char) { var n := c as int; 65 <= n <= 90 || 97 <= n <= 122 }

  predicate IsDigit(c: char) { var n := c as int; 48 <= n <= 57 }

  /** The names a shell takes for variables. */
  predicate IsName(name: string) {
    && name != "" && !IsDigit(name[0])
    && forall i :: 0 <= i < |name| ==> IsLetter(name[i]) || IsDigit(name[i]) || name[i] == '_'
  }

  /** An assignment is a name, an equals sign and anything. */
  lemma EnvAssignmentExactly(token: string)
    ensures IsEnvAssignment(token) <==> exists name, value :: IsName(name) && token == name + "=" + value
  {
    if IsEnvAssignment(token) {
      var k :| 0 < k < |token| && token[k] == '=' && forall j :: 0 < j < k ==> NameChar(token[j]);
      assert token == token[..k] + "=" + token[k + 1..] && IsName(token[..k]);
    }
    if name, value :| IsName(name) && token == name + "=" + value {
      assert token[|name|] == '=' && forall j :: 0 <= j < |name| ==> token[j] == name[j];
    }
  }

  // ---- The printer ---------------------------------------------------------

  predicate Plain(c: char) {
    !IsSpace(c) && c != '\'' && c != '"' && c != '\\'
  }

  predicate AllPlain(s: string) {
    forall i :: 0 <= i < |s| ==> Plain(s[i])
  }

  /** `replaceAll("'", "'\\''")` */
  function EscapeQuotes(s: string): string {
    if s == "" then ""
    else (if s[0] == '\'' then "'\\''" else [s[0]]) + EscapeQuotes(s[1..])
  }

  function QuoteToken(token: string): (r: string)
    ensures r != "" && !IsSpace(r[0]) && !IsSpace(r[|r| - 1])
  {
    if token != "" && AllPlain(token) then token else "'" + EscapeQuotes(token) + "'"
  }

  /** A token stays as it is if and only if it is not empty and holds no white space, quote or backslash. */
  lemma QuoteExactly(token: string)
    ensures QuoteToken(token) == token <==>
            token != "" && forall i :: 0 <= i < |token| ==> !IsSpace(token[i]) && token[i] !in "'\"\\"
    ensures QuoteToken(token) != token ==> QuoteToken(token) == "'" + EscapeQuotes(token) + "'"
    ensures |EscapeQuotes(token)| >= |token|
  {
    EscapeGrows(token);
  }

  lemma {:induction false} EscapeGrows(s: string)
    ensures |EscapeQuotes(s)| >= |s|
  {
    if s != "" {
      EscapeGrows(s[1..]);
    }
  }

  /** Only single quotes are rewritten, each on its own. */
  lemma {:induction false} EscapeExactly(a: string, b: string)
    requires '\'' !in a
    ensures EscapeQuotes(a) == a
    ensures EscapeQuotes(a + "'" + b) == a + "'\\''" + EscapeQuotes(b)
    decreases |a|
  {
    if a == "" {
      assert a + "'" + b == "'" + b && ("'" + b)[1..] == b;
    } else {
      EscapeExactly(a[1..], b);
      assert (a + "'" + b)[1..] == a[1..] + "'" + b;
      assert a == [a[0]] + a[1..];
    }
  }

  function DropEmpty(parts: seq<string>): (r: seq<string>)
    ensures forall p :: p in r ==> p != ""
    ensures |r| <= |parts|
  {
    if parts == [] then []
    else (if parts[0] == "" then [] else [parts[0]]) + DropEmpty(parts[1..])
  }

  function JoinQuoted(parts: seq<string>): string {
    if parts == [] then ""
    else if |parts| == 1 then QuoteToken(parts[0])
    else QuoteToken(parts[0]) + " " + JoinQuoted(parts[1..])
  }

  function Format(command: Option<string>, args: seq<string>): string {
    JoinQuoted(DropEmpty((if command.Some? then [command.value] else []) + args))
  }

  lemma {:induction false} DropEmptyConcat(a: seq<string>, b: seq<string>)
    ensures DropEmpty(a + b) == DropEmpty(a) + DropEmpty(b)
    decreases |a|
  {
    if a == [] {
      assert a + b == b;
    } else {
      assert (a + b)[1..] == a[1..] + b;
      DropEmptyConcat(a[1..], b);
    }
  }

  /** Empty parts are left out wherever they are, and everything else stays in its place. */
  lemma DropEmptyExactly(a: seq<string>, x: string, b: seq<string>)
    ensures DropEmpty(a + [x] + b) == DropEmpty(a) + (if x == "" then [] else [x]) + DropEmpty(b)
  {
    DropEmptyConcat(a + [x], b);
    DropEmptyConcat(a, [x]);
  }

  lemma {:induction false} JoinQuotedConcat(a: seq<string>, b: seq<string>)
    requires a != [] && b != []
    ensures JoinQuoted(a + b) == JoinQuoted(a) + " " + JoinQuoted(b)
    decreases |a|
  {
    if |a| == 1 {
      assert (a + b)[1..] == b;
    } else {
      assert (a + b)[1..] == a[1..] + b;
      JoinQuotedConcat(a[1..], b);
    }
  }

  /** A line is the non-empty parts, quoted, with one space between any two; no command is an empty one. */
  lemma FormatExactly(args: seq<string>, x: string)
    requires x != ""
    ensures Format(None, [x]) == QuoteToken(x) && Format(None, args) == Format(Some(""), args)
    ensures Format(Some(x), args) ==
            if DropEmpty(args) == [] then QuoteToken(x) else QuoteToken(x) + " " + Format(None, args)
  {
    assert [] + args == args && [] + [x] == [x];
    DropEmptyConcat([x], args);
    DropEmptyConcat([""], args);
    assert DropEmpty([x]) == [x] && DropEmpty([""]) == [];
    assert [x] + [] == [x] && [] + DropEmpty(args) == DropEmpty(args);
    if DropEmpty(args) != [] {
      JoinQuotedConcat([x], DropEmpty(args));
    }
  }

  // ---- Scanning what the printer wrote -------------------------------------

  lemma {:induction false} ScanPlain(s: Scan, text: string)
    requires s.quote == None && !s.escaped && AllPlain(text)
    ensures FeedAll(s, text) == s.(token := s.token + text, started := s.started || text != "")
    decreases |text|
  {
    if text != "" {
      var next := Feed(s, text[0]);
      ScanPlain(next, text[1..]);
      assert next.token + text[1..] == s.token + text;
    } else {
      assert s.token + text == s.token;
    }
  }

  lemma {:induction false} ScanEscaped(s: Scan, text: string)
    requires s.quote == Some('\'') && !s.escaped && s.started
    ensures FeedAll(s, EscapeQuotes(text)) == s.(token := s.token + text)
    decreases |text|
  {
    if text != "" {
      var head := if text[0] == '\'' then "'\\''" else [text[0]];
      FeedAllConcat(s, head, EscapeQuotes(text[1..]));
      var next := s.(token := s.token + [text[0]]);
      assert FeedAll(s, head) == next by {
        if text[0] == '\'' {
          ScanQuoteTrick(s);
        }
      }
      ScanEscaped(next, text[1..]);
      assert next.token + text[1..] == s.token + text;
    } else {
      assert s.token + text == s.token;
    }
  }

  /** Inside single quotes, close, an escaped quote, and reopen adds one quote. */
  lemma ScanQuoteTrick(s: Scan)
    requires s.quote == Some('\'') && !s.escaped && s.started
    ensures FeedAll(s, "'\\''") == s.(token := s.token + ['\''])
  {
    var a := Feed(s, '\'');
    var b := Feed(a, '\\');
    var c := Feed(b, '\'');
    assert "'\\''"[1..] == "\\''" && "\\''"[1..] == "''" && "''"[1..] == "'" && "'"[1..] == "";
    assert FeedAll(s, "'\\''") == FeedAll(a, "\\''");
    assert FeedAll(a, "\\''") == FeedAll(b, "''");
    assert FeedAll(b, "''") == FeedAll(c, "'");
    assert FeedAll(c, "'") == FeedAll(Feed(c, '\''), "");
  }

  lemma ScanQuoted(s: Scan, token: string)
    requires Between(s)
    ensures FeedAll(s, QuoteToken(token)) == s.(token := token, started := true)
  {
    if token != "" && AllPlain(token) {
      ScanPlain(s, token);
      assert s.token + token == token;
    } else {
      var inQuote := Feed(s, '\'');
      FeedAllConcat(s, "'" + EscapeQuotes(token), "'");
      FeedAllConcat(s, "'", EscapeQuotes(token));
      assert FeedAll(s, "'") == FeedAll(inQuote, "");
      ScanEscaped(inQuote, token);
      var inside := inQuote.(token := inQuote.token + token);
      assert inQuote.token + token == token;
      assert FeedAll(inside, "'") == FeedAll(Feed(inside, '\''), "");
    }
  }

  lemma ScanQuotedThenSpace(s: Scan, token: string, line: string)
    requires Between(s)
    ensures FeedAll(s, QuoteToken(token) + " " + line) == FeedAll(s.(tokens := s.tokens + [token]), line)
  {
    ScanQuoted(s, token);
    FeedAllConcat(s, QuoteToken(token) + " ", line);
    FeedAllConcat(s, QuoteToken(token), " ");
    var held := s.(token := token, started := true);
    assert FeedAll(held, " ") == FeedAll(Feed(held, ' '), "");
  }

  /** The scanner's state with all parts read and the last one pending. */
  function AllRead(s: Scan, parts: seq<string>): Scan
    requires parts != []
  {
    s.(tokens := s.tokens + parts[..|parts| - 1], token := parts[|parts| - 1], started := true)
  }

  lemma AllReadCons(s: Scan, parts: seq<string>)
    requires |parts| > 1
    ensures AllRead(s.(tokens := s.tokens + [parts[0]]), parts[1..]) == AllRead(s, parts)
  {
    assert s.tokens + [parts[0]] + parts[1..][..|parts| - 2] == s.tokens + parts[..|parts| - 1];
  }

  lemma {:induction false} ScanJoined(s: Scan, parts: seq<string>)
    requires Between(s) && parts != []
    ensures FeedAll(s, JoinQuoted(parts)) == AllRead(s, parts)
    decreases |parts|
  {
    if |parts| == 1 {
      ScanQuoted(s, parts[0]);
      assert s.tokens + parts[..0] == s.tokens;
    } else {
      ScanQuotedThenSpace(s, parts[0], JoinQuoted(parts[1..]));
      ScanJoined(s.(tokens := s.tokens + [parts[0]]), parts[1..]);
      AllReadCons(s, parts);
    }
  }

  lemma {:induction false} JoinedIsTrimmed(parts: seq<string>)
    requires parts != []
    ensures var line := JoinQuoted(parts); line != "" && !IsSpace(line[0]) && !IsSpace(line[|line| - 1])
    decreases |parts|
  {
    if |parts| > 1 {
      JoinedIsTrimmed(parts[1..]);
    }
  }

  /** What the checks after the scan make of a list of tokens, the last one still pending. */
  lemma FinishList(parts: seq<string>)
    requires parts != []
    ensures Finish(Scan(parts[..|parts| - 1], parts[|parts| - 1], None, false, true)) ==
            if parts[0] == "" then Rejected(CommandRequired)
            else if IsEnvAssignment(parts[0]) && |parts| > 1 then Parsed(Command("env", parts))
            else Parsed(Command(parts[0], parts[1..]))
  {
    assert parts[..|parts| - 1] + [parts[|parts| - 1]] == parts;
  }

  /** The scanner recovers every list of strings, empty ones and all, from its quoted join. */
  lemma ParseJoined(parts: seq<string>)
    requires parts != []
    ensures Parse(JoinQuoted(parts)) ==
            if parts[0] == "" then Rejected(CommandRequired)
            else if IsEnvAssignment(parts[0]) && |parts| > 1 then Parsed(Command("env", parts))
            else Parsed(Command(parts[0], parts[1..]))
  {
    JoinedIsTrimmed(parts);
    ParseOfBare(JoinQuoted(parts));
    FinishJoined(parts);
  }

  lemma ParseOfBare(line: string)
    requires Bare(IsSpace, line)
    ensures Parse(line) == Finish(FeedAll(START, line))
  {
    ParseOfPadded("", line, "");
    assert "" + line + "" == line;
  }

  lemma FinishJoined(parts: seq<string>)
    requires parts != []
    ensures Finish(FeedAll(START, JoinQuoted(parts))) ==
            if parts[0] == "" then Rejected(CommandRequired)
            else if IsEnvAssignment(parts[0]) && |parts| > 1 then Parsed(Command("env", parts))
            else Parsed(Command(parts[0], parts[1..]))
  {
    ScanJoined(START, parts);
    assert [] + parts[..|parts| - 1] == parts[..|parts| - 1];
    FinishList(parts);
  }

  // ---- Main results --------------------------------------------------------

  lemma {:induction false} DropEmptyKeepsAll(parts: seq<string>)
    ensures (DropEmpty(parts) == parts) <==> "" !in parts
    ensures |DropEmpty(parts)| == |parts| <==> "" !in parts
    decreases |parts|
  {
    if parts != [] {
      assert parts == [parts[0]] + parts[1..];
      DropEmptyKeepsAll(parts[1..]);
    }
  }

  lemma FormatShape(c: Command)
    ensures c.command != "" ==> Format(Some(c.command), c.args) == JoinQuoted([c.command] + DropEmpty(c.args))
    ensures c.command == "" ==> Format(Some(c.command), c.args) == JoinQuoted(DropEmpty(c.args))
  {
    assert ([c.command] + c.args)[1..] == c.args;
    assert [] + DropEmpty(c.args) == DropEmpty(c.args);
  }

  /** Printing and parsing back gives the same pair on exactly these pairs. */
  lemma RoundTrip(c: Command)
    ensures Parse(Format(Some(c.command), c.args)) == Parsed(c) <==>
            && c.command != "" && "" !in c.args
            && (IsEnvAssignment(c.command) ==> c.args == [])
  {
    FormatShape(c);
    DropEmptyKeepsAll(c.args);
    var kept := DropEmpty(c.args);
    if c.command != "" {
      ParseJoined([c.command] + kept);
      assert ([c.command] + kept)[1..] == kept;
    } else if kept != [] {
      ParseJoined(kept);
    }
  }

  /** What every accepted line parses to. */
  lemma ParsedShape(line: string)
    requires Parse(line).Parsed?
    ensures var c := Parse(line).value;
            && c.command != ""
            && (IsEnvAssignment(c.command) ==> c.args == [])
  {
    assert !IsEnvAssignment("env") by {
      assert forall k :: 0 < k < |"env"| ==> "env"[k] != '=';
    }
  }

  /** One print-and-parse round only drops empty arguments, and a second changes nothing. */
  lemma NormalForm(line: string)
    requires Parse(line).Parsed?
    ensures var c := Parse(line).value;
            var normal := Command(c.command, DropEmpty(c.args));
            && Parse(Format(Some(c.command), c.args)) == Parsed(normal)
            && Parse(Format(Some(normal.command), normal.args)) == Parsed(normal)
  {
    var c := Parse(line).value;
    ParsedShape(line);
    FormatShape(c);
    var kept := DropEmpty(c.args);
    ParseJoined([c.command] + kept);
    assert ([c.command] + kept)[1..] == kept;
    assert c.args == [] ==> kept == [];
    RoundTrip(Command(c.command, kept));
  }
}
