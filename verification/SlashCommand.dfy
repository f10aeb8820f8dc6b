/** The quote and escape automaton behind slash commands. */
module SlashTokens {
  import opened Wrappers
  import opened GoStrings

  datatype ParseError =
    | UnterminatedQuote | EmptyPath | EmptySegment | SlashInSegment
    | EmptyFlagName | EmptyFlagValue | UnsupportedFlag

  datatype Quote = Unquoted | In(mark: char)

  datatype Lexer = Lexer(tokens: seq<string>, cur: string, quote: Quote, escaped: bool)

  const Start := Lexer([], "", Unquoted, false)

  predicate IsSeparator(c: char) {
    c == ' ' || c == '\t' || c == '\n' || c == '\r'
  }

  function Flush(l: Lexer): Lexer {
    if l.cur == "" then l else l.(tokens := l.tokens + [l.cur], cur := "")
  }

  function Next(l: Lexer, c: char): Lexer {
    if l.escaped then l.(cur := l.cur + [c], escaped := false)
    else if c == '\\' && l.quote != In('\'') then l.(escaped := true)
    else if l.quote.In? then
      if c == l.quote.mark then l.(quote := Unquoted) else l.(cur := l.cur + [c])
    else if c == '\'' || c == '"' then l.(quote := In(c))
    else if IsSeparator(c) then Flush(l)
    else l.(cur := l.cur + [c])
  }

  function Scan(l: Lexer, input: string): Lexer
    decreases |input|
  {
    if input == "" then l else Scan(Next(l, input[0]), input[1..])
  }

  /** End of input: a pending backslash is literal, an open quote is an error. */
  function Finish(l: Lexer): Result<seq<string>, ParseError> {
    var l' := if l.escaped then l.(cur := l.cur + "\\", escaped := false) else l;
    if l'.quote.In? then Err(UnterminatedQuote) else Ok(Flush(l').tokens)
  }

  function Tokens(input: string): Result<seq<string>, ParseError> {
    Finish(Scan(Start, input))
  }

  method Tokenize(input: string) returns (r: Result<seq<string>, ParseError>)
    ensures r == Tokens(input)
  {
    var tokens: seq<string>, cur, quote, escaped := [], "", Unquoted, false;
    for i := 0 to |input|
      invariant Scan(Start, input) == Scan(Lexer(tokens, cur, quote, escaped), input[i..])
    {
      var c := input[i];
      assert input[i..][1..] == input[i + 1..];
      if escaped {
        cur := cur + [c];
        escaped := false;
        continue;
      }
      if c == '\\' && quote != In('\'') {
        escaped := true;
        continue;
      }
      if quote.In? {
        if c == quote.mark {
          quote := Unquoted;
          continue;
        }
        cur := cur + [c];
        continue;
      }
      if c == '\'' || c == '"' {
        quote := In(c);
      } else if IsSeparator(c) {
        if cur != "" {
          tokens, cur := tokens + [cur], "";
        }
      } else {
        cur := cur + [c];
      }
    }
    if escaped {
      cur := cur + "\\";
    }
    if quote.In? {
      return Err(UnterminatedQuote);
    }
    if cur != "" {
      tokens := tokens + [cur];
    }
    r := Ok(tokens);
  }

  /** Backslashes before the characters that are special between double quotes. */
  function Escape(s: string): string {
    if s == "" then ""
    else (if s[0] == '"' || s[0] == '\\' then ['\\', s[0]] else [s[0]]) + Escape(s[1..])
  }

  function Quoted(s: string): string {
    "\"" + Escape(s) + "\""
  }

  /** Quoted tokens, each preceded by a space. */
  function Joined(tokens: seq<string>): string {
    if tokens == [] then "" else " " + Quoted(tokens[0]) + Joined(tokens[1..])
  }

  lemma {:induction false} ScanConcat(l: Lexer, a: string, b: string)
    ensures Scan(l, a + b) == Scan(Scan(l, a), b)
    decreases |a|
  {
    if a == "" {
      assert a + b == b;
    } else {
      assert (a + b)[1..] == a[1..] + b;
      ScanConcat(Next(l, a[0]), a[1..], b);
    }
  }

  lemma {:induction false} ScanEscaped(l: Lexer, s: string)
    requires l.quote == In('"') && !l.escaped
    ensures Scan(l, Escape(s)) == l.(cur := l.cur + s)
    decreases |s|
  {
    if s == "" {
      assert l.cur + s == l.cur;
    } else {
      var head := if s[0] == '"' || s[0] == '\\' then ['\\', s[0]] else [s[0]];
      var l' := l.(cur := l.cur + [s[0]]);
      ScanConcat(l, head, Escape(s[1..]));
      assert Scan(l, head) == l' by {
        if |head| == 2 {
          assert head[1..] == [s[0]] && [s[0]][1..] == "";
          assert Scan(l, head) == Scan(Next(Next(l, '\\'), s[0]), "");
        } else {
          assert head[1..] == "";
        }
      }
      ScanEscaped(l', s[1..]);
      assert l.cur + s == l.cur + [s[0]] + s[1..];
    }
  }

  lemma ScanQuoted(l: Lexer, s: string)
    requires l.quote == Unquoted && !l.escaped
    ensures Scan(l, Quoted(s)) == l.(cur := l.cur + s)
  {
    var open := l.(quote := In('"'));
    ScanConcat(l, "\"", Escape(s) + "\"");
    assert "\"" + (Escape(s) + "\"") == Quoted(s);
    assert Scan(l, "\"") == open by { assert "\""[1..] == ""; }
    ScanConcat(open, Escape(s), "\"");
    ScanEscaped(open, s);
    assert "\""[1..] == "";
  }

  /** A space ends the token before it; the quoted text after it becomes the next one. */
  lemma ScanToken(l: Lexer, token: string)
    requires l.quote == Unquoted && !l.escaped
    ensures Scan(l, " " + Quoted(token)) == Flush(l).(cur := token)
  {
    assert Scan(l, " ") == Flush(l) by {
      assert " "[1..] == "";
    }
    hide Scan, Quoted;
    ScanConcat(l, " ", Quoted(token));
    ScanQuoted(Flush(l), token);
    assert "" + token == token;
  }

  lemma FlushToken(l: Lexer, token: string)
    requires token != ""
    ensures Flush(Flush(l).(cur := token)).tokens == Flush(l).tokens + [token]
  {
  }

  lemma {:induction false} ScanJoined(l: Lexer, tokens: seq<string>)
    requires l.quote == Unquoted && !l.escaped && forall i :: 0 <= i < |tokens| ==> tokens[i] != ""
    ensures var l' := Scan(l, Joined(tokens));
      && l'.quote == Unquoted && !l'.escaped
      && Flush(l').tokens == Flush(l).tokens + tokens
    decreases |tokens|
  {
    if tokens == [] {
      assert Flush(l).tokens + tokens == Flush(l).tokens;
    } else {
      var token, rest := tokens[0], Joined(tokens[1..]);
      var l' := Flush(l).(cur := token);
      assert Joined(tokens) == " " + Quoted(token) + rest;
      hide Scan, Quoted, Joined, Flush;
      ScanConcat(l, " " + Quoted(token), rest);
      ScanToken(l, token);
      FlushToken(l, token);
      FlushKeeps(l);
      ScanJoined(l', tokens[1..]);
      assert Flush(l).tokens + [token] + tokens[1..] == Flush(l).tokens + tokens;
    }
  }

  lemma FlushKeeps(l: Lexer)
    ensures Flush(l).quote == l.quote && Flush(l).escaped == l.escaped
  {
  }

  /** Quoting each token and joining with spaces is undone by the tokenizer. */
  lemma TokenRoundTrip(tokens: seq<string>)
    requires forall i :: 0 <= i < |tokens| ==> tokens[i] != ""
    ensures Tokens(Joined(tokens)) == Ok(tokens)
  {
    hide Scan, Joined;
    ScanJoined(Start, tokens);
    assert [] + tokens == tokens;
  }

  /** The tokenizer never yields an empty token. */
  lemma {:induction false} ScanNonEmpty(l: Lexer, input: string)
    requires forall i :: 0 <= i < |l.tokens| ==> l.tokens[i] != ""
    ensures forall i :: 0 <= i < |Scan(l, input).tokens| ==> Scan(l, input).tokens[i] != ""
    decreases |input|
  {
    if input != "" {
      ScanNonEmpty(Next(l, input[0]), input[1..]);
    }
  }

  lemma TokensNonEmpty(input: string)
    ensures Tokens(input).Ok? ==> forall i :: 0 <= i < |Tokens(input).value| ==> Tokens(input).value[i] != ""
  {
    ScanNonEmpty(Start, input);
  }
}

/** Slash commands: parsing, printing, and the exact set of invocations that parsing can produce. */
module SlashCommand {
  import opened Wrappers
  import opened GoStrings
  import opened SlashTokens

  datatype FlagValue = On | Text(text: string)
  datatype Flag = Flag(name: string, value: FlagValue)
  datatype Invocation = Invocation(path: seq<string>, args: seq<string>, flags: map<string, FlagValue>)

  predicate HasPrefix(s: string, p: string) {
    p <= s
  }

  predicate Contains(s: string, c: char) {
    exists i :: 0 <= i < |s| && s[i] == c
  }

  /** `isSlashPathSegment`. */
  predicate IsSegment(token: string) {
    token != "" && forall i :: 0 <= i < |token| ==> !IsSeparator(token[i]) && token[i] != '/'
  }

  function ValidateSegment(segment: string): Option<ParseError> {
    if segment == "" then Some(EmptySegment)
    else if Contains(segment, '/') then Some(SlashInSegment)
    else None
  }

  /** `strings.Cut` at the first equals sign. */
  function Cut(s: string): (r: (string, string, bool)) {
    if s == "" then ("", "", false)
    else if s[0] == '=' then ("", s[1..], true)
    else
      var (name, value, found) := Cut(s[1..]);
      ([s[0]] + name, value, found)
  }

  lemma {:induction false} CutSpec(s: string)
    ensures var (name, value, found) := Cut(s);
      !Contains(name, '=') && s == if found then name + "=" + value else name
  {
    if s != "" && s[0] != '=' {
      CutSpec(s[1..]);
      var (name, value, found) := Cut(s[1..]);
      assert s == [s[0]] + s[1..];
      var whole := [s[0]] + name;
      forall i | 0 <= i < |whole| ensures whole[i] != '=' {
        assert i > 0 ==> whole[i] == name[i - 1];
      }
    }
  }

  lemma {:induction false} CutJoined(name: string, value: string)
    requires !Contains(name, '=')
    ensures Cut(name + "=" + value) == (name, value, true)
    ensures Cut(name) == (name, "", false)
  {
    if name == "" {
      assert name + "=" + value == "=" + value;
    } else {
      assert forall i :: 0 <= i < |name[1..]| ==> name[1..][i] == name[i + 1];
      assert name[0] != '=';
      CutJoined(name[1..], value);
      assert (name + "=" + value)[1..] == name[1..] + "=" + value;
      assert name == [name[0]] + name[1..];
    }
  }

  /** The parser's variables; `seenFlag` also records that arguments have begun. */
  datatype Parser = Parser(path: seq<string>, args: seq<string>, flags: map<string, FlagValue>, seenFlag: bool)

  function ParseRest(p: Parser, tokens: seq<string>): Result<Parser, ParseError>
    decreases |tokens|
  {
    if tokens == [] then Ok(p)
    else
      var token := tokens[0];
      if HasPrefix(token, "--") then
        var (name, value, hasValue) := Cut(token[2..]);
        if name == "" then Err(EmptyFlagName)
        else if hasValue then
          if value == "" then Err(EmptyFlagValue)
          else ParseRest(p.(flags := p.flags[name := Text(value)], seenFlag := true), tokens[1..])
        else if |tokens| > 1 && !HasPrefix(tokens[1], "-") then
          ParseRest(p.(flags := p.flags[name := Text(tokens[1])], seenFlag := true), tokens[2..])
        else ParseRest(p.(flags := p.flags[name := On], seenFlag := true), tokens[1..])
      else if HasPrefix(token, "-") then Err(UnsupportedFlag)
      else if p.seenFlag || !IsSegment(token) then
        ParseRest(p.(args := p.args + [token], seenFlag := true), tokens[1..])
      else if ValidateSegment(token).Some? then Err(ValidateSegment(token).value)
      else ParseRest(p.(path := p.path + [token]), tokens[1..])
  }

  function Parse(input: string): Result<Option<Invocation>, ParseError> {
    var text := TrimSpace(input);
    if text == "" || !HasPrefix(text, "/") then Ok(None)
    else
      match Tokens(text)
      case Err(e) => Err(e)
      case Ok(tokens) =>
        if tokens == [] then Ok(None)
        else if tokens[0] == "/" then Err(EmptyPath)
        else if HasPrefix(tokens[0], "//") then Err(EmptySegment)
        else
          var root := if HasPrefix(tokens[0], "/") then tokens[0][1..] else tokens[0];
          if ValidateSegment(root).Some? then Err(ValidateSegment(root).value)
          else
            match ParseRest(Parser([root], [], map[], false), tokens[1..])
            case Err(e) => Err(e)
            case Ok(p) => Ok(Some(Invocation(p.path, p.args, p.flags)))
  }

  /** `ParseSlash`. */
  method ParseSlash(input: string) returns (r: Result<Option<Invocation>, ParseError>)
    ensures r == Parse(input)
  {
    var text := TrimSpace(input);
    if text == "" || !HasPrefix(text, "/") {
      return Ok(None);
    }
    var tokenized := Tokenize(text);
    if tokenized.Err? {
      return Err(tokenized.error);
    }
    var tokens := tokenized.value;
    if |tokens| == 0 {
      return Ok(None);
    }
    var first := tokens[0];
    if first == "/" {
      return Err(EmptyPath);
    }
    if HasPrefix(first, "//") {
      return Err(EmptySegment);
    }
    var root := if HasPrefix(first, "/") then first[1..] else first;
    var invalid := ValidateSegment(root);
    if invalid.Some? {
      return Err(invalid.value);
    }
    var path, args: seq<string>, flags: map<string, FlagValue>, seenFlag := [root], [], map[], false;
    var i := 1;
    while i < |tokens|
      invariant 1 <= i <= |tokens|
      invariant ParseRest(Parser([root], [], map[], false), tokens[1..])
                == ParseRest(Parser(path, args, flags, seenFlag), tokens[i..])
    {
      var token := tokens[i];
      assert tokens[i..][1..] == tokens[i + 1..];
      if HasPrefix(token, "--") {
        seenFlag := true;
        var nameValue := token[2..];
        if nameValue == "" {
          return Err(EmptyFlagName);
        }
        var (name, value, hasValue) := Cut(nameValue);
        if name == "" {
          return Err(EmptyFlagName);
        }
        if hasValue {
          if value == "" {
            return Err(EmptyFlagValue);
          }
          flags := flags[name := Text(value)];
        } else if i + 1 < |tokens| && !HasPrefix(tokens[i + 1], "-") {
          assert tokens[i..][2..] == tokens[i + 2..];
          i := i + 1;
          flags := flags[name := Text(tokens[i])];
        } else {
          flags := flags[name := On];
        }
      } else if HasPrefix(token, "-") {
        return Err(UnsupportedFlag);
      } else if seenFlag || !IsSegment(token) {
        args := args + [token];
        seenFlag := true;
      } else {
        invalid := ValidateSegment(token);
        if invalid.Some? {
          return Err(invalid.value);
        }
        path := path + [token];
      }
      i := i + 1;
    }
    r := Ok(Some(Invocation(path, args, flags)));
  }

  /** A later path segment: not a flag, not quoted text. */
  predicate PathSegment(s: string) {
    IsSegment(s) && !HasPrefix(s, "-")
  }

  predicate Argument(s: string) {
    s != "" && !HasPrefix(s, "-")
  }

  predicate FlagOk(name: string, value: FlagValue) {
    name != "" && !Contains(name, '=') && (value.Text? ==> value.text != "")
  }

  /** The invocations that some input means. */
  predicate Canonical(inv: Invocation) {
    && inv.path != [] && inv.path[0] != "" && !Contains(inv.path[0], '/')
    && (forall i :: 1 <= i < |inv.path| ==> PathSegment(inv.path[i]))
    && (forall i :: 0 <= i < |inv.args| ==> Argument(inv.args[i]))
    && (forall name :: name in inv.flags ==> FlagOk(name, inv.flags[name]))
    && (inv.args != [] && IsSegment(inv.args[0]) ==> inv.flags != map[])
  }

  function FlagMap(m: map<string, FlagValue>, flags: seq<Flag>): map<string, FlagValue>
    decreases |flags|
  {
    if flags == [] then m else FlagMap(m[flags[0].name := flags[0].value], flags[1..])
  }

  function FlagToken(f: Flag): string {
    if f.value.On? then "--" + f.name else "--" + f.name + "=" + f.value.text
  }

  function FlagTokens(flags: seq<Flag>): seq<string> {
    if flags == [] then [] else [FlagToken(flags[0])] + FlagTokens(flags[1..])
  }

  /** Arguments that look like a path segment need a flag with a value in front of them. */
  function Opening(inv: Invocation, flags: seq<Flag>): seq<Flag> {
    if inv.args != [] && IsSegment(inv.args[0]) && flags != [] then
      [if flags[0].value.On? then Flag(flags[0].name, Text("x")) else flags[0]]
    else []
  }

  function BodyTokens(inv: Invocation, flags: seq<Flag>): seq<string>
    requires inv.path != []
  {
    inv.path[1..] + FlagTokens(Opening(inv, flags)) + inv.args + FlagTokens(flags)
  }

  /** The canonical text of an invocation, its flags written in the given order. */
  function Print(inv: Invocation, flags: seq<Flag>): string
    requires inv.path != []
  {
    "/" + Quoted(inv.path[0]) + Joined(BodyTokens(inv, flags))
  }

  lemma DashPrefix(s: string)
    ensures HasPrefix(s, "--") ==> HasPrefix(s, "-")
  {
  }

  lemma {:induction false} ParsePath(p: Parser, segments: seq<string>, rest: seq<string>)
    requires !p.seenFlag && forall i :: 0 <= i < |segments| ==> PathSegment(segments[i])
    ensures ParseRest(p, segments + rest) == ParseRest(p.(path := p.path + segments), rest)
    decreases |segments|
  {
    if segments == [] {
      assert segments + rest == rest && p.path + segments == p.path;
    } else {
      var s := segments[0];
      assert PathSegment(s);
      assert (segments + rest)[1..] == segments[1..] + rest;
      DashPrefix(s);
      assert !Contains(s, '/');
      ParsePath(p.(path := p.path + [s]), segments[1..], rest);
      assert p.path + [s] + segments[1..] == p.path + segments;
    }
  }

  lemma {:induction false} ParseArgs(p: Parser, args: seq<string>, rest: seq<string>)
    requires forall i :: 0 <= i < |args| ==> Argument(args[i])
    requires args != [] ==> p.seenFlag || !IsSegment(args[0])
    ensures ParseRest(p, args + rest) ==
            ParseRest(p.(args := p.args + args, seenFlag := p.seenFlag || args != []), rest)
    decreases |args|
  {
    if args == [] {
      assert args + rest == rest && p.args + args == p.args;
    } else {
      var a := args[0];
      assert (args + rest)[1..] == args[1..] + rest;
      DashPrefix(a);
      ParseArgs(p.(args := p.args + [a], seenFlag := true), args[1..], rest);
      assert p.args + [a] + args[1..] == p.args + args;
    }
  }

  lemma FlagTokenShape(f: Flag)
    requires FlagOk(f.name, f.value)
    ensures HasPrefix(FlagToken(f), "--") && HasPrefix(FlagToken(f), "-")
    ensures Cut(FlagToken(f)[2..]) == (f.name, if f.value.On? then "" else f.value.text, f.value.Text?)
  {
    CutJoined(f.name, if f.value.On? then "" else f.value.text);
    if f.value.On? {
      assert FlagToken(f)[2..] == f.name;
    } else {
      assert FlagToken(f) == "--" + (f.name + "=" + f.value.text);
      assert FlagToken(f)[2..] == f.name + "=" + f.value.text;
    }
  }

  lemma ParseFlag(p: Parser, f: Flag, rest: seq<string>)
    requires FlagOk(f.name, f.value) && (f.value.On? && rest != [] ==> HasPrefix(rest[0], "-"))
    ensures ParseRest(p, [FlagToken(f)] + rest) ==
            ParseRest(p.(flags := p.flags[f.name := f.value], seenFlag := true), rest)
  {
    hide FlagToken, Cut, IsSegment;
    FlagTokenShape(f);
    assert ([FlagToken(f)] + rest)[1..] == rest;
  }

  /** Flags parse one by one: the token after a switch is never taken as its value. */
  lemma {:induction false} ParseFlags(p: Parser, flags: seq<Flag>, rest: seq<string>)
    requires forall i :: 0 <= i < |flags| ==> FlagOk(flags[i].name, flags[i].value)
    requires flags != [] && rest != [] ==> flags[|flags| - 1].value.Text?
    ensures ParseRest(p, FlagTokens(flags) + rest) ==
            ParseRest(p.(flags := FlagMap(p.flags, flags), seenFlag := p.seenFlag || flags != []), rest)
    decreases |flags|
  {
    hide ParseRest, FlagToken, FlagOk;
    if flags == [] {
      assert FlagTokens(flags) + rest == rest;
    } else {
      var f := flags[0];
      var tail := FlagTokens(flags[1..]) + rest;
      assert FlagTokens(flags) + rest == [FlagToken(f)] + tail;
      if |flags| > 1 {
        FlagTokenShape(flags[1]);
      }
      ParseFlag(p, f, tail);
      ParseFlags(p.(flags := p.flags[f.name := f.value], seenFlag := true), flags[1..], rest);
    }
  }

  ghost predicate Enumerates(flags: seq<Flag>, m: map<string, FlagValue>) {
    && FlagMap(map[], flags) == m
    && forall i :: 0 <= i < |flags| ==> flags[i].name in m && m[flags[i].name] == flags[i].value
  }

  lemma {:induction false} FlagMapOverrides(m: map<string, FlagValue>, m': map<string, FlagValue>, flags: seq<Flag>)
    requires forall name :: (name !in m' || name !in m || m[name] != m'[name]) && (name in m || name in m')
               ==> exists i :: 0 <= i < |flags| && flags[i].name == name
    ensures FlagMap(m, flags) == FlagMap(m', flags)
    decreases |flags|
  {
    if flags == [] {
      assert m == m';
    } else {
      var f := flags[0];
      var n, n' := m[f.name := f.value], m'[f.name := f.value];
      forall name | (name !in n' || name !in n || n[name] != n'[name]) && (name in n || name in n')
        ensures exists i :: 0 <= i < |flags[1..]| && flags[1..][i].name == name
      {
        var i :| 0 <= i < |flags| && flags[i].name == name;
        assert flags[1..][i - 1].name == name;
      }
      FlagMapOverrides(n, n', flags[1..]);
    }
  }

  lemma ParseNothing(p: Parser)
    ensures ParseRest(p, []) == Ok(p)
  {
  }

  lemma BodyParses(inv: Invocation, flags: seq<Flag>)
    requires Canonical(inv) && Enumerates(flags, inv.flags)
    ensures ParseRest(Parser([inv.path[0]], [], map[], false), BodyTokens(inv, flags)).Ok?
    ensures var p := ParseRest(Parser([inv.path[0]], [], map[], false), BodyTokens(inv, flags)).value;
      p.path == inv.path && p.args == inv.args && p.flags == inv.flags
  {
    hide ParseRest, FlagTokens, IsSegment, Contains;
    var p0 := Parser([inv.path[0]], [], map[], false);
    var opening := Opening(inv, flags);
    var afterPath := FlagTokens(opening) + inv.args + FlagTokens(flags);
    assert BodyTokens(inv, flags) == inv.path[1..] + afterPath;
    ParsePath(p0, inv.path[1..], afterPath);
    var p1 := p0.(path := inv.path);
    assert [inv.path[0]] + inv.path[1..] == inv.path;
    assert afterPath == FlagTokens(opening) + (inv.args + FlagTokens(flags));
    forall i | 0 <= i < |flags| ensures FlagOk(flags[i].name, flags[i].value) {
      assert flags[i].name in inv.flags;
    }
    ParseFlags(p1, opening, inv.args + FlagTokens(flags));
    var p2 := p1.(flags := FlagMap(map[], opening), seenFlag := opening != []);
    assert inv.args != [] && IsSegment(inv.args[0]) ==> flags != [];
    ParseArgs(p2, inv.args, FlagTokens(flags));
    assert [] + inv.args == inv.args;
    var p3 := p2.(args := inv.args, seenFlag := p2.seenFlag || inv.args != []);
    ParseFlags(p3, flags, []);
    ParseNothing(p3.(flags := FlagMap(p3.flags, flags), seenFlag := p3.seenFlag || flags != []));
    assert FlagTokens(flags) + [] == FlagTokens(flags);
    FlagMapOverrides(p3.flags, map[], flags);
  }

  lemma {:induction false} FlagTokensNonEmpty(flags: seq<Flag>)
    ensures forall i :: 0 <= i < |FlagTokens(flags)| ==> FlagTokens(flags)[i] != ""
  {
    if flags != [] {
      FlagTokensNonEmpty(flags[1..]);
    }
  }

  lemma ScanSlash()
    ensures Scan(Start, "/") == Lexer([], "/", Unquoted, false)
  {
    assert "/"[1..] == "";
  }

  lemma BodyNonEmpty(inv: Invocation, flags: seq<Flag>)
    requires Canonical(inv)
    ensures forall i :: 0 <= i < |BodyTokens(inv, flags)| ==> BodyTokens(inv, flags)[i] != ""
  {
    hide FlagTokens, Opening;
    FlagTokensNonEmpty(flags);
    FlagTokensNonEmpty(Opening(inv, flags));
  }

  lemma PrintTokens(inv: Invocation, flags: seq<Flag>)
    requires Canonical(inv)
    ensures TrimSpace(Print(inv, flags)) == Print(inv, flags)
    ensures Tokens(Print(inv, flags)) == Ok(["/" + inv.path[0]] + BodyTokens(inv, flags))
  {
    hide Scan, Joined, Quoted, IsSegment, TrimSpace, FlagTokens;
    var body := BodyTokens(inv, flags);
    BodyNonEmpty(inv, flags);
    PrintTrimmed(inv.path[0], body);
    var l1 := Lexer([], "/", Unquoted, false);
    ScanConcat(Start, "/", Quoted(inv.path[0]) + Joined(body));
    assert "/" + (Quoted(inv.path[0]) + Joined(body)) == Print(inv, flags);
    ScanSlash();
    ScanConcat(l1, Quoted(inv.path[0]), Joined(body));
    ScanQuoted(l1, inv.path[0]);
    var l2 := l1.(cur := "/" + inv.path[0]);
    ScanJoined(l2, body);
    assert Flush(l2).tokens == ["/" + inv.path[0]];
  }

  lemma {:induction false} JoinedEnds(tokens: seq<string>)
    ensures tokens != [] ==> Joined(tokens) != "" && Joined(tokens)[|Joined(tokens)| - 1] == '"'
  {
    if tokens != [] {
      JoinedEnds(tokens[1..]);
    }
  }

  lemma PrintTrimmed(root: string, body: seq<string>)
    ensures var s := "/" + Quoted(root) + Joined(body); TrimSpace(s) == s
  {
    JoinedEnds(body);
    TrimSpaceFixed("/" + Quoted(root) + Joined(body));
  }

  /** Parsing undoes printing, for every canonical invocation and every order of its flags. */
  lemma ParsePrint(inv: Invocation, flags: seq<Flag>)
    requires Canonical(inv) && Enumerates(flags, inv.flags)
    ensures Parse(Print(inv, flags)) == Ok(Some(inv))
  {
    hide ParseRest, Tokens, BodyTokens, TrimSpace, Quoted, Joined, IsSegment;
    PrintTokens(inv, flags);
    BodyParses(inv, flags);
    var first := "/" + inv.path[0];
    var tokens := [first] + BodyTokens(inv, flags);
    assert tokens[1..] == BodyTokens(inv, flags) && first[1..] == inv.path[0];
    assert inv.path[0][0] != '/';
  }

  ghost predicate ParserInv(p: Parser) {
    && Canonical(Invocation(p.path, p.args, p.flags))
    && (p.args == [] && p.seenFlag ==> p.flags != map[])
    && (!p.seenFlag ==> p.args == [] && p.flags == map[])
  }

  lemma {:induction false} ParseRestCanonical(p: Parser, tokens: seq<string>)
    requires ParserInv(p) && forall i :: 0 <= i < |tokens| ==> tokens[i] != ""
    ensures ParseRest(p, tokens).Ok? ==> ParserInv(ParseRest(p, tokens).value)
    decreases |tokens|
  {
    if tokens != [] && ParseRest(p, tokens).Ok? {
      var token := tokens[0];
      if HasPrefix(token, "--") {
        CutSpec(token[2..]);
        var (name, value, hasValue) := Cut(token[2..]);
        if hasValue {
          assert name in p.flags[name := Text(value)];
          ParseRestCanonical(p.(flags := p.flags[name := Text(value)], seenFlag := true), tokens[1..]);
        } else if |tokens| > 1 && !HasPrefix(tokens[1], "-") {
          assert name in p.flags[name := Text(tokens[1])];
          ParseRestCanonical(p.(flags := p.flags[name := Text(tokens[1])], seenFlag := true), tokens[2..]);
        } else {
          assert name in p.flags[name := On];
          ParseRestCanonical(p.(flags := p.flags[name := On], seenFlag := true), tokens[1..]);
        }
      } else if p.seenFlag || !IsSegment(token) {
        ParseRestCanonical(p.(args := p.args + [token], seenFlag := true), tokens[1..]);
      } else {
        ParseRestCanonical(p.(path := p.path + [token]), tokens[1..]);
      }
    }
  }

  /** Parsing yields canonical invocations only. */
  lemma ParseCanonical(input: string)
    ensures Parse(input).Ok? && Parse(input).value.Some? ==> Canonical(Parse(input).value.value)
  {
    var r := Parse(input);
    if r.Ok? && r.value.Some? {
      var text := TrimSpace(input);
      TokensNonEmpty(text);
      var tokens := Tokens(text).value;
      var root := if HasPrefix(tokens[0], "/") then tokens[0][1..] else tokens[0];
      ParseRestCanonical(Parser([root], [], map[], false), tokens[1..]);
    }
  }

  lemma {:induction false} FlagMapSnoc(m: map<string, FlagValue>, flags: seq<Flag>, f: Flag)
    ensures FlagMap(m, flags + [f]) == FlagMap(m, flags)[f.name := f.value]
    decreases |flags|
  {
    if flags == [] {
      assert flags + [f] == [f] && [f][1..] == [];
    } else {
      assert (flags + [f])[1..] == flags[1..] + [f];
      FlagMapSnoc(m[flags[0].name := flags[0].value], flags[1..], f);
    }
  }

  lemma {:induction false} SomeOrder(m: map<string, FlagValue>) returns (flags: seq<Flag>)
    ensures Enumerates(flags, m)
    decreases m.Keys
  {
    if m == map[] {
      flags := [];
    } else {
      var name :| name in m;
      var init := SomeOrder(m - {name});
      var f := Flag(name, m[name]);
      FlagMapSnoc(map[], init, f);
      flags := init + [f];
      assert (m - {name})[name := m[name]] == m;
    }
  }

  /** The image of the parser is exactly the set of canonical invocations. */
  lemma ParseImage(inv: Invocation)
    ensures Canonical(inv) <==> exists input :: Parse(input) == Ok(Some(inv))
  {
    if Canonical(inv) {
      var flags := SomeOrder(inv.flags);
      ParsePrint(inv, flags);
    }
    if exists input :: Parse(input) == Ok(Some(inv)) {
      var input :| Parse(input) == Ok(Some(inv));
      ParseCanonical(input);
    }
  }

  /** A lone argument that looks like a path segment would be read as one: no input means it. */
  lemma BareArgumentUnreachable()
    ensures !exists input :: Parse(input) == Ok(Some(Invocation(["run"], ["now"], map[])))
  {
    ParseImage(Invocation(["run"], ["now"], map[]));
    assert IsSegment("now");
  }
}
