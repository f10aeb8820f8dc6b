/** Every way to write a command: which texts mean which tokens, and which tokens mean which invocation. */
module SlashGrammar {
  import opened Wrappers
  import opened GoStrings
  import opened SlashTokens
  import opened SlashCommand

  /** How a part of a token is written: as it is, between quotes, or with a backslash before each character. */
  datatype Style = Plain | Single | Double | Backslashed

  datatype Piece = Piece(text: string, style: Style)

  predicate Gap(c: char) {
    c == ' ' || c == '\t' || c == '\n' || c == '\r'
  }

  predicate Special(c: char) {
    Gap(c) || c == '\'' || c == '"' || c == '\\'
  }

  /** Plain text has no special character, and single quotes hold anything but a single quote. */
  predicate Writable(p: Piece) {
    match p.style
    case Plain => forall i :: 0 <= i < |p.text| ==> !Special(p.text[i])
    case Single => forall i :: 0 <= i < |p.text| ==> p.text[i] != '\''
    case _ => true
  }

  function Slashed(s: string): string {
    if s == "" then "" else ['\\', s[0]] + Slashed(s[1..])
  }

  function Written(p: Piece): string {
    match p.style
    case Plain => p.text
    case Single => "'" + p.text + "'"
    case Double => Quoted(p.text)
    case Backslashed => Slashed(p.text)
  }

  /** A token: pieces written without a gap, after at least one separator (the first token has none). */
  datatype Word = Word(gap: string, pieces: seq<Piece>)

  function Meant(pieces: seq<Piece>): string {
    if pieces == [] then "" else pieces[0].text + Meant(pieces[1..])
  }

  function PiecesText(pieces: seq<Piece>): string {
    if pieces == [] then "" else Written(pieces[0]) + PiecesText(pieces[1..])
  }

  function WordsText(words: seq<Word>): string {
    if words == [] then "" else words[0].gap + PiecesText(words[0].pieces) + WordsText(words[1..])
  }

  function Means(words: seq<Word>): seq<string> {
    if words == [] then [] else [Meant(words[0].pieces)] + Means(words[1..])
  }

  predicate GapOk(gap: string) {
    gap != "" && forall i :: 0 <= i < |gap| ==> Gap(gap[i])
  }

  predicate WordOk(w: Word) {
    GapOk(w.gap) && Meant(w.pieces) != "" && forall p <- w.pieces :: Writable(p)
  }

  predicate Ready(l: Lexer) {
    l.quote == Unquoted && !l.escaped
  }

  lemma ScanOne(l: Lexer, c: char)
    ensures Scan(l, [c]) == Next(l, c)
  {
    assert [c][1..] == "";
  }

  lemma {:induction false} ScanPlain(l: Lexer, s: string)
    requires Ready(l) && forall i :: 0 <= i < |s| ==> !Special(s[i])
    ensures Scan(l, s) == l.(cur := l.cur + s)
    decreases |s|
  {
    if s == "" {
      assert l.cur + s == l.cur;
    } else {
      assert !Special(s[0]);
      assert forall i :: 0 <= i < |s[1..]| ==> s[1..][i] == s[i + 1];
      ScanPlain(l.(cur := l.cur + [s[0]]), s[1..]);
      assert l.cur + [s[0]] + s[1..] == l.cur + s;
    }
  }

  lemma {:induction false} ScanSingle(l: Lexer, s: string)
    requires l.quote == In('\'') && !l.escaped && forall i :: 0 <= i < |s| ==> s[i] != '\''
    ensures Scan(l, s) == l.(cur := l.cur + s)
    decreases |s|
  {
    if s == "" {
      assert l.cur + s == l.cur;
    } else {
      assert s[0] != '\'';
      assert forall i :: 0 <= i < |s[1..]| ==> s[1..][i] == s[i + 1];
      ScanSingle(l.(cur := l.cur + [s[0]]), s[1..]);
      assert l.cur + [s[0]] + s[1..] == l.cur + s;
    }
  }

  lemma ScanPair(l: Lexer, c: char, rest: string)
    requires Ready(l)
    ensures Scan(l, ['\\', c] + rest) == Scan(l.(cur := l.cur + [c]), rest)
  {
    var pair := ['\\', c] + rest;
    assert pair[1..] == [c] + rest && ([c] + rest)[1..] == rest;
    assert Scan(l, pair) == Scan(Next(l, '\\'), [c] + rest);
  }

  lemma {:induction false} ScanSlashed(l: Lexer, s: string)
    requires Ready(l)
    ensures Scan(l, Slashed(s)) == l.(cur := l.cur + s)
    decreases |s|
  {
    if s == "" {
      ScanNothing(l);
      assert l.cur + s == l.cur;
    } else {
      hide Scan;
      ScanPair(l, s[0], Slashed(s[1..]));
      ScanSlashed(l.(cur := l.cur + [s[0]]), s[1..]);
      assert l.cur + [s[0]] + s[1..] == l.cur + s;
    }
  }

  /** However a piece is written, it adds its text to the token under way. */
  lemma ScanPiece(l: Lexer, p: Piece)
    requires Ready(l) && Writable(p)
    ensures Scan(l, Written(p)) == l.(cur := l.cur + p.text)
  {
    match p.style
    case Plain => ScanPlain(l, p.text);
    case Double => ScanQuoted(l, p.text);
    case Backslashed => ScanSlashed(l, p.text);
    case Single =>
      var open := l.(quote := In('\''));
      ScanOne(l, '\'');
      ScanSingle(open, p.text);
      ScanOne(open.(cur := l.cur + p.text), '\'');
      hide Scan;
      ScanConcat(l, "'", p.text);
      ScanConcat(l, "'" + p.text, "'");
  }

  lemma ScanNothing(l: Lexer)
    ensures Scan(l, "") == l
  {
  }

  lemma {:induction false} ScanPieces(l: Lexer, pieces: seq<Piece>)
    requires Ready(l) && forall p <- pieces :: Writable(p)
    ensures Scan(l, PiecesText(pieces)) == l.(cur := l.cur + Meant(pieces))
    decreases |pieces|
  {
    hide Scan, Written, Writable;
    if pieces == [] {
      ScanNothing(l);
      assert l.cur + "" == l.cur;
    } else {
      var p, rest := pieces[0], pieces[1..];
      ScanPiece(l, p);
      ScanConcat(l, Written(p), PiecesText(rest));
      ScanPieces(l.(cur := l.cur + p.text), rest);
      assert l.cur + p.text + Meant(rest) == l.cur + Meant(pieces);
    }
  }

  lemma {:induction false} ScanGap(l: Lexer, gap: string)
    requires Ready(l) && GapOk(gap)
    ensures Scan(l, gap) == Flush(l)
    decreases |gap|
  {
    assert Gap(gap[0]);
    var rest := gap[1..];
    assert forall i :: 0 <= i < |rest| ==> rest[i] == gap[i + 1];
    if rest != "" {
      ScanGap(Flush(l), rest);
      assert Flush(Flush(l)) == Flush(l);
    }
  }

  lemma ScanWord(l: Lexer, w: Word)
    requires Ready(l) && WordOk(w)
    ensures var l' := Flush(l).(cur := Meant(w.pieces));
      Scan(l, w.gap + PiecesText(w.pieces)) == l' && Flush(l').tokens == Flush(l).tokens + [Meant(w.pieces)] && Ready(l')
  {
    FlushKeeps(l);
    assert Flush(l).cur + Meant(w.pieces) == Meant(w.pieces);
    FlushToken(l, Meant(w.pieces));
    hide Scan, Meant, PiecesText, GapOk, Writable, Flush;
    ScanGap(l, w.gap);
    ScanPieces(Flush(l), w.pieces);
    ScanConcat(l, w.gap, PiecesText(w.pieces));
  }

  lemma WordsCons(words: seq<Word>, before: seq<string>)
    requires words != []
    ensures WordsText(words) == words[0].gap + PiecesText(words[0].pieces) + WordsText(words[1..])
    ensures before + Means(words) == before + [Meant(words[0].pieces)] + Means(words[1..])
  {
    hide PiecesText, Meant;
  }

  lemma NoWords(before: seq<string>)
    ensures WordsText([]) == "" && before + Means([]) == before
  {
  }

  lemma {:induction false} ScanWords(l: Lexer, words: seq<Word>)
    requires Ready(l) && forall w <- words :: WordOk(w)
    ensures var l' := Scan(l, WordsText(words));
      Ready(l') && Flush(l').tokens == Flush(l).tokens + Means(words)
    decreases |words|
  {
    hide *;
    if words == [] {
      NoWords(Flush(l).tokens);
      ScanNothing(l);
    } else {
      var w, rest := words[0], words[1..];
      ScanWord(l, w);
      WordsCons(words, Flush(l).tokens);
      ScanConcat(l, w.gap + PiecesText(w.pieces), WordsText(rest));
      ScanWords(Flush(l).(cur := Meant(w.pieces)), rest);
    }
  }

  /** Whatever the style of each piece and the gaps between words, a text means the words it was written from. */
  lemma AnyStyle(first: seq<Piece>, words: seq<Word>)
    requires Meant(first) != "" && (forall p <- first :: Writable(p)) && forall w <- words :: WordOk(w)
    ensures Tokens(PiecesText(first) + WordsText(words)) == Ok([Meant(first)] + Means(words))
  {
    var l := Start.(cur := Meant(first));
    assert Start.cur + Meant(first) == Meant(first);
    assert Flush(l).tokens == [Meant(first)];
    hide Scan, PiecesText, WordsText, Means, Meant, Writable, WordOk, Flush;
    ScanPieces(Start, first);
    ScanWords(l, words);
    ScanConcat(Start, PiecesText(first), WordsText(words));
  }

  lemma ScanAll(first: seq<Piece>, words: seq<Word>)
    requires Meant(first) != "" && (forall p <- first :: Writable(p)) && forall w <- words :: WordOk(w)
    ensures Ready(Scan(Start, PiecesText(first) + WordsText(words)))
  {
    var l := Start.(cur := Meant(first));
    assert Start.cur + Meant(first) == Meant(first);
    hide Scan, PiecesText, WordsText, Means, Meant, Writable, WordOk, Flush;
    ScanPieces(Start, first);
    ScanWords(l, words);
    ScanConcat(Start, PiecesText(first), WordsText(words));
  }

  /** A quote that is not closed is an error, whatever stands before it. */
  lemma OpenQuoteFails(first: seq<Piece>, words: seq<Word>, mark: char, rest: string)
    requires Meant(first) != "" && (forall p <- first :: Writable(p)) && forall w <- words :: WordOk(w)
    requires mark == '\'' || mark == '"'
    requires forall i :: 0 <= i < |rest| ==> rest[i] != mark
    ensures Tokens(PiecesText(first) + WordsText(words) + [mark] + rest) == Err(UnterminatedQuote)
  {
    var before := PiecesText(first) + WordsText(words);
    var l := Scan(Start, before);
    ScanAll(first, words);
    ScanOne(l, mark);
    ScanOpen(l.(quote := In(mark)), rest);
    hide Scan, PiecesText, WordsText, Meant, Writable, WordOk;
    ScanConcat(Start, before, [mark]);
    ScanConcat(Start, before + [mark], rest);
  }

  lemma {:induction false} ScanOpen(l: Lexer, s: string)
    requires l.quote.In? && forall i :: 0 <= i < |s| ==> s[i] != l.quote.mark
    ensures Scan(l, s).quote == l.quote
    decreases |s|
  {
    if s != "" {
      assert s[0] != l.quote.mark;
      assert forall i :: 0 <= i < |s[1..]| ==> s[1..][i] == s[i + 1];
      ScanOpen(Next(l, s[0]), s[1..]);
    }
  }

  /** A backslash at the end stands for itself. */
  lemma LastBackslash(first: seq<Piece>)
    requires Meant(first) != "" && forall p <- first :: Writable(p)
    ensures Tokens(PiecesText(first) + "\\") == Ok([Meant(first) + "\\"])
  {
    var l := Start.(cur := Meant(first));
    assert Start.cur + Meant(first) == Meant(first);
    ScanOne(l, '\\');
    assert Flush(l.(cur := l.cur + "\\")).tokens == [Meant(first) + "\\"];
    assert Finish(l.(escaped := true)) == Ok([Meant(first) + "\\"]);
    hide Scan, PiecesText, Meant, Writable;
    ScanPieces(Start, first);
    ScanConcat(Start, PiecesText(first), "\\");
  }

  /** What looks like a path segment: some text without gaps and slashes. */
  lemma SegmentIff(token: string)
    ensures IsSegment(token) <==> token != "" && forall c <- token :: !Gap(c) && c != '/'
  {
    assert forall i :: 0 <= i < |token| ==> token[i] in token;
  }

  /** What follows the path: flags, with a value after an equals sign or as the next token, and arguments. */
  datatype Item =
    | Switch(name: string)
    | Joint(name: string, value: string)
    | Split(name: string, value: string)
    | Arg(text: string)

  function ItemTokens(item: Item): seq<string> {
    match item
    case Switch(name) => ["--" + name]
    case Joint(name, value) => ["--" + name + "=" + value]
    case Split(name, value) => ["--" + name, value]
    case Arg(text) => [text]
  }

  function ItemsTokens(items: seq<Item>): seq<string> {
    if items == [] then [] else ItemTokens(items[0]) + ItemsTokens(items[1..])
  }

  predicate ItemOk(item: Item) {
    match item
    case Switch(name) => name != "" && !Contains(name, '=')
    case Joint(name, value) => name != "" && !Contains(name, '=') && value != ""
    case Split(name, value) => name != "" && !Contains(name, '=') && !HasPrefix(value, "-")
    case Arg(text) => !HasPrefix(text, "-")
  }

  /** A switch is not followed by an argument, which would be its value. */
  predicate ItemsOk(items: seq<Item>) {
    && (forall i :: 0 <= i < |items| ==> ItemOk(items[i]))
    && (forall i :: 0 <= i < |items| - 1 && items[i].Switch? ==> !items[i + 1].Arg?)
  }

  /** The first argument of a command without flags before it does not look like a path segment. */
  predicate Starts(items: seq<Item>) {
    items != [] && items[0].Arg? ==> !IsSegment(items[0].text)
  }

  function Own(item: Item): seq<string> {
    if item.Arg? then [item.text] else []
  }

  function ArgsOf(items: seq<Item>): seq<string> {
    if items == [] then []
    else Own(items[0]) + ArgsOf(items[1..])
  }

  /** Later flags override earlier ones of the same name. */
  function FlagsOf(m: map<string, FlagValue>, items: seq<Item>): map<string, FlagValue>
    decreases |items|
  {
    if items == [] then m
    else
      var m' := match items[0]
        case Switch(name) => m[name := On]
        case Joint(name, value) => m[name := Text(value)]
        case Split(name, value) => m[name := Text(value)]
        case Arg(_) => m;
      FlagsOf(m', items[1..])
  }

  predicate Sets(item: Item, name: string) {
    !item.Arg? && item.name == name
  }

  function ValueOf(item: Item): FlagValue
    requires !item.Arg?
  {
    if item.Switch? then On else Text(item.value)
  }

  predicate SetLast(items: seq<Item>, name: string, i: int) {
    0 <= i < |items| && Sets(items[i], name) && forall j :: i < j < |items| ==> !Sets(items[j], name)
  }

  /** A flag has the value that its last item gives it, and only flags with an item are set. */
  lemma {:induction false} LastItemWins(m: map<string, FlagValue>, items: seq<Item>, name: string)
    ensures var flags := FlagsOf(m, items);
      if exists i :: SetLast(items, name, i) then
        name in flags && forall i :: SetLast(items, name, i) ==> flags[name] == ValueOf(items[i])
      else (name in flags <==> name in m) && (name in m ==> flags[name] == m[name])
    ensures (exists i :: SetLast(items, name, i)) <==> exists i :: 0 <= i < |items| && Sets(items[i], name)
    decreases |items|
  {
    if items != [] {
      var first, rest := items[0], items[1..];
      FlagsCons(m, items);
      LastItemWins(FlagsOf(m, [first]), rest, name);
      assert [first][1..] == [];
      assert forall i :: 0 <= i < |rest| ==> rest[i] == items[i + 1];
      forall i | SetLast(items, name, i) ensures i > 0 ==> SetLast(rest, name, i - 1) {
      }
      if i :| SetLast(rest, name, i) {
        assert SetLast(items, name, i + 1);
      } else if Sets(first, name) {
        assert SetLast(items, name, 0);
      }
    }
  }

  lemma FlagToken(name: string, value: string)
    requires !Contains(name, '=')
    ensures HasPrefix("--" + name, "--") && Cut(("--" + name)[2..]) == (name, "", false)
    ensures HasPrefix("--" + name + "=" + value, "--") && Cut(("--" + name + "=" + value)[2..]) == (name, value, true)
  {
    CutJoined(name, value);
    assert ("--" + name)[2..] == name;
    assert ("--" + name + "=" + value)[2..] == name + "=" + value;
  }

  lemma ParseItem(p: Parser, item: Item, rest: seq<string>)
    requires ItemOk(item)
    requires item.Switch? && rest != [] ==> HasPrefix(rest[0], "-")
    requires item.Arg? ==> p.seenFlag || !IsSegment(item.text)
    ensures ParseRest(p, ItemTokens(item) + rest) == ParseRest(
      p.(args := p.args + Own(item), flags := FlagsOf(p.flags, [item]), seenFlag := true), rest)
  {
    var tokens := ItemTokens(item) + rest;
    assert [item][1..] == [];
    if item.Arg? {
      DashPrefix(item.text);
      assert tokens[1..] == rest;
    } else {
      FlagToken(item.name, if item.Switch? then "" else item.value);
      if item.Split? {
        assert tokens[2..] == rest;
      } else {
        assert tokens[1..] == rest;
      }
      assert p.args + [] == p.args;
    }
    hide Cut, IsSegment, Contains;
  }

  lemma FlagsCons(m: map<string, FlagValue>, items: seq<Item>)
    requires items != []
    ensures FlagsOf(m, items) == FlagsOf(FlagsOf(m, [items[0]]), items[1..])
  {
    assert [items[0]][1..] == [];
  }

  lemma ItemsStart(items: seq<Item>)
    requires items != [] && !items[0].Arg?
    ensures ItemsTokens(items) != [] && HasPrefix(ItemsTokens(items)[0], "-")
  {
  }

  lemma ItemsCons(items: seq<Item>, tail: seq<string>)
    requires items != [] && ItemsOk(items)
    ensures ItemsTokens(items) + tail == ItemTokens(items[0]) + (ItemsTokens(items[1..]) + tail)
    ensures ItemOk(items[0]) && ItemsOk(items[1..])
    ensures items[0].Switch? && items[1..] != [] ==> !items[1].Arg?
  {
    hide ItemTokens, ItemOk;
    assert forall i :: 0 <= i < |items[1..]| ==> items[1..][i] == items[i + 1];
  }

  lemma ArgsCons(items: seq<Item>, before: seq<string>)
    requires items != []
    ensures before + ArgsOf(items) == before + Own(items[0]) + ArgsOf(items[1..])
  {
  }

  /** Items are parsed one after the other, whatever they are. */
  lemma {:induction false} ParseItemsThen(p: Parser, items: seq<Item>, tail: seq<string>)
    requires ItemsOk(items) && (p.seenFlag || Starts(items)) && (tail != [] ==> HasPrefix(tail[0], "-"))
    ensures ParseRest(p, ItemsTokens(items) + tail) == ParseRest(
      p.(args := p.args + ArgsOf(items), flags := FlagsOf(p.flags, items), seenFlag := p.seenFlag || items != []), tail)
    decreases |items|
  {
    hide ParseRest, ItemTokens, ItemOk, IsSegment, Contains;
    if items == [] {
      assert [] + tail == tail;
      assert p.args + [] == p.args;
    } else {
      var item, rest := items[0], items[1..];
      ItemsCons(items, tail);
      FlagsCons(p.flags, items);
      ArgsCons(items, p.args);
      var p' := p.(args := p.args + Own(item), flags := FlagsOf(p.flags, [item]), seenFlag := true);
      FirstOfRest(item, rest, tail);
      hide FlagsOf, ArgsOf, ItemsTokens, ItemsOk, HasPrefix, Own;
      ParseItem(p, item, ItemsTokens(rest) + tail);
      ParseItemsThen(p', rest, tail);
    }
  }

  lemma FirstOfRest(item: Item, rest: seq<Item>, tail: seq<string>)
    requires (rest != [] && item.Switch? ==> !rest[0].Arg?) && (tail != [] ==> HasPrefix(tail[0], "-"))
    ensures var tokens := ItemsTokens(rest) + tail; item.Switch? && tokens != [] ==> HasPrefix(tokens[0], "-")
  {
    if rest != [] && item.Switch? {
      ItemsStart(rest);
      hide HasPrefix;
    }
  }

  lemma ParseItems(p: Parser, items: seq<Item>)
    requires ItemsOk(items) && (p.seenFlag || Starts(items))
    ensures ParseRest(p, ItemsTokens(items)) == Ok(
      p.(args := p.args + ArgsOf(items), flags := FlagsOf(p.flags, items), seenFlag := p.seenFlag || items != []))
  {
    hide ParseRest, FlagsOf, ItemsTokens, ItemsOk, ArgsOf, IsSegment;
    ParseItemsThen(p, items, []);
    ParseNothing(p.(args := p.args + ArgsOf(items), flags := FlagsOf(p.flags, items), seenFlag := p.seenFlag || items != []));
    assert ItemsTokens(items) + [] == ItemsTokens(items);
  }

  /** The tokens of a command: the path, then its items. */
  function CommandTokens(root: string, segments: seq<string>, items: seq<Item>): seq<string> {
    ["/" + root] + segments + ItemsTokens(items)
  }

  ghost predicate CommandOk(root: string, segments: seq<string>, items: seq<Item>) {
    && root != "" && !Contains(root, '/')
    && (forall s <- segments :: PathSegment(s))
    && ItemsOk(items) && Starts(items)
  }

  function Meaning(root: string, segments: seq<string>, items: seq<Item>): Invocation {
    Invocation([root] + segments, ArgsOf(items), FlagsOf(map[], items))
  }

  lemma {:induction false} FirstTokenSlash(l: Lexer, input: string)
    requires if l.tokens == [] then l.cur != "" && l.cur[0] == '/' else l.tokens[0] != "" && l.tokens[0][0] == '/'
    ensures var l' := Scan(l, input);
      if l'.tokens == [] then l'.cur != "" && l'.cur[0] == '/' else l'.tokens[0] != "" && l'.tokens[0][0] == '/'
    decreases |input|
  {
    if input != "" {
      FirstTokenSlash(Next(l, input[0]), input[1..]);
    }
  }

  lemma FirstToken(text: string)
    requires HasPrefix(text, "/") && Tokens(text).Ok?
    ensures Tokens(text).value != [] && HasPrefix(Tokens(text).value[0], "/")
  {
    assert text == "/" + text[1..];
    ScanConcat(Start, "/", text[1..]);
    ScanSlash();
    FirstTokenSlash(Lexer([], "/", Unquoted, false), text[1..]);
    hide Scan;
  }

  function Begun(root: string): Parser {
    Parser([root], [], map[], false)
  }

  lemma ParseBegins(text: string)
    requires HasPrefix(TrimSpace(text), "/") && Tokens(TrimSpace(text)).Ok?
    ensures var tokens := Tokens(TrimSpace(text)).value;
      && tokens != [] && HasPrefix(tokens[0], "/")
      && var root := tokens[0][1..];
      if root == "" then Parse(text) == Err(EmptyPath)
      else if root[0] == '/' then Parse(text) == Err(EmptySegment)
      else if Contains(root, '/') then Parse(text) == Err(SlashInSegment)
      else
        && tokens == ["/" + root] + tokens[1..]
        && var r := ParseRest(Begun(root), tokens[1..]);
        Parse(text) == if r.Ok? then Ok(Some(Invocation(r.value.path, r.value.args, r.value.flags))) else Err(r.error)
  {
    var trimmed := TrimSpace(text);
    FirstToken(trimmed);
    var first := Tokens(trimmed).value[0];
    assert first == "/" + first[1..];
    assert first[1..] == "" ==> first == "/";
    hide ParseRest, Tokens, TrimSpace;
  }

  lemma ParseCommand(root: string, segments: seq<string>, items: seq<Item>)
    requires CommandOk(root, segments, items)
    ensures var r := ParseRest(Begun(root), segments + ItemsTokens(items));
      r.Ok? && Invocation(r.value.path, r.value.args, r.value.flags) == Meaning(root, segments, items)
  {
    var p := Begun(root);
    ParsePath(p, segments, ItemsTokens(items));
    ParseItems(p.(path := [root] + segments), items);
    assert [] + ArgsOf(items) == ArgsOf(items);
    hide ParseRest, ItemsOk, FlagsOf, IsSegment;
  }

  /** A text whose tokens are those of a command means that command. */
  lemma TokensMean(text: string, root: string, segments: seq<string>, items: seq<Item>)
    requires CommandOk(root, segments, items) && HasPrefix(TrimSpace(text), "/")
    requires Tokens(TrimSpace(text)) == Ok(CommandTokens(root, segments, items))
    ensures Parse(text) == Ok(Some(Meaning(root, segments, items)))
  {
    var tokens := CommandTokens(root, segments, items);
    assert tokens[1..] == segments + ItemsTokens(items) && tokens[0] == "/" + root && tokens[0][1..] == root;
    assert root != "" && !Contains(root, '/') && root[0] != '/';
    ParseBegins(text);
    ParseCommand(root, segments, items);
    hide *;
  }

  lemma CommandTokensAre(root: string, segments: seq<string>, items: seq<Item>)
    ensures CommandTokens(root, segments, items) == ["/" + root] + (segments + ItemsTokens(items))
  {
  }

  /**
   * However a command is written — quotes, backslashes, gaps, blanks around it, values joined to their flags
   * or not, flags and arguments in any order — it means its path, its arguments in order, and its flags.
   */
  lemma AnySpelling(text: string, first: seq<Piece>, words: seq<Word>, root: string, segments: seq<string>, items: seq<Item>)
    requires CommandOk(root, segments, items)
    requires Meant(first) == "/" + root && Means(words) == segments + ItemsTokens(items)
    requires (forall p <- first :: Writable(p)) && forall w <- words :: WordOk(w)
    requires TrimSpace(text) == PiecesText(first) + WordsText(words) && HasPrefix(TrimSpace(text), "/")
    ensures Parse(text) == Ok(Some(Meaning(root, segments, items)))
  {
    hide *;
    AnyStyle(first, words);
    CommandTokensAre(root, segments, items);
    TokensMean(text, root, segments, items);
  }

  /** A value after its flag means the same as one joined to it. */
  lemma SplitMeansJoint(root: string, segments: seq<string>, before: seq<Item>, name: string, value: string, after: seq<Item>)
    ensures Meaning(root, segments, before + [Split(name, value)] + after)
            == Meaning(root, segments, before + [Joint(name, value)] + after)
  {
    SameMeaning(map[], before, Split(name, value), Joint(name, value), after);
  }

  lemma {:induction false} SameMeaning(m: map<string, FlagValue>, before: seq<Item>, a: Item, b: Item, after: seq<Item>)
    requires !a.Arg? && !b.Arg? && forall n :: FlagsOf(n, [a]) == FlagsOf(n, [b])
    ensures ArgsOf(before + [a] + after) == ArgsOf(before + [b] + after)
    ensures FlagsOf(m, before + [a] + after) == FlagsOf(m, before + [b] + after)
    decreases |before|
  {
    var x, y := before + [a] + after, before + [b] + after;
    FlagsCons(m, x);
    FlagsCons(m, y);
    if before == [] {
      assert x[1..] == after && y[1..] == after;
    } else {
      assert x[1..] == before[1..] + [a] + after && y[1..] == before[1..] + [b] + after;
      SameMeaning(FlagsOf(m, [before[0]]), before[1..], a, b, after);
    }
  }

  /** A token that no command goes on with, and the error it means. */
  ghost predicate Offends(token: string, error: ParseError) {
    || (error.EmptyFlagName? && (token == "--" || HasPrefix(token, "--=")))
    || (error.EmptyFlagValue? && exists name :: Valueless(token, name))
    || (error.UnsupportedFlag? && HasPrefix(token, "-") && !HasPrefix(token, "--"))
  }

  predicate Valueless(token: string, name: string) {
    name != "" && !Contains(name, '=') && token == "--" + name + "="
  }

  lemma OffendingParse(p: Parser, token: string, tail: seq<string>, error: ParseError)
    requires Offends(token, error)
    ensures ParseRest(p, [token] + tail) == Err(error) && HasPrefix(token, "-")
  {
    if error.EmptyFlagName? {
      assert token == "--" + token[2..];
      assert token != "--" ==> token[2] == '=';
    } else if error.EmptyFlagValue? {
      var name :| Valueless(token, name);
      CutJoined(name, "");
      assert token[2..] == name + "=" + "";
      assert token == "--" + token[2..];
    }
  }

  ghost predicate AreItems(tokens: seq<string>, items: seq<Item>) {
    tokens == ItemsTokens(items) && ItemsOk(items)
  }

  lemma ConsItem(item: Item, rest: seq<string>, taken: seq<string>, more: seq<Item>)
    requires ItemOk(item) && AreItems(taken, more) && taken <= rest
    requires item.Switch? && rest != [] ==> HasPrefix(rest[0], "-")
    ensures AreItems(ItemTokens(item) + taken, [item] + more)
  {
    var items := [item] + more;
    assert items[1..] == more && forall i :: 0 <= i < |more| ==> items[i + 1] == more[i];
    if more != [] && more[0].Arg? {
      assert ItemOk(more[0]) && rest[0] == taken[0] == more[0].text;
    }
    hide ItemOk;
  }

  lemma NoItems()
    ensures AreItems([], [])
  {
  }

  /** What the cut says of a token with two dashes: its name and value, or that it offends. */
  lemma FlagShape(token: string)
    requires HasPrefix(token, "--")
    ensures var (name, value, hasValue) := Cut(token[2..]);
      && !Contains(name, '=')
      && token == (if hasValue then "--" + name + "=" + value else "--" + name)
      && (name == "" ==> Offends(token, EmptyFlagName))
      && (name != "" && hasValue && value == "" ==> Offends(token, EmptyFlagValue))
  {
    CutSpec(token[2..]);
    var (name, value, hasValue) := Cut(token[2..]);
    assert token == "--" + token[2..];
    if hasValue {
      assert token == "--" + name + "=" + value;
      assert value == "" && name != "" ==> Valueless(token, name);
      assert name == "" ==> HasPrefix(token, "--=");
    }
    hide Cut, Contains;
  }

  /** Tokens that no error stops begin with an item. */
  lemma FirstItem(p: Parser, tokens: seq<string>) returns (item: Item, rest: seq<string>, p': Parser)
    requires tokens != [] && forall error :: !Offends(tokens[0], error)
    requires p.seenFlag || HasPrefix(tokens[0], "-") || !IsSegment(tokens[0])
    ensures tokens == ItemTokens(item) + rest && ItemOk(item)
    ensures p'.seenFlag && ParseRest(p', rest) == ParseRest(p, tokens)
    ensures item.Switch? && rest != [] ==> HasPrefix(rest[0], "-")
    ensures item.Arg? ==> item.text == tokens[0]
  {
    var token := tokens[0];
    assert tokens == [token] + tokens[1..];
    assert !Offends(token, UnsupportedFlag);
    hide IsSegment, Contains;
    if HasPrefix(token, "--") {
      FlagShape(token);
      hide Offends;
      var (name, value, hasValue) := Cut(token[2..]);
      if hasValue {
        item, rest, p' := Joint(name, value), tokens[1..], p.(flags := p.flags[name := Text(value)], seenFlag := true);
      } else if |tokens| > 1 && !HasPrefix(tokens[1], "-") {
        assert tokens == [token, tokens[1]] + tokens[2..];
        item, rest, p' := Split(name, tokens[1]), tokens[2..], p.(flags := p.flags[name := Text(tokens[1])], seenFlag := true);
      } else {
        item, rest, p' := Switch(name), tokens[1..], p.(flags := p.flags[name := On], seenFlag := true);
      }
    } else {
      item, rest, p' := Arg(token), tokens[1..], p.(args := p.args + [token], seenFlag := true);
    }
    hide Cut;
  }

  /** The tokens before the end or before an offending one are items. */
  ghost predicate Stops(p: Parser, tail: seq<string>, r: Result<Parser, ParseError>) {
    if r.Ok? then tail == [] else tail != [] && Offends(tail[0], r.error)
  }

  /** Once a flag was seen, tokens are items up to the end or to the token that offends. */
  lemma {:induction false} RestIsItems(p: Parser, tokens: seq<string>)
      returns (taken: seq<string>, items: seq<Item>, tail: seq<string>)
    requires p.seenFlag
    ensures tokens == taken + tail && AreItems(taken, items) && Stops(p, tail, ParseRest(p, tokens))
    decreases |tokens|
  {
    hide AreItems, IsSegment, Contains, Cut, Offends;
    if tokens == [] {
      taken, items, tail := [], [], [];
      NoItems();
    } else if error :| Offends(tokens[0], error) {
      taken, items, tail := [], [], tokens;
      NoItems();
      assert tokens == [tokens[0]] + tokens[1..];
      OffendingParse(p, tokens[0], tokens[1..], error);
    } else {
      var item, rest, p' := FirstItem(p, tokens);
      taken, items, tail := RestIsItems(p', rest);
      ConsItem(item, rest, taken, items);
      assert tokens == ItemTokens(item) + taken + tail;
      taken, items := ItemTokens(item) + taken, [item] + items;
    }
  }

  /** Path segments, then items, then a tail. */
  ghost predicate Shaped(tokens: seq<string>, segments: seq<string>, items: seq<Item>, tail: seq<string>) {
    && tokens == segments + ItemsTokens(items) + tail && ItemsOk(items) && Starts(items)
    && forall s <- segments :: PathSegment(s)
  }

  lemma TailShaped(tail: seq<string>)
    ensures Shaped(tail, [], [], tail)
  {
    assert [] + [] + tail == tail;
  }

  lemma ItemsShaped(taken: seq<string>, items: seq<Item>, tail: seq<string>)
    requires AreItems(taken, items) && Starts(items)
    ensures Shaped(taken + tail, [], items, tail)
  {
    assert [] + taken + tail == taken + tail;
    hide ItemsOk, ItemsTokens, IsSegment;
  }

  lemma SegmentShaped(s: string, tokens: seq<string>, segments: seq<string>, items: seq<Item>, tail: seq<string>)
    requires Shaped(tokens, segments, items, tail) && PathSegment(s)
    ensures Shaped([s] + tokens, [s] + segments, items, tail)
  {
    hide ItemsOk, ItemsTokens, IsSegment, PathSegment;
    assert [s] + (segments + ItemsTokens(items) + tail) == [s] + segments + ItemsTokens(items) + tail;
  }

  lemma ParseSegment(p: Parser, token: string, rest: seq<string>)
    requires !p.seenFlag && IsSegment(token) && !HasPrefix(token, "-")
    ensures ParseRest(p, [token] + rest) == ParseRest(p.(path := p.path + [token]), rest) && PathSegment(token)
  {
    DashPrefix(token);
    NoSlash(token);
    assert ([token] + rest)[1..] == rest;
    hide IsSegment;
  }

  /** The tokens after the root are path segments, then items, up to the end or to the token that offends. */
  lemma {:induction false} RestIsCommand(p: Parser, tokens: seq<string>)
      returns (segments: seq<string>, items: seq<Item>, tail: seq<string>)
    requires !p.seenFlag
    ensures Shaped(tokens, segments, items, tail) && Stops(p, tail, ParseRest(p, tokens))
    decreases |tokens|
  {
    hide IsSegment, Offends, Shaped, AreItems, HasPrefix, PathSegment;
    if tokens == [] {
      segments, items, tail := [], [], [];
      TailShaped([]);
    } else if error :| Offends(tokens[0], error) {
      hide ParseRest;
      segments, items, tail := [], [], tokens;
      assert tokens == [tokens[0]] + tokens[1..];
      OffendingParse(p, tokens[0], tokens[1..], error);
      TailShaped(tokens);
    } else if HasPrefix(tokens[0], "-") || !IsSegment(tokens[0]) {
      hide ParseRest;
      segments := [];
      var item, rest, p' := FirstItem(p, tokens);
      var taken, more;
      taken, more, tail := RestIsItems(p', rest);
      ConsItem(item, rest, taken, more);
      items := [item] + more;
      assert tokens == (ItemTokens(item) + taken) + tail;
      ItemsShaped(ItemTokens(item) + taken, items, tail);
    } else {
      hide ParseRest;
      assert tokens == [tokens[0]] + tokens[1..];
      ParseSegment(p, tokens[0], tokens[1..]);
      var others;
      others, items, tail := RestIsCommand(p.(path := p.path + [tokens[0]]), tokens[1..]);
      segments := [tokens[0]] + others;
      SegmentShaped(tokens[0], tokens[1..], others, items, tail);
    }
  }

  lemma NoSlash(token: string)
    requires IsSegment(token)
    ensures ValidateSegment(token).None?
  {
  }

  /** The text is written as a command: its tokens are a root with a slash, path segments, and items. */
  ghost predicate IsCommand(text: string, root: string, segments: seq<string>, items: seq<Item>) {
    CommandOk(root, segments, items) && Tokens(TrimSpace(text)) == Ok(CommandTokens(root, segments, items))
  }

  /** The grammar is exact: a text is an invocation if and only if it is written as a command with that meaning. */
  lemma GrammarExact(text: string, inv: Invocation)
    ensures Parse(text) == Ok(Some(inv)) <==>
      HasPrefix(TrimSpace(text), "/")
      && exists root, segments, items :: IsCommand(text, root, segments, items) && inv == Meaning(root, segments, items)
  {
    if Parse(text) == Ok(Some(inv)) {
      var trimmed := TrimSpace(text);
      FirstToken(trimmed);
      var tokens := Tokens(trimmed).value;
      var root := tokens[0][1..];
      var segments, items, tail := RestIsCommand(Begun(root), tokens[1..]);
      assert tokens[0] == "/" + root;
      assert segments + ItemsTokens(items) + [] == segments + ItemsTokens(items);
      assert tokens == CommandTokens(root, segments, items);
      TokensMean(text, root, segments, items);
      hide ParseRest, Tokens, TrimSpace, CommandTokens, ItemsOk, IsSegment;
      assert IsCommand(text, root, segments, items);
    }
    if HasPrefix(TrimSpace(text), "/") {
      if root, segments, items :| IsCommand(text, root, segments, items) && inv == Meaning(root, segments, items) {
        TokensMean(text, root, segments, items);
      }
    }
  }

  /** A command is followed by a token that offends. */
  ghost predicate GoesWrong(text: string, root: string, segments: seq<string>, items: seq<Item>, tail: seq<string>,
                            error: ParseError) {
    && CommandOk(root, segments, items) && tail != [] && Offends(tail[0], error)
    && Tokens(TrimSpace(text)) == Ok(CommandTokens(root, segments, items) + tail)
  }

  /** What is wrong with the text, from its first token or from the first one that offends. */
  ghost predicate Wrong(text: string, error: ParseError) {
    var r := Tokens(TrimSpace(text));
    if r.Err? then error == UnterminatedQuote
    else
      && r.value != [] && HasPrefix(r.value[0], "/")
      && var root := r.value[0][1..];
      if root == "" then error == EmptyPath
      else if root[0] == '/' then error == EmptySegment
      else if Contains(root, '/') then error == SlashInSegment
      else exists segments, items, tail :: GoesWrong(text, root, segments, items, tail, error)
  }

  lemma StopsAt(p: Parser, segments: seq<string>, items: seq<Item>, tail: seq<string>, error: ParseError)
    requires !p.seenFlag && ItemsOk(items) && Starts(items) && (forall s <- segments :: PathSegment(s))
    requires tail != [] && Offends(tail[0], error)
    ensures ParseRest(p, segments + ItemsTokens(items) + tail) == Err(error)
  {
    hide *;
    var p1 := p.(path := p.path + segments);
    ParsePath(p, segments, ItemsTokens(items) + tail);
    assert segments + ItemsTokens(items) + tail == segments + (ItemsTokens(items) + tail);
    var p2 := p1.(args := p1.args + ArgsOf(items), flags := FlagsOf(p1.flags, items), seenFlag := p1.seenFlag || items != []);
    assert tail == [tail[0]] + tail[1..];
    OffendingParse(p2, tail[0], tail[1..], error);
    ParseItemsThen(p1, items, tail);
  }

  lemma RestGoesWrong(text: string, root: string, tokens: seq<string>, error: ParseError)
    requires root != "" && !Contains(root, '/') && Tokens(TrimSpace(text)) == Ok(["/" + root] + tokens)
    ensures ParseRest(Begun(root), tokens) == Err(error)
            <==> exists segments, items, tail :: GoesWrong(text, root, segments, items, tail, error)
  {
    hide Tokens, TrimSpace, ParseRest, Offends, PathSegment, ItemsTokens, ItemsOk, Starts, Contains;
    if ParseRest(Begun(root), tokens) == Err(error) {
      var segments, items, tail := RestIsCommand(Begun(root), tokens);
      assert ["/" + root] + (segments + ItemsTokens(items) + tail) == CommandTokens(root, segments, items) + tail;
      assert GoesWrong(text, root, segments, items, tail, error);
    }
    if segments, items, tail :| GoesWrong(text, root, segments, items, tail, error) {
      var all := segments + ItemsTokens(items) + tail;
      assert ["/" + root] + all == CommandTokens(root, segments, items) + tail;
      assert tokens == (["/" + root] + tokens)[1..] && all == (["/" + root] + all)[1..];
      StopsAt(Begun(root), segments, items, tail, error);
    }
  }

  /** The errors are exact, too. */
  lemma ErrorsExact(text: string, error: ParseError)
    ensures Parse(text) == Err(error) <==> HasPrefix(TrimSpace(text), "/") && Wrong(text, error)
  {
    var trimmed := TrimSpace(text);
    if HasPrefix(trimmed, "/") && Tokens(trimmed).Ok? {
      ParseBegins(text);
      var tokens := Tokens(trimmed).value;
      var root := tokens[0][1..];
      hide Parse, ParseRest, GoesWrong, Tokens, TrimSpace;
      if root != "" && root[0] != '/' && !Contains(root, '/') {
        RestGoesWrong(text, root, tokens[1..], error);
      }
    } else {
      UnterminatedOnly(trimmed);
      hide Tokens, TrimSpace, GoesWrong;
    }
  }

  /** Only a text without a slash in front is not meant as a command. */
  lemma NoCommandIff(text: string)
    ensures Parse(text) == Ok(None) <==> !HasPrefix(TrimSpace(text), "/")
  {
    if HasPrefix(TrimSpace(text), "/") && Tokens(TrimSpace(text)).Ok? {
      ParseBegins(text);
    }
    hide Tokens, TrimSpace, ParseRest;
  }

  lemma UnterminatedOnly(text: string)
    ensures Tokens(text).Err? ==> Tokens(text).error == UnterminatedQuote
  {
  }
}
