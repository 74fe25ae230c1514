/** Removing comments from JSON with comments, without touching string literals
    (`strip_jsonc_comments` of rust/src/discovery/sources/mod.rs). */
module Jsonc {

  // ---- the scan ----

  predicate Opens(s: string, c: char) {
    |s| >= 2 && s[0] == '/' && s[1] == c
  }

  function StripCode(s: string): string
    decreases |s|
  {
    if s == [] then []
    else if s[0] == '"' then [s[0]] + StripString(s[1..], false)
    else if Opens(s, '/') then StripLine(s[2..])
    else if Opens(s, '*') then StripBlock(s[2..], '\0')
    else [s[0]] + StripCode(s[1..])
  }

  function StripString(s: string, escaped: bool): string
    decreases |s|
  {
    if s == [] then []
    else if !escaped && s[0] == '"' then [s[0]] + StripCode(s[1..])
    else [s[0]] + StripString(s[1..], !escaped && s[0] == '\\')
  }

  function StripLine(s: string): string
    decreases |s|
  {
    if s == [] then [] else if s[0] == '\n' then ['\n'] + StripCode(s[1..]) else StripLine(s[1..])
  }

  function StripBlock(s: string, prev: char): string
    decreases |s|
  {
    if s == [] then [] else if prev == '*' && s[0] == '/' then StripCode(s[1..]) else StripBlock(s[1..], s[0])
  }

  /** The inner loop of a line comment: to the newline, which is kept, or to the end. */
  method SkipLine(input: string, start: nat) returns (pos: nat, newline: bool)
    requires start <= |input|
    ensures start <= pos <= |input|
    ensures StripLine(input[start..]) == if newline then ['\n'] + StripCode(input[pos..]) else StripCode(input[pos..])
  {
    pos := start;
    while pos < |input|
      invariant start <= pos <= |input|
      invariant StripLine(input[start..]) == StripLine(input[pos..])
    {
      assert input[pos..][1..] == input[pos + 1..];
      if input[pos] == '\n' {
        return pos + 1, true;
      }
      pos := pos + 1;
    }
    newline := false;
  }

  /** The inner loop of a block comment: past its first closer, or to the end. */
  method SkipBlock(input: string, start: nat) returns (pos: nat)
    requires start <= |input|
    ensures start <= pos <= |input|
    ensures StripBlock(input[start..], '\0') == StripCode(input[pos..])
  {
    var prev := '\0';
    pos := start;
    while pos < |input|
      invariant start <= pos <= |input|
      invariant StripBlock(input[start..], '\0') == StripBlock(input[pos..], prev)
    {
      assert input[pos..][1..] == input[pos + 1..];
      var next := input[pos];
      pos := pos + 1;
      if prev == '*' && next == '/' {
        return;
      }
      prev := next;
    }
  }

  /** One pass over the characters, with a loop of its own for each kind of comment. */
  method StripJsoncComments(input: string) returns (out: string)
    ensures out == StripCode(input)
  {
    out := [];
    var inString, escaped := false, false;
    var pos := 0;
    while pos < |input|
      invariant Stripped(input, pos, out, inString, escaped)
    {
      var ch := input[pos];
      if inString {
        Copied(input, pos, out, inString, escaped);
        out := out + [ch];
        pos := pos + 1;
        if escaped {
          escaped := false;
        } else if ch == '\\' {
          escaped := true;
        } else if ch == '"' {
          inString := false;
        }
      } else if ch == '"' {
        Copied(input, pos, out, inString, escaped);
        inString := true;
        out := out + [ch];
        pos := pos + 1;
      } else if ch == '/' && pos + 1 < |input| && input[pos + 1] == '/' {
        ghost var start := pos;
        var newline;
        pos, newline := SkipLine(input, pos + 2);
        Skipped(input, start, out, pos, newline);
        if newline {
          out := out + ['\n'];
        }
      } else if ch == '/' && pos + 1 < |input| && input[pos + 1] == '*' {
        ghost var start := pos;
        pos := SkipBlock(input, pos + 2);
        Skipped(input, start, out, pos, false);
      } else {
        Copied(input, pos, out, inString, escaped);
        out := out + [ch];
        pos := pos + 1;
      }
    }
  }

  /** After `pos` characters `out` has been written, and what is left to write is what the
      rest of the input strips to. */
  ghost predicate Stripped(input: string, pos: nat, out: string, inString: bool, escaped: bool) {
    && pos <= |input| && (escaped ==> inString)
    && out + Rest(input[pos..], inString, escaped) == StripCode(input)
  }

  lemma Copied(input: string, pos: nat, out: string, inString: bool, escaped: bool)
    requires pos < |input| && Stripped(input, pos, out, inString, escaped)
    requires inString || (!Opens(input[pos..], '/') && !Opens(input[pos..], '*'))
    ensures var ch := input[pos];
            Stripped(input, pos + 1, out + [ch], if inString then escaped || ch != '"' else ch == '"',
                     inString && !escaped && ch == '\\')
  {
    var here, ch := input[pos..], input[pos];
    var rest := Rest(input[pos + 1..], if inString then escaped || ch != '"' else ch == '"',
                     inString && !escaped && ch == '\\');
    assert here[1..] == input[pos + 1..];
    FirstKept(here, inString, escaped);
    assert out + ([ch] + rest) == (out + [ch]) + rest;
  }

  lemma FirstKept(s: string, inString: bool, escaped: bool)
    requires s != [] && (escaped ==> inString)
    requires inString || (!Opens(s, '/') && !Opens(s, '*'))
    ensures Rest(s, inString, escaped) ==
            [s[0]] + Rest(s[1..], if inString then escaped || s[0] != '"' else s[0] == '"',
                          inString && !escaped && s[0] == '\\')
  {
  }

  lemma Skipped(input: string, pos: nat, out: string, next: nat, newline: bool)
    requires pos + 2 <= next <= |input| && Stripped(input, pos, out, false, false)
    requires
      var code := (if newline then ['\n'] else []) + StripCode(input[next..]);
      if Opens(input[pos..], '/') then StripLine(input[pos + 2..]) == code
      else Opens(input[pos..], '*') && StripBlock(input[pos + 2..], '\0') == code
    ensures Stripped(input, next, if newline then out + ['\n'] else out, false, false)
  {
    var here, rest := input[pos..], StripCode(input[next..]);
    assert here[2..] == input[pos + 2..];
    assert StripCode(here) == (if newline then ['\n'] else []) + rest;
    assert out + (['\n'] + rest) == (out + ['\n']) + rest;
  }

  function Rest(s: string, inString: bool, escaped: bool): string {
    if inString then StripString(s, escaped) else StripCode(s)
  }

  // ---- lexical structure ----

  datatype Item = Char(c: char) | Escape(c: char)

  /** The tokens of a text: characters outside strings and comments, string literals, and
      comments. The last three are cut off by the end of the text. */
  datatype Token =
    | Plain(c: char)
    | Literal(body: seq<Item>)
    | Line(text: string)
    | Block(text: string)
    | OpenLiteral(body: seq<Item>, dangling: bool)
    | OpenLine(text: string)
    | OpenBlock(text: string)

  function ItemText(i: Item): string {
    match i case Char(c) => [c] case Escape(c) => ['\\', c]
  }

  function Body(items: seq<Item>): string {
    if items == [] then [] else ItemText(items[0]) + Body(items[1..])
  }

  function Text(t: Token): string {
    match t
    case Plain(c) => [c]
    case Literal(body) => "\"" + Body(body) + "\""
    case Line(text) => "//" + text + "\n"
    case Block(text) => "/*" + text + "*/"
    case OpenLiteral(body, dangling) => "\"" + Body(body) + if dangling then "\\" else ""
    case OpenLine(text) => "//" + text
    case OpenBlock(text) => "/*" + text
  }

  function Render(ts: seq<Token>): string {
    if ts == [] then [] else Text(ts[0]) + Render(ts[1..])
  }

  /** What is left of a token without comments: the newline of a line comment stays. */
  function Kept(t: Token): seq<Token> {
    match t
    case Line(_) => [Plain('\n')]
    case Block(_) => []
    case OpenLine(_) => []
    case OpenBlock(_) => []
    case _ => [t]
  }

  function WithoutComments(ts: seq<Token>): seq<Token> {
    if ts == [] then [] else Kept(ts[0]) + WithoutComments(ts[1..])
  }

  predicate IsOpen(t: Token) {
    t.OpenLiteral? || t.OpenLine? || t.OpenBlock?
  }

  predicate IsComment(t: Token) {
    t.Line? || t.Block? || t.OpenLine? || t.OpenBlock?
  }

  /** A block comment ends at the first star and slash. */
  predicate NoCloser(s: string) {
    forall i | 0 <= i < |s| - 1 :: !(s[i] == '*' && s[i + 1] == '/')
  }

  predicate TokenOk(t: Token) {
    match t
    case Plain(c) => c != '"'
    case Literal(body) => forall i | 0 <= i < |body| && body[i].Char? :: body[i].c != '"' && body[i].c != '\\'
    case OpenLiteral(body, _) => forall i | 0 <= i < |body| && body[i].Char? :: body[i].c != '"' && body[i].c != '\\'
    case Line(text) => '\n' !in text
    case OpenLine(text) => '\n' !in text
    case Block(text) => NoCloser(text)
    case OpenBlock(text) => NoCloser(text)
  }

  /** A sequence of tokens that is read as written: only the last is cut off, and no slash of
      its own runs into a character that would make it a comment. */
  predicate WellFormed(ts: seq<Token>) {
    ts == [] ||
    (&& TokenOk(ts[0])
     && WellFormed(ts[1..])
     && (IsOpen(ts[0]) ==> |ts| == 1)
     && (ts[0] == Plain('/') && |ts| > 1 ==> !IsComment(ts[1]) && ts[1] != Plain('/') && ts[1] != Plain('*')))
  }

  // ---- stripping follows the structure ----

  /** Stripping a text removes its comments and leaves everything else as it was written. */
  lemma {:induction false} StripKeepsStructure(ts: seq<Token>)
    requires WellFormed(ts)
    ensures StripCode(Render(ts)) == Render(WithoutComments(ts))
    decreases |ts|
  {
    if ts != [] {
      if ts[0].Plain? {
        PlainDoesNotOpen(ts);
      }
      TokenStripped(ts[0], Render(ts[1..]));
      StripKeepsStructure(ts[1..]);
      RenderJoins(Kept(ts[0]), WithoutComments(ts[1..]));
    }
  }

  lemma {:induction false} RenderJoins(ts: seq<Token>, us: seq<Token>)
    ensures Render(ts + us) == Render(ts) + Render(us)
    decreases |ts|
  {
    if ts == [] {
      assert ts + us == us;
    } else {
      assert (ts + us)[1..] == ts[1..] + us;
      RenderJoins(ts[1..], us);
    }
  }

  lemma PlainDoesNotOpen(ts: seq<Token>)
    requires WellFormed(ts) && ts != [] && ts[0].Plain?
    ensures !Opens([ts[0].c] + Render(ts[1..]), '/') && !Opens([ts[0].c] + Render(ts[1..]), '*')
  {
    if |ts| > 1 {
      assert Render(ts[1..])[0] == Text(ts[1])[0];
    }
  }

  /** One token, and whatever follows it. */
  lemma TokenStripped(t: Token, rest: string)
    requires TokenOk(t) && (IsOpen(t) ==> rest == [])
    requires t.Plain? ==> !Opens([t.c] + rest, '/') && !Opens([t.c] + rest, '*')
    ensures StripCode(Text(t) + rest) == Render(Kept(t)) + StripCode(rest)
  {
    RenderOne(Kept(t));
    match t {
      case Plain(c) => assert ([c] + rest)[1..] == rest;
      case Literal(body) => LiteralStripped(body, rest);
      case OpenLiteral(body, dangling) => OpenLiteralStripped(body, dangling);
      case Line(text) => LineStripped(text, rest);
      case OpenLine(text) => OpenLineStripped(text);
      case Block(text) => BlockStripped(text, rest);
      case OpenBlock(text) => OpenBlockStripped(text);
    }
    if IsOpen(t) {
      assert Text(t) + rest == Text(t);
    }
  }

  lemma RenderOne(ts: seq<Token>)
    requires |ts| <= 1
    ensures Render(ts) == if ts == [] then [] else Text(ts[0])
  {
  }

  lemma LiteralStripped(body: seq<Item>, rest: string)
    requires TokenOk(Literal(body))
    ensures StripCode(Text(Literal(body)) + rest) == Text(Literal(body)) + StripCode(rest)
  {
    QuoteOpens(Body(body) + "\"", rest);
    LiteralKept(body, rest);
    assert Text(Literal(body)) + rest == "\"" + (Body(body) + "\"") + rest;
  }

  lemma OpenLiteralStripped(body: seq<Item>, dangling: bool)
    requires TokenOk(OpenLiteral(body, dangling))
    ensures StripCode(Text(OpenLiteral(body, dangling))) == Text(OpenLiteral(body, dangling))
  {
    var inner := Body(body) + if dangling then "\\" else "";
    assert Text(OpenLiteral(body, dangling)) == "\"" + inner + [] && inner + [] == inner;
    QuoteOpens(inner, []);
    OpenLiteralKept(body, dangling);
  }

  lemma LineStripped(text: string, rest: string)
    requires TokenOk(Line(text))
    ensures StripCode(Text(Line(text)) + rest) == "\n" + StripCode(rest)
  {
    assert Text(Line(text)) + rest == ['/', '/'] + (text + "\n") + rest;
    SlashesOpen('/', text + "\n", rest);
    LineDropped(text, rest);
  }

  lemma OpenLineStripped(text: string)
    requires TokenOk(OpenLine(text))
    ensures StripCode(Text(OpenLine(text))) == []
  {
    assert Text(OpenLine(text)) == ['/', '/'] + text + [] && text + [] == text;
    SlashesOpen('/', text, []);
    OpenLineDropped(text);
  }

  lemma BlockStripped(text: string, rest: string)
    requires TokenOk(Block(text))
    ensures StripCode(Text(Block(text)) + rest) == StripCode(rest)
  {
    assert Text(Block(text)) + rest == ['/', '*'] + (text + "*/") + rest;
    SlashesOpen('*', text + "*/", rest);
    BlockDropped(text, rest, '\0');
  }

  lemma OpenBlockStripped(text: string)
    requires TokenOk(OpenBlock(text))
    ensures StripCode(Text(OpenBlock(text))) == []
  {
    assert Text(OpenBlock(text)) == ['/', '*'] + text + [] && text + [] == text;
    SlashesOpen('*', text, []);
    OpenBlockDropped(text, '\0');
  }

  lemma QuoteOpens(inner: string, rest: string)
    ensures StripCode("\"" + inner + rest) == "\"" + StripString(inner + rest, false)
  {
    assert ("\"" + inner + rest)[1..] == inner + rest;
  }

  lemma SlashesOpen(c: char, inner: string, rest: string)
    requires c == '/' || c == '*'
    ensures StripCode(['/', c] + inner + rest) ==
            if c == '/' then StripLine(inner + rest) else StripBlock(inner + rest, '\0')
  {
    var s := ['/', c] + inner + rest;
    assert s[2..] == inner + rest && Opens(s, c);
  }

  lemma {:induction false} LiteralKept(body: seq<Item>, rest: string)
    requires TokenOk(Literal(body))
    ensures StripString(Body(body) + "\"" + rest, false) == Body(body) + "\"" + StripCode(rest)
    decreases |body|
  {
    if body == [] {
      assert ([] + "\"" + rest)[1..] == rest;
    } else {
      var tail := Body(body[1..]) + "\"" + rest;
      assert Body(body) + "\"" + rest == ItemText(body[0]) + tail;
      ItemKept(body[0], tail);
      LiteralKept(body[1..], rest);
    }
  }

  lemma ItemKept(i: Item, tail: string)
    requires i.Char? ==> i.c != '"' && i.c != '\\'
    ensures StripString(ItemText(i) + tail, false) == ItemText(i) + StripString(tail, false)
  {
    var s := ItemText(i) + tail;
    if i.Char? {
      assert s[1..] == tail;
    } else {
      assert s[1..] == [i.c] + tail && s[1..][1..] == tail;
    }
  }

  lemma {:induction false} OpenLiteralKept(body: seq<Item>, dangling: bool)
    requires TokenOk(OpenLiteral(body, dangling))
    ensures var s := Body(body) + if dangling then "\\" else ""; StripString(s, false) == s
    decreases |body|
  {
    var end := if dangling then "\\" else "";
    if body == [] {
      assert Body(body) + end == end;
      assert dangling ==> end[1..] == [];
    } else {
      OpenLiteralKept(body[1..], dangling);
      ItemKept(body[0], Body(body[1..]) + end);
      assert Body(body) + end == ItemText(body[0]) + (Body(body[1..]) + end);
    }
  }

  lemma {:induction false} LineDropped(text: string, rest: string)
    requires '\n' !in text
    ensures StripLine(text + "\n" + rest) == "\n" + StripCode(rest)
    decreases |text|
  {
    var s := text + "\n" + rest;
    if text == [] {
      assert s[1..] == rest;
    } else {
      assert s[1..] == text[1..] + "\n" + rest;
      LineDropped(text[1..], rest);
    }
  }

  lemma {:induction false} OpenLineDropped(text: string)
    requires '\n' !in text
    ensures StripLine(text) == []
    decreases |text|
  {
    if text != [] {
      OpenLineDropped(text[1..]);
    }
  }

  lemma {:induction false} BlockDropped(text: string, rest: string, prev: char)
    requires NoCloser(text) && (prev == '*' && text != [] ==> text[0] != '/')
    ensures StripBlock(text + "*/" + rest, prev) == StripCode(rest)
    decreases |text|
  {
    var s := text + "*/" + rest;
    if text == [] {
      assert s[1..] == "/" + rest && s[1..][1..] == rest;
    } else {
      assert s[1..] == text[1..] + "*/" + rest;
      assert forall i | 0 <= i < |text[1..]| :: text[1..][i] == text[i + 1];
      BlockDropped(text[1..], rest, text[0]);
    }
  }

  lemma {:induction false} OpenBlockDropped(text: string, prev: char)
    requires NoCloser(text) && (prev == '*' && text != [] ==> text[0] != '/')
    ensures StripBlock(text, prev) == []
    decreases |text|
  {
    if text != [] {
      assert forall i | 0 <= i < |text[1..]| :: text[1..][i] == text[i + 1];
      OpenBlockDropped(text[1..], text[0]);
    }
  }

  // ---- every text has that structure ----

  /** Any text at all is a sequence of tokens, so the previous result covers every input. */
  lemma {:induction false} EveryTextHasTokens(s: string) returns (ts: seq<Token>)
    ensures WellFormed(ts) && Render(ts) == s
    decreases |s|
  {
    if s == [] {
      return [];
    }
    var t, rest := FirstToken(s);
    ts := EveryTextHasTokens(rest);
    if t == Plain('/') && ts != [] {
      assert rest[0] == Text(ts[0])[0];
    }
    RenderNotEmpty(ts);
    assert ([t] + ts)[1..] == ts;
    ts := [t] + ts;
  }

  lemma RenderNotEmpty(ts: seq<Token>)
    ensures Render(ts) == [] ==> ts == []
  {
    assert ts != [] ==> |Text(ts[0])| > 0;
  }

  lemma FirstToken(s: string) returns (t: Token, rest: string)
    requires s != []
    ensures TokenOk(t) && s == Text(t) + rest && |rest| < |s| && (IsOpen(t) ==> rest == [])
    ensures t.Plain? ==> t.c == s[0] && !Opens(s, '/') && !Opens(s, '*')
  {
    if s[0] == '"' {
      var body, end := ScanString(s[1..]);
      assert s == "\"" + s[1..];
      if end != [] && end[0] == '"' {
        t, rest := Literal(body), end[1..];
        assert end == "\"" + rest;
        assert s == "\"" + (Body(body) + ("\"" + rest));
        assert s == Text(t) + rest;
      } else {
        t, rest := OpenLiteral(body, end != []), [];
        assert end == if end != [] then "\\" else "";
        assert s == Text(t) + rest;
      }
    } else if Opens(s, '/') {
      var text, end := ScanLine(s[2..]);
      assert s == "//" + s[2..];
      if end != [] {
        t, rest := Line(text), end[1..];
        assert end == "\n" + rest;
        assert s == "//" + (text + ("\n" + rest));
        assert s == Text(t) + rest;
      } else {
        t, rest := OpenLine(text), [];
        assert s == Text(t) + rest;
      }
    } else if Opens(s, '*') {
      var text, end := ScanBlock(s[2..]);
      assert s == "/*" + s[2..];
      if end != [] {
        t, rest := Block(text), end[2..];
        assert end == "*/" + rest;
        assert s == "/*" + (text + ("*/" + rest));
        assert s == Text(t) + rest;
      } else {
        t, rest := OpenBlock(text), [];
        assert s == Text(t) + rest;
      }
    } else {
      t, rest := Plain(s[0]), s[1..];
    }
  }

  lemma {:induction false} ScanString(s: string) returns (body: seq<Item>, end: string)
    ensures TokenOk(Literal(body)) && s == Body(body) + end
    ensures end == [] || end[0] == '"' || end == "\\"
    decreases |s|
  {
    if s == [] || s[0] == '"' || s == "\\" {
      return [], s;
    }
    var item := if s[0] == '\\' then Escape(s[1]) else Char(s[0]);
    var n := if s[0] == '\\' then 2 else 1;
    assert ItemText(item) == s[..n];
    var more;
    more, end := ScanString(s[n..]);
    body := [item] + more;
    assert body[1..] == more;
    assert s == s[..n] + s[n..];
  }

  lemma {:induction false} ScanLine(s: string) returns (text: string, end: string)
    ensures '\n' !in text && s == text + end && (end != [] ==> end[0] == '\n')
    decreases |s|
  {
    if s == [] || s[0] == '\n' {
      return [], s;
    }
    text, end := ScanLine(s[1..]);
    text := [s[0]] + text;
  }

  lemma {:induction false} ScanBlock(s: string) returns (text: string, end: string)
    ensures NoCloser(text) && s == text + end
    ensures end != [] ==> |end| >= 2 && end[0] == '*' && end[1] == '/'
    decreases |s|
  {
    if s == [] || (|s| >= 2 && s[0] == '*' && s[1] == '/') {
      return [], s;
    }
    var more;
    more, end := ScanBlock(s[1..]);
    text := [s[0]] + more;
    assert more != [] ==> s[1] == more[0];
    forall i | 0 <= i < |text| - 1 ensures !(text[i] == '*' && text[i + 1] == '/') {
      if i > 0 {
        assert text[i] == more[i - 1] && text[i + 1] == more[i];
      }
    }
  }

  // ---- what the output looks like ----

  /** No comment opens outside string literals. */
  predicate CodeClean(s: string)
    decreases |s|
  {
    s == [] ||
    (if s[0] == '"' then StringClean(s[1..], false)
     else !Opens(s, '/') && !Opens(s, '*') && CodeClean(s[1..]))
  }

  predicate StringClean(s: string, escaped: bool)
    decreases |s|
  {
    s == [] ||
    (if !escaped && s[0] == '"' then CodeClean(s[1..]) else StringClean(s[1..], !escaped && s[0] == '\\'))
  }

  lemma {:induction false} NeverLonger(s: string)
    ensures |StripCode(s)| <= |s| && |StripLine(s)| <= |s|
    ensures forall escaped :: |StripString(s, escaped)| <= |s|
    ensures forall prev :: |StripBlock(s, prev)| <= |s|
    decreases |s|
  {
    if s != [] {
      NeverLonger(s[1..]);
      if |s| >= 2 {
        NeverLonger(s[2..]);
      }
    }
  }

  /** A text is left alone exactly when no comment opens in it. */
  lemma {:induction false} CleanIff(s: string)
    ensures CodeClean(s) <==> StripCode(s) == s
    ensures forall escaped :: StringClean(s, escaped) <==> StripString(s, escaped) == s
    decreases |s|
  {
    if s != [] {
      CleanIff(s[1..]);
      NeverLonger(s);
      if Opens(s, '/') || Opens(s, '*') {
        NeverLonger(s[2..]);
      }
      assert s == [s[0]] + s[1..];
      assert ([s[0]] + StripCode(s[1..]))[1..] == StripCode(s[1..]);
      forall escaped ensures StringClean(s, escaped) <==> StripString(s, escaped) == s {
        var next := !escaped && s[0] == '\\';
        assert ([s[0]] + StripString(s[1..], next))[1..] == StripString(s[1..], next);
      }
      assert ([s[0]] + StripString(s[1..], false))[1..] == StripString(s[1..], false);
    }
  }

  lemma {:induction false} CommentsAllGone(ts: seq<Token>)
    requires WellFormed(ts)
    ensures WellFormed(WithoutComments(ts)) && WithoutComments(WithoutComments(ts)) == WithoutComments(ts)
    decreases |ts|
  {
    if ts != [] {
      CommentsAllGone(ts[1..]);
      var t, us := ts[0], WithoutComments(ts[1..]);
      if Kept(t) == [] {
        assert WithoutComments(ts) == us;
      } else {
        assert WithoutComments(ts)[1..] == us;
        if t == Plain('/') && |ts| > 1 {
          assert us[0] == ts[1];
        }
        if IsOpen(t) {
          assert ts[1..] == [];
        }
      }
    }
  }

  /** Stripping twice is stripping once, and on every input whatsoever the output has no
      comment opener outside its string literals. */
  lemma StripIsIdempotentAndClean(s: string)
    ensures StripCode(StripCode(s)) == StripCode(s)
    ensures CodeClean(StripCode(s))
  {
    var ts := EveryTextHasTokens(s);
    StripKeepsStructure(ts);
    CommentsAllGone(ts);
    StripKeepsStructure(WithoutComments(ts));
    CleanIff(StripCode(s));
  }
}
