/**
  The tolerant JSON reader of src/lib/json-relaxed.ts: a comment stripper and a trailing-comma
  remover, both one-pass character scanners, applied when strict parsing fails.
  */
module JsonRelaxed {
  import opened Wrappers
  import Text

  const QUOTE := '\"'
  const APOSTROPHE := '\''
  const BACKSLASH := '\\'

  /** Stands for the empty string that the scanners see before the first character. */
  const NOTHING := '\0'

  // ---------------------------------------------------------------------------
  // The comment scanner

  datatype Mode = Code | InString(delimiter: char) | LineComment | BlockComment

  /** What the comment scanner outputs for `rest`, entered in `mode` just after the character `prev`. */
  function StripFrom(prev: char, rest: string, mode: Mode): string
    decreases |rest|
  {
    if rest == "" then "" else
    var c, tail := rest[0], rest[1..];
    match mode
    case LineComment =>
      if c == '\n' then [c] + StripFrom(c, tail, Code) else StripFrom(c, tail, mode)
    case BlockComment =>
      if c == '*' && "/" <= tail then StripFrom('/', tail[1..], Code) else StripFrom(c, tail, mode)
    case InString(delimiter) =>
      [c] + StripFrom(c, tail, if c == delimiter && prev != BACKSLASH then Code else mode)
    case Code =>
      if (c == QUOTE || c == APOSTROPHE) && prev != BACKSLASH then [c] + StripFrom(c, tail, InString(c))
      else if c == '/' && "/" <= tail then StripFrom('/', tail[1..], LineComment)
      else if c == '/' && "*" <= tail then StripFrom('*', tail[1..], BlockComment)
      else [c] + StripFrom(c, tail, Code)
  }

  function Strip(input: string): string {
    StripFrom(NOTHING, input, Code)
  }

  ghost function ModeOf(inString: bool, delimiter: char, inLineComment: bool, inBlockComment: bool): Mode {
    if inLineComment then LineComment
    else if inBlockComment then BlockComment
    else if inString then InString(delimiter)
    else Code
  }

  function Before(input: string, i: nat): char
    requires i <= |input|
  {
    if i > 0 then input[i - 1] else NOTHING
  }

  /** What the scanner outputs from position `i` on. */
  function StripAt(input: string, i: nat, mode: Mode): string
    requires i <= |input|
  {
    StripFrom(Before(input, i), input[i..], mode)
  }

  lemma StripAtEnd(input: string, mode: Mode)
    ensures StripAt(input, |input|, mode) == ""
  {
  }

  lemma StripAtStep(input: string, i: nat, mode: Mode)
    requires i < |input|
    ensures
      var c := input[i];
      var next := if i + 1 < |input| then input[i + 1] else NOTHING;
      StripAt(input, i, mode) ==
      match mode
      case LineComment =>
        if c == '\n' then [c] + StripAt(input, i + 1, Code) else StripAt(input, i + 1, mode)
      case BlockComment =>
        if c == '*' && next == '/' then StripAt(input, i + 2, Code) else StripAt(input, i + 1, mode)
      case InString(d) =>
        [c] + StripAt(input, i + 1, if c == d && Before(input, i) != BACKSLASH then Code else mode)
      case Code =>
        if (c == QUOTE || c == APOSTROPHE) && Before(input, i) != BACKSLASH then [c] + StripAt(input, i + 1, InString(c))
        else if c == '/' && next == '/' then StripAt(input, i + 2, LineComment)
        else if c == '/' && next == '*' then StripAt(input, i + 2, BlockComment)
        else [c] + StripAt(input, i + 1, Code)
  {
    var rest := input[i..];
    assert rest[1..] == input[i + 1..];
    if i + 1 < |input| {
      assert rest[1..][1..] == input[i + 2..];
      assert rest[1..][0] == input[i + 1];
    }
  }

  lemma ConcatAssociative(a: string, b: string, c: string)
    ensures a + (b + c) == a + b + c
  {
  }

  /** The scanner loop of the source, with its four flags. */
  method StripJsonComments(input: string) returns (output: string)
    ensures output == Strip(input)
  {
    hide StripFrom;
    output := "";
    var inString, stringDelimiter := false, QUOTE;
    var inLineComment, inBlockComment := false, false;
    var i := 0;
    assert input[0..] == input;
    ghost var mode := Code;
    while i < |input|
      invariant i <= |input|
      invariant inLineComment ==> !inString && !inBlockComment
      invariant inBlockComment ==> !inString
      invariant mode == ModeOf(inString, stringDelimiter, inLineComment, inBlockComment)
      invariant Strip(input) == output + StripAt(input, i, mode)
    {
      var current := input[i];
      var hasNext := i + 1 < |input|;
      var prev := if i > 0 then input[i - 1] else NOTHING;
      StripAtStep(input, i, mode);
      ghost var written := output;

      if inLineComment {
        if current == '\n' {
          inLineComment := false;
          output := output + [current];
        }
      } else if inBlockComment {
        if current == '*' && hasNext && input[i + 1] == '/' {
          inBlockComment := false;
          i := i + 1;
        }
      } else if inString {
        output := output + [current];
        if current == stringDelimiter && prev != BACKSLASH {
          inString := false;
        }
      } else if (current == QUOTE || current == APOSTROPHE) && prev != BACKSLASH {
        inString := true;
        stringDelimiter := current;
        output := output + [current];
      } else if current == '/' && hasNext && input[i + 1] == '/' {
        inLineComment := true;
        i := i + 1;
      } else if current == '/' && hasNext && input[i + 1] == '*' {
        inBlockComment := true;
        i := i + 1;
      } else {
        output := output + [current];
      }
      i := i + 1;
      mode := ModeOf(inString, stringDelimiter, inLineComment, inBlockComment);
      ConcatAssociative(written, [current], StripAt(input, i, mode));
    }
    StripAtEnd(input, mode);
  }

  // ---------------------------------------------------------------------------
  // The trailing-comma scanner

  /** Whether the first character of `s` that is not white space closes an object or an array. */
  predicate CloserAhead(s: string) {
    s != "" && if Text.IsSpace(s[0]) then CloserAhead(s[1..]) else s[0] == '}' || s[0] == ']'
  }

  /** What the comma scanner outputs for `rest`, inside a string with the given delimiter or in code. */
  function UncommaFrom(prev: char, rest: string, delimiter: Option<char>): string
    decreases |rest|
  {
    if rest == "" then "" else
    var c, tail := rest[0], rest[1..];
    match delimiter
    case Some(d) =>
      [c] + UncommaFrom(c, tail, if c == d && prev != BACKSLASH then None else delimiter)
    case None =>
      if (c == QUOTE || c == APOSTROPHE) && prev != BACKSLASH then [c] + UncommaFrom(c, tail, Some(c))
      else if c == ',' && CloserAhead(tail) then UncommaFrom(c, tail, None)
      else [c] + UncommaFrom(c, tail, None)
  }

  function Uncomma(input: string): string {
    UncommaFrom(NOTHING, input, None)
  }

  function UncommaAt(input: string, i: nat, delimiter: Option<char>): string
    requires i <= |input|
  {
    UncommaFrom(Before(input, i), input[i..], delimiter)
  }

  lemma UncommaAtEnd(input: string, delimiter: Option<char>)
    ensures UncommaAt(input, |input|, delimiter) == ""
  {
  }

  lemma UncommaAtStep(input: string, i: nat, delimiter: Option<char>)
    requires i < |input|
    ensures
      var c := input[i];
      UncommaAt(input, i, delimiter) ==
      match delimiter
      case Some(d) =>
        [c] + UncommaAt(input, i + 1, if c == d && Before(input, i) != BACKSLASH then None else delimiter)
      case None =>
        if (c == QUOTE || c == APOSTROPHE) && Before(input, i) != BACKSLASH then [c] + UncommaAt(input, i + 1, Some(c))
        else if c == ',' && CloserAhead(input[i + 1..]) then UncommaAt(input, i + 1, None)
        else [c] + UncommaAt(input, i + 1, None)
  {
    assert input[i..][1..] == input[i + 1..];
  }

  /** The forward scan from a comma over white space. */
  method ScanForCloser(input: string, from: nat) returns (found: bool)
    requires from <= |input|
    ensures found == CloserAhead(input[from..])
  {
    var j := from;
    while j < |input| && Text.IsSpace(input[j])
      invariant from <= j <= |input|
      invariant CloserAhead(input[j..]) == CloserAhead(input[from..])
    {
      assert input[j..][1..] == input[j + 1..];
      j := j + 1;
    }
    found := j < |input| && (input[j] == '}' || input[j] == ']');
  }

  method RemoveTrailingCommas(input: string) returns (output: string)
    ensures output == Uncomma(input)
  {
    hide UncommaFrom, CloserAhead;
    output := "";
    var inString, stringDelimiter := false, QUOTE;
    assert input[0..] == input;
    ghost var delimiter: Option<char> := None;
    for i := 0 to |input|
      invariant delimiter == if inString then Some(stringDelimiter) else None
      invariant Uncomma(input) == output + UncommaAt(input, i, delimiter)
    {
      var current := input[i];
      var prev := if i > 0 then input[i - 1] else NOTHING;
      UncommaAtStep(input, i, delimiter);
      ghost var written := output;
      var keep := true;

      if inString {
        if current == stringDelimiter && prev != BACKSLASH {
          inString := false;
        }
      } else if (current == QUOTE || current == APOSTROPHE) && prev != BACKSLASH {
        inString := true;
        stringDelimiter := current;
      } else if current == ',' {
        var trailing := ScanForCloser(input, i + 1);
        keep := !trailing;
      }
      if keep {
        output := output + [current];
      }
      delimiter := if inString then Some(stringDelimiter) else None;
      ConcatAssociative(written, [current], UncommaAt(input, i + 1, delimiter));
    }
    UncommaAtEnd(input, delimiter);
  }

  /** The text handed to the strict parser when the raw text does not parse. */
  function Normalize(raw: string): string {
    Uncomma(Strip(raw))
  }

  // ---------------------------------------------------------------------------
  // JSON tokens, and texts made of tokens, white space and comments

  const PUNCTUATION: set<char> := {'{', '}', '[', ']', ':', ','}

  predicate IsJsonSpace(c: char) {
    c in {' ', '\t', '\n', '\r'}
  }

  predicate IsLiteralChar(c: char) {
    'a' <= c <= 'z' || 'A' <= c <= 'Z' || '0' <= c <= '9' || c in {'+', '-', '.'}
  }

  /** Tokens of RFC 8259: structural characters, strings (by what is between the quotes), numbers and names. */
  datatype Token = Punct(c: char) | Str(body: string) | Lit(text: string) {
    predicate Valid() {
      match this
      case Punct(c) => c in PUNCTUATION
      case Str(body) => Escaped(body)
      case Lit(text) => text != "" && forall i :: 0 <= i < |text| ==> IsLiteralChar(text[i])
    }

    predicate IsCloser() {
      this == Punct('}') || this == Punct(']')
    }

    predicate IsComma() {
      this == Punct(',')
    }

    function Text(): string {
      match this
      case Punct(c) => [c]
      case Str(body) => [QUOTE] + body + [QUOTE]
      case Lit(text) => text
    }
  }

  /** A string body in which every backslash escapes the character after it and no quote is bare. */
  predicate Escaped(body: string) {
    body == "" ||
    if body[0] == BACKSLASH then |body| >= 2 && Escaped(body[2..])
    else body[0] != QUOTE && Escaped(body[1..])
  }

  /**
    A well-formed body ends in a backslash exactly when a non-zero even run of backslashes
    stands before its closing quote.
    */
  predicate EndsInBackslash(body: string) {
    body != "" && body[|body| - 1] == BACKSLASH
  }

  datatype Piece = Tok(token: Token) | Space(c: char) | Line(comment: string) | Block(comment: string) {
    predicate Valid() {
      match this
      case Tok(t) => t.Valid()
      case Space(c) => IsJsonSpace(c)
      case Line(comment) => '\n' !in comment
      case Block(comment) => !exists i :: 0 <= i < |comment| - 1 && comment[i] == '*' && comment[i + 1] == '/'
    }

    /** The domain of the scanners: no string whose closing quote follows an escaped backslash. */
    predicate Clean() {
      Valid() && !(Tok? && token.Str? && EndsInBackslash(token.body))
    }

    function Text(): string {
      match this
      case Tok(t) => t.Text()
      case Space(c) => [c]
      case Line(comment) => "//" + comment + "\n"
      case Block(comment) => "/*" + comment + "*/"
    }

    /** A line comment leaves its line break behind, a block comment leaves nothing. */
    function Uncommented(): seq<Piece> {
      match this
      case Line(_) => [Space('\n')]
      case Block(_) => []
      case _ => [this]
    }

    predicate IsComment() {
      Line? || Block?
    }
  }

  predicate AllClean(ps: seq<Piece>) {
    forall p <- ps :: p.Clean()
  }

  function Render(ps: seq<Piece>): string {
    if ps == [] then "" else ps[0].Text() + Render(ps[1..])
  }

  function Tokens(ps: seq<Piece>): seq<Token> {
    if ps == [] then []
    else if ps[0].Tok? then [ps[0].token] + Tokens(ps[1..])
    else Tokens(ps[1..])
  }

  function WithoutComments(ps: seq<Piece>): seq<Piece> {
    if ps == [] then [] else ps[0].Uncommented() + WithoutComments(ps[1..])
  }

  /** Whether the next token of `ps` closes an object or an array. */
  predicate CloserNext(ps: seq<Piece>) {
    ps != [] && if ps[0].Tok? then ps[0].token.IsCloser() else CloserNext(ps[1..])
  }

  function WithoutTrailingCommas(ps: seq<Piece>): seq<Piece> {
    if ps == [] then []
    else if ps[0] == Tok(Punct(',')) && CloserNext(ps[1..]) then WithoutTrailingCommas(ps[1..])
    else [ps[0]] + WithoutTrailingCommas(ps[1..])
  }

  /** A line comment that the end of the text cuts off, or nothing. */
  predicate OpenEnd(end: string) {
    end == "" || ("//" <= end && '\n' !in end)
  }

  // ---------------------------------------------------------------------------
  // Comment stripping, piece by piece

  function LastOf(prev: char, s: string): char {
    if s == "" then prev else s[|s| - 1]
  }

  /** Every quote in `body` directly follows a backslash, where `prev` stands before `body`. */
  predicate QuotesFollowBackslash(prev: char, body: string)
    decreases |body|
  {
    body == "" || ((body[0] == QUOTE ==> prev == BACKSLASH) && QuotesFollowBackslash(body[0], body[1..]))
  }

  lemma {:induction false} EscapedQuotesFollowBackslash(prev: char, body: string)
    requires Escaped(body)
    ensures QuotesFollowBackslash(prev, body)
    decreases |body|
  {
    if body != "" {
      if body[0] == BACKSLASH {
        EscapedQuotesFollowBackslash(body[1], body[2..]);
        assert body[1..][1..] == body[2..];
      } else {
        EscapedQuotesFollowBackslash(body[0], body[1..]);
      }
    }
  }

  /** Inside a string, the scanner copies the body and stays inside. */
  lemma {:induction false} StripBody(prev: char, body: string, rest: string)
    requires QuotesFollowBackslash(prev, body)
    ensures StripFrom(prev, body + rest, InString(QUOTE)) == body + StripFrom(LastOf(prev, body), rest, InString(QUOTE))
    decreases |body|
  {
    if body == "" {
      assert body + rest == rest;
    } else {
      var s := body + rest;
      assert s[0] == body[0] && s[1..] == body[1..] + rest;
      StripBody(body[0], body[1..], rest);
      assert LastOf(body[0], body[1..]) == LastOf(prev, body);
      assert [body[0]] + body[1..] == body;
    }
  }

  lemma StripStringToken(prev: char, body: string, rest: string)
    requires prev != BACKSLASH && Escaped(body)
    ensures StripFrom(prev, [QUOTE] + body + [QUOTE] + rest, Code) ==
      [QUOTE] + body + [QUOTE] +
      StripFrom(QUOTE, rest, if EndsInBackslash(body) then InString(QUOTE) else Code)
  {
    var s, tail := [QUOTE] + body + [QUOTE] + rest, [QUOTE] + rest;
    var inside := InString(QUOTE);
    calc {
      StripFrom(prev, s, Code);
      { assert s[1..] == body + tail; }
      [QUOTE] + StripFrom(QUOTE, body + tail, inside);
      { EscapedQuotesFollowBackslash(QUOTE, body); StripBody(QUOTE, body, tail); }
      [QUOTE] + (body + StripFrom(LastOf(QUOTE, body), tail, inside));
      { assert tail[1..] == rest; }
      [QUOTE] + (body + ([QUOTE] + StripFrom(QUOTE, rest, if EndsInBackslash(body) then inside else Code)));
    }
  }

  lemma {:induction false} StripPlain(prev: char, text: string, rest: string)
    requires forall i :: 0 <= i < |text| ==> text[i] !in {QUOTE, APOSTROPHE, '/'}
    ensures StripFrom(prev, text + rest, Code) == text + StripFrom(LastOf(prev, text), rest, Code)
    decreases |text|
  {
    if text == "" {
      assert text + rest == rest;
    } else {
      var s := text + rest;
      assert s[0] == text[0] && s[1..] == text[1..] + rest;
      StripPlain(text[0], text[1..], rest);
      assert [text[0]] + text[1..] == text;
    }
  }

  lemma {:induction false} StripLine(prev: char, comment: string, rest: string)
    requires '\n' !in comment
    ensures StripFrom(prev, comment + "\n" + rest, LineComment) == "\n" + StripFrom('\n', rest, Code)
    ensures StripFrom(prev, comment, LineComment) == ""
    decreases |comment|
  {
    var s := comment + "\n" + rest;
    if comment == "" {
      assert s[1..] == rest;
    } else {
      assert s[1..] == comment[1..] + "\n" + rest;
      StripLine(comment[0], comment[1..], rest);
    }
  }

  lemma {:induction false} StripBlock(prev: char, comment: string, rest: string)
    requires Block(comment).Valid()
    ensures StripFrom(prev, comment + "*/" + rest, BlockComment) == StripFrom('/', rest, Code)
    decreases |comment|
  {
    var s := comment + "*/" + rest;
    if comment == "" {
      assert s[1..] == "/" + rest && s[1..][1..] == rest;
    } else {
      assert s[1..] == comment[1..] + "*/" + rest;
      assert !(s[0] == '*' && s[1] == '/');
      StripBlock(comment[0], comment[1..], rest);
    }
  }

  lemma StripComment(prev: char, p: Piece, rest: string) returns (last: char)
    requires p.IsComment() && p.Valid()
    ensures last != BACKSLASH
    ensures StripFrom(prev, p.Text() + rest, Code) == (if p.Line? then "\n" else "") + StripFrom(last, rest, Code)
  {
    var s := p.Text() + rest;
    assert s[1..][1..] == s[2..];
    if p.Line? {
      last := '\n';
      assert s[2..] == p.comment + "\n" + rest;
      StripLine('/', p.comment, rest);
    } else {
      last := '/';
      assert s[2..] == p.comment + "*/" + rest;
      StripBlock('*', p.comment, rest);
    }
  }

  lemma StripToken(prev: char, t: Token, rest: string) returns (last: char)
    requires prev != BACKSLASH && Tok(t).Clean()
    ensures last != BACKSLASH
    ensures StripFrom(prev, t.Text() + rest, Code) == t.Text() + StripFrom(last, rest, Code)
  {
    if t.Str? {
      last := QUOTE;
      StripStringToken(prev, t.body, rest);
    } else {
      last := LastOf(prev, t.Text());
      StripPlain(prev, t.Text(), rest);
    }
  }

  lemma StripPiece(prev: char, p: Piece, rest: string) returns (last: char)
    requires prev != BACKSLASH && p.Clean()
    ensures last != BACKSLASH
    ensures StripFrom(prev, p.Text() + rest, Code) == Render(p.Uncommented()) + StripFrom(last, rest, Code)
  {
    assert Render([]) == "";
    match p
    case Tok(t) =>
      assert Render([p]) == t.Text();
      last := StripToken(prev, t, rest);
    case Space(c) =>
      assert Render([p]) == [c];
      last := c;
      StripPlain(prev, [c], rest);
    case _ =>
      assert Render([Space('\n')]) == "\n";
      last := StripComment(prev, p, rest);
  }

  lemma RenderConcat(ps: seq<Piece>, qs: seq<Piece>)
    ensures Render(ps + qs) == Render(ps) + Render(qs)
  {
    if ps == [] {
      assert ps + qs == qs;
    } else {
      assert (ps + qs)[1..] == ps[1..] + qs;
      RenderConcat(ps[1..], qs);
    }
  }

  lemma {:induction false} StripPieces(prev: char, ps: seq<Piece>, end: string)
    requires prev != BACKSLASH && AllClean(ps) && OpenEnd(end)
    ensures StripFrom(prev, Render(ps) + end, Code) == Render(WithoutComments(ps))
    decreases |ps|
  {
    if ps == [] {
      assert Render(ps) + end == end;
      if end != "" {
        StripLine('/', end[2..], "");
        assert end[1..][1..] == end[2..];
      }
    } else {
      var rest := Render(ps[1..]) + end;
      assert Render(ps) + end == ps[0].Text() + rest;
      var last := StripPiece(prev, ps[0], rest);
      StripPieces(last, ps[1..], end);
      RenderConcat(ps[0].Uncommented(), WithoutComments(ps[1..]));
    }
  }

  /** Comment stripping removes exactly the comments: tokens, strings and white space stay as they are. */
  lemma StripRemovesComments(ps: seq<Piece>, end: string)
    requires AllClean(ps) && OpenEnd(end)
    ensures Strip(Render(ps) + end) == Render(WithoutComments(ps))
  {
    StripPieces(NOTHING, ps, end);
  }

  // ---------------------------------------------------------------------------
  // Comma removal, piece by piece

  predicate Uncommentable(ps: seq<Piece>) {
    AllClean(ps) && forall p <- ps :: !p.IsComment()
  }

  lemma {:induction false} CloserAheadIsNextToken(ps: seq<Piece>)
    requires Uncommentable(ps)
    ensures CloserAhead(Render(ps)) == CloserNext(ps)
  {
    if ps != [] {
      var s := Render(ps);
      assert ps[0] in ps;
      if ps[0].Space? {
        assert s[1..] == Render(ps[1..]);
        CloserAheadIsNextToken(ps[1..]);
      } else {
        assert s[0] == ps[0].Text()[0];
      }
    }
  }

  lemma {:induction false} UncommaBody(prev: char, body: string, rest: string)
    requires QuotesFollowBackslash(prev, body)
    ensures UncommaFrom(prev, body + rest, Some(QUOTE)) == body + UncommaFrom(LastOf(prev, body), rest, Some(QUOTE))
    decreases |body|
  {
    if body == "" {
      assert body + rest == rest;
    } else {
      var s := body + rest;
      assert s[0] == body[0] && s[1..] == body[1..] + rest;
      UncommaBody(body[0], body[1..], rest);
      assert LastOf(body[0], body[1..]) == LastOf(prev, body);
      assert [body[0]] + body[1..] == body;
    }
  }

  lemma UncommaStringToken(prev: char, body: string, rest: string)
    requires prev != BACKSLASH && Escaped(body)
    ensures UncommaFrom(prev, [QUOTE] + body + [QUOTE] + rest, None) ==
      [QUOTE] + body + [QUOTE] +
      UncommaFrom(QUOTE, rest, if EndsInBackslash(body) then Some(QUOTE) else None)
  {
    var s, tail := [QUOTE] + body + [QUOTE] + rest, [QUOTE] + rest;
    calc {
      UncommaFrom(prev, s, None);
      { assert s[1..] == body + tail; }
      [QUOTE] + UncommaFrom(QUOTE, body + tail, Some(QUOTE));
      { EscapedQuotesFollowBackslash(QUOTE, body); UncommaBody(QUOTE, body, tail); }
      [QUOTE] + (body + UncommaFrom(LastOf(QUOTE, body), tail, Some(QUOTE)));
      { assert tail[1..] == rest; }
      [QUOTE] + (body + ([QUOTE] + UncommaFrom(QUOTE, rest, if EndsInBackslash(body) then Some(QUOTE) else None)));
    }
  }

  lemma {:induction false} UncommaPlain(prev: char, text: string, rest: string)
    requires forall i :: 0 <= i < |text| ==> text[i] !in {QUOTE, APOSTROPHE, ','}
    ensures UncommaFrom(prev, text + rest, None) == text + UncommaFrom(LastOf(prev, text), rest, None)
    decreases |text|
  {
    if text == "" {
      assert text + rest == rest;
    } else {
      var s := text + rest;
      assert s[0] == text[0] && s[1..] == text[1..] + rest;
      UncommaPlain(text[0], text[1..], rest);
      assert [text[0]] + text[1..] == text;
    }
  }

  lemma {:induction false} UncommaPieces(prev: char, ps: seq<Piece>)
    requires prev != BACKSLASH && Uncommentable(ps)
    ensures UncommaFrom(prev, Render(ps), None) == Render(WithoutTrailingCommas(ps))
    decreases |ps|
  {
    if ps != [] {
      var p, rest := ps[0], Render(ps[1..]);
      assert p in ps;
      UncommaPieces(LastOf(prev, p.Text()), ps[1..]);
      if p == Tok(Punct(',')) {
        CloserAheadIsNextToken(ps[1..]);
        assert Render(ps)[1..] == rest;
      } else {
        match p
        case Tok(Str(body)) => UncommaStringToken(prev, body, rest);
        case _ => UncommaPlain(prev, p.Text(), rest);
      }
    }
  }

  lemma {:induction false} WithoutCommentsUncommentable(ps: seq<Piece>)
    requires AllClean(ps)
    ensures Uncommentable(WithoutComments(ps))
    ensures Tokens(WithoutComments(ps)) == Tokens(ps)
    ensures CloserNext(WithoutComments(ps)) == CloserNext(ps)
  {
    if ps != [] {
      assert ps[0] in ps;
      WithoutCommentsUncommentable(ps[1..]);
      var qs := WithoutComments(ps[1..]);
      if ps[0].Block? {
        assert [] + qs == qs;
      } else {
        assert (ps[0].Uncommented() + qs)[1..] == qs;
      }
    }
  }

  /**
    The two scanners in sequence: comments and trailing commas disappear, everything else stays,
    for every text of tokens, white space and comments in the domain.
    */
  lemma NormalizeRemovesCommentsAndCommas(ps: seq<Piece>, end: string)
    requires AllClean(ps) && OpenEnd(end)
    ensures Normalize(Render(ps) + end) == Render(WithoutTrailingCommas(WithoutComments(ps)))
  {
    StripRemovesComments(ps, end);
    WithoutCommentsUncommentable(ps);
    UncommaPieces(NOTHING, WithoutComments(ps));
  }

  // ---------------------------------------------------------------------------
  // The domain is exact

  lemma UnclosedString(body: string)
    requires Escaped(body) && EndsInBackslash(body)
    ensures Normalize(Str(body).Text() + "/**/") == Str(body).Text() + "/**/"
  {
    var text := Str(body).Text();
    assert QuotesFollowBackslash(QUOTE, "/**/");
    assert "/**/" + "" == "/**/";
    assert Strip(text + "/**/") == text + "/**/" by {
      StripStringToken(NOTHING, body, "/**/");
      StripBody(QUOTE, "/**/", "");
    }
    assert Uncomma(text + "/**/") == text + "/**/" by {
      UncommaStringToken(NOTHING, body, "/**/");
      UncommaBody(QUOTE, "/**/", "");
    }
  }

  /**
    A string is read correctly in every surrounding exactly when its body does not end in a backslash:
    a body that does leaves both scanners inside the string, whatever follows.
    */
  lemma StringDomainIsExact(body: string)
    requires Escaped(body)
    ensures (forall qs | AllClean(qs) ::
               Normalize(Render([Tok(Str(body))] + qs)) ==
               Render(WithoutTrailingCommas(WithoutComments([Tok(Str(body))] + qs))))
            <==> !EndsInBackslash(body)
  {
    var piece := Tok(Str(body));
    if EndsInBackslash(body) {
      var qs, text := [Block("")], piece.Text();
      assert AllClean(qs);
      assert Render([piece] + qs) == text + "/**/" by {
        assert ([piece] + qs)[1..] == qs && Render([Block("")]) == "/**/";
      }
      UnclosedString(body);
      assert WithoutComments([piece] + qs) == [piece] by {
        assert ([piece] + qs)[1..] == qs && WithoutComments(qs) == [];
      }
      assert WithoutTrailingCommas([piece]) == [piece];
      assert Render([piece]) == text;
    } else {
      forall qs | AllClean(qs)
        ensures Normalize(Render([piece] + qs)) == Render(WithoutTrailingCommas(WithoutComments([piece] + qs)))
      {
        var ps := [piece] + qs;
        assert Render(ps) + "" == Render(ps);
        NormalizeRemovesCommentsAndCommas(ps, "");
      }
    }
  }

  // ---------------------------------------------------------------------------
  // A strict tokenizer (section 2 of RFC 8259), and the end-to-end statement

  function Prepend(t: Token, ts: Option<seq<Token>>): Option<seq<Token>> {
    match ts
    case None => None
    case Some(ts) => Some([t] + ts)
  }

  /** The length of the string body that `s` starts with, up to its first unescaped quote. */
  function BodyLength(s: string): (n: Option<nat>)
    ensures n.Some? ==> n.value < |s|
  {
    if s == "" then None
    else if s[0] == QUOTE then Some(0)
    else
      var step := if s[0] == BACKSLASH then 2 else 1;
      if |s| < step then None else
      match BodyLength(s[step..])
      case None => None
      case Some(n) => Some(step + n)
  }

  function LiteralLength(s: string): (n: nat)
    ensures n <= |s|
    ensures n > 0 <==> s != "" && IsLiteralChar(s[0])
  {
    if s == "" || !IsLiteralChar(s[0]) then 0 else 1 + LiteralLength(s[1..])
  }

  function Lex(s: string): Option<seq<Token>>
    decreases |s|
  {
    if s == "" then Some([])
    else if IsJsonSpace(s[0]) then Lex(s[1..])
    else if s[0] in PUNCTUATION then Prepend(Punct(s[0]), Lex(s[1..]))
    else if s[0] == QUOTE then
      match BodyLength(s[1..])
      case None => None
      case Some(n) => Prepend(Str(s[1..n + 1]), Lex(s[n + 2..]))
    else if IsLiteralChar(s[0]) then
      var n := LiteralLength(s);
      Prepend(Lit(s[..n]), Lex(s[n..]))
    else None
  }

  /** No two number or name tokens in a row: the JSON grammar always has a structural character between them. */
  predicate Apart(ts: seq<Token>) {
    |ts| < 2 || (!(ts[0].Lit? && ts[1].Lit?) && Apart(ts[1..]))
  }

  predicate NoTrailingComma(ts: seq<Token>) {
    |ts| < 2 || (!(ts[0].IsComma() && ts[1].IsCloser()) && NoTrailingComma(ts[1..]))
  }

  /** `us` is `ts` with at most one comma put in directly before each closing bracket. */
  predicate Adorns(us: seq<Token>, ts: seq<Token>) {
    if ts == [] then us == []
    else
      || (us != [] && us[0] == ts[0] && Adorns(us[1..], ts[1..]))
      || (|us| >= 2 && us[0].IsComma() && ts[0].IsCloser() && us[1] == ts[0] && Adorns(us[2..], ts[1..]))
  }

  predicate HasComment(ps: seq<Piece>) {
    exists p <- ps :: p.IsComment()
  }

  lemma {:induction false} BodyLengthOfBody(body: string, rest: string)
    requires Escaped(body)
    ensures BodyLength(body + [QUOTE] + rest) == Some(|body|)
    decreases |body|
  {
    var s := body + [QUOTE] + rest;
    if body != "" {
      var step := if body[0] == BACKSLASH then 2 else 1;
      assert s[step..] == body[step..] + [QUOTE] + rest;
      BodyLengthOfBody(body[step..], rest);
    }
  }

  lemma {:induction false} LiteralLengthOfText(text: string, rest: string)
    requires forall i :: 0 <= i < |text| ==> IsLiteralChar(text[i])
    requires rest == "" || !IsLiteralChar(rest[0])
    ensures LiteralLength(text + rest) == |text|
    decreases |text|
  {
    if text == "" {
      assert text + rest == rest;
    } else {
      assert (text + rest)[1..] == text[1..] + rest;
      LiteralLengthOfText(text[1..], rest);
    }
  }

  lemma LexString(body: string, rest: string)
    requires Escaped(body)
    ensures Lex([QUOTE] + body + [QUOTE] + rest) == Prepend(Str(body), Lex(rest))
  {
    var s := [QUOTE] + body + [QUOTE] + rest;
    assert s[1..] == body + [QUOTE] + rest;
    BodyLengthOfBody(body, rest);
    assert s[1..|body| + 1] == body && s[|body| + 2..] == rest;
  }

  lemma LexLiteral(text: string, rest: string)
    requires Lit(text).Valid()
    requires rest == "" || !IsLiteralChar(rest[0])
    ensures Lex(text + rest) == Prepend(Lit(text), Lex(rest))
  {
    var s := text + rest;
    LiteralLengthOfText(text, rest);
    assert s[..|text|] == text && s[|text|..] == rest;
    assert IsLiteralChar(s[0]);
  }

  lemma LexToken(t: Token, rest: string)
    requires t.Valid()
    requires t.Lit? ==> rest == "" || !IsLiteralChar(rest[0])
    ensures Lex(t.Text() + rest) == Prepend(t, Lex(rest))
  {
    match t
    case Punct(c) => assert ([c] + rest)[1..] == rest;
    case Str(body) => LexString(body, rest);
    case Lit(text) => LexLiteral(text, rest);
  }

  lemma LexPiece(p: Piece, rest: string)
    requires p.Valid()
    requires p.Tok? && p.token.Lit? ==> rest == "" || !IsLiteralChar(rest[0])
    ensures Lex(p.Text() + rest) ==
      if p.IsComment() then None else if p.Space? then Lex(rest) else Prepend(p.token, Lex(rest))
  {
    match p
    case Tok(t) => LexToken(t, rest);
    case Space(c) => assert ([c] + rest)[1..] == rest;
    case _ => assert (p.Text() + rest)[0] == '/';
  }

  lemma NoLiteralAhead(ps: seq<Piece>, end: string)
    requires (forall p <- ps :: p.Valid()) && OpenEnd(end)
    requires ps != [] && ps[0].Tok? ==> !ps[0].token.Lit?
    ensures var s := Render(ps) + end; s == "" || !IsLiteralChar(s[0])
  {
    if ps != [] {
      assert ps[0] in ps && ps[0].Text() != "";
    }
  }

  /** The strict tokenizer reads the tokens of an undecorated text and refuses every comment. */
  lemma {:induction false} LexReadsTokens(ps: seq<Piece>, end: string)
    requires (forall p <- ps :: p.Valid()) && Apart(Tokens(ps)) && OpenEnd(end)
    ensures Lex(Render(ps) + end) == if HasComment(ps) || end != "" then None else Some(Tokens(ps))
    decreases |ps|
  {
    if ps == [] {
      assert Render(ps) + end == end;
    } else {
      var p, rest := ps[0], Render(ps[1..]) + end;
      assert p in ps;
      assert Render(ps) + end == p.Text() + rest;
      assert HasComment(ps) <==> p.IsComment() || HasComment(ps[1..]);
      if p.Tok? {
        assert Tokens(ps)[1..] == Tokens(ps[1..]);
        if p.token.Lit? {
          if |ps| > 1 && ps[1].Tok? {
            assert Tokens(ps)[1] == ps[1].token;
          }
          NoLiteralAhead(ps[1..], end);
        }
      }
      LexPiece(p, rest);
      LexReadsTokens(ps[1..], end);
    }
  }

  function WithoutTrailingCommaTokens(ts: seq<Token>): seq<Token> {
    if |ts| < 2 then ts
    else if ts[0].IsComma() && ts[1].IsCloser() then WithoutTrailingCommaTokens(ts[1..])
    else [ts[0]] + WithoutTrailingCommaTokens(ts[1..])
  }

  lemma {:induction false} CommasGoByTokens(ps: seq<Piece>)
    ensures Tokens(WithoutTrailingCommas(ps)) == WithoutTrailingCommaTokens(Tokens(ps))
    ensures CloserNext(ps) <==> Tokens(ps) != [] && Tokens(ps)[0].IsCloser()
  {
    if ps != [] {
      CommasGoByTokens(ps[1..]);
      if ps[0].Tok? {
        assert Tokens(ps)[1..] == Tokens(ps[1..]);
      }
    }
  }

  lemma {:induction false} AdornedTokens(us: seq<Token>, ts: seq<Token>)
    requires Adorns(us, ts) && NoTrailingComma(ts)
    ensures WithoutTrailingCommaTokens(us) == ts
    ensures us != [] && us[0].IsCloser() ==> ts != [] && ts[0] == us[0]
    ensures Apart(ts) ==> Apart(us)
    ensures us != [] && us[0].Lit? ==> ts != [] && ts[0] == us[0]
    decreases |us|
  {
    if ts != [] {
      if us[0] == ts[0] && Adorns(us[1..], ts[1..]) {
        AdornedTokens(us[1..], ts[1..]);
      } else {
        assert us[1..][1..] == us[2..];
        assert Adorns(us[1..], ts);
        AdornedTokens(us[1..], ts);
      }
    }
  }

  lemma {:induction false} NoTrailingCommaUnchanged(ts: seq<Token>)
    requires NoTrailingComma(ts)
    ensures WithoutTrailingCommaTokens(ts) == ts
  {
    if |ts| >= 2 {
      NoTrailingCommaUnchanged(ts[1..]);
    }
  }

  lemma {:induction false} WithoutTrailingCommasStaysClean(ps: seq<Piece>)
    requires Uncommentable(ps)
    ensures Uncommentable(WithoutTrailingCommas(ps))
  {
    if ps != [] {
      assert ps[0] in ps;
      WithoutTrailingCommasStaysClean(ps[1..]);
    }
  }

  /**
    Any token sequence, decorated with white space, comments and at most one trailing comma before each
    closing bracket: the strict tokenizer reads exactly the undecorated tokens from the normalized text.
    */
  lemma NormalizeYieldsTokens(ts: seq<Token>, ps: seq<Piece>, end: string)
    requires AllClean(ps) && OpenEnd(end)
    requires Adorns(Tokens(ps), ts) && NoTrailingComma(ts) && Apart(ts)
    ensures Lex(Normalize(Render(ps) + end)) == Some(ts)
  {
    var bare := WithoutComments(ps);
    var rest := WithoutTrailingCommas(bare);
    NormalizeRemovesCommentsAndCommas(ps, end);
    WithoutCommentsUncommentable(ps);
    WithoutTrailingCommasStaysClean(bare);
    CommasGoByTokens(bare);
    AdornedTokens(Tokens(ps), ts);
    LexReadsTokens(rest, "");
    assert Render(rest) + "" == Render(rest);
  }

  /** Text without comments and trailing commas passes through both scanners unchanged. */
  lemma {:induction false} NormalizeKeepsStrictText(ps: seq<Piece>)
    requires Uncommentable(ps) && NoTrailingComma(Tokens(ps))
    ensures Normalize(Render(ps)) == Render(ps)
  {
    assert Render(ps) + "" == Render(ps);
    NormalizeRemovesCommentsAndCommas(ps, "");
    StrictPiecesUnchanged(ps);
  }

  lemma {:induction false} StrictPiecesUnchanged(ps: seq<Piece>)
    requires Uncommentable(ps) && NoTrailingComma(Tokens(ps))
    ensures WithoutComments(ps) == ps
    ensures WithoutTrailingCommas(ps) == ps
  {
    if ps != [] {
      var p, rest := ps[0], ps[1..];
      assert p in ps && [p] + rest == ps;
      assert NoTrailingComma(Tokens(rest)) by {
        if p.Tok? {
          assert Tokens(ps)[1..] == Tokens(rest);
        }
      }
      StrictPiecesUnchanged(rest);
      CommasGoByTokens(rest);
      assert !(p == Tok(Punct(',')) && CloserNext(rest));
    }
  }

  // ---------------------------------------------------------------------------
  // The reader as a whole, for any grammar over tokens

  function Parse<T>(grammar: seq<Token> -> Option<T>, text: string): Option<T> {
    match Lex(text)
    case None => None
    case Some(ts) => grammar(ts)
  }

  /** Strict parsing first, then parsing of the normalized text; None is the exception of the strict parser. */
  function ParseJsonRelaxed<T>(grammar: seq<Token> -> Option<T>, raw: string): Option<T> {
    match Parse(grammar, raw)
    case Some(v) => Some(v)
    case None => Parse(grammar, Normalize(raw))
  }

  /**
    For every grammar that, like JSON's, refuses a trailing comma, the tolerant reader gives a decorated
    text the meaning that the grammar gives to its undecorated tokens.
    */
  lemma ParseIgnoresDecoration<T>(grammar: seq<Token> -> Option<T>, ts: seq<Token>, ps: seq<Piece>, end: string)
    requires forall us :: !NoTrailingComma(us) ==> grammar(us) == None
    requires AllClean(ps) && OpenEnd(end)
    requires Adorns(Tokens(ps), ts) && NoTrailingComma(ts) && Apart(ts)
    ensures ParseJsonRelaxed(grammar, Render(ps) + end) == grammar(ts)
  {
    var us := Tokens(ps);
    NormalizeYieldsTokens(ts, ps, end);
    AdornedTokens(us, ts);
    LexReadsTokens(ps, end);
    if NoTrailingComma(us) {
      NoTrailingCommaUnchanged(us);
    }
  }
}
