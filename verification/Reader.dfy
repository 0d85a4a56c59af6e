/** The reader of the formal S-expression notation: tokens, expressions, literals and rules
    (backend/src/verilogic_ns_api/reasoning/proofwriter.py). Texts are sequences of code points, as
    Python's strings are; string tokens are JSON strings, section 7 of RFC 8259. */
module Reader {
  import opened Logic

  type CodePoint = n: int | 0 <= n <= 0x10FFFF

  type PyString = seq<CodePoint>

  const QUOTE: CodePoint := '"' as int
  const BACKSLASH: CodePoint := '\\' as int
  const LEFT: CodePoint := '(' as int
  const RIGHT: CodePoint := ')' as int
  const HYPHEN: CodePoint := '-' as int
  const GREATER: CodePoint := '>' as int
  const LETTER_U: CodePoint := 'u' as int
  const ZERO: CodePoint := '0' as int

  /** The text `->`. */
  const ARROW: PyString := [HYPHEN, GREATER]

  datatype Token = LParen | RParen | ArrowToken | StringToken(value: PyString)

  datatype ReadError = Unterminated | BadString | UnexpectedCharacter | UnexpectedEnd | UnexpectedToken | Unclosed
    | TrailingTokens | NotParenthesized | BadLiteral | BadPolarity | BadRule | EmptyBody

  /** A nested list of strings. An arrow is the string `->`, as it is for the parser. */
  datatype Expr = Text(value: PyString) | Items(items: seq<Expr>)

  lemma SliceOfTail<T>(s: seq<T>, k: nat, i: nat, j: nat)
    requires k <= |s| && i <= j <= |s| - k
    ensures s[k..][i..j] == s[k + i..k + j]
    ensures s[k..][j..] == s[k + j..]
  {
  }

  // ---- JSON strings ----

  function HexValue(c: CodePoint): (value: Option<nat>)
    ensures value.Some? ==> value.value < 16
  {
    if '0' as int <= c <= '9' as int then Some(c - '0' as int)
    else if 'a' as int <= c <= 'f' as int then Some(c - 'a' as int + 10)
    else if 'A' as int <= c <= 'F' as int then Some(c - 'A' as int + 10)
    else None
  }

  /** The value of four hexadecimal digits. */
  function Hex4(s: PyString): (value: Option<nat>)
    ensures value.Some? ==> value.value <= 0xFFFF
  {
    if |s| == 4 && HexValue(s[0]).Some? && HexValue(s[1]).Some? && HexValue(s[2]).Some? && HexValue(s[3]).Some?
    then Some(4096 * HexValue(s[0]).value + 256 * HexValue(s[1]).value
              + 16 * HexValue(s[2]).value + HexValue(s[3]).value)
    else None
  }

  /** The value of an escape by four hexadecimal digits. */
  function UnicodeEscape(p: PyString): (value: Option<nat>)
    ensures value.Some? ==> value.value <= 0xFFFF
  {
    if |p| == 6 && p[0] == BACKSLASH && p[1] == LETTER_U then Hex4(p[2..]) else None
  }

  function ShortEscape(c: CodePoint): Option<CodePoint> {
    if c in {QUOTE, BACKSLASH, '/' as int} then Some(c)
    else if c == 'b' as int then Some(8)
    else if c == 'f' as int then Some(12)
    else if c == 'n' as int then Some(10)
    else if c == 'r' as int then Some(13)
    else if c == 't' as int then Some(9)
    else None
  }

  predicate Plain(c: CodePoint) {
    c >= 0x20 && c != QUOTE && c != BACKSLASH
  }

  predicate HighSurrogate(n: int) {
    0xD800 <= n <= 0xDBFF
  }

  predicate LowSurrogate(n: int) {
    0xDC00 <= n <= 0xDFFF
  }

  function PairValue(high: nat, low: nat): CodePoint
    requires HighSurrogate(high) && LowSurrogate(low)
  {
    0x10000 + (high - 0xD800) * 0x400 + (low - 0xDC00)
  }

  predicate StartsWithLow(raw: PyString) {
    |raw| >= 6 && UnicodeEscape(raw[..6]).Some? && LowSurrogate(UnicodeEscape(raw[..6]).value)
  }

  predicate IsPair(p: PyString, c: CodePoint) {
    && |p| == 12 && UnicodeEscape(p[..6]).Some? && HighSurrogate(UnicodeEscape(p[..6]).value)
    && StartsWithLow(p[6..])
    && c == PairValue(UnicodeEscape(p[..6]).value, UnicodeEscape(p[6..][..6]).value)
  }

  /** The ways in which one character may be written inside a JSON string. */
  predicate IsPiece(p: PyString, c: CodePoint) {
    || (p == [c] && Plain(c))
    || (|p| == 2 && p[0] == BACKSLASH && ShortEscape(p[1]) == Some(c))
    || UnicodeEscape(p) == Some(c)
    || IsPair(p, c)
  }

  /** An escaped high surrogate stands alone only when no escaped low surrogate follows: the two would be
      read as one character. */
  predicate PieceEnds(raw: PyString, k: nat, c: CodePoint)
    requires k <= |raw|
  {
    k == 6 && HighSurrogate(c) ==> !StartsWithLow(raw[k..])
  }

  ghost predicate StartsWithPiece(raw: PyString, k: nat, c: CodePoint) {
    0 < k <= |raw| && IsPiece(raw[..k], c) && PieceEnds(raw, k, c)
  }

  /** `raw` writes the characters of `s`, one piece each. */
  ghost predicate Encodes(raw: PyString, s: PyString)
    decreases |s|
  {
    if s == [] then raw == []
    else exists k: nat :: StartsWithPiece(raw, k, s[0]) && Encodes(raw[k..], s[1..])
  }

  /** The first character of a string body and the length of its piece. */
  function FirstPiece(raw: PyString): Option<(CodePoint, nat)>
    requires raw != []
  {
    if Plain(raw[0]) then Some((raw[0], 1))
    else if raw[0] != BACKSLASH || |raw| < 2 then None
    else if ShortEscape(raw[1]).Some? then Some((ShortEscape(raw[1]).value, 2))
    else if |raw| < 6 || UnicodeEscape(raw[..6]).None? then None
    else
      var n := UnicodeEscape(raw[..6]).value;
      if HighSurrogate(n) && StartsWithLow(raw[6..])
      then Some((PairValue(n, UnicodeEscape(raw[6..][..6]).value), 12))
      else Some((n, 6))
  }

  /** `json.loads` on a string token, without its quotes. */
  function Decode(raw: PyString): Option<PyString>
    decreases |raw|
  {
    if raw == [] then Some([])
    else
      match FirstPiece(raw)
      case None => None
      case Some((c, k)) =>
        if k > |raw| then None
        else
          match Decode(raw[k..])
          case None => None
          case Some(rest) => Some([c] + rest)
  }

  lemma LetterIsNoEscape()
    ensures ShortEscape(LETTER_U).None? && !Plain(BACKSLASH)
  {
  }

  lemma PieceIsFirst(raw: PyString, k: nat, c: CodePoint)
    requires StartsWithPiece(raw, k, c)
    ensures raw != [] && FirstPiece(raw) == Some((c, k))
  {
    hide Hex4, PairValue, ShortEscape;
    var p := raw[..k];
    LetterIsNoEscape();
    assert p[0] == raw[0] && (k > 1 ==> p[1] == raw[1]);
    if IsPair(p, c) {
      assert p[..6] == raw[..6];
      SliceOfTail(raw, 6, 0, 6);
      assert p[6..] == raw[6..12] && p[6..][..6] == raw[6..][..6];
    }
  }

  lemma FirstIsPiece(raw: PyString)
    requires raw != [] && FirstPiece(raw).Some?
    ensures StartsWithPiece(raw, FirstPiece(raw).value.1, FirstPiece(raw).value.0)
  {
    hide Hex4, PairValue, ShortEscape;
    var (c, k) := FirstPiece(raw).value;
    var p := raw[..k];
    if k == 12 {
      assert p[..6] == raw[..6];
      SliceOfTail(raw, 6, 0, 6);
      assert p[6..] == raw[6..12] && p[6..][..6] == raw[6..][..6];
    }
  }

  /** Decoding finds exactly the string that the text writes. */
  lemma {:induction false} DecodeExact(raw: PyString, s: PyString)
    ensures Decode(raw) == Some(s) <==> Encodes(raw, s)
    decreases |raw|
  {
    hide FirstPiece, IsPiece, PieceEnds;
    if raw == [] {
      assert s != [] ==> !Encodes(raw, s);
    } else {
      if FirstPiece(raw).Some? {
        FirstIsPiece(raw);
        var (c, k) := FirstPiece(raw).value;
        if s != [] {
          DecodeExact(raw[k..], s[1..]);
          if Decode(raw) == Some(s) {
            assert s == [c] + Decode(raw[k..]).value;
            assert Decode(raw[k..]).value == s[1..];
          }
        }
      }
      if Encodes(raw, s) && s != [] {
        var k: nat :| StartsWithPiece(raw, k, s[0]) && Encodes(raw[k..], s[1..]);
        PieceIsFirst(raw, k, s[0]);
        DecodeExact(raw[k..], s[1..]);
        assert s == [s[0]] + s[1..];
      }
    }
  }

  // ---- Tokens ----

  /** `str.isspace` on one character. */
  predicate IsSpace(c: CodePoint) {
    || 0x09 <= c <= 0x0D || 0x1C <= c <= 0x20 || c == 0x85 || c == 0xA0 || c == 0x1680 || 0x2000 <= c <= 0x200A
    || c == 0x2028 || c == 0x2029 || c == 0x202F || c == 0x205F || c == 0x3000
  }

  ghost predicate AllSpace(s: PyString) {
    forall i :: 0 <= i < |s| ==> IsSpace(s[i])
  }

  ghost predicate IsLexeme(lexeme: PyString, t: Token) {
    match t
    case LParen => lexeme == [LEFT]
    case RParen => lexeme == [RIGHT]
    case ArrowToken => lexeme == ARROW
    case StringToken(value) =>
      |lexeme| >= 2 && lexeme[0] == QUOTE && lexeme[|lexeme| - 1] == QUOTE && Encodes(lexeme[1..|lexeme| - 1], value)
  }

  /** The text writes the tokens in order, with any whitespace before, between and after them. */
  ghost predicate Renders(text: PyString, tokens: seq<Token>)
    decreases |tokens|
  {
    if tokens == [] then AllSpace(text)
    else exists i, j :: RendersFirst(text, tokens, i, j)
  }

  ghost predicate RendersFirst(text: PyString, tokens: seq<Token>, i: int, j: int)
    requires tokens != []
    decreases |tokens|, 0
  {
    && 0 <= i <= j <= |text| && AllSpace(text[..i]) && IsLexeme(text[i..j], tokens[0])
    && Renders(text[j..], tokens[1..])
  }

  /** Where the scan for the closing quote stops. */
  function Close(text: PyString, escaped: bool): (end: Option<nat>)
    ensures end.Some? ==> end.value < |text| && text[end.value] == QUOTE
  {
    if text == [] then None
    else if text[0] == QUOTE && !escaped then Some(0)
    else
      var next := if text[0] == BACKSLASH then !escaped else false;
      match Close(text[1..], next)
      case None => None
      case Some(n) => Some(n + 1)
  }

  function Shift(end: Option<nat>, n: nat): Option<nat> {
    if end.Some? then Some(end.value + n) else None
  }

  function Cons(t: Token, rest: Result<seq<Token>, ReadError>): Result<seq<Token>, ReadError> {
    if rest.Ok? then Ok([t] + rest.value) else rest
  }

  /** What `_tokenize` finds in a text. */
  function Lex(text: PyString): Result<seq<Token>, ReadError>
    decreases |text|
  {
    if text == [] then Ok([])
    else if IsSpace(text[0]) then Lex(text[1..])
    else if text[0] == LEFT then Cons(LParen, Lex(text[1..]))
    else if text[0] == RIGHT then Cons(RParen, Lex(text[1..]))
    else if |text| >= 2 && text[..2] == ARROW then Cons(ArrowToken, Lex(text[2..]))
    else if text[0] == QUOTE then
      match Close(text[1..], false)
      case None => Err(Unterminated)
      case Some(n) =>
        (match Decode(text[1..n + 1])
         case None => Err(BadString)
         case Some(value) => Cons(StringToken(value), Lex(text[n + 2..])))
    else Err(UnexpectedCharacter)
  }

  ghost predicate Inert(s: PyString) {
    forall i :: 0 <= i < |s| ==> s[i] != QUOTE && s[i] != BACKSLASH
  }

  lemma {:induction false} CloseInert(p: PyString, rest: PyString)
    requires Inert(p)
    ensures Close(p + rest, false) == Shift(Close(rest, false), |p|)
  {
    if p == [] {
      assert p + rest == rest;
    } else {
      assert (p + rest)[1..] == p[1..] + rest;
      CloseInert(p[1..], rest);
    }
  }

  lemma HexInert(s: PyString)
    requires Hex4(s).Some?
    ensures Inert(s)
  {
  }

  /** A backslash and the character it escapes never close the string. */
  lemma CloseEscape(c: CodePoint, rest: PyString)
    ensures Close([BACKSLASH, c] + rest, false) == Shift(Close(rest, false), 2)
  {
    var text := [BACKSLASH, c] + rest;
    assert text[1..] == [c] + rest && text[1..][1..] == rest;
  }

  lemma CloseUnicode(p: PyString, rest: PyString)
    requires UnicodeEscape(p).Some?
    ensures Close(p + rest, false) == Shift(Close(rest, false), 6)
  {
    hide Close, Hex4;
    HexInert(p[2..]);
    CloseInert(p[2..], rest);
    assert p + rest == [BACKSLASH, LETTER_U] + (p[2..] + rest);
    CloseEscape(LETTER_U, p[2..] + rest);
  }

  /** No piece of a string closes it. */
  lemma ClosePiece(p: PyString, c: CodePoint, rest: PyString)
    requires IsPiece(p, c)
    ensures Close(p + rest, false) == Shift(Close(rest, false), |p|)
  {
    hide Hex4, Close, PairValue;
    if UnicodeEscape(p) == Some(c) {
      CloseUnicode(p, rest);
    } else if IsPair(p, c) {
      assert p[6..][..6] == p[6..];
      CloseUnicode(p[6..], rest);
      CloseUnicode(p[..6], p[6..] + rest);
      assert p + rest == p[..6] + (p[6..] + rest);
    } else if |p| == 1 {
      CloseInert(p, rest);
    } else {
      assert p + rest == [BACKSLASH, p[1]] + rest;
      CloseEscape(p[1], rest);
    }
  }

  lemma {:induction false} CloseEncoded(raw: PyString, s: PyString, rest: PyString)
    requires Encodes(raw, s)
    ensures Close(raw + [QUOTE] + rest, false) == Some(|raw|)
    decreases |s|
  {
    hide IsPiece, PieceEnds;
    var tail := [QUOTE] + rest;
    assert raw + [QUOTE] + rest == raw + tail;
    if s == [] {
      assert raw + tail == tail;
    } else {
      var k: nat :| StartsWithPiece(raw, k, s[0]) && Encodes(raw[k..], s[1..]);
      CloseEncoded(raw[k..], s[1..], rest);
      ClosePiece(raw[..k], s[0], raw[k..] + tail);
      assert raw[k..] + [QUOTE] + rest == raw[k..] + tail;
      assert raw + tail == raw[..k] + (raw[k..] + tail);
    }
  }

  lemma {:induction false} LexSkips(space: PyString, rest: PyString)
    requires AllSpace(space)
    ensures Lex(space + rest) == Lex(rest)
  {
    if space == [] {
      assert space + rest == rest;
    } else {
      assert (space + rest)[1..] == space[1..] + rest;
      LexSkips(space[1..], rest);
    }
  }

  lemma LexLexeme(lexeme: PyString, t: Token, rest: PyString)
    requires IsLexeme(lexeme, t)
    ensures Lex(lexeme + rest) == Cons(t, Lex(rest))
  {
    hide Encodes, Decode, Close;
    var text := lexeme + rest;
    match t
    case LParen => assert text[1..] == rest;
    case RParen => assert text[1..] == rest;
    case ArrowToken => assert text[..2] == ARROW && text[2..] == rest;
    case StringToken(value) => LexString(lexeme, value, rest);
  }

  lemma QuotedText(lexeme: PyString, rest: PyString)
    requires |lexeme| >= 2 && lexeme[|lexeme| - 1] == QUOTE
    ensures var raw := lexeme[1..|lexeme| - 1];
            && (lexeme + rest)[1..] == raw + [QUOTE] + rest
            && (lexeme + rest)[1..|raw| + 1] == raw
            && (lexeme + rest)[|raw| + 2..] == rest
  {
  }

  lemma LexString(lexeme: PyString, value: PyString, rest: PyString)
    requires IsLexeme(lexeme, StringToken(value))
    ensures Lex(lexeme + rest) == Cons(StringToken(value), Lex(rest))
  {
    hide Encodes, Decode, Close, IsSpace;
    var raw := lexeme[1..|lexeme| - 1];
    CloseEncoded(raw, value, rest);
    DecodeExact(raw, value);
    QuoteIsNoSpace();
    QuotedText(lexeme, rest);
    QuoteStarts(lexeme + rest, |raw|, value);
  }

  lemma QuoteStarts(text: PyString, n: nat, value: PyString)
    requires n + 2 <= |text| && text[0] == QUOTE && !IsSpace(QUOTE)
    requires Close(text[1..], false) == Some(n) && Decode(text[1..n + 1]) == Some(value)
    ensures Lex(text) == Cons(StringToken(value), Lex(text[n + 2..]))
  {
    hide Encodes, Decode, Close, IsSpace;
    assert text[..2][0] == QUOTE;
  }

  /** The tokenizer reads back whatever tokens a text renders. */
  lemma {:induction false} LexReadsBack(text: PyString, tokens: seq<Token>)
    requires Renders(text, tokens)
    ensures Lex(text) == Ok(tokens)
    decreases |tokens|
  {
    hide IsLexeme, Lex;
    if tokens == [] {
      LexSkips(text, []);
      assert text + [] == text;
      LexNothing();
    } else {
      var i, j :| RendersFirst(text, tokens, i, j);
      LexReadsBack(text[j..], tokens[1..]);
      LexLexeme(text[i..j], tokens[0], text[j..]);
      LexSkips(text[..i], text[i..]);
      assert text == text[..i] + text[i..] && text[i..] == text[i..j] + text[j..];
      assert tokens == [tokens[0]] + tokens[1..];
    }
  }

  lemma LexNothing()
    ensures Lex([]) == Ok([])
  {
  }

  lemma RendersAfterSpace(text: PyString, tokens: seq<Token>)
    requires text != [] && IsSpace(text[0]) && Renders(text[1..], tokens)
    ensures Renders(text, tokens)
  {
    hide IsSpace, IsLexeme;
    var rest := text[1..];
    if tokens == [] {
      assert text == [text[0]] + rest;
    } else {
      var i, j :| RendersFirst(rest, tokens, i, j);
      FirstAfterSpace(text, tokens, i, j);
    }
  }

  lemma AllSpaceFront(text: PyString, n: nat)
    requires n <= |text| && forall k :: 0 <= k < n ==> IsSpace(text[k])
    ensures AllSpace(text[..n])
  {
  }

  lemma FirstAfterSpace(text: PyString, tokens: seq<Token>, i: int, j: int)
    requires text != [] && IsSpace(text[0]) && tokens != [] && RendersFirst(text[1..], tokens, i, j)
    ensures RendersFirst(text, tokens, i + 1, j + 1)
  {
    hide IsSpace, IsLexeme, Renders;
    SliceOfTail(text, 1, i, j);
    forall k | 0 <= k < i + 1 ensures IsSpace(text[k]) {
      if k > 0 {
        assert text[k] == text[1..][..i][k - 1];
      }
    }
    AllSpaceFront(text, i + 1);
  }

  lemma RendersLexeme(text: PyString, n: nat, t: Token, tokens: seq<Token>)
    requires n <= |text| && IsLexeme(text[..n], t) && Renders(text[n..], tokens)
    ensures Renders(text, [t] + tokens)
  {
    hide IsLexeme;
    assert ([t] + tokens)[1..] == tokens;
    assert text[0..n] == text[..n];
    assert RendersFirst(text, [t] + tokens, 0, n);
  }

  /** The tokenizer accepts only texts that render its tokens. */
  lemma {:induction false} LexSound(text: PyString)
    requires Lex(text).Ok?
    ensures Renders(text, Lex(text).value)
    decreases |text|
  {
    hide Renders, Encodes, Decode, Close, IsSpace;
    if text == [] {
      EmptyRenders();
    } else if IsSpace(text[0]) {
      LexSound(text[1..]);
      RendersAfterSpace(text, Lex(text).value);
    } else if text[0] == LEFT {
      LexSound(text[1..]);
      RendersLexeme(text, 1, LParen, Lex(text[1..]).value);
    } else if text[0] == RIGHT {
      LexSound(text[1..]);
      RendersLexeme(text, 1, RParen, Lex(text[1..]).value);
    } else if |text| >= 2 && text[..2] == ARROW {
      LexSound(text[2..]);
      RendersLexeme(text, 2, ArrowToken, Lex(text[2..]).value);
    } else {
      var n := Close(text[1..], false).value;
      var value := Decode(text[1..n + 1]).value;
      LexSound(text[n + 2..]);
      StringLexeme(text, n, value);
      RendersLexeme(text, n + 2, StringToken(value), Lex(text[n + 2..]).value);
    }
  }

  lemma EmptyRenders()
    ensures Renders([], [])
  {
  }

  lemma StringLexeme(text: PyString, n: nat, value: PyString)
    requires text != [] && text[0] == QUOTE && Close(text[1..], false) == Some(n)
             && Decode(text[1..n + 1]) == Some(value)
    ensures n + 2 <= |text| && IsLexeme(text[..n + 2], StringToken(value))
  {
    hide Encodes, Decode;
    DecodeExact(text[1..n + 1], value);
    assert text[..n + 2][1..n + 1] == text[1..n + 1];
    assert text[1..][n] == text[n + 1];
  }

  /** The tokens found are exactly those the text renders; a text renders at most one token sequence. */
  lemma LexExact(text: PyString, tokens: seq<Token>)
    ensures Lex(text) == Ok(tokens) <==> Renders(text, tokens)
  {
    hide Lex, Renders;
    if Renders(text, tokens) {
      LexReadsBack(text, tokens);
    }
    if Lex(text).Ok? {
      LexSound(text);
    }
  }

  function Joined(front: seq<Token>, rest: Result<seq<Token>, ReadError>): Result<seq<Token>, ReadError> {
    if rest.Ok? then Ok(front + rest.value) else rest
  }

  lemma JoinedNothing(rest: Result<seq<Token>, ReadError>)
    ensures Joined([], rest) == rest
  {
    if rest.Ok? {
      assert [] + rest.value == rest.value;
    }
  }

  lemma JoinedCons(front: seq<Token>, t: Token, rest: Result<seq<Token>, ReadError>)
    ensures Joined(front + [t], rest) == Joined(front, Cons(t, rest))
  {
    if rest.Ok? {
      assert front + [t] + rest.value == front + ([t] + rest.value);
    }
  }

  /** The scan for the closing quote. */
  method FindClose(text: PyString, start: nat) returns (end: nat)
    requires start <= |text|
    ensures start <= end <= |text|
    ensures Close(text[start..], false) == if end < |text| then Some(end - start) else None
  {
    hide Close;
    end := start;
    var escaped := false;
    while end < |text|
      invariant start <= end <= |text|
      invariant Close(text[start..], false) == Shift(Close(text[end..], escaped), end - start)
    {
      var current := text[end];
      CloseStep(text, end, escaped);
      if current == QUOTE && !escaped {
        return;
      }
      escaped := current == BACKSLASH && !escaped;
      if current != BACKSLASH {
        escaped := false;
      }
      end := end + 1;
    }
    CloseNothing(escaped);
  }

  lemma CloseStep(text: PyString, end: nat, escaped: bool)
    requires end < |text|
    ensures Close(text[end..], escaped) ==
              if text[end] == QUOTE && !escaped then Some(0)
              else Shift(Close(text[end + 1..], text[end] == BACKSLASH && !escaped), 1)
  {
    assert text[end..][1..] == text[end + 1..];
  }

  lemma CloseNothing(escaped: bool)
    ensures Close([], escaped).None?
  {
  }

  /** The string branch of the loop: the decoded token and the place after it. */
  method ReadString(text: PyString, index: nat) returns (r: Result<(PyString, nat), ReadError>)
    requires index < |text| && text[index] == QUOTE
    ensures r.Ok? ==> index < r.value.1 <= |text|
    ensures Lex(text[index..]) == if r.Ok? then Cons(StringToken(r.value.0), Lex(text[r.value.1..])) else Err(r.error)
  {
    hide IsSpace, Decode, Close;
    ghost var rest := text[index..];
    assert |rest| >= 2 ==> rest[..2] == text[index..index + 2];
    assert rest[1..] == text[index + 1..];
    QuoteIsNoSpace();
    var end := FindClose(text, index + 1);
    if end >= |text| {
      return Err(Unterminated);
    }
    assert rest[1..end - index] == text[index + 1..end] && rest[end + 1 - index..] == text[end + 1..];
    var value := Decode(text[index + 1..end]);
    if value.None? {
      return Err(BadString);
    }
    return Ok((value.value, end + 1));
  }

  lemma QuoteIsNoSpace()
    ensures !IsSpace(QUOTE)
  {
  }

  /** `_tokenize`. */
  method Tokenize(text: PyString) returns (r: Result<seq<Token>, ReadError>)
    ensures r == Lex(text)
    ensures forall tokens :: r == Ok(tokens) <==> Renders(text, tokens)
  {
    hide IsSpace, Decode, Renders, Close;
    forall tokens ensures Lex(text) == Ok(tokens) <==> Renders(text, tokens) {
      LexExact(text, tokens);
    }
    var tokens: seq<Token> := [];
    JoinedNothing(Lex(text));
    var index := 0;
    assert text[0..] == text;
    while index < |text|
      invariant 0 <= index <= |text| && Lex(text) == Joined(tokens, Lex(text[index..]))
    {
      var current := text[index];
      ghost var rest := text[index..];
      if IsSpace(current) {
        assert rest[1..] == text[index + 1..];
        index := index + 1;
        continue;
      }
      if current == LEFT {
        assert rest[1..] == text[index + 1..];
        JoinedCons(tokens, LParen, Lex(text[index + 1..]));
        tokens := tokens + [LParen];
        index := index + 1;
        continue;
      }
      if current == RIGHT {
        assert rest[1..] == text[index + 1..];
        JoinedCons(tokens, RParen, Lex(text[index + 1..]));
        tokens := tokens + [RParen];
        index := index + 1;
        continue;
      }
      if index + 2 <= |text| && text[index..index + 2] == ARROW {
        assert rest[..2] == text[index..index + 2] && rest[2..] == text[index + 2..];
        JoinedCons(tokens, ArrowToken, Lex(text[index + 2..]));
        tokens := tokens + [ArrowToken];
        index := index + 2;
        continue;
      }
      if current == QUOTE {
        var token := ReadString(text, index);
        if token.Err? {
          return Err(token.error);
        }
        JoinedCons(tokens, StringToken(token.value.0), Lex(text[token.value.1..]));
        tokens := tokens + [StringToken(token.value.0)];
        index := token.value.1;
        continue;
      }
      assert |rest| >= 2 ==> rest[..2] == text[index..index + 2];
      return Err(UnexpectedCharacter);
    }
    assert tokens + [] == tokens;
    return Ok(tokens);
  }

  // ---- Texts for tokens ----

  function HexDigit(n: nat): CodePoint
    requires n < 16
  {
    if n < 10 then '0' as int + n else 'a' as int + (n - 10)
  }

  /** One way to write a character: itself where that is allowed. */
  function PieceFor(c: CodePoint): PyString {
    if Plain(c) then [c]
    else if c == QUOTE || c == BACKSLASH then [BACKSLASH, c]
    else [BACKSLASH, LETTER_U, ZERO, ZERO, HexDigit(c / 16), HexDigit(c % 16)]
  }

  function Escaped(s: PyString): PyString {
    if s == [] then [] else PieceFor(s[0]) + Escaped(s[1..])
  }

  function LexemeFor(t: Token): PyString {
    match t
    case LParen => [LEFT]
    case RParen => [RIGHT]
    case ArrowToken => ARROW
    case StringToken(value) => [QUOTE] + Escaped(value) + [QUOTE]
  }

  /** The tokens in order, with nothing between them. */
  function Print(tokens: seq<Token>): PyString {
    if tokens == [] then [] else LexemeFor(tokens[0]) + Print(tokens[1..])
  }

  lemma HexDigits(n: nat)
    requires n < 0x20
    ensures Hex4([ZERO, ZERO, HexDigit(n / 16), HexDigit(n % 16)]) == Some(n)
  {
    assert n == n / 16 * 16 + n % 16;
  }

  lemma PieceForWrites(c: CodePoint)
    ensures IsPiece(PieceFor(c), c)
    ensures |PieceFor(c)| == 6 ==> !HighSurrogate(c)
  {
    hide Hex4;
    if !Plain(c) && c != QUOTE && c != BACKSLASH {
      HexDigits(c);
      assert PieceFor(c)[2..] == [ZERO, ZERO, HexDigit(c / 16), HexDigit(c % 16)];
    }
  }

  lemma {:induction false} EscapedEncodes(s: PyString)
    ensures Encodes(Escaped(s), s)
  {
    hide IsPiece, PieceFor;
    if s != [] {
      var raw, k := Escaped(s), |PieceFor(s[0])|;
      PieceForWrites(s[0]);
      EscapedEncodes(s[1..]);
      assert raw[..k] == PieceFor(s[0]) && raw[k..] == Escaped(s[1..]);
      PieceForLength(s[0]);
      assert StartsWithPiece(raw, k, s[0]);
    }
  }

  lemma PieceForLength(c: CodePoint)
    ensures PieceFor(c) != []
  {
  }

  lemma LexemeForWrites(t: Token)
    ensures IsLexeme(LexemeFor(t), t)
  {
    hide Encodes, Escaped;
    if t.StringToken? {
      var lexeme := LexemeFor(t);
      EscapedEncodes(t.value);
      assert lexeme[1..|lexeme| - 1] == Escaped(t.value);
    }
  }

  /** Every token sequence has a text. */
  lemma {:induction false} PrintRenders(tokens: seq<Token>)
    ensures Renders(Print(tokens), tokens)
  {
    hide IsLexeme, LexemeFor;
    if tokens != [] {
      var text, n := Print(tokens), |LexemeFor(tokens[0])|;
      LexemeForWrites(tokens[0]);
      PrintRenders(tokens[1..]);
      assert text[..n] == LexemeFor(tokens[0]) && text[n..] == Print(tokens[1..]);
      RendersLexeme(text, n, tokens[0], tokens[1..]);
      assert tokens == [tokens[0]] + tokens[1..];
    }
  }

  // ---- Expressions ----

  /** The token as the parser uses it: an arrow is the string `->`. */
  function ReadAs(t: Token): Token {
    if t.ArrowToken? then StringToken(ARROW) else t
  }

  function ReadAll(tokens: seq<Token>): seq<Token> {
    seq(|tokens|, i requires 0 <= i < |tokens| => ReadAs(tokens[i]))
  }

  /** The tokens of an expression, with every string quoted. */
  function Flatten(e: Expr): seq<Token>
    decreases e
  {
    match e
    case Text(value) => [StringToken(value)]
    case Items(items) => [LParen] + FlattenAll(items) + [RParen]
  }

  function FlattenAll(es: seq<Expr>): seq<Token>
    decreases es
  {
    if es == [] then [] else Flatten(es[0]) + FlattenAll(es[1..])
  }

  /** The tokens write the expression; the string `->` may be written by an arrow or quoted. */
  ghost predicate Writes(tokens: seq<Token>, e: Expr) {
    ReadAll(tokens) == Flatten(e)
  }

  /** The text renders tokens that write the expression. */
  ghost predicate RendersExpr(text: PyString, e: Expr) {
    exists tokens :: Renders(text, tokens) && Writes(tokens, e)
  }

  ghost predicate StartsWith(tokens: seq<Token>, front: seq<Token>) {
    |front| <= |tokens| && tokens[..|front|] == front
  }

  lemma FlattenFirst(e: Expr)
    ensures Flatten(e) != [] && Flatten(e)[0] != RParen
  {
  }

  lemma {:induction false} FlattenAppend(es: seq<Expr>, e: Expr)
    ensures FlattenAll(es + [e]) == FlattenAll(es) + Flatten(e)
  {
    hide Flatten;
    if es == [] {
      assert es + [e] == [e] && [e][1..] == [];
    } else {
      assert (es + [e])[1..] == es[1..] + [e];
      FlattenAppend(es[1..], e);
    }
  }

  /** No expression's tokens are a proper start of another's: a token sequence starts with at most one
      expression. */
  lemma {:induction false} FlattenUnique(e: Expr, f: Expr, a: seq<Token>, b: seq<Token>)
    requires Flatten(e) + a == Flatten(f) + b
    ensures e == f && a == b
    decreases e, 0
  {
    FlattenFirst(e);
    FlattenFirst(f);
    var whole := Flatten(e) + a;
    assert whole[0] == Flatten(e)[0] == Flatten(f)[0];
    match e
    case Text(value) =>
      assert whole[1..] == a && whole[1..] == b;
    case Items(items) =>
      assert f.Items?;
      assert whole[1..] == FlattenAll(items) + ([RParen] + a);
      assert whole[1..] == FlattenAll(f.items) + ([RParen] + b);
      FlattenAllUnique(items, f.items, a, b);
  }

  lemma {:induction false} FlattenAllUnique(es: seq<Expr>, fs: seq<Expr>, a: seq<Token>, b: seq<Token>)
    requires FlattenAll(es) + ([RParen] + a) == FlattenAll(fs) + ([RParen] + b)
    ensures es == fs && a == b
    decreases es, 1
  {
    var whole := FlattenAll(es) + ([RParen] + a);
    if es == [] || fs == [] {
      AllFirst(es, a);
      AllFirst(fs, b);
      assert whole[1..] == a && whole[1..] == b;
    } else {
      assert whole == Flatten(es[0]) + (FlattenAll(es[1..]) + ([RParen] + a));
      assert whole == Flatten(fs[0]) + (FlattenAll(fs[1..]) + ([RParen] + b));
      FlattenUnique(es[0], fs[0], FlattenAll(es[1..]) + ([RParen] + a), FlattenAll(fs[1..]) + ([RParen] + b));
      FlattenAllUnique(es[1..], fs[1..], a, b);
      assert es == [es[0]] + es[1..] && fs == [fs[0]] + fs[1..];
    }
  }

  lemma AllFirst(es: seq<Expr>, a: seq<Token>)
    ensures es == [] <==> (FlattenAll(es) + ([RParen] + a))[0] == RParen
  {
    if es != [] {
      FlattenFirst(es[0]);
    }
  }

  /** The tokens start with no expression. */
  ghost predicate NoExpression(tokens: seq<Token>) {
    forall e :: !StartsWith(tokens, Flatten(e))
  }

  /** The inside of a list, after `values`: the remaining tokens start with the rest of no list. */
  ghost predicate NoRest(tokens: seq<Token>) {
    forall es :: !StartsWith(tokens, FlattenAll(es) + [RParen])
  }

  lemma FirstToken(tokens: seq<Token>, front: seq<Token>)
    ensures StartsWith(tokens, front) && front != [] ==> tokens != [] && tokens[0] == front[0]
  {
    if StartsWith(tokens, front) && front != [] {
      assert tokens[..|front|][0] == tokens[0];
    }
  }

  lemma SplitStart(tokens: seq<Token>, front: seq<Token>, more: seq<Token>)
    ensures StartsWith(tokens, front + more) <==> StartsWith(tokens, front) && StartsWith(tokens[|front|..], more)
  {
    if |front + more| <= |tokens| {
      assert tokens[..|front + more|] == tokens[..|front|] + tokens[|front|..][..|more|];
      assert (front + more)[..|front|] == front && (front + more)[|front|..] == more;
      assert tokens[..|front + more|][..|front|] == tokens[..|front|];
      assert tokens[..|front + more|][|front|..] == tokens[|front|..][..|more|];
    }
  }

  /** A list can only go on with an expression or its closing parenthesis. */
  lemma RestSteps(tokens: seq<Token>)
    requires tokens == [] || (tokens[0] != RParen && NoExpression(tokens))
    ensures NoRest(tokens)
  {
    hide Flatten;
    forall es ensures !StartsWith(tokens, FlattenAll(es) + [RParen]) {
      if StartsWith(tokens, FlattenAll(es) + [RParen]) && es != [] {
        assert FlattenAll(es) + [RParen] == Flatten(es[0]) + (FlattenAll(es[1..]) + [RParen]);
        SplitStart(tokens, Flatten(es[0]), FlattenAll(es[1..]) + [RParen]);
      }
    }
  }

  lemma RestAfter(tokens: seq<Token>, e: Expr)
    requires StartsWith(tokens, Flatten(e)) && NoRest(tokens[|Flatten(e)|..])
    ensures NoRest(tokens)
  {
    forall es ensures !StartsWith(tokens, FlattenAll(es) + [RParen]) {
      if StartsWith(tokens, FlattenAll(es) + [RParen]) {
        if es == [] {
          FlattenFirst(e);
          FirstToken(tokens, Flatten(e));
          FirstToken(tokens, [RParen]);
        } else {
          RestContinues(tokens, e, es);
        }
      }
    }
  }

  lemma RestContinues(tokens: seq<Token>, e: Expr, es: seq<Expr>)
    requires StartsWith(tokens, Flatten(e)) && es != [] && StartsWith(tokens, FlattenAll(es) + [RParen])
    ensures !NoRest(tokens[|Flatten(e)|..])
  {
    hide Flatten;
    assert FlattenAll(es) + [RParen] == Flatten(es[0]) + (FlattenAll(es[1..]) + [RParen]);
    SplitStart(tokens, Flatten(es[0]), FlattenAll(es[1..]) + [RParen]);
    assert tokens == Flatten(e) + tokens[|Flatten(e)|..];
    assert tokens == Flatten(es[0]) + tokens[|Flatten(es[0])|..];
    FlattenUnique(e, es[0], tokens[|Flatten(e)|..], tokens[|Flatten(es[0])|..]);
  }

  lemma NoListFrom(tokens: seq<Token>)
    requires tokens != [] && tokens[0] == LParen && NoRest(tokens[1..])
    ensures NoExpression(tokens)
  {
    forall e ensures !StartsWith(tokens, Flatten(e)) {
      if StartsWith(tokens, Flatten(e)) {
        FirstToken(tokens, Flatten(e));
        assert e.Items?;
        assert Flatten(e) == [LParen] + (FlattenAll(e.items) + [RParen]);
        SplitStart(tokens, [LParen], FlattenAll(e.items) + [RParen]);
      }
    }
  }

  lemma NoneFrom(tokens: seq<Token>)
    requires tokens == [] || tokens[0] == RParen
    ensures NoExpression(tokens)
  {
    forall e ensures !StartsWith(tokens, Flatten(e)) {
      FlattenFirst(e);
      FirstToken(tokens, Flatten(e));
    }
  }

  /** The tokens between two places, enclosed in parentheses. */
  lemma Enclosed(read: seq<Token>, start: nat, end: nat)
    requires start + 2 <= end <= |read| && read[start] == LParen && read[end - 1] == RParen
    ensures read[start..end] == [LParen] + read[start + 1..end - 1] + [RParen]
  {
  }

  lemma OneMore(read: seq<Token>, start: nat, here: nat, after: nat)
    requires start <= here <= after <= |read|
    ensures read[start..after] == read[start..here] + read[here..after]
  {
  }

  lemma ReadSlice(tokens: seq<Token>, i: nat, j: nat)
    requires i <= j <= |tokens|
    ensures ReadAll(tokens[i..j]) == ReadAll(tokens)[i..j]
  {
  }

  lemma NoListAt(read: seq<Token>, start: nat)
    requires start < |read| && read[start] == LParen && NoRest(read[start + 1..])
    ensures NoExpression(read[start..])
  {
    hide NoRest, NoExpression;
    assert read[start..][1..] == read[start + 1..];
    NoListFrom(read[start..]);
  }

  lemma RestStepsAt(read: seq<Token>, here: nat)
    requires here <= |read| && (here == |read| || (read[here] != RParen && NoExpression(read[here..])))
    ensures NoRest(read[here..])
  {
    hide NoRest, NoExpression;
    RestSteps(read[here..]);
  }

  lemma ReadLength(tokens: seq<Token>)
    ensures |ReadAll(tokens)| == |tokens|
  {
  }

  lemma ReadAt(tokens: seq<Token>, i: nat)
    requires i < |tokens|
    ensures |ReadAll(tokens)| == |tokens| && ReadAll(tokens)[i] == ReadAs(tokens[i])
  {
  }

  lemma WritesOne(tokens: seq<Token>, i: nat)
    requires i < |tokens|
    ensures tokens[i].StringToken? ==> Writes(tokens[i..i + 1], Text(tokens[i].value))
    ensures tokens[i].ArrowToken? ==> Writes(tokens[i..i + 1], Text(ARROW))
  {
  }

  lemma WritesSlice(tokens: seq<Token>, i: nat, j: nat, e: Expr)
    requires i <= j <= |tokens|
    ensures |ReadAll(tokens)| == |tokens| && (Writes(tokens[i..j], e) <==> ReadAll(tokens)[i..j] == Flatten(e))
  {
    hide Flatten;
    ReadSlice(tokens, i, j);
  }

  /** Parentheses around the values make a list. */
  lemma WritesList(tokens: seq<Token>, start: nat, end: nat, values: seq<Expr>)
    requires start + 2 <= end <= |tokens| == |ReadAll(tokens)|
    requires ReadAll(tokens)[start] == LParen && ReadAll(tokens)[end - 1] == RParen
    requires ReadAll(tokens)[start + 1..end - 1] == FlattenAll(values)
    ensures Writes(tokens[start..end], Items(values))
  {
    hide FlattenAll, ReadAll;
    ReadSlice(tokens, start, end);
    Enclosed(ReadAll(tokens), start, end);
  }

  /** The recursive parser and its shared position. */
  class Parser {
    const tokens: seq<Token>
    var position: nat

    constructor (tokens: seq<Token>)
      ensures this.tokens == tokens && position == 0
    {
      this.tokens := tokens;
      position := 0;
    }

    /** `parse_expression`: reads the one expression the remaining tokens start with, and fails only
        when there is none. */
    method ParseExpression() returns (r: Result<Expr, ReadError>)
      requires position <= |tokens|
      modifies this`position
      ensures old(position) <= position <= |tokens|
      ensures r.Ok? ==> old(position) < position && Writes(tokens[old(position)..position], r.value)
      ensures r.Err? ==> NoExpression(ReadAll(tokens)[old(position)..])
      decreases |tokens| - position
    {
      hide NoRest, NoExpression, FlattenAll, Flatten, Writes, ReadAll;
      ghost var start := position;
      ghost var read := ReadAll(tokens);
      ReadLength(tokens);
      if position >= |tokens| {
        NoneFrom(read[start..]);
        return Err(UnexpectedEnd);
      }
      var token := tokens[position];
      ReadAt(tokens, start);
      position := position + 1;
      WritesOne(tokens, start);
      if token.StringToken? {
        return Ok(Text(token.value));
      }
      if token.ArrowToken? {
        return Ok(Text(ARROW));
      }
      if token != LParen {
        NoneFrom(read[start..]);
        return Err(UnexpectedToken);
      }
      var values: seq<Expr> := [];
      NothingFlattened();
      while position < |tokens| && tokens[position] != RParen
        invariant start < position <= |tokens| && read[start] == LParen
        invariant read[start + 1..position] == FlattenAll(values)
        invariant NoRest(read[position..]) ==> NoRest(read[start + 1..])
      {
        ghost var here := position;
        ReadAt(tokens, here);
        var value := ParseExpression();
        if value.Err? {
          RestStepsAt(read, here);
          NoListAt(read, start);
          return Err(value.error);
        }
        WritesSlice(tokens, here, position, value.value);
        OneMore(read, start + 1, here, position);
        FlattenAppend(values, value.value);
        RestCarried(read, here, position, value.value);
        values := values + [value.value];
      }
      if position >= |tokens| {
        RestStepsAt(read, position);
        NoListAt(read, start);
        return Err(Unclosed);
      }
      ReadAt(tokens, position);
      position := position + 1;
      WritesList(tokens, start, position, values);
      return Ok(Items(values));
    }
  }

  lemma NothingFlattened()
    ensures FlattenAll([]) == []
  {
  }

  lemma RestCarried(tokens: seq<Token>, here: nat, after: nat, e: Expr)
    requires here <= after <= |tokens| && tokens[here..after] == Flatten(e)
    ensures NoRest(tokens[after..]) ==> NoRest(tokens[here..])
  {
    hide NoRest;
    assert tokens[here..][..|Flatten(e)|] == tokens[here..after];
    assert tokens[here..][|Flatten(e)|..] == tokens[after..];
    if NoRest(tokens[after..]) {
      RestAfter(tokens[here..], e);
    }
  }

  // ---- The three readers ----

  /** `_parse_representation`: accepts exactly the texts that render a parenthesized expression. */
  method ParseRepresentation(text: PyString) returns (r: Result<seq<Expr>, ReadError>)
    ensures forall items :: r == Ok(items) <==> RendersExpr(text, Items(items))
  {
    hide Flatten, Lex, NoExpression, RendersExpr, Writes;
    var tokens := Tokenize(text);
    if tokens.Err? {
      forall e ensures !RendersExpr(text, e) {
        NoTokens(text, e);
      }
      return Err(tokens.error);
    }
    var parser := new Parser(tokens.value);
    var expression := parser.ParseExpression();
    if expression.Err? {
      forall e ensures !RendersExpr(text, e) {
        NotWhole(text, tokens.value, e);
      }
      return Err(expression.error);
    }
    if parser.position != |tokens.value| {
      forall e ensures !RendersExpr(text, e) {
        NotTrailing(text, tokens.value, parser.position, expression.value, e);
      }
      return Err(TrailingTokens);
    }
    forall e ensures RendersExpr(text, e) <==> e == expression.value {
      Whole(text, tokens.value, expression.value, e);
    }
    if !expression.value.Items? {
      return Err(NotParenthesized);
    }
    return Ok(expression.value.items);
  }

  /** A text renders an expression exactly when its tokens write it. */
  lemma RendersByLex(text: PyString, e: Expr)
    ensures RendersExpr(text, e) <==> Lex(text).Ok? && Writes(Lex(text).value, e)
  {
    hide Lex, Renders, Writes;
    if RendersExpr(text, e) {
      var tokens :| Renders(text, tokens) && Writes(tokens, e);
      LexExact(text, tokens);
    }
    if Lex(text).Ok? {
      LexExact(text, Lex(text).value);
    }
  }

  lemma NoTokens(text: PyString, e: Expr)
    requires Lex(text).Err?
    ensures !RendersExpr(text, e)
  {
    hide Lex, RendersExpr;
    RendersByLex(text, e);
  }

  lemma NotWhole(text: PyString, tokens: seq<Token>, e: Expr)
    requires Lex(text) == Ok(tokens) && NoExpression(ReadAll(tokens)[0..])
    ensures !RendersExpr(text, e)
  {
    hide Flatten, Lex, RendersExpr;
    RendersByLex(text, e);
    var read := ReadAll(tokens);
    assert read[0..] == read;
    assert StartsWith(read, read);
  }

  lemma NotTrailing(text: PyString, tokens: seq<Token>, position: nat, found: Expr, e: Expr)
    requires Lex(text) == Ok(tokens) && position < |tokens| && Writes(tokens[0..position], found)
    ensures !RendersExpr(text, e)
  {
    hide Flatten, Lex, RendersExpr;
    RendersByLex(text, e);
    var read := ReadAll(tokens);
    ReadSlice(tokens, 0, position);
    if read == Flatten(e) {
      assert Flatten(found) + read[position..] == Flatten(e) + [];
      FlattenUnique(found, e, read[position..], []);
    }
  }

  lemma Whole(text: PyString, tokens: seq<Token>, found: Expr, e: Expr)
    requires Lex(text) == Ok(tokens) && Writes(tokens[0..|tokens|], found)
    ensures RendersExpr(text, e) <==> e == found
  {
    hide Flatten, Lex, RendersExpr;
    RendersByLex(text, e);
    assert tokens[0..|tokens|] == tokens;
    if Writes(tokens, e) {
      assert Flatten(found) + [] == Flatten(e) + [];
      FlattenUnique(found, e, [], []);
    }
  }

  lemma FlattenHasNoArrow(e: Expr)
    ensures ReadAll(Flatten(e)) == Flatten(e)
  {
    FlattenQuoted(e);
  }

  lemma {:induction false} FlattenQuoted(e: Expr)
    ensures forall i :: 0 <= i < |Flatten(e)| ==> !Flatten(e)[i].ArrowToken?
    decreases e, 0
  {
    if e.Items? {
      FlattenAllQuoted(e.items);
    }
  }

  lemma {:induction false} FlattenAllQuoted(es: seq<Expr>)
    ensures forall i :: 0 <= i < |FlattenAll(es)| ==> !FlattenAll(es)[i].ArrowToken?
    decreases es, 1
  {
    if es != [] {
      FlattenQuoted(es[0]);
      FlattenAllQuoted(es[1..]);
    }
  }

  /** Reading inverts printing: every expression has a text, and whatever text renders it, no other
      expression is rendered by that text. */
  lemma PrintedReadsBack(e: Expr, f: Expr)
    ensures RendersExpr(Print(Flatten(e)), e)
    ensures RendersExpr(Print(Flatten(e)), f) ==> f == e
  {
    hide Flatten, Print, Lex;
    PrintRenders(Flatten(e));
    FlattenHasNoArrow(e);
    assert Writes(Flatten(e), e);
    if RendersExpr(Print(Flatten(e)), f) {
      TextsReadOnce(Print(Flatten(e)), e, f);
    }
  }

  lemma TextsReadOnce(text: PyString, e: Expr, f: Expr)
    requires RendersExpr(text, e) && RendersExpr(text, f)
    ensures e == f
  {
    hide Lex, Flatten, RendersExpr;
    RendersByLex(text, e);
    RendersByLex(text, f);
    assert Flatten(e) + [] == Flatten(f) + [];
    FlattenUnique(e, f, [], []);
  }

  // ---- Reading is not injective ----

  /** Another token sequence is read as the same expression exactly when one of the tokens is an arrow or
      the quoted string `->`. */
  lemma OnlySpelling(tokens: seq<Token>)
    ensures (forall other :: ReadAll(other) == ReadAll(tokens) ==> other == tokens) <==>
              ArrowToken !in tokens && StringToken(ARROW) !in tokens
  {
    if ArrowToken !in tokens && StringToken(ARROW) !in tokens {
      forall other | ReadAll(other) == ReadAll(tokens) ensures other == tokens {
        forall i | 0 <= i < |tokens| ensures other[i] == tokens[i] {
          assert |other| == |ReadAll(other)| == |tokens|;
          assert ReadAs(other[i]) == ReadAll(other)[i] == ReadAll(tokens)[i] == ReadAs(tokens[i]);
          assert tokens[i] in tokens;
        }
      }
    } else {
      var i :| 0 <= i < |tokens| && ReadAs(tokens[i]) == StringToken(ARROW);
      var swapped := tokens[i := if tokens[i].ArrowToken? then StringToken(ARROW) else ArrowToken];
      assert ReadAll(swapped) == ReadAll(tokens) && swapped[i] != tokens[i];
    }
  }

  datatype FormalLiteral = FormalLiteral(subject: PyString, relation: PyString, object_: PyString, negated: bool)

  datatype FormalRule = FormalRule(body: seq<FormalLiteral>, head: FormalLiteral)

  const PLUS: PyString := ['+' as int]
  const MINUS: PyString := ['-' as int]
  const TILDE: PyString := ['~' as int]

  /** A literal may be written with `+`, or with `-` or `~` when it is negated. */
  ghost predicate WritesLiteral(e: Expr, l: FormalLiteral) {
    exists polarity ::
      && e == Items([Text(l.subject), Text(l.relation), Text(l.object_), Text(polarity)])
      && polarity in {PLUS, MINUS, TILDE} && (l.negated <==> polarity != PLUS)
  }

  ghost predicate WritesBody(es: seq<Expr>, body: seq<FormalLiteral>) {
    |es| == |body| && forall i :: 0 <= i < |es| ==> WritesLiteral(es[i], body[i])
  }

  ghost predicate WritesRule(e: Expr, r: FormalRule) {
    && e.Items? && |e.items| == 3 && e.items[0].Items? && e.items[1] == Text(ARROW)
    && r.body != [] && WritesBody(e.items[0].items, r.body) && WritesLiteral(e.items[2], r.head)
  }

  /** `_literal_from_expression`. */
  function LiteralFrom(e: Expr): (r: Result<FormalLiteral, ReadError>)
    ensures forall l :: r == Ok(l) <==> WritesLiteral(e, l)
  {
    if !e.Items? || |e.items| != 4 || !e.items[0].Text? || !e.items[1].Text? || !e.items[2].Text? || !e.items[3].Text?
    then Err(BadLiteral)
    else
      var polarity := e.items[3].value;
      if polarity !in {PLUS, MINUS, TILDE} then Err(BadPolarity)
      else
        var l := FormalLiteral(e.items[0].value, e.items[1].value, e.items[2].value, polarity != PLUS);
        assert e.items == [Text(l.subject), Text(l.relation), Text(l.object_), Text(polarity)];
        assert WritesLiteral(e, l);
        Ok(l)
  }

  /** `parse_literal`: reads back every literal, however it is spaced, escaped and its arrows are written,
      and nothing else. */
  method ParseLiteral(text: PyString) returns (r: Result<FormalLiteral, ReadError>)
    ensures forall l :: r == Ok(l) <==> exists e :: WritesLiteral(e, l) && RendersExpr(text, e)
  {
    hide RendersExpr, WritesLiteral;
    var expression := ParseRepresentation(text);
    LiteralsAreLists();
    if expression.Err? {
      return Err(expression.error);
    }
    var items := expression.value;
    assert RendersExpr(text, Items(items));
    r := LiteralFrom(Items(items));
  }

  lemma LiteralsAreLists()
    ensures forall e, l :: WritesLiteral(e, l) ==> e.Items?
  {
  }

  /** `parse_rule`: reads back every rule, and nothing else. */
  method ParseRule(text: PyString) returns (r: Result<FormalRule, ReadError>)
    ensures forall rule :: r == Ok(rule) <==> exists e :: WritesRule(e, rule) && RendersExpr(text, e)
  {
    hide RendersExpr, WritesLiteral;
    var expression := ParseRepresentation(text);
    if expression.Err? {
      return Err(expression.error);
    }
    var items := expression.value;
    assert RendersExpr(text, Items(items));
    forall e, rule | WritesRule(e, rule) && RendersExpr(text, e) ensures e == Items(items) {
      assert e == Items(e.items);
    }
    LiteralsAreLists();
    if |items| != 3 || items[1] != Text(ARROW) || !items[0].Items? || !items[2].Items? {
      return Err(BadRule);
    }
    var bodyItems := items[0].items;
    if |bodyItems| == 0 {
      return Err(EmptyBody);
    }
    var body: seq<FormalLiteral> := [];
    for n := 0 to |bodyItems|
      invariant WritesBody(bodyItems[..n], body)
    {
      var literal := LiteralFrom(bodyItems[n]);
      if literal.Err? {
        return Err(literal.error);
      }
      body := body + [literal.value];
    }
    assert bodyItems[..|bodyItems|] == bodyItems;
    var head := LiteralFrom(items[2]);
    if head.Err? {
      return Err(head.error);
    }
    r := Ok(FormalRule(body, head.value));
    assert WritesRule(Items(items), r.value);
    forall rule | WritesRule(Items(items), rule) ensures rule == r.value {
      OneBody(bodyItems, rule.body, body);
      assert LiteralFrom(items[2]) == Ok(rule.head);
    }
  }

  lemma OneBody(es: seq<Expr>, a: seq<FormalLiteral>, b: seq<FormalLiteral>)
    requires WritesBody(es, a) && WritesBody(es, b)
    ensures a == b
  {
    hide WritesLiteral;
    forall i | 0 <= i < |es| ensures a[i] == b[i] {
      assert LiteralFrom(es[i]) == Ok(a[i]);
    }
  }

  function LiteralTokens(subject: Token, relation: PyString, object_: PyString): seq<Token> {
    [LParen, subject, StringToken(relation), StringToken(object_), StringToken(PLUS), RParen]
  }

  lemma LiteralSpelled(subject: Token, relation: PyString, object_: PyString)
    requires subject.ArrowToken? || subject.StringToken?
    ensures var l := FormalLiteral(ReadAs(subject).value, relation, object_, false);
            exists e :: WritesLiteral(e, l) && Writes(LiteralTokens(subject, relation, object_), e)
  {
    var e := Items([Text(ReadAs(subject).value), Text(relation), Text(object_), Text(PLUS)]);
    FlattenTexts([ReadAs(subject).value, relation, object_, PLUS], e.items);
    assert FlattenAll(e.items) == [ReadAs(subject), StringToken(relation), StringToken(object_), StringToken(PLUS)];
    assert Flatten(e) == ReadAll(LiteralTokens(subject, relation, object_));
    assert WritesLiteral(e, FormalLiteral(ReadAs(subject).value, relation, object_, false));
  }

  lemma {:induction false} FlattenTexts(values: seq<PyString>, es: seq<Expr>)
    requires |es| == |values| && forall i :: 0 <= i < |es| ==> es[i] == Text(values[i])
    ensures |FlattenAll(es)| == |values| && forall i :: 0 <= i < |values| ==>
        FlattenAll(es)[i] == StringToken(values[i])
  {
    if es != [] {
      FlattenTexts(values[1..], es[1..]);
    }
  }

  /** A field of a literal may be a bare arrow: `(-> "a" "b" "+")` and `("->" "a" "b" "+")` are different
      texts of one literal. */
  lemma ArrowAsField(relation: PyString, object_: PyString)
    ensures var l := FormalLiteral(ARROW, relation, object_, false);
            var bare, quoted := Print(LiteralTokens(ArrowToken, relation, object_)),
                                Print(LiteralTokens(StringToken(ARROW), relation, object_));
            && bare != quoted
            && (exists e :: WritesLiteral(e, l) && RendersExpr(bare, e))
            && (exists e :: WritesLiteral(e, l) && RendersExpr(quoted, e))
  {
    hide Print, Flatten, WritesLiteral, Lex, Writes, Renders;
    var a, b := LiteralTokens(ArrowToken, relation, object_), LiteralTokens(StringToken(ARROW), relation, object_);
    PrintRenders(a);
    PrintRenders(b);
    LexExact(Print(a), a);
    LexExact(Print(b), b);
    assert a[1] != b[1];
    LiteralSpelled(ArrowToken, relation, object_);
    LiteralSpelled(StringToken(ARROW), relation, object_);
  }

  /** The arrow of a rule may be quoted: replacing an arrow by the quoted string changes no reading, so a
      text whose rule has a bare arrow and one whose rule has a quoted arrow are the same rule. */
  lemma ArrowMayBeQuoted(before: seq<Token>, after: seq<Token>, rule: FormalRule)
    ensures var bare, quoted := before + [ArrowToken] + after, before + [StringToken(ARROW)] + after;
            && Print(bare) != Print(quoted)
            && ((exists e :: WritesRule(e, rule) && RendersExpr(Print(bare), e)) <==>
                (exists e :: WritesRule(e, rule) && RendersExpr(Print(quoted), e)))
  {
    hide Print, Flatten, WritesRule, Lex, Renders, RendersExpr;
    var bare, quoted := before + [ArrowToken] + after, before + [StringToken(ARROW)] + after;
    PrintRenders(bare);
    PrintRenders(quoted);
    LexExact(Print(bare), bare);
    LexExact(Print(quoted), quoted);
    assert bare[|before|] != quoted[|before|];
    assert ReadAll(bare) == ReadAll(quoted);
    forall e ensures RendersExpr(Print(bare), e) <==> RendersExpr(Print(quoted), e) {
      RendersByLex(Print(bare), e);
      RendersByLex(Print(quoted), e);
    }
  }

  /** The rule `((("a" "b" "c" "+")) "->" ("d" "e" "f" "+"))`, whatever its strings are. */
  lemma QuotedArrowRule(body: FormalLiteral, head: FormalLiteral)
    ensures var e := Items([Items([LiteralExpr(body)]), Text(ARROW), LiteralExpr(head)]);
            WritesRule(e, FormalRule([body], head)) && RendersExpr(Print(Flatten(e)), e)
            && StringToken(ARROW) in Flatten(e) && ArrowToken !in Flatten(e)
  {
    hide Print, Flatten, WritesLiteral;
    var e := Items([Items([LiteralExpr(body)]), Text(ARROW), LiteralExpr(head)]);
    PrintedReadsBack(e, e);
    LiteralExprWrites(body);
    LiteralExprWrites(head);
    FlattenQuoted(e);
    MiddleInFlatten(e.items[0], ARROW, e.items[2]);
  }

  function LiteralExpr(l: FormalLiteral): Expr {
    Items([Text(l.subject), Text(l.relation), Text(l.object_), Text(if l.negated then MINUS else PLUS)])
  }

  lemma LiteralExprWrites(l: FormalLiteral)
    ensures WritesLiteral(LiteralExpr(l), l)
  {
    assert PLUS[0] != MINUS[0];
  }

  lemma MiddleInFlatten(a: Expr, value: PyString, b: Expr)
    ensures StringToken(value) in Flatten(Items([a, Text(value), b]))
  {
    var es := [a, Text(value), b];
    assert es[1..] == [Text(value), b];
    assert FlattenAll(es) == Flatten(a) + (Flatten(Text(value)) + FlattenAll(es[1..][1..]));
    assert Flatten(Text(value)) == [StringToken(value)];
    var n := |Flatten(a)|;
    assert FlattenAll(es)[n] == StringToken(value);
  }
}
