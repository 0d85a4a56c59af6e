/** The JSON strings that the program writes into canonical keys are those that the reader reads, and what the
    escapes, the whitespace and the marks of both are (section 7 of RFC 8259). */
module JsonEscapes {
  import opened Logic
  import opened Canonicalization
  import opened CanonicalText
  import opened Reader

  /** The code points of a string. */
  function Points(s: string): PyString {
    seq(|s|, i requires 0 <= i < |s| => s[i] as int)
  }

  lemma PointsAppend(s: string, t: string)
    ensures Points(s + t) == Points(s) + Points(t)
  {
  }

  // ---- Hexadecimal digits ----

  function HexPoint(n: nat, upper: bool): CodePoint
    requires n < 16
  {
    if n < 10 then '0' as int + n else (if upper then 'A' as int else 'a' as int) + (n - 10)
  }

  lemma HexPointValue(n: nat, upper: bool)
    requires n < 16
    ensures HexValue(HexPoint(n, upper)) == Some(n)
  {
  }

  lemma HexCharPoint(n: nat)
    requires n < 16
    ensures HexChar(n) as int == HexPoint(n, false)
  {
  }

  lemma FourHexRead(n: nat)
    requires n < 0x10000
    ensures Hex4(Points(FourHex(n))) == Some(n)
  {
    hide HexChar, HexPoint, HexValue;
    var a, b, c, d := n / 256 / 16, n / 256 % 16, n % 256 / 16, n % 256 % 16;
    var s := Points(FourHex(n));
    HexCharPoint(a);
    HexCharPoint(b);
    HexCharPoint(c);
    HexCharPoint(d);
    HexPointValue(a, false);
    HexPointValue(b, false);
    HexPointValue(c, false);
    HexPointValue(d, false);
    assert s == [HexPoint(a, false), HexPoint(b, false), HexPoint(c, false), HexPoint(d, false)];
    assert n == 4096 * a + 256 * b + 16 * c + d;
  }

  lemma UnitRead(n: nat)
    requires n < 0x10000
    ensures |Points(UnitEscape(n))| == 6 && UnicodeEscape(Points(UnitEscape(n))) == Some(n)
  {
    hide FourHex, Hex4;
    FourHexLength(n);
    FourHexRead(n);
    assert Points(UnitEscape(n))[2..] == Points(FourHex(n));
  }

  // ---- What is written is what is read ----

  /** The characters between the quotes. */
  function Quoted(s: string): string {
    if s == [] then "" else Escape(s[0]) + Quoted(s[1..])
  }

  lemma {:induction false} QuotedThenClosed(s: string)
    ensures QuotedRest(s) == Quoted(s) + "\""
  {
    hide Escape;
    if s != [] {
      QuotedThenClosed(s[1..]);
    }
  }

  lemma ShortRead(c: char)
    requires EscapeLetter(c).Some?
    ensures ShortEscape(EscapeLetter(c).value as int) == Some(c as int)
  {
  }

  lemma PairRead(c: char)
    requires c as int >= 0x10000
    ensures var n := c as int - 0x10000;
            IsPair(Points(UnitEscape(0xD800 + n / 1024) + UnitEscape(0xDC00 + n % 1024)), c as int)
  {
    hide UnitEscape, UnicodeEscape;
    var n := c as int - 0x10000;
    var a, b := UnitEscape(0xD800 + n / 1024), UnitEscape(0xDC00 + n % 1024);
    UnitRead(0xD800 + n / 1024);
    UnitRead(0xDC00 + n % 1024);
    PointsAppend(a, b);
    var p := Points(a + b);
    assert p[..6] == Points(a) && p[6..] == Points(b) && p[6..][..6] == Points(b);
  }

  /** The escape of a character is a piece that reads as it. */
  lemma EscapeRead1(c: char)
    ensures Escape(c) != [] && IsPiece(Points(Escape(c)), c as int)
    ensures !HighSurrogate(c as int)
  {
    hide UnitEscape, UnicodeEscape, IsPair, EscapeLetter, ShortEscape;
    if EscapeLetter(c).Some? {
      ShortRead(c);
    } else if !Printable(c) {
      if c as int < 0x10000 {
        UnitRead(c as int);
      } else {
        PairRead(c);
      }
    } else {
      PrintableIsPlain(c);
    }
    EscapeStart(c, "");
  }

  lemma PrintableIsPlain(c: char)
    requires Printable(c) && EscapeLetter(c).None?
    ensures Plain(c as int)
  {
  }

  lemma {:induction false} QuotedEncodes(s: string)
    ensures Encodes(Points(Quoted(s)), Points(s))
  {
    hide Escape, IsPiece;
    if s != [] {
      var k := |Escape(s[0])|;
      EscapeRead1(s[0]);
      QuotedEncodes(s[1..]);
      PointsAppend(Escape(s[0]), Quoted(s[1..]));
      var raw := Points(Quoted(s));
      assert raw[..k] == Points(Escape(s[0])) && raw[k..] == Points(Quoted(s[1..]));
      assert Points(s)[1..] == Points(s[1..]) && Points(s)[0] == s[0] as int;
      assert StartsWithPiece(raw, k, s[0] as int);
    }
  }

  /** Reading a string that was quoted for a key gives it back. */
  lemma QuoteReadsBack(s: string)
    ensures JsonQuote()(s) == "\"" + Quoted(s) + "\"" && Decode(Points(Quoted(s))) == Some(Points(s))
  {
    hide Decode, Encodes;
    QuotedThenClosed(s);
    QuotedEncodes(s);
    DecodeExact(Points(Quoted(s)), Points(s));
  }

  // ---- What the escapes are ----

  lemma OnePiece(raw: PyString)
    requires raw != []
    requires FirstPiece(raw).Some? ==> FirstPiece(raw).value.1 == |raw|
    ensures Decode(raw) == if FirstPiece(raw).Some? then Some([FirstPiece(raw).value.0]) else None
  {
    hide FirstPiece;
    var rest: PyString := raw[|raw|..];
    assert rest == [];
    assert Decode(rest) == Some([]);
    if FirstPiece(raw).Some? {
      var (c, k) := FirstPiece(raw).value;
      assert [c] + [] == [c];
    }
  }

  /** The escape by a letter, as `json.loads` reads it. */
  lemma LettersRead(c: CodePoint)
    ensures Decode([92, c]) ==
              if c == 34 || c == 92 || c == 47 then Some([c])
              else if c == 'b' as int then Some([8])
              else if c == 'f' as int then Some([12])
              else if c == 'n' as int then Some([10])
              else if c == 'r' as int then Some([13])
              else if c == 't' as int then Some([9])
              else None
  {
    OnePiece([92, c]);
  }

  /** Four digits of either case give their value; a lone surrogate stays one. */
  lemma DigitsRead(a: nat, b: nat, c: nat, d: nat, upper: bool)
    requires a < 16 && b < 16 && c < 16 && d < 16
    ensures Decode([92, 'u' as int, HexPoint(a, upper), HexPoint(b, upper), HexPoint(c, upper), HexPoint(d, upper)]) ==
              Some([4096 * a + 256 * b + 16 * c + d])
  {
    hide HexPoint, HexValue;
    var digits := [HexPoint(a, upper), HexPoint(b, upper), HexPoint(c, upper), HexPoint(d, upper)];
    HexPointValue(a, upper);
    HexPointValue(b, upper);
    HexPointValue(c, upper);
    HexPointValue(d, upper);
    SixRead(digits, 4096 * a + 256 * b + 16 * c + d);
    assert [92, 'u' as int] + digits ==
           [92, 'u' as int, HexPoint(a, upper), HexPoint(b, upper), HexPoint(c, upper), HexPoint(d, upper)];
  }

  lemma SixRead(digits: PyString, n: nat)
    requires |digits| == 4 && Hex4(digits) == Some(n)
    ensures Decode([92, 'u' as int] + digits) == Some([n])
  {
    hide Hex4;
    var raw := [92, 'u' as int] + digits;
    assert raw[2..] == digits && raw[..6] == raw && raw[6..] == [];
    assert FirstPiece(raw) == Some((n, 6));
    OnePiece(raw);
  }

  /** A character that stands for itself: not a control character, a quote or a backslash. */
  lemma PlainRead(c: CodePoint)
    ensures Decode([c]) == if 0x20 <= c && c != 34 && c != 92 then Some([c]) else None
  {
    OnePiece([c]);
  }

  /** What stands for itself in a string that is written: printable ASCII but the quote and the backslash. */
  lemma PlainWritten(c: char)
    ensures Escape(c) == [c] <==> 0x20 <= c as int <= 0x7E && c as int != 34 && c as int != 92
  {
    hide FourHex;
  }

  /** What is written with a letter. */
  lemma LettersWritten()
    ensures Escape('\"') == "\\\"" && Escape('\\') == "\\\\" && Escape('\n') == "\\n" && Escape('\r') == "\\r"
    ensures Escape('\t') == "\\t" && Escape(8 as char) == "\\b" && Escape(12 as char) == "\\f"
  {
  }

  // ---- Whitespace, brackets and marks ----

  /** The characters that separate tokens: those of `str.isspace`. */
  lemma SpacesAre(c: CodePoint)
    ensures Lex([c]) == Ok([]) <==>
              c in {0x09, 0x0A, 0x0B, 0x0C, 0x0D, 0x1C, 0x1D, 0x1E, 0x1F, 0x20, 0x85, 0xA0, 0x1680,
                    0x2000, 0x2001, 0x2002, 0x2003, 0x2004, 0x2005, 0x2006, 0x2007, 0x2008, 0x2009, 0x200A,
                    0x2028, 0x2029, 0x202F, 0x205F, 0x3000}
  {
    assert [c][1..] == [];
  }

  lemma BracketsAre()
    ensures Lex(Points("(")) == Ok([LParen]) && Lex(Points(")")) == Ok([RParen])
    ensures Lex(Points("->")) == Ok([ArrowToken])
  {
    var left, right, arrow := Points("("), Points(")"), Points("->");
    var none: PyString := [];
    assert Lex(none) == Ok([]);
    assert [LParen] + [] == [LParen] && [RParen] + [] == [RParen] && [ArrowToken] + [] == [ArrowToken];
    assert left == [LEFT] && left[1..] == [] && right == [RIGHT] && right[1..] == [];
    assert arrow == ARROW && arrow[..2] == ARROW && arrow[2..] == [];
    assert Lex(left) == Cons(LParen, Lex(none)) && Lex(right) == Cons(RParen, Lex(none));
    assert Lex(arrow) == Cons(ArrowToken, Lex(none));
  }

  /** A literal is positive when it is marked `+` and negated when it is marked `-` or `~`. */
  lemma MarksAre(subject: PyString, relation: PyString, object_: PyString, mark: PyString)
    ensures var e := Items([Text(subject), Text(relation), Text(object_), Text(mark)]);
            LiteralFrom(e) ==
              if mark == Points("+") then Ok(FormalLiteral(subject, relation, object_, false))
              else if mark == Points("-") || mark == Points("~")
              then Ok(FormalLiteral(subject, relation, object_, true))
              else Err(BadPolarity)
  {
    assert Points("+") == PLUS && Points("-") == MINUS && Points("~") == TILDE;
  }

  // ---- What a key looks like ----

  lemma NamesAre()
    ensures CanonicalName(0) == "V0" && CanonicalName(9) == "V9" && CanonicalName(10) == "V10"
    ensures CanonicalName(63) == "V63"
  {
  }

  lemma {:induction false} PlainRest(s: string)
    requires forall i :: 0 <= i < |s| ==> 'a' <= s[i] <= 'z' || s[i] == 'V' || s[i] == '0'
    ensures QuotedRest(s) == s + "\""
  {
    hide Escape;
    if s != [] {
      PlainRest(s[1..]);
      PlainLetter(s[0]);
      assert s + "\"" == [s[0]] + (s[1..] + "\"");
    }
  }

  lemma PlainLetter(c: char)
    requires 'a' <= c <= 'z' || c == 'V' || c == '0'
    ensures Escape(c) == [c]
  {
  }

  /** A string without special characters in quotes. */
  function InQuotes(s: string): string {
    "\"" + s + "\""
  }

  lemma PlainQuoted(s: string)
    requires forall i :: 0 <= i < |s| ==> 'a' <= s[i] <= 'z' || s[i] == 'V' || s[i] == '0'
    ensures JsonQuote()(s) == InQuotes(s)
  {
    hide QuotedRest;
    PlainRest(s);
  }

  lemma TermTexts()
    ensures TermText(JsonQuote())(EntityTerm("a")) == "[" + InQuotes("entity") + "," + InQuotes("a") + "]"
    ensures TermText(JsonQuote())(VariableTerm("V0")) == "[" + InQuotes("variable") + "," + InQuotes("V0") + "]"
  {
    hide JsonQuote, InQuotes;
    PlainQuoted("entity");
    PlainQuoted("a");
    PlainQuoted("variable");
    PlainQuoted("V0");
    var a, v := EntityTerm("a"), VariableTerm("V0");
    assert Kind(a) == "entity" && Name(a) == "a" && Kind(v) == "variable" && Name(v) == "V0";
  }

  lemma OneItem<T>(x: T, text: T -> string)
    ensures ArrayText([x], text) == "[" + text(x) + "]"
  {
    assert [x][1..] == [];
    assert TailText<T>([], text) == "]";
  }

  lemma TwoItems<T>(x: T, y: T, text: T -> string)
    ensures ArrayText([x, y], text) == "[" + text(x) + ("," + text(y) + "]")
  {
    assert [x, y][1..] == [y] && [y][1..] == [];
    assert TailText<T>([], text) == "]";
    assert TailText([y], text) == "," + text(y) + "]";
  }

  /** The text of `p(V0, a)` or its denial. */
  function ExampleText(negated: bool): string {
    "[" + InQuotes("p") + "," + (if negated then "true" else "false") + ","
    + ("[" + ("[" + InQuotes("variable") + "," + InQuotes("V0") + "]")
       + ("," + ("[" + InQuotes("entity") + "," + InQuotes("a") + "]") + "]"))
    + "]"
  }

  function ExampleShape(negated: bool): LiteralShape {
    LiteralShape("p", negated, [VariableTerm("V0"), EntityTerm("a")])
  }

  lemma LiteralTexts(negated: bool)
    ensures LiteralText(JsonQuote())(ExampleShape(negated)) == ExampleText(negated)
  {
    hide JsonQuote, TermText, ArrayText, InQuotes;
    PlainQuoted("p");
    TermTexts();
    TwoItems(VariableTerm("V0"), EntityTerm("a"), TermText(JsonQuote()));
  }

  /** The texts of a literal and of a rule, spelled out. */
  lemma KeyTextsAre()
    ensures JSON(FactShape(ExampleShape(true))) == ExampleText(true)
    ensures JSON(RuleShape([ExampleShape(false)], ExampleShape(true))) ==
              "{" + InQuotes("body") + ":[" + ExampleText(false) + "],"
              + InQuotes("head") + ":" + ExampleText(true) + "}"
  {
    hide JsonQuote, LiteralText, ArrayText, ExampleText, ExampleShape;
    LiteralTexts(false);
    LiteralTexts(true);
    OneItem(ExampleShape(false), LiteralText(JsonQuote()));
    var body, head := ExampleText(false), ExampleText(true);
    assert JSON(RuleShape([ExampleShape(false)], ExampleShape(true))) ==
           "{\"body\":" + ("[" + body + "]") + ",\"head\":" + head + "}";
    Labels(body, head);
  }

  lemma Labels(body: string, head: string)
    ensures "{\"body\":" + ("[" + body + "]") + ",\"head\":" + head + "}" ==
              "{" + InQuotes("body") + ":[" + body + "]," + InQuotes("head") + ":" + head + "}"
  {
    assert "{\"body\":" + "[" == "{" + InQuotes("body") + ":[";
    assert "]" + ",\"head\":" == "]," + InQuotes("head") + ":";
    var a, b := "{\"body\":", ",\"head\":";
    assert a + ("[" + body + "]") + b + head + "}" == (a + "[") + body + ("]" + b) + head + "}";
    assert "{" + InQuotes("body") + ":[" + body + "]," + InQuotes("head") + ":" + head + "}" ==
           ("{" + InQuotes("body") + ":[") + body + ("]," + InQuotes("head") + ":") + head + "}";
  }
}
