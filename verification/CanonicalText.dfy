/** The JSON text of canonical shapes (backend/src/verilogic_ns_api/semantic_parsing/canonicalization.py): it
    determines the shape and follows the canonical names, so key equality is what it is meant to be. */
module CanonicalText {
  import opened Keys
  import opened Logic
  import opened Semantics
  import opened Canonicalization
  import opened CanonicalKeys

  type Quote = string -> string

  /** A text is over where its last character stands, whatever follows it. */
  ghost predicate Delimits<T(!new)>(text: T -> string) {
    forall a, b, x, y :: text(a) + x == text(b) + y ==> a == b && x == y
  }

  /** The canonical names need no escapes. */
  ghost predicate KeepsNames(quote: Quote) {
    forall i: nat :: i < 10 ==> quote(CanonicalName(i)) == "\"" + CanonicalName(i) + "\""
  }

  function TailText<T>(xs: seq<T>, text: T -> string): string {
    if xs == [] then "]" else "," + text(xs[0]) + TailText(xs[1..], text)
  }

  /** A JSON array, with no blanks between its items. */
  function ArrayText<T>(xs: seq<T>, text: T -> string): string {
    if xs == [] then "[]" else "[" + text(xs[0]) + TailText(xs[1..], text)
  }

  function Kind(t: Term): string {
    if t.EntityTerm? then "entity" else "variable"
  }

  function Name(t: Term): string {
    if t.EntityTerm? then t.id else t.name
  }

  function TermText(quote: Quote): Term -> string {
    (t: Term) => "[" + quote(Kind(t)) + "," + quote(Name(t)) + "]"
  }

  function BoolText(b: bool): string {
    if b then "true" else "false"
  }

  function LiteralText(quote: Quote): LiteralShape -> string {
    (l: LiteralShape) =>
      "[" + quote(l.pred) + "," + BoolText(l.negated) + "," + ArrayText(l.arguments, TermText(quote)) + "]"
  }

  /** `json.dumps` of a fact key, or of a rule with its keys in order. */
  function ShapeText(quote: Quote): Dumps {
    (s: Shape) => match s
                  case FactShape(l) => LiteralText(quote)(l)
                  case RuleShape(body, head) =>
                    "{\"body\":" + ArrayText(body, LiteralText(quote)) + ",\"head\":" + LiteralText(quote)(head) + "}"
  }

  // ---- The text determines the shape ----

  lemma SamePrefix(p: string, a: string, b: string)
    requires p + a == p + b
    ensures a == b
  {
    assert (p + a)[|p|..] == a && (p + b)[|p|..] == b;
  }

  /** Reading an item off the front of a text. */
  lemma ItemRead<T(!new)>(text: T -> string, a: T, b: T, x: string, y: string)
    requires Delimits(text) && text(a) + x == text(b) + y
    ensures a == b && x == y
  {
  }

  lemma SameItems<T>(xs: seq<T>, ys: seq<T>)
    requires xs != [] && ys != [] && xs[0] == ys[0] && xs[1..] == ys[1..]
    ensures xs == ys
  {
    assert xs == [xs[0]] + xs[1..] && ys == [ys[0]] + ys[1..];
  }

  lemma {:induction false} TailDelimits<T(!new)>(xs: seq<T>, ys: seq<T>, text: T -> string, x: string, y: string)
    requires Delimits(text) && TailText(xs, text) + x == TailText(ys, text) + y
    ensures xs == ys && x == y
  {
    hide Delimits;
    var u, v := TailText(xs, text) + x, TailText(ys, text) + y;
    assert u[0] == (if xs == [] then ']' else ',') && v[0] == (if ys == [] then ']' else ',');
    if xs == [] {
      SamePrefix("]", x, y);
    } else {
      var s, t := TailText(xs[1..], text) + x, TailText(ys[1..], text) + y;
      assert u == "," + (text(xs[0]) + s);
      assert v == "," + (text(ys[0]) + t);
      SamePrefix(",", text(xs[0]) + s, text(ys[0]) + t);
      ItemRead(text, xs[0], ys[0], s, t);
      TailDelimits(xs[1..], ys[1..], text, x, y);
      SameItems(xs, ys);
    }
  }

  /** Array items start with a bracket of their own, so an empty array shows in its second character. */
  ghost predicate Bracketed<T(!new)>(text: T -> string) {
    forall a :: text(a) != [] && text(a)[0] == '['
  }

  lemma ArrayStarts<T(!new)>(xs: seq<T>, text: T -> string, x: string)
    requires Bracketed(text)
    ensures |ArrayText(xs, text)| >= 2 && (ArrayText(xs, text) + x)[1] == if xs == [] then ']' else '['
    ensures xs != [] ==> ArrayText(xs, text) + x == "[" + (text(xs[0]) + (TailText(xs[1..], text) + x))
  {
    if xs != [] {
      assert text(xs[0])[0] == '[';
    }
  }

  lemma ArrayDelimits<T(!new)>(xs: seq<T>, ys: seq<T>, text: T -> string, x: string, y: string)
    requires Delimits(text) && Bracketed(text) && ArrayText(xs, text) + x == ArrayText(ys, text) + y
    ensures xs == ys && x == y
  {
    hide Delimits, Bracketed, TailText;
    ArrayStarts(xs, text, x);
    ArrayStarts(ys, text, y);
    if xs == [] {
      SamePrefix("[]", x, y);
    } else {
      var s, t := TailText(xs[1..], text) + x, TailText(ys[1..], text) + y;
      SamePrefix("[", text(xs[0]) + s, text(ys[0]) + t);
      ItemRead(text, xs[0], ys[0], s, t);
      TailDelimits(xs[1..], ys[1..], text, x, y);
      SameItems(xs, ys);
    }
  }

  lemma TermDelimits(quote: Quote)
    requires Delimits(quote)
    ensures Delimits(TermText(quote)) && Bracketed(TermText(quote))
  {
    var text := TermText(quote);
    forall s, t, x, y | text(s) + x == text(t) + y ensures s == t && x == y {
      TermRead(quote, s, t, x, y);
    }
  }

  lemma TermParts(quote: Quote, t: Term, x: string)
    ensures TermText(quote)(t) + x == "[" + (quote(Kind(t)) + ("," + (quote(Name(t)) + ("]" + x))))
  {
    hide Kind, Name;
  }

  lemma KindAndName(s: Term, t: Term)
    requires Kind(s) == Kind(t) && Name(s) == Name(t)
    ensures s == t
  {
    assert |Kind(s)| == (if s.EntityTerm? then 6 else 8) && |Kind(t)| == (if t.EntityTerm? then 6 else 8);
  }

  lemma TermRead(quote: Quote, s: Term, t: Term, x: string, y: string)
    requires Delimits(quote) && TermText(quote)(s) + x == TermText(quote)(t) + y
    ensures s == t && x == y
  {
    hide Delimits, Kind, Name, TermText;
    var u, v := quote(Name(s)) + ("]" + x), quote(Name(t)) + ("]" + y);
    TermParts(quote, s, x);
    TermParts(quote, t, y);
    SamePrefix("[", quote(Kind(s)) + ("," + u), quote(Kind(t)) + ("," + v));
    ItemRead(quote, Kind(s), Kind(t), "," + u, "," + v);
    SamePrefix(",", u, v);
    ItemRead(quote, Name(s), Name(t), "]" + x, "]" + y);
    SamePrefix("]", x, y);
    KindAndName(s, t);
  }

  lemma LiteralDelimits(quote: Quote)
    requires Delimits(quote)
    ensures Delimits(LiteralText(quote)) && Bracketed(LiteralText(quote))
  {
    var text := LiteralText(quote);
    forall s, t, x, y | text(s) + x == text(t) + y ensures s == t && x == y {
      LiteralRead(quote, s, t, x, y);
    }
  }

  lemma BoolRead(a: bool, b: bool, x: string, y: string)
    requires BoolText(a) + x == BoolText(b) + y
    ensures a == b && x == y
  {
    assert (BoolText(a) + x)[0] == (if a then 't' else 'f') && (BoolText(b) + y)[0] == (if b then 't' else 'f');
    SamePrefix(BoolText(a), x, y);
  }

  lemma LiteralRead(quote: Quote, s: LiteralShape, t: LiteralShape, x: string, y: string)
    requires Delimits(quote) && LiteralText(quote)(s) + x == LiteralText(quote)(t) + y
    ensures s == t && x == y
  {
    hide Delimits, Bracketed, ArrayText, TermText, BoolText;
    var s3 := ArrayText(s.arguments, TermText(quote)) + ("]" + x);
    var t3 := ArrayText(t.arguments, TermText(quote)) + ("]" + y);
    var s2, t2 := BoolText(s.negated) + ("," + s3), BoolText(t.negated) + ("," + t3);
    assert LiteralText(quote)(s) + x == "[" + (quote(s.pred) + ("," + s2));
    assert LiteralText(quote)(t) + y == "[" + (quote(t.pred) + ("," + t2));
    SamePrefix("[", quote(s.pred) + ("," + s2), quote(t.pred) + ("," + t2));
    ItemRead(quote, s.pred, t.pred, "," + s2, "," + t2);
    SamePrefix(",", s2, t2);
    BoolRead(s.negated, t.negated, "," + s3, "," + t3);
    SamePrefix(",", s3, t3);
    TermDelimits(quote);
    ArrayDelimits(s.arguments, t.arguments, TermText(quote), "]" + x, "]" + y);
    SamePrefix("]", x, y);
  }

  /** Different shapes have different texts. */
  lemma TextIsInjective(quote: Quote)
    requires Delimits(quote)
    ensures InjectiveDumps(ShapeText(quote))
  {
    hide Delimits, LiteralText, ArrayText;
    forall a, b | ShapeText(quote)(a) == ShapeText(quote)(b) ensures a == b {
      ShapeRead(quote, a, b);
    }
  }

  lemma ShapeRead(quote: Quote, a: Shape, b: Shape)
    requires Delimits(quote) && ShapeText(quote)(a) == ShapeText(quote)(b)
    ensures a == b
  {
    hide Delimits, LiteralText, ArrayText;
    var literal := LiteralText(quote);
    LiteralDelimits(quote);
    ShapeStarts(quote, a);
    ShapeStarts(quote, b);
    if a.FactShape? {
      assert literal(a.literal) + "" == literal(b.literal) + "";
      LiteralRead(quote, a.literal, b.literal, "", "");
    } else {
      RuleRead(quote, a, b);
    }
  }

  lemma ShapeStarts(quote: Quote, a: Shape)
    requires Bracketed(LiteralText(quote))
    ensures ShapeText(quote)(a) != [] && ShapeText(quote)(a)[0] == if a.FactShape? then '[' else '{'
  {
    hide LiteralText, ArrayText;
  }

  lemma RuleRead(quote: Quote, a: Shape, b: Shape)
    requires Delimits(quote) && a.RuleShape? && b.RuleShape? && ShapeText(quote)(a) == ShapeText(quote)(b)
    ensures a == b
  {
    hide Delimits, Bracketed, LiteralText, ArrayText;
    var literal := LiteralText(quote);
    LiteralDelimits(quote);
    var x, y := literal(a.head) + "}", literal(b.head) + "}";
    var u, v := ArrayText(a.body, literal), ArrayText(b.body, literal);
    assert ShapeText(quote)(a) == "{\"body\":" + (u + (",\"head\":" + x));
    assert ShapeText(quote)(b) == "{\"body\":" + (v + (",\"head\":" + y));
    SamePrefix("{\"body\":", u + (",\"head\":" + x), v + (",\"head\":" + y));
    ArrayDelimits(a.body, b.body, literal, ",\"head\":" + x, ",\"head\":" + y);
    SamePrefix(",\"head\":", x, y);
    LiteralRead(quote, a.head, b.head, "}", "}");
  }

  // ---- The text follows the canonical names ----

  /** Of equal length, and nowhere higher. */
  ghost predicate LowerText(a: string, b: string) {
    |a| == |b| && forall i :: 0 <= i < |a| ==> a[i] <= b[i]
  }

  lemma {:induction false} LowerTextFirst(a: string, b: string)
    requires LowerText(a, b)
    ensures StrLeq(a, b)
  {
    if a != [] {
      LowerTextFirst(a[1..], b[1..]);
    }
  }

  lemma LowerJoined(a: string, b: string, x: string, y: string)
    requires LowerText(a, b) && LowerText(x, y)
    ensures LowerText(a + x, b + y)
  {
  }

  lemma LowerSame(a: string)
    ensures LowerText(a, a)
  {
  }

  lemma {:induction false} TailFollows<T>(xs: seq<T>, ys: seq<T>, text: T -> string)
    requires |xs| == |ys| && forall i :: 0 <= i < |xs| ==> LowerText(text(xs[i]), text(ys[i]))
    ensures LowerText(TailText(xs, text), TailText(ys, text))
  {
    hide LowerText;
    if xs == [] {
      LowerSame("]");
    } else {
      TailFollows(xs[1..], ys[1..], text);
      LowerSame(",");
      LowerJoined(",", ",", text(xs[0]), text(ys[0]));
      LowerJoined("," + text(xs[0]), "," + text(ys[0]), TailText(xs[1..], text), TailText(ys[1..], text));
    }
  }

  lemma ArrayFollows<T>(xs: seq<T>, ys: seq<T>, text: T -> string)
    requires |xs| == |ys| && forall i :: 0 <= i < |xs| ==> LowerText(text(xs[i]), text(ys[i]))
    ensures LowerText(ArrayText(xs, text), ArrayText(ys, text))
  {
    hide LowerText;
    if xs == [] {
      LowerSame("[]");
    } else {
      TailFollows(xs[1..], ys[1..], text);
      LowerSame("[");
      LowerJoined("[", "[", text(xs[0]), text(ys[0]));
      LowerJoined("[" + text(xs[0]), "[" + text(ys[0]), TailText(xs[1..], text), TailText(ys[1..], text));
    }
  }

  lemma NameFollows(i: nat, j: nat)
    requires i <= j < 10
    ensures LowerText("\"" + CanonicalName(i) + "\"", "\"" + CanonicalName(j) + "\"")
  {
    assert Decimal(i) == [Digit(i)] && Decimal(j) == [Digit(j)];
    DigitOrder(i, j);
  }

  lemma TermFollows(quote: Quote, s: Term, t: Term)
    requires KeepsNames(quote) && LowerTerm(s, t)
    ensures LowerText(TermText(quote)(s), TermText(quote)(t))
  {
    hide LowerText, CanonicalName;
    if s == t {
      LowerSame(TermText(quote)(s));
    } else {
      var i, j :| 0 <= i <= j < 10 && s == VariableTerm(CanonicalName(i)) && t == VariableTerm(CanonicalName(j));
      NameFollows(i, j);
      assert Kind(s) == Kind(t) == "variable" && Name(s) == s.name && Name(t) == t.name;
      var start := "[" + quote("variable") + ",";
      LowerSame(start);
      LowerJoined(start, start, quote(s.name), quote(t.name));
      LowerSame("]");
      LowerJoined(start + quote(s.name), start + quote(t.name), "]", "]");
    }
  }

  lemma LiteralFollows(quote: Quote, a: LiteralShape, b: LiteralShape)
    requires KeepsNames(quote) && LowerLiteral(a, b)
    ensures LowerText(LiteralText(quote)(a), LiteralText(quote)(b))
  {
    hide LowerText, LowerTerm, TermText, ArrayText, BoolText, KeepsNames;
    forall i | 0 <= i < |a.arguments|
      ensures LowerText(TermText(quote)(a.arguments[i]), TermText(quote)(b.arguments[i]))
    {
      TermFollows(quote, a.arguments[i], b.arguments[i]);
    }
    var x, y := ArrayText(a.arguments, TermText(quote)), ArrayText(b.arguments, TermText(quote));
    ArrayFollows(a.arguments, b.arguments, TermText(quote));
    var start := "[" + quote(a.pred) + "," + BoolText(a.negated) + ",";
    LowerSame(start);
    LowerJoined(start, start, x, y);
    LowerSame("]");
    LowerJoined(start + x, start + y, "]", "]");
  }

  lemma ShapeFollows(quote: Quote, a: Shape, b: Shape)
    requires KeepsNames(quote) && LowerShape(a, b)
    ensures LowerText(ShapeText(quote)(a), ShapeText(quote)(b))
  {
    hide LowerText, LowerLiteral, LiteralText, ArrayText, KeepsNames;
    var literal := LiteralText(quote);
    forall i | 0 <= i < |a.body| ensures LowerText(literal(a.body[i]), literal(b.body[i])) {
      LiteralFollows(quote, a.body[i], b.body[i]);
    }
    ArrayFollows(a.body, b.body, literal);
    LiteralFollows(quote, a.head, b.head);
    var start, middle := "{\"body\":", ",\"head\":";
    var u, v := start + ArrayText(a.body, literal), start + ArrayText(b.body, literal);
    LowerSame(start);
    LowerJoined(start, start, ArrayText(a.body, literal), ArrayText(b.body, literal));
    LowerSame(middle);
    LowerJoined(u, v, middle, middle);
    LowerJoined(u + middle, v + middle, literal(a.head), literal(b.head));
    LowerSame("}");
    LowerJoined(u + middle + literal(a.head), v + middle + literal(b.head), "}", "}");
  }

  /** Lowering canonical names in place never raises the text. */
  lemma TextLowers(quote: Quote)
    requires KeepsNames(quote)
    ensures LowersTexts(ShapeText(quote))
  {
    hide LowerShape, LowerText, ShapeText, StrLeq;
    forall a, b | LowerShape(a, b) ensures Leq(Str(ShapeText(quote)(a)), Str(ShapeText(quote)(b))) {
      ShapeFollows(quote, a, b);
      LowerTextFirst(ShapeText(quote)(a), ShapeText(quote)(b));
    }
  }

  // ---- How `json.dumps` quotes a string ----

  function HexChar(n: nat): char
    requires n < 16
  {
    "0123456789abcdef"[n]
  }

  function TwoHex(n: nat): string
    requires n < 256
  {
    [HexChar(n / 16), HexChar(n % 16)]
  }

  function FourHex(n: nat): string
    requires n < 0x10000
  {
    TwoHex(n / 256) + TwoHex(n % 256)
  }

  function UnitEscape(n: nat): string
    requires n < 0x10000
  {
    "\\u" + FourHex(n)
  }

  /** The letter of a short escape, when the character has one. */
  function EscapeLetter(c: char): Option<char> {
    if c == '\"' then Some('\"')
    else if c == '\\' then Some('\\')
    else if c == '\n' then Some('n')
    else if c == '\r' then Some('r')
    else if c == '\t' then Some('t')
    else if c as int == 8 then Some('b')
    else if c as int == 12 then Some('f')
    else None
  }

  predicate Printable(c: char) {
    ' ' <= c <= '~'
  }

  /** One character inside the quotes: printable ASCII as it is, everything else escaped, a character beyond
      the basic plane as a surrogate pair. */
  function Escape(c: char): string {
    var n := c as int;
    if EscapeLetter(c).Some? then ['\\', EscapeLetter(c).value]
    else if Printable(c) then [c]
    else if n < 0x10000 then UnitEscape(n)
    else UnitEscape(0xD800 + (n - 0x10000) / 1024) + UnitEscape(0xDC00 + (n - 0x10000) % 1024)
  }

  function QuotedRest(s: string): string {
    if s == [] then "\"" else Escape(s[0]) + QuotedRest(s[1..])
  }

  function JsonQuote(): Quote {
    s => "\"" + QuotedRest(s)
  }

  // ---- A quoted string shows its own end ----

  lemma HexCharInjective(m: nat, n: nat)
    requires m < 16 && n < 16 && HexChar(m) == HexChar(n)
    ensures m == n
  {
  }

  lemma TwoHexInjective(m: nat, n: nat)
    requires m < 256 && n < 256 && TwoHex(m) == TwoHex(n)
    ensures m == n
  {
    hide HexChar;
    assert TwoHex(m)[0] == TwoHex(n)[0] && TwoHex(m)[1] == TwoHex(n)[1];
    HexCharInjective(m / 16, n / 16);
    HexCharInjective(m % 16, n % 16);
  }

  lemma FourHexInjective(m: nat, n: nat)
    requires m < 0x10000 && n < 0x10000 && FourHex(m) == FourHex(n)
    ensures m == n
  {
    hide HexChar;
    assert FourHex(m)[..2] == TwoHex(m / 256) && FourHex(m)[2..] == TwoHex(m % 256);
    assert FourHex(n)[..2] == TwoHex(n / 256) && FourHex(n)[2..] == TwoHex(n % 256);
    TwoHexInjective(m / 256, n / 256);
    TwoHexInjective(m % 256, n % 256);
  }

  /** The first code unit of a character that has no short escape and is not printable. */
  function Unit(c: char): nat {
    var n := c as int;
    if n < 0x10000 then n else 0xD800 + (n - 0x10000) / 1024
  }

  function RestOf(c: char): string {
    var n := c as int;
    if n < 0x10000 then "" else UnitEscape(0xDC00 + (n - 0x10000) % 1024)
  }

  lemma EscapeForms(c: char)
    ensures EscapeLetter(c).Some? ==> Escape(c) == ['\\', EscapeLetter(c).value] && EscapeLetter(c).value != 'u'
    ensures EscapeLetter(c).None? && Printable(c) ==> Escape(c) == [c] && c != '\"' && c != '\\'
    ensures EscapeLetter(c).None? && !Printable(c) ==>
              Unit(c) < 0x10000 && Escape(c) == UnitEscape(Unit(c)) + RestOf(c)
  {
  }

  lemma ShortInjective(a: char, b: char)
    requires EscapeLetter(a).Some? && EscapeLetter(a) == EscapeLetter(b)
    ensures a == b
  {
  }

  /** A code point is not a surrogate, so its first unit shows whether a second follows. */
  lemma UnitsTell(a: char, b: char)
    requires Unit(a) == Unit(b)
    ensures a as int < 0x10000 <==> b as int < 0x10000
    ensures RestOf(a) == RestOf(b) ==> a == b
  {
    hide FourHex;
    var m, n := a as int, b as int;
    if m >= 0x10000 && n >= 0x10000 && RestOf(a) == RestOf(b) {
      SamePrefix("\\u", FourHex(0xDC00 + (m - 0x10000) % 1024), FourHex(0xDC00 + (n - 0x10000) % 1024));
      FourHexInjective(0xDC00 + (m - 0x10000) % 1024, 0xDC00 + (n - 0x10000) % 1024);
    }
  }

  lemma UnitRead(a: nat, b: nat, x: string, y: string)
    requires a < 0x10000 && b < 0x10000 && UnitEscape(a) + x == UnitEscape(b) + y
    ensures a == b && x == y
  {
    hide FourHex;
    assert |FourHex(a)| == 4 && |FourHex(b)| == 4 by {
      FourHexLength(a);
      FourHexLength(b);
    }
    assert UnitEscape(a) + x == "\\u" + (FourHex(a) + x);
    assert UnitEscape(b) + y == "\\u" + (FourHex(b) + y);
    SamePrefix("\\u", FourHex(a) + x, FourHex(b) + y);
    assert FourHex(a) == (FourHex(a) + x)[..4] == (FourHex(b) + y)[..4] == FourHex(b);
    FourHexInjective(a, b);
    SamePrefix(FourHex(a), x, y);
  }

  lemma FourHexLength(n: nat)
    requires n < 0x10000
    ensures |FourHex(n)| == 4
  {
  }

  lemma LongRead(a: char, b: char, x: string, y: string)
    requires Unit(a) < 0x10000 && Unit(b) < 0x10000
    requires UnitEscape(Unit(a)) + RestOf(a) + x == UnitEscape(Unit(b)) + RestOf(b) + y
    ensures a == b && x == y
  {
    hide UnitEscape, Unit;
    assert UnitEscape(Unit(a)) + RestOf(a) + x == UnitEscape(Unit(a)) + (RestOf(a) + x);
    assert UnitEscape(Unit(b)) + RestOf(b) + y == UnitEscape(Unit(b)) + (RestOf(b) + y);
    UnitRead(Unit(a), Unit(b), RestOf(a) + x, RestOf(b) + y);
    UnitsTell(a, b);
    if a as int >= 0x10000 {
      UnitRead(0xDC00 + (a as int - 0x10000) % 1024, 0xDC00 + (b as int - 0x10000) % 1024, x, y);
    }
    SamePrefix(RestOf(a), x, y);
  }

  lemma EscapeRead(a: char, b: char, x: string, y: string)
    requires Escape(a) + x == Escape(b) + y
    ensures a == b && x == y
  {
    hide Escape, UnitEscape, EscapeLetter, Unit, RestOf, Printable;
    EscapeForms(a);
    EscapeForms(b);
    var u, v := Escape(a) + x, Escape(b) + y;
    EscapeStart(a, x);
    EscapeStart(b, y);
    assert u[0] == v[0] && (u[0] == '\\' ==> u[1] == v[1]);
    if EscapeLetter(a).Some? {
      ShortInjective(a, b);
      SamePrefix(Escape(a), x, y);
    } else if Printable(a) {
      SamePrefix([a], x, y);
    } else {
      LongRead(a, b, x, y);
    }
  }

  /** The first characters show which kind of escape it is. */
  lemma EscapeStart(c: char, x: string)
    ensures var u := Escape(c) + x;
            && |u| > 0 && u[0] != '\"'
            && (EscapeLetter(c).Some? ==> |u| > 1 && u[0] == '\\' && u[1] == EscapeLetter(c).value && u[1] != 'u')
            && (EscapeLetter(c).None? && Printable(c) ==> u[0] == c && u[0] != '\\')
            && (EscapeLetter(c).None? && !Printable(c) ==> |u| > 1 && u[0] == '\\' && u[1] == 'u')
  {
    hide EscapeLetter, FourHex, Escape, Printable, Unit, RestOf;
    EscapeForms(c);
  }

  lemma {:induction false} QuotedRestRead(a: string, b: string, x: string, y: string)
    requires QuotedRest(a) + x == QuotedRest(b) + y
    ensures a == b && x == y
  {
    hide Escape;
    if a != [] {
      EscapeStart(a[0], QuotedRest(a[1..]) + x);
      assert QuotedRest(a) + x == Escape(a[0]) + (QuotedRest(a[1..]) + x);
    }
    if b != [] {
      EscapeStart(b[0], QuotedRest(b[1..]) + y);
      assert QuotedRest(b) + y == Escape(b[0]) + (QuotedRest(b[1..]) + y);
    }
    if a == [] {
      SamePrefix("\"", x, y);
    } else {
      EscapeRead(a[0], b[0], QuotedRest(a[1..]) + x, QuotedRest(b[1..]) + y);
      QuotedRestRead(a[1..], b[1..], x, y);
      SameItems(a, b);
    }
  }

  lemma QuoteDelimits()
    ensures Delimits(JsonQuote())
  {
    hide QuotedRest;
    forall a, b, x, y | JsonQuote()(a) + x == JsonQuote()(b) + y ensures a == b && x == y {
      assert JsonQuote()(a) + x == "\"" + (QuotedRest(a) + x);
      assert JsonQuote()(b) + y == "\"" + (QuotedRest(b) + y);
      SamePrefix("\"", QuotedRest(a) + x, QuotedRest(b) + y);
      QuotedRestRead(a, b, x, y);
    }
  }

  lemma PlainEscape(c: char)
    requires '0' <= c <= '9' || c == 'V'
    ensures Escape(c) == [c]
  {
  }

  lemma DigitPlain(i: nat)
    requires i < 10
    ensures Escape(Digit(i)) == [Digit(i)]
  {
    PlainEscape(Digit(i));
  }

  lemma QuoteKeepsNames()
    ensures KeepsNames(JsonQuote())
  {
    hide Escape, Digit;
    forall i: nat | i < 10 ensures JsonQuote()(CanonicalName(i)) == "\"" + CanonicalName(i) + "\"" {
      var name := CanonicalName(i);
      assert name == ['V', Digit(i)] && name[1..] == [Digit(i)] && name[1..][1..] == [];
      PlainEscape('V');
      DigitPlain(i);
      assert QuotedRest(name[1..]) == Escape(Digit(i)) + QuotedRest(name[1..][1..]) == [Digit(i)] + "\"";
      assert QuotedRest(name) == ['V'] + ([Digit(i)] + "\"");
    }
  }

  const JSON: Dumps := ShapeText(JsonQuote())

  /** The JSON text determines the shape, and putting lower canonical names into a shape never raises it. */
  lemma JsonText()
    ensures InjectiveDumps(JSON) && LowersTexts(JSON)
  {
    hide InjectiveDumps, LowersTexts, Delimits, KeepsNames;
    QuoteDelimits();
    QuoteKeepsNames();
    TextIsInjective(JsonQuote());
    TextLowers(JsonQuote());
  }

  /** As the program computes keys: with at most seven variables each, two rules have equal keys exactly when
      they are the same rule up to variable names and body order. */
  lemma JsonKeysDecide(r: Rule, q: Rule, kr: string, kq: string)
    requires WellNamed(r) && WellNamed(q) && |NamesOf(r)| <= 7 && |NamesOf(q)| <= 7
    requires IsRuleKey(JSON, r, kr) && IsRuleKey(JSON, q, kq)
    ensures kr == kq <==> AlphaEquivalent(r, q)
  {
    hide WellNamed, NamesOf, IsRuleKey, AlphaEquivalent, InjectiveDumps, LowersTexts;
    JsonText();
    KeyEqualityIsAlphaEquivalence(JSON, r, q, kr, kq);
  }

  /** As the program computes them, equal statement sets mean equal closures. */
  lemma JsonSetsDecide(a: Theory, b: Theory, keys: set<string>)
    requires ValidTheory(a) && ValidTheory(b) && FactKeys(JSON, a) == FactKeys(JSON, b)
    requires AreRuleKeys(JSON, a, keys) && AreRuleKeys(JSON, b, keys)
    ensures ModelOf(a) == ModelOf(b)
  {
    hide ValidTheory, FactKeys, AreRuleKeys, InjectiveDumps, LowersTexts;
    JsonText();
    EqualSetsEqualClosures(JSON, a, b, keys);
  }
}
