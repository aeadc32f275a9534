/** Where the scan for an object's end stops, on any text (platform/shared/mcp-tool-error.ts:418-460). */
module JsonScanLaws {
  import opened Wrappers
  import opened JsStrings
  import opened Surrogates
  import opened JsonText
  import opened JsonObjectEnd

  datatype Inner = Any(c: CodePoint) | Backslashed(c: CodePoint)

  /** A single character, or a string with its quotes. */
  datatype Lexeme = Single(c: CodePoint) | Quoted(inner: seq<Inner>)

  function InnerText(inner: seq<Inner>): Text {
    if inner == [] then []
    else (match inner[0] case Any(c) => [c] case Backslashed(c) => ['\\' as int, c]) + InnerText(inner[1..])
  }

  function LexemeText(x: Lexeme): Text {
    match x
    case Single(c) => [c]
    case Quoted(inner) => ['"' as int] + InnerText(inner) + ['"' as int]
  }

  function LexemesText(lexemes: seq<Lexeme>): Text {
    if lexemes == [] then [] else LexemeText(lexemes[0]) + LexemesText(lexemes[1..])
  }

  predicate LexemeOk(x: Lexeme) {
    match x
    case Single(c) => c != '"' as int
    case Quoted(inner) =>
      forall k :: 0 <= k < |inner| && inner[k].Any? ==> inner[k].c != '"' as int && inner[k].c != '\\' as int
  }

  /** How much deeper a lexeme leads. */
  function Deeper(x: Lexeme): int {
    if x == Single('{' as int) then 1 else if x == Single('}' as int) then -1 else 0
  }

  /** Read from the given depth, the lexemes lead to depth 1, and no brace among them leads to 0. */
  predicate StaysOpen(depth: int, lexemes: seq<Lexeme>)
    decreases |lexemes|
  {
    if lexemes == [] then depth == 1
    else
      && LexemeOk(lexemes[0]) && !(lexemes[0] == Single('}' as int) && depth == 1)
      && StaysOpen(depth + Deeper(lexemes[0]), lexemes[1..])
  }

  /** The brace at position n is the first outside strings that leads from the given depth to none. */
  ghost predicate ClosesFirst(depth: int, text: Text, n: nat) {
    && n < |text| && text[n] == '}' as int
    && exists lexemes :: StaysOpen(depth, lexemes) && text[..n] == LexemesText(lexemes)
  }

  lemma {:induction false} InnerPasses(depth: int, inner: seq<Inner>)
    requires LexemeOk(Quoted(inner))
    ensures Passes(Scanner(depth, true, false), InnerText(inner), Scanner(depth, true, false))
    decreases |inner|
  {
    if inner != [] {
      var s := Scanner(depth, true, false);
      InnerPasses(depth, inner[1..]);
      match inner[0] {
        case Any(c) =>
          OnePasses(s, c);
          PassesCompose(s, [c], s, InnerText(inner[1..]), s);
        case Backslashed(c) =>
          OnePasses(s, BACKSLASH);
          OnePasses(s.(isEscaped := true), c);
          PassesCompose(s, [BACKSLASH], s.(isEscaped := true), [c], s);
          assert [BACKSLASH] + [c] == [BACKSLASH, c];
          PassesCompose(s, [BACKSLASH, c], s, InnerText(inner[1..]), s);
      }
    }
  }

  lemma {:induction false} LexemePasses(depth: int, x: Lexeme)
    requires LexemeOk(x) && !(x == Single('}' as int) && depth == 1)
    ensures Passes(Between(depth), LexemeText(x), Between(depth + Deeper(x)))
  {
    match x
    case Single(c) => OnePasses(Between(depth), c);
    case Quoted(inner) =>
      var s := Scanner(depth, true, false);
      OnePasses(Between(depth), QUOTE);
      InnerPasses(depth, inner);
      OnePasses(s, QUOTE);
      PassesCompose(s, InnerText(inner), s, [QUOTE], Between(depth));
      PassesCompose(Between(depth), [QUOTE], s, InnerText(inner) + [QUOTE], Between(depth));
      assert [QUOTE] + (InnerText(inner) + [QUOTE]) == LexemeText(x);
  }

  lemma {:induction false} LexemesPass(depth: int, lexemes: seq<Lexeme>)
    requires StaysOpen(depth, lexemes)
    ensures Passes(Between(depth), LexemesText(lexemes), Between(1))
    decreases |lexemes|
  {
    if lexemes != [] {
      var next := depth + Deeper(lexemes[0]);
      LexemePasses(depth, lexemes[0]);
      LexemesPass(next, lexemes[1..]);
      PassesCompose(Between(depth), LexemeText(lexemes[0]), Between(next), LexemesText(lexemes[1..]), Between(1));
    }
  }

  lemma {:induction false} ClosingIsFound(depth: int, text: Text, n: nat)
    requires ClosesFirst(depth, text, n)
    ensures Scan(Between(depth), text) == Some(n)
  {
    var lexemes :| StaysOpen(depth, lexemes) && text[..n] == LexemesText(lexemes);
    LexemesPass(depth, lexemes);
    PassesScan(Between(depth), text[..n], Between(1), text[n..]);
    assert text == text[..n] + text[n..];
    assert text[n..][0] == CLOSE_BRACE;
  }

  /** Inside a string, the scan first reads on to its end. */
  lemma {:induction false} StringIsThere(depth: int, text: Text) returns (inner: seq<Inner>)
    requires Scan(Scanner(depth, true, false), text).Some?
    ensures LexemeOk(Quoted(inner)) && InnerText(inner) + [QUOTE] <= text
    decreases |text|
  {
    var s := Scanner(depth, true, false);
    if text[0] == QUOTE {
      inner := [];
    } else {
      var first, m := Any(text[0]), 1;
      if text[0] == BACKSLASH {
        assert Scan(s.(isEscaped := true), text[1..]).Some?;
        first, m := Backslashed(text[1]), 2;
        assert Scan(s, text[1..][1..]).Some? && text[1..][1..] == text[2..];
      }
      var rest := StringIsThere(depth, text[m..]);
      inner := [first] + rest;
      assert inner[1..] == rest && InnerText(inner) + [QUOTE] == text[..m] + (InnerText(rest) + [QUOTE]);
      assert text == text[..m] + text[m..];
    }
  }

  lemma {:induction false} FirstLexeme(depth: int, text: Text) returns (x: Lexeme)
    requires Scan(Between(depth), text).Some? && Scan(Between(depth), text).value > 0
    ensures LexemeOk(x) && LexemeText(x) <= text && !(x == Single('}' as int) && depth == 1)
  {
    x := Single(text[0]);
    if text[0] == QUOTE {
      var inner := StringIsThere(depth, text[1..]);
      x := Quoted(inner);
      assert text == [QUOTE] + text[1..];
      assert LexemeText(x) == [QUOTE] + (InnerText(inner) + [QUOTE]);
    }
  }

  lemma {:induction false} FrontOf(a: Text, b: Text, k: nat)
    requires k <= |b|
    ensures (a + b)[..|a| + k] == a + b[..k]
  {
  }

  /** The lexemes from the first one on. */
  lemma {:induction false} OneMore(depth: int, x: Lexeme, rest: seq<Lexeme>)
    requires LexemeOk(x) && !(x == Single('}' as int) && depth == 1) && StaysOpen(depth + Deeper(x), rest)
    ensures StaysOpen(depth, [x] + rest) && LexemesText([x] + rest) == LexemeText(x) + LexemesText(rest)
  {
    assert ([x] + rest)[1..] == rest;
  }

  lemma {:induction false} ScanGoesOn(depth: int, x: Lexeme, rest: Text)
    requires LexemeOk(x) && !(x == Single('}' as int) && depth == 1)
    ensures Scan(Between(depth), LexemeText(x) + rest)
         == Shifted(|LexemeText(x)|, Scan(Between(depth + Deeper(x)), rest))
  {
    LexemePasses(depth, x);
    PassesScan(Between(depth), LexemeText(x), Between(depth + Deeper(x)), rest);
  }

  /** A text that closes behind its first lexeme. */
  lemma {:induction false} ClosesBehind(depth: int, x: Lexeme, rest: Text, n: nat, lexemes: seq<Lexeme>)
    requires LexemeOk(x) && !(x == Single('}' as int) && depth == 1)
    requires n < |rest| && rest[n] == '}' as int
    requires StaysOpen(depth + Deeper(x), lexemes) && rest[..n] == LexemesText(lexemes)
    ensures var text, k := LexemeText(x) + rest, |LexemeText(x)| + n;
            text[k] == '}' as int && StaysOpen(depth, [x] + lexemes) && text[..k] == LexemesText([x] + lexemes)
  {
    FrontOf(LexemeText(x), rest, n);
    OneMore(depth, x, lexemes);
  }

  lemma {:induction false} FoundIsClosing(depth: int, text: Text, n: nat) returns (lexemes: seq<Lexeme>)
    requires Scan(Between(depth), text) == Some(n)
    ensures n < |text| && text[n] == '}' as int && StaysOpen(depth, lexemes) && text[..n] == LexemesText(lexemes)
    decreases |text|
  {
    lexemes := [];
    if n > 0 {
      var x := FirstLexeme(depth, text);
      var m, rest := |LexemeText(x)|, text[|LexemeText(x)|..];
      assert text == LexemeText(x) + rest;
      ScanGoesOn(depth, x, rest);
      lexemes := FoundIsClosing(depth + Deeper(x), rest, n - m);
      ClosesBehind(depth, x, rest, n - m, lexemes);
      lexemes := [x] + lexemes;
    }
  }

  /** On any text, the scan stops at the first closing brace outside strings that takes the depth to
      none, and nowhere if there is none. */
  lemma {:induction false} ScanExactlyWhen(text: Text, n: nat)
    ensures Scan(Between(0), text) == Some(n) <==> ClosesFirst(0, text, n)
  {
    if Scan(Between(0), text) == Some(n) {
      var lexemes := FoundIsClosing(0, text, n);
    }
    if ClosesFirst(0, text, n) {
      ClosingIsFound(0, text, n);
    }
  }

  // ----- The arguments -----

  predicate SpaceOnly(s: seq<Unit>) {
    forall i :: 0 <= i < |s| ==> JsSpace(s[i])
  }

  /** Behind white space the message has a text that opens with a brace, whose code points close at n. */
  ghost predicate ObjectAt(message: seq<Unit>, rest: seq<Unit>, n: nat) {
    && (exists lead: seq<Unit> :: SpaceOnly(lead) && message == lead + rest)
    && rest != [] && rest[0] == '{' as int
    && ClosesFirst(0, Joined(rest), n)
  }

  lemma {:induction false} TrimStartIs(lead: seq<Unit>, rest: seq<Unit>)
    requires SpaceOnly(lead) && rest != [] && !JsSpace(rest[0])
    ensures TrimStart(lead + rest) == rest
    decreases |lead|
  {
    if lead == [] {
      assert lead + rest == rest;
    } else {
      assert (lead + rest)[1..] == lead[1..] + rest;
      TrimStartIs(lead[1..], rest);
    }
  }

  lemma {:induction false} TrimStartParts(s: seq<Unit>) returns (lead: seq<Unit>)
    ensures SpaceOnly(lead) && s == lead + TrimStart(s)
    decreases |s|
  {
    lead := [];
    if s != [] && JsSpace(s[0]) {
      lead := TrimStartParts(s[1..]);
      lead := [s[0]] + lead;
    }
  }

  /** Arguments come back exactly from a message with such a text, and they are its first n + 1 code
      units without the white space these end in. */
  lemma {:induction false} ArgumentsExactlyWhen(message: seq<Unit>, arguments: Option<seq<Unit>>)
    requires ArgumentsOf(message, arguments)
    ensures arguments.Some? <==> exists rest: seq<Unit>, n: nat :: ObjectAt(message, rest, n)
    ensures forall rest: seq<Unit>, n: nat :: ObjectAt(message, rest, n) ==>
              arguments.Some? && n < |rest|
              && exists tail: seq<Unit> :: SpaceOnly(tail) && rest[..n + 1] == arguments.value + tail
                                && arguments.value != [] && !JsSpace(arguments.value[|arguments.value| - 1])
  {
    forall rest: seq<Unit>, n: nat | ObjectAt(message, rest, n)
      ensures arguments.Some? && n < |rest|
              && exists tail: seq<Unit> :: SpaceOnly(tail) && rest[..n + 1] == arguments.value + tail
                                && arguments.value != [] && !JsSpace(arguments.value[|arguments.value| - 1])
    {
      var lead: seq<Unit> :| SpaceOnly(lead) && message == lead + rest;
      TrimStartIs(lead, rest);
      ScanExactlyWhen(Joined(rest), n);
      CutParts(rest, n, arguments.value);
    }
    if arguments.Some? {
      var rest := TrimStart(message);
      var lead := TrimStartParts(message);
      var n := Scan(Between(0), Joined(rest)).value;
      ScanExactlyWhen(Joined(rest), n);
      assert ObjectAt(message, rest, n);
    }
  }

  lemma {:induction false} CutParts(rest: seq<Unit>, n: nat, a: seq<Unit>)
    requires rest != [] && !JsSpace(rest[0]) && CutAt(rest, n + 1, a)
    ensures n < |rest| && SpaceOnly(rest[|a|..n + 1]) && rest[..n + 1] == a + rest[|a|..n + 1]
    ensures a != [] && !JsSpace(a[|a| - 1])
  {
  }
}
