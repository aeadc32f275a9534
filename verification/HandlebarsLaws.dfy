/** What findTemplateExpressions finds, in terms of the template's text alone
    (platform/shared/handlebars-expressions.ts:113-180). */
module HandlebarsLaws {
  import opened Wrappers
  import opened JsStrings
  import opened Handlebars

  // ----- Where an expression may start -----

  /** Two opening braces, not behind a backslash. */
  predicate Live(t: string, p: int) {
    0 <= p && p + 1 < |t| && t[p] == '{' && t[p + 1] == '{' && (p > 0 ==> t[p - 1] != '\\')
  }

  predicate FourAt(t: string, p: nat) {
    p + 4 <= |t| && t[p..p + 4] == "{{{{"
  }

  /** The start of two or three opening braces: of four or more, none is an opening. */
  predicate Opening(t: string, p: nat) {
    Live(t, p) && !FourAt(t, p) && !Live(t, p - 1)
  }

  /** How many braces the opening has. */
  function Width(t: string, p: nat): nat
    requires Opening(t, p)
  {
    if p + 2 < |t| && t[p + 2] == '{' then 3 else 2
  }

  lemma {:induction false} WidthIsBraces(t: string, p: nat)
    requires Live(t, p)
    ensures Opening(t, p) ==> Braces(t, p) == Width(t, p)
    ensures FourAt(t, p) <==> Braces(t, p) > 3
  {
    assert Braces(t, p) == 2 + Braces(t, p + 2);
    if p + 2 < |t| && t[p + 2] == '{' {
      assert Braces(t, p + 2) == 1 + Braces(t, p + 3);
    }
    if p + 3 < |t| && t[p + 2] == '{' && t[p + 3] == '{' {
      assert t[p..p + 4] == "{{{{";
    }
    if FourAt(t, p) {
      assert t[p..p + 4][2] == '{' && t[p..p + 4][3] == '{';
    }
  }

  // ----- Where it ends -----

  datatype Inner = Any(c: char) | Backslashed(c: char)

  /** What stands between the braces: single characters and string literals. */
  datatype Lexeme = Single(c: char) | Literal(quote: char, inner: seq<Inner>)

  function InnerText(inner: seq<Inner>): string {
    if inner == [] then ""
    else (match inner[0] case Any(c) => [c] case Backslashed(c) => ['\\', c]) + InnerText(inner[1..])
  }

  function LexemeText(x: Lexeme): string {
    match x
    case Single(c) => [c]
    case Literal(quote, inner) => [quote] + InnerText(inner) + [quote]
  }

  function Text(lexemes: seq<Lexeme>): string {
    if lexemes == [] then "" else LexemeText(lexemes[0]) + Text(lexemes[1..])
  }

  /** The template has the given text at i. */
  predicate StandsAt(t: string, i: nat, text: string) {
    i + |text| <= |t| && t[i..i + |text|] == text
  }

  function Closers(n: nat): string {
    seq(n, i => '}')
  }

  predicate InnerOk(inner: seq<Inner>, quote: char) {
    forall k :: 0 <= k < |inner| && inner[k].Any? ==> inner[k].c != quote && inner[k].c != '\\'
  }

  /** A single character is no quote and no place where n braces close. */
  predicate LexemeOk(t: string, i: nat, x: Lexeme, n: nat) {
    match x
    case Single(c) => c != '"' && c != '\'' && !StandsAt(t, i, Closers(n))
    case Literal(quote, inner) => (quote == '"' || quote == '\'') && InnerOk(inner, quote)
  }

  predicate Reads(t: string, i: nat, lexemes: seq<Lexeme>, n: nat)
    decreases |lexemes|
  {
    lexemes != [] ==>
      var text := LexemeText(lexemes[0]);
      LexemeOk(t, i, lexemes[0], n) && StandsAt(t, i, text) && Reads(t, i + |text|, lexemes[1..], n)
  }

  /** Lexemes from i to at, and there the braces close. */
  predicate ReadsTo(t: string, i: nat, lexemes: seq<Lexeme>, n: nat, at: nat) {
    Reads(t, i, lexemes, n) && i + |Text(lexemes)| == at && StandsAt(t, at, Closers(n))
  }

  /** From i on the template has some lexemes up to at, where for the first time outside a string
      literal n braces close. */
  ghost predicate ClosesFirst(t: string, i: nat, n: nat, at: nat) {
    exists lexemes :: ReadsTo(t, i, lexemes, n, at)
  }

  lemma {:induction false} ClosersStand(t: string, i: nat, n: nat)
    ensures ClosesAt(t, i, n) <==> StandsAt(t, i, Closers(n))
  {
    if StandsAt(t, i, Closers(n)) {
      assert forall k :: i <= k < i + n ==> t[k] == t[i..i + n][k - i] == '}';
    }
  }

  lemma {:induction false} LiteralIsRead(t: string, i: nat, n: nat, inner: seq<Inner>, quote: char)
    requires IsQuote(quote) && InnerOk(inner, quote) && StandsAt(t, i, InnerText(inner) + [quote])
    ensures EndFrom(t, i, n, Some(quote)) == EndFrom(t, i + |InnerText(inner)| + 1, n, None)
    decreases |inner|
  {
    var text := InnerText(inner) + [quote];
    assert t[i] == text[0];
    if inner != [] {
      var m := if inner[0].Any? then 1 else 2;
      assert text == text[..m] + (InnerText(inner[1..]) + [quote]);
      assert t[i + m..i + |text|] == text[m..];
      LiteralIsRead(t, i + m, n, inner[1..], quote);
    }
  }

  lemma {:induction false} LexemeIsRead(t: string, i: nat, n: nat, x: Lexeme)
    requires n > 0 && LexemeOk(t, i, x, n) && StandsAt(t, i, LexemeText(x))
    ensures EndFrom(t, i, n, None) == EndFrom(t, i + |LexemeText(x)|, n, None)
  {
    var text := LexemeText(x);
    assert t[i] == text[0];
    ClosersStand(t, i, n);
    if x.Literal? {
      assert t[i + 1..i + |text|] == text[1..] == InnerText(x.inner) + [x.quote];
      LiteralIsRead(t, i + 1, n, x.inner, x.quote);
    }
  }

  lemma {:induction false} ClosersEnd(t: string, i: nat, n: nat)
    requires n > 0 && StandsAt(t, i, Closers(n))
    ensures EndFrom(t, i, n, None) == Some(i + n)
  {
    ClosersStand(t, i, n);
    assert t[i] == '}';
  }

  lemma {:induction false} ReadsOn(t: string, i: nat, n: nat, lexemes: seq<Lexeme>, at: nat)
    requires ReadsTo(t, i, lexemes, n, at) && lexemes != []
    ensures LexemeOk(t, i, lexemes[0], n) && StandsAt(t, i, LexemeText(lexemes[0]))
    ensures ReadsTo(t, i + |LexemeText(lexemes[0])|, lexemes[1..], n, at)
  {
  }

  lemma {:induction false} EndIsRead(t: string, i: nat, n: nat, lexemes: seq<Lexeme>, at: nat)
    requires n > 0 && ReadsTo(t, i, lexemes, n, at)
    ensures EndFrom(t, i, n, None) == Some(at + n)
    decreases |lexemes|
  {
    if lexemes == [] {
      ClosersEnd(t, i, n);
    } else {
      ReadsOn(t, i, n, lexemes, at);
      LexemeIsRead(t, i, n, lexemes[0]);
      EndIsRead(t, i + |LexemeText(lexemes[0])|, n, lexemes[1..], at);
    }
  }

  lemma {:induction false} InnerMore(t: string, i: nat, first: Inner, rest: seq<Inner>, quote: char)
    requires InnerOk([first], quote) && InnerOk(rest, quote)
    requires StandsAt(t, i, InnerText([first])) && StandsAt(t, i + |InnerText([first])|, InnerText(rest) + [quote])
    ensures InnerOk([first] + rest, quote) && StandsAt(t, i, InnerText([first] + rest) + [quote])
  {
    var a, b := InnerText([first]), InnerText(rest) + [quote];
    assert ([first] + rest)[1..] == rest && [first][1..] == [];
    assert InnerText([first] + rest) == a + InnerText(rest) by {
      assert InnerText([]) == "";
    }
    assert InnerText([first] + rest) + [quote] == a + b;
    assert t[i..i + |a + b|] == t[i..i + |a|] + t[i + |a|..i + |a| + |b|];
  }

  lemma {:induction false} LiteralIsThere(t: string, i: nat, n: nat, quote: char) returns (inner: seq<Inner>)
    requires IsQuote(quote) && EndFrom(t, i, n, Some(quote)).Some?
    ensures InnerOk(inner, quote) && StandsAt(t, i, InnerText(inner) + [quote])
    decreases |t| - i
  {
    inner := [];
    if t[i] != quote {
      assert t[i] == '\\' ==> EndFrom(t, i + 2, n, Some(quote)).Some?;
      var first := if t[i] == '\\' then Backslashed(t[i + 1]) else Any(t[i]);
      var text := if t[i] == '\\' then [t[i], t[i + 1]] else [t[i]];
      assert InnerText([first]) == text by {
        assert [first][1..] == [] && InnerText([]) == "";
      }
      assert t[i..i + |text|] == text;
      inner := LiteralIsThere(t, i + |InnerText([first])|, n, quote);
      InnerMore(t, i, first, inner, quote);
      inner := [first] + inner;
    }
  }

  /** The lexeme that the scan reads where the braces do not close. */
  lemma {:induction false} LexemeIsThere(t: string, i: nat, n: nat) returns (x: Lexeme)
    requires n > 0 && EndFrom(t, i, n, None).Some? && !StandsAt(t, i, Closers(n))
    ensures LexemeOk(t, i, x, n) && StandsAt(t, i, LexemeText(x))
  {
    ClosersStand(t, i, n);
    x := Single(t[i]);
    if IsQuote(t[i]) {
      var inner := LiteralIsThere(t, i + 1, n, t[i]);
      x := Literal(t[i], inner);
      var m := |LexemeText(x)|;
      assert t[i..i + m] == [t[i]] + t[i + 1..i + m];
    }
  }

  lemma {:induction false} OneMoreRead(t: string, i: nat, n: nat, x: Lexeme, rest: seq<Lexeme>, at: nat)
    requires LexemeOk(t, i, x, n) && StandsAt(t, i, LexemeText(x)) && ReadsTo(t, i + |LexemeText(x)|, rest, n, at)
    ensures ReadsTo(t, i, [x] + rest, n, at)
  {
    assert ([x] + rest)[1..] == rest;
  }

  lemma {:induction false} EndIsThere(t: string, i: nat, n: nat) returns (lexemes: seq<Lexeme>, at: nat)
    requires n > 0 && EndFrom(t, i, n, None).Some?
    ensures ReadsTo(t, i, lexemes, n, at)
    decreases |t| - i
  {
    lexemes, at := [], i;
    if !StandsAt(t, i, Closers(n)) {
      var x := LexemeIsThere(t, i, n);
      LexemeIsRead(t, i, n, x);
      lexemes, at := EndIsThere(t, i + |LexemeText(x)|, n);
      OneMoreRead(t, i, n, x, lexemes, at);
      lexemes := [x] + lexemes;
    }
  }

  lemma {:induction false} EndIsUnique(t: string, i: nat, n: nat, at: nat)
    requires n > 0 && ClosesFirst(t, i, n, at)
    ensures EndFrom(t, i, n, None) == Some(at + n)
  {
    var lexemes :| ReadsTo(t, i, lexemes, n, at);
    EndIsRead(t, i, n, lexemes, at);
  }

  /** The scan for the end stops behind the first braces that close outside string literals. */
  lemma {:induction false} EndFoundExactlyWhen(t: string, i: nat, n: nat, at: nat)
    requires n > 0
    ensures EndFrom(t, i, n, None) == Some(at + n) <==> ClosesFirst(t, i, n, at)
  {
    if EndFrom(t, i, n, None).Some? {
      var lexemes, where := EndIsThere(t, i, n);
      EndIsRead(t, i, n, lexemes, where);
    }
    if ClosesFirst(t, i, n, at) {
      EndIsUnique(t, i, n, at);
    }
  }

  // ----- What is found -----

  function Openers(n: nat): string {
    seq(n, i => '{')
  }

  /** What String.prototype.trim takes off: the line ends, the space separators and the byte order mark. */
  predicate White(c: char): (white: bool)
    ensures white <==> JsSpace(c as int)
  {
    || c == ' ' || c == '\t' || c == '\n' || c as int == 0x0B || c as int == 0x0C || c == '\r'
    || c as int == 0xA0 || c as int == 0x1680 || 0x2000 <= c as int <= 0x200A || c as int == 0x2028
    || c as int == 0x2029 || c as int == 0x202F || c as int == 0x205F || c as int == 0x3000 || c as int == 0xFEFF
  }

  predicate AllSpace(s: string) {
    forall k :: 0 <= k < |s| ==> White(s[k])
  }

  predicate Tight(s: string) {
    s != "" ==> !White(s[0]) && !White(s[|s| - 1])
  }

  /** n braces, white space, the body, white space, n braces. */
  ghost predicate Braced(source: string, n: nat, body: string) {
    exists lead, tail :: AllSpace(lead) && AllSpace(tail) && Tight(body)
                         && source == Openers(n) + lead + body + tail + Closers(n)
  }

  /** An opening at p whose braces close first just before end. */
  ghost predicate Spans(t: string, p: nat, end: nat) {
    && Opening(t, p)
    && p + 2 * Width(t, p) <= end <= |t|
    && ClosesFirst(t, p + Width(t, p), Width(t, p), end - Width(t, p))
  }

  ghost predicate StandsIn(t: string, e: Expression) {
    && Spans(t, e.start, e.end)
    && e.source == t[e.start..e.end]
    && Braced(e.source, Width(t, e.start), e.body)
  }

  ghost predicate NoOpening(t: string, from: nat, to: nat) {
    forall p :: from <= p < to ==> !Opening(t, p)
  }

  /** Nothing starts from there on, or what starts first never ends. */
  ghost predicate NothingMore(t: string, from: nat) {
    forall p: nat, end: nat :: Spans(t, p, end) && from <= p ==> !NoOpening(t, from, p)
  }

  /** The expressions from a position on are those, one after the other, that start first. */
  ghost predicate FirstOnes(t: string, from: nat, es: seq<Expression>)
    decreases |es|
  {
    if es == [] then NothingMore(t, from)
    else
      && from <= es[0].start && NoOpening(t, from, es[0].start)
      && StandsIn(t, es[0]) && FirstOnes(t, es[0].end, es[1..])
  }

  lemma {:induction false} SpaceBefore(c: char, lead: string)
    requires White(c) && AllSpace(lead)
    ensures AllSpace([c] + lead) && AllSpace(lead + [c])
  {
  }

  lemma {:induction false} FrontParts(s: string, lead: string, core: string, tail: string)
    requires s != [] && s[1..] == lead + core + tail
    ensures s == ([s[0]] + lead) + core + tail
  {
  }

  lemma {:induction false} BackParts(s: string, lead: string, core: string, tail: string)
    requires s != [] && s[..|s| - 1] == lead + core + tail
    ensures s == lead + core + (tail + [s[|s| - 1]])
  {
  }

  lemma {:induction false} TrimParts(s: string) returns (lead: string, core: string, tail: string)
    ensures core == Trim(s) && s == lead + core + tail && AllSpace(lead) && AllSpace(tail) && Tight(core)
    decreases |s|
  {
    lead, core, tail := "", s, "";
    if s != [] && JsSpace(s[0] as int) {
      lead, core, tail := TrimParts(s[1..]);
      FrontParts(s, lead, core, tail);
      SpaceBefore(s[0], lead);
      lead := [s[0]] + lead;
    } else if s != [] && JsSpace(s[|s| - 1] as int) {
      lead, core, tail := TrimParts(s[..|s| - 1]);
      BackParts(s, lead, core, tail);
      SpaceBefore(s[|s| - 1], tail);
      tail := tail + [s[|s| - 1]];
    }
  }

  lemma {:induction false} EndCloses(t: string, i: nat, n: nat, end: nat)
    requires n > 0 && EndFrom(t, i, n, None) == Some(end)
    ensures i + n <= end <= |t| && ClosesAt(t, end - n, n) && ClosesFirst(t, i, n, end - n)
  {
    EndBound(t, i, n, None);
    EndFoundExactlyWhen(t, i, n, end - n);
  }

  lemma {:induction false} FoundSpans(t: string, p: nat, end: nat)
    requires Opening(t, p) && Closing(t, p) == Some(end)
    ensures Spans(t, p, end) && ClosesAt(t, end - Width(t, p), Width(t, p))
  {
    WidthIsBraces(t, p);
    EndCloses(t, p + Width(t, p), Width(t, p), end);
  }

  lemma {:induction false} FoundIsBraced(t: string, p: nat, end: nat)
    requires Opening(t, p) && Closing(t, p) == Some(end)
    ensures p < end <= |t| && StandsIn(t, ExpressionAt(t, p, end, Braces(t, p)))
  {
    FoundSpans(t, p, end);
    WidthIsBraces(t, p);
    BracesBound(t, p);
    SourceIsBraced(t, p, end, Width(t, p));
  }

  lemma {:induction false} SliceOfSlice(s: string, a: nat, b: nat, i: nat, j: nat)
    requires i <= j && a + j <= b <= |s|
    ensures s[a..b][i..j] == s[a + i..a + j]
  {
    forall k | 0 <= k < j - i ensures s[a..b][i..j][k] == s[a + i..a + j][k] {
    }
  }

  lemma {:induction false} SourceParts(t: string, p: nat, end: nat, n: nat)
    requires p + 2 * n <= end <= |t|
    requires (forall k :: p <= k < p + n ==> t[k] == '{') && ClosesAt(t, end - n, n)
    ensures t[p..end] == Openers(n) + t[p + n..end - n] + Closers(n)
  {
    assert t[p..p + n] == Openers(n) && t[end - n..end] == Closers(n);
  }

  lemma {:induction false} SourceIsBraced(t: string, p: nat, end: nat, n: nat)
    requires p + 2 * n <= end <= |t|
    requires (forall k :: p <= k < p + n ==> t[k] == '{') && ClosesAt(t, end - n, n)
    ensures var e := ExpressionAt(t, p, end, n); Braced(e.source, n, e.body)
  {
    var inside := t[p + n..end - n];
    SliceOfSlice(t, p, end, n, end - p - n);
    var lead, core, tail := TrimParts(inside);
    SourceParts(t, p, end, n);
    assert Openers(n) + inside + Closers(n) == Openers(n) + lead + core + tail + Closers(n);
  }

  lemma {:induction false} Earlier(t: string, i: nat, j: nat, es: seq<Expression>)
    requires i <= j && NoOpening(t, i, j) && FirstOnes(t, j, es)
    ensures FirstOnes(t, i, es)
  {
    if es == [] {
      forall p: nat, end: nat | Spans(t, p, end) && i <= p
        ensures !NoOpening(t, i, p)
      {
        if p >= j {
          var q :| j <= q < p && Opening(t, q);
        }
      }
    }
  }

  /** No opening in a run of four braces or more. */
  lemma {:induction false} RunHasNoOpening(t: string, i: nat)
    requires Live(t, i) && Braces(t, i) > 3
    ensures NoOpening(t, i, i + Braces(t, i)) && !Live(t, i + Braces(t, i) - 1)
  {
    BracesBound(t, i);
    WidthIsBraces(t, i);
    forall q | i <= q < i + Braces(t, i) - 1 ensures Live(t, q) {
      assert t[q] == '{' && t[q + 1] == '{';
    }
    forall p | i < p < i + Braces(t, i) ensures !Opening(t, p) {
      var q := p - 1;
      assert Live(t, q);
    }
  }

  lemma {:induction false} NeverCloses(t: string, i: nat, n: nat)
    requires n > 0 && EndFrom(t, i, n, None).None?
    ensures forall at :: !ClosesFirst(t, i, n, at)
  {
    forall at ensures !ClosesFirst(t, i, n, at) {
      EndFoundExactlyWhen(t, i, n, at);
    }
  }

  lemma {:induction false} NoneAfter(t: string, i: nat)
    requires Opening(t, i) && Closing(t, i).None?
    ensures NothingMore(t, i)
  {
    WidthIsBraces(t, i);
    NeverCloses(t, i + Width(t, i), Width(t, i));
    assert forall end: nat :: !Spans(t, i, end);
  }

  lemma {:induction false} FirstStands(t: string, i: nat, end: nat)
    requires Opening(t, i) && Braces(t, i) <= 3 && Closing(t, i) == Some(end)
    requires i < end <= |t| && FirstOnes(t, end, FindFrom(t, end))
    ensures FirstOnes(t, i, FindFrom(t, i))
  {
    OneIsFound(t, i, end);
    FoundIsBraced(t, i, end);
  }

  lemma {:induction false} SpanEnds(t: string, i: nat, end: nat)
    requires Opening(t, i) && Closing(t, i) == Some(end)
    ensures i < end <= |t| && !Live(t, end - 1)
  {
    var n := Width(t, i);
    WidthIsBraces(t, i);
    EndBound(t, i + n, n, None);
    assert t[end - n + n - 1] == '}';
  }

  lemma {:induction false} FoundFirst(t: string, i: nat)
    requires i <= |t| && !Live(t, i - 1)
    ensures FirstOnes(t, i, FindFrom(t, i))
    decreases |t| - i
  {
    if i + 1 >= |t| {
    } else if !Live(t, i) {
      FoundFirst(t, i + 1);
      Skips(t, i);
      Earlier(t, i, i + 1, FindFrom(t, i));
    } else if Braces(t, i) > 3 {
      BracesBound(t, i);
      RunHasNoOpening(t, i);
      RunSkips(t, i);
      FoundFirst(t, i + Braces(t, i));
      Earlier(t, i, i + Braces(t, i), FindFrom(t, i));
    } else {
      WidthIsBraces(t, i);
      if Closing(t, i).None? {
        NothingCloses(t, i);
        NoneAfter(t, i);
      } else {
        SpanEnds(t, i, Closing(t, i).value);
        FoundFirst(t, Closing(t, i).value);
        FirstStands(t, i, Closing(t, i).value);
      }
    }
  }

  /** What is found, and all that is found, on the text alone: each expression is two or three opening
      braces, white space, its body, white space and as many closing braces, at the first place outside
      string literals where these stand; it starts at the first opening behind the one before; and
      behind the last one nothing opens, or what opens first never closes. */
  lemma {:induction false} FoundExactly(t: string)
    ensures FirstOnes(t, 0, Find(t))
  {
    FoundFirst(t, 0);
  }

  lemma {:induction false} FirstIsUnique(t: string, from: nat, p: nat, q: nat)
    requires from <= p && NoOpening(t, from, p) && Opening(t, p)
    requires from <= q && NoOpening(t, from, q) && Opening(t, q)
    ensures p == q
  {
  }

  lemma {:induction false} ClosesOnce(t: string, i: nat, n: nat)
    requires n > 0
    ensures forall a, b :: ClosesFirst(t, i, n, a) && ClosesFirst(t, i, n, b) ==> a == b
  {
    forall a, b | ClosesFirst(t, i, n, a) && ClosesFirst(t, i, n, b) ensures a == b {
      EndIsUnique(t, i, n, a);
      EndIsUnique(t, i, n, b);
    }
  }

  lemma {:induction false} SpanIsUnique(t: string, p: nat, a: nat, b: nat)
    requires Spans(t, p, a) && Spans(t, p, b)
    ensures a == b
  {
    ClosesOnce(t, p + Width(t, p), Width(t, p));
  }

  lemma {:induction false} StandsAlone(t: string, from: nat, e: Expression, f: Expression)
    requires from <= e.start && NoOpening(t, from, e.start) && StandsIn(t, e)
    requires from <= f.start && NoOpening(t, from, f.start) && StandsIn(t, f)
    ensures e == f
  {
    FirstIsUnique(t, from, e.start, f.start);
    SpanIsUnique(t, e.start, e.end, f.end);
    BodyIsUnique(e.source, Width(t, e.start), e.body, f.body);
  }

  lemma {:induction false} SomethingFirst(t: string, from: nat, e: Expression, es: seq<Expression>)
    requires from <= e.start && NoOpening(t, from, e.start) && StandsIn(t, e) && FirstOnes(t, from, es)
    ensures es != []
  {
  }

  lemma {:induction false} NothingAtAll(t: string, from: nat, es: seq<Expression>)
    requires NothingMore(t, from) && FirstOnes(t, from, es)
    ensures es == []
  {
  }

  /** That leaves one possible answer. */
  lemma {:induction false} FoundIsUnique(t: string, from: nat, es: seq<Expression>, fs: seq<Expression>)
    requires FirstOnes(t, from, es) && FirstOnes(t, from, fs)
    ensures es == fs
    decreases |es|
  {
    if es != [] {
      SomethingFirst(t, from, es[0], fs);
      StandsAlone(t, from, es[0], fs[0]);
      FoundIsUnique(t, es[0].end, es[1..], fs[1..]);
    } else {
      NothingAtAll(t, from, fs);
    }
  }

  lemma {:induction false} BodyIsUnique(source: string, n: nat, a: string, b: string)
    requires Braced(source, n, a) && Braced(source, n, b)
    ensures a == b
  {
    var lead, tail :| AllSpace(lead) && AllSpace(tail) && source == Openers(n) + lead + a + tail + Closers(n);
    var lead', tail' :| AllSpace(lead') && AllSpace(tail') && source == Openers(n) + lead' + b + tail' + Closers(n);
    var inside := source[n..|source| - n];
    assert inside == lead + a + tail && inside == lead' + b + tail';
    TightIsUnique(lead, a, tail, lead', b, tail');
  }

  lemma {:induction false} SpaceInside(lead: string, b: string, tail: string)
    requires AllSpace(lead + b + tail)
    ensures AllSpace(b)
  {
    forall k | 0 <= k < |b| ensures White(b[k]) {
      assert (lead + b + tail)[|lead| + k] == b[k];
    }
  }

  lemma {:induction false} TightIsUnique(
      lead: string, a: string, tail: string, lead': string, b: string, tail': string)
    requires AllSpace(lead) && AllSpace(tail) && AllSpace(lead') && AllSpace(tail') && Tight(a) && Tight(b)
    requires lead + a + tail == lead' + b + tail'
    ensures a == b
  {
    var s := lead + a + tail;
    if a == "" {
      SpaceInside(lead', b, tail');
    } else if b == "" {
      SpaceInside(lead, a, tail);
    } else {
      assert s[|lead|] == a[0] && s[|lead'|] == b[0];
      assert s[|lead| + |a| - 1] == a[|a| - 1] && s[|lead'| + |b| - 1] == b[|b| - 1];
      assert |lead| == |lead'| && |a| == |b|;
      assert a == s[|lead|..|lead| + |a|] && b == s[|lead'|..|lead'| + |b|];
    }
  }
}
