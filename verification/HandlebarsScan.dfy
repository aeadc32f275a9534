/** The scanning and escaping loops of platform/shared/handlebars-expressions.ts. */
module HandlebarsScan {
  import opened Wrappers
  import opened Handlebars

  /** findExpressionEnd: just past the closing braces, or -1. */
  method FindExpressionEnd(template: string, from: nat, braces: nat) returns (end: int)
    ensures end == match EndFrom(template, from, braces, None) case None => -1 case Some(e) => e
  {
    var quote: Option<char> := None;
    var i := from;
    while i < |template|
      invariant EndFrom(template, from, braces, None) == EndFrom(template, i, braces, quote)
    {
      var c := template[i];
      if quote.Some? {
        if c == '\\' {
          i := i + 1;
        } else if c == quote.value {
          quote := None;
        }
        i := i + 1;
        continue;
      }
      if c == '"' || c == '\'' {
        quote := Some(c);
        i := i + 1;
        continue;
      }
      if ClosesAt(template, i, braces) {
        return i + braces;
      }
      i := i + 1;
    }
    return -1;
  }

  method CountBraces(template: string, i: nat) returns (braces: nat)
    requires i <= |template|
    ensures braces == Braces(template, i)
  {
    braces := 0;
    while i + braces < |template| && template[i + braces] == '{'
      invariant i + braces <= |template|
      invariant Braces(template, i) == braces + Braces(template, i + braces)
    {
      braces := braces + 1;
    }
  }

  /** One turn of the scan: where it goes on, if it does, and the expression it found there. */
  method FindTurn(template: string, i: nat) returns (next: Option<nat>, found: seq<Expression>)
    requires i + 1 < |template|
    ensures next.Some? ==> next.value > i && FindFrom(template, i) == found + FindFrom(template, next.value)
    ensures next.None? ==> FindFrom(template, i) == found == []
  {
    if template[i] != '{' || template[i + 1] != '{' || (i > 0 && template[i - 1] == '\\') {
      Skips(template, i);
      return Some(i + 1), [];
    }
    var braces := CountBraces(template, i);
    LiveHasTwo(template, i);
    if braces > 3 {
      RunSkips(template, i);
      return Some(i + braces), [];
    }
    var end := FindExpressionEnd(template, i + braces, braces);
    if end == -1 {
      NothingCloses(template, i);
      return None, [];
    }
    FoundThere(template, i, end);
    return Some(end), [ExpressionAt(template, i, end, braces)];
  }

  lemma {:induction false} Assoc(a: seq<Expression>, b: seq<Expression>, c: seq<Expression>)
    ensures (a + b) + c == a + (b + c)
  {
  }

  /** findTemplateExpressions. */
  method FindTemplateExpressions(template: string) returns (expressions: seq<Expression>)
    ensures expressions == Find(template)
  {
    expressions := [];
    var i := 0;
    while i + 1 < |template|
      invariant Find(template) == expressions + FindFrom(template, i)
      decreases |template| - i
    {
      var next, found := FindTurn(template, i);
      if next.None? {
        return;
      }
      Assoc(expressions, found, FindFrom(template, next.value));
      expressions := expressions + found;
      i := next.value;
    }
  }

  lemma {:induction false} PlainCharacter(t: string, starts: set<nat>, i: nat)
    requires i < |t| && i !in starts
    ensures Escaped(t, starts, i) == [t[i]] + Escaped(t, starts, i + 1)
  {
  }

  lemma {:induction false} EscapedPlain(t: string, starts: set<nat>, i: nat, j: nat)
    requires i <= j <= |t| && forall k :: i <= k < j ==> k !in starts
    ensures Escaped(t, starts, i) == t[i..j] + Escaped(t, starts, j)
    decreases j - i
  {
    if i < j {
      var tail := Escaped(t, starts, j);
      calc {
        Escaped(t, starts, i);
        { PlainCharacter(t, starts, i); }
        [t[i]] + Escaped(t, starts, i + 1);
        { EscapedPlain(t, starts, i + 1, j); }
        [t[i]] + (t[i + 1..j] + tail);
        { assert [t[i]] + t[i + 1..j] == t[i..j]; }
        t[i..j] + tail;
      }
    }
  }

  lemma {:induction false} EscapedByLater(t: string, a: set<nat>, b: set<nat>, i: nat)
    requires i <= |t| && forall k :: i <= k ==> (k in a <==> k in b)
    ensures Escaped(t, a, i) == Escaped(t, b, i)
    decreases |t| - i
  {
    if i < |t| {
      EscapedByLater(t, a, b, i + 1);
    }
  }

  /** The selected starts of a list in order, one at a time. */
  lemma {:induction false} StartsCons(t: string, i: nat, es: seq<Expression>, select: Expression -> bool)
    requires es != [] && InOrder(t, i, es)
    ensures InOrder(t, es[0].end, es[1..])
    ensures forall k :: k in StartsOf(es[1..], select) ==> es[0].end <= k
  {
    forall k | 0 <= k < |es[1..]| ensures Proper(t, es[0].end, es[1..][k]) {
      assert Proper(t, i, es[k + 1]);
      assert es[0].end <= es[k + 1].start;
    }
    forall k | k in StartsOf(es[1..], select) ensures es[0].end <= k {
      StartsOfMembers(t, es[0].end, es[1..], select, k);
    }
  }

  /** The next selected expression's backslash, after the text up to it. */
  lemma {:induction false} NextBackslash(t: string, copied: nat, es: seq<Expression>, select: Expression -> bool)
    requires es != [] && InOrder(t, copied, es) && select(es[0])
    ensures copied <= es[0].start < |t|
    ensures Escaped(t, StartsOf(es, select), copied)
         == t[copied..es[0].start] + "\\" + Escaped(t, StartsOf(es[1..], select), es[0].start)
  {
    var start, all, rest := es[0].start, StartsOf(es, select), StartsOf(es[1..], select);
    assert Proper(t, copied, es[0]);
    StartsCons(t, copied, es, select);
    EscapedPlain(t, all, copied, start);
    EscapedByLater(t, all, rest, start + 1);
  }

  /** Where the escaping loop stands before its n-th expression. */
  ghost predicate SoFar(
      t: string, select: Expression -> bool, n: nat, copied: nat, result: string, escaped: seq<string>) {
    && n <= |Find(t)| && copied <= |t| && InOrder(t, copied, Find(t)[n..])
    && result + Escaped(t, StartsOf(Find(t)[n..], select), copied) == EscapedTemplate(t, select)
    && escaped + SourcesOf(Find(t)[n..], select) == SourcesOf(Find(t), select)
  }

  lemma {:induction false} PassesOver(
      t: string, select: Expression -> bool, n: nat, copied: nat, result: string, escaped: seq<string>)
    requires SoFar(t, select, n, copied, result, escaped) && n < |Find(t)| && !select(Find(t)[n])
    ensures SoFar(t, select, n + 1, copied, result, escaped)
  {
    var ahead := Find(t)[n..];
    assert ahead[1..] == Find(t)[n + 1..];
    StartsCons(t, copied, ahead, select);
    assert Proper(t, copied, ahead[0]);
    InOrderWeaken(t, copied, ahead[0].end, ahead[1..]);
    assert StartsOf(ahead, select) == StartsOf(ahead[1..], select);
  }

  lemma {:induction false} Escapes(
      t: string, select: Expression -> bool, n: nat, copied: nat, result: string, escaped: seq<string>)
    requires SoFar(t, select, n, copied, result, escaped) && n < |Find(t)| && select(Find(t)[n])
    ensures copied <= Find(t)[n].start <= |t|
    ensures SoFar(t, select, n + 1, Find(t)[n].start,
                  result + (t[copied..Find(t)[n].start] + "\\"), escaped + [Find(t)[n].source])
  {
    var ahead := Find(t)[n..];
    var start := ahead[0].start;
    assert ahead[1..] == Find(t)[n + 1..];
    NextBackslash(t, copied, ahead, select);
    StartsCons(t, copied, ahead, select);
    assert Proper(t, copied, ahead[0]);
    InOrderWeaken(t, start, ahead[0].end, ahead[1..]);
    var piece, tail := t[copied..start] + "\\", Escaped(t, StartsOf(ahead[1..], select), start);
    assert result + (piece + tail) == (result + piece) + tail;
    var sources := SourcesOf(ahead[1..], select);
    assert escaped + ([ahead[0].source] + sources) == (escaped + [ahead[0].source]) + sources;
  }

  /** escapeTemplateExpressions. */
  method EscapeTemplateExpressions(template: string, shouldEscape: Expression -> bool)
    returns (result: string, escaped: seq<string>)
    ensures result == EscapedTemplate(template, shouldEscape)
    ensures escaped == SourcesOf(Find(template), shouldEscape)
  {
    escaped, result := [], "";
    var copiedTo: nat := 0;
    var expressions := FindTemplateExpressions(template);
    FoundInOrder(template, 0);
    assert expressions[0..] == expressions;
    for n := 0 to |expressions|
      invariant SoFar(template, shouldEscape, n, copiedTo, result, escaped)
    {
      var expression := expressions[n];
      if !shouldEscape(expression) {
        PassesOver(template, shouldEscape, n, copiedTo, result, escaped);
        continue;
      }
      Escapes(template, shouldEscape, n, copiedTo, result, escaped);
      escaped := escaped + [expression.source];
      result := result + (template[copiedTo..expression.start] + "\\");
      copiedTo := expression.start;
    }
    EscapedPlain(template, {}, copiedTo, |template|);
    result := result + template[copiedTo..];
  }

  /** The predicate judges an expression as written, not by where it stands. */
  ghost predicate JudgesText(select: Expression -> bool) {
    forall a: Expression, b: Expression :: a.source == b.source && a.body == b.body ==> select(a) == select(b)
  }

  lemma {:induction false} LeftIsUnselected(es: seq<Expression>, select: Expression -> bool, starts: set<nat>)
    requires JudgesText(select)
    ensures StartsOf(Left(es, select, starts), select) == {}
    ensures SourcesOf(Left(es, select, starts), select) == []
  {
    if es != [] {
      LeftIsUnselected(es[1..], select, starts);
      if !select(es[0]) {
        assert select(Moved(starts, es[0])) == select(es[0]);
        assert Left(es, select, starts)[1..] == Left(es[1..], select, starts);
      } else {
        assert Left(es, select, starts) == Left(es[1..], select, starts);
      }
    }
  }

  lemma {:induction false} EscapedLength(t: string, starts: set<nat>, i: nat)
    requires i <= |t|
    ensures |Escaped(t, starts, i)| >= |t| - i
    ensures (exists m :: i <= m < |t| && m in starts) ==> |Escaped(t, starts, i)| > |t| - i
    decreases |t| - i
  {
    if i < |t| {
      EscapedLength(t, starts, i + 1);
    }
  }

  /** Escaping a second time changes nothing exactly when nothing that the second scan finds is
      selected. */
  lemma {:induction false} EscapingAgainExactlyWhen(out: string, select: Expression -> bool)
    ensures EscapedTemplate(out, select) == out <==> forall e :: e in Find(out) ==> !select(e)
  {
    var starts := StartsOf(Find(out), select);
    FoundInOrder(out, 0);
    EscapedLength(out, starts, 0);
    if e :| e in Find(out) && select(e) {
      var m :| 0 <= m < |Find(out)| && Find(out)[m] == e;
      assert Proper(out, 0, Find(out)[m]);
      StartsOfMembers(out, 0, Find(out), select, e.start);
      assert e.start in starts;
    } else {
      forall k ensures k !in starts {
        StartsOfMembers(out, 0, Find(out), select, k);
      }
      EscapedPlain(out, starts, 0, |out|);
      assert out[0..|out|] == out;
    }
  }

  lemma {:induction false} NoneSelected(es: seq<Expression>, select: Expression -> bool)
    requires SourcesOf(es, select) == []
    ensures forall e :: e in es ==> !select(e)
  {
    if es != [] {
      NoneSelected(es[1..], select);
      assert forall e :: e in es <==> e == es[0] || e in es[1..];
    }
  }

  /** So escaping twice escapes once wherever the two scans agree. */
  lemma {:induction false} EscapingTwiceIsOnce(t: string, select: Expression -> bool)
    requires JudgesText(select) && Rescannable(t, Find(t), select)
    ensures EscapedTemplate(EscapedTemplate(t, select), select) == EscapedTemplate(t, select)
    ensures SourcesOf(Find(EscapedTemplate(t, select)), select) == []
  {
    RescanAgreesExactlyWhen(t, select);
    LeftIsUnselected(Find(t), select, StartsOf(Find(t), select));
    NoneSelected(Find(EscapedTemplate(t, select)), select);
    EscapingAgainExactlyWhen(EscapedTemplate(t, select), select);
  }

  // ----- Two templates whose scans differ -----

  const TRIPLE := "{{{x}}}"
  const NESTED := "{{a{{b}}"

  lemma {:induction false} TripleIsFound()
    ensures FoundAt(TRIPLE, 0, 7) && Braces(TRIPLE, 0) == 3
  {
    var t := TRIPLE;
    BracesAre(t, 0, 3);
    assert EndFrom(t, 3, 3, None) == EndFrom(t, 4, 3, None);
    assert ClosesAt(t, 4, 3);
  }

  /** One three-brace expression, selected: the second scan finds it one brace in. */
  lemma {:induction false} TripleIsFoundAgain(select: Expression -> bool)
    requires forall e :: select(e)
    ensures Left(Find(TRIPLE), select, StartsOf(Find(TRIPLE), select)) == []
    ensures Find(EscapedTemplate(TRIPLE, select)) != [] && Find(EscapedTemplate(TRIPLE, select))[0].start == 2
  {
    var starts := StartsOf(Find(TRIPLE), select);
    TripleIsFound();
    FoundThere(TRIPLE, 0, 7);
    assert FindFrom(TRIPLE, 7) == [] && Find(TRIPLE) == [ExpressionAt(TRIPLE, 0, 7, 3)];
    NothingLeft(Find(TRIPLE), select, starts);
    AheadOfFound(TRIPLE, starts, 0, 7, select);
    TripleIsFoundInside(TRIPLE, starts, 0, 7);
    assert Gap(starts, 0) == 0 && Gap(starts, 1) == 2;
  }

  lemma {:induction false} NestedIsFound()
    ensures FoundAt(NESTED, 0, 8) && Braces(NESTED, 0) == 2
    ensures InnerOpening(NESTED, 1, 8) == Some(3) && Closing(NESTED, 3) == Some(8)
  {
    var t := NESTED;
    BracesAre(t, 0, 2);
    BracesAre(t, 3, 2);
    assert ClosesAt(t, 6, 2);
    assert EndFrom(t, 5, 2, None) == EndFrom(t, 6, 2, None) == Some(8);
    assert EndFrom(t, 4, 2, None) == EndFrom(t, 5, 2, None);
    assert EndFrom(t, 3, 2, None) == EndFrom(t, 4, 2, None);
    assert EndFrom(t, 2, 2, None) == EndFrom(t, 3, 2, None);
    assert LiveAt(t, 3) && !LiveAt(t, 1) && !LiveAt(t, 2);
    assert InnerOpening(t, 2, 8) == InnerOpening(t, 3, 8) == Some(3);
  }

  /** One two-brace expression around another opening, selected: the second scan finds the inner one. */
  lemma {:induction false} NestedIsFoundAgain(select: Expression -> bool)
    requires forall e :: select(e)
    ensures Left(Find(NESTED), select, StartsOf(Find(NESTED), select)) == []
    ensures Find(EscapedTemplate(NESTED, select)) != []
  {
    var starts := StartsOf(Find(NESTED), select);
    NestedIsFound();
    FoundThere(NESTED, 0, 8);
    assert FindFrom(NESTED, 8) == [] && Find(NESTED) == [ExpressionAt(NESTED, 0, 8, 2)];
    NothingLeft(Find(NESTED), select, starts);
    RescanAgreesExactlyWhen(NESTED, select);
  }
}
