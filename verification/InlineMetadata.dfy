/** Requirements in a script's inline metadata (PEP 723, section Specification), as
    migration-kit/scripts/discover.py:507-556 extracts them. */
module InlineMetadata {
  import opened Wrappers
  import opened Surrogates
  import opened PyText
  import opened PyJson

  const HASH: CodePoint := 0x23
  const SPACE: CodePoint := 0x20
  const EQUALS: CodePoint := 0x3D
  const OPEN: CodePoint := 0x5B
  const CLOSE: CodePoint := 0x5D
  const DOUBLE: CodePoint := 0x22
  const SINGLE: CodePoint := 0x27

  const WORD: Text := Py("dependencies")
  const HEADER: Text := Py("# /// script")
  const FOOTER: Text := Py("# ///")

  // ----- str.splitlines -----

  predicate Break(c: CodePoint) {
    0x0A <= c <= 0x0D || 0x1C <= c <= 0x1E || c == 0x85 || c == 0x2028 || c == 0x2029
  }

  ghost predicate OneLine(s: Text) {
    forall i :: 0 <= i < |s| ==> !Break(s[i])
  }

  function LineLength(s: Text): (n: nat)
    ensures n <= |s| && (n < |s| ==> Break(s[n]))
    decreases |s|
  {
    if s == [] || Break(s[0]) then 0 else 1 + LineLength(s[1..])
  }

  function SplitLines(s: Text): seq<Text>
    decreases |s|
  {
    if s == [] then []
    else
      var n := LineLength(s);
      if n == |s| then [s]
      else if CrLfAt(s, n) then [s[..n]] + SplitLines(s[n + 2..])
      else [s[..n]] + SplitLines(s[n + 1..])
  }

  // ----- The array of strings -----

  function Find<T(==)>(s: seq<T>, c: T): (n: nat)
    ensures n <= |s| && (n < |s| ==> s[n] == c) && forall i :: 0 <= i < n ==> s[i] != c
    decreases |s|
  {
    if s == [] || s[0] == c then 0 else 1 + Find(s[1..], c)
  }

  predicate Quote(c: CodePoint) {
    c == DOUBLE || c == SINGLE
  }

  /** The quoted strings up to the array's end, from just after its opening bracket. */
  function Scan(s: Text): seq<Text>
    decreases |s|
  {
    if s == [] || s[0] == CLOSE then []
    else if s[0] == HASH then
      var nl := Find(s[1..], NL);
      if nl == |s[1..]| then [] else Scan(s[1..][nl + 1..])
    else if Quote(s[0]) then
      var close := Find(s[1..], s[0]);
      if close == |s[1..]| then [] else [s[1..][..close]] + Scan(s[1..][close + 1..])
    else Scan(s[1..])
  }

  function SkipSpaces(s: Text): (rest: Text)
    ensures |rest| <= |s|
    decreases |s|
  {
    if s != [] && Space(s[0]) then SkipSpaces(s[1..]) else s
  }

  /** The text after a match of ^dependencies\s*=\s*\[ that starts at the front. */
  function AfterStart(s: Text): Option<Text> {
    if !(WORD <= s) then None
    else
      var a := SkipSpaces(s[|WORD|..]);
      if a == [] || a[0] != EQUALS then None
      else
        var b := SkipSpaces(a[1..]);
        if b == [] || b[0] != OPEN then None else Some(b[1..])
  }

  /** The text after the first match at the start of a line. */
  function FindStart(s: Text, lineStart: bool): Option<Text>
    decreases |s|
  {
    if lineStart && AfterStart(s).Some? then AfterStart(s)
    else if s == [] then None
    else FindStart(s[1..], s[0] == NL)
  }

  function ScanDependencies(toml: Text): seq<Text> {
    match FindStart(toml, true)
    case None => []
    case Some(rest) => Scan(rest)
  }

  // ----- The comment block -----

  predicate Comment(line: Text) {
    [HASH, SPACE] <= line || line == [HASH]
  }

  function Uncommented(line: Text): Text
    requires Comment(line)
  {
    if |line| >= 2 then line[2..] else []
  }

  function UncommentAll(lines: seq<Text>): Option<seq<Text>>
    decreases |lines|
  {
    if lines == [] then Some([])
    else if !Comment(lines[0]) then None
    else match UncommentAll(lines[1..])
      case None => None
      case Some(rest) => Some([Uncommented(lines[0])] + rest)
  }

  /** The requirements of a script, none if it has no well-formed block. */
  function Extract(content: Text): seq<Text> {
    var lines := SplitLines(content);
    var start := Find(lines, HEADER);
    if start == |lines| then []
    else
      var rest := lines[start + 1..];
      var end := Find(rest, FOOTER);
      if end == |rest| then []
      else match UncommentAll(rest[..end])
        case None => []
        case Some(body) => ScanDependencies(Join(body))
  }

  // ----- Writing an array -----

  /** What an array is written with: anything but brackets, quotes and comments; a comment to the end
      of its line; a requirement in quotes it does not itself hold. */
  datatype Piece =
    | Filler(text: Text)
    | Remark(text: Text)
    | Requirement(quote: CodePoint, text: Text)

  ghost predicate Plain(piece: Piece) {
    match piece
    case Filler(text) => forall c :: c in text ==> c != CLOSE && c != HASH && !Quote(c)
    case Remark(text) => NL !in text
    case Requirement(quote, text) => Quote(quote) && quote !in text
  }

  function Written(piece: Piece): Text {
    match piece
    case Filler(text) => text
    case Remark(text) => [HASH] + text + [NL]
    case Requirement(quote, text) => [quote] + text + [quote]
  }

  function WrittenAll(pieces: seq<Piece>): Text
    decreases |pieces|
  {
    if pieces == [] then [] else Written(pieces[0]) + WrittenAll(pieces[1..])
  }

  function Requirements(pieces: seq<Piece>): seq<Text>
    decreases |pieces|
  {
    if pieces == [] then []
    else (if pieces[0].Requirement? then [pieces[0].text] else []) + Requirements(pieces[1..])
  }

  lemma {:induction false} FindIn(text: Text, c: CodePoint, rest: Text)
    requires c !in text
    ensures Find(text + [c] + rest, c) == |text|
    decreases |text|
  {
    var all := text + [c] + rest;
    if text != [] {
      assert all[1..] == text[1..] + [c] + rest;
      FindIn(text[1..], c, rest);
    }
  }

  lemma {:induction false} ScanFiller(text: Text, rest: Text)
    requires Plain(Filler(text))
    ensures Scan(text + rest) == Scan(rest)
    decreases |text|
  {
    if text == [] {
      assert text + rest == rest;
    } else {
      assert text[0] in text && forall c :: c in text[1..] ==> c in text;
      assert (text + rest)[1..] == text[1..] + rest;
      ScanFiller(text[1..], rest);
    }
  }

  lemma {:induction false} ScanDelimited(head: CodePoint, text: Text, c: CodePoint, rest: Text)
    requires c !in text
    ensures var s := [head] + text + [c] + rest;
            Find(s[1..], c) == |text| < |s[1..]| && s[1..][..|text|] == text && s[1..][|text| + 1..] == rest
  {
    var s := [head] + text + [c] + rest;
    assert s[1..] == text + [c] + rest;
    FindIn(text, c, rest);
  }

  lemma {:induction false} ScanPiece(piece: Piece, rest: Text)
    requires Plain(piece)
    ensures Scan(Written(piece) + rest) == (if piece.Requirement? then [piece.text] else []) + Scan(rest)
  {
    match piece
    case Filler(text) => ScanFiller(text, rest);
    case Remark(text) =>
      ScanDelimited(HASH, text, NL, rest);
      assert Written(piece) + rest == [HASH] + text + [NL] + rest;
    case Requirement(quote, text) =>
      ScanDelimited(quote, text, quote, rest);
      assert Written(piece) + rest == [quote] + text + [quote] + rest;
  }

  /** Scanning an array that was written gives its requirements, whatever brackets, commas and
      comment signs they hold and whatever the comments between them say. */
  lemma {:induction false} ScanWritten(pieces: seq<Piece>, after: Text)
    requires forall i :: 0 <= i < |pieces| ==> Plain(pieces[i])
    ensures Scan(WrittenAll(pieces) + [CLOSE] + after) == Requirements(pieces)
    decreases |pieces|
  {
    if pieces == [] {
      assert WrittenAll(pieces) + [CLOSE] + after == [CLOSE] + after;
    } else {
      var rest := WrittenAll(pieces[1..]) + [CLOSE] + after;
      assert WrittenAll(pieces) + [CLOSE] + after == Written(pieces[0]) + rest;
      ScanPiece(pieces[0], rest);
      ScanWritten(pieces[1..], after);
    }
  }

  lemma {:induction false} FirstScanned(quote: CodePoint, text: Text, rest: Text)
    requires Quote(quote) && quote !in text
    ensures Scan([quote] + text + [quote] + rest) == [text] + Scan(rest)
  {
    ScanDelimited(quote, text, quote, rest);
  }

  lemma {:induction false} QuotedSurvives(quote: CodePoint, text: Text, after: Text)
    requires Quote(quote) && quote !in text
    ensures Scan([quote] + text + [quote] + ([CLOSE] + after)) == [text]
  {
    FirstScanned(quote, text, [CLOSE] + after);
    assert ([CLOSE] + after)[0] == CLOSE;
  }

  lemma {:induction false} QuotedBreaks(quote: CodePoint, front: Text, back: Text, after: Text)
    requires Quote(quote) && quote !in front
    ensures Scan([quote] + (front + [quote] + back) + [quote] + ([CLOSE] + after)) != [front + [quote] + back]
  {
    var rest := back + [quote] + ([CLOSE] + after);
    FirstScanned(quote, front, rest);
    var found := Scan([quote] + front + [quote] + rest);
    assert found[0] == front && |front| < |front + [quote] + back|;
    assert [quote] + (front + [quote] + back) + [quote] + ([CLOSE] + after) == [quote] + front + [quote] + rest;
  }

  /** A requirement survives its quotes exactly when it does not hold them. */
  lemma {:induction false} QuotedExactlyWhen(quote: CodePoint, text: Text, after: Text)
    requires Quote(quote)
    ensures Scan([quote] + text + [quote] + ([CLOSE] + after)) == [text] <==> quote !in text
  {
    if quote !in text {
      QuotedSurvives(quote, text, after);
    } else {
      var k := Find(text, quote);
      assert k < |text| by {
        var i :| 0 <= i < |text| && text[i] == quote;
      }
      QuotedBreaks(quote, text[..k], text[k + 1..], after);
      assert text == text[..k] + [quote] + text[k + 1..];
    }
  }

  // ----- Finding the array -----

  lemma {:induction false} SkipAll(spaces: Text, rest: Text)
    requires (forall c :: c in spaces ==> Space(c)) && rest != [] && !Space(rest[0])
    ensures SkipSpaces(spaces + rest) == rest
    decreases |spaces|
  {
    if spaces == [] {
      assert spaces + rest == rest;
    } else {
      assert spaces[0] in spaces;
      assert (spaces + rest)[1..] == spaces[1..] + rest;
      SkipAll(spaces[1..], rest);
    }
  }

  function Opening(a: Text, b: Text): Text {
    WORD + a + [EQUALS] + b + [OPEN]
  }

  lemma {:induction false} OpeningMatches(a: Text, b: Text, rest: Text)
    requires (forall c :: c in a ==> Space(c)) && (forall c :: c in b ==> Space(c))
    ensures AfterStart(Opening(a, b) + rest) == Some(rest)
  {
    var s := Opening(a, b) + rest;
    var fromB := b + ([OPEN] + rest);
    assert s == WORD + (a + ([EQUALS] + fromB));
    assert s[|WORD|..] == a + ([EQUALS] + fromB);
    SkipAll(a, [EQUALS] + fromB);
    assert ([EQUALS] + fromB)[1..] == fromB;
    SkipAll(b, [OPEN] + rest);
    assert ([OPEN] + rest)[1..] == rest;
  }

  /** No line of the text before begins with the key. */
  ghost predicate NoKeyLine(before: Text, lineStart: bool) {
    forall p :: 0 <= p < |before| && (if p == 0 then lineStart else before[p - 1] == NL) ==> !(WORD <= before[p..])
  }

  lemma {:induction false} WordHasNoNl()
    ensures NoNl(WORD) && |WORD| == 12
  {
  }

  lemma {:induction false} WordStaysInside(before: Text, s: Text)
    requires before != [] && before[|before| - 1] == NL
    ensures WORD <= before + s ==> WORD <= before
  {
    var all, n := before + s, |before| - 1;
    WordHasNoNl();
    assert all[n] == NL;
    if n < |WORD| <= |all| {
      assert all[..|WORD|][n] == NL && WORD[n] != NL;
    }
  }

  lemma {:induction false} StartIsFound(before: Text, lineStart: bool, s: Text)
    requires NoKeyLine(before, lineStart) && AfterStart(s).Some?
    requires if before == [] then lineStart else before[|before| - 1] == NL
    ensures FindStart(before + s, lineStart) == AfterStart(s)
    decreases |before|
  {
    if before == [] {
      assert before + s == s;
    } else {
      assert (before + s)[1..] == before[1..] + s;
      WordStaysInside(before, s);
      assert before[0..] == before;
      forall p | 0 <= p < |before[1..]| && (if p == 0 then before[0] == NL else before[1..][p - 1] == NL)
        ensures !(WORD <= before[1..][p..])
      {
        assert before[p + 1 - 1] == NL;
        assert before[1..][p..] == before[p + 1..];
      }
      StartIsFound(before[1..], before[0] == NL, s);
    }
  }

  // ----- The whole script -----

  predicate LineEnd(eol: Text) {
    eol == [NL] || eol == [CR, NL]
  }

  lemma {:induction false} LineLengthOf(line: Text, rest: Text)
    requires OneLine(line) && rest != [] && Break(rest[0])
    ensures LineLength(line + rest) == |line|
    decreases |line|
  {
    if line == [] {
      assert line + rest == rest;
    } else {
      assert (line + rest)[1..] == line[1..] + rest;
      LineLengthOf(line[1..], rest);
    }
  }

  lemma {:induction false} SplitLinesFirst(line: Text, eol: Text, rest: Text)
    requires OneLine(line) && LineEnd(eol)
    ensures SplitLines(line + eol + rest) == [line] + SplitLines(rest)
  {
    var s, n := line + eol + rest, |line|;
    assert s == line + (eol + rest);
    LineLengthOf(line, eol + rest);
    assert s[..n] == line && s[n..] == eol + rest;
    assert s[n] == eol[0];
    if eol == [NL] {
      assert s[n + 1..] == rest;
    } else {
      assert s[n + 1] == NL;
      assert s[n + 2..] == rest;
    }
  }

  function WithEnds(lines: seq<Text>, eol: Text): Text
    decreases |lines|
  {
    if lines == [] then [] else lines[0] + eol + WithEnds(lines[1..], eol)
  }

  ghost predicate OneLiners(lines: seq<Text>) {
    forall i :: 0 <= i < |lines| ==> OneLine(lines[i])
  }

  lemma {:induction false} SplitLinesAll(lines: seq<Text>, eol: Text, rest: Text)
    requires OneLiners(lines) && LineEnd(eol)
    ensures SplitLines(WithEnds(lines, eol) + rest) == lines + SplitLines(rest)
    decreases |lines|
  {
    if lines == [] {
      assert WithEnds(lines, eol) + rest == rest;
    } else {
      var head, tail := lines[0], lines[1..];
      var more := WithEnds(tail, eol) + rest;
      calc {
        SplitLines(WithEnds(lines, eol) + rest);
        { assert WithEnds(lines, eol) + rest == head + eol + more; }
        SplitLines(head + eol + more);
        { SplitLinesFirst(head, eol, more); }
        [head] + SplitLines(more);
        { SplitLinesAll(tail, eol, rest); }
        [head] + (tail + SplitLines(rest));
        { assert [head] + tail == lines; }
        lines + SplitLines(rest);
      }
    }
  }

  function Commented(lines: seq<Text>): seq<Text> {
    seq(|lines|, i requires 0 <= i < |lines| => if lines[i] == [] then [HASH] else [HASH, SPACE] + lines[i])
  }

  lemma {:induction false} UncommentCommented(lines: seq<Text>)
    ensures UncommentAll(Commented(lines)) == Some(lines)
    decreases |lines|
  {
    if lines != [] {
      assert Commented(lines)[1..] == Commented(lines[1..]);
      UncommentCommented(lines[1..]);
      assert Comment(Commented(lines)[0]) && Uncommented(Commented(lines)[0]) == lines[0];
      assert [lines[0]] + lines[1..] == lines;
    }
  }

  lemma {:induction false} IndexAfter(lines: seq<Text>, line: Text, rest: seq<Text>)
    requires line !in lines
    ensures Find(lines + [line] + rest, line) == |lines|
    decreases |lines|
  {
    var all := lines + [line] + rest;
    if lines != [] {
      assert lines[0] in lines && all[0] == lines[0];
      assert all[1..] == lines[1..] + [line] + rest;
      IndexAfter(lines[1..], line, rest);
    }
  }

  lemma {:induction false} CommentedHasNoFooter(lines: seq<Text>)
    requires Py("///") !in lines
    ensures FOOTER !in Commented(lines)
  {
    forall i | 0 <= i < |lines| ensures Commented(lines)[i] != FOOTER {
      assert lines[i] in lines;
      assert FOOTER[2..] == Py("///");
      assert ([HASH, SPACE] + lines[i])[2..] == lines[i];
    }
  }

  lemma {:induction false} CommentedAreLines(lines: seq<Text>)
    requires OneLiners(lines)
    ensures OneLiners(Commented(lines))
  {
    forall i | 0 <= i < |lines| ensures OneLine(Commented(lines)[i]) {
      assert OneLine(lines[i]);
    }
  }

  /** A script: lines before, the block, and whatever follows. */
  function Script(before: seq<Text>, block: seq<Text>, eol: Text, after: Text): Text {
    WithEnds(before + [HEADER] + Commented(block) + [FOOTER], eol) + after
  }

  /** What is extracted from lines that hold a block. */
  lemma {:induction false} ExtractLines(content: Text, before: seq<Text>, block: seq<Text>, behind: seq<Text>)
    requires SplitLines(content) == before + [HEADER] + (Commented(block) + [FOOTER] + behind)
    requires HEADER !in before && Py("///") !in block
    ensures Extract(content) == ScanDependencies(Join(block))
  {
    var rest := Commented(block) + [FOOTER] + behind;
    var lines := SplitLines(content);
    IndexAfter(before, HEADER, rest);
    assert lines[|before| + 1..] == rest;
    CommentedHasNoFooter(block);
    IndexAfter(Commented(block), FOOTER, behind);
    assert rest[..|block|] == Commented(block);
    UncommentCommented(block);
  }

  lemma {:induction false} ScriptLines(before: seq<Text>, block: seq<Text>, eol: Text, after: Text)
    requires OneLiners(before) && OneLiners(block) && LineEnd(eol)
    ensures SplitLines(Script(before, block, eol, after))
         == before + [HEADER] + (Commented(block) + [FOOTER] + SplitLines(after))
  {
    var written := before + [HEADER] + Commented(block) + [FOOTER];
    CommentedAreLines(block);
    assert OneLiners(written);
    SplitLinesAll(written, eol, after);
  }

  /** Writing requirements into a script and extracting them gives them back: with either line end,
      any lines in front of the block, any keys in front of the array that do not begin like it, any
      layout inside it, and any text behind. */
  lemma {:induction false} ExtractWritten(
      before: seq<Text>, keys: Text, a: Text, b: Text, pieces: seq<Piece>, behind: Text, eol: Text, after: Text)
    requires OneLiners(before) && HEADER !in before && LineEnd(eol)
    requires (forall c :: c in a ==> Space(c)) && (forall c :: c in b ==> Space(c))
    requires forall i :: 0 <= i < |pieces| ==> Plain(pieces[i])
    requires NoKeyLine(keys, true) && (keys == [] || keys[|keys| - 1] == NL)
    requires var block := Split(keys + (Opening(a, b) + (WrittenAll(pieces) + [CLOSE] + behind)), NL);
             OneLiners(block) && Py("///") !in block
    ensures var block := Split(keys + (Opening(a, b) + (WrittenAll(pieces) + [CLOSE] + behind)), NL);
            Extract(Script(before, block, eol, after)) == Requirements(pieces)
  {
    var listing := WrittenAll(pieces) + [CLOSE] + behind;
    var toml := keys + (Opening(a, b) + listing);
    var block := Split(toml, NL);
    ScriptLines(before, block, eol, after);
    ExtractLines(Script(before, block, eol, after), before, block, SplitLines(after));
    JoinSplit(toml);
    OpeningMatches(a, b, listing);
    StartIsFound(keys, true, Opening(a, b) + listing);
    ScanWritten(pieces, behind);
  }
}
