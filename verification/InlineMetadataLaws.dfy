/** What is extracted from any script at all, well-formed or not (migration-kit/scripts/discover.py:507-556). */
module InlineMetadataLaws {
  import opened Wrappers
  import opened Surrogates
  import opened PyText
  import opened InlineMetadata

  // ----- The array -----

  /** Where an array stops: at its bracket, at the text's end, in a comment without a line end or in a
      string without a closing quote. */
  predicate Stops(rest: Text) {
    || rest == [] || rest[0] == ']' as int
    || (rest[0] == '#' as int && '\n' as int !in rest)
    || ((rest[0] == '"' as int || rest[0] == '\'' as int) && rest[0] !in rest[1..])
  }

  ghost predicate AllPlain(pieces: seq<Piece>) {
    forall i :: 0 <= i < |pieces| ==> Plain(pieces[i])
  }

  ghost predicate Reads(s: Text, pieces: seq<Piece>, rest: Text) {
    AllPlain(pieces) && Stops(rest) && s == WrittenAll(pieces) + rest
  }

  lemma {:induction false} FoundIsThere<T>(s: seq<T>, c: T)
    ensures var k := Find(s, c);
            k < |s| ==> c in s && s == s[..k] + [c] + s[k + 1..] && c !in s[..k]
  {
    var k := Find(s, c);
    if k < |s| {
      assert s[k] in s;
    }
  }

  lemma {:induction false} ScanStops(rest: Text)
    requires Stops(rest)
    ensures Scan(rest) == []
  {
    if rest != [] && rest[0] != CLOSE {
      var c := if rest[0] == HASH then NL else rest[0];
      assert c !in rest[1..];
      FoundIsThere(rest[1..], c);
    }
  }

  lemma {:induction false} ScanReads(s: Text, pieces: seq<Piece>, rest: Text)
    requires Reads(s, pieces, rest)
    ensures Scan(s) == Requirements(pieces)
    decreases |pieces|
  {
    if pieces == [] {
      assert s == rest;
      ScanStops(rest);
    } else {
      var more := WrittenAll(pieces[1..]) + rest;
      assert s == Written(pieces[0]) + more;
      ScanPiece(pieces[0], more);
      ScanReads(more, pieces[1..], rest);
    }
  }

  /** The first piece of a text that does not stop. */
  lemma {:induction false} FirstPiece(s: Text) returns (piece: Piece)
    requires !Stops(s)
    ensures Plain(piece) && Written(piece) != [] && Written(piece) <= s
  {
    piece := Filler([s[0]]);
    if s[0] == HASH || Quote(s[0]) {
      var c := if s[0] == HASH then NL else s[0];
      var k := Find(s[1..], c);
      assert k < |s[1..]| by {
        if c == NL {
          var i :| 0 <= i < |s| && s[i] == NL;
          assert s[1..][i - 1] == NL;
        }
      }
      var text := s[1..][..k];
      piece := if s[0] == HASH then Remark(text) else Requirement(c, text);
      assert s == [s[0]] + text + [c] + s[1..][k + 1..];
    }
  }

  lemma {:induction false} SomePieces(s: Text) returns (pieces: seq<Piece>, rest: Text)
    ensures Reads(s, pieces, rest)
    decreases |s|
  {
    pieces, rest := [], s;
    if Stops(s) {
      assert s == [] + s;
    } else {
      var first := FirstPiece(s);
      var m := |Written(first)|;
      pieces, rest := SomePieces(s[m..]);
      assert ([first] + pieces)[1..] == pieces;
      assert s == Written(first) + s[m..];
      pieces := [first] + pieces;
    }
  }

  /** Any text is read as pieces up to where it stops, and the requirements among them are the answer. */
  lemma {:induction false} ScanExactly(s: Text)
    ensures exists pieces, rest :: Reads(s, pieces, rest)
    ensures forall pieces, rest :: Reads(s, pieces, rest) ==> Scan(s) == Requirements(pieces)
  {
    var pieces, rest := SomePieces(s);
    forall pieces, rest | Reads(s, pieces, rest) ensures Scan(s) == Requirements(pieces) {
      ScanReads(s, pieces, rest);
    }
  }

  // ----- Where it starts -----

  predicate AllSpace(s: Text) {
    forall c :: c in s ==> Space(c)
  }

  /** dependencies = [ with any white space around the equals sign, and the rest. */
  ghost predicate Opened(s: Text, rest: Text) {
    exists a, b :: AllSpace(a) && AllSpace(b)
                   && s == Py("dependencies") + a + ['=' as int] + b + ['[' as int] + rest
  }

  /** The array opens at n, which is the start of a line. */
  ghost predicate OpensAt(toml: Text, n: nat, rest: Text) {
    n <= |toml| && (n == 0 || toml[n - 1] == '\n' as int) && Opened(toml[n..], rest)
  }

  lemma {:induction false} SkippedSpaces(s: Text) returns (spaces: Text)
    ensures AllSpace(spaces) && s == spaces + SkipSpaces(s)
    decreases |s|
  {
    spaces := [];
    if s != [] && Space(s[0]) {
      spaces := SkippedSpaces(s[1..]);
      spaces := [s[0]] + spaces;
    }
  }

  lemma {:induction false} OpenedIsStart(s: Text, rest: Text)
    requires Opened(s, rest)
    ensures AfterStart(s) == Some(rest)
  {
    var a, b :| AllSpace(a) && AllSpace(b) && s == Py("dependencies") + a + ['=' as int] + b + ['[' as int] + rest;
    assert s == Opening(a, b) + rest;
    OpeningMatches(a, b, rest);
  }

  /** Behind the word comes white space, an equals sign, white space and a bracket. */
  lemma {:induction false} StartParts(s: Text) returns (a: Text, b: Text, u: Text)
    requires AfterStart(s).Some?
    ensures AllSpace(a) && AllSpace(b) && WORD <= s
    ensures s[|WORD|..] == a + ([EQUALS] + u) && u == b + ([OPEN] + AfterStart(s).value)
  {
    var t := s[|WORD|..];
    a := SkippedSpaces(t);
    u := SkipSpaces(t)[1..];
    b := SkippedSpaces(u);
    assert SkipSpaces(t) == [EQUALS] + u;
    assert SkipSpaces(u) == [OPEN] + AfterStart(s).value;
  }

  lemma {:induction false} OpeningParts(s: Text, word: Text, a: Text, b: Text, rest: Text)
    requires word <= s && s[|word|..] == a + ([EQUALS] + (b + ([OPEN] + rest)))
    ensures s == word + a + [EQUALS] + b + [OPEN] + rest
  {
    assert s == word + s[|word|..];
  }

  lemma {:induction false} StartIsOpened(s: Text)
    requires AfterStart(s).Some?
    ensures Opened(s, AfterStart(s).value)
  {
    var a, b, u := StartParts(s);
    OpeningParts(s, WORD, a, b, AfterStart(s).value);
  }

  lemma {:induction false} OpenedExactly(s: Text)
    ensures forall rest :: Opened(s, rest) <==> AfterStart(s) == Some(rest)
  {
    forall rest | Opened(s, rest) ensures AfterStart(s) == Some(rest) {
      OpenedIsStart(s, rest);
    }
    if AfterStart(s).Some? {
      StartIsOpened(s);
    }
  }

  /** The search from position n on. */
  lemma {:induction false} StartFrom(toml: Text, n: nat)
    requires n <= |toml|
    ensures var found := FindStart(toml[n..], n == 0 || toml[n - 1] == NL);
            match found
            case None => forall m: nat, rest :: n <= m ==> !OpensAt(toml, m, rest)
            case Some(rest) => exists m: nat :: n <= m && OpensAt(toml, m, rest)
                                                && forall k: nat, r :: n <= k < m ==> !OpensAt(toml, k, r)
    decreases |toml| - n
  {
    OpenedExactly(toml[n..]);
    if (n == 0 || toml[n - 1] == NL) && AfterStart(toml[n..]).Some? {
      assert OpensAt(toml, n, AfterStart(toml[n..]).value);
    } else {
      assert forall rest :: !OpensAt(toml, n, rest);
      if n < |toml| {
        assert toml[n..][1..] == toml[n + 1..] && toml[n..][0] == toml[n];
        StartFrom(toml, n + 1);
      }
    }
  }

  lemma {:induction false} OpensOnce(toml: Text, n: nat, a: Text, b: Text)
    requires OpensAt(toml, n, a) && OpensAt(toml, n, b)
    ensures a == b
  {
    OpenedExactly(toml[n..]);
  }

  /** The array that counts is the first that opens at the start of a line. */
  lemma {:induction false} ArrayExactly(toml: Text, n: nat, rest: Text)
    ensures OpensAt(toml, n, rest) && (forall m: nat, r :: m < n ==> !OpensAt(toml, m, r)) ==>
              ScanDependencies(toml) == Scan(rest)
    ensures (forall m: nat, r :: !OpensAt(toml, m, r)) ==> ScanDependencies(toml) == []
  {
    StartFrom(toml, 0);
    assert toml[0..] == toml;
    if OpensAt(toml, n, rest) && forall m: nat, r :: m < n ==> !OpensAt(toml, m, r) {
      var found := FindStart(toml, true).value;
      var m: nat :| OpensAt(toml, m, found) && forall k: nat, r :: 0 <= k < m ==> !OpensAt(toml, k, r);
      assert m == n;
      OpensOnce(toml, n, rest, found);
    }
  }

  // ----- Lines -----

  /** What ends a line: a carriage return and a line feed together, or any one of these. */
  predicate EndsLine(end: Text) {
    || end == [0x0D, 0x0A]
    || (|end| == 1 && end[0] in {0x0A, 0x0B, 0x0C, 0x0D, 0x1C, 0x1D, 0x1E, 0x85, 0x2028, 0x2029})
  }

  predicate NoLineEnd(line: Text) {
    forall i :: 0 <= i < |line| ==> !EndsLine([line[i]])
  }

  /** The lines of s, each without its end; a carriage return right before a line feed ends none alone. */
  ghost predicate AreLines(s: Text, lines: seq<Text>)
    decreases |lines|
  {
    if lines == [] then s == []
    else
      && NoLineEnd(lines[0])
      && if lines[0] != [] && s == lines[0] then |lines| == 1
         else exists end, rest ::
                && EndsLine(end) && s == lines[0] + end + rest && AreLines(rest, lines[1..])
                && !(end == [0x0D] && rest != [] && rest[0] == 0x0A)
  }

  lemma {:induction false} BreakExactly(c: CodePoint)
    ensures Break(c) <==> EndsLine([c])
  {
  }

  lemma {:induction false} LineHasNoEnd(s: Text)
    ensures NoLineEnd(s[..LineLength(s)])
    decreases |s|
  {
    if s != [] && !Break(s[0]) {
      LineHasNoEnd(s[1..]);
      BreakExactly(s[0]);
      var n := LineLength(s);
      assert forall i :: 1 <= i < n ==> s[..n][i] == s[1..][..n - 1][i - 1];
    }
  }

  lemma {:induction false} OneMoreLine(line: Text, end: Text, rest: Text, lines: seq<Text>)
    requires NoLineEnd(line) && EndsLine(end) && AreLines(rest, lines)
    requires !(end == [0x0D] && rest != [] && rest[0] == 0x0A)
    ensures AreLines(line + end + rest, [line] + lines)
  {
    assert ([line] + lines)[1..] == lines;
    assert |line + end + rest| > |line|;
  }

  /** splitlines gives the lines. */
  lemma {:induction false} SplitLinesExactly(s: Text)
    ensures AreLines(s, SplitLines(s))
    decreases |s|
  {
    if s != [] {
      var n := LineLength(s);
      LineHasNoEnd(s);
      if n == |s| {
        assert s[..n] == s;
      } else {
        var m := if CrLfAt(s, n) then n + 2 else n + 1;
        BreakExactly(s[n]);
        SplitLinesExactly(s[m..]);
        OneMoreLine(s[..n], s[n..m], s[m..], SplitLines(s[m..]));
        assert s == s[..n] + s[n..m] + s[m..];
      }
    }
  }

  // ----- The block -----

  /** The lines between the first head and the next foot. */
  ghost predicate Between(lines: seq<Text>, head: Text, foot: Text, block: seq<Text>) {
    exists before, behind ::
      lines == before + [head] + (block + [foot] + behind) && head !in before && foot !in block
  }

  ghost predicate HasBlock(lines: seq<Text>, block: seq<Text>) {
    Between(lines, Py("# /// script"), Py("# ///"), block)
  }

  /** The line is body behind a number sign and a space, or a number sign alone for an empty body. */
  predicate Comments(line: Text, body: Text) {
    line == ['#' as int, ' ' as int] + body || (line == ['#' as int] && body == [])
  }

  ghost predicate AllComments(block: seq<Text>, bodies: seq<Text>) {
    |block| == |bodies| && forall i :: 0 <= i < |block| ==> Comments(block[i], bodies[i])
  }

  lemma {:induction false} UncommentExactly(block: seq<Text>, bodies: seq<Text>)
    ensures UncommentAll(block) == Some(bodies) <==> AllComments(block, bodies)
    decreases |block|
  {
    if block != [] && bodies != [] {
      UncommentExactly(block[1..], bodies[1..]);
      assert bodies == [bodies[0]] + bodies[1..];
      assert Comment(block[0]) && Uncommented(block[0]) == bodies[0] <==> Comments(block[0], bodies[0]);
      assert forall i :: 1 <= i < |block| ==> block[i] == block[1..][i - 1];
      assert forall i :: 1 <= i < |bodies| ==> bodies[i] == bodies[1..][i - 1];
    }
  }

  /** What stands between the first head and the next foot, if both are there. */
  function BlockOf(lines: seq<Text>, head: Text, foot: Text): Option<seq<Text>> {
    var start := Find(lines, head);
    if start == |lines| then None
    else
      var rest := lines[start + 1..];
      if Find(rest, foot) == |rest| then None else Some(rest[..Find(rest, foot)])
  }

  lemma {:induction false} BlockIsFound(lines: seq<Text>, head: Text, foot: Text, block: seq<Text>)
    requires Between(lines, head, foot, block)
    ensures BlockOf(lines, head, foot) == Some(block)
  {
    var before, behind :|
      lines == before + [head] + (block + [foot] + behind) && head !in before && foot !in block;
    var rest := block + [foot] + behind;
    IndexAfter(before, head, rest);
    IndexAfter(block, foot, behind);
    assert lines[|before| + 1..] == rest && rest[..|block|] == block;
  }

  lemma {:induction false} BetweenIs(
      before: seq<Text>, head: Text, block: seq<Text>, foot: Text, behind: seq<Text>)
    requires head !in before && foot !in block
    ensures Between(before + [head] + (block + [foot] + behind), head, foot, block)
  {
  }

  lemma {:induction false} FoundIsBlock(lines: seq<Text>, head: Text, foot: Text)
    requires BlockOf(lines, head, foot).Some?
    ensures Between(lines, head, foot, BlockOf(lines, head, foot).value)
  {
    var start := Find(lines, head);
    var rest := lines[start + 1..];
    var end := Find(rest, foot);
    FoundIsThere(lines, head);
    FoundIsThere(rest, foot);
    BetweenIs(lines[..start], head, rest[..end], foot, rest[end + 1..]);
  }

  lemma {:induction false} ExtractOf(content: Text)
    ensures Extract(content) ==
            match BlockOf(SplitLines(content), HEADER, FOOTER)
            case None => []
            case Some(block) =>
              match UncommentAll(block) case None => [] case Some(bodies) => ScanDependencies(Join(bodies))
  {
  }

  lemma {:induction false} UncommentIsOne(block: seq<Text>)
    ensures forall bodies :: AllComments(block, bodies) <==> UncommentAll(block) == Some(bodies)
  {
    forall bodies ensures UncommentAll(block) == Some(bodies) <==> AllComments(block, bodies) {
      UncommentExactly(block, bodies);
    }
  }

  /** A script's requirements are those of its block's array, the comment signs taken off; a line in
      the block that is no comment leaves none, and so does a script without a block. */
  lemma {:induction false} ExtractExactly(content: Text, block: seq<Text>)
    ensures HasBlock(SplitLines(content), block) ==>
              && (forall bodies :: AllComments(block, bodies) ==> Extract(content) == ScanDependencies(Join(bodies)))
              && ((forall bodies :: !AllComments(block, bodies)) ==> Extract(content) == [])
    ensures (forall b :: !HasBlock(SplitLines(content), b)) ==> Extract(content) == []
  {
    var lines := SplitLines(content);
    ExtractOf(content);
    UncommentIsOne(block);
    if HasBlock(lines, block) {
      BlockIsFound(lines, HEADER, FOOTER, block);
    }
    if BlockOf(lines, HEADER, FOOTER).Some? {
      FoundIsBlock(lines, HEADER, FOOTER);
      assert HasBlock(lines, BlockOf(lines, HEADER, FOOTER).value);
    }
  }
}
