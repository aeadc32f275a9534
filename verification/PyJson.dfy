/** json.dumps and json.loads on strings, as migration-kit/scripts/frontmatter.py uses them
    (JSON strings are section 7 of RFC 8259). */
module PyJson {
  import opened Wrappers
  import opened Surrogates
  import opened JsonText

  /** A lower-case hexadecimal digit. */
  function HexDigit(n: nat): CodePoint
    requires n < 16
  {
    if n < 10 then 0x30 + n else 0x61 + n - 10
  }

  function HexValue(c: CodePoint): nat
    requires Hex(c)
  {
    if Digit(c) then c - 0x30 else if c >= 0x61 then c - 0x61 + 10 else c - 0x41 + 10
  }

  function Escape4(n: nat): Text
    requires n < 0x1_0000
  {
    [BACKSLASH, LOWER_U, HexDigit(n / 0x1000), HexDigit(n / 0x100 % 16), HexDigit(n / 16 % 16), HexDigit(n % 16)]
  }

  /** One character under ensure_ascii. */
  function EscapeChar(c: CodePoint): Text {
    if c == QUOTE then [BACKSLASH, QUOTE]
    else if c == BACKSLASH then [BACKSLASH, BACKSLASH]
    else if c == 0x0A then [BACKSLASH, 0x6E]
    else if c == 0x0D then [BACKSLASH, 0x72]
    else if c == 0x09 then [BACKSLASH, 0x74]
    else if c == 0x0C then [BACKSLASH, 0x66]
    else if c == 0x08 then [BACKSLASH, 0x62]
    else if 0x20 <= c <= 0x7E then [c]
    else if c < 0x1_0000 then Escape4(c)
    else Escape4(0xD800 + (c - 0x1_0000) / 0x400) + Escape4(0xDC00 + (c - 0x1_0000) % 0x400)
  }

  function EscapeAll(s: Text): Text
    decreases |s|
  {
    if s == [] then [] else EscapeChar(s[0]) + EscapeAll(s[1..])
  }

  function Dumps(s: Text): Text {
    [QUOTE] + EscapeAll(s) + [QUOTE]
  }

  predicate UnicodeAt(s: Text, i: nat) {
    i + 6 <= |s| && s[i] == BACKSLASH && s[i + 1] == LOWER_U
    && Hex(s[i + 2]) && Hex(s[i + 3]) && Hex(s[i + 4]) && Hex(s[i + 5])
  }

  function UnicodeValue(s: Text, i: nat): (n: nat)
    requires UnicodeAt(s, i)
    ensures n < 0x1_0000
  {
    HexValue(s[i + 2]) * 0x1000 + HexValue(s[i + 3]) * 0x100 + HexValue(s[i + 4]) * 16 + HexValue(s[i + 5])
  }

  function ShortEscape(c: CodePoint): CodePoint
    requires Escapable(c)
  {
    if c == 0x6E then 0x0A else if c == 0x72 then 0x0D else if c == 0x74 then 0x09
    else if c == 0x66 then 0x0C else if c == 0x62 then 0x08 else c
  }

  function Prepend(c: CodePoint, rest: Option<Text>): Option<Text> {
    match rest
    case None => None
    case Some(s) => Some([c] + s)
  }

  /** What follows the opening quote: the decoded string, if the text ends with it. */
  function Unescape(s: Text): Option<Text>
    decreases |s|
  {
    if s == [] then None
    else if s[0] == QUOTE then
      if forall i :: 1 <= i < |s| ==> Blank(s[i]) then Some([]) else None
    else if s[0] < 0x20 then None
    else if s[0] != BACKSLASH then Prepend(s[0], Unescape(s[1..]))
    else if |s| < 2 then None
    else if s[1] == LOWER_U then
      if !UnicodeAt(s, 0) then None
      else if High(UnicodeValue(s, 0)) && UnicodeAt(s, 6) && Low(UnicodeValue(s, 6)) then
        Prepend(PairPoint(UnicodeValue(s, 0), UnicodeValue(s, 6)), Unescape(s[12..]))
      else
        Prepend(UnicodeValue(s, 0), Unescape(s[6..]))
    else if Escapable(s[1]) then Prepend(ShortEscape(s[1]), Unescape(s[2..]))
    else None
  }

  /** json.loads of a text that opens with a quote: a string, or nothing. */
  function Loads(token: Text): Option<Text>
    requires token != [] && token[0] == QUOTE
  {
    Unescape(token[1..])
  }

  lemma {:induction false} DigitsOf(n: nat)
    requires n < 0x1_0000
    ensures n / 0x1000 < 16
    ensures n / 0x1000 * 0x1000 + n / 0x100 % 16 * 0x100 + n / 16 % 16 * 16 + n % 16 == n
  {
    var a, b := n / 16, n / 0x100;
    assert n == 16 * a + n % 16;
    assert a == 16 * (a / 16) + a % 16;
    assert a / 16 == b;
    assert b == 16 * (b / 16) + b % 16;
    assert b / 16 == n / 0x1000;
  }

  lemma {:induction false} Escape4Reads(n: nat, rest: Text)
    requires n < 0x1_0000
    ensures UnicodeAt(Escape4(n) + rest, 0) && UnicodeValue(Escape4(n) + rest, 0) == n
    ensures (Escape4(n) + rest)[6..] == rest
  {
    DigitsOf(n);
  }

  /** Whether the text that follows is an escaped low surrogate. */
  predicate LowNext(s: Text) {
    UnicodeAt(s, 0) && Low(UnicodeValue(s, 0))
  }

  lemma {:induction false} LoneEscape(n: nat, rest: Text)
    requires n < 0x1_0000
    ensures !(High(n) && LowNext(rest)) ==> Unescape(Escape4(n) + rest) == Prepend(n, Unescape(rest))
    ensures High(n) && LowNext(rest) ==>
              Unescape(Escape4(n) + rest) == Prepend(PairPoint(n, UnicodeValue(rest, 0)), Unescape(rest[6..]))
  {
    var s := Escape4(n) + rest;
    Escape4Reads(n, rest);
    assert UnicodeAt(s, 6) <==> UnicodeAt(rest, 0);
    assert UnicodeAt(s, 6) ==> UnicodeValue(s, 6) == UnicodeValue(rest, 0);
    assert |rest| >= 6 ==> s[12..] == rest[6..];
  }

  lemma {:induction false} AstralHalves(c: CodePoint)
    requires c >= 0x1_0000
    ensures var h, l := 0xD800 + (c - 0x1_0000) / 0x400, 0xDC00 + (c - 0x1_0000) % 0x400;
            High(h) && Low(l) && PairPoint(h, l) == c
  {
  }

  lemma {:induction false} AstralReads(c: CodePoint, rest: Text)
    requires c >= 0x1_0000
    ensures Unescape(EscapeChar(c) + rest) == Prepend(c, Unescape(rest))
  {
    AstralHalves(c);
    var h, l := 0xD800 + (c - 0x1_0000) / 0x400, 0xDC00 + (c - 0x1_0000) % 0x400;
    var tail := Escape4(l) + rest;
    Escape4Reads(l, rest);
    LoneEscape(h, tail);
    assert EscapeChar(c) + rest == Escape4(h) + tail;
    assert tail[6..] == rest;
  }

  lemma {:induction false} ShortReads(c: CodePoint, rest: Text)
    requires |EscapeChar(c)| <= 2
    ensures Unescape(EscapeChar(c) + rest) == Prepend(c, Unescape(rest))
  {
    var e := EscapeChar(c);
    assert (e + rest)[|e|..] == rest;
  }

  /** One character other than a high surrogate reads back by itself. */
  lemma {:induction false} CharReads(c: CodePoint, rest: Text)
    requires !High(c)
    ensures Unescape(EscapeChar(c) + rest) == Prepend(c, Unescape(rest))
  {
    if c >= 0x1_0000 {
      AstralReads(c, rest);
    } else if EscapeChar(c) == Escape4(c) {
      LoneEscape(c, rest);
    } else {
      ShortReads(c, rest);
    }
  }

  lemma {:induction false} LowNextAfterAstral(c: CodePoint, tail: Text)
    requires c >= 0x1_0000
    ensures !LowNext(EscapeChar(c) + tail)
  {
    AstralHalves(c);
    var h, l := 0xD800 + (c - 0x1_0000) / 0x400, 0xDC00 + (c - 0x1_0000) % 0x400;
    Escape4Reads(h, Escape4(l) + tail);
    assert EscapeChar(c) + tail == Escape4(h) + (Escape4(l) + tail);
  }

  lemma {:induction false} LowNextAfterShort(c: CodePoint, tail: Text)
    requires |EscapeChar(c)| <= 2
    ensures !LowNext(EscapeChar(c) + tail)
  {
    assert (EscapeChar(c) + tail)[0] == EscapeChar(c)[0];
    assert |EscapeChar(c)| == 2 ==> (EscapeChar(c) + tail)[1] == EscapeChar(c)[1];
  }

  lemma {:induction false} LowNextAfter(c: CodePoint, tail: Text)
    ensures LowNext(EscapeChar(c) + tail) <==> Low(c)
    ensures Low(c) ==> UnicodeValue(EscapeChar(c) + tail, 0) == c && (EscapeChar(c) + tail)[6..] == tail
  {
    if c >= 0x1_0000 {
      LowNextAfterAstral(c, tail);
    } else if EscapeChar(c) == Escape4(c) {
      Escape4Reads(c, tail);
    } else {
      LowNextAfterShort(c, tail);
    }
  }

  /** After the characters of s and a closing quote, an escaped low surrogate comes first exactly
      when s starts with one. */
  lemma {:induction false} LowNextExactly(s: Text)
    ensures LowNext(EscapeAll(s) + [QUOTE]) <==> s != [] && Low(s[0])
    ensures s != [] && Low(s[0]) ==> UnicodeValue(EscapeAll(s) + [QUOTE], 0) == s[0]
    ensures s != [] && Low(s[0]) ==> (EscapeAll(s) + [QUOTE])[6..] == EscapeAll(s[1..]) + [QUOTE]
  {
    if s != [] {
      var tail := EscapeAll(s[1..]) + [QUOTE];
      assert EscapeAll(s) + [QUOTE] == EscapeChar(s[0]) + tail;
      LowNextAfter(s[0], tail);
    }
  }

  lemma {:induction false} UnescapeEscaped(s: Text)
    ensures Unescape(EscapeAll(s) + [QUOTE]) == Some(Joined(s))
    decreases |s|
  {
    if s == [] {
      assert EscapeAll(s) + [QUOTE] == [QUOTE];
    } else {
      var c, tail := s[0], EscapeAll(s[1..]) + [QUOTE];
      assert EscapeAll(s) + [QUOTE] == EscapeChar(c) + tail;
      UnescapeEscaped(s[1..]);
      if !High(c) {
        CharReads(c, tail);
        assert Joined(s) == [c] + Joined(s[1..]);
      } else {
        assert EscapeChar(c) == Escape4(c);
        LoneEscape(c, tail);
        LowNextExactly(s[1..]);
        if StartsPair(s) {
          UnescapeEscaped(s[2..]);
          assert s[1..][1..] == s[2..];
        }
      }
    }
  }

  /** What a dumped string loads as. It is the string itself exactly when no high surrogate in it
      stands right before a low one. */
  lemma {:induction false} LoadsDumps(s: Text)
    ensures Loads(Dumps(s)) == Some(Joined(s))
    ensures Loads(Dumps(s)) == Some(s) <==> !HasPair(s)
  {
    assert Dumps(s)[1..] == EscapeAll(s) + [QUOTE];
    UnescapeEscaped(s);
    JoinedIsSame(s);
  }

  /** A dumped string is printable ASCII, so it stays on one line. */
  lemma {:induction false} DumpsIsPlain(s: Text)
    ensures forall i :: 0 <= i < |EscapeAll(s)| ==> 0x20 <= EscapeAll(s)[i] <= 0x7E
    decreases |s|
  {
    if s != [] {
      DumpsIsPlain(s[1..]);
    }
  }

}
