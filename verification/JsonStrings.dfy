/** What json.loads makes of a text that opens with a quote, by the grammar of section 7 of RFC 8259. */
module JsonStrings {
  import opened Wrappers
  import opened Surrogates
  import opened JsonText
  import opened PyJson

  function HexOf(c: CodePoint): nat
    requires Hex(c)
  {
    if c <= 0x39 then c - 0x30 else if c >= 0x61 then c - 0x57 else c - 0x37
  }

  /** The character that one element of a JSON string stands for. */
  function Meaning(ch: Char): CodePoint
    requires CharOk(ch)
  {
    match ch
    case Plain(c) => c
    case Escape(c) =>
      if c == 'b' as int then 0x08 else if c == 't' as int then 0x09 else if c == 'n' as int then 0x0A
      else if c == 'f' as int then 0x0C else if c == 'r' as int then 0x0D else c
    case Unicode(a, b, c, d) => HexOf(a) * 0x1000 + HexOf(b) * 0x100 + HexOf(c) * 16 + HexOf(d)
  }

  /** Two escapes for the halves of a surrogate pair stand for one character. */
  predicate PairOf(chars: seq<Char>)
    requires StringOk(chars)
  {
    |chars| >= 2 && chars[0].Unicode? && chars[1].Unicode? && High(Meaning(chars[0])) && Low(Meaning(chars[1]))
  }

  function Meanings(chars: seq<Char>): Text
    requires StringOk(chars)
  {
    if chars == [] then []
    else if PairOf(chars) then [PairPoint(Meaning(chars[0]), Meaning(chars[1]))] + Meanings(chars[2..])
    else [Meaning(chars[0])] + Meanings(chars[1..])
  }

  /** The token is a JSON string that stands for s, and white space. */
  ghost predicate JsonString(token: Text, s: Text) {
    exists chars, ws :: StringOk(chars) && SpaceOk(ws) && token == StringText(chars) + ws && s == Meanings(chars)
  }

  function Rest(chars: seq<Char>, ws: Text): Text {
    CharsText(chars) + [QUOTE] + ws
  }

  lemma {:induction false} RestFirst(chars: seq<Char>, ws: Text)
    requires chars != []
    ensures Rest(chars, ws) == CharText(chars[0]) + Rest(chars[1..], ws)
  {
  }

  lemma {:induction false} UnicodeRest(chars: seq<Char>, ws: Text)
    requires StringOk(chars)
    ensures UnicodeAt(Rest(chars, ws), 0) <==> chars != [] && chars[0].Unicode?
    ensures chars != [] && chars[0].Unicode? ==> UnicodeValue(Rest(chars, ws), 0) == Meaning(chars[0])
    ensures chars != [] && chars[0].Unicode? ==> Rest(chars, ws)[6..] == Rest(chars[1..], ws)
  {
    if chars == [] {
      assert Rest(chars, ws)[0] == QUOTE;
    } else {
      RestFirst(chars, ws);
      var text := CharText(chars[0]);
      assert forall k :: 0 <= k < |text| ==> Rest(chars, ws)[k] == text[k];
    }
  }

  lemma {:induction false} UnescapeReads(chars: seq<Char>, ws: Text)
    requires StringOk(chars) && SpaceOk(ws)
    ensures Unescape(Rest(chars, ws)) == Some(Meanings(chars))
    decreases |chars|
  {
    var s := Rest(chars, ws);
    if chars == [] {
      assert s == [QUOTE] + ws;
    } else {
      RestFirst(chars, ws);
      UnescapeReads(chars[1..], ws);
      match chars[0]
      case Plain(c) => assert s[0] == c && s[1..] == Rest(chars[1..], ws);
      case Escape(c) => assert s[0] == BACKSLASH && s[1] == c && s[2..] == Rest(chars[1..], ws);
      case Unicode(_, _, _, _) => EscapeReads(chars, ws);
    }
  }

  lemma {:induction false} EscapeReads(chars: seq<Char>, ws: Text)
    requires StringOk(chars) && SpaceOk(ws) && chars != [] && chars[0].Unicode?
    requires Unescape(Rest(chars[1..], ws)) == Some(Meanings(chars[1..]))
    ensures Unescape(Rest(chars, ws)) == Some(Meanings(chars))
    decreases |chars|, 0
  {
    var s, t := Rest(chars, ws), Rest(chars[1..], ws);
    UnicodeRest(chars, ws);
    UnicodeRest(chars[1..], ws);
    assert s[6..] == t;
    assert UnicodeAt(s, 6) <==> UnicodeAt(t, 0);
    assert UnicodeAt(s, 6) ==> UnicodeValue(s, 6) == UnicodeValue(t, 0);
    assert s[0] == BACKSLASH && s[1] == LOWER_U;
    if PairOf(chars) {
      assert s[12..] == t[6..] && chars[1..][1..] == chars[2..];
      UnescapeReads(chars[2..], ws);
    }
  }

  /** A text that is read is the rest of a JSON string. */
  lemma {:induction false} ReadIsString(s: Text) returns (chars: seq<Char>, ws: Text)
    requires Unescape(s).Some?
    ensures StringOk(chars) && SpaceOk(ws) && s == Rest(chars, ws)
    decreases |s|
  {
    if s[0] == QUOTE {
      chars, ws := [], s[1..];
      assert s == [QUOTE] + ws;
    } else {
      var first :=
        if s[0] != BACKSLASH then Plain(s[0])
        else if s[1] != LOWER_U then Escape(s[1])
        else Unicode(s[2], s[3], s[4], s[5]);
      var n := |CharText(first)|;
      if first.Unicode? {
        TailIsRead(s);
      }
      chars, ws := ReadIsString(s[n..]);
      chars := [first] + chars;
      assert chars[1..] == chars[1..] && s == CharText(first) + s[n..];
      RestFirst(chars, ws);
    }
  }

  lemma {:induction false} TailIsRead(s: Text)
    requires UnicodeAt(s, 0) && Unescape(s).Some?
    ensures Unescape(s[6..]).Some?
  {
    if High(UnicodeValue(s, 0)) && UnicodeAt(s, 6) && Low(UnicodeValue(s, 6)) {
      var t := s[6..];
      assert t[0] == BACKSLASH && t[1] == LOWER_U && UnicodeAt(t, 0) && t[6..] == s[12..];
      assert UnicodeValue(t, 0) == UnicodeValue(s, 6);
    }
  }

  lemma {:induction false} StringRest(chars: seq<Char>, ws: Text)
    ensures StringText(chars) + ws == [QUOTE] + Rest(chars, ws)
  {
  }

  lemma {:induction false} StringIsLoaded(token: Text, s: Text)
    requires JsonString(token, s)
    ensures token != [] && token[0] == QUOTE && Loads(token) == Some(s)
  {
    var chars, ws :| StringOk(chars) && SpaceOk(ws) && token == StringText(chars) + ws && s == Meanings(chars);
    StringRest(chars, ws);
    UnescapeReads(chars, ws);
    assert token[1..] == Rest(chars, ws);
  }

  /** json.loads reads exactly the strings of the grammar, each as what it stands for. */
  lemma {:induction false} LoadsExactlyWhen(token: Text, s: Text)
    requires token != [] && token[0] == QUOTE
    ensures Loads(token) == Some(s) <==> JsonString(token, s)
  {
    if Loads(token) == Some(s) {
      var chars, ws := ReadIsString(token[1..]);
      StringRest(chars, ws);
      assert token == StringText(chars) + ws;
      assert JsonString(token, Meanings(chars));
      StringIsLoaded(token, Meanings(chars));
    }
    if JsonString(token, s) {
      StringIsLoaded(token, s);
    }
  }
}
