/** What the supported forms of a frontmatter value read as: each is the inverse of writing it
    (migration-kit/scripts/frontmatter.py:110-182). */
module FrontmatterValues {
  import opened Wrappers
  import opened Surrogates
  import opened PyText
  import opened PyJson
  import opened Frontmatter
  import opened FrontmatterLaws

  // ----- 'single-quoted' -----

  function Doubled(s: Text): Text
    decreases |s|
  {
    if s == [] then []
    else (if s[0] == APOSTROPHE then [APOSTROPHE, APOSTROPHE] else [s[0]]) + Doubled(s[1..])
  }

  lemma {:induction false} Assoc(a: Text, b: Text, c: Text)
    ensures (a + b) + c == a + (b + c)
  {
  }

  lemma {:induction false} DoubledFirst(s: Text, end: Text)
    requires s != []
    ensures s[0] != APOSTROPHE ==> Doubled(s) + end == [s[0]] + (Doubled(s[1..]) + end)
    ensures s[0] == APOSTROPHE ==> Doubled(s) + end == [APOSTROPHE, APOSTROPHE] + (Doubled(s[1..]) + end)
  {
    Assoc(if s[0] == APOSTROPHE then [APOSTROPHE, APOSTROPHE] else [s[0]], Doubled(s[1..]), end);
  }

  lemma {:induction false} ClosedFrom(token: Text, i: nat, s: Text)
    requires i <= |token|
    ensures SingleQuotedFrom(token, i) == Some(s) <==> token[i..] == Doubled(s) + [APOSTROPHE]
    decreases |token| - i
  {
    var rest, end := token[i..], [APOSTROPHE];
    if s != [] {
      DoubledFirst(s, end);
      assert s == [s[0]] + s[1..];
    }
    if i < |token| {
      assert rest[1..] == token[i + 1..] && rest[0] == token[i];
      if token[i] != APOSTROPHE {
        if s != [] {
          ClosedFrom(token, i + 1, s[1..]);
        }
      } else if i + 1 < |token| && token[i + 1] == APOSTROPHE {
        assert rest[2..] == token[i + 2..] && rest[1] == APOSTROPHE;
        if s != [] {
          ClosedFrom(token, i + 2, s[1..]);
        }
      }
    }
  }

  /** A single-quoted token reads as s exactly when it is s with its quotes doubled, between quotes. */
  lemma {:induction false} SingleQuotedExactlyWhen(token: Text, s: Text)
    requires token != [] && token[0] == APOSTROPHE
    ensures ScalarOf(token) == Some(s) <==> token == [APOSTROPHE] + Doubled(s) + [APOSTROPHE]
  {
    ClosedFrom(token, 1, s);
    assert token == [APOSTROPHE] + token[1..];
  }

  // ----- Block lists -----

  function Listed(items: seq<Text>): seq<Text> {
    seq(|items|, i requires 0 <= i < |items| => [DASH, SPACE] + Dumps(items[i]))
  }

  function JoinedAll(items: seq<Text>): seq<Text> {
    seq(|items|, i requires 0 <= i < |items| => Joined(items[i]))
  }

  lemma {:induction false} ListedLine(item: Text)
    ensures ItemLine([DASH, SPACE] + Dumps(item)) && ItemText([DASH, SPACE] + Dumps(item)) == Dumps(item)
  {
    var line, text := [DASH, SPACE] + Dumps(item), Dumps(item);
    assert line == [DASH] + ([SPACE] + text) && line[1..] == [SPACE] + text;
    StripKeepsTight(SPACE, line);
    StripKeepsTight(SPACE, text);
  }

  function DumpsAll(items: seq<Text>): seq<Text> {
    seq(|items|, i requires 0 <= i < |items| => Dumps(items[i]))
  }

  lemma {:induction false} ListedTexts(items: seq<Text>)
    ensures ItemTexts(Listed(items)) == DumpsAll(items)
    decreases |items|
  {
    if items != [] {
      ListedLine(items[0]);
      assert Listed(items)[1..] == Listed(items[1..]);
      ListedTexts(items[1..]);
    }
  }

  lemma {:induction false} ScalarsBack(items: seq<Text>)
    ensures Scalars(DumpsAll(items)) == Some(JoinedAll(items))
    decreases |items|
  {
    if items == [] {
      assert DumpsAll(items) == JoinedAll(items) == [];
    } else {
      LoadsDumps(items[0]);
      assert DumpsAll(items)[1..] == DumpsAll(items[1..]);
      ScalarsBack(items[1..]);
      assert ScalarOf(Dumps(items[0])) == Some(Joined(items[0]));
      assert JoinedAll(items) == [Joined(items[0])] + JoinedAll(items[1..]);
    }
  }

  /** A key over "- " lines is assigned the list, up to the first line that is no item. */
  lemma {:induction false} BlockListReads(key: Text, items: seq<Text>, rest: seq<Text>, line: Text, lines: seq<Text>)
    requires key != [] && items != [] && Bounds(rest)
    requires forall i :: 0 <= i < |key| ==> KeyChar(key[i])
    requires line == key + [COLON] && lines == [line] + (Listed(items) + rest)
    ensures StepAt(lines) == Step(Assign(key, Many(JoinedAll(items)), line), 1 + |items|)
  {
    BareKey(key);
    assert lines[0] == line && lines[1..] == Listed(items) + rest;
    ItemsStop(Listed(items), rest);
    ListedTexts(items);
    ScalarsBack(items);
    ListStep(lines, line, DumpsAll(items), JoinedAll(items));
  }

  lemma {:induction false} ListStep(lines: seq<Text>, line: Text, items: seq<Text>, texts: seq<Text>)
    requires lines != [] && lines[0] == line && KeyLine(line) && RestOf(line) == [] && Strip(line) != [] && !Space(line[0])
    requires items != [] && ItemTexts(lines[1..]) == items && Scalars(items) == Some(texts)
    ensures StepAt(lines) == Step(Assign(KeyOf(line), Many(texts), line), 1 + |items|)
  {
  }

  lemma {:induction false} BareKey(key: Text)
    requires key != [] && forall i :: 0 <= i < |key| ==> KeyChar(key[i])
    ensures var line := key + [COLON];
            KeyLine(line) && KeyOf(line) == key && RestOf(line) == [] && Strip(line) != [] && !Space(line[0])
  {
    var line, none: Text := key + [COLON], [];
    KeyRunOf(key, none);
    assert line + none == line;
    assert line[|key| + 1..] == none;
    assert Strip(none) == none;
    FirstStays(line);
  }

  // ----- Flow lists -----

  /** Text that a flow list may hold: what separates or nests stays out. */
  ghost predicate Flat(text: Text) {
    forall c :: c in text ==>
      c != COMMA && c != OPEN_BRACKET && c != CLOSE_BRACKET && c != OPEN_BRACE && c != CLOSE_BRACE
  }

  function Separated(items: seq<Text>): Text
    decreases |items|
  {
    if items == [] then []
    else if |items| == 1 then Dumps(items[0])
    else Dumps(items[0]) + [COMMA] + ([SPACE] + Separated(items[1..]))
  }

  lemma {:induction false} SplitFirst(part: Text, rest: Text)
    requires COMMA !in part
    ensures Split(part + [COMMA] + rest, COMMA) == [part] + Split(rest, COMMA)
    ensures Split(part, COMMA) == [part]
    decreases |part|
  {
    if part == [] {
      assert (part + [COMMA] + rest)[1..] == rest;
    } else {
      SplitFirst(part[1..], rest);
      assert (part + [COMMA] + rest)[1..] == part[1..] + [COMMA] + rest;
      assert [part[0]] + part[1..] == part;
    }
  }

  lemma {:induction false} DumpsIsTight(item: Text)
    ensures Strip(Dumps(item)) == Dumps(item) && Strip([SPACE] + Dumps(item)) == Dumps(item)
  {
    StripKeepsTight(SPACE, Dumps(item));
  }

  lemma {:induction false} SeparatedNext(items: seq<Text>, lead: Text)
    requires |items| > 1
    ensures lead + Separated(items) == (lead + Dumps(items[0])) + [COMMA] + ([SPACE] + Separated(items[1..]))
  {
    var a, b := Dumps(items[0]), [SPACE] + Separated(items[1..]);
    Assoc(a, [COMMA], b);
    Assoc(lead, a, [COMMA] + b);
    Assoc(lead + a, [COMMA], b);
  }

  lemma {:induction false} FirstPart(item: Text, lead: Text, rest: Text)
    requires Flat(Dumps(item)) && (lead == [] || lead == [SPACE])
    ensures Stripped(Split((lead + Dumps(item)) + [COMMA] + rest, COMMA)) == [Dumps(item)] + Stripped(Split(rest, COMMA))
    ensures Stripped(Split(lead + Dumps(item), COMMA)) == [Dumps(item)]
  {
    var first := lead + Dumps(item);
    assert lead == [] ==> first == Dumps(item);
    DumpsIsTight(item);
    SplitFirst(first, rest);
    assert Stripped([first] + Split(rest, COMMA)) == [Strip(first)] + Stripped(Split(rest, COMMA));
  }

  lemma {:induction false} SeparatedParts(items: seq<Text>, lead: Text)
    requires items != [] && (lead == [] || lead == [SPACE])
    requires forall i :: 0 <= i < |items| ==> Flat(Dumps(items[i]))
    ensures Stripped(Split(lead + Separated(items), COMMA)) == DumpsAll(items)
    decreases |items|
  {
    assert Flat(Dumps(items[0]));
    if |items| == 1 {
      FirstPart(items[0], lead, []);
    } else {
      var tail := items[1..];
      SeparatedNext(items, lead);
      FirstPart(items[0], lead, [SPACE] + Separated(tail));
      SeparatedParts(tail, [SPACE]);
      assert DumpsAll(items) == [Dumps(items[0])] + DumpsAll(tail);
    }
  }

  lemma {:induction false} SeparatedIsFlat(items: seq<Text>)
    requires forall i :: 0 <= i < |items| ==> Flat(Dumps(items[i]))
    ensures !Nested(Separated(items))
    decreases |items|
  {
    if items != [] {
      assert Flat(Dumps(items[0]));
      if |items| > 1 {
        SeparatedIsFlat(items[1..]);
      }
    }
  }

  /** A bracketed, comma-separated list of quoted texts reads as those texts, none of them holding a
      comma, a bracket or a brace. */
  lemma {:induction false} FlowListReads(items: seq<Text>)
    requires forall i :: 0 <= i < |items| ==> Flat(Dumps(items[i]))
    ensures ValueOf([OPEN_BRACKET] + Separated(items) + [CLOSE_BRACKET]) == Some(Many(JoinedAll(items)))
  {
    SeparatedIsFlat(items);
    SeparatedTokens(items);
    ScalarsBack(items);
    BracketedReads(Separated(items), DumpsAll(items), JoinedAll(items));
  }

  lemma {:induction false} SeparatedTokens(items: seq<Text>)
    requires forall i :: 0 <= i < |items| ==> Flat(Dumps(items[i]))
    ensures items == [] ==> Strip(Separated(items)) == []
    ensures items != [] ==> Strip(Separated(items)) != [] && DumpsAll(items) == Stripped(Split(Separated(items), COMMA))
    ensures forall i :: 0 <= i < |items| ==> DumpsAll(items)[i] != [] && DumpsAll(items)[i][0] == QUOTE
  {
    if items != [] {
      assert Separated(items)[0] == QUOTE;
      FirstStays(Separated(items));
      SeparatedParts(items, []);
      assert [] + Separated(items) == Separated(items);
    }
  }

  lemma {:induction false} BracketedReads(inner: Text, tokens: seq<Text>, texts: seq<Text>)
    requires !Nested(inner) && (Strip(inner) == [] ==> texts == [])
    requires Strip(inner) != [] ==> tokens == Stripped(Split(inner, COMMA)) && Scalars(tokens) == Some(texts)
    requires forall i :: 0 <= i < |tokens| ==> tokens[i] != [] && tokens[i][0] == QUOTE
    ensures ValueOf([OPEN_BRACKET] + inner + [CLOSE_BRACKET]) == Some(Many(texts))
  {
    var rest := [OPEN_BRACKET] + inner + [CLOSE_BRACKET];
    assert rest[1..|rest| - 1] == inner;
  }

  /** A comma inside quotes separates all the same, so such a list is surfaced, not read. */
  lemma {:induction false} QuotedCommaIsSurfaced(a: Text, b: Text)
    requires Flat(a) && Flat(b) && QUOTE !in a
    ensures ValueOf([OPEN_BRACKET, QUOTE] + a + [COMMA] + b + [QUOTE, CLOSE_BRACKET]) == None
  {
    var inner := [QUOTE] + a + [COMMA] + b + [QUOTE];
    var rest := [OPEN_BRACKET, QUOTE] + a + [COMMA] + b + [QUOTE, CLOSE_BRACKET];
    assert rest[1..|rest| - 1] == inner;
    assert inner == ([QUOTE] + a) + [COMMA] + (b + [QUOTE]);
    SplitFirst([QUOTE] + a, b + [QUOTE]);
    OpenQuoteIsNone(a);
    var tokens := Stripped(Split(inner, COMMA));
    assert tokens[0] == Strip([QUOTE] + a);
    FirstStays([QUOTE] + a);
    StripOpenQuote(a);
  }

  lemma {:induction false} StripOpenQuote(a: Text)
    requires QUOTE !in a
    ensures ScalarOf(Strip([QUOTE] + a)) == None
  {
    var s := [QUOTE] + a;
    StripEndIsPrefix(s);
    FirstStays(s);
    var t := Strip(s)[1..];
    assert forall c :: c in t ==> c in a by {
      forall i | 0 <= i < |t| ensures t[i] in a {
        assert t[i] == Strip(s)[i + 1] == s[i + 1] == a[i];
      }
    }
    OpenQuoteIsNone(t);
    assert Strip(s) == [QUOTE] + t;
  }

  lemma {:induction false} StripEndIsPrefix(s: Text)
    ensures StripEnd(s) <= s
    decreases |s|
  {
    if s != [] && Space(s[|s| - 1]) {
      StripEndIsPrefix(s[..|s| - 1]);
    }
  }

  /** A JSON string that is never closed is none. */
  lemma {:induction false} OpenQuoteIsNone(s: Text)
    requires QUOTE !in s
    ensures Unescape(s) == None
    ensures Loads([QUOTE] + s) == None
    decreases |s|
  {
    assert ([QUOTE] + s)[1..] == s;
    if s != [] {
      assert forall k: nat, c :: k <= |s| && c in s[k..] ==> c in s;
      OpenQuoteIsNone(s[1..]);
      if |s| >= 2 {
        OpenQuoteIsNone(s[2..]);
      }
      if |s| >= 6 {
        OpenQuoteIsNone(s[6..]);
      }
      if |s| >= 12 {
        OpenQuoteIsNone(s[12..]);
      }
    }
  }
}
