/** What every line of a frontmatter block does, in terms of its text alone
    (migration-kit/scripts/frontmatter.py:35-182). */
module FrontmatterGrammar {
  import opened Wrappers
  import opened Surrogates
  import opened PyText
  import opened PyJson
  import opened JsonStrings
  import opened Frontmatter
  import opened FrontmatterLaws
  import opened FrontmatterValues

  // ----- White space -----

  /** What Python counts as white space: tab to carriage return, the four separators and the space, and
      the ones beyond ASCII. */
  predicate White(c: CodePoint): (white: bool)
    ensures white <==> Space(c)
  {
    || c == ' ' as int || c == '\t' as int || c == '\n' as int || c == 0x0B || c == 0x0C || c == '\r' as int
    || 0x1C <= c <= 0x1F || c == 0x85 || c == 0xA0 || c == 0x1680 || 0x2000 <= c <= 0x200A
    || c == 0x2028 || c == 0x2029 || c == 0x202F || c == 0x205F || c == 0x3000
  }

  predicate AllSpace(s: Text) {
    forall i :: 0 <= i < |s| ==> White(s[i])
  }

  predicate Tight(s: Text) {
    s != [] ==> !White(s[0]) && !White(s[|s| - 1])
  }

  /** The part of s that is left without the white space around it. */
  ghost predicate Inside(s: Text, core: Text) {
    Tight(core) && exists lead, tail :: AllSpace(lead) && AllSpace(tail) && s == lead + core + tail
  }

  lemma {:induction false} StripStartIs(lead: Text, s: Text)
    requires AllSpace(lead) && (s != [] ==> !Space(s[0]))
    ensures StripStart(lead + s) == s
    decreases |lead|
  {
    if lead == [] {
      assert lead + s == s;
    } else {
      assert (lead + s)[1..] == lead[1..] + s;
      StripStartIs(lead[1..], s);
    }
  }

  lemma {:induction false} StripEndIs(s: Text, tail: Text)
    requires AllSpace(tail) && (s != [] ==> !Space(s[|s| - 1]))
    ensures StripEnd(s + tail) == s
    decreases |tail|
  {
    if tail == [] {
      assert s + tail == s;
    } else {
      var n := |tail| - 1;
      assert (s + tail)[..|s + tail| - 1] == s + tail[..n];
      StripEndIs(s, tail[..n]);
    }
  }

  lemma {:induction false} StripStartParts(s: Text) returns (lead: Text)
    ensures s == lead + StripStart(s) && AllSpace(lead)
    ensures StripStart(s) != [] ==> !Space(StripStart(s)[0])
    decreases |s|
  {
    lead := [];
    if s != [] && Space(s[0]) {
      lead := StripStartParts(s[1..]);
      lead := [s[0]] + lead;
    }
  }

  lemma {:induction false} StripEndParts(s: Text) returns (tail: Text)
    ensures s == StripEnd(s) + tail && AllSpace(tail)
    ensures StripEnd(s) != [] ==> !Space(StripEnd(s)[|StripEnd(s)| - 1]) && StripEnd(s)[0] == s[0]
    decreases |s|
  {
    tail := [];
    if s != [] && Space(s[|s| - 1]) {
      tail := StripEndParts(s[..|s| - 1]);
      tail := tail + [s[|s| - 1]];
    }
  }

  lemma {:induction false} StripOf(lead: Text, core: Text, tail: Text)
    requires AllSpace(lead) && AllSpace(tail) && Tight(core)
    ensures Strip(lead + core + tail) == core
  {
    if core == [] {
      assert lead + core + tail == (lead + tail) + [];
      StripStartIs(lead + tail, []);
    } else {
      assert lead + core + tail == lead + (core + tail);
      StripStartIs(lead, core + tail);
      StripEndIs(core, tail);
    }
  }

  /** strip leaves what is inside the white space. */
  lemma {:induction false} StripExactlyWhen(s: Text, core: Text)
    ensures Strip(s) == core <==> Inside(s, core)
  {
    var lead := StripStartParts(s);
    var tail := StripEndParts(StripStart(s));
    assert s == lead + Strip(s) + tail && Tight(Strip(s));
    assert Inside(s, Strip(s));
    if Inside(s, core) {
      var a, b :| AllSpace(a) && AllSpace(b) && s == a + core + b;
      StripOf(a, core, b);
    }
  }

  lemma {:induction false} StripNothing(s: Text)
    ensures Strip(s) == [] <==> AllSpace(s)
  {
    StripExactlyWhen(s, []);
    if Inside(s, []) {
      var a, b :| AllSpace(a) && AllSpace(b) && s == a + [] + b;
    }
    if AllSpace(s) {
      var none: Text := [];
      assert AllSpace(none) && s == s + none + none;
      assert Inside(s, none);
    }
  }

  // ----- Scalars -----

  predicate LeadsElsewhere(c: CodePoint) {
    c == '|' as int || c == '>' as int || c == '&' as int || c == '*' as int || c == '!' as int || c == '#' as int
  }

  /** White space and then a number sign. */
  ghost predicate HasComment(token: Text) {
    exists i :: 0 <= i && i + 1 < |token| && White(token[i]) && token[i + 1] == '#' as int
  }

  /** The token is a scalar, and it reads as s: a JSON string, a text between single quotes that are
      doubled inside, or itself. */
  ghost predicate ReadsAs(token: Text, s: Text) {
    token != [] && !LeadsElsewhere(token[0])
    && if token[0] == '"' as int then JsonString(token, s)
       else if token[0] == '\'' as int then token == ['\'' as int] + Doubled(s) + ['\'' as int]
       else s == token && !HasComment(token)
  }

  lemma {:induction false} CommentIsThere(token: Text)
    ensures HasComment(token) <==> exists i :: 0 <= i < |token| && CommentAt(token, i)
  {
    if i :| 0 <= i && i + 1 < |token| && Space(token[i]) && token[i + 1] == '#' as int {
      assert CommentAt(token, i);
    }
    if i :| 0 <= i < |token| && CommentAt(token, i) {
      assert Space(token[i]) && token[i + 1] == '#' as int;
    }
  }

  lemma {:induction false} ScalarExactlyWhen(token: Text, s: Text)
    ensures ScalarOf(token) == Some(s) <==> ReadsAs(token, s)
  {
    if token != [] && !Indicator(token[0]) {
      if token[0] == QUOTE {
        LoadsExactlyWhen(token, s);
      } else if token[0] == APOSTROPHE {
        SingleQuotedExactlyWhen(token, s);
      } else {
        CommentIsThere(token);
      }
    }
  }

  /** Each token reads as the text of its place. */
  ghost predicate AllRead(tokens: seq<Text>, texts: seq<Text>) {
    |tokens| == |texts| && forall i :: 0 <= i < |tokens| ==> ReadsAs(tokens[i], texts[i])
  }

  lemma {:induction false} ScalarsExactlyWhen(tokens: seq<Text>, texts: seq<Text>)
    ensures Scalars(tokens) == Some(texts) <==> AllRead(tokens, texts)
    decreases |tokens|
  {
    if tokens == [] {
    } else if texts == [] {
    } else {
      ScalarExactlyWhen(tokens[0], texts[0]);
      ScalarsExactlyWhen(tokens[1..], texts[1..]);
      assert texts == [texts[0]] + texts[1..];
      assert forall i :: 1 <= i < |tokens| ==> tokens[i] == tokens[1..][i - 1];
      assert forall i :: 1 <= i < |texts| ==> texts[i] == texts[1..][i - 1];
      if AllRead(tokens[1..], texts[1..]) && ReadsAs(tokens[0], texts[0]) && |tokens| == |texts| {
        forall i | 0 <= i < |tokens| ensures ReadsAs(tokens[i], texts[i]) {
          if i > 0 {
            assert ReadsAs(tokens[1..][i - 1], texts[1..][i - 1]);
          }
        }
      }
      if AllRead(tokens, texts) {
        forall i | 0 <= i < |tokens[1..]| ensures ReadsAs(tokens[1..][i], texts[1..][i]) {
          assert ReadsAs(tokens[i + 1], texts[i + 1]);
        }
      }
    }
  }

  // ----- Flow lists -----

  /** The parts with a comma between any two. */
  function Commas(parts: seq<Text>): Text
    decreases |parts|
  {
    if parts == [] then [] else if |parts| == 1 then parts[0] else parts[0] + [',' as int] + Commas(parts[1..])
  }

  ghost predicate NoCommas(parts: seq<Text>) {
    forall i :: 0 <= i < |parts| ==> ',' as int !in parts[i]
  }

  lemma {:induction false} CommasSplit(s: Text)
    ensures Commas(Split(s, COMMA)) == s && NoCommas(Split(s, COMMA))
    decreases |s|
  {
    if s != [] {
      CommasSplit(s[1..]);
      var rest := Split(s[1..], COMMA);
      if s[0] != COMMA {
        assert Split(s, COMMA)[1..] == rest[1..];
      } else {
        assert Split(s, COMMA)[1..] == rest;
      }
    }
  }

  lemma {:induction false} SplitFront(part: Text, rest: Text)
    requires COMMA !in part
    ensures Split(part + [COMMA] + rest, COMMA) == [part] + Split(rest, COMMA)
    ensures Split(part, COMMA) == [part]
    decreases |part|
  {
    var s := part + [COMMA] + rest;
    if part == [] {
      assert s[1..] == rest;
    } else {
      SplitFront(part[1..], rest);
      assert s[1..] == part[1..] + [COMMA] + rest && [part[0]] + part[1..] == part;
    }
  }

  lemma {:induction false} SplitCommas(parts: seq<Text>)
    requires parts != [] && NoCommas(parts)
    ensures Split(Commas(parts), COMMA) == parts
    decreases |parts|
  {
    if |parts| == 1 {
      SplitFront(parts[0], []);
      assert parts == [parts[0]];
    } else {
      SplitFront(parts[0], Commas(parts[1..]));
      SplitCommas(parts[1..]);
      assert parts == [parts[0]] + parts[1..];
    }
  }

  predicate EndsKey(token: Text, i: nat)
    requires i < |token|
  {
    token[i] == ':' as int && (i + 1 == |token| || White(token[i + 1]))
  }

  /** A colon at the end or before white space, in a token without quotes. */
  ghost predicate IsMapping(token: Text) {
    && (token != [] ==> token[0] != '"' as int && token[0] != '\'' as int)
    && exists i :: 0 <= i < |token| && EndsKey(token, i)
  }

  predicate Bracket(c: CodePoint) {
    c == '[' as int || c == ']' as int || c == '{' as int || c == '}' as int
  }

  /** One part of a list. */
  ghost predicate PartReads(part: Text, text: Text) {
    exists token :: Inside(part, token) && !IsMapping(token) && ReadsAs(token, text)
  }

  /** Each part, without the white space around it, is a scalar and no mapping. */
  ghost predicate PartsRead(parts: seq<Text>, texts: seq<Text>) {
    && |parts| == |texts|
    && forall i :: 0 <= i < |parts| ==> PartReads(parts[i], texts[i])
  }

  /** What is between the brackets reads as those texts. */
  ghost predicate InnerReads(inner: Text, parts: seq<Text>, texts: seq<Text>) {
    && (forall c :: c in inner ==> !Bracket(c))
    && inner == Commas(parts) && parts != [] && NoCommas(parts)
    && if AllSpace(inner) then texts == [] else PartsRead(parts, texts)
  }

  /** The value is a bracketed list without brackets in it, and it reads as those texts. */
  ghost predicate ListReads(value: Text, texts: seq<Text>) {
    exists inner, parts :: value == ['[' as int] + inner + [']' as int] && InnerReads(inner, parts, texts)
  }

  lemma {:induction false} MappingIsThere(token: Text)
    ensures FlowMapping(token) <==> IsMapping(token)
  {
    if FlowMapping(token) {
      var i :| 0 <= i < |token| && MappingAt(token, i);
      assert EndsKey(token, i);
    }
    if IsMapping(token) {
      var i :| 0 <= i < |token| && EndsKey(token, i);
      assert MappingAt(token, i);
    }
  }

  lemma {:induction false} PartExactlyWhen(part: Text, text: Text)
    ensures PartReads(part, text) <==> !FlowMapping(Strip(part)) && ReadsAs(Strip(part), text)
  {
    StripExactlyWhen(part, Strip(part));
    MappingIsThere(Strip(part));
    if PartReads(part, text) {
      var token :| Inside(part, token) && !IsMapping(token) && ReadsAs(token, text);
      StripExactlyWhen(part, token);
    }
  }

  lemma {:induction false} PartsExactlyWhen(parts: seq<Text>, texts: seq<Text>)
    ensures PartsRead(parts, texts) <==>
            (forall i :: 0 <= i < |parts| ==> !FlowMapping(Stripped(parts)[i])) && AllRead(Stripped(parts), texts)
  {
    if |parts| == |texts| {
      forall i | 0 <= i < |parts|
        ensures PartReads(parts[i], texts[i]) <==>
                !FlowMapping(Stripped(parts)[i]) && ReadsAs(Stripped(parts)[i], texts[i])
      {
        PartExactlyWhen(parts[i], texts[i]);
      }
    }
  }

  lemma {:induction false} Bracketed(value: Text, inner: Text)
    requires value != [] && value[0] == OPEN_BRACKET
    ensures value == ['[' as int] + inner + [']' as int] <==>
            |value| >= 2 && value[|value| - 1] == CLOSE_BRACKET && inner == value[1..|value| - 1]
  {
  }

  lemma {:induction false} UnnestedIs(inner: Text)
    ensures Nested(inner) <==> !(forall c :: c in inner ==> !Bracket(c))
  {
  }

  lemma {:induction false} InnerExactlyWhen(inner: Text, texts: seq<Text>)
    ensures var parts := Split(inner, COMMA);
            InnerReads(inner, parts, texts) <==>
            !Nested(inner)
            && (if Strip(inner) == [] then texts == []
                else (forall i :: 0 <= i < |parts| ==> !FlowMapping(Stripped(parts)[i]))
                     && Scalars(Stripped(parts)) == Some(texts))
  {
    var parts := Split(inner, COMMA);
    CommasSplit(inner);
    PartsExactlyWhen(parts, texts);
    ScalarsExactlyWhen(Stripped(parts), texts);
    StripNothing(inner);
    UnnestedIs(inner);
  }

  lemma {:induction false} ListExactlyWhen(value: Text, texts: seq<Text>)
    requires value != [] && value[0] == OPEN_BRACKET
    ensures FlowList(value) == Some(texts) <==> ListReads(value, texts)
  {
    if |value| >= 2 && value[|value| - 1] == CLOSE_BRACKET {
      var inner := value[1..|value| - 1];
      Bracketed(value, inner);
      InnerExactlyWhen(inner, texts);
    }
    if ListReads(value, texts) {
      var inner, parts :| value == ['[' as int] + inner + [']' as int] && InnerReads(inner, parts, texts);
      Bracketed(value, inner);
      SplitCommas(parts);
      InnerExactlyWhen(inner, texts);
    }
  }

  // ----- Values -----

  /** What stands behind a key reads as the value. */
  ghost predicate ValueReads(v: Text, value: Value) {
    if v != [] && v[0] == '[' as int then value.Many? && ListReads(v, value.items)
    else value.Scalar? && ReadsAs(v, value.text)
  }

  lemma {:induction false} ValueExactlyWhen(v: Text, value: Value)
    ensures ValueOf(v) == Some(value) <==> ValueReads(v, value)
  {
    if v != [] && v[0] == OPEN_BRACKET {
      if value.Many? {
        ListExactlyWhen(v, value.items);
      }
    } else if value.Scalar? {
      ScalarExactlyWhen(v, value.text);
    }
  }

  // ----- Lines -----

  predicate IsKeyChar(c: CodePoint) {
    'a' as int <= c <= 'z' as int || 'A' as int <= c <= 'Z' as int || '0' as int <= c <= '9' as int
    || c == '_' as int || c == '.' as int || c == '-' as int
  }

  predicate IsKey(key: Text) {
    key != [] && forall i :: 0 <= i < |key| ==> IsKeyChar(key[i])
  }

  /** The key, a colon, and what follows it. */
  ghost predicate Keyed(line: Text, key: Text, after: Text) {
    IsKey(key) && line == key + [':' as int] + after
  }

  lemma {:induction false} KeyedLine(line: Text, key: Text, after: Text)
    requires Keyed(line, key, after)
    ensures KeyLine(line) && KeyOf(line) == key && RestOf(line) == Strip(after)
  {
    assert forall c :: KeyChar(c) <==> IsKeyChar(c);
    KeyRunOf(key, after);
    assert line[|key| + 1..] == after;
  }

  lemma {:induction false} KeyRunIs(line: Text)
    ensures forall i :: 0 <= i < KeyRun(line) ==> IsKeyChar(line[i])
    decreases |line|
  {
    if line != [] && KeyChar(line[0]) {
      KeyRunIs(line[1..]);
      assert forall i :: 1 <= i < |line| ==> line[i] == line[1..][i - 1];
    }
  }

  lemma {:induction false} KeyLineIs(line: Text)
    requires KeyLine(line)
    ensures Keyed(line, KeyOf(line), line[KeyRun(line) + 1..])
  {
    KeyRunIs(line);
    assert line == KeyOf(line) + [COLON] + line[KeyRun(line) + 1..];
  }

  /** A dash alone, or a dash, a space and the item, with white space around. */
  ghost predicate IsItem(line: Text, item: Text) {
    Tight(item) && exists mark :: Inside(line, mark) && mark != [] && mark[0] == '-' as int
                                  && Inside(mark[1..], item) && (|mark| > 1 ==> mark[1] == ' ' as int)
  }

  lemma {:induction false} ItemExactlyWhen(line: Text, item: Text)
    ensures ItemLine(line) && ItemText(line) == item <==> IsItem(line, item)
  {
    var mark := Strip(line);
    StripExactlyWhen(line, mark);
    if mark != [] {
      StripExactlyWhen(mark[1..], item);
    }
    if IsItem(line, item) {
      var m :| Inside(line, m) && m != [] && m[0] == '-' as int && Inside(m[1..], item)
               && (|m| > 1 ==> m[1] == ' ' as int);
      StripExactlyWhen(line, m);
    }
  }

  /** The lines start with those items, and no more. */
  ghost predicate StartsWith(lines: seq<Text>, items: seq<Text>)
    decreases |lines|
  {
    if items == [] then lines == [] || forall item :: !IsItem(lines[0], item)
    else lines != [] && IsItem(lines[0], items[0]) && StartsWith(lines[1..], items[1..])
  }

  lemma {:induction false} ItemsExactlyWhen(lines: seq<Text>, items: seq<Text>)
    ensures ItemTexts(lines) == items <==> StartsWith(lines, items)
    decreases |lines|
  {
    if lines != [] {
      forall item ensures ItemLine(lines[0]) && ItemText(lines[0]) == item <==> IsItem(lines[0], item) {
        ItemExactlyWhen(lines[0], item);
      }
      if items != [] {
        ItemsExactlyWhen(lines[1..], items[1..]);
        assert items == [items[0]] + items[1..];
      } else if ItemLine(lines[0]) {
        assert IsItem(lines[0], ItemText(lines[0]));
      }
    }
  }

  /** Line goes to the lines that the parser could not read. */
  function Surfaced(b: Block, line: Text): Block {
    b.(unparsed := b.unparsed + [line])
  }

  /** A line of white space does nothing. */
  lemma {:induction false} BlankLine(line: Text, rest: seq<Text>, b: Block)
    requires AllSpace(line)
    ensures Parsed([line] + rest, b) == Parsed(rest, b)
  {
    StripNothing(line);
    ParsedStep([line] + rest, Step(Skip, 1), b);
    assert ([line] + rest)[1..] == rest;
  }

  /** An indented line, and one without a key, is surfaced. */
  lemma {:induction false} OddLine(line: Text, rest: seq<Text>, b: Block)
    requires !AllSpace(line) && (White(line[0]) || forall key, after :: !Keyed(line, key, after))
    ensures Parsed([line] + rest, b) == Parsed(rest, Surfaced(b, line))
  {
    StripNothing(line);
    if KeyLine(line) {
      KeyLineIs(line);
    }
    ParsedStep([line] + rest, Step(Unread(line), 1), b);
    assert ([line] + rest)[1..] == rest;
  }

  lemma {:induction false} KeyedIsTop(line: Text, key: Text, after: Text)
    requires Keyed(line, key, after)
    ensures line != [] && !Space(line[0]) && Strip(line) != []
  {
    assert line[0] == key[0];
    FirstStays(line);
  }

  lemma {:induction false} ValueStep(line: Text, key: Text, after: Text, v: Text, rest: seq<Text>)
    requires Keyed(line, key, after) && Inside(after, v) && v != []
    ensures StepAt([line] + rest) == match ValueOf(v) case None => Step(Unread(line), 1)
                                                      case Some(value) => Step(Assign(key, value, line), 1)
  {
    KeyedLine(line, key, after);
    KeyedIsTop(line, key, after);
    StripExactlyWhen(after, v);
  }

  lemma {:induction false} ValueReadsIsOne(v: Text)
    ensures forall value :: ValueReads(v, value) <==> ValueOf(v) == Some(value)
  {
    forall value ensures ValueOf(v) == Some(value) <==> ValueReads(v, value) {
      ValueExactlyWhen(v, value);
    }
  }

  /** A key with a value assigns it, unless the key has one already or the value cannot be read: then
      the line is surfaced. */
  lemma {:induction false} ValueLine(line: Text, key: Text, after: Text, v: Text, rest: seq<Text>, b: Block)
    requires Keyed(line, key, after) && Inside(after, v) && v != []
    ensures forall value :: ValueReads(v, value) && key !in b.fm ==>
              Parsed([line] + rest, b) == Parsed(rest, b.(fm := b.fm[key := value]))
    ensures key in b.fm || (forall value :: !ValueReads(v, value)) ==>
              Parsed([line] + rest, b) == Parsed(rest, Surfaced(b, line))
  {
    var lines := [line] + rest;
    ValueStep(line, key, after, v, rest);
    ValueReadsIsOne(v);
    ParsedStep(lines, StepAt(lines), b);
    assert lines[1..] == rest;
  }

  lemma {:induction false} ListStep(line: Text, key: Text, after: Text, items: seq<Text>, rest: seq<Text>)
    requires Keyed(line, key, after) && AllSpace(after) && StartsWith(rest, items)
    ensures |items| <= |rest|
    ensures StepAt([line] + rest) ==
            if items == [] || Scalars(items).None? then Step(Unread(line), 1)
            else Step(Assign(key, Many(Scalars(items).value), line), 1 + |items|)
  {
    KeyedLine(line, key, after);
    KeyedIsTop(line, key, after);
    StripNothing(after);
    ItemsExactlyWhen(rest, items);
    assert ([line] + rest)[1..] == rest;
  }

  lemma {:induction false} AllReadIsOne(items: seq<Text>)
    ensures forall texts :: AllRead(items, texts) <==> Scalars(items) == Some(texts)
  {
    forall texts ensures Scalars(items) == Some(texts) <==> AllRead(items, texts) {
      ScalarsExactlyWhen(items, texts);
    }
  }

  /** A key alone assigns the list of the items under it, which are then read past; unless the key has
      a value already, and then it is surfaced and they are read past; or unless there are no items or
      one cannot be read, and then it is surfaced and the lines under it are taken as they come. */
  lemma {:induction false} ListLine(line: Text, key: Text, after: Text, items: seq<Text>, rest: seq<Text>, b: Block)
    requires Keyed(line, key, after) && AllSpace(after) && StartsWith(rest, items)
    ensures |items| <= |rest|
    ensures forall texts :: items != [] && AllRead(items, texts) ==>
              Parsed([line] + rest, b)
              == Parsed(rest[|items|..], if key in b.fm then Surfaced(b, line) else b.(fm := b.fm[key := Many(texts)]))
    ensures items == [] || (forall texts :: !AllRead(items, texts)) ==>
              Parsed([line] + rest, b) == Parsed(rest, Surfaced(b, line))
  {
    var lines := [line] + rest;
    ListStep(line, key, after, items, rest);
    AllReadIsOne(items);
    ParsedStep(lines, StepAt(lines), b);
    assert lines[1..] == rest && lines[1 + |items|..] == rest[|items|..];
  }

  /** These are all the lines there are. */
  lemma {:induction false} EveryLine(line: Text, rest: seq<Text>)
    ensures AllSpace(line)
            || White(line[0])
            || (forall key, after :: !Keyed(line, key, after))
            || exists key, after, v :: Keyed(line, key, after) && Inside(after, v)
    ensures exists items :: StartsWith(rest, items)
  {
    ItemsExactlyWhen(rest, ItemTexts(rest));
    if key, after :| Keyed(line, key, after) {
      StripExactlyWhen(after, Strip(after));
    }
  }

  const THREE: Text := ['-' as int, '-' as int, '-' as int]

  /** A document's frontmatter is the block between a first line of three dashes and the next such line,
      and its body the rest, without the line feeds it starts with. */
  lemma {:induction false} BlockIsParsed(text: Text, block: seq<Text>, body: seq<Text>)
    requires Split(Unix(text), NL) == [THREE] + block + [THREE] + body && THREE !in block
    ensures Parse(text) == Doc(Parsed(block, Block(map[], [])).fm, DropNls(Join(body)),
                               Parsed(block, Block(map[], [])).unparsed)
  {
    assert THREE == FENCE;
    ShapeIs(block, body);
  }

  /** Without two such lines there is none, and all of it is the body. */
  lemma {:induction false} NothingIsParsed(text: Text)
    requires var lines := Split(Unix(text), NL); lines[0] != THREE || THREE !in lines[1..]
    ensures Parse(text) == Doc(map[], Unix(text), [])
  {
    assert THREE == FENCE;
  }

  // ----- Renaming -----

  const THE_NAME: Text := ['n' as int, 'a' as int, 'm' as int, 'e' as int]

  /** The k-th line of the block is the first that gives the name, and v is what it gives. */
  ghost predicate GivesName(block: seq<Text>, k: nat, v: Text) {
    && k < |block| && (exists after :: Keyed(block[k], THE_NAME, after) && Inside(after, v))
    && forall j, after :: 0 <= j < k ==> !Keyed(block[j], THE_NAME, after)
  }

  lemma {:induction false} HoldsNameExactlyWhen(line: Text)
    ensures HoldsName(line) <==> exists after :: Keyed(line, THE_NAME, after)
    ensures forall after :: Keyed(line, THE_NAME, after) ==> RestOf(line) == Strip(after)
  {
    assert THE_NAME == NAME;
    if HoldsName(line) {
      KeyLineIs(line);
    }
    forall after | Keyed(line, THE_NAME, after) ensures HoldsName(line) && RestOf(line) == Strip(after) {
      KeyedLine(line, THE_NAME, after);
      KeyedIsTop(line, THE_NAME, after);
    }
  }

  lemma {:induction false} FirstNameGives(block: seq<Text>)
    ensures FirstName(block) < |block| ==> GivesName(block, FirstName(block), RestOf(block[FirstName(block)]))
    ensures forall k: nat, v :: GivesName(block, k, v) ==> k == FirstName(block) && v == RestOf(block[k])
  {
    var first := FirstName(block);
    forall i | 0 <= i < |block| ensures HoldsName(block[i]) <==> exists after :: Keyed(block[i], THE_NAME, after) {
      HoldsNameExactlyWhen(block[i]);
    }
    if first < |block| {
      HoldsNameExactlyWhen(block[first]);
      var after :| Keyed(block[first], THE_NAME, after);
      StripExactlyWhen(after, RestOf(block[first]));
    }
    forall k: nat, v | GivesName(block, k, v) ensures k == first && v == RestOf(block[k]) {
      HoldsNameExactlyWhen(block[k]);
      var after :| Keyed(block[k], THE_NAME, after) && Inside(after, v);
      StripExactlyWhen(after, v);
    }
  }

  predicate ByHand(v: Text) {
    v == [] || LeadsElsewhere(v[0]) || v[0] == '[' as int || v[0] == '{' as int
  }

  /** name: and the new name as a JSON string. */
  function NewLine(name: Text): Text {
    THE_NAME + [':' as int, ' ' as int] + Dumps(name)
  }

  function Written(block: seq<Text>, body: seq<Text>): Text {
    Join([THREE] + block + [THREE] + body)
  }

  lemma {:induction false} EditIsWritten(c: Text, name: Text, block: seq<Text>, body: seq<Text>)
    requires Split(Unix(c), NL) == [THREE] + block + [THREE] + body && THREE !in block && !Named(c, name)
    ensures var k := FirstName(block);
            SetName(c, name) ==
            if k == |block| then Content(Written([NewLine(name)] + block, body))
            else if ByHand(RestOf(block[k])) then Refused
            else Content(Written(block[k := NewLine(name)], body))
  {
    assert THREE == FENCE && NewLine(name) == NameLineFor(name);
    ShapeIs(block, body);
  }

  /** A new name replaces the first line that gives one, is refused where that line's value is empty or
      opens with an indicator or a bracket, and goes in front where no line gives one; all other lines
      stay as they are. */
  lemma {:induction false} RenamedAt(c: Text, name: Text, block: seq<Text>, body: seq<Text>)
    requires Split(Unix(c), NL) == [THREE] + block + [THREE] + body && THREE !in block && !Named(c, name)
    ensures forall k: nat, v :: GivesName(block, k, v) ==>
              SetName(c, name) == if ByHand(v) then Refused else Content(Written(block[k := NewLine(name)], body))
    ensures (forall k: nat, v :: !GivesName(block, k, v)) ==>
              SetName(c, name) == Content(Written([NewLine(name)] + block, body))
  {
    EditIsWritten(c, name, block, body);
    FirstNameGives(block);
  }
}
