/** The loops of migration-kit/scripts/frontmatter.py, against the functions of Frontmatter.dfy. */
module FrontmatterScan {
  import opened Wrappers
  import opened Surrogates
  import opened PyText
  import opened PyJson
  import opened Frontmatter

  function Onto<T>(front: seq<T>, rest: Option<seq<T>>): Option<seq<T>> {
    match rest
    case None => None
    case Some(r) => Some(front + r)
  }

  lemma {:induction false} OntoPrepend(front: Text, c: CodePoint, rest: Option<Text>)
    ensures Onto(front, Prepend(c, rest)) == Onto(front + [c], rest)
  {
    if rest.Some? {
      assert front + ([c] + rest.value) == (front + [c]) + rest.value;
    }
  }

  lemma {:induction false} OntoEnds<T>(out: seq<T>, rest: Option<seq<T>>)
    ensures Onto([], rest) == rest
    ensures Onto(out, Some([])) == Some(out)
  {
    if rest.Some? {
      var none: seq<T> := [];
      assert none + rest.value == rest.value;
    }
    assert out + [] == out;
  }

  method ParseSingleQuoted(token: Text) returns (scalar: Option<Text>)
    requires token != [] && token[0] == APOSTROPHE
    ensures scalar == SingleQuotedFrom(token, 1)
  {
    if |token| < 2 {
      return None;
    }
    var i, out: Text, n := 1, [], |token|;
    OntoEnds(out, SingleQuotedFrom(token, 1));
    while i < n
      invariant 1 <= i <= n
      invariant SingleQuotedFrom(token, 1) == Onto(out, SingleQuotedFrom(token, i))
    {
      var ch := token[i];
      if ch == APOSTROPHE {
        if i + 1 < n && token[i + 1] == APOSTROPHE {
          OntoPrepend(out, APOSTROPHE, SingleQuotedFrom(token, i + 2));
          out := out + [APOSTROPHE];
          i := i + 2;
          continue;
        }
        OntoEnds(out, None);
        return if i == n - 1 then Some(out) else None;
      }
      OntoPrepend(out, ch, SingleQuotedFrom(token, i + 1));
      out := out + [ch];
      i := i + 1;
    }
    return None;
  }

  lemma {:induction false} ScalarsFrom(tokens: seq<Text>, out: seq<Text>, k: nat)
    requires k < |tokens|
    ensures ScalarOf(tokens[k]).None? ==> Scalars(tokens[k..]).None?
    ensures ScalarOf(tokens[k]).Some? ==>
              Onto(out, Scalars(tokens[k..])) == Onto(out + [ScalarOf(tokens[k]).value], Scalars(tokens[k + 1..]))
  {
    assert tokens[k..][1..] == tokens[k + 1..];
    if ScalarOf(tokens[k]).Some? && Scalars(tokens[k + 1..]).Some? {
      var first, rest := ScalarOf(tokens[k]).value, Scalars(tokens[k + 1..]).value;
      assert out + ([first] + rest) == (out + [first]) + rest;
    }
  }

  method ParseFlowList(rest: Text) returns (items: Option<seq<Text>>)
    requires rest != [] && rest[0] == OPEN_BRACKET
    ensures items == FlowList(rest)
  {
    if rest[|rest| - 1] != CLOSE_BRACKET {
      return None;
    }
    var inner := rest[1..|rest| - 1];
    if Nested(inner) {
      return None;
    }
    if Strip(inner) == [] {
      return Some([]);
    }
    var out: seq<Text> := [];
    var parts := Split(inner, COMMA);
    ghost var tokens := Stripped(parts);
    assert tokens[0..] == tokens;
    OntoEnds(out, Scalars(tokens));
    for k := 0 to |parts|
      invariant forall j :: 0 <= j < k ==> !FlowMapping(tokens[j])
      invariant Scalars(tokens) == Onto(out, Scalars(tokens[k..]))
    {
      var token := Strip(parts[k]);
      assert token == tokens[k];
      if FlowMapping(token) {
        return None;
      }
      ScalarsFrom(tokens, out, k);
      var scalar := ScalarOf(token);
      if scalar.None? {
        return None;
      }
      out := out + [scalar.value];
    }
    assert tokens[|parts|..] == [];
    OntoEnds(out, None);
    return Some(out);
  }

  lemma {:induction false} ItemTaken(lines: seq<Text>, i: nat, out: seq<Text>)
    requires i < |lines|
    ensures !ItemLine(lines[i]) ==> ItemTexts(lines[i..]) == []
    ensures ItemLine(lines[i]) ==>
              var text, more := ItemText(lines[i]), ItemTexts(lines[i + 1..]);
              && |ItemTexts(lines[i..])| == 1 + |more|
              && (ScalarOf(text).None? ==> Scalars(ItemTexts(lines[i..])).None?)
              && (ScalarOf(text).Some? ==>
                    Onto(out, Scalars(ItemTexts(lines[i..]))) == Onto(out + [ScalarOf(text).value], Scalars(more)))
  {
    assert lines[i..][1..] == lines[i + 1..];
    if ItemLine(lines[i]) {
      var texts := ItemTexts(lines[i..]);
      assert texts[0..] == texts && texts[1..] == ItemTexts(lines[i + 1..]);
      ScalarsFrom(texts, out, 0);
    }
  }

  /** The loop over the items stands at line i, having read the scalars in out. */
  ghost predicate Taken(lines: seq<Text>, start: nat, i: nat, out: seq<Text>) {
    && start <= i <= |lines| && |out| == i - start
    && |ItemTexts(lines[start..])| == |out| + |ItemTexts(lines[i..])|
    && Scalars(ItemTexts(lines[start..])) == Onto(out, Scalars(ItemTexts(lines[i..])))
  }

  lemma {:induction false} TakenAll(lines: seq<Text>, start: nat, i: nat, out: seq<Text>)
    requires Taken(lines, start, i, out) && (i == |lines| || !ItemLine(lines[i]))
    ensures Scalars(ItemTexts(lines[start..])) == Some(out) && |ItemTexts(lines[start..])| == |out|
  {
    assert ItemTexts(lines[i..]) == [];
    OntoEnds(out, None);
  }

  /** The loop over the items from start on: their scalars and the line after them, or nothing once
      one is no scalar. */
  method TakeItems(lines: seq<Text>, start: nat) returns (items: Option<seq<Text>>, next: nat)
    requires start <= |lines|
    ensures items == Scalars(ItemTexts(lines[start..]))
    ensures items.Some? ==> next == start + |ItemTexts(lines[start..])| && |items.value| == next - start
  {
    var out: seq<Text> := [];
    var i := start;
    OntoEnds(out, Scalars(ItemTexts(lines[start..])));
    while i < |lines|
      invariant Taken(lines, start, i, out)
    {
      if !ItemLine(lines[i]) {
        break;
      }
      ItemTaken(lines, i, out);
      var scalar := ScalarOf(ItemText(lines[i]));
      if scalar.None? {
        return None, i;
      }
      out := out + [scalar.value];
      i := i + 1;
    }
    TakenAll(lines, start, i, out);
    return Some(out), i;
  }

  /** The list items from start on, and the line after them; nothing when there are none or one is
      no scalar. */
  method TakeBlockList(lines: seq<Text>, start: nat) returns (items: Option<seq<Text>>, next: nat)
    requires start <= |lines|
    ensures var texts := ItemTexts(lines[start..]);
            items == (if texts == [] then None else Scalars(texts))
            && (items.Some? ==> next == start + |texts|)
  {
    items, next := TakeItems(lines, start);
    if items == Some([]) {
      return None, start;
    }
  }

  method Assigned(b: Block, key: Text, value: Value, line: Text) returns (r: Block)
    ensures r == After(b, Assign(key, value, line))
  {
    var fm, unparsed := b.fm, b.unparsed;
    if key in fm {
      unparsed := unparsed + [line];
    } else {
      fm := fm[key := value];
    }
    return Block(fm, unparsed);
  }

  method ParseValue(rest: Text) returns (value: Option<Value>)
    requires rest != []
    ensures value == ValueOf(rest)
  {
    if rest[0] == OPEN_BRACKET {
      var items := ParseFlowList(rest);
      return match items case None => None case Some(texts) => Some(Many(texts));
    }
    var scalar: Option<Text>;
    if rest[0] == APOSTROPHE {
      scalar := ParseSingleQuoted(rest);
    } else {
      scalar := ScalarOf(rest);
    }
    return match scalar case None => None case Some(text) => Some(Scalar(text));
  }

  /** What line i does to the block, and the next line to read. */
  method ParseLine(lines: seq<Text>, i: nat, was: Block) returns (b: Block, next: nat)
    requires i < |lines|
    ensures b == After(was, StepAt(lines[i..]).effect) && next == i + StepAt(lines[i..]).used
  {
    var line := lines[i];
    assert lines[i..][0] == line;
    if Strip(line) == [] {
      return was, i + 1;
    }
    if (line != [] && Space(line[0])) || !KeyLine(line) {
      return was.(unparsed := was.unparsed + [line]), i + 1;
    }
    b, next := ParseKeyLine(lines, i, was);
  }

  /** The value of a key line, if it has a supported one, and the next line to read. */
  method KeyValue(lines: seq<Text>, i: nat) returns (value: Option<Value>, next: nat)
    requires i < |lines| && KeyLine(lines[i]) && Strip(lines[i]) != [] && !Space(lines[i][0])
    ensures value.Some? ==> i < next <= |lines|
    ensures StepAt(lines[i..])
         == if value.None? then Step(Unread(lines[i]), 1) else Step(Assign(KeyOf(lines[i]), value.value, lines[i]), next - i)
  {
    if RestOf(lines[i]) == [] {
      var items, consumed := TakeBlockList(lines, i + 1);
      value := if items.None? then None else Some(Many(items.value));
      next := consumed;
    } else {
      value := ParseValue(RestOf(lines[i]));
      next := i + 1;
    }
  }

  method ParseKeyLine(lines: seq<Text>, i: nat, was: Block) returns (b: Block, next: nat)
    requires i < |lines| && KeyLine(lines[i]) && Strip(lines[i]) != [] && !Space(lines[i][0])
    ensures b == After(was, StepAt(lines[i..]).effect) && next == i + StepAt(lines[i..]).used
  {
    var value, after := KeyValue(lines, i);
    if value.None? {
      return was.(unparsed := was.unparsed + [lines[i]]), i + 1;
    }
    b := Assigned(was, KeyOf(lines[i]), value.value, lines[i]);
    next := after;
  }

  lemma {:induction false} TurnIs(lines: seq<Text>, i: nat, was: Block, b: Block, next: nat)
    requires i < |lines| && b == After(was, StepAt(lines[i..]).effect) && next == i + StepAt(lines[i..]).used
    ensures i < next <= |lines| && Parsed(lines[i..], was) == Parsed(lines[next..], b)
  {
    ParsedStep(lines[i..], StepAt(lines[i..]), was);
    assert lines[i..][next - i..] == lines[next..];
  }

  /** One turn of the block's loop. */
  method Turn(lines: seq<Text>, i: nat, was: Block) returns (b: Block, next: nat)
    requires i < |lines|
    ensures i < next <= |lines| && Parsed(lines[i..], was) == Parsed(lines[next..], b)
  {
    b, next := ParseLine(lines, i, was);
    TurnIs(lines, i, was, b, next);
  }

  method ParseBlock(lines: seq<Text>) returns (b: Block)
    ensures b == Parsed(lines, EMPTY)
  {
    b := EMPTY;
    var i := 0;
    assert lines[0..] == lines;
    while i < |lines|
      invariant 0 <= i <= |lines|
      invariant Parsed(lines[i..], b) == Parsed(lines, EMPTY)
    {
      b, i := Turn(lines, i, b);
    }
    assert lines[|lines|..] == [];
  }

  /** The first line after the opening one that closes the block, or the number of lines. */
  method ClosingFence(lines: seq<Text>) returns (close: nat)
    requires lines != []
    ensures close == 1 + FirstFence(lines[1..])
  {
    close := 1;
    while close < |lines| && lines[close] != FENCE
      invariant 1 <= close <= |lines|
      invariant FirstFence(lines[1..]) == close - 1 + FirstFence(lines[close..])
    {
      assert lines[close..][1..] == lines[close + 1..];
      close := close + 1;
    }
  }

  method ParseFrontmatter(text: Text) returns (doc: Doc)
    ensures doc == Parse(text)
  {
    var unix := Unix(text);
    var lines := Split(unix, NL);
    if lines[0] != FENCE {
      return Doc(map[], unix, []);
    }
    var close := ClosingFence(lines);
    if close == |lines| {
      return Doc(map[], unix, []);
    }
    var b := ParseBlock(lines[1..close]);
    return Doc(b.fm, DropNls(Join(lines[close + 1..])), b.unparsed);
  }

  lemma {:induction false} FirstNameAfter(pre: seq<Text>, rest: seq<Text>)
    requires forall i :: 0 <= i < |pre| ==> !HoldsName(pre[i])
    ensures FirstName(pre + rest) == |pre| + FirstName(rest)
    decreases |pre|
  {
    if pre == [] {
      assert pre + rest == rest;
    } else {
      assert (pre + rest)[1..] == pre[1..] + rest;
      FirstNameAfter(pre[1..], rest);
    }
  }

  /** What is written when no line has the name. */
  lemma {:induction false} EditedNowhere(lines: seq<Text>, close: nat, name: Text)
    requires 0 < close < |lines| && lines[0] == FENCE && lines[close] == FENCE
    requires forall j :: 0 < j < close ==> !HoldsName(lines[j])
    ensures Edited(lines[1..close], lines[close + 1..], name) == Content(Join(lines[..1] + [NameLineFor(name)] + lines[1..]))
  {
    var block, body, line := lines[1..close], lines[close + 1..], NameLineFor(name);
    FirstNameAfter(block, []);
    assert block + [] == block;
    assert lines[..1] + [line] + lines[1..] == [FENCE] + ([line] + block) + [FENCE] + body;
  }

  /** What is written when line i is the first with the name. */
  lemma {:induction false} EditedAt(lines: seq<Text>, close: nat, name: Text, i: nat)
    requires 0 < i < close < |lines| && lines[0] == FENCE && lines[close] == FENCE && HoldsName(lines[i])
    requires forall j :: 0 < j < i ==> !HoldsName(lines[j])
    ensures Edited(lines[1..close], lines[close + 1..], name)
         == if Unrewritable(RestOf(lines[i])) then Refused else Content(Join(lines[i := NameLineFor(name)]))
  {
    var block, body, line := lines[1..close], lines[close + 1..], NameLineFor(name);
    NameIsAt(lines[1..i], lines[i..close]);
    assert block == lines[1..i] + lines[i..close];
    assert lines[i := line] == [FENCE] + block[i - 1 := line] + [FENCE] + body;
  }

  lemma {:induction false} NameIsAt(pre: seq<Text>, rest: seq<Text>)
    requires (forall i :: 0 <= i < |pre| ==> !HoldsName(pre[i])) && rest != [] && HoldsName(rest[0])
    ensures FirstName(pre + rest) == |pre|
  {
    FirstNameAfter(pre, rest);
  }

  /** Edits the first line of the block that holds the name, or puts one in front. */
  method EditLines(read: seq<Text>, close: nat, name: Text) returns (r: Renamed)
    requires 0 < close < |read| && read[0] == FENCE && read[close] == FENCE
    ensures r == Edited(read[1..close], read[close + 1..], name)
  {
    var nameLine, lines := NameLineFor(name), read;
    for i := 1 to close
      invariant lines == read
      invariant forall j :: 0 < j < i ==> !HoldsName(lines[j])
    {
      if !HoldsName(lines[i]) {
        continue;
      }
      EditedAt(lines, close, name, i);
      if Unrewritable(RestOf(lines[i])) {
        return Refused;
      }
      lines := lines[i := nameLine];
      return Content(Join(lines));
    }
    EditedNowhere(lines, close, name);
    lines := lines[..1] + [nameLine] + lines[1..];
    return Content(Join(lines));
  }

  method Rename(content: Text, name: Text) returns (r: Renamed)
    ensures r == SetName(content, name)
  {
    var doc := ParseFrontmatter(content);
    if NAME in doc.fm && doc.fm[NAME] == Scalar(name) {
      return Content(content);
    }
    var prepended := FENCE + [NL] + NameLineFor(name) + [NL] + FENCE + [NL] + content;
    var lines := Split(Unix(content), NL);
    var close := ClosingFence(lines);
    if lines[0] != FENCE || close == |lines| {
      return Content(prepended);
    }
    r := EditLines(lines, close, name);
  }
}
