/** Markdown frontmatter: what parse_frontmatter, emit_frontmatter and set_name compute
    (migration-kit/scripts/frontmatter.py). FrontmatterScan.dfy has the loops. */
module Frontmatter {
  import opened Wrappers
  import opened Surrogates
  import opened PyText
  import opened PyJson

  const COLON: CodePoint := 0x3A
  const COMMA: CodePoint := 0x2C
  const DASH: CodePoint := 0x2D
  const SPACE: CodePoint := 0x20
  const HASH: CodePoint := 0x23
  const QUOTE: CodePoint := 0x22
  const APOSTROPHE: CodePoint := 0x27
  const OPEN_BRACKET: CodePoint := 0x5B
  const CLOSE_BRACKET: CodePoint := 0x5D
  const OPEN_BRACE: CodePoint := 0x7B
  const CLOSE_BRACE: CodePoint := 0x7D

  const FENCE: Text := [DASH, DASH, DASH]
  const NAME: Text := [0x6E, 0x61, 0x6D, 0x65]
  const DESCRIPTION: Text := [0x64, 0x65, 0x73, 0x63, 0x72, 0x69, 0x70, 0x74, 0x69, 0x6F, 0x6E]

  datatype Value = Scalar(text: Text) | Many(items: seq<Text>)

  // ----- Key lines -----

  predicate KeyChar(c: CodePoint) {
    0x61 <= c <= 0x7A || 0x41 <= c <= 0x5A || 0x30 <= c <= 0x39 || c == 0x5F || c == 0x2E || c == DASH
  }

  function KeyRun(line: Text): (n: nat)
    ensures n <= |line|
    decreases |line|
  {
    if line != [] && KeyChar(line[0]) then 1 + KeyRun(line[1..]) else 0
  }

  /** One or more key characters, then a colon. */
  predicate KeyLine(line: Text) {
    0 < KeyRun(line) < |line| && line[KeyRun(line)] == COLON
  }

  function KeyOf(line: Text): Text
    requires KeyLine(line)
  {
    line[..KeyRun(line)]
  }

  function RestOf(line: Text): Text
    requires KeyLine(line)
  {
    Strip(line[KeyRun(line) + 1..])
  }

  // ----- Values -----

  /** A token that opens with one of | > & * ! # . */
  predicate Indicator(c: CodePoint) {
    c == 0x7C || c == 0x3E || c == 0x26 || c == 0x2A || c == 0x21 || c == HASH
  }

  predicate CommentAt(token: Text, i: nat) {
    i + 1 < |token| && Space(token[i]) && token[i + 1] == HASH
  }

  predicate MappingAt(token: Text, i: nat) {
    i < |token| && token[i] == COLON && (i + 1 == |token| || Space(token[i + 1]))
  }

  /** The rest of a single-quoted token from position i on. */
  function SingleQuotedFrom(token: Text, i: nat): Option<Text>
    decreases |token| - i
  {
    if i >= |token| then None
    else if token[i] != APOSTROPHE then Prepend(token[i], SingleQuotedFrom(token, i + 1))
    else if i + 1 < |token| && token[i + 1] == APOSTROPHE then Prepend(APOSTROPHE, SingleQuotedFrom(token, i + 2))
    else if i == |token| - 1 then Some([])
    else None
  }

  function ScalarOf(token: Text): Option<Text> {
    if token == [] || Indicator(token[0]) then None
    else if token[0] == QUOTE then Loads(token)
    else if token[0] == APOSTROPHE then SingleQuotedFrom(token, 1)
    else if exists i :: 0 <= i < |token| && CommentAt(token, i) then None
    else Some(token)
  }

  /** Every text read as a scalar, or nothing if one of them is none. */
  function Scalars(tokens: seq<Text>): Option<seq<Text>>
    decreases |tokens|
  {
    if tokens == [] then Some([])
    else match ScalarOf(tokens[0])
      case None => None
      case Some(first) =>
        match Scalars(tokens[1..])
        case None => None
        case Some(rest) => Some([first] + rest)
  }

  predicate FlowMapping(token: Text) {
    && !(token != [] && (token[0] == APOSTROPHE || token[0] == QUOTE))
    && exists i :: 0 <= i < |token| && MappingAt(token, i)
  }

  function Stripped(parts: seq<Text>): seq<Text> {
    seq(|parts|, i requires 0 <= i < |parts| => Strip(parts[i]))
  }

  predicate Nested(inner: Text) {
    OPEN_BRACKET in inner || CLOSE_BRACKET in inner || OPEN_BRACE in inner || CLOSE_BRACE in inner
  }

  function FlowList(rest: Text): Option<seq<Text>>
    requires rest != [] && rest[0] == OPEN_BRACKET
  {
    if rest[|rest| - 1] != CLOSE_BRACKET then None
    else
      var inner := rest[1..|rest| - 1];
      var tokens := Stripped(Split(inner, COMMA));
      if Nested(inner) then None
      else if Strip(inner) == [] then Some([])
      else if exists i :: 0 <= i < |tokens| && FlowMapping(tokens[i]) then None
      else Scalars(tokens)
  }

  function ValueOf(rest: Text): Option<Value> {
    if rest != [] && rest[0] == OPEN_BRACKET then
      match FlowList(rest)
      case None => None
      case Some(items) => Some(Many(items))
    else
      match ScalarOf(rest)
      case None => None
      case Some(text) => Some(Scalar(text))
  }

  // ----- Block lists -----

  predicate ItemLine(line: Text) {
    var s := Strip(line);
    s == [DASH] || (|s| >= 2 && s[0] == DASH && s[1] == SPACE)
  }

  function ItemText(line: Text): Text
    requires ItemLine(line)
  {
    Strip(Strip(line)[1..])
  }

  /** The texts of the list items that lines starts with. */
  function ItemTexts(lines: seq<Text>): (items: seq<Text>)
    ensures |items| <= |lines|
    decreases |lines|
  {
    if lines == [] || !ItemLine(lines[0]) then [] else [ItemText(lines[0])] + ItemTexts(lines[1..])
  }

  // ----- The block between the fences -----

  datatype Effect =
    | Skip
    | Unread(line: Text)
    | Assign(key: Text, value: Value, line: Text)

  datatype Step = Step(effect: Effect, used: nat)

  /** What the parser makes of the lines it stands in front of. */
  function StepAt(lines: seq<Text>): (step: Step)
    requires lines != []
    ensures 1 <= step.used <= |lines|
  {
    var line := lines[0];
    if Strip(line) == [] then Step(Skip, 1)
    else if (line != [] && Space(line[0])) || !KeyLine(line) then Step(Unread(line), 1)
    else if RestOf(line) == [] then
      var items := ItemTexts(lines[1..]);
      match Scalars(items)
      case None => Step(Unread(line), 1)
      case Some(texts) =>
        if items == [] then Step(Unread(line), 1) else Step(Assign(KeyOf(line), Many(texts), line), 1 + |items|)
    else
      match ValueOf(RestOf(line))
      case None => Step(Unread(line), 1)
      case Some(value) => Step(Assign(KeyOf(line), value, line), 1)
  }

  datatype Block = Block(fm: map<Text, Value>, unparsed: seq<Text>)

  /** A key's first assignment wins; later ones are surfaced as unparsed lines. */
  function After(b: Block, e: Effect): Block {
    match e
    case Skip => b
    case Unread(line) => b.(unparsed := b.unparsed + [line])
    case Assign(key, value, line) =>
      if key in b.fm then b.(unparsed := b.unparsed + [line]) else b.(fm := b.fm[key := value])
  }

  function Parsed(lines: seq<Text>, b: Block): Block
    decreases |lines|
  {
    if lines == [] then b
    else Parsed(lines[StepAt(lines).used..], After(b, StepAt(lines).effect))
  }

  const EMPTY := Block(map[], [])

  // ----- The document -----

  datatype Shape =
    | Plain
    | Fenced(block: seq<Text>, body: seq<Text>)

  function FirstFence(lines: seq<Text>): (k: nat)
    ensures k <= |lines|
    ensures FENCE !in lines[..k]
    ensures k < |lines| ==> lines[k] == FENCE
    decreases |lines|
  {
    if lines == [] || lines[0] == FENCE then 0
    else
      assert forall k: nat :: 1 <= k <= |lines| ==> lines[..k] == [lines[0]] + lines[1..][..k - 1];
      1 + FirstFence(lines[1..])
  }

  function ShapeOf(lines: seq<Text>): (shape: Shape)
    requires lines != []
    ensures shape.Fenced? ==>
              lines == [FENCE] + shape.block + [FENCE] + shape.body && FENCE !in shape.block
  {
    var close := FirstFence(lines[1..]);
    if lines[0] != FENCE || close == |lines[1..]| then Plain
    else
      assert lines[1 + close] == FENCE;
      assert lines[1..][..close] == lines[1..1 + close];
      Fenced(lines[1..1 + close], lines[close + 2..])
  }

  datatype Doc = Doc(fm: map<Text, Value>, body: Text, unparsed: seq<Text>)

  function Parse(text: Text): Doc {
    match ShapeOf(Split(Unix(text), NL))
    case Plain => Doc(map[], Unix(text), [])
    case Fenced(block, body) =>
      var b := Parsed(block, EMPTY);
      Doc(b.fm, DropNls(Join(body)), b.unparsed)
  }

  function NameLineFor(name: Text): Text {
    NAME + [COLON, SPACE] + Dumps(name)
  }

  function Emit(name: Text, description: Text): Text {
    FENCE + [NL] + NameLineFor(name) + [NL] + (DESCRIPTION + [COLON, SPACE] + Dumps(description)) + [NL]
    + FENCE + [NL]
  }

  // ----- Renaming -----

  /** A top-level line that holds the name. */
  predicate HoldsName(line: Text) {
    !(line != [] && Space(line[0])) && KeyLine(line) && KeyOf(line) == NAME
  }

  function FirstName(block: seq<Text>): (k: nat)
    ensures k <= |block|
    ensures forall i :: 0 <= i < k ==> !HoldsName(block[i])
    ensures k < |block| ==> HoldsName(block[k])
    decreases |block|
  {
    if block == [] || HoldsName(block[0]) then 0
    else
      assert forall i :: 1 <= i < |block| ==> block[i] == block[1..][i - 1];
      1 + FirstName(block[1..])
  }

  /** A value form that must be renamed by hand: empty, or opening with one of | > & * ! # [ { . */
  predicate Unrewritable(value: Text) {
    value == [] || Indicator(value[0]) || value[0] == OPEN_BRACKET || value[0] == OPEN_BRACE
  }

  datatype Renamed =
    | Content(text: Text)
    | Refused

  /** A fenced document with the name edited into its block. */
  function Edited(block: seq<Text>, body: seq<Text>, name: Text): Renamed {
    var k := FirstName(block);
    if k == |block| then Content(Join([FENCE] + ([NameLineFor(name)] + block) + [FENCE] + body))
    else if Unrewritable(RestOf(block[k])) then Refused
    else Content(Join([FENCE] + block[k := NameLineFor(name)] + [FENCE] + body))
  }

  /** What is written when the name has to change. */
  function Rewritten(content: Text, name: Text): Renamed {
    match ShapeOf(Split(Unix(content), NL))
    case Plain => Content(FENCE + [NL] + NameLineFor(name) + [NL] + FENCE + [NL] + content)
    case Fenced(block, body) => Edited(block, body, name)
  }

  predicate Named(content: Text, name: Text) {
    var fm := Parse(content).fm;
    NAME in fm && fm[NAME] == Scalar(name)
  }

  function SetName(content: Text, name: Text): Renamed {
    if Named(content, name) then Content(content) else Rewritten(content, name)
  }

  // ----- Lines that bound a step -----

  /** A line that no list runs over. */
  predicate Bounds(rest: seq<Text>) {
    rest == [] || !ItemLine(rest[0])
  }

  lemma {:induction false} ItemsStop(lines: seq<Text>, rest: seq<Text>)
    requires Bounds(rest)
    ensures ItemTexts(lines + rest) == ItemTexts(lines)
    decreases |lines|
  {
    if lines == [] {
      assert lines + rest == rest;
    } else {
      assert (lines + rest)[1..] == lines[1..] + rest;
      ItemsStop(lines[1..], rest);
    }
  }

  lemma {:induction false} StepStops(lines: seq<Text>, rest: seq<Text>)
    requires lines != [] && Bounds(rest)
    ensures StepAt(lines + rest) == StepAt(lines)
  {
    assert (lines + rest)[0] == lines[0];
    assert (lines + rest)[1..] == lines[1..] + rest;
    ItemsStop(lines[1..], rest);
  }

  lemma {:induction false} ParsedStep(lines: seq<Text>, step: Step, b: Block)
    requires lines != [] && StepAt(lines) == step
    ensures step.used <= |lines| && Parsed(lines, b) == Parsed(lines[step.used..], After(b, step.effect))
  {
  }

  /** Parsing goes on at a line that bounds as if it started there. */
  lemma {:induction false} ParsedAppend(lines: seq<Text>, rest: seq<Text>, b: Block)
    requires Bounds(rest)
    ensures Parsed(lines + rest, b) == Parsed(rest, Parsed(lines, b))
    decreases |lines|
  {
    if lines == [] {
      assert lines + rest == rest;
    } else {
      var step := StepAt(lines);
      var tail, next := lines[step.used..], After(b, step.effect);
      assert (lines + rest)[step.used..] == tail + rest;
      calc {
        Parsed(lines + rest, b);
        { StepStops(lines, rest); ParsedStep(lines + rest, step, b); }
        Parsed(tail + rest, next);
        { ParsedAppend(tail, rest, next); }
        Parsed(rest, Parsed(tail, next));
        { ParsedStep(lines, step, b); }
        Parsed(rest, Parsed(lines, b));
      }
    }
  }

  // ----- A printed key line -----

  lemma {:induction false} KeyRunOf(key: Text, rest: Text)
    requires forall i :: 0 <= i < |key| ==> KeyChar(key[i])
    ensures KeyRun(key + [COLON] + rest) == |key|
    decreases |key|
  {
    if key == [] {
      assert (key + [COLON] + rest)[0] == COLON;
    } else {
      assert (key + [COLON] + rest)[1..] == key[1..] + [COLON] + rest;
      KeyRunOf(key[1..], rest);
    }
  }

  function Printed(key: Text, text: Text): Text {
    key + [COLON, SPACE] + Dumps(text)
  }

  lemma {:induction false} PrintedLine(key: Text, text: Text)
    requires key != [] && forall i :: 0 <= i < |key| ==> KeyChar(key[i])
    ensures KeyLine(Printed(key, text)) && KeyOf(Printed(key, text)) == key
    ensures RestOf(Printed(key, text)) == Dumps(text)
  {
    var line := Printed(key, text);
    assert line == key + [COLON] + ([SPACE] + Dumps(text));
    KeyRunOf(key, [SPACE] + Dumps(text));
    assert line[|key| + 1..] == [SPACE] + Dumps(text);
    assert Dumps(text)[0] == QUOTE && Dumps(text)[|Dumps(text)| - 1] == QUOTE;
    StripKeepsTight(SPACE, Dumps(text));
  }

  lemma {:induction false} FirstStays(s: Text)
    requires s != [] && !Space(s[0])
    ensures Strip(s) != [] && Strip(s)[0] == s[0]
  {
    StripEndFirst(s);
  }

  lemma {:induction false} StripEndFirst(s: Text)
    requires s != [] && !Space(s[0])
    ensures StripEnd(s) != [] && StripEnd(s)[0] == s[0]
    decreases |s|
  {
    if Space(s[|s| - 1]) {
      StripEndFirst(s[..|s| - 1]);
    }
  }

  /** A printed line assigns its key and nothing else, on one line, whatever follows. */
  lemma {:induction false} PrintedStep(key: Text, text: Text, rest: seq<Text>)
    requires key != [] && key[0] != DASH && forall i :: 0 <= i < |key| ==> KeyChar(key[i])
    ensures StepAt([Printed(key, text)] + rest)
         == Step(Assign(key, Scalar(Joined(text)), Printed(key, text)), 1)
    ensures !ItemLine(Printed(key, text)) && !Space(Printed(key, text)[0])
    ensures Printed(key, text) != FENCE
  {
    var line := Printed(key, text);
    PrintedLine(key, text);
    assert line[0] == key[0] && !Space(line[0]);
    FirstStays(line);
    LoadsDumps(text);
    assert ScalarOf(Dumps(text)) == Some(Joined(text));
    assert ([line] + rest)[0] == line;
  }

  lemma {:induction false} PrintedOneLine(key: Text, text: Text)
    requires forall i :: 0 <= i < |key| ==> KeyChar(key[i])
    ensures NoNl(Printed(key, text))
    ensures forall i :: 0 <= i < |Printed(key, text)| ==> Printed(key, text)[i] != CR
  {
    DumpsIsPlain(text);
  }

  lemma {:induction false} NameAndDescriptionAreKeys()
    ensures forall i :: 0 <= i < |NAME| ==> KeyChar(NAME[i])
    ensures forall i :: 0 <= i < |DESCRIPTION| ==> KeyChar(DESCRIPTION[i])
  {
  }
}
