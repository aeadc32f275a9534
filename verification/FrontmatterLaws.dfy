/** What printing, parsing and renaming promise together (migration-kit/scripts/frontmatter.py:162-262). */
module FrontmatterLaws {
  import opened Surrogates
  import opened PyText
  import opened PyJson
  import opened Frontmatter

  lemma {:induction false} FirstFenceAt(lines: seq<Text>, rest: seq<Text>)
    requires FENCE !in lines
    ensures FirstFence(lines + [FENCE] + rest) == |lines|
    decreases |lines|
  {
    var all := lines + [FENCE] + rest;
    if lines != [] {
      assert all[0] == lines[0] && all[0] in lines;
      assert all[1..] == lines[1..] + [FENCE] + rest;
      FirstFenceAt(lines[1..], rest);
    }
  }

  lemma {:induction false} ShapeIs(block: seq<Text>, body: seq<Text>)
    requires FENCE !in block
    ensures ShapeOf([FENCE] + block + [FENCE] + body) == Fenced(block, body)
  {
    var lines := [FENCE] + block + [FENCE] + body;
    assert lines[1..] == block + [FENCE] + body;
    FirstFenceAt(block, body);
    assert lines[1..1 + |block|] == block;
    assert lines[|block| + 2..] == body;
  }

  // ----- Printing, then parsing -----

  lemma {:induction false} EmitLines(name: Text, description: Text, rest: Text)
    ensures Split(Emit(name, description) + rest, NL)
         == [FENCE] + [Printed(NAME, name), Printed(DESCRIPTION, description)] + [FENCE] + Split(rest, NL)
  {
    var a, b := Printed(NAME, name), Printed(DESCRIPTION, description);
    NameAndDescriptionAreKeys();
    PrintedOneLine(NAME, name);
    PrintedOneLine(DESCRIPTION, description);
    var fromFence := FENCE + [NL] + rest;
    var fromB := b + [NL] + fromFence;
    var fromA := a + [NL] + fromB;
    assert Emit(name, description) + rest == FENCE + [NL] + fromA;
    SplitLine(FENCE, fromA);
    SplitLine(a, fromB);
    SplitLine(b, fromFence);
    SplitLine(FENCE, rest);
  }

  lemma {:induction false} EmitHasNoCr(name: Text, description: Text, rest: Text)
    ensures Unix(Emit(name, description) + rest) == Emit(name, description) + Unix(rest)
  {
    NameAndDescriptionAreKeys();
    PrintedOneLine(NAME, name);
    PrintedOneLine(DESCRIPTION, description);
    var e := Emit(name, description);
    assert forall i :: 0 <= i < |e| ==> e[i] != CR;
    assert !HasCrLf(e);
    UnixLength(e);
    UnixAppend(e, rest);
  }

  /** The parser undoes the printer on every name, description and body: nothing is left unparsed,
      and each text comes back unless a high surrogate in it stands before a low one. */
  lemma {:induction false} EmitThenParse(name: Text, description: Text, body: Text)
    ensures Parse(Emit(name, description) + body)
         == Doc(map[NAME := Scalar(Joined(name)), DESCRIPTION := Scalar(Joined(description))], DropNls(Unix(body)), [])
    ensures Named(Emit(name, description) + body, name) <==> !HasPair(name)
    ensures Parse(Emit(name, description) + body).fm == map[NAME := Scalar(name), DESCRIPTION := Scalar(description)]
       <==> !HasPair(name) && !HasPair(description)
  {
    var a, b := Printed(NAME, name), Printed(DESCRIPTION, description);
    var text := Emit(name, description) + body;
    EmitHasNoCr(name, description, body);
    EmitLines(name, description, Unix(body));
    NameAndDescriptionAreKeys();
    PrintedStep(NAME, name, [b]);
    PrintedStep(DESCRIPTION, description, [a]);
    ShapeIs([a, b], Split(Unix(body), NL));
    JoinSplit(Unix(body));
    TwoSteps(name, description);
    assert Parse(text).fm == map[NAME := Scalar(Joined(name)), DESCRIPTION := Scalar(Joined(description))];
    JoinedIsSame(name);
    JoinedIsSame(description);
    var given := map[NAME := Scalar(name), DESCRIPTION := Scalar(description)];
    assert given[NAME] == Scalar(name) && given[DESCRIPTION] == Scalar(description);
  }

  lemma {:induction false} TwoSteps(name: Text, description: Text)
    ensures Parsed([Printed(NAME, name), Printed(DESCRIPTION, description)], EMPTY)
         == Block(map[NAME := Scalar(Joined(name)), DESCRIPTION := Scalar(Joined(description))], [])
  {
    var a, b := Printed(NAME, name), Printed(DESCRIPTION, description);
    NameAndDescriptionAreKeys();
    PrintedStep(NAME, name, [b]);
    var none: seq<Text> := [];
    PrintedStep(DESCRIPTION, description, none);
    var one, two := [b], [a, b];
    assert [a] + one == two && two[1..] == one && one + none == one;
    var step1, step2 := StepAt([a, b]), StepAt([b]);
    ParsedStep([a, b], step1, EMPTY);
    ParsedStep([b], step2, After(EMPTY, step1.effect));
    assert one[1..] == none;
  }

  // ----- Carriage returns inside the block -----

  lemma {:induction false} StripStartTrailing(s: Text, c: CodePoint)
    requires Space(c)
    ensures StripStart(s + [c]) == if StripStart(s) == [] then [] else StripStart(s) + [c]
    decreases |s|
  {
    if s == [] {
      assert s + [c] == [c];
    } else if Space(s[0]) {
      assert (s + [c])[1..] == s[1..] + [c];
      StripStartTrailing(s[1..], c);
    }
  }

  lemma {:induction false} StripTrailing(s: Text, c: CodePoint)
    requires Space(c)
    ensures Strip(s + [c]) == Strip(s)
  {
    StripStartTrailing(s, c);
    var t := StripStart(s);
    assert (t + [c])[..|t|] == t;
  }

  lemma {:induction false} StripDropCr(line: Text)
    ensures Strip(DropCr(line)) == Strip(line)
  {
    if EndsInCr(line) {
      assert line == DropCr(line) + [CR];
      StripTrailing(DropCr(line), CR);
    }
  }

  lemma {:induction false} KeyRunTrailing(s: Text)
    ensures KeyRun(s + [CR]) == KeyRun(s)
    decreases |s|
  {
    if s == [] {
      assert s + [CR] == [CR];
    } else {
      assert (s + [CR])[1..] == s[1..] + [CR];
      KeyRunTrailing(s[1..]);
    }
  }

  lemma {:induction false} KeyLineDropCr(line: Text)
    ensures KeyLine(DropCr(line)) <==> KeyLine(line)
    ensures KeyLine(line) ==> KeyOf(DropCr(line)) == KeyOf(line) && RestOf(DropCr(line)) == RestOf(line)
  {
    if EndsInCr(line) {
      var s := DropCr(line);
      assert line == s + [CR];
      KeyRunTrailing(s);
      var k := KeyRun(s);
      if KeyLine(line) {
        assert k < |s|;
        assert line[k + 1..] == s[k + 1..] + [CR];
        StripTrailing(s[k + 1..], CR);
      }
    }
  }

  lemma {:induction false} ItemTextsCropped(lines: seq<Text>)
    ensures ItemTexts(Cropped(lines)) == ItemTexts(lines)
    decreases |lines|
  {
    if lines != [] {
      StripDropCr(lines[0]);
      assert Cropped(lines)[1..] == Cropped(lines[1..]);
      ItemTextsCropped(lines[1..]);
    }
  }

  /** Two effects that do the same to the keys. */
  predicate Alike(e: Effect, f: Effect) {
    match e
    case Assign(key, value, _) => f.Assign? && f.key == key && f.value == value
    case _ => !f.Assign?
  }

  lemma {:induction false} StepCropped(lines: seq<Text>)
    requires lines != []
    ensures StepAt(Cropped(lines)).used == StepAt(lines).used
    ensures Alike(StepAt(lines).effect, StepAt(Cropped(lines)).effect)
  {
    var line := lines[0];
    StripDropCr(line);
    KeyLineDropCr(line);
    assert Cropped(lines)[1..] == Cropped(lines[1..]);
    ItemTextsCropped(lines[1..]);
    assert Cropped(lines)[0] == DropCr(line);
    if Strip(line) != [] {
      assert line == [CR] ==> line[1..] == [];
      assert DropCr(line) != [] && DropCr(line)[0] == line[0];
    }
  }

  /** The keys and values a block assigns do not depend on carriage returns that end its lines. */
  lemma {:induction false} ParsedCropped(lines: seq<Text>, b: Block, c: Block)
    requires b.fm == c.fm
    ensures Parsed(Cropped(lines), c).fm == Parsed(lines, b).fm
    decreases |lines|
  {
    if lines != [] {
      var step, step' := StepAt(lines), StepAt(Cropped(lines));
      var tail, b', c' := lines[step.used..], After(b, step.effect), After(c, step'.effect);
      StepCropped(lines);
      ParsedStep(lines, step, b);
      ParsedStep(Cropped(lines), step', c);
      assert Cropped(lines)[step.used..] == Cropped(tail);
      AfterAlike(b, c, step.effect, step'.effect);
      ParsedCropped(tail, b', c');
    }
  }

  lemma {:induction false} AfterAlike(b: Block, c: Block, e: Effect, f: Effect)
    requires b.fm == c.fm && Alike(e, f)
    ensures After(b, e).fm == After(c, f).fm
  {
  }

  // ----- Other keys -----

  ghost predicate AgreeBut(a: map<Text, Value>, b: map<Text, Value>) {
    forall k: Text :: k != NAME ==> (k in a <==> k in b) && (k in a && k in b ==> a[k] == b[k])
  }

  lemma {:induction false} OthersAgree(lines: seq<Text>, b: Block, c: Block)
    requires AgreeBut(b.fm, c.fm)
    ensures AgreeBut(Parsed(lines, b).fm, Parsed(lines, c).fm)
    decreases |lines|
  {
    if lines != [] {
      var step := StepAt(lines);
      var b', c' := After(b, step.effect), After(c, step.effect);
      OthersAgree(lines[step.used..], b', c');
      ParsedStep(lines, step, b);
      ParsedStep(lines, step, c);
    }
  }

  lemma {:induction false} NameStays(lines: seq<Text>, b: Block)
    requires NAME in b.fm
    ensures NAME in Parsed(lines, b).fm && Parsed(lines, b).fm[NAME] == b.fm[NAME]
    decreases |lines|
  {
    if lines != [] {
      var step := StepAt(lines);
      NameStays(lines[step.used..], After(b, step.effect));
      ParsedStep(lines, step, b);
    }
  }

  ghost predicate Nameless(lines: seq<Text>) {
    forall i :: 0 <= i < |lines| ==> !HoldsName(lines[i])
  }

  lemma {:induction false} NamelessParse(lines: seq<Text>, b: Block)
    requires Nameless(lines) && NAME !in b.fm
    ensures NAME !in Parsed(lines, b).fm
    decreases |lines|
  {
    if lines != [] {
      var step := StepAt(lines);
      assert !HoldsName(lines[0]);
      NamelessParse(lines[step.used..], After(b, step.effect));
      ParsedStep(lines, step, b);
    }
  }

  // ----- The renamed block -----

  function NameAt(block: seq<Text>): nat {
    if FirstName(block) < |block| then FirstName(block) else 0
  }

  /** The block after a rename: one line replaced, or one put in front. */
  function RenamedBlock(block: seq<Text>, name: Text): seq<Text> {
    if FirstName(block) < |block| then block[FirstName(block) := NameLineFor(name)]
    else [NameLineFor(name)] + block
  }

  lemma {:induction false} NameLineBounds(line: Text)
    requires HoldsName(line)
    ensures !ItemLine(line) && line != FENCE && DropCr(line) != FENCE
  {
    assert line[..4] == NAME;
    assert line[0] == NAME[0] && |line| > 4;
    FirstStays(line);
  }

  lemma {:induction false} NameLineHolds(name: Text)
    ensures HoldsName(NameLineFor(name)) && RestOf(NameLineFor(name)) == Dumps(name)
    ensures NoNl(NameLineFor(name)) && DropCr(NameLineFor(name)) == NameLineFor(name)
    ensures NameLineFor(name) == Printed(NAME, name) != FENCE
  {
    NameAndDescriptionAreKeys();
    PrintedLine(NAME, name);
    PrintedStep(NAME, name, []);
    PrintedOneLine(NAME, name);
  }

  /** After the new name line, the keys are those after the old line but for the name. */
  lemma {:induction false} NewNameStep(name: Text, rest: seq<Text>, b: Block)
    requires NAME !in b.fm
    ensures var p := Parsed([NameLineFor(name)] + rest, b);
            p == Parsed(rest, b.(fm := b.fm[NAME := Scalar(Joined(name))]))
            && NAME in p.fm && p.fm[NAME] == Scalar(Joined(name))
  {
    NameAndDescriptionAreKeys();
    PrintedStep(NAME, name, rest);
    var line := NameLineFor(name);
    assert line == Printed(NAME, name);
    var lines := [line] + rest;
    var step := StepAt(lines);
    ParsedStep(lines, step, b);
    assert lines[1..] == rest;
    NameStays(rest, After(b, step.effect));
  }

  /** Past the name line, the old block and the new one assign the same other keys. */
  lemma {:induction false} LineReplaced(was: Text, name: Text, post: seq<Text>, b: Block)
    requires HoldsName(was) && RestOf(was) != [] && NAME !in b.fm
    ensures var fm := Parsed([NameLineFor(name)] + post, b).fm;
            NAME in fm && fm[NAME] == Scalar(Joined(name)) && AgreeBut(Parsed([was] + post, b).fm, fm)
  {
    NewNameStep(name, post, b);
    var step := StepAt([was] + post);
    ParsedStep([was] + post, step, b);
    assert ([was] + post)[1..] == post;
    OthersAgree(post, After(b, step.effect), b.(fm := b.fm[NAME := Scalar(Joined(name))]));
  }

  lemma {:induction false} BlockReplaced(pre: seq<Text>, was: Text, name: Text, post: seq<Text>)
    requires HoldsName(was) && RestOf(was) != [] && Nameless(pre)
    ensures var fm := Parsed(pre + ([NameLineFor(name)] + post), EMPTY).fm;
            NAME in fm && fm[NAME] == Scalar(Joined(name))
            && AgreeBut(Parsed(pre + ([was] + post), EMPTY).fm, fm)
  {
    NamelessParse(pre, EMPTY);
    NameLineHolds(name);
    NameLineBounds(was);
    NameLineBounds(NameLineFor(name));
    ParsedAppend(pre, [was] + post, EMPTY);
    ParsedAppend(pre, [NameLineFor(name)] + post, EMPTY);
    LineReplaced(was, name, post, Parsed(pre, EMPTY));
  }

  /** Renaming a block sets the name and no other key. */
  lemma {:induction false} RenamedKeys(block: seq<Text>, name: Text)
    requires FirstName(block) < |block| ==> !Unrewritable(RestOf(block[FirstName(block)]))
    ensures var fm := Parsed(RenamedBlock(block, name), EMPTY).fm;
            NAME in fm && fm[NAME] == Scalar(Joined(name)) && AgreeBut(Parsed(block, EMPTY).fm, fm)
  {
    var k := FirstName(block);
    if k < |block| {
      AroundLine(block, k, NameLineFor(name));
      BlockReplaced(block[..k], block[k], name, block[k + 1..]);
    } else {
      NewNameStep(name, block, EMPTY);
      OthersAgree(block, EMPTY, EMPTY.(fm := EMPTY.fm[NAME := Scalar(Joined(name))]));
    }
  }

  lemma {:induction false} AroundLine(block: seq<Text>, k: nat, line: Text)
    requires k < |block|
    ensures block == block[..k] + ([block[k]] + block[k + 1..])
    ensures block[k := line] == block[..k] + ([line] + block[k + 1..])
  {
  }
}
