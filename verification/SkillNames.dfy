/** The names under which migrated skills are filed: where the plan runner rests on the frontmatter
    laws (migration-kit/scripts/apply.py:169-226). */
module SkillNames {
  import opened Surrogates
  import JsonText
  import opened PyText
  import opened PyJson
  import opened Frontmatter
  import FrontmatterLaws
  import Renaming
  import opened Migration
  import opened MigrationLaws

  function UpToColon(line: Text): Text
    decreases |line|
  {
    if line == [] || line[0] == COLON then [] else [line[0]] + UpToColon(line[1..])
  }

  /** An unread top-level line that mentions the name or the description. */
  predicate Ambiguous(line: Text) {
    !(line != [] && Space(line[0])) && (UpToColon(line) == NAME || UpToColon(line) == DESCRIPTION)
  }

  predicate Filled(fm: map<Text, Value>, key: Text) {
    key in fm && fm[key].Scalar? && Strip(fm[key].text) != []
  }

  /** The offline check on a skill's content. */
  predicate Accepted(content: Text) {
    var doc := Parse(content);
    && FENCE <= content
    && Filled(doc.fm, NAME) && Filled(doc.fm, DESCRIPTION)
    && forall line :: line in doc.unparsed ==> !Ambiguous(line)
  }

  /** Generated content passes the check exactly when its name and description are not blank. */
  lemma {:induction false} GeneratedIsAccepted(name: Text, description: Text, body: Text)
    ensures Accepted(Emit(name, description) + body)
       <==> Strip(Joined(name)) != [] && Strip(Joined(description)) != []
  {
    FrontmatterLaws.EmitThenParse(name, description, body);
    assert FENCE <= Emit(name, description) + body;
    assert NAME != DESCRIPTION by {
      assert |NAME| != |DESCRIPTION|;
    }
  }

  /** Content that passes the check carries the name the instance is searched by, unless that name
      holds a high surrogate before a low one and had to be written. */
  lemma {:induction false} AcceptedNameExactly(source: SkillSource, name: Text)
    requires SkillContent(source, name).Content? && Accepted(SkillContent(source, name).text)
    ensures Named(SkillContent(source, name).text, name)
       <==> !HasPair(name) || (source.Original? && Named(source.content, name))
  {
    match source
    case Generated(description, body) =>
      FrontmatterLaws.EmitThenParse(name, description, body);
    case Original(content) =>
      if !Named(content, name) {
        match ShapeOf(Split(Unix(content), NL))
        case Plain =>
          Renaming.RenamePlain(content, name);
        case Fenced(block, body) =>
          Renaming.NameReadExactlyWhen(content, name, block, body);
          Renaming.NameThereExactlyWhen(content, name, block, body);
      }
  }

  // ----- What the check rules out -----

  /** A top-level line that gives the key. */
  predicate Gives(line: Text, key: Text) {
    line != [] && !Space(line[0]) && KeyLine(line) && KeyOf(line) == key
  }

  /** A key that no list item can be taken for. */
  predicate Plainly(key: Text) {
    key != [] && key[0] != DASH && !Space(key[0])
  }

  lemma {:induction false} ItemsGiveNothing(lines: seq<Text>, key: Text)
    requires Plainly(key)
    ensures forall i :: 0 <= i < |ItemTexts(lines)| ==> !Gives(lines[i], key)
    decreases |lines|
  {
    if lines != [] && ItemLine(lines[0]) {
      ItemsGiveNothing(lines[1..], key);
      if Gives(lines[0], key) {
        assert lines[0][0] == key[0];
        FirstStays(lines[0]);
      }
      assert forall i :: 1 <= i < |lines| ==> lines[i] == lines[1..][i - 1];
    }
  }

  lemma {:induction false} StepGives(lines: seq<Text>, key: Text)
    requires lines != [] && Plainly(key)
    ensures forall i :: 1 <= i < StepAt(lines).used ==> !Gives(lines[i], key)
    ensures Gives(lines[0], key) ==>
              var e := StepAt(lines).effect; e == Unread(lines[0]) || (e.Assign? && e.key == key && e.line == lines[0])
    ensures StepAt(lines).effect.Assign? && StepAt(lines).effect.key == key ==> Gives(lines[0], key)
  {
    ItemsGiveNothing(lines[1..], key);
    assert forall i :: 1 <= i < |lines| ==> lines[i] == lines[1..][i - 1];
    if Gives(lines[0], key) {
      FirstStays(lines[0]);
    }
  }

  lemma {:induction false} UnparsedGrows(lines: seq<Text>, b: Block)
    ensures b.unparsed <= Parsed(lines, b).unparsed
    ensures forall key :: key in b.fm ==> key in Parsed(lines, b).fm
    decreases |lines|
  {
    if lines != [] {
      UnparsedGrows(lines[StepAt(lines).used..], After(b, StepAt(lines).effect));
    }
  }

  /** Once a key has a value, every further line that gives it is surfaced. */
  lemma {:induction false} FurtherAreSurfaced(lines: seq<Text>, key: Text, b: Block, i: nat)
    requires Plainly(key) && key in b.fm && i < |lines| && Gives(lines[i], key)
    ensures lines[i] in Parsed(lines, b).unparsed
    decreases |lines|
  {
    var step := StepAt(lines);
    var rest, next := lines[step.used..], After(b, step.effect);
    StepGives(lines, key);
    UnparsedGrows(rest, next);
    if i == 0 {
      assert next.unparsed[|b.unparsed|] == lines[0];
    } else {
      assert i >= step.used && rest[i - step.used] == lines[i];
      FurtherAreSurfaced(rest, key, next, i - step.used);
    }
  }

  /** A line behind the first step stands where it stood. */
  lemma {:induction false} BehindStep(lines: seq<Text>, key: Text, i: nat)
    requires Plainly(key) && 0 < i < |lines| && Gives(lines[i], key)
    ensures var used := StepAt(lines).used; used <= i && lines[used..][i - used] == lines[i]
  {
    StepGives(lines, key);
  }

  /** The first line gives the key: now the key has a value or the line is surfaced. */
  lemma {:induction false} FirstCounts(lines: seq<Text>, key: Text, b: Block)
    requires Plainly(key) && lines != [] && Gives(lines[0], key)
    ensures key in After(b, StepAt(lines).effect).fm || lines[0] in Parsed(lines, b).unparsed
  {
    var step := StepAt(lines);
    var next := After(b, step.effect);
    StepGives(lines, key);
    UnparsedGrows(lines[step.used..], next);
    if key !in next.fm {
      assert next.unparsed[|b.unparsed|] == lines[0];
    }
  }

  lemma {:induction false} LaterIsSurfaced(lines: seq<Text>, key: Text, b: Block, j: nat)
    requires Plainly(key) && 0 < j < |lines| && Gives(lines[0], key) && Gives(lines[j], key)
    ensures lines[0] in Parsed(lines, b).unparsed || lines[j] in Parsed(lines, b).unparsed
  {
    var used, next := StepAt(lines).used, After(b, StepAt(lines).effect);
    FirstCounts(lines, key, b);
    if key in next.fm {
      BehindStep(lines, key, j);
      FurtherAreSurfaced(lines[used..], key, next, j - used);
    }
  }

  lemma {:induction false} OneIsSurfaced(lines: seq<Text>, key: Text, b: Block, i: nat, j: nat)
    requires Plainly(key) && i < j < |lines| && Gives(lines[i], key) && Gives(lines[j], key)
    ensures lines[i] in Parsed(lines, b).unparsed || lines[j] in Parsed(lines, b).unparsed
    decreases |lines|
  {
    if i == 0 {
      LaterIsSurfaced(lines, key, b, j);
    } else {
      var used, next := StepAt(lines).used, After(b, StepAt(lines).effect);
      BehindStep(lines, key, i);
      BehindStep(lines, key, j);
      OneIsSurfaced(lines[used..], key, next, i - used, j - used);
      ParsedStep(lines, StepAt(lines), b);
    }
  }

  lemma {:induction false} AssignedIsGiven(lines: seq<Text>, key: Text, b: Block)
    requires Plainly(key) && key !in b.fm && key in Parsed(lines, b).fm
    ensures exists i :: 0 <= i < |lines| && Gives(lines[i], key)
    decreases |lines|
  {
    var step := StepAt(lines);
    var rest, next := lines[step.used..], After(b, step.effect);
    StepGives(lines, key);
    if key !in next.fm {
      AssignedIsGiven(rest, key, next);
      var i :| 0 <= i < |rest| && Gives(rest[i], key);
      assert lines[step.used + i] == rest[i];
    }
  }

  lemma {:induction false} KeyHasNoColon(line: Text)
    ensures COLON !in line[..KeyRun(line)]
    decreases |line|
  {
    if line != [] && KeyChar(line[0]) {
      KeyHasNoColon(line[1..]);
      assert line[..KeyRun(line)] == [line[0]] + line[1..][..KeyRun(line[1..])];
    }
  }

  lemma {:induction false} UpToColonOf(key: Text, rest: Text)
    requires COLON !in key
    ensures UpToColon(key + [COLON] + rest) == key
    decreases |key|
  {
    var line := key + [COLON] + rest;
    if key != [] {
      assert line[1..] == key[1..] + [COLON] + rest;
      UpToColonOf(key[1..], rest);
    }
  }

  lemma {:induction false} UpToColonIs(line: Text)
    requires KeyLine(line)
    ensures UpToColon(line) == KeyOf(line)
  {
    var n := KeyRun(line);
    KeyHasNoColon(line);
    UpToColonOf(line[..n], line[n + 1..]);
    assert line == line[..n] + [COLON] + line[n + 1..];
  }

  /** Exactly one line of the block gives the key. */
  ghost predicate GivenOnce(block: seq<Text>, key: Text) {
    && (exists i :: 0 <= i < |block| && Gives(block[i], key))
    && forall i, j :: 0 <= i < j < |block| ==> !(Gives(block[i], key) && Gives(block[j], key))
  }

  lemma {:induction false} KeyIsGivenOnce(content: Text, block: seq<Text>, body: seq<Text>, key: Text)
    requires Accepted(content) && ShapeOf(Split(Unix(content), NL)) == Fenced(block, body)
    requires key == NAME || key == DESCRIPTION
    ensures GivenOnce(block, key)
  {
    AssignedIsGiven(block, key, EMPTY);
    forall i, j | 0 <= i < j < |block| ensures !(Gives(block[i], key) && Gives(block[j], key)) {
      if Gives(block[i], key) && Gives(block[j], key) {
        OneIsSurfaced(block, key, EMPTY, i, j);
        UpToColonIs(block[i]);
        UpToColonIs(block[j]);
      }
    }
  }

  /** Content that passes the check has a block that gives the name once and the description once, so
      no reader can take another line for them. */
  lemma {:induction false} AcceptedIsUnambiguous(content: Text)
    requires Accepted(content)
    ensures var shape := ShapeOf(Split(Unix(content), NL));
            shape.Fenced? && GivenOnce(shape.block, NAME) && GivenOnce(shape.block, DESCRIPTION)
  {
    var shape := ShapeOf(Split(Unix(content), NL));
    KeyIsGivenOnce(content, shape.block, shape.body, NAME);
    KeyIsGivenOnce(content, shape.block, shape.body, DESCRIPTION);
  }

  // ----- Names that come from JSON -----

  predicate Surrogate(c: CodePoint) {
    High(c) || Low(c)
  }

  ghost predicate NoSurrogates(s: Text) {
    forall i :: 0 <= i < |s| ==> !Surrogate(s[i])
  }

  lemma {:induction false} UnescapeHasNoPair(s: Text)
    requires NoSurrogates(s) && Unescape(s).Some?
    ensures !HasPair(Unescape(s).value)
    decreases |s|
  {
    if s[0] != QUOTE {
      var used := UsedBy(s);
      var rest := s[used..];
      var tail, all := Unescape(rest).value, Unescape(s).value;
      UnescapeHasNoPair(rest);
      assert all == [all[0]] + tail;
      assert High(all[0]) ==> UnicodeAt(s, 0) && used == 6;
      assert used == 6 && UnicodeAt(rest, 0) ==> UnicodeAt(s, 6) && UnicodeValue(s, 6) == UnicodeValue(rest, 0);
      forall i: nat ensures !PairAt(all, i) {
        assert i > 0 ==> !PairAt(tail, i - 1);
      }
    }
  }

  /** How much of the text the first decoded character takes. */
  function UsedBy(s: Text): (n: nat)
    requires Unescape(s).Some? && s[0] != QUOTE
    ensures 0 < n <= |s| && Unescape(s[n..]).Some? && Unescape(s).value[1..] == Unescape(s[n..]).value
    ensures Unescape(s).value != []
  {
    if s[0] != JsonText.BACKSLASH then 1
    else if s[1] != JsonText.LOWER_U then 2
    else if High(UnicodeValue(s, 0)) && UnicodeAt(s, 6) && Low(UnicodeValue(s, 6)) then 12
    else 6
  }

  /** Names that come out of a JSON file without raw surrogates have no high surrogate before a low
      one, so they are always read back. */
  lemma {:induction false} LoadedNamesReadBack(token: Text)
    requires token != [] && token[0] == QUOTE && NoSurrogates(token) && Loads(token).Some?
    ensures !HasPair(Loads(token).value)
  {
    UnescapeHasNoPair(token[1..]);
  }

  /** A task as the offline build makes it: a skill's content is its source under its name, checked. */
  ghost predicate BuiltFromSource(t: Task, source: SkillSource) {
    && t.built.Some? && t.built.value.SkillCreate?
    && SkillContent(source, t.name) == Content(t.built.value.content)
    && Accepted(t.built.value.content)
  }

  ghost predicate AllBuilt(tasks: seq<Task>) {
    forall t :: t in tasks ==>
      WellBuilt(t) && (t.built.Some? && t.built.value.SkillCreate? ==> exists source :: BuiltFromSource(t, source))
  }

  /** A skill's name is one that is read back: it has no surrogate pair, or did not have to be written. */
  ghost predicate SafelyNamed(t: Task) {
    !HasPair(t.name)
    || exists content :: BuiltFromSource(t, Original(content)) && Named(content, t.name)
  }

  lemma {:induction false} BuiltReadsBack(t: Task, source: SkillSource)
    requires BuiltFromSource(t, source)
    ensures ReadsBack(t) <==> SafelyNamed(t)
  {
    AcceptedNameExactly(source, t.name);
    if content :| BuiltFromSource(t, Original(content)) && Named(content, t.name) {
      AcceptedNameExactly(Original(content), t.name);
    }
    if ReadsBack(t) && HasPair(t.name) {
      assert source == Original(source.content) && BuiltFromSource(t, Original(source.content));
    }
  }

  /** The no-op promise for plans as they are built: every skill comes from some source under its name
      and passed the check. A second run is then a no-op whenever every skill is safely named, as all
      names that come from JSON are; and the plan is sound in no other case. */
  lemma {:induction false} BuiltPlanTwice(order: Listing, inst: Instance, tasks: seq<Task>)
    requires Stable(order) && AllBuilt(tasks)
    ensures Sound(tasks)
       <==> forall t :: t in tasks && t.built.Some? && t.built.value.SkillCreate? ==> SafelyNamed(t)
    ensures Sound(tasks) ==>
              var none := Clean(|Planned(tasks)|);
              Applied(order, Applied(order, inst, tasks, none), tasks, none) == Applied(order, inst, tasks, none)
  {
    forall t | t in tasks && t.built.Some? && t.built.value.SkillCreate? ensures ReadsBack(t) <==> SafelyNamed(t) {
      var source :| BuiltFromSource(t, source);
      BuiltReadsBack(t, source);
    }
    if Sound(tasks) {
      ApplyTwice(order, inst, tasks);
    }
  }
}
