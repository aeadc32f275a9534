/** What reading makes of a document that set_name wrote (migration-kit/scripts/frontmatter.py:236-262).
    Parsing normalises "\r\n" once and renaming once more, so a line that still ends in a carriage
    return after the first time may turn into a fence the second time. */
module StrayFences {
  import opened Surrogates
  import opened PyText
  import opened PyJson
  import opened Frontmatter
  import opened FrontmatterLaws

  /** A line that is a fence but for one carriage return. */
  predicate Stray(line: Text) {
    line == FENCE + [CR]
  }

  ghost predicate NoStray(lines: seq<Text>) {
    forall i :: 0 <= i < |lines| ==> !Stray(lines[i])
  }

  lemma {:induction false} FenceAfterDropCr(line: Text)
    requires line != FENCE
    ensures DropCr(line) == FENCE <==> Stray(line)
  {
    if EndsInCr(line) {
      assert line == DropCr(line) + [CR];
    }
    assert (FENCE + [CR])[..3] == FENCE;
  }

  lemma {:induction false} CroppedFences(block: seq<Text>)
    requires FENCE !in block && NoStray(block)
    ensures FENCE !in Cropped(block)
  {
    forall i | 0 <= i < |block| ensures DropCr(block[i]) != FENCE {
      FenceAfterDropCr(block[i]);
    }
  }

  lemma {:induction false} TrimmedParts(a: seq<Text>, c: seq<Text>)
    ensures Trimmed(a + [FENCE] + c) == Cropped(a) + [FENCE] + Trimmed(c)
  {
    var all := a + [FENCE] + c;
    assert DropCr(FENCE) == FENCE;
    if c == [] {
      assert all[..|all| - 1] == a && all[|all| - 1] == FENCE;
    } else {
      assert all[..|all| - 1] == a + [FENCE] + c[..|c| - 1];
      assert Cropped(all[..|all| - 1]) == Cropped(a) + [FENCE] + Cropped(c[..|c| - 1]);
    }
  }

  lemma {:induction false} LinesOf(lines: seq<Text>)
    requires lines != [] && AreLines(lines)
    ensures Split(Unix(Join(lines)), NL) == Trimmed(lines)
  {
    UnixJoin(lines);
    SplitJoin(Trimmed(lines));
  }

  function Document(block: seq<Text>, body: seq<Text>): seq<Text> {
    [FENCE] + block + [FENCE] + body
  }

  /** The shape a written document has when it is read again. */
  lemma {:induction false} CleanShape(block: seq<Text>, body: seq<Text>)
    requires AreLines(Document(block, body)) && FENCE !in block && NoStray(block)
    ensures ShapeOf(Split(Unix(Join(Document(block, body))), NL)) == Fenced(Cropped(block), Trimmed(body))
  {
    LinesOf(Document(block, body));
    var a := [FENCE] + block;
    TrimmedParts(a, body);
    assert Cropped(a) == [FENCE] + Cropped(block);
    CroppedFences(block);
    ShapeIs(Cropped(block), Trimmed(body));
  }

  lemma {:induction false} CroppedParts(pre: seq<Text>, post: seq<Text>)
    ensures Cropped(pre + [FENCE + [CR]] + post) == Cropped(pre) + [FENCE] + Cropped(post)
  {
    assert DropCr(FENCE + [CR]) == FENCE;
  }

  lemma {:induction false} StrayLines(pre: seq<Text>, post: seq<Text>, body: seq<Text>)
    ensures Trimmed(Document(pre + [FENCE + [CR]] + post, body))
         == Document(Cropped(pre), Cropped(post) + [FENCE] + Trimmed(body))
  {
    var stray := [FENCE + [CR]];
    DocumentHead(pre, stray, post, body);
    TrimmedParts([FENCE] + pre + stray + post, body);
    CroppedParts([FENCE] + pre, post);
    CroppedFirst(pre);
    DocumentHead(Cropped(pre), [FENCE], Cropped(post), Trimmed(body));
    DocumentTail(Cropped(pre), Cropped(post), Trimmed(body));
  }

  lemma {:induction false} DocumentHead(pre: seq<Text>, middle: seq<Text>, post: seq<Text>, body: seq<Text>)
    ensures Document(pre + middle + post, body) == ([FENCE] + pre + middle + post) + [FENCE] + body
  {
  }

  lemma {:induction false} DocumentTail(pre: seq<Text>, post: seq<Text>, body: seq<Text>)
    ensures ([FENCE] + pre + [FENCE] + post) + [FENCE] + body == Document(pre, post + [FENCE] + body)
  {
  }

  lemma {:induction false} CroppedFirst(pre: seq<Text>)
    ensures Cropped([FENCE] + pre) == [FENCE] + Cropped(pre)
  {
    assert DropCr(FENCE) == FENCE;
  }

  lemma {:induction false} StrayShape(pre: seq<Text>, post: seq<Text>, body: seq<Text>)
    requires AreLines(Document(pre + [FENCE + [CR]] + post, body))
    requires FENCE !in pre && NoStray(pre)
    ensures ShapeOf(Split(Unix(Join(Document(pre + [FENCE + [CR]] + post, body))), NL))
         == Fenced(Cropped(pre), Cropped(post) + [FENCE] + Trimmed(body))
  {
    LinesOf(Document(pre + [FENCE + [CR]] + post, body));
    StrayLines(pre, post, body);
    CroppedFences(pre);
    ShapeIs(Cropped(pre), Cropped(post) + [FENCE] + Trimmed(body));
  }

  // ----- The parts of a renamed block -----

  function Before(block: seq<Text>): seq<Text> {
    block[..NameAt(block)]
  }

  function Behind(block: seq<Text>): seq<Text> {
    if FirstName(block) < |block| then block[FirstName(block) + 1..] else block
  }

  lemma {:induction false} RenamedParts(block: seq<Text>, name: Text)
    ensures RenamedBlock(block, name) == Before(block) + ([NameLineFor(name)] + Behind(block))
    ensures Nameless(Before(block))
  {
    Parts(block, FirstName(block), NameLineFor(name));
  }

  lemma {:induction false} Parts(block: seq<Text>, k: nat, line: Text)
    ensures k < |block| ==> block[k := line] == block[..k] + ([line] + block[k + 1..])
    ensures block[..0] + ([line] + block) == [line] + block
  {
  }

  /** A rename neither adds nor removes fences, stray or not. */
  lemma {:induction false} RenamedFences(block: seq<Text>, name: Text)
    requires FENCE !in block && AreLines(block)
    ensures FENCE !in RenamedBlock(block, name) && AreLines(RenamedBlock(block, name))
    ensures NoStray(RenamedBlock(block, name)) <==> NoStray(block)
  {
    NameLineHolds(name);
    var line, k, b := NameLineFor(name), FirstName(block), RenamedBlock(block, name);
    assert !Stray(line) by {
      assert line[0] == NAME[0];
    }
    if k < |block| {
      NameLineBounds(block[k]);
      FenceAfterDropCr(block[k]);
      assert forall i :: 0 <= i < |block| && i != k ==> b[i] == block[i];
      assert b[k] == line;
    } else {
      assert forall i :: 0 <= i < |block| ==> b[i + 1] == block[i];
      assert forall i :: 1 <= i < |b| ==> b[i] == block[i - 1];
      assert b[0] == line;
    }
  }

  lemma {:induction false} NameRead(pre: seq<Text>, name: Text, post: seq<Text>)
    requires Nameless(pre)
    ensures var fm := Parsed(pre + ([NameLineFor(name)] + post), EMPTY).fm;
            NAME in fm && fm[NAME] == Scalar(Joined(name))
  {
    NamelessParse(pre, EMPTY);
    NameLineHolds(name);
    NameLineBounds(NameLineFor(name));
    ParsedAppend(pre, [NameLineFor(name)] + post, EMPTY);
    NewNameStep(name, post, Parsed(pre, EMPTY));
  }
}
