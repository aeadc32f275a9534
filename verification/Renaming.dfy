/** What set_name promises, and exactly when it keeps it (migration-kit/scripts/frontmatter.py:222-262). */
module Renaming {
  import opened Surrogates
  import opened PyText
  import opened PyJson
  import opened Frontmatter
  import opened FrontmatterLaws
  import opened StrayFences

  // ----- A document that was fenced -----

  ghost predicate Stays(c: Text, r: Text) {
    AgreeBut(Parse(c).fm, Parse(r).fm) && Parse(r).body == Parse(c).body
  }

  lemma {:induction false} DocumentLines(block: seq<Text>, body: seq<Text>)
    ensures AreLines(Document(block, body)) <==> AreLines(block) && AreLines(body)
  {
    var lines := Document(block, body);
    assert forall i :: 0 <= i < |block| ==> lines[i + 1] == block[i];
    assert forall i :: 0 <= i < |body| ==> lines[i + |block| + 2] == body[i];
    assert NoNl(FENCE);
  }

  lemma {:induction false} WrittenDocument(c: Text, name: Text, block: seq<Text>, body: seq<Text>)
    requires ShapeOf(Split(Unix(c), NL)) == Fenced(block, body) && Rewritten(c, name).Content?
    ensures Rewritten(c, name).text == Join(Document(RenamedBlock(block, name), body))
    ensures FirstName(block) < |block| ==> !Unrewritable(RestOf(block[FirstName(block)]))
    ensures AreLines(block) && AreLines(body) && FENCE !in block
    ensures AreLines(Document(RenamedBlock(block, name), body))
  {
    JoinSplit(Unix(c));
    assert Split(Unix(c), NL) == Document(block, body);
    DocumentLines(block, body);
    RenamedFences(block, name);
    DocumentLines(RenamedBlock(block, name), body);
  }

  /** Without a stray fence: everything but the body is as promised, and the body loses what
      carriage returns it still had. */
  lemma {:induction false} RenamedClean(c: Text, name: Text, block: seq<Text>, body: seq<Text>)
    requires ShapeOf(Split(Unix(c), NL)) == Fenced(block, body) && Rewritten(c, name).Content?
    requires NoStray(block)
    ensures var r := Rewritten(c, name).text;
            && NAME in Parse(r).fm && Parse(r).fm[NAME] == Scalar(Joined(name))
            && AgreeBut(Parse(c).fm, Parse(r).fm)
            && (Parse(r).body == Parse(c).body <==> !HasCrLf(Join(body)))
  {
    var b := RenamedBlock(block, name);
    WrittenDocument(c, name, block, body);
    RenamedFences(block, name);
    CleanShape(b, body);
    RenamedKeys(block, name);
    ParsedCropped(b, EMPTY, EMPTY);
    UnixJoin(body);
    DropNlsUnix(Join(body));
  }

  lemma {:induction false} FenceInJoin(lines: seq<Text>)
    ensures exists i: nat :: i < |Join(lines + [FENCE])| && Join(lines + [FENCE])[i] == DASH
  {
    if lines != [] {
      JoinAppend(lines, [FENCE]);
      assert Join(lines + [FENCE])[|Join(lines)| + 1] == DASH;
    } else {
      assert lines + [FENCE] == [FENCE];
      assert Join([FENCE])[0] == DASH;
    }
  }

  /** A body that takes in a fence is another body. */
  lemma {:induction false} BodyGrows(more: seq<Text>, body: seq<Text>)
    requires AreLines(body)
    ensures DropNls(Join(more + [FENCE] + Trimmed(body))) != DropNls(Join(body))
  {
    FenceInJoin(more);
    var head, b := Join(more + [FENCE]), Join(body);
    var i: nat :| i < |head| && head[i] == DASH;
    if body == [] {
      DropNlsStops(head, i, []);
      assert more + [FENCE] + Trimmed(body) == more + [FENCE];
    } else {
      JoinAppend(more + [FENCE], Trimmed(body));
      UnixJoin(body);
      DropNlsStops(head, i, Unix(b));
      NlsUnix(b);
      NlsDropNls(b);
    }
  }

  ghost function FirstStray(lines: seq<Text>): (j: nat)
    requires !NoStray(lines)
    ensures j < |lines| && Stray(lines[j]) && NoStray(lines[..j])
    decreases |lines|
  {
    if Stray(lines[0]) then 0
    else
      var j := FirstStray(lines[1..]);
      1 + j
  }

  lemma {:induction false} StrayText(pre: seq<Text>, post: seq<Text>, body: seq<Text>)
    requires AreLines(Document(pre + [FENCE + [CR]] + post, body)) && AreLines(body)
    requires FENCE !in pre && NoStray(pre)
    ensures var r := Join(Document(pre + [FENCE + [CR]] + post, body));
            && Parse(r).body != DropNls(Join(body))
            && Parse(r).fm == Parsed(pre, EMPTY).fm
            && ShapeOf(Split(Unix(r), NL)).Fenced?
            && ShapeOf(Split(Unix(r), NL)).block == Cropped(pre)
  {
    var r := Join(Document(pre + [FENCE + [CR]] + post, body));
    StrayShape(pre, post, body);
    ParsedCropped(pre, EMPTY, EMPTY);
    BodyGrows(Cropped(post), body);
  }

  lemma {:induction false} StrayRename(
      c: Text, r: Text, block: seq<Text>, body: seq<Text>, pre: seq<Text>, post: seq<Text>)
    requires ShapeOf(Split(Unix(c), NL)) == Fenced(block, body)
    requires AreLines(Document(pre + [FENCE + [CR]] + post, body)) && AreLines(body)
    requires FENCE !in pre && NoStray(pre)
    requires r == Join(Document(pre + [FENCE + [CR]] + post, body))
    ensures && Parse(r).body != Parse(c).body
            && Parse(r).fm == Parsed(pre, EMPTY).fm
            && ShapeOf(Split(Unix(r), NL)).Fenced?
            && ShapeOf(Split(Unix(r), NL)).block == Cropped(pre)
  {
    StrayText(pre, post, body);
  }

  lemma {:induction false} AroundStray(b: seq<Text>, j: nat)
    requires j < |b| && Stray(b[j]) && FENCE !in b
    ensures b == b[..j] + [FENCE + [CR]] + b[j + 1..] && FENCE !in b[..j]
  {
  }

  /** With a stray fence, the body changes; the keys are those in front of it. */
  lemma {:induction false} RenamedStray(c: Text, name: Text, block: seq<Text>, body: seq<Text>, j: nat)
    requires ShapeOf(Split(Unix(c), NL)) == Fenced(block, body) && Rewritten(c, name).Content?
    requires j < |RenamedBlock(block, name)| && Stray(RenamedBlock(block, name)[j])
    requires NoStray(RenamedBlock(block, name)[..j])
    ensures var r := Rewritten(c, name).text;
            && Parse(r).body != Parse(c).body
            && Parse(r).fm == Parsed(RenamedBlock(block, name)[..j], EMPTY).fm
            && ShapeOf(Split(Unix(r), NL)).Fenced?
            && ShapeOf(Split(Unix(r), NL)).block == Cropped(RenamedBlock(block, name)[..j])
  {
    var b, r := RenamedBlock(block, name), Rewritten(c, name).text;
    WrittenDocument(c, name, block, body);
    RenamedFences(block, name);
    AroundStray(b, j);
    StrayRename(c, r, block, body, b[..j], b[j + 1..]);
  }

  /** Where a stray fence in front of the name line shows up. */
  lemma {:induction false} StrayAgainstName(block: seq<Text>, name: Text, j: nat)
    requires FENCE !in block && AreLines(block)
    requires j < |RenamedBlock(block, name)| && Stray(RenamedBlock(block, name)[j])
    requires NoStray(RenamedBlock(block, name)[..j])
    ensures NoStray(Before(block)) <==> j > NameAt(block)
    ensures j <= NameAt(block) ==> Nameless(RenamedBlock(block, name)[..j])
    ensures j > NameAt(block) ==>
              exists post :: RenamedBlock(block, name)[..j] == Before(block) + ([NameLineFor(name)] + post)
  {
    RenamedParts(block, name);
    NameLineHolds(name);
    StrayAround(Before(block), NameLineFor(name), Behind(block), RenamedBlock(block, name), j);
  }

  lemma {:induction false} StrayAround(pre: seq<Text>, line: Text, post: seq<Text>, b: seq<Text>, j: nat)
    requires b == pre + ([line] + post) && HoldsName(line) && Nameless(pre)
    requires j < |b| && Stray(b[j]) && NoStray(b[..j])
    ensures NoStray(pre) <==> j > |pre|
    ensures j <= |pre| ==> Nameless(b[..j])
    ensures j > |pre| ==> exists rest :: b[..j] == pre + ([line] + rest)
  {
    var k := |pre|;
    assert b[k] == line && line[0] != DASH by {
      assert line[..4] == NAME;
      assert line[0] == NAME[0];
    }
    assert j != k;
    if j < k {
      assert b[j] == pre[j] && b[..j] == pre[..j];
    } else {
      assert forall i :: 0 <= i < k ==> pre[i] == b[..j][i];
      assert b[..j] == pre + ([line] + b[k + 1..j]);
    }
  }

  /** Some name is read back exactly when no stray fence stands before its line; it is then the one
      written, with its surrogate pairs joined. */
  lemma {:induction false} NameThereExactlyWhen(c: Text, name: Text, block: seq<Text>, body: seq<Text>)
    requires ShapeOf(Split(Unix(c), NL)) == Fenced(block, body) && Rewritten(c, name).Content?
    ensures NAME in Parse(Rewritten(c, name).text).fm <==> NoStray(Before(block))
    ensures NoStray(Before(block)) ==> Named(Rewritten(c, name).text, Joined(name))
  {
    WrittenDocument(c, name, block, body);
    RenamedFences(block, name);
    if NoStray(block) {
      RenamedClean(c, name, block, body);
    } else {
      var b := RenamedBlock(block, name);
      var j := FirstStray(b);
      RenamedStray(c, name, block, body, j);
      StrayAgainstName(block, name, j);
      RenamedParts(block, name);
      if j > NameAt(block) {
        var post :| b[..j] == Before(block) + ([NameLineFor(name)] + post);
        NameRead(Before(block), name, post);
      } else {
        NamelessParse(b[..j], EMPTY);
      }
    }
  }

  /** The new name is read back exactly when no stray fence stands before its line and no high
      surrogate in it before a low one. */
  lemma {:induction false} NameReadExactlyWhen(c: Text, name: Text, block: seq<Text>, body: seq<Text>)
    requires ShapeOf(Split(Unix(c), NL)) == Fenced(block, body) && Rewritten(c, name).Content?
    ensures Named(Rewritten(c, name).text, name) <==> !HasPair(name) && NoStray(Before(block))
  {
    JoinedIsSame(name);
    NameThereExactlyWhen(c, name, block, body);
  }

  /** Renaming a fenced document keeps all it promises exactly when the name has no surrogate pair
      and one normalisation left neither a stray fence in the block nor a "\r\n" in the body. */
  lemma {:induction false} RenameExactlyWhen(c: Text, name: Text, block: seq<Text>, body: seq<Text>)
    requires ShapeOf(Split(Unix(c), NL)) == Fenced(block, body)
    requires !Named(c, name) && SetName(c, name).Content?
    ensures var r := SetName(c, name).text;
            Named(r, name) && Stays(c, r) <==> !HasPair(name) && NoStray(block) && !HasCrLf(Join(body))
  {
    NameReadExactlyWhen(c, name, block, body);
    if NoStray(block) {
      RenamedClean(c, name, block, body);
    } else {
      WrittenDocument(c, name, block, body);
      RenamedFences(block, name);
      var j := FirstStray(RenamedBlock(block, name));
      RenamedStray(c, name, block, body, j);
    }
  }

  // ----- A document that was not -----

  lemma {:induction false} PlainLines(c: Text, name: Text)
    ensures Unix(FENCE + [NL] + NameLineFor(name) + [NL] + FENCE + [NL] + c)
         == Join(Document([NameLineFor(name)], Split(Unix(c), NL)))
    ensures ShapeOf(Split(Unix(FENCE + [NL] + NameLineFor(name) + [NL] + FENCE + [NL] + c), NL))
         == Fenced([NameLineFor(name)], Split(Unix(c), NL))
  {
    var line, u := NameLineFor(name), Unix(c);
    NameLineHolds(name);
    var fromFence := FENCE + [NL] + c;
    var fromLine := line + [NL] + fromFence;
    var r := FENCE + [NL] + line + [NL] + FENCE + [NL] + c;
    assert r == FENCE + [NL] + fromLine;
    UnixLine(FENCE, fromLine);
    UnixLine(line, fromFence);
    UnixLine(FENCE, c);
    assert DropCr(FENCE) == FENCE;
    var tail := line + [NL] + (FENCE + [NL] + u);
    assert Unix(r) == FENCE + [NL] + tail;
    SplitLine(FENCE, tail);
    SplitLine(line, FENCE + [NL] + u);
    SplitLine(FENCE, u);
    assert Split(Unix(r), NL) == Document([line], Split(u, NL));
    JoinSplit(Unix(r));
    ShapeIs([line], Split(u, NL));
  }

  lemma {:induction false} OneLineBlock(name: Text)
    ensures Parsed([NameLineFor(name)], EMPTY) == Block(map[NAME := Scalar(Joined(name))], [])
  {
    var none: seq<Text> := [];
    NewNameStep(name, none, EMPTY);
    assert [NameLineFor(name)] + none == [NameLineFor(name)];
  }

  /** A document without frontmatter gets a block of one line in front; all of it becomes the body. */
  lemma {:induction false} RenamePlain(c: Text, name: Text)
    requires ShapeOf(Split(Unix(c), NL)) == Plain
    ensures SetName(c, name).Content?
    ensures Parse(SetName(c, name).text) == Doc(map[NAME := Scalar(Joined(name))], DropNls(Unix(c)), [])
    ensures Named(SetName(c, name).text, name) <==> !HasPair(name)
    ensures Parse(c) == Doc(map[], Unix(c), [])
  {
    PlainLines(c, name);
    JoinSplit(Unix(c));
    OneLineBlock(name);
    JoinedIsSame(name);
  }

  // ----- Renaming twice -----

  /** Whether a stray fence stands where the name line is looked for. */
  ghost predicate NameInReach(c: Text) {
    var shape := ShapeOf(Split(Unix(c), NL));
    shape.Fenced? ==> NoStray(Before(shape.block))
  }

  lemma {:induction false} RewriteOwn(r: Text, name: Text, block: seq<Text>, body: seq<Text>)
    requires ShapeOf(Split(Unix(r), NL)) == Fenced(block, body)
    requires FirstName(block) < |block| && block[FirstName(block)] == NameLineFor(name)
    ensures Rewritten(r, name) == Content(Unix(r))
  {
    NameLineHolds(name);
    assert !Unrewritable(Dumps(name));
    assert RenamedBlock(block, name) == block;
    JoinSplit(Unix(r));
    assert Split(Unix(r), NL) == Document(block, body);
  }

  lemma {:induction false} NlsJoin(lines: seq<Text>)
    requires lines != [] && AreLines(lines)
    ensures Nls(Join(lines)) == |lines| - 1
    decreases |lines|
  {
    NlsLine(lines[0]);
    if |lines| > 1 {
      NlsJoin(lines[1..]);
      NlsAppend(lines[0], [NL] + Join(lines[1..]));
      assert Join(lines) == lines[0] + ([NL] + Join(lines[1..]));
      NlsAppend([NL], Join(lines[1..]));
    }
  }

  lemma {:induction false} NlsLine(line: Text)
    requires NoNl(line)
    ensures Nls(line) == 0
    decreases |line|
  {
    if line != [] {
      NlsLine(line[1..]);
    }
  }

  /** A rename that finds no name line makes the document longer. */
  lemma {:induction false} InsertGrows(r: Text, name: Text, block: seq<Text>, body: seq<Text>)
    requires ShapeOf(Split(Unix(r), NL)) == Fenced(block, body) && FirstName(block) == |block|
    ensures Rewritten(r, name) != Content(r)
  {
    JoinSplit(Unix(r));
    var lines := Split(Unix(r), NL);
    assert lines == Document(block, body);
    DocumentLines(block, body);
    RenamedFences(block, name);
    DocumentLines(RenamedBlock(block, name), body);
    NlsJoin(Document(RenamedBlock(block, name), body));
    NlsJoin(lines);
    NlsUnix(r);
  }

  lemma {:induction false} FirstNameAt(pre: seq<Text>, line: Text, post: seq<Text>)
    requires Nameless(pre) && HoldsName(line)
    ensures FirstName(pre + ([line] + post)) == |pre|
  {
    var all := pre + ([line] + post);
    assert all[|pre|] == line;
    assert forall i :: 0 <= i < |pre| ==> all[i] == pre[i];
  }

  lemma {:induction false} NamelessCropped(lines: seq<Text>)
    requires Nameless(lines)
    ensures Nameless(Cropped(lines))
  {
    forall i | 0 <= i < |lines| ensures !HoldsName(Cropped(lines)[i]) {
      KeyLineDropCr(lines[i]);
      if HoldsName(DropCr(lines[i])) {
        assert DropCr(lines[i])[0] == lines[i][0];
      }
    }
  }

  /** Where a second rename finds the line that the first one wrote. */
  lemma {:induction false} CroppedName(pre: seq<Text>, name: Text, post: seq<Text>)
    requires Nameless(pre)
    ensures var b := Cropped(pre + ([NameLineFor(name)] + post));
            FirstName(b) == |pre| < |b| && b[|pre|] == NameLineFor(name)
  {
    NameLineHolds(name);
    NamelessCropped(pre);
    FirstNameAt(Cropped(pre), NameLineFor(name), Cropped(post));
    assert Cropped(pre + ([NameLineFor(name)] + post)) == Cropped(pre) + ([NameLineFor(name)] + Cropped(post));
  }

  /** The block that a second rename works on, where a stray fence stands in the one written. */
  lemma {:induction false} SecondBlockCut(c: Text, name: Text, block: seq<Text>, body: seq<Text>)
    requires ShapeOf(Split(Unix(c), NL)) == Fenced(block, body) && Rewritten(c, name).Content?
    requires !NoStray(block)
    ensures var shape := ShapeOf(Split(Unix(Rewritten(c, name).text), NL));
            && shape.Fenced?
            && (NoStray(Before(block)) ==>
                  FirstName(shape.block) < |shape.block|
                  && shape.block[FirstName(shape.block)] == NameLineFor(name))
            && (!NoStray(Before(block)) ==> FirstName(shape.block) == |shape.block|)
  {
    var b := RenamedBlock(block, name);
    WrittenDocument(c, name, block, body);
    RenamedFences(block, name);
    RenamedParts(block, name);
    var j := FirstStray(b);
    RenamedStray(c, name, block, body, j);
    StrayAgainstName(block, name, j);
    CutBlock(Before(block), name, b[..j], NoStray(Before(block)));
  }

  /** The block that a second rename works on. */
  lemma {:induction false} SecondBlock(c: Text, name: Text, block: seq<Text>, body: seq<Text>)
    requires ShapeOf(Split(Unix(c), NL)) == Fenced(block, body) && Rewritten(c, name).Content?
    ensures var shape := ShapeOf(Split(Unix(Rewritten(c, name).text), NL));
            && shape.Fenced?
            && (NoStray(Before(block)) ==>
                  FirstName(shape.block) < |shape.block|
                  && shape.block[FirstName(shape.block)] == NameLineFor(name))
            && (!NoStray(Before(block)) ==> FirstName(shape.block) == |shape.block|)
  {
    if NoStray(block) {
      WrittenDocument(c, name, block, body);
      RenamedFences(block, name);
      RenamedParts(block, name);
      CleanShape(RenamedBlock(block, name), body);
      CroppedName(Before(block), name, Behind(block));
    } else {
      SecondBlockCut(c, name, block, body);
    }
  }

  lemma {:induction false} CutBlock(pre: seq<Text>, name: Text, b: seq<Text>, reached: bool)
    requires Nameless(pre)
    requires reached ==> exists post :: b == pre + ([NameLineFor(name)] + post)
    requires !reached ==> Nameless(b)
    ensures reached ==> FirstName(Cropped(b)) < |Cropped(b)| && Cropped(b)[FirstName(Cropped(b))] == NameLineFor(name)
    ensures !reached ==> FirstName(Cropped(b)) == |Cropped(b)|
  {
    if reached {
      var post :| b == pre + ([NameLineFor(name)] + post);
      CroppedName(pre, name, post);
    } else {
      NamelessCropped(b);
    }
  }

  lemma {:induction false} RewriteTwice(c: Text, name: Text)
    requires Rewritten(c, name).Content?
    ensures var r := Rewritten(c, name).text;
            Rewritten(r, name) == Content(r) <==> NameInReach(c) && !HasCrLf(r)
  {
    var r := Rewritten(c, name).text;
    UnixLength(r);
    match ShapeOf(Split(Unix(c), NL))
    case Plain =>
      PlainLines(c, name);
      NameLineHolds(name);
      RewriteOwn(r, name, [NameLineFor(name)], Split(Unix(c), NL));
    case Fenced(block, body) =>
      SecondBlock(c, name, block, body);
      var shape := ShapeOf(Split(Unix(r), NL));
      if NoStray(Before(block)) {
        RewriteOwn(r, name, shape.block, shape.body);
      } else {
        InsertGrows(r, name, shape.block, shape.body);
      }
  }

  /** Nothing is left to normalise in a document whose name line is replaced: without frontmatter, no
      "\r\n"; with it, after one normalisation, no line but the name's and the document's last that
      still ends in a carriage return. */
  ghost predicate Normalised(c: Text) {
    match ShapeOf(Split(Unix(c), NL))
    case Plain => !HasCrLf(c)
    case Fenced(block, body) =>
      (forall i :: 0 <= i < |block| && i != FirstName(block) ==> !EndsInCr(block[i])) && CleanLines(body)
  }

  lemma {:induction false} NoCrInFront(front: Text, c: Text)
    requires forall i :: 0 <= i < |front| ==> front[i] != CR
    ensures HasCrLf(front + c) <==> HasCrLf(c)
  {
    assert !HasCrLf(front);
    UnixLength(front);
    UnixAppend(front, c);
    UnixLength(front + c);
    UnixLength(c);
  }

  lemma {:induction false} NameLineHasNoCr(name: Text)
    ensures forall i :: 0 <= i < |NameLineFor(name)| ==> NameLineFor(name)[i] != CR
  {
    NameLineHolds(name);
    NameAndDescriptionAreKeys();
    PrintedOneLine(NAME, name);
  }

  lemma {:induction false} PlainWrittenCr(c: Text, name: Text)
    requires ShapeOf(Split(Unix(c), NL)) == Plain
    ensures HasCrLf(Rewritten(c, name).text) <==> HasCrLf(c)
  {
    var front := FENCE + [NL] + NameLineFor(name) + [NL] + FENCE + [NL];
    NameLineHasNoCr(name);
    NoCrInFront(front, c);
  }

  lemma {:induction false} CleanDocumentExactly(block: seq<Text>, body: seq<Text>)
    ensures CleanLines(Document(block, body))
       <==> (forall i :: 0 <= i < |block| ==> !EndsInCr(block[i])) && CleanLines(body)
  {
    var lines := Document(block, body);
    if CleanLines(lines) {
      forall i | 0 <= i < |block| ensures !EndsInCr(block[i]) {
        assert lines[i + 1] == block[i];
      }
      CleanDocument(block, body);
    }
    if (forall i :: 0 <= i < |block| ==> !EndsInCr(block[i])) && CleanLines(body) {
      forall m | 0 <= m < |lines| - 1 ensures lines[m] == [] || lines[m][|lines[m]| - 1] != CR {
        if 1 <= m <= |block| {
          assert lines[m] == block[m - 1];
        } else if m > |block| + 1 {
          assert lines[m] == body[m - |block| - 2];
        }
      }
    }
  }

  lemma {:induction false} RenamedCr(block: seq<Text>, name: Text)
    ensures (forall i :: 0 <= i < |RenamedBlock(block, name)| ==> !EndsInCr(RenamedBlock(block, name)[i]))
       <==> forall i :: 0 <= i < |block| && i != FirstName(block) ==> !EndsInCr(block[i])
  {
    NameLineHolds(name);
    var line, k, b := NameLineFor(name), FirstName(block), RenamedBlock(block, name);
    assert !EndsInCr(line);
    if k < |block| {
      assert b[k] == line && forall i :: 0 <= i < |block| && i != k ==> b[i] == block[i];
    } else {
      assert b[0] == line && forall i :: 0 <= i < |block| ==> b[i + 1] == block[i];
      assert forall i :: 1 <= i < |b| ==> b[i] == block[i - 1];
    }
  }

  lemma {:induction false} WrittenCr(c: Text, name: Text)
    requires Rewritten(c, name).Content?
    ensures HasCrLf(Rewritten(c, name).text) <==> !Normalised(c)
  {
    match ShapeOf(Split(Unix(c), NL))
    case Plain => PlainWrittenCr(c, name);
    case Fenced(block, body) =>
      WrittenDocument(c, name, block, body);
      CleanJoin(Document(RenamedBlock(block, name), body));
      CleanDocumentExactly(RenamedBlock(block, name), body);
      RenamedCr(block, name);
  }

  /** Renaming a second time to the same name changes nothing exactly when no stray fence hides the
      name line and, for a name with a surrogate pair, the document had nothing left to normalise. */
  lemma {:induction false} RenameTwice(c: Text, name: Text)
    requires !Named(c, name) && SetName(c, name).Content?
    ensures var r := SetName(c, name).text;
            SetName(r, name) == Content(r) <==> NameInReach(c) && (!HasPair(name) || Normalised(c))
  {
    RewriteTwice(c, name);
    WrittenCr(c, name);
    match ShapeOf(Split(Unix(c), NL))
    case Plain => RenamePlain(c, name);
    case Fenced(block, body) => NameReadExactlyWhen(c, name, block, body);
  }

  /** Naming the document "\r\n" with a surrogate pair: the second rename changes what the first wrote. */
  lemma {:induction false} PairIsRenamedTwice()
    ensures var c, name := [CR, NL], [0xD83D, 0xDE00];
            SetName(c, name).Content? && SetName(SetName(c, name).text, name) != Content(SetName(c, name).text)
  {
    var c: Text, name: Text := [CR, NL], [0xD83D, 0xDE00];
    assert CrLfAt(c, 0) && HasCrLf(c) && PairAt(name, 0) && HasPair(name);
    assert c[2..] == [] && Unix(c) == [NL];
    assert [NL][1..] == [] && Split([NL], NL)[0] == [];
    RenamePlain(c, name);
    RenameTwice(c, name);
  }

  /** The ordinary case, on any text without "\r\r\n" and any name without a surrogate pair: the
      rename is read back, moves no other key, keeps a fenced body, and repeating it does nothing. */
  lemma {:induction false} RenameOrdinary(c: Text, name: Text)
    requires !HasCrLf(Unix(c)) && !HasPair(name) && SetName(c, name).Content?
    ensures var r := SetName(c, name).text;
            && Named(r, name)
            && AgreeBut(Parse(c).fm, Parse(r).fm)
            && (ShapeOf(Split(Unix(c), NL)).Fenced? ==> Parse(r).body == Parse(c).body)
            && SetName(r, name) == Content(r)
  {
    if !Named(c, name) {
      match ShapeOf(Split(Unix(c), NL))
      case Plain => RenamePlain(c, name);
      case Fenced(block, body) =>
        OrdinaryLines(c, block, body);
        RenameExactlyWhen(c, name, block, body);
    }
  }

  lemma {:induction false} OrdinaryLines(c: Text, block: seq<Text>, body: seq<Text>)
    requires ShapeOf(Split(Unix(c), NL)) == Fenced(block, body) && !HasCrLf(Unix(c))
    ensures NoStray(block) && !HasCrLf(Join(body))
  {
    JoinSplit(Unix(c));
    CleanJoin(Split(Unix(c), NL));
    assert Split(Unix(c), NL) == Document(block, body);
    DocumentLines(block, body);
    CleanDocument(block, body);
    CleanJoin(body);
  }

  lemma {:induction false} CleanDocument(block: seq<Text>, body: seq<Text>)
    requires CleanLines(Document(block, body))
    ensures NoStray(block) && CleanLines(body)
  {
    var lines := Document(block, body);
    forall i | 0 <= i < |block| ensures !Stray(block[i]) {
      assert lines[i + 1] == block[i];
    }
    forall i | 0 <= i < |body| - 1 ensures body[i] == [] || body[i][|body[i]| - 1] != CR {
      assert lines[i + |block| + 2] == body[i];
    }
  }

  /** "---", a line that ends in two carriage returns, "---": renaming it swallows no line but moves
      the end of the frontmatter, so the body changes, for every name. */
  lemma {:induction false} DoubledReturnMovesTheFence(name: Text)
    ensures var c := Join([FENCE, FENCE + [CR, CR], FENCE, []]);
            SetName(c, name).Content? && !Stays(c, SetName(c, name).text)
  {
    var lines := [FENCE, FENCE + [CR, CR], FENCE, []];
    var c := Join(lines);
    var stray := FENCE + [CR];
    LinesOf(lines);
    assert Trimmed(lines) == [FENCE, stray, FENCE, []] by {
      assert DropCr(FENCE) == FENCE && DropCr(FENCE + [CR, CR]) == stray;
    }
    assert Document([stray], [[]]) == [FENCE, stray, FENCE, []];
    ShapeIs([stray], [[]]);
    assert Stray([stray][0]) && !NoStray([stray]);
    assert !KeyLine(stray) by {
      assert forall i :: 0 <= i < |stray| ==> stray[i] != COLON;
    }
    NamelessParse([stray], EMPTY);
    RenamedFences([stray], name);
    WrittenDocument(c, name, [stray], [[]]);
    var j := FirstStray(RenamedBlock([stray], name));
    RenamedStray(c, name, [stray], [[]], j);
  }
}
