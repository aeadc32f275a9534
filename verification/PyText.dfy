/** The Python string operations that migration-kit/scripts/frontmatter.py is built from, over
    strings of code points, lone surrogates included. */
module PyText {
  import opened Surrogates

  const NL: CodePoint := 0x0A
  const CR: CodePoint := 0x0D

  function Py(s: string): Text {
    seq(|s|, i requires 0 <= i < |s| => s[i] as int)
  }

  /** str.isspace for one character, which is also what strip removes and \s matches. */
  predicate Space(c: CodePoint) {
    || 0x09 <= c <= 0x0D || 0x1C <= c <= 0x20 || c == 0x85 || c == 0xA0 || c == 0x1680 || 0x2000 <= c <= 0x200A
    || c == 0x2028 || c == 0x2029 || c == 0x202F || c == 0x205F || c == 0x3000
  }

  function StripStart(s: Text): Text
    decreases |s|
  {
    if s != [] && Space(s[0]) then StripStart(s[1..]) else s
  }

  function StripEnd(s: Text): Text
    decreases |s|
  {
    if s != [] && Space(s[|s| - 1]) then StripEnd(s[..|s| - 1]) else s
  }

  function Strip(s: Text): Text {
    StripEnd(StripStart(s))
  }

  lemma {:induction false} StripKeepsTight(lead: CodePoint, s: Text)
    requires Space(lead) && s != [] && !Space(s[0]) && !Space(s[|s| - 1])
    ensures Strip([lead] + s) == s
    ensures Strip(s) == s
  {
    var all := [lead] + s;
    assert all[1..] == s && Space(all[0]);
    assert StripStart(all) == StripStart(s) == s;
    assert StripEnd(s) == s;
  }

  // ----- Lines -----

  function Split(s: Text, sep: CodePoint): (parts: seq<Text>)
    ensures parts != []
    decreases |s|
  {
    if s == [] then [[]]
    else
      var rest := Split(s[1..], sep);
      if s[0] == sep then [[]] + rest else [[s[0]] + rest[0]] + rest[1..]
  }

  function Join(lines: seq<Text>): Text
    decreases |lines|
  {
    if lines == [] then []
    else if |lines| == 1 then lines[0]
    else lines[0] + [NL] + Join(lines[1..])
  }

  ghost predicate NoNl(s: Text) {
    forall i :: 0 <= i < |s| ==> s[i] != NL
  }

  ghost predicate AreLines(lines: seq<Text>) {
    forall i :: 0 <= i < |lines| ==> NoNl(lines[i])
  }

  lemma {:induction false} JoinSplit(s: Text)
    ensures Join(Split(s, NL)) == s
    ensures AreLines(Split(s, NL))
    decreases |s|
  {
    if s != [] {
      JoinSplit(s[1..]);
      var rest := Split(s[1..], NL);
      assert NoNl(rest[0]);
      if s[0] != NL {
        assert Split(s, NL)[1..] == rest[1..];
      } else {
        assert Split(s, NL)[1..] == rest;
      }
    }
  }

  /** Splitting off a first line. */
  lemma {:induction false} SplitLine(line: Text, rest: Text)
    requires NoNl(line)
    ensures Split(line + [NL] + rest, NL) == [line] + Split(rest, NL)
    decreases |line|
  {
    var s := line + [NL] + rest;
    if line == [] {
      assert s[1..] == rest;
    } else {
      SplitLine(line[1..], rest);
      assert s[1..] == line[1..] + [NL] + rest;
      assert [line[0]] + line[1..] == line;
    }
  }

  lemma {:induction false} SplitWhole(line: Text)
    requires NoNl(line)
    ensures Split(line, NL) == [line]
    decreases |line|
  {
    if line != [] {
      SplitWhole(line[1..]);
      assert [line[0]] + line[1..] == line;
    }
  }

  lemma {:induction false} SplitJoin(lines: seq<Text>)
    requires lines != [] && AreLines(lines)
    ensures Split(Join(lines), NL) == lines
    decreases |lines|
  {
    if |lines| == 1 {
      SplitWhole(lines[0]);
      assert lines == [lines[0]];
    } else {
      SplitLine(lines[0], Join(lines[1..]));
      SplitJoin(lines[1..]);
      assert lines == [lines[0]] + lines[1..];
    }
  }

  // ----- text.replace("\r\n", "\n") -----

  predicate CrLfAt(s: Text, i: nat) {
    i + 1 < |s| && s[i] == CR && s[i + 1] == NL
  }

  ghost predicate HasCrLf(s: Text) {
    exists i: nat :: CrLfAt(s, i)
  }

  function Unix(s: Text): Text
    decreases |s|
  {
    if s == [] then []
    else if CrLfAt(s, 0) then [NL] + Unix(s[2..])
    else [s[0]] + Unix(s[1..])
  }

  lemma {:induction false} CrLfInTail(s: Text)
    requires s != []
    ensures HasCrLf(s) <==> CrLfAt(s, 0) || HasCrLf(s[1..])
  {
    if i: nat :| CrLfAt(s, i) {
      assert i > 0 ==> CrLfAt(s[1..], i - 1);
    }
    if i: nat :| CrLfAt(s[1..], i) {
      assert CrLfAt(s, i + 1);
    }
  }

  lemma {:induction false} UnixLength(s: Text)
    ensures |Unix(s)| <= |s|
    ensures |Unix(s)| == |s| <==> !HasCrLf(s)
    ensures !HasCrLf(s) ==> Unix(s) == s
    decreases |s|
  {
    if s != [] {
      CrLfInTail(s);
      if CrLfAt(s, 0) {
        UnixLength(s[2..]);
        assert HasCrLf(s);
      } else {
        UnixLength(s[1..]);
      }
    }
  }

  lemma {:induction false} UnixPair(s: Text)
    requires CrLfAt(s, 0)
    ensures Unix(s) == [NL] + Unix(s[2..])
  {
  }

  lemma {:induction false} UnixOther(s: Text)
    requires s != [] && !CrLfAt(s, 0)
    ensures Unix(s) == [s[0]] + Unix(s[1..])
  {
  }

  lemma {:induction false} UnixAppend(s: Text, rest: Text)
    requires s != [] ==> s[|s| - 1] != CR
    ensures Unix(s + rest) == Unix(s) + Unix(rest)
    decreases |s|
  {
    var all := s + rest;
    if s == [] {
      assert all == rest;
    } else if CrLfAt(s, 0) {
      UnixAppend(s[2..], rest);
      assert all[2..] == s[2..] + rest;
      UnixPair(all);
      UnixPair(s);
    } else {
      UnixAppend(s[1..], rest);
      assert all[1..] == s[1..] + rest;
      UnixOther(all);
      UnixOther(s);
    }
  }

  /** No line but the last ends in a carriage return. */
  ghost predicate CleanLines(lines: seq<Text>) {
    forall i :: 0 <= i < |lines| - 1 ==> lines[i] == [] || lines[i][|lines[i]| - 1] != CR
  }

  lemma {:induction false} NoCrLfInLine(line: Text)
    requires NoNl(line)
    ensures !HasCrLf(line)
  {
  }

  lemma {:induction false} CleanJoin(lines: seq<Text>)
    requires AreLines(lines)
    ensures HasCrLf(Join(lines)) <==> !CleanLines(lines)
    decreases |lines|
  {
    if |lines| == 1 {
      NoCrLfInLine(lines[0]);
    } else if |lines| > 1 {
      var line, rest, all := lines[0], Join(lines[1..]), Join(lines);
      CleanJoin(lines[1..]);
      assert all == line + ([NL] + rest);
      if HasCrLf(rest) {
        var i: nat :| CrLfAt(rest, i);
        assert all[|line| + 1 + i] == rest[i] && all[|line| + 1 + i + 1] == rest[i + 1];
        assert CrLfAt(all, |line| + 1 + i);
        var k :| 0 <= k < |lines[1..]| - 1 && !(lines[1..][k] == [] || lines[1..][k][|lines[1..][k]| - 1] != CR);
        assert lines[k + 1] == lines[1..][k];
      } else if line != [] && line[|line| - 1] == CR {
        assert CrLfAt(all, |line| - 1);
      } else {
        forall i: nat ensures !CrLfAt(all, i) {
          if i + 1 < |all| {
            if i + 1 < |line| {
              assert line[i + 1] != NL;
            } else if i == |line| - 1 {
              assert all[i] == line[i];
            } else if i > |line| {
              assert !CrLfAt(rest, i - |line| - 1);
            }
          }
        }
        forall i | 0 <= i < |lines| - 1 ensures lines[i] == [] || lines[i][|lines[i]| - 1] != CR {
          if i > 0 {
            assert lines[1..][i - 1] == lines[i];
          }
        }
      }
    }
  }

  // ----- What the replacement does to lines -----

  predicate EndsInCr(line: Text) {
    line != [] && line[|line| - 1] == CR
  }

  function DropCr(line: Text): Text {
    if EndsInCr(line) then line[..|line| - 1] else line
  }

  function Cropped(lines: seq<Text>): seq<Text> {
    seq(|lines|, i requires 0 <= i < |lines| => DropCr(lines[i]))
  }

  /** Every line but the last loses a final carriage return. */
  function Trimmed(lines: seq<Text>): seq<Text> {
    if lines == [] then [] else Cropped(lines[..|lines| - 1]) + [lines[|lines| - 1]]
  }

  lemma {:induction false} UnixLine(line: Text, rest: Text)
    requires NoNl(line)
    ensures Unix(line + [NL] + rest) == DropCr(line) + [NL] + Unix(rest)
    decreases |line|
  {
    var all := line + [NL] + rest;
    if line == [] {
      assert all == [NL] + rest;
      UnixOther(all);
    } else if line == [CR] {
      assert CrLfAt(all, 0) && all[2..] == rest;
      UnixPair(all);
    } else {
      assert !CrLfAt(all, 0) && all[1..] == line[1..] + [NL] + rest;
      UnixLine(line[1..], rest);
      UnixOther(all);
      assert DropCr(line) == [line[0]] + DropCr(line[1..]);
    }
  }

  lemma {:induction false} TrimmedFront(lines: seq<Text>)
    requires |lines| > 1
    ensures Trimmed(lines) == [DropCr(lines[0])] + Trimmed(lines[1..])
  {
    var n := |lines| - 1;
    assert lines[1..][..n - 1] == lines[..n][1..];
    assert Cropped(lines[..n]) == [DropCr(lines[0])] + Cropped(lines[1..][..n - 1]);
  }

  lemma {:induction false} JoinTrimmed(lines: seq<Text>)
    requires |lines| > 1
    ensures Join(Trimmed(lines)) == DropCr(lines[0]) + [NL] + Join(Trimmed(lines[1..]))
  {
    TrimmedFront(lines);
  }

  lemma {:induction false} UnixJoin(lines: seq<Text>)
    requires AreLines(lines)
    ensures Unix(Join(lines)) == Join(Trimmed(lines))
    decreases |lines|
  {
    if |lines| == 1 {
      NoCrLfInLine(lines[0]);
      UnixLength(lines[0]);
    } else if |lines| > 1 {
      UnixLine(lines[0], Join(lines[1..]));
      UnixJoin(lines[1..]);
      JoinTrimmed(lines);
    }
  }

  lemma {:induction false} JoinAppend(lines: seq<Text>, more: seq<Text>)
    requires lines != [] && more != []
    ensures Join(lines + more) == Join(lines) + [NL] + Join(more)
    decreases |lines|
  {
    assert (lines + more)[1..] == lines[1..] + more;
    if |lines| == 1 {
      assert lines[1..] + more == more;
    } else {
      JoinAppend(lines[1..], more);
    }
  }

  function Nls(s: Text): nat
    decreases |s|
  {
    if s == [] then 0 else (if s[0] == NL then 1 else 0) + Nls(s[1..])
  }

  lemma {:induction false} NlsAppend(s: Text, rest: Text)
    ensures Nls(s + rest) == Nls(s) + Nls(rest)
    decreases |s|
  {
    if s == [] {
      assert s + rest == rest;
    } else {
      assert (s + rest)[1..] == s[1..] + rest;
      NlsAppend(s[1..], rest);
    }
  }

  lemma {:induction false} NlsUnix(s: Text)
    ensures Nls(Unix(s)) == Nls(s)
    decreases |s|
  {
    if s != [] {
      if CrLfAt(s, 0) {
        NlsUnix(s[2..]);
        assert s[1..][1..] == s[2..];
        assert ([NL] + Unix(s[2..]))[1..] == Unix(s[2..]);
      } else {
        NlsUnix(s[1..]);
        assert ([s[0]] + Unix(s[1..]))[1..] == Unix(s[1..]);
      }
    }
  }

  // ----- body.lstrip("\n") -----

  function DropNls(s: Text): Text
    decreases |s|
  {
    if s != [] && s[0] == NL then DropNls(s[1..]) else s
  }

  lemma {:induction false} NlsDropNls(s: Text)
    ensures Nls(DropNls(s)) <= Nls(s)
    decreases |s|
  {
    if s != [] && s[0] == NL {
      NlsDropNls(s[1..]);
    }
  }

  /** Text before a line end is not stripped with the line ends before it. */
  lemma {:induction false} DropNlsStops(s: Text, i: nat, rest: Text)
    requires i < |s| && s[i] != NL
    ensures DropNls(s) != []
    ensures Nls(DropNls(s + [NL] + rest)) > Nls(rest)
    decreases |s|
  {
    var all := s + [NL] + rest;
    if s[0] == NL {
      DropNlsStops(s[1..], i - 1, rest);
      assert all[1..] == s[1..] + [NL] + rest;
    } else {
      NlsAppend(s, [NL] + rest);
      NlsAppend([NL], rest);
      assert all == s + ([NL] + rest);
    }
  }

  /** Replacing carriage returns changes what is left of a body exactly when it has any to replace. */
  lemma {:induction false} DropNlsUnix(s: Text)
    ensures DropNls(Unix(s)) == DropNls(s) <==> !HasCrLf(s)
    decreases |s|
  {
    UnixLength(s);
    if s != [] && s[0] == NL {
      DropNlsUnix(s[1..]);
      CrLfInTail(s);
      assert Unix(s)[1..] == Unix(s[1..]);
    } else if HasCrLf(s) {
      DropNlsShortens(Unix(s));
    }
  }

  lemma {:induction false} DropNlsShortens(s: Text)
    ensures |DropNls(s)| <= |s|
    decreases |s|
  {
    if s != [] && s[0] == NL {
      DropNlsShortens(s[1..]);
    }
  }
}
