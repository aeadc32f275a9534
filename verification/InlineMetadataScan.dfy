/** The loops of migration-kit/scripts/discover.py:510-556, against the functions of InlineMetadata.dfy. */
module InlineMetadataScan {
  import opened Wrappers
  import opened Surrogates
  import opened PyText
  import opened PyJson
  import opened InlineMetadata

  lemma {:induction false} StartIsASuffix(s: Text)
    ensures AfterStart(s).Some? ==>
              |AfterStart(s).value| <= |s| && AfterStart(s).value == s[|s| - |AfterStart(s).value|..]
  {
    if WORD <= s {
      var rest := s[|WORD|..];
      SkippedIsASuffix(rest);
      var a := SkipSpaces(rest);
      if a != [] {
        SkippedIsASuffix(a[1..]);
      }
    }
  }

  lemma {:induction false} SkippedIsASuffix(s: Text)
    ensures SkipSpaces(s) == s[|s| - |SkipSpaces(s)|..]
    decreases |s|
  {
    if s != [] && Space(s[0]) {
      SkippedIsASuffix(s[1..]);
    }
  }

  lemma {:induction false} FoundIsASuffix(s: Text, lineStart: bool)
    ensures FindStart(s, lineStart).Some? ==>
              |FindStart(s, lineStart).value| <= |s|
              && FindStart(s, lineStart).value == s[|s| - |FindStart(s, lineStart).value|..]
    decreases |s|
  {
    StartIsASuffix(s);
    if s != [] {
      FoundIsASuffix(s[1..], s[0] == NL);
    }
  }

  /** toml.find(c, from), with the length of the text for "not there". */
  function FindFrom(toml: Text, c: CodePoint, from: nat): (n: nat)
    requires from <= |toml|
    ensures from <= n <= |toml|
  {
    from + Find(toml[from..], c)
  }

  lemma {:induction false} TailFrom(toml: Text, i: nat, k: nat)
    requires i < |toml| && k <= |toml| - i - 1
    ensures toml[i..][1..] == toml[i + 1..] && toml[i..][0] == toml[i]
    ensures toml[i + 1..][..k] == toml[i + 1..i + 1 + k]
    ensures k < |toml| - i - 1 ==> toml[i + 1..][k + 1..] == toml[i + 2 + k..]
  {
  }

  /** A comment is passed to the end of its line, or of the text. */
  lemma {:induction false} ScanAtComment(toml: Text, i: nat, nl: nat)
    requires i < |toml| && toml[i] == HASH && nl == FindFrom(toml, NL, i + 1)
    ensures Scan(toml[i..]) == if nl == |toml| then [] else Scan(toml[nl + 1..])
  {
    TailFrom(toml, i, nl - i - 1);
  }

  /** A quoted string is taken, or left open to the end. */
  lemma {:induction false} ScanAtQuote(toml: Text, i: nat, close: nat)
    requires i < |toml| && Quote(toml[i]) && close == FindFrom(toml, toml[i], i + 1)
    ensures Scan(toml[i..]) == if close == |toml| then [] else [toml[i + 1..close]] + Scan(toml[close + 1..])
  {
    TailFrom(toml, i, close - i - 1);
  }

  lemma {:induction false} ScanAtOther(toml: Text, i: nat)
    requires i < |toml|
    ensures toml[i] == CLOSE ==> Scan(toml[i..]) == []
    ensures toml[i] != CLOSE && toml[i] != HASH && !Quote(toml[i]) ==> Scan(toml[i..]) == Scan(toml[i + 1..])
  {
    TailFrom(toml, i, 0);
  }

  method ScanDependencyStrings(toml: Text) returns (deps: seq<Text>)
    ensures deps == ScanDependencies(toml)
  {
    var rest := FindStart(toml, true);
    if rest.None? {
      return [];
    }
    FoundIsASuffix(toml, true);
    deps := ScanArray(toml, |toml| - |rest.value|);
  }

  /** One turn of the scan: whether it goes on, from where, and what it took. */
  method ScanTurn(toml: Text, i: nat) returns (next: Option<nat>, taken: seq<Text>)
    requires i < |toml|
    ensures Scan(toml[i..]) == taken + (if next.None? then [] else ScanFrom(toml, next.value))
    ensures next.Some? ==> i < next.value <= |toml|
  {
    var ch, n := toml[i], |toml|;
    if ch == HASH {
      var nl := FindFrom(toml, NL, i + 1);
      ScanAtComment(toml, i, nl);
      return if nl == n then None else Some(nl + 1), [];
    }
    if Quote(ch) {
      next, taken := QuoteTurn(toml, i);
      return;
    }
    ScanAtOther(toml, i);
    return if ch == CLOSE then None else Some(i + 1), [];
  }

  method QuoteTurn(toml: Text, i: nat) returns (next: Option<nat>, taken: seq<Text>)
    requires i < |toml| && Quote(toml[i])
    ensures Scan(toml[i..]) == taken + (if next.None? then [] else ScanFrom(toml, next.value))
    ensures next.Some? ==> i < next.value <= |toml|
  {
    var close := FindFrom(toml, toml[i], i + 1);
    ScanAtQuote(toml, i, close);
    if close == |toml| {
      return None, [];
    }
    return Some(close + 1), [toml[i + 1..close]];
  }

  function ScanFrom(toml: Text, i: nat): seq<Text> {
    if i <= |toml| then Scan(toml[i..]) else []
  }

  /** From just after the opening bracket. */
  method ScanArray(toml: Text, start: nat) returns (deps: seq<Text>)
    requires start <= |toml|
    ensures deps == Scan(toml[start..])
  {
    deps := [];
    var i := start;
    while i < |toml|
      invariant start <= i <= |toml|
      invariant ScanFrom(toml, start) == deps + ScanFrom(toml, i)
    {
      var next, taken := ScanTurn(toml, i);
      Assoc(deps, taken, if next.None? then [] else ScanFrom(toml, next.value));
      deps := deps + taken;
      if next.None? {
        assert deps + [] == deps;
        return;
      }
      i := next.value;
    }
    assert deps + [] == deps;
  }

  lemma {:induction false} Assoc(a: seq<Text>, b: seq<Text>, c: seq<Text>)
    ensures (a + b) + c == a + (b + c)
  {
  }

  lemma {:induction false} UncommentAppend(lines: seq<Text>, line: Text)
    ensures UncommentAll(lines + [line])
         == if UncommentAll(lines).Some? && Comment(line) then Some(UncommentAll(lines).value + [Uncommented(line)])
            else None
    decreases |lines|
  {
    if lines == [] {
      var one := [line];
      assert lines + [line] == one && one[1..] == lines;
      assert UncommentAll(lines) == Some([]);
      if Comment(line) {
        var read := [Uncommented(line)];
        assert read + [] == read && [] + read == read;
        assert UncommentAll(one) == Some(read);
      }
    } else {
      assert (lines + [line])[1..] == lines[1..] + [line];
      UncommentAppend(lines[1..], line);
      if UncommentAll(lines).Some? && Comment(line) {
        var h, t, u := [Uncommented(lines[0])], UncommentAll(lines[1..]).value, [Uncommented(line)];
        assert h + (t + u) == (h + t) + u;
      }
    }
  }

  lemma {:induction false} MalformedStays(lines: seq<Text>, k: nat)
    requires k < |lines| && !Comment(lines[k])
    ensures UncommentAll(lines).None?
    decreases |lines|
  {
    if k > 0 {
      MalformedStays(lines[1..], k - 1);
    }
  }

  method UncommentLines(lines: seq<Text>) returns (body: Option<seq<Text>>)
    ensures body == UncommentAll(lines)
  {
    var out: seq<Text> := [];
    for k := 0 to |lines|
      invariant UncommentAll(lines[..k]) == Some(out)
    {
      var line := lines[k];
      assert lines[..k + 1] == lines[..k] + [line];
      UncommentAppend(lines[..k], line);
      if [HASH, SPACE] <= line {
        out := out + [line[2..]];
      } else if line == [HASH] {
        out := out + [[]];
      } else {
        MalformedStays(lines, k);
        return None;
      }
    }
    assert lines[..|lines|] == lines;
    return Some(out);
  }

  method ExtractDependenciesBlock(content: Text) returns (deps: seq<Text>)
    ensures deps == Extract(content)
  {
    var lines := SplitLines(content);
    var start := Find(lines, HEADER);
    if start == |lines| {
      return [];
    }
    var rest := lines[start + 1..];
    var end := Find(rest, FOOTER);
    if end == |rest| {
      return [];
    }
    var body := UncommentLines(rest[..end]);
    if body.None? {
      return [];
    }
    deps := ScanDependencyStrings(Join(body.value));
  }
}
