/** Surrogate pairs in sequences of code units or code points. */
module Surrogates {
  type CodePoint = c: int | 0 <= c < 0x11_0000
  type Text = seq<CodePoint>

  predicate High(u: int) {
    0xD800 <= u < 0xDC00
  }

  predicate Low(u: int) {
    0xDC00 <= u < 0xE000
  }

  predicate StartsPair(s: Text) {
    |s| >= 2 && High(s[0]) && Low(s[1])
  }

  function PairPoint(high: CodePoint, low: CodePoint): CodePoint
    requires High(high) && Low(low)
  {
    0x1_0000 + (high - 0xD800) * 0x400 + (low - 0xDC00)
  }

  /** s with every high surrogate joined to the low one right behind it. Of UTF-16 code units,
      this is the text they encode. */
  function Joined(s: Text): Text
    decreases |s|
  {
    if s == [] then []
    else if StartsPair(s) then [PairPoint(s[0], s[1])] + Joined(s[2..])
    else [s[0]] + Joined(s[1..])
  }

  predicate PairAt(s: Text, i: nat) {
    i + 1 < |s| && High(s[i]) && Low(s[i + 1])
  }

  ghost predicate HasPair(s: Text) {
    exists i: nat :: PairAt(s, i)
  }

  lemma {:induction false} PairInTail(s: Text)
    requires s != []
    ensures HasPair(s) <==> PairAt(s, 0) || HasPair(s[1..])
  {
    if i: nat :| PairAt(s, i) {
      assert i > 0 ==> PairAt(s[1..], i - 1);
    }
    if i: nat :| PairAt(s[1..], i) {
      assert PairAt(s, i + 1);
    }
  }

  lemma {:induction false} JoinedLength(s: Text)
    ensures |Joined(s)| <= |s|
    ensures |Joined(s)| == |s| <==> !HasPair(s)
    decreases |s|
  {
    if s != [] {
      PairInTail(s);
      if StartsPair(s) {
        JoinedLength(s[2..]);
        assert PairAt(s, 0);
      } else {
        JoinedLength(s[1..]);
      }
    }
  }

  lemma {:induction false} JoinedPair(s: Text, rest: Text)
    requires StartsPair(s)
    ensures Joined(s + rest) == [PairPoint(s[0], s[1])] + Joined(s[2..] + rest)
  {
    assert (s + rest)[2..] == s[2..] + rest;
  }

  lemma {:induction false} JoinedSingle(s: Text, rest: Text)
    requires s != [] && !StartsPair(s + rest)
    ensures Joined(s + rest) == [s[0]] + Joined(s[1..] + rest)
  {
    assert (s + rest)[1..] == s[1..] + rest;
  }

  /** No pair straddles the end of a text that does not end on a high surrogate. */
  lemma {:induction false} JoinedAppend(s: Text, rest: Text)
    requires s != [] ==> !High(s[|s| - 1])
    ensures Joined(s + rest) == Joined(s) + Joined(rest)
    decreases |s|
  {
    if s == [] {
      assert s + rest == rest;
    } else if StartsPair(s) {
      JoinedPair(s, rest);
      JoinedAppend(s[2..], rest);
      assert Joined(s) == [PairPoint(s[0], s[1])] + Joined(s[2..]);
    } else {
      JoinedSingle(s, rest);
      JoinedAppend(s[1..], rest);
      assert Joined(s) == [s[0]] + Joined(s[1..]);
    }
  }

  lemma {:induction false} JoinedEnds(s: Text)
    requires s != []
    ensures Joined(s) != []
    ensures Joined(s)[0] < 0x1_0000 ==> s[0] == Joined(s)[0]
    ensures Joined(s)[|Joined(s)| - 1] < 0x1_0000 ==> s[|s| - 1] == Joined(s)[|Joined(s)| - 1]
    decreases |s|
  {
    if StartsPair(s) {
      if |s| > 2 {
        JoinedEnds(s[2..]);
      }
    } else if |s| > 1 {
      JoinedEnds(s[1..]);
    }
  }

  /** Joining leaves a text alone exactly when it holds no pair. */
  lemma {:induction false} JoinedIsSame(s: Text)
    ensures Joined(s) == s <==> !HasPair(s)
  {
    JoinedLength(s);
    if !HasPair(s) {
      JoinedWithoutPair(s);
    }
  }

  lemma {:induction false} JoinedWithoutPair(s: Text)
    requires !HasPair(s)
    ensures Joined(s) == s
    decreases |s|
  {
    if s != [] {
      assert !PairAt(s, 0);
      PairInTail(s);
      JoinedWithoutPair(s[1..]);
    }
  }
}
