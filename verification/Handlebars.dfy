/** Finding and escaping the expressions of a Handlebars template (platform/shared/handlebars-expressions.ts). */
module Handlebars {
  import opened Wrappers
  import opened JsStrings

  datatype Expression = Expression(start: nat, end: nat, source: string, body: string)

  // ----- Scanning -----

  predicate OpensAt(t: string, i: int) {
    0 <= i < |t| - 1 && t[i] == '{' && t[i + 1] == '{'
  }

  predicate EscapedAt(t: string, i: int) {
    0 < i <= |t| && t[i - 1] == '\\'
  }

  /** How many opening braces stand at i. */
  function Braces(t: string, i: nat): nat
    decreases |t| - i
  {
    if i < |t| && t[i] == '{' then 1 + Braces(t, i + 1) else 0
  }

  /** That many closing braces stand at i. */
  predicate ClosesAt(t: string, i: nat, braces: nat) {
    i + braces <= |t| && forall k :: i <= k < i + braces ==> t[k] == '}'
  }

  predicate IsQuote(c: char) {
    c == '"' || c == '\''
  }

  /** Just past the closing braces, reading on from i inside the given string literal, if any. */
  function EndFrom(t: string, i: nat, braces: nat, quote: Option<char>): Option<nat>
    decreases |t| - i
  {
    if i >= |t| then None
    else if quote.Some? then
      if t[i] == '\\' then EndFrom(t, i + 2, braces, quote)
      else EndFrom(t, i + 1, braces, if t[i] == quote.value then None else quote)
    else if IsQuote(t[i]) then EndFrom(t, i + 1, braces, Some(t[i]))
    else if ClosesAt(t, i, braces) then Some(i + braces)
    else EndFrom(t, i + 1, braces, None)
  }

  function Trim(s: string): string {
    if s != [] && JsSpace(s[0] as int) then Trim(s[1..])
    else if s != [] && JsSpace(s[|s| - 1] as int) then Trim(s[..|s| - 1])
    else s
  }

  function ExpressionAt(t: string, start: nat, end: nat, braces: nat): Expression
    requires start <= end <= |t|
  {
    var source := t[start..end];
    Expression(start, end, source, if 2 * braces <= |source| then Trim(source[braces..|source| - braces]) else "")
  }

  lemma {:induction false} BracesBound(t: string, i: nat)
    requires i <= |t|
    ensures i + Braces(t, i) <= |t|
    ensures forall k :: i <= k < i + Braces(t, i) ==> t[k] == '{'
    ensures i + Braces(t, i) < |t| ==> t[i + Braces(t, i)] != '{'
    decreases |t| - i
  {
    if i < |t| && t[i] == '{' {
      BracesBound(t, i + 1);
    }
  }

  lemma {:induction false} EndBound(t: string, i: nat, braces: nat, quote: Option<char>)
    ensures EndFrom(t, i, braces, quote).Some? ==>
              i + braces <= EndFrom(t, i, braces, quote).value <= |t|
              && ClosesAt(t, EndFrom(t, i, braces, quote).value - braces, braces)
    decreases |t| - i
  {
    if i < |t| {
      if quote.Some? {
        EndBound(t, i + 2, braces, quote);
        EndBound(t, i + 1, braces, if t[i] == quote.value then None else quote);
      } else {
        EndBound(t, i + 1, braces, Some(t[i]));
        EndBound(t, i + 1, braces, None);
      }
    }
  }

  /** What one look at a live pair of opening braces leads to. */
  function Closing(t: string, i: nat): Option<nat>
    requires i <= |t|
  {
    var braces := Braces(t, i);
    EndFrom(t, i + braces, braces, None)
  }

  predicate LiveAt(t: string, i: int) {
    OpensAt(t, i) && !EscapedAt(t, i)
  }

  function FindFrom(t: string, i: nat): seq<Expression>
    decreases |t| - i
  {
    if i + 1 >= |t| then []
    else if !LiveAt(t, i) then FindFrom(t, i + 1)
    else
      BracesBound(t, i);
      var braces := Braces(t, i);
      if braces > 3 then FindFrom(t, i + braces)
      else
        match Closing(t, i)
        case None => []
        case Some(end) =>
          EndBound(t, i + braces, braces, None);
          [ExpressionAt(t, i, end, braces)] + FindFrom(t, end)
  }

  function Find(t: string): seq<Expression> {
    FindFrom(t, 0)
  }

  /** What is known of an expression found when reading from i on. */
  predicate Proper(t: string, i: nat, e: Expression) {
    i <= e.start && e.start + 4 <= e.end <= |t| && e.source == t[e.start..e.end] && LiveAt(t, e.start)
  }

  ghost predicate InOrder(t: string, i: nat, es: seq<Expression>) {
    && (forall k :: 0 <= k < |es| ==> Proper(t, i, es[k]))
    && (forall k, m :: 0 <= k < m < |es| ==> es[k].end <= es[m].start)
  }

  lemma {:induction false} InOrderCons(t: string, i: nat, e: Expression, es: seq<Expression>)
    requires Proper(t, i, e) && InOrder(t, e.end, es)
    ensures InOrder(t, i, [e] + es)
  {
    forall k | 0 <= k < |es| ensures Proper(t, i, es[k]) && e.end <= es[k].start {
      assert Proper(t, e.end, es[k]);
    }
  }

  lemma {:induction false} LiveHasTwo(t: string, i: nat)
    requires LiveAt(t, i)
    ensures Braces(t, i) >= 2
  {
    assert Braces(t, i) == 1 + Braces(t, i + 1);
  }

  lemma {:induction false} Skips(s: string, at: nat)
    requires !LiveAt(s, at)
    ensures FindFrom(s, at) == FindFrom(s, at + 1)
  {
  }

  lemma {:induction false} RunSkips(s: string, at: nat)
    requires LiveAt(s, at) && Braces(s, at) > 3
    ensures FindFrom(s, at) == FindFrom(s, at + Braces(s, at))
  {
    BracesBound(s, at);
  }

  lemma {:induction false} NothingCloses(t: string, i: nat)
    requires LiveAt(t, i) && Braces(t, i) <= 3 && Closing(t, i).None?
    ensures FindFrom(t, i) == []
  {
  }

  lemma {:induction false} OneIsFound(t: string, i: nat, end: nat)
    requires LiveAt(t, i) && Braces(t, i) <= 3 && Closing(t, i) == Some(end)
    ensures i + 4 <= end <= |t| && Proper(t, i, ExpressionAt(t, i, end, Braces(t, i)))
    ensures FindFrom(t, i) == [ExpressionAt(t, i, end, Braces(t, i))] + FindFrom(t, end)
  {
    BracesBound(t, i);
    LiveHasTwo(t, i);
    EndBound(t, i + Braces(t, i), Braces(t, i), None);
  }

  /** The expressions are found in order, apart from one another, each at live braces. */
  lemma {:induction false} FoundInOrder(t: string, i: nat)
    ensures InOrder(t, i, FindFrom(t, i))
    decreases |t| - i
  {
    if i + 1 < |t| {
      if !LiveAt(t, i) {
        Skips(t, i);
        FoundInOrder(t, i + 1);
        InOrderWeaken(t, i, i + 1, FindFrom(t, i + 1));
      } else if Braces(t, i) > 3 {
        BracesBound(t, i);
        RunSkips(t, i);
        FoundInOrder(t, i + Braces(t, i));
        InOrderWeaken(t, i, i + Braces(t, i), FindFrom(t, i + Braces(t, i)));
      } else if Closing(t, i).Some? {
        var end := Closing(t, i).value;
        OneIsFound(t, i, end);
        FoundInOrder(t, end);
        InOrderCons(t, i, ExpressionAt(t, i, end, Braces(t, i)), FindFrom(t, end));
      } else {
        NothingCloses(t, i);
      }
    }
  }

  lemma {:induction false} InOrderWeaken(t: string, i: nat, j: nat, es: seq<Expression>)
    requires i <= j && InOrder(t, j, es)
    ensures InOrder(t, i, es)
  {
    forall k | 0 <= k < |es| ensures Proper(t, i, es[k]) {
      assert Proper(t, j, es[k]);
    }
  }

  // ----- Escaping -----

  /** The rest of t from i on, with a backslash in front of every position in starts. */
  function Escaped(t: string, starts: set<nat>, i: nat): string
    decreases |t| - i
  {
    if i >= |t| then ""
    else (if i in starts then "\\" else "") + [t[i]] + Escaped(t, starts, i + 1)
  }

  function StartsOf(es: seq<Expression>, select: Expression -> bool): set<nat> {
    if es == [] then {}
    else StartsOf(es[1..], select) + if select(es[0]) then {es[0].start} else {}
  }

  function SourcesOf(es: seq<Expression>, select: Expression -> bool): seq<string> {
    if es == [] then []
    else (if select(es[0]) then [es[0].source] else []) + SourcesOf(es[1..], select)
  }

  function EscapedTemplate(t: string, select: Expression -> bool): string {
    Escaped(t, StartsOf(Find(t), select), 0)
  }

  /** How many backslashes went in before position i. */
  function Before(starts: set<nat>, i: nat): nat {
    if i == 0 then 0 else Before(starts, i - 1) + if i - 1 in starts then 1 else 0
  }

  /** Where the text from i on begins in the output: at its backslash, if it has one. */
  function Gap(starts: set<nat>, i: nat): nat {
    i + Before(starts, i)
  }

  /** Where the character at i went. */
  function New(starts: set<nat>, i: nat): nat {
    Gap(starts, i) + if i in starts then 1 else 0
  }

  lemma {:induction false} EscapedSuffix(t: string, starts: set<nat>, i: nat)
    requires i <= |t|
    ensures Gap(starts, i) <= |Escaped(t, starts, 0)|
    ensures Escaped(t, starts, 0)[Gap(starts, i)..] == Escaped(t, starts, i)
  {
    if i > 0 {
      EscapedSuffix(t, starts, i - 1);
      var out := Escaped(t, starts, 0);
      var tail := Escaped(t, starts, i - 1);
      var step := if i - 1 in starts then 2 else 1;
      assert tail[step..] == Escaped(t, starts, i);
      assert out[Gap(starts, i)..] == out[Gap(starts, i - 1)..][step..];
    }
  }

  lemma {:induction false} NewCharacter(t: string, starts: set<nat>, i: nat)
    requires i < |t|
    ensures New(starts, i) < |Escaped(t, starts, 0)|
    ensures Escaped(t, starts, 0)[New(starts, i)] == t[i]
    ensures i in starts ==> Escaped(t, starts, 0)[Gap(starts, i)] == '\\'
    ensures Gap(starts, i + 1) == New(starts, i) + 1
  {
    EscapedSuffix(t, starts, i);
    var tail := Escaped(t, starts, i);
    assert tail[New(starts, i) - Gap(starts, i)] == t[i];
  }

  // ----- Taking the backslashes out again -----

  /** s without the characters at the given positions. */
  function Without(s: string, at: set<nat>, i: nat): string
    decreases |s| - i
  {
    if i >= |s| then ""
    else (if i in at then "" else [s[i]]) + Without(s, at, i + 1)
  }

  function InsertedAt(starts: set<nat>, n: nat): set<nat> {
    set i | 0 <= i < n && i in starts :: Gap(starts, i)
  }

  lemma {:induction false} GapGrows(starts: set<nat>, i: nat, j: nat)
    requires i < j
    ensures New(starts, i) < Gap(starts, j)
    ensures Gap(starts, i) <= New(starts, i)
    decreases j
  {
    if i < j - 1 {
      GapGrows(starts, i, j - 1);
    }
  }

  lemma {:induction false} RemovingRestores(t: string, starts: set<nat>, i: nat)
    requires i <= |t|
    ensures Without(Escaped(t, starts, 0), InsertedAt(starts, |t|), Gap(starts, i)) == t[i..]
    decreases |t| - i
  {
    var out, at := Escaped(t, starts, 0), InsertedAt(starts, |t|);
    EscapedSuffix(t, starts, i);
    if i == |t| {
      assert Gap(starts, i) >= |out|;
    } else {
      NewCharacter(t, starts, i);
      RemovingRestores(t, starts, i + 1);
      forall k | 0 <= k < |t| && k in starts
        ensures Gap(starts, k) != New(starts, i)
      {
        if k < i {
          GapGrows(starts, k, i);
        } else if i < k {
          GapGrows(starts, i, k);
        }
      }
      assert New(starts, i) !in at;
      if i in starts {
        assert Gap(starts, i) in at;
      }
      assert t[i..] == [t[i]] + t[i + 1..];
    }
  }

  /** Taking out the inserted backslashes recovers the template. */
  lemma {:induction false} EscapingIsReversible(t: string, select: Expression -> bool)
    ensures Without(EscapedTemplate(t, select), InsertedAt(StartsOf(Find(t), select), |t|), 0) == t
  {
    RemovingRestores(t, StartsOf(Find(t), select), 0);
    assert t[0..] == t;
  }

  // ----- Scanning the output -----

  predicate TwoBraces(t: string, e: Expression) {
    Braces(t, e.start) == 2
  }

  function Moved(starts: set<nat>, e: Expression): Expression {
    e.(start := New(starts, e.start), end := Gap(starts, e.end))
  }

  /** The expressions that were not selected, where they are now. */
  function Left(es: seq<Expression>, select: Expression -> bool, starts: set<nat>): seq<Expression> {
    if es == [] then []
    else (if select(es[0]) then [] else [Moved(starts, es[0])]) + Left(es[1..], select, starts)
  }

  /** Nothing is inserted strictly after i and before j. */
  ghost predicate Untouched(starts: set<nat>, i: nat, j: nat) {
    forall k :: i < k < j ==> k !in starts
  }

  /** The same stretch of text in both strings. */
  ghost predicate SameStretch(a: string, i: nat, b: string, j: nat, n: nat) {
    i + n <= |a| && j + n <= |b| && a[i..i + n] == b[j..j + n]
  }

  lemma {:induction false} SameAt(a: string, i: nat, b: string, j: nat, n: nat, k: nat)
    requires SameStretch(a, i, b, j, n) && k < n
    ensures a[i + k] == b[j + k]
  {
    assert a[i + k] == a[i..i + n][k];
    assert b[j + k] == b[j..j + n][k];
  }

  lemma {:induction false} Rest(a: string, i: nat, b: string, j: nat, n: nat, step: nat)
    requires SameStretch(a, i, b, j, n) && step <= n
    ensures SameStretch(a, i + step, b, j + step, n - step)
  {
    assert a[i + step..i + n] == a[i..i + n][step..];
    assert b[j + step..j + n] == b[j..j + n][step..];
  }

  lemma {:induction false} StretchExtends(a: string, i: nat, b: string, j: nat, n: nat)
    requires SameStretch(a, i, b, j, n) && i + n < |a| && j + n < |b| && a[i + n] == b[j + n]
    ensures SameStretch(a, i, b, j, n + 1)
  {
    assert a[i..i + (n + 1)] == a[i..i + n] + [a[i + n]];
    assert b[j..j + (n + 1)] == b[j..j + n] + [b[j + n]];
  }

  lemma {:induction false} StretchMoves(t: string, starts: set<nat>, i: nat, j: nat)
    requires i < j <= |t| && Untouched(starts, i, j)
    ensures SameStretch(t, i, Escaped(t, starts, 0), New(starts, i), j - i)
    ensures Gap(starts, j) == New(starts, i) + (j - i)
    decreases j - i
  {
    var m := j - 1;
    NewCharacter(t, starts, m);
    if i < m {
      StretchMoves(t, starts, i, m);
      StretchExtends(t, i, Escaped(t, starts, 0), New(starts, i), m - i);
    } else {
      assert SameStretch(t, i, Escaped(t, starts, 0), New(starts, i), 0);
      StretchExtends(t, i, Escaped(t, starts, 0), New(starts, i), 0);
    }
  }

  lemma {:induction false} CloseIsLocal(a: string, i: nat, b: string, j: nat, n: nat, braces: nat)
    requires SameStretch(a, i, b, j, n) && braces <= n
    ensures ClosesAt(a, i, braces) <==> ClosesAt(b, j, braces)
  {
    if ClosesAt(a, i, braces) {
      forall k | j <= k < j + braces ensures b[k] == '}' {
        SameAt(a, i, b, j, n, k - j);
      }
    }
    if ClosesAt(b, j, braces) {
      forall k | i <= k < i + braces ensures a[k] == '}' {
        SameAt(a, i, b, j, n, k - i);
      }
    }
  }

  /** Where an expression ends depends on nothing past its end. */
  lemma {:induction false} EndIsLocal(a: string, i: nat, b: string, j: nat, n: nat, braces: nat, quote: Option<char>)
    requires EndFrom(a, i, braces, quote) == Some(i + n) && braces >= 1
    requires SameStretch(a, i, b, j, n)
    ensures EndFrom(b, j, braces, quote) == Some(j + n)
    decreases |a| - i
  {
    EndBound(a, i, braces, quote);
    SameAt(a, i, b, j, n, 0);
    CloseIsLocal(a, i, b, j, n, braces);
    var escape := quote.Some? && a[i] == '\\';
    var step := if escape then 2 else 1;
    var next := if escape then quote
                else if quote.Some? then if a[i] == quote.value then None else quote
                else if IsQuote(a[i]) then Some(a[i]) else None;
    if quote.Some? || IsQuote(a[i]) || !ClosesAt(a, i, braces) {
      assert EndFrom(a, i, braces, quote) == EndFrom(a, i + step, braces, next);
      EndBound(a, i + step, braces, next);
      Rest(a, i, b, j, n, step);
      EndIsLocal(a, i + step, b, j + step, n - step, braces, next);
    }
  }

  lemma {:induction false} BracesAre(s: string, i: nat, n: nat)
    requires i + n <= |s| && (forall k :: i <= k < i + n ==> s[k] == '{')
    requires i + n < |s| ==> s[i + n] != '{'
    ensures Braces(s, i) == n
    decreases n
  {
    if n > 0 {
      BracesAre(s, i + 1, n - 1);
    }
  }

  /** A run of n opening braces that is live. */
  lemma {:induction false} LiveRun(s: string, at: nat, n: nat)
    requires 2 <= n && at + n <= |s| && forall k :: at <= k < at + n ==> s[k] == '{'
    requires at + n < |s| ==> s[at + n] != '{'
    requires at > 0 ==> s[at - 1] != '\\'
    ensures LiveAt(s, at) && Braces(s, at) == n
  {
    BracesAre(s, at, n);
  }

  /** A position that takes no backslash and is not live stays so. */
  lemma {:induction false} StaysDead(t: string, starts: set<nat>, i: nat)
    requires i < |t| && i !in starts && !LiveAt(t, i)
    ensures FindFrom(Escaped(t, starts, 0), Gap(starts, i)) == FindFrom(Escaped(t, starts, 0), Gap(starts, i + 1))
  {
    DeadThere(t, starts, i, Escaped(t, starts, 0), Gap(starts, i));
    NewCharacter(t, starts, i);
    Skips(Escaped(t, starts, 0), Gap(starts, i));
  }

  lemma {:induction false} DeadThere(t: string, starts: set<nat>, i: nat, out: string, at: nat)
    requires i < |t| && i !in starts && !LiveAt(t, i)
    requires out == Escaped(t, starts, 0) && at == Gap(starts, i)
    ensures !LiveAt(out, at)
  {
    NewCharacter(t, starts, i);
    EscapedSuffix(t, starts, i + 1);
    if i + 1 < |t| {
      NewCharacter(t, starts, i + 1);
    }
    if i > 0 {
      NewCharacter(t, starts, i - 1);
    }
  }

  /** A selected expression's own opening is passed over. */
  lemma {:induction false} EscapedIsPassed(t: string, starts: set<nat>, i: nat)
    requires i + 1 < |t| && i in starts
    ensures FindFrom(Escaped(t, starts, 0), Gap(starts, i)) == FindFrom(Escaped(t, starts, 0), Gap(starts, i + 1))
  {
    var out := Escaped(t, starts, 0);
    NewCharacter(t, starts, i);
    NewCharacter(t, starts, i + 1);
    assert !LiveAt(out, Gap(starts, i));
    assert EscapedAt(out, New(starts, i));
  }

  /** A live opening that takes no backslash stays live, with as many braces. */
  lemma {:induction false} StaysLive(t: string, starts: set<nat>, i: nat)
    requires LiveAt(t, i) && i !in starts
    requires Untouched(starts, i, i + Braces(t, i) + 1)
    ensures LiveAt(Escaped(t, starts, 0), Gap(starts, i))
    ensures Braces(Escaped(t, starts, 0), Gap(starts, i)) == Braces(t, i)
  {
    BracesBound(t, i);
    LiveHasTwo(t, i);
    LiveThere(t, starts, i, Braces(t, i), Escaped(t, starts, 0), Gap(starts, i));
    LiveRun(Escaped(t, starts, 0), Gap(starts, i), Braces(t, i));
  }

  /** The characters around a live run that is not selected. */
  lemma {:induction false} LiveThere(t: string, starts: set<nat>, i: nat, n: nat, out: string, at: nat)
    requires LiveAt(t, i) && i !in starts && 2 <= n && i + n <= |t|
    requires forall k :: i <= k < i + n ==> t[k] == '{'
    requires i + n < |t| ==> t[i + n] != '{'
    requires Untouched(starts, i, i + n + 1)
    requires out == Escaped(t, starts, 0) && at == Gap(starts, i)
    ensures at + n <= |out| && forall k :: at <= k < at + n ==> out[k] == '{'
    ensures at + n < |out| ==> out[at + n] != '{'
    ensures at > 0 ==> out[at - 1] != '\\'
  {
    StretchMoves(t, starts, i, i + n);
    SameRun(t, i, out, at, n);
    CharacterBefore(t, starts, i, out, at);
    CharacterAt(t, starts, i + n, out, at + n);
  }

  lemma {:induction false} SameRun(t: string, i: nat, out: string, at: nat, n: nat)
    requires SameStretch(t, i, out, at, n) && forall k :: i <= k < i + n ==> t[k] == '{'
    ensures forall k :: at <= k < at + n ==> out[k] == '{'
  {
    forall k | at <= k < at + n ensures out[k] == '{' {
      SameAt(t, i, out, at, n, k - at);
    }
  }

  /** In front of the output's place for i stands the character before i. */
  lemma {:induction false} CharacterBefore(t: string, starts: set<nat>, i: nat, out: string, at: nat)
    requires i <= |t| && out == Escaped(t, starts, 0) && at == Gap(starts, i)
    ensures 0 < i <==> 0 < at
    ensures 0 < i ==> at <= |out| && out[at - 1] == t[i - 1]
  {
    if i > 0 {
      NewCharacter(t, starts, i - 1);
    }
  }

  lemma {:induction false} CharacterAt(t: string, starts: set<nat>, i: nat, out: string, at: nat)
    requires i <= |t| && i !in starts && out == Escaped(t, starts, 0) && at == Gap(starts, i)
    ensures i < |t| <==> at < |out|
    ensures i < |t| ==> out[at] == t[i]
  {
    if i < |t| {
      NewCharacter(t, starts, i);
    } else {
      EscapedSuffix(t, starts, i);
    }
  }

  lemma {:induction false} FewerBracesCloseNoLater(t: string, i: nat, quote: Option<char>)
    requires EndFrom(t, i, 3, quote).Some?
    ensures EndFrom(t, i, 2, quote).Some? && EndFrom(t, i, 2, quote).value <= EndFrom(t, i, 3, quote).value
    decreases |t| - i
  {
    var escape := quote.Some? && t[i] == '\\';
    var step := if escape then 2 else 1;
    var next := if escape then quote
                else if quote.Some? then if t[i] == quote.value then None else quote
                else if IsQuote(t[i]) then Some(t[i]) else None;
    if quote.Some? || IsQuote(t[i]) || !ClosesAt(t, i, 3) {
      FewerBracesCloseNoLater(t, i + step, next);
      EndBound(t, i + step, 3, next);
    }
  }

  /** Backslashes go exactly in front of the expressions that are still to come and selected. */
  ghost predicate StartsAhead(t: string, starts: set<nat>, i: nat, select: Expression -> bool) {
    forall k :: k >= i ==> (k in starts <==> k in StartsOf(FindFrom(t, i), select))
  }

  lemma {:induction false} StartsOfMembers(t: string, i: nat, es: seq<Expression>, select: Expression -> bool, k: nat)
    requires InOrder(t, i, es)
    ensures k in StartsOf(es, select) <==> exists m :: 0 <= m < |es| && select(es[m]) && es[m].start == k
    ensures k in StartsOf(es, select) ==> LiveAt(t, k) && i <= k
  {
    if es != [] {
      StartsOfMembers(t, i, es[1..], select, k);
      assert Proper(t, i, es[0]);
      if k in StartsOf(es[1..], select) {
        var m :| 0 <= m < |es[1..]| && select(es[1..][m]) && es[1..][m].start == k;
        assert es[m + 1].start == k;
      }
      if m :| 0 <= m < |es| && select(es[m]) && es[m].start == k {
        assert m > 0 ==> es[1..][m - 1] == es[m];
      }
    }
  }

  /** No backslash goes in before position j when everything found lies from j on. */
  lemma {:induction false} NothingAheadBefore(
      t: string, starts: set<nat>, i: nat, j: nat, es: seq<Expression>, select: Expression -> bool)
    requires StartsAhead(t, starts, i, select) && FindFrom(t, i) == es && InOrder(t, j, es)
    ensures forall k :: i <= k < j ==> k !in starts
  {
    forall k | i <= k < j ensures k !in starts {
      StartsOfMembers(t, j, es, select, k);
    }
  }

  /** The first opening from k on that a scan up to end would look into. */
  function InnerOpening(t: string, k: nat, end: nat): (opening: Option<nat>)
    ensures opening.Some? ==>
              k <= opening.value < end && LiveAt(t, opening.value) && Braces(t, opening.value) <= 3
    decreases end - k
  {
    if k >= end then None
    else if !LiveAt(t, k) then InnerOpening(t, k + 1, end)
    else if Braces(t, k) > 3 then InnerOpening(t, k + Braces(t, k), end)
    else Some(k)
  }

  /** What it takes for a second scan to see what was left, one expression at a time. A selected one
      has two braces, and inside it there is either no opening left to look into, or one that never
      closes, which ends the second scan; then nothing may be left behind it. */
  predicate Rescannable(t: string, es: seq<Expression>, select: Expression -> bool)
    decreases |es|
  {
    es == []
    || (if !select(es[0]) then Rescannable(t, es[1..], select)
        else
          TwoBraces(t, es[0])
          && match InnerOpening(t, es[0].start + 1, es[0].end)
             case None => Rescannable(t, es[1..], select)
             case Some(k) => Closing(t, k).None? && forall e :: e in es[1..] ==> select(e))
  }

  ghost predicate RescanAgrees(t: string, starts: set<nat>, i: nat, select: Expression -> bool) {
    FindFrom(Escaped(t, starts, 0), Gap(starts, i)) == Left(FindFrom(t, i), select, starts)
  }

  /** Everything left over from position j on lies beyond the new place of position j - 1. */
  lemma {:induction false} LeftLiesBeyond(
      t: string, starts: set<nat>, i: nat, j: nat, es: seq<Expression>, select: Expression -> bool)
    requires j <= i && InOrder(t, i, es)
    ensures forall k :: 0 <= k < |Left(es, select, starts)| ==> Left(es, select, starts)[k].start >= Gap(starts, j)
  {
    if es != [] {
      assert Proper(t, i, es[0]);
      assert InOrder(t, i, es[1..]) by {
        forall k | 0 <= k < |es[1..]| ensures Proper(t, i, es[1..][k]) {
          assert es[1..][k] == es[k + 1];
        }
      }
      LeftLiesBeyond(t, starts, i, j, es[1..], select);
      if j < es[0].start {
        GapGrows(starts, j, es[0].start);
      }
    }
  }

  /** An expression at i, found. */
  ghost predicate FoundAt(t: string, i: nat, end: nat) {
    LiveAt(t, i) && Braces(t, i) <= 3 && Closing(t, i) == Some(end)
  }

  lemma {:induction false} FoundThere(t: string, i: nat, end: nat)
    requires FoundAt(t, i, end)
    ensures i + 4 <= end <= |t| && i + 2 * Braces(t, i) <= end && 2 <= Braces(t, i)
    ensures FindFrom(t, i) == [ExpressionAt(t, i, end, Braces(t, i))] + FindFrom(t, end)
    ensures InOrder(t, i, FindFrom(t, i)) && InOrder(t, end, FindFrom(t, end))
  {
    BracesBound(t, i);
    LiveHasTwo(t, i);
    EndBound(t, i + Braces(t, i), Braces(t, i), None);
    FoundInOrder(t, i);
    FoundInOrder(t, end);
  }

  /** Backslashes inside the stretch from i to end: only at i, and only if i is selected. */
  lemma {:induction false} AheadOfFound(t: string, starts: set<nat>, i: nat, end: nat, select: Expression -> bool)
    requires FoundAt(t, i, end) && StartsAhead(t, starts, i, select)
    ensures i + 4 <= end <= |t|
    ensures StartsAhead(t, starts, end, select)
    ensures Untouched(starts, i, end)
    ensures i in starts <==> select(ExpressionAt(t, i, end, Braces(t, i)))
  {
    FoundThere(t, i, end);
    var rest := FindFrom(t, end);
    assert FindFrom(t, i)[1..] == rest;
    forall k | k >= i
      ensures k in StartsOf(rest, select) ==> end <= k
      ensures k in starts <==> k in StartsOf(rest, select) || (k == i && select(FindFrom(t, i)[0]))
    {
      StartsOfMembers(t, end, rest, select, k);
    }
  }

  lemma {:induction false} Narrow(a: string, i: nat, b: string, j: nat, n: nat, m: nat)
    requires SameStretch(a, i, b, j, n) && m <= n
    ensures SameStretch(a, i, b, j, m)
  {
    assert a[i..i + m] == a[i..i + n][..m];
    assert b[j..j + m] == b[j..j + n][..m];
  }

  lemma {:induction false} FoundHere(t: string, i: nat, n: nat, end: nat)
    requires i <= |t| && LiveAt(t, i) && Braces(t, i) == n <= 3
    requires EndFrom(t, i + n, n, None) == Some(end)
    ensures FoundAt(t, i, end)
  {
  }

  lemma {:induction false} OpenHere(t: string, i: nat, n: nat)
    requires i <= |t| && LiveAt(t, i) && Braces(t, i) == n <= 3
    requires EndFrom(t, i + n, n, None).None?
    ensures FindFrom(t, i) == []
  {
  }

  /** The stretch from i + n on, in its new place. */
  lemma {:induction false} StretchFrom(t: string, starts: set<nat>, i: nat, n: nat, j: nat)
    requires i < j <= |t| && Untouched(starts, i, j) && i + n <= j
    ensures SameStretch(t, i + n, Escaped(t, starts, 0), New(starts, i) + n, j - i - n)
  {
    StretchMoves(t, starts, i, j);
    Rest(t, i, Escaped(t, starts, 0), New(starts, i), j - i, n);
  }

  lemma {:induction false} FoundSize(t: string, i: nat, end: nat, n: nat)
    requires FoundAt(t, i, end) && n == Braces(t, i)
    ensures 2 <= n <= 3 && i + n <= end && EndFrom(t, i + n, n, None) == Some(end)
  {
    FoundThere(t, i, end);
  }

  lemma {:induction false} UnselectedStays(t: string, starts: set<nat>, i: nat, end: nat)
    requires FoundAt(t, i, end) && i !in starts && i + 4 <= end <= |t| && Untouched(starts, i, end)
    ensures FoundAt(Escaped(t, starts, 0), Gap(starts, i), Gap(starts, end))
    ensures Braces(Escaped(t, starts, 0), Gap(starts, i)) == Braces(t, i)
    ensures SameStretch(t, i, Escaped(t, starts, 0), Gap(starts, i), end - i)
    ensures Gap(starts, end) == Gap(starts, i) + (end - i)
  {
    LiveAndSame(t, starts, i, end, Escaped(t, starts, 0), Gap(starts, i), Braces(t, i));
    FoundSize(t, i, end, Braces(t, i));
    FoundMoves(t, i, end, Escaped(t, starts, 0), Gap(starts, i), Gap(starts, end), Braces(t, i));
  }

  lemma {:induction false} LiveAndSame(t: string, starts: set<nat>, i: nat, end: nat, out: string, at: nat, n: nat)
    requires FoundAt(t, i, end) && i !in starts && i + 4 <= end <= |t| && Untouched(starts, i, end)
    requires out == Escaped(t, starts, 0) && at == Gap(starts, i) && n == Braces(t, i)
    ensures LiveAt(out, at) && Braces(out, at) == n
    ensures SameStretch(t, i, out, at, end - i) && Gap(starts, end) == at + (end - i)
  {
    FoundThere(t, i, end);
    StaysLive(t, starts, i);
    StretchMoves(t, starts, i, end);
  }

  lemma {:induction false} FoundMoves(t: string, i: nat, end: nat, out: string, at: nat, end': nat, n: nat)
    requires i + n <= end && 2 <= n <= 3 && EndFrom(t, i + n, n, None) == Some(end)
    requires end' == at + (end - i) && SameStretch(t, i, out, at, end - i)
    requires LiveAt(out, at) && Braces(out, at) == n
    ensures FoundAt(out, at, end')
  {
    EndMoves(t, i, end, out, at, end', n, n);
    FoundHere(out, at, n, end');
  }

  /** An end n characters past i moves with its stretch. */
  lemma {:induction false} EndMoves(a: string, i: nat, end: nat, b: string, j: nat, end': nat, n: nat, braces: nat)
    requires braces >= 1 && i + n <= end && end' == j + (end - i)
    requires SameStretch(a, i, b, j, end - i)
    requires EndFrom(a, i + n, braces, None) == Some(end)
    ensures EndFrom(b, j + n, braces, None) == Some(end')
  {
    var p, q, m := i + n, j + n, end - (i + n);
    Rest(a, i, b, j, end - i, n);
    EndIsLocal(a, p, b, q, m, braces, None);
  }

  lemma {:induction false} SameExpression(a: string, i: nat, end: nat, b: string, j: nat, end': nat, braces: nat)
    requires i <= end && end' == j + (end - i) && SameStretch(a, i, b, j, end - i)
    ensures end <= |a| && end' <= |b|
    ensures ExpressionAt(b, j, end', braces) == ExpressionAt(a, i, end, braces).(start := j, end := end')
  {
    assert a[i..end] == b[j..end'];
  }

  /** An expression that was not selected is found again, moved. */
  lemma {:induction false} UnselectedIsFoundAgain(t: string, starts: set<nat>, i: nat, end: nat)
    requires FoundAt(t, i, end) && i !in starts && i + 4 <= end <= |t| && Untouched(starts, i, end)
    ensures Gap(starts, end) <= |Escaped(t, starts, 0)|
    ensures FindFrom(Escaped(t, starts, 0), Gap(starts, i))
         == [Moved(starts, ExpressionAt(t, i, end, Braces(t, i)))] + FindFrom(Escaped(t, starts, 0), Gap(starts, end))
  {
    var at, end' := Gap(starts, i), Gap(starts, end);
    UnselectedStays(t, starts, i, end);
    SameExpression(t, i, end, Escaped(t, starts, 0), at, end', Braces(t, i));
    FoundThere(Escaped(t, starts, 0), at, end');
  }

  /** Three closing braces hold two, so a two-brace reading of the same text ends too. */
  lemma {:induction false} TripleEndsForTwo(t: string, starts: set<nat>, i: nat, end: nat) returns (end': nat)
    requires FoundAt(t, i, end) && i + 4 <= end <= |t| && Untouched(starts, i, end) && Braces(t, i) == 3
    ensures EndFrom(Escaped(t, starts, 0), New(starts, i) + 3, 2, None) == Some(end')
  {
    FewerBracesCloseNoLater(t, i + 3, None);
    StretchMoves(t, starts, i, end);
    end' := EndMovesEarlier(t, i, end, EndFrom(t, i + 3, 2, None).value, Escaped(t, starts, 0), New(starts, i));
  }

  lemma {:induction false} EndMovesEarlier(
      t: string, i: nat, end: nat, two: nat, out: string, at: nat) returns (end': nat)
    requires i + 3 <= end && two <= end && EndFrom(t, i + 3, 2, None) == Some(two)
    requires SameStretch(t, i, out, at, end - i)
    ensures EndFrom(out, at + 3, 2, None) == Some(end')
  {
    EndBound(t, i + 3, 2, None);
    Narrow(t, i, out, at, end - i, two - i);
    end' := at + (two - i);
    EndMoves(t, i, two, out, at, end', 3, 2);
  }

  /** One brace in from a selected three-brace expression, two live braces are left. */
  lemma {:induction false} TwoBracesAreLeft(t: string, starts: set<nat>, i: nat, end: nat)
    requires FoundAt(t, i, end) && i + 4 <= end <= |t| && Untouched(starts, i, end) && Braces(t, i) == 3
    ensures Gap(starts, i + 1) == New(starts, i) + 1
    ensures LiveAt(Escaped(t, starts, 0), New(starts, i) + 1)
    ensures Braces(Escaped(t, starts, 0), New(starts, i) + 1) == 2
  {
    NewCharacter(t, starts, i);
    BracesBound(t, i);
    InnerBraces(t, i, end, Escaped(t, starts, 0), New(starts, i), starts);
    LiveRun(Escaped(t, starts, 0), New(starts, i) + 1, 2);
  }

  lemma {:induction false} InnerBraces(t: string, i: nat, end: nat, out: string, at: nat, starts: set<nat>)
    requires i + 4 <= end <= |t| && t[i + 3] != '{' && forall k :: i <= k < i + 3 ==> t[k] == '{'
    requires Untouched(starts, i, end) && out == Escaped(t, starts, 0) && at == New(starts, i)
    ensures at + 4 <= |out| && out[at] == '{' && out[at + 1] == '{' && out[at + 2] == '{' && out[at + 3] != '{'
  {
    StretchMoves(t, starts, i, end);
    SameAt(t, i, out, at, end - i, 0);
    SameAt(t, i, out, at, end - i, 1);
    SameAt(t, i, out, at, end - i, 2);
    SameAt(t, i, out, at, end - i, 3);
  }

  /** A selected three-brace expression is taken for a two-brace one, one brace further in. */
  lemma {:induction false} TripleIsFoundInside(t: string, starts: set<nat>, i: nat, end: nat)
    requires FoundAt(t, i, end) && i in starts && i + 4 <= end <= |t| && Untouched(starts, i, end)
    requires Braces(t, i) == 3
    ensures var again := FindFrom(Escaped(t, starts, 0), Gap(starts, i));
            again != [] && again[0].start == Gap(starts, i + 1)
  {
    var end' := TripleEndsForTwo(t, starts, i, end);
    TwoBracesAreLeft(t, starts, i, end);
    TwoInsideTriple(t, starts, i, Escaped(t, starts, 0), Gap(starts, i + 1), end');
  }

  lemma {:induction false} TwoInsideTriple(t: string, starts: set<nat>, i: nat, out: string, at: nat, end: nat)
    requires i + 1 < |t| && i in starts && out == Escaped(t, starts, 0) && at == Gap(starts, i + 1)
    requires LiveAt(out, at) && Braces(out, at) == 2 && EndFrom(out, at + 2, 2, None) == Some(end)
    ensures FindFrom(out, Gap(starts, i)) != [] && FindFrom(out, Gap(starts, i))[0].start == at
  {
    EscapedIsPassed(t, starts, i);
    FirstIsTwo(out, at, end);
  }

  lemma {:induction false} FirstIsTwo(s: string, at: nat, end: nat)
    requires LiveAt(s, at) && Braces(s, at) == 2 && EndFrom(s, at + 2, 2, None) == Some(end)
    ensures FindFrom(s, at) != [] && FindFrom(s, at)[0].start == at
  {
    FoundHere(s, at, 2, end);
    FoundThere(s, at, end);
  }

  /** Text that never closes never closes elsewhere. */
  lemma {:induction false} OpenIsLocal(a: string, i: nat, b: string, j: nat, n: nat, braces: nat)
    requires braces >= 1 && i + n == |a| && j + n == |b| && SameStretch(a, i, b, j, n)
    requires EndFrom(a, i, braces, None).None?
    ensures EndFrom(b, j, braces, None).None?
  {
    EndBound(b, j, braces, None);
    if EndFrom(b, j, braces, None).Some? {
      var m := EndFrom(b, j, braces, None).value - j;
      Narrow(b, j, a, i, n, m);
      EndIsLocal(b, j, a, i, m, braces, None);
    }
  }

  lemma {:induction false} StretchReachesEnd(t: string, starts: set<nat>, i: nat)
    requires i < |t| && Untouched(starts, i, |t|)
    ensures New(starts, i) + (|t| - i) == |Escaped(t, starts, 0)|
  {
    StretchMoves(t, starts, i, |t|);
    EscapedSuffix(t, starts, |t|);
  }

  /** An unterminated expression stays unterminated. */
  lemma {:induction false} StaysOpen(t: string, starts: set<nat>, i: nat)
    requires LiveAt(t, i) && Braces(t, i) <= 3 && Closing(t, i).None?
    requires forall k :: k >= i ==> k !in starts
    ensures FindFrom(Escaped(t, starts, 0), Gap(starts, i)) == []
  {
    var out, n := Escaped(t, starts, 0), Braces(t, i);
    StaysLive(t, starts, i);
    BracesBound(t, i);
    LiveHasTwo(t, i);
    StretchReachesEnd(t, starts, i);
    StretchFrom(t, starts, i, n, |t|);
    OpenIsLocal(t, i + n, out, Gap(starts, i) + n, |t| - i - n, n);
    OpenHere(out, Gap(starts, i), n);
  }

  /** Past a position that opens nothing, both scans stand as before. */
  lemma {:induction false} DeadInStep(t: string, starts: set<nat>, i: nat, select: Expression -> bool)
    requires i + 1 < |t| && !LiveAt(t, i) && StartsAhead(t, starts, i, select)
    ensures FindFrom(t, i) == FindFrom(t, i + 1) && StartsAhead(t, starts, i + 1, select)
    ensures RescanAgrees(t, starts, i, select) <==> RescanAgrees(t, starts, i + 1, select)
  {
    Skips(t, i);
    FoundInOrder(t, i + 1);
    NothingAheadBefore(t, starts, i, i + 1, FindFrom(t, i), select);
    StaysDead(t, starts, i);
  }

  /** Past a run of more than three braces too. */
  lemma {:induction false} RunInStep(t: string, starts: set<nat>, i: nat, n: nat, select: Expression -> bool)
    requires LiveAt(t, i) && Braces(t, i) == n > 3 && StartsAhead(t, starts, i, select)
    ensures i + n <= |t| && FindFrom(t, i) == FindFrom(t, i + n) && StartsAhead(t, starts, i + n, select)
    ensures RescanAgrees(t, starts, i, select) <==> RescanAgrees(t, starts, i + n, select)
  {
    BracesBound(t, i);
    RunSkips(t, i);
    FoundInOrder(t, i + n);
    NothingAheadBefore(t, starts, i, i + n, FindFrom(t, i), select);
    RunIsSkipped(t, starts, i, select);
  }

  /** The rescan, in step with the first scan. */
  lemma {:induction false} RescanFrom(t: string, starts: set<nat>, i: nat, select: Expression -> bool)
    requires i <= |t| && StartsAhead(t, starts, i, select)
    ensures RescanAgrees(t, starts, i, select) <==> Rescannable(t, FindFrom(t, i), select)
    decreases |t| - i
  {
    if i + 1 >= |t| {
      EndOfText(t, starts, i);
    } else if !LiveAt(t, i) {
      DeadInStep(t, starts, i, select);
      RescanFrom(t, starts, i + 1, select);
    } else if Braces(t, i) > 3 {
      RunInStep(t, starts, i, Braces(t, i), select);
      RescanFrom(t, starts, i + Braces(t, i), select);
    } else if Closing(t, i).None? {
      NothingCloses(t, i);
      StaysOpen(t, starts, i);
    } else {
      RescanFound(t, starts, i, Closing(t, i).value, select);
    }
  }

  lemma {:induction false} EndOfText(t: string, starts: set<nat>, i: nat)
    requires i <= |t| <= i + 1 && forall k :: k >= i ==> k !in starts
    ensures FindFrom(Escaped(t, starts, 0), Gap(starts, i)) == []
  {
    EscapedSuffix(t, starts, i);
    assert |Escaped(t, starts, i)| == |t| - i;
  }

  lemma {:induction false} RunIsSkipped(t: string, starts: set<nat>, i: nat, select: Expression -> bool)
    requires i <= |t| && LiveAt(t, i) && Braces(t, i) > 3 && StartsAhead(t, starts, i, select)
    requires forall k :: i <= k < i + Braces(t, i) ==> k !in starts
    ensures i + Braces(t, i) <= |t|
    ensures FindFrom(Escaped(t, starts, 0), Gap(starts, i))
         == FindFrom(Escaped(t, starts, 0), Gap(starts, i + Braces(t, i)))
  {
    var n := Braces(t, i);
    BracesBound(t, i);
    NoStartAfterRun(t, starts, i, n, select);
    RunSkippedThere(t, starts, i, n, Escaped(t, starts, 0), Gap(starts, i));
  }

  lemma {:induction false} RunSkippedThere(t: string, starts: set<nat>, i: nat, n: nat, out: string, at: nat)
    requires LiveAt(t, i) && n == Braces(t, i) > 3 && i + n <= |t| && out == Escaped(t, starts, 0) && at == Gap(starts, i)
    requires forall k :: i <= k <= i + n ==> k !in starts
    ensures FindFrom(out, at) == FindFrom(out, Gap(starts, i + n))
  {
    StaysLive(t, starts, i);
    GapOverPlain(starts, i, n);
    RunSkipsBy(out, at, n);
  }

  lemma {:induction false} RunSkipsBy(s: string, at: nat, n: nat)
    requires LiveAt(s, at) && Braces(s, at) == n > 3
    ensures FindFrom(s, at) == FindFrom(s, at + n)
  {
    RunSkips(s, at);
  }

  lemma {:induction false} GapOverPlain(starts: set<nat>, i: nat, n: nat)
    requires forall k :: i <= k < i + n ==> k !in starts
    ensures Gap(starts, i + n) == Gap(starts, i) + n
    decreases n
  {
    if n > 0 {
      GapOverPlain(starts, i, n - 1);
    }
  }

  lemma {:induction false} NoStartAfterRun(t: string, starts: set<nat>, i: nat, n: nat, select: Expression -> bool)
    requires LiveAt(t, i) && n == Braces(t, i) > 3 && i + n <= |t| && StartsAhead(t, starts, i, select)
    requires i + n < |t| ==> t[i + n] != '{'
    ensures i + n !in starts
  {
    RunSkips(t, i);
    FoundInOrder(t, i + n);
    StartsOfMembers(t, i + n, FindFrom(t, i + n), select, i + n);
  }

  /** An unselected expression is left where both scans find it. */
  lemma {:induction false} RescanUnselected(t: string, starts: set<nat>, i: nat, end: nat, select: Expression -> bool)
    requires FoundAt(t, i, end) && i + 4 <= end <= |t| && i !in starts && Untouched(starts, i, end)
    requires !select(ExpressionAt(t, i, end, Braces(t, i)))
    ensures RescanAgrees(t, starts, i, select) <==> RescanAgrees(t, starts, end, select)
  {
    var e, rest := ExpressionAt(t, i, end, Braces(t, i)), FindFrom(t, end);
    FoundThere(t, i, end);
    UnselectedIsFoundAgain(t, starts, i, end);
    var again := FindFrom(Escaped(t, starts, 0), Gap(starts, end));
    assert ([e] + rest)[1..] == rest;
    assert ([Moved(starts, e)] + again)[1..] == again;
    assert ([Moved(starts, e)] + Left(rest, select, starts))[1..] == Left(rest, select, starts);
  }

  // ----- Inside a selected expression -----

  /** A run of opening braces in front of a closing one ends before it. */
  lemma {:induction false} RunEndsBefore(t: string, k: nat, end: nat)
    requires k < end <= |t| && t[end - 1] == '}'
    ensures k + Braces(t, k) < end
  {
    BracesBound(t, k);
  }

  /** The second scan passes over everything up to the first opening it looks into. */
  lemma {:induction false} InnerSkipped(t: string, starts: set<nat>, k: nat, end: nat, out: string)
    requires 0 < end && k <= end <= |t| && t[end - 1] == '}' && out == Escaped(t, starts, 0)
    requires forall m :: k <= m < end ==> m !in starts
    ensures var opening := InnerOpening(t, k, end);
            FindFrom(out, Gap(starts, k)) == FindFrom(out, Gap(starts, if opening.Some? then opening.value else end))
    decreases end - k
  {
    if k < end {
      RunEndsBefore(t, k, end);
      if !LiveAt(t, k) {
        StaysDead(t, starts, k);
        InnerSkipped(t, starts, k + 1, end, out);
      } else if Braces(t, k) > 3 {
        RunSkippedThere(t, starts, k, Braces(t, k), out, Gap(starts, k));
        InnerSkipped(t, starts, k + Braces(t, k), end, out);
      }
    }
  }

  /** Every backslash from p on goes in at a live opening. */
  ghost predicate LiveStarts(t: string, starts: set<nat>, p: nat) {
    forall m :: m in starts && m >= p ==> LiveAt(t, m)
  }

  lemma {:induction false} ClosingRunKept(t: string, starts: set<nat>, p: nat, m: nat, out: string)
    requires p <= |t| && out == Escaped(t, starts, 0) && ClosesAt(out, Gap(starts, p), m)
    ensures p + m <= |t| && Gap(starts, p + m) == Gap(starts, p) + m
    ensures forall k :: p <= k < p + m ==> t[k] == '}'
    decreases m
  {
    if m > 0 {
      var q := p + m - 1;
      ClosingRunKept(t, starts, p, m - 1, out);
      EscapedSuffix(t, starts, q);
      assert out[Gap(starts, q)] == '}';
      EscapedSuffix(t, starts, |t|);
      assert q != |t|;
      NewCharacter(t, starts, q);
    }
  }

  /** Closing braces stand where they stood. */
  lemma {:induction false} ClosesKept(t: string, starts: set<nat>, p: nat, n: nat, out: string)
    requires p <= |t| && out == Escaped(t, starts, 0) && LiveStarts(t, starts, p) && n >= 1
    ensures ClosesAt(out, Gap(starts, p), n) <==> ClosesAt(t, p, n)
  {
    if ClosesAt(t, p, n) {
      assert forall m :: p <= m < p + n ==> m !in starts;
      StretchMoves(t, starts, p, p + n);
      CloseIsLocal(t, p, out, Gap(starts, p), n, n);
    }
    if ClosesAt(out, Gap(starts, p), n) {
      ClosingRunKept(t, starts, p, n, out);
    }
  }

  /** Reading past a backslash that was put in comes to the same place as reading past its brace. */
  lemma {:induction false} EndPastBackslash(
      t: string, starts: set<nat>, p: nat, n: nat, quote: Option<char>, out: string, at: nat)
    requires p in starts && LiveAt(t, p) && n >= 1 && (quote.Some? ==> IsQuote(quote.value))
    requires out == Escaped(t, starts, 0) && at == Gap(starts, p)
    ensures EndFrom(out, at, n, quote) == EndFrom(out, Gap(starts, p + 1), n, quote)
    ensures EndFrom(t, p, n, quote) == EndFrom(t, p + 1, n, quote)
  {
    NewCharacter(t, starts, p);
    assert out[at] == '\\' && out[at + 1] == '{' && Gap(starts, p + 1) == at + 2;
    if quote.None? {
      assert EndFrom(out, at, n, quote) == EndFrom(out, at + 1, n, quote);
    }
  }

  /** The backslashes change neither whether an expression closes nor what is quoted on the way. */
  lemma {:induction false} EndKept(t: string, starts: set<nat>, p: nat, n: nat, quote: Option<char>, out: string)
    requires p <= |t| && out == Escaped(t, starts, 0) && LiveStarts(t, starts, p) && n >= 1
    requires quote.Some? ==> IsQuote(quote.value)
    ensures EndFrom(out, Gap(starts, p), n, quote).Some? <==> EndFrom(t, p, n, quote).Some?
    decreases |t| - p
  {
    EscapedSuffix(t, starts, p);
    if p == |t| {
      assert out[Gap(starts, p)..] == "";
    } else if p in starts {
      EndPastBackslash(t, starts, p, n, quote, out, Gap(starts, p));
      EndKept(t, starts, p + 1, n, quote, out);
    } else {
      NewCharacter(t, starts, p);
      EndKeptPlain(t, starts, p, n, quote, out, Gap(starts, p));
    }
  }

  lemma {:induction false} EndKeptPlain(
      t: string, starts: set<nat>, p: nat, n: nat, quote: Option<char>, out: string, at: nat)
    requires p < |t| && p !in starts && out == Escaped(t, starts, 0) && at == Gap(starts, p) && at < |out|
    requires LiveStarts(t, starts, p) && n >= 1 && (quote.Some? ==> IsQuote(quote.value))
    requires out[at] == t[p] && Gap(starts, p + 1) == at + 1
    ensures EndFrom(out, at, n, quote).Some? <==> EndFrom(t, p, n, quote).Some?
    decreases |t| - p, 1
  {
    if quote.Some? {
      if t[p] == '\\' {
        EndKeptEscape(t, starts, p, n, quote, out, at);
      } else {
        EndKept(t, starts, p + 1, n, if t[p] == quote.value then None else quote, out);
      }
    } else if IsQuote(t[p]) {
      EndKept(t, starts, p + 1, n, Some(t[p]), out);
    } else {
      ClosesKept(t, starts, p, n, out);
      EndKept(t, starts, p + 1, n, None, out);
    }
  }

  lemma {:induction false} EndKeptEscape(
      t: string, starts: set<nat>, p: nat, n: nat, quote: Option<char>, out: string, at: nat)
    requires p < |t| && p !in starts && out == Escaped(t, starts, 0) && at == Gap(starts, p) && at < |out|
    requires LiveStarts(t, starts, p) && n >= 1 && quote.Some? && IsQuote(quote.value)
    requires out[at] == t[p] == '\\' && Gap(starts, p + 1) == at + 1
    ensures EndFrom(out, at, n, quote).Some? <==> EndFrom(t, p, n, quote).Some?
    decreases |t| - p, 0
  {
    EscapedSuffix(t, starts, p + 1);
    if p + 1 == |t| {
      assert out[at + 1..] == "";
    } else {
      NewCharacter(t, starts, p + 1);
      EndKept(t, starts, p + 2, n, quote, out);
    }
  }

  /** Where the second scan looks into an opening inside a selected expression, it sees an expression
      that starts there if the opening closes, and stops if it does not. */
  lemma {:induction false} LooksInside(t: string, starts: set<nat>, k: nat, out: string)
    requires LiveAt(t, k) && Braces(t, k) <= 3 && k !in starts && Untouched(starts, k, k + Braces(t, k) + 1)
    requires out == Escaped(t, starts, 0) && LiveStarts(t, starts, k)
    ensures Closing(t, k).None? ==> FindFrom(out, Gap(starts, k)) == []
    ensures Closing(t, k).Some? ==>
              FindFrom(out, Gap(starts, k)) != [] && FindFrom(out, Gap(starts, k))[0].start == Gap(starts, k)
  {
    var n, at := Braces(t, k), Gap(starts, k);
    BracesBound(t, k);
    LiveHasTwo(t, k);
    StaysLive(t, starts, k);
    GapOverPlain(starts, k, n);
    EndKept(t, starts, k + n, n, None, out);
    if Closing(t, k).Some? {
      FoundHere(out, at, n, EndFrom(out, at + n, n, None).value);
      FoundThere(out, at, EndFrom(out, at + n, n, None).value);
    } else {
      OpenHere(out, at, n);
    }
  }

  lemma {:induction false} NothingLeft(es: seq<Expression>, select: Expression -> bool, starts: set<nat>)
    ensures Left(es, select, starts) == [] <==> forall e :: e in es ==> select(e)
  {
    if es != [] {
      NothingLeft(es[1..], select, starts);
      assert forall e :: e in es <==> e == es[0] || e in es[1..];
    }
  }

  lemma {:induction false} StartsAreLive(t: string, starts: set<nat>, i: nat, select: Expression -> bool)
    requires StartsAhead(t, starts, i, select)
    ensures LiveStarts(t, starts, i)
  {
    FoundInOrder(t, i);
    forall m | m in starts && m >= i ensures LiveAt(t, m) {
      StartsOfMembers(t, i, FindFrom(t, i), select, m);
    }
  }

  /** A selected two-brace expression without an opening to look into is passed by the second scan. */
  lemma {:induction false} RescanPasses(t: string, starts: set<nat>, i: nat, end: nat, select: Expression -> bool)
    requires FoundAt(t, i, end) && i + 4 <= end <= |t| && i in starts && Untouched(starts, i, end)
    requires select(ExpressionAt(t, i, end, Braces(t, i))) && InnerOpening(t, i + 1, end).None?
    ensures RescanAgrees(t, starts, i, select) <==> RescanAgrees(t, starts, end, select)
  {
    FoundThere(t, i, end);
    var e, rest := ExpressionAt(t, i, end, Braces(t, i)), FindFrom(t, end);
    assert ([e] + rest)[1..] == rest;
    EscapedIsPassed(t, starts, i);
    EndsInBrace(t, i, end);
    InnerSkipped(t, starts, i + 1, end, Escaped(t, starts, 0));
    assert Left([e] + rest, select, starts) == Left(rest, select, starts);
  }

  lemma {:induction false} EndsInBrace(t: string, i: nat, end: nat)
    requires FoundAt(t, i, end)
    ensures 0 < end <= |t| && t[end - 1] == '}'
  {
    FoundThere(t, i, end);
    EndBound(t, i + Braces(t, i), Braces(t, i), None);
  }

  /** Up to such an opening the second scan finds nothing. */
  lemma {:induction false} OpeningIsReached(t: string, starts: set<nat>, i: nat, end: nat, k: nat, out: string)
    requires FoundAt(t, i, end) && i + 4 <= end <= |t| && i in starts && Untouched(starts, i, end)
    requires InnerOpening(t, i + 1, end) == Some(k) && LiveStarts(t, starts, i) && out == Escaped(t, starts, 0)
    ensures FindFrom(out, Gap(starts, i)) == FindFrom(out, Gap(starts, k))
    ensures Closing(t, k).None? ==> FindFrom(out, Gap(starts, k)) == []
    ensures Closing(t, k).Some? ==>
              FindFrom(out, Gap(starts, k)) != [] && FindFrom(out, Gap(starts, k))[0].start == Gap(starts, k)
  {
    EscapedIsPassed(t, starts, i);
    EndsInBrace(t, i, end);
    RunEndsBefore(t, k, end);
    InnerSkipped(t, starts, i + 1, end, out);
    LooksInside(t, starts, k, out);
  }

  /** What is found at such an opening is not among what was left. */
  lemma {:induction false} FoundTooEarly(
      t: string, starts: set<nat>, end: nat, k: nat, rest: seq<Expression>, select: Expression -> bool)
    requires k + 1 <= end && InOrder(t, end, rest)
    ensures forall m :: 0 <= m < |Left(rest, select, starts)| ==> Left(rest, select, starts)[m].start > Gap(starts, k)
  {
    LeftLiesBeyond(t, starts, end, k + 1, rest, select);
    GapGrows(starts, k, k + 1);
  }

  /** With such an opening, the two scans agree exactly when it never closes and nothing is left. */
  lemma {:induction false} RescanLooksInside(
      t: string, starts: set<nat>, i: nat, end: nat, k: nat, select: Expression -> bool)
    requires FoundAt(t, i, end) && i + 4 <= end <= |t| && i in starts && Untouched(starts, i, end)
    requires select(ExpressionAt(t, i, end, Braces(t, i))) && InnerOpening(t, i + 1, end) == Some(k)
    requires LiveStarts(t, starts, i)
    ensures RescanAgrees(t, starts, i, select)
       <==> Closing(t, k).None? && forall e :: e in FindFrom(t, end) ==> select(e)
  {
    FoundThere(t, i, end);
    var e, rest := ExpressionAt(t, i, end, Braces(t, i)), FindFrom(t, end);
    assert ([e] + rest)[1..] == rest;
    OpeningIsReached(t, starts, i, end, k, Escaped(t, starts, 0));
    NothingLeft(rest, select, starts);
    FoundTooEarly(t, starts, end, k, rest, select);
    assert Left([e] + rest, select, starts) == Left(rest, select, starts);
  }

  /** A selected three-brace expression makes the two scans differ. */
  lemma {:induction false} RescanTriple(t: string, starts: set<nat>, i: nat, end: nat, select: Expression -> bool)
    requires FoundAt(t, i, end) && i + 4 <= end <= |t| && i in starts && Untouched(starts, i, end)
    requires select(ExpressionAt(t, i, end, Braces(t, i))) && Braces(t, i) == 3
    ensures !RescanAgrees(t, starts, i, select)
  {
    FoundThere(t, i, end);
    var e, rest := ExpressionAt(t, i, end, Braces(t, i)), FindFrom(t, end);
    assert ([e] + rest)[1..] == rest;
    TripleIsFoundInside(t, starts, i, end);
    LeftLiesBeyond(t, starts, end, i + 2, rest, select);
    GapGrows(starts, i + 1, i + 2);
    assert Left([e] + rest, select, starts) == Left(rest, select, starts);
  }

  lemma {:induction false} RescanFound(t: string, starts: set<nat>, i: nat, end: nat, select: Expression -> bool)
    requires i <= |t| && FoundAt(t, i, end) && StartsAhead(t, starts, i, select)
    ensures RescanAgrees(t, starts, i, select) <==> Rescannable(t, FindFrom(t, i), select)
    decreases |t| - i, 0
  {
    FoundThere(t, i, end);
    AheadOfFound(t, starts, i, end, select);
    var e, rest := ExpressionAt(t, i, end, Braces(t, i)), FindFrom(t, end);
    assert ([e] + rest)[0] == e && ([e] + rest)[1..] == rest;
    if !select(e) {
      RescanUnselected(t, starts, i, end, select);
      RescanFrom(t, starts, end, select);
    } else if !TwoBraces(t, e) {
      RescanTriple(t, starts, i, end, select);
    } else {
      match InnerOpening(t, i + 1, end)
      case None =>
        RescanPasses(t, starts, i, end, select);
        RescanFrom(t, starts, end, select);
      case Some(k) =>
        StartsAreLive(t, starts, i, select);
        RescanLooksInside(t, starts, i, end, k, select);
    }
  }

  /** Escaping and scanning again agree, so that the scan of the output finds the unselected
      expressions, moved, and nothing else, exactly when the template is rescannable. */
  lemma {:induction false} RescanAgreesExactlyWhen(t: string, select: Expression -> bool)
    ensures Find(EscapedTemplate(t, select)) == Left(Find(t), select, StartsOf(Find(t), select))
       <==> Rescannable(t, Find(t), select)
  {
    RescanFrom(t, StartsOf(Find(t), select), 0, select);
  }
}
