/** Finding the JSON object that a policy-denied message carries (platform/shared/mcp-tool-error.ts). */
module JsonObjectEnd {
  import opened Wrappers
  import opened JsStrings
  import opened Surrogates
  import opened JsonText

  // ----- The scanner -----

  datatype Scanner = Scanner(depth: int, inString: bool, isEscaped: bool)

  /** The scanner after one code point that does not end the scan. */
  function After(s: Scanner, c: CodePoint): Scanner {
    if s.inString then
      if s.isEscaped then s.(isEscaped := false)
      else if c == BACKSLASH then s.(isEscaped := true)
      else if c == QUOTE then s.(inString := false)
      else s
    else if c == QUOTE then s.(inString := true)
    else if c == OPEN_BRACE then s.(depth := s.depth + 1)
    else if c == CLOSE_BRACE then s.(depth := s.depth - 1)
    else s
  }

  /** Reading c here closes the object. */
  predicate Closes(s: Scanner, c: CodePoint) {
    !s.inString && c == CLOSE_BRACE && s.depth == 1
  }

  /** The index at which a scan of text from state s stops, if it does. */
  function Scan(s: Scanner, text: Text): Option<nat>
    decreases |text|
  {
    if text == [] then None
    else if Closes(s, text[0]) then Some(0)
    else
      match Scan(After(s, text[0]), text[1..])
      case None => None
      case Some(i) => Some(i + 1)
  }

  function Shifted(n: nat, at: Option<nat>): Option<nat> {
    match at
    case None => None
    case Some(i) => Some(n + i)
  }

  /** Read the whole of front without stopping, ending in state s'. */
  ghost predicate Passes(s: Scanner, front: Text, s': Scanner)
    decreases |front|
  {
    if front == [] then s == s'
    else !Closes(s, front[0]) && Passes(After(s, front[0]), front[1..], s')
  }

  lemma {:induction false} PassesScan(s: Scanner, front: Text, s': Scanner, rest: Text)
    requires Passes(s, front, s')
    ensures Scan(s, front + rest) == Shifted(|front|, Scan(s', rest))
    decreases |front|
  {
    if front == [] {
      assert front + rest == rest;
    } else {
      PassesScan(After(s, front[0]), front[1..], s', rest);
      assert (front + rest)[1..] == front[1..] + rest;
    }
  }

  lemma {:induction false} PassesCompose(a: Scanner, front: Text, b: Scanner, back: Text, c: Scanner)
    requires Passes(a, front, b) && Passes(b, back, c)
    ensures Passes(a, front + back, c)
    decreases |front|
  {
    if front == [] {
      assert front + back == back;
    } else {
      PassesCompose(After(a, front[0]), front[1..], b, back, c);
      assert (front + back)[1..] == front[1..] + back;
    }
  }

  // ----- Over JSON text -----

  /** Between values, at the given depth. */
  function Between(depth: int): Scanner {
    Scanner(depth, false, false)
  }

  predicate Inert(c: CodePoint) {
    c != QUOTE && c != OPEN_BRACE && c != CLOSE_BRACE
  }

  lemma {:induction false} InertPasses(depth: int, text: Text)
    requires forall i :: 0 <= i < |text| ==> Inert(text[i])
    ensures Passes(Between(depth), text, Between(depth))
  {
    if text != [] {
      InertPasses(depth, text[1..]);
    }
  }

  lemma {:induction false} SpacePasses(depth: int, ws: Text)
    requires SpaceOk(ws)
    ensures Passes(Between(depth), ws, Between(depth))
  {
    InertPasses(depth, ws);
  }

  lemma {:induction false} OnePasses(s: Scanner, c: CodePoint)
    requires !Closes(s, c)
    ensures Passes(s, [c], After(s, c))
  {
    assert [c][1..] == [];
  }

  lemma {:induction false} CharPasses(depth: int, ch: Char)
    requires CharOk(ch)
    ensures Passes(Scanner(depth, true, false), CharText(ch), Scanner(depth, true, false))
  {
    var s := Scanner(depth, true, false);
    match ch
    case Plain(c) => OnePasses(s, c);
    case Escape(c) =>
      OnePasses(s, BACKSLASH);
      OnePasses(s.(isEscaped := true), c);
      PassesCompose(s, [BACKSLASH], s.(isEscaped := true), [c], s);
      assert [BACKSLASH] + [c] == [BACKSLASH, c];
    case Unicode(a, b, c, d) =>
      OnePasses(s, BACKSLASH);
      OnePasses(s.(isEscaped := true), LOWER_U);
      PassesCompose(s, [BACKSLASH], s.(isEscaped := true), [LOWER_U], s);
      OnePasses(s, a);
      OnePasses(s, b);
      OnePasses(s, c);
      OnePasses(s, d);
      PassesCompose(s, [a], s, [b], s);
      PassesCompose(s, [c], s, [d], s);
      PassesCompose(s, [a] + [b], s, [c] + [d], s);
      PassesCompose(s, [BACKSLASH] + [LOWER_U], s, ([a] + [b]) + ([c] + [d]), s);
      assert ([BACKSLASH] + [LOWER_U]) + (([a] + [b]) + ([c] + [d])) == CharText(ch);
  }

  lemma {:induction false} CharsPass(depth: int, chars: seq<Char>)
    requires StringOk(chars)
    ensures Passes(Scanner(depth, true, false), CharsText(chars), Scanner(depth, true, false))
  {
    if chars != [] {
      var s := Scanner(depth, true, false);
      CharPasses(depth, chars[0]);
      CharsPass(depth, chars[1..]);
      PassesCompose(s, CharText(chars[0]), s, CharsText(chars[1..]), s);
    }
  }

  /** A string, braces and escaped quotes inside it included, leaves the depth alone. */
  lemma {:induction false} StringPasses(depth: int, chars: seq<Char>)
    requires StringOk(chars)
    ensures Passes(Between(depth), StringText(chars), Between(depth))
  {
    var s := Scanner(depth, true, false);
    OnePasses(Between(depth), QUOTE);
    CharsPass(depth, chars);
    OnePasses(s, QUOTE);
    PassesCompose(s, CharsText(chars), s, [QUOTE], Between(depth));
    PassesCompose(Between(depth), [QUOTE], s, CharsText(chars) + [QUOTE], Between(depth));
  }

  lemma {:induction false} Chain3(s: Scanner, a: Text, b: Text, c: Text)
    requires Passes(s, a, s) && Passes(s, b, s) && Passes(s, c, s)
    ensures Passes(s, a + b + c, s)
  {
    PassesCompose(s, a, s, b, s);
    PassesCompose(s, a + b, s, c, s);
  }

  /** A value inside an object is read through without stopping. */
  lemma {:induction false} ValuePasses(depth: int, v: Value)
    requires depth >= 1 && ValueOk(v)
    ensures Passes(Between(depth), ValueText(v), Between(depth))
    decreases v, 1
  {
    var s := Between(depth);
    match v
    case Literal(text) => InertPasses(depth, text);
    case Number(text) => InertPasses(depth, text);
    case Str(chars) => StringPasses(depth, chars);
    case EmptyArray(ws) =>
      OnePasses(s, OPEN_BRACKET);
      SpacePasses(depth, ws);
      OnePasses(s, CLOSE_BRACKET);
      Chain3(s, [OPEN_BRACKET], ws, [CLOSE_BRACKET]);
    case Array(items) =>
      OnePasses(s, OPEN_BRACKET);
      ItemsPass(depth, items);
      OnePasses(s, CLOSE_BRACKET);
      Chain3(s, [OPEN_BRACKET], ItemsText(items), [CLOSE_BRACKET]);
    case EmptyObject(ws) =>
      SpacePasses(depth + 1, ws);
      BracedPasses(depth, ws);
    case Object(members) =>
      MembersPass(depth + 1, members);
      BracedPasses(depth, MembersText(members));
  }

  /** Inside at least one object already, a nested object is no end. */
  lemma {:induction false} BracedPasses(depth: int, inner: Text)
    requires depth >= 1 && Passes(Between(depth + 1), inner, Between(depth + 1))
    ensures Passes(Between(depth), [OPEN_BRACE] + inner + [CLOSE_BRACE], Between(depth))
  {
    OnePasses(Between(depth), OPEN_BRACE);
    OnePasses(Between(depth + 1), CLOSE_BRACE);
    PassesCompose(Between(depth), [OPEN_BRACE], Between(depth + 1), inner, Between(depth + 1));
    PassesCompose(Between(depth), [OPEN_BRACE] + inner, Between(depth + 1), [CLOSE_BRACE], Between(depth));
  }

  lemma {:induction false} ItemsPass(depth: int, items: Items)
    requires depth >= 1 && ItemsOk(items)
    ensures Passes(Between(depth), ItemsText(items), Between(depth))
    decreases items, 0
  {
    var s := Between(depth);
    SpacePasses(depth, items.before);
    ValuePasses(depth, items.value);
    SpacePasses(depth, items.after);
    var item := items.before + ValueText(items.value) + items.after;
    Chain3(s, items.before, ValueText(items.value), items.after);
    if items.MoreItems? {
      OnePasses(s, COMMA);
      ItemsPass(depth, items.rest);
      Chain3(s, item, [COMMA], ItemsText(items.rest));
    }
  }

  lemma {:induction false} MembersPass(depth: int, members: Members)
    requires depth >= 1 && MembersOk(members)
    ensures Passes(Between(depth), MembersText(members), Between(depth))
    decreases members, 0
  {
    var s := Between(depth);
    var m := members;
    SpacePasses(depth, m.before);
    StringPasses(depth, m.key);
    SpacePasses(depth, m.mid);
    OnePasses(s, COLON);
    SpacePasses(depth, m.mid');
    ValuePasses(depth, m.value);
    SpacePasses(depth, m.after);
    Chain3(s, m.before, StringText(m.key), m.mid);
    Chain3(s, m.before + StringText(m.key) + m.mid, [COLON], m.mid');
    Chain3(s, m.before + StringText(m.key) + m.mid + [COLON] + m.mid', ValueText(m.value), m.after);
    if members.MoreMembers? {
      OnePasses(s, COMMA);
      MembersPass(depth, m.rest);
      Chain3(s, MemberText(m.before, m.key, m.mid, m.mid', ValueText(m.value), m.after), [COMMA], MembersText(m.rest));
    }
  }

  /** The scan of any JSON object, whatever follows it, stops on the object's final brace. */
  lemma {:induction false} ObjectEndFound(v: Value, rest: Text)
    requires ValueOk(v) && IsObject(v)
    ensures Scan(Between(0), ValueText(v) + rest) == Some(|ValueText(v)| - 1)
  {
    if v.EmptyObject? {
      SpacePasses(1, v.ws);
      BracedEnd(v.ws, ValueText(v), rest);
    } else {
      MembersPass(1, v.members);
      BracedEnd(MembersText(v.members), ValueText(v), rest);
    }
  }

  lemma {:induction false} BracedEnd(inner: Text, text: Text, rest: Text)
    requires Passes(Between(1), inner, Between(1)) && text == [OPEN_BRACE] + inner + [CLOSE_BRACE]
    ensures Scan(Between(0), text + rest) == Some(|text| - 1)
  {
    var front := [OPEN_BRACE] + inner;
    OnePasses(Between(0), OPEN_BRACE);
    PassesCompose(Between(0), [OPEN_BRACE], Between(1), inner, Between(1));
    PassesScan(Between(0), front, Between(1), [CLOSE_BRACE] + rest);
    assert front + ([CLOSE_BRACE] + rest) == text + rest;
    assert ([CLOSE_BRACE] + rest)[0] == CLOSE_BRACE;
  }

  // ----- JavaScript strings -----

  /** A UTF-16 code unit. Array.from(s) is Joined(s): a surrogate pair is one element. */
  type Unit = u: int | 0 <= u < 0x1_0000

  // ----- The code -----

  /** findBalancedJsonObjectEnd: an index into the code points, or -1. */
  method FindBalancedJsonObjectEnd(input: seq<Unit>) returns (end: int)
    ensures end == match Scan(Between(0), Joined(input)) case None => -1 case Some(i) => i
  {
    var depth := 0;
    var inString := false;
    var isEscaped := false;
    var chars := Joined(input);
    for index := 0 to |chars|
      invariant Scan(Between(0), chars) == Shifted(index, Scan(Scanner(depth, inString, isEscaped), chars[index..]))
    {
      var c := chars[index];
      assert chars[index..][1..] == chars[index + 1..];
      if inString {
        if isEscaped {
          isEscaped := false;
        } else if c == BACKSLASH {
          isEscaped := true;
        } else if c == QUOTE {
          inString := false;
        }
        continue;
      }
      if c == QUOTE {
        inString := true;
        continue;
      }
      if c == OPEN_BRACE {
        depth := depth + 1;
        continue;
      }
      if c == CLOSE_BRACE {
        depth := depth - 1;
        if depth == 0 {
          return index;
        }
      }
    }
    return -1;
  }

  function TrimStart(s: seq<Unit>): seq<Unit> {
    if s != [] && JsSpace(s[0]) then TrimStart(s[1..]) else s
  }

  function TrimEnd(s: seq<Unit>): seq<Unit> {
    if s != [] && JsSpace(s[|s| - 1]) then TrimEnd(s[..|s| - 1]) else s
  }

  function Trim(s: seq<Unit>): seq<Unit> {
    TrimEnd(TrimStart(s))
  }

  /** a is the first n units of s without the white space they end in. */
  predicate CutAt(s: seq<Unit>, n: nat, a: seq<Unit>) {
    && n <= |s| && |a| <= n && a <= s
    && (a != [] ==> !JsSpace(a[|a| - 1]))
    && forall k :: |a| <= k < n ==> JsSpace(s[k])
  }

  /** What a caller may rely on: nothing comes back unless the message goes on with an object that
      closes, and then it is as many code units as the object has code points, trimmed at its end. */
  ghost predicate ArgumentsOf(message: seq<Unit>, arguments: Option<seq<Unit>>) {
    var remainder := TrimStart(message);
    var end := Scan(Between(0), Joined(remainder));
    if remainder == [] || remainder[0] != OPEN_BRACE || end.None? then arguments.None?
    else arguments.Some? && CutAt(remainder, end.value + 1, arguments.value)
  }

  lemma {:induction false} ScanStopsInside(s: Scanner, text: Text)
    ensures Scan(s, text).Some? ==> Scan(s, text).value < |text|
    decreases |text|
  {
    if text != [] {
      ScanStopsInside(After(s, text[0]), text[1..]);
    }
  }

  lemma {:induction false} TrimEndCuts(s: seq<Unit>)
    ensures CutAt(s, |s|, TrimEnd(s))
  {
    if s != [] && JsSpace(s[|s| - 1]) {
      TrimEndCuts(s[..|s| - 1]);
    }
  }

  /** extractToolArgumentsFromPolicyDeniedMessage, given what follows the marker. */
  method ExtractToolArguments(message: seq<Unit>) returns (arguments: Option<seq<Unit>>)
    ensures ArgumentsOf(message, arguments)
  {
    var remainder := TrimStart(message);
    if remainder == [] || remainder[0] != OPEN_BRACE {
      return None;
    }
    var end := FindBalancedJsonObjectEnd(remainder);
    if end < 0 {
      return None;
    }
    ScanStopsInside(Between(0), Joined(remainder));
    JoinedLength(remainder);
    var slice := remainder[..end + 1];
    assert TrimStart(slice) == slice;
    TrimEndCuts(slice);
    return Some(Trim(slice));
  }

  lemma {:induction false} CutIsNoLonger(s: seq<Unit>, n: nat, x: seq<Unit>, y: seq<Unit>)
    requires CutAt(s, n, x) && CutAt(s, n, y)
    ensures |y| <= |x|
  {
    if y != [] {
      assert y[|y| - 1] == s[|y| - 1];
    }
  }

  lemma {:induction false} CutIsUnique(s: seq<Unit>, n: nat, x: seq<Unit>, y: seq<Unit>)
    requires CutAt(s, n, x) && CutAt(s, n, y)
    ensures x == y
  {
    CutIsNoLonger(s, n, x, y);
    CutIsNoLonger(s, n, y, x);
  }

  /** That leaves one possible answer. */
  lemma {:induction false} ArgumentsAreUnique(message: seq<Unit>, a: Option<seq<Unit>>, b: Option<seq<Unit>>)
    requires ArgumentsOf(message, a) && ArgumentsOf(message, b)
    ensures a == b
  {
    if a.Some? {
      var remainder := TrimStart(message);
      CutIsUnique(remainder, Scan(Between(0), Joined(remainder)).value + 1, a.value, b.value);
    }
  }

  lemma {:induction false} TrimStartSkips(ws: seq<Unit>, s: seq<Unit>)
    requires forall i :: 0 <= i < |ws| ==> JsSpace(ws[i])
    requires s != [] && !JsSpace(s[0])
    ensures TrimStart(ws + s) == s
  {
    if ws == [] {
      assert ws + s == s;
    } else {
      TrimStartSkips(ws[1..], s);
      assert (ws + s)[1..] == ws[1..] + s;
    }
  }

  /** The text of an object comes back whole exactly when it holds no surrogate pair. The end is
      counted in code points but the message is cut in code units, so every pair in the object
      costs one unit at its end; without a pair, what the scan finds is the object itself. */
  lemma {:induction false} ArgumentsComeBackExactlyWhen(
      ws: seq<Unit>, obj: seq<Unit>, v: Value, rest: seq<Unit>, arguments: Option<seq<Unit>>)
    requires forall i :: 0 <= i < |ws| ==> JsSpace(ws[i])
    requires Joined(obj) == ValueText(v) && ValueOk(v) && IsObject(v)
    requires ArgumentsOf(ws + obj + rest, arguments)
    ensures arguments.Some? && CutAt(obj, |Joined(obj)|, arguments.value)
    ensures arguments == Some(obj) <==> !HasPair(obj)
  {
    var text := ValueText(v);
    assert text[0] == OPEN_BRACE && text[|text| - 1] == CLOSE_BRACE;
    assert obj != [];
    JoinedEnds(obj);
    assert ws + obj + rest == ws + (obj + rest);
    TrimStartSkips(ws, obj + rest);
    JoinedAppend(obj, rest);
    ObjectEndFound(v, Joined(rest));
    JoinedLength(obj);
    CutInFront(obj, rest, |text|, arguments.value);
  }

  lemma {:induction false} CutInFront(obj: seq<Unit>, rest: seq<Unit>, n: nat, a: seq<Unit>)
    requires n <= |obj| && obj != [] && !JsSpace(obj[|obj| - 1]) && CutAt(obj + rest, n, a)
    ensures CutAt(obj, n, a)
    ensures a == obj <==> n == |obj|
  {
    assert forall k :: 0 <= k < n ==> (obj + rest)[k] == obj[k];
    if n == |obj| {
      assert CutAt(obj + rest, n, obj);
      CutIsUnique(obj + rest, n, a, obj);
    }
  }

  // ----- An object that loses its brace -----

  /** {"\u{1F600}":1} in code units. */
  const SMILE: seq<Unit> := [0x7B, 0x22, 0xD83D, 0xDE00, 0x22, 0x3A, 0x31, 0x7D]

  function SmileValue(): Value {
    var none: Text := [];
    Object(LastMember(none, [Plain(0x1F600)], none, none, Number([0x31]), none))
  }

  lemma {:induction false} SmileIsObject()
    ensures Joined(SMILE) == ValueText(SmileValue()) && ValueOk(SmileValue()) && IsObject(SmileValue())
  {
    JoinedSmile();
    var key := [Plain(0x1F600)];
    assert CharsText(key[1..]) == [] && CharsText(key) == [0x1F600];
    assert StringText(key) == [0x22, 0x1F600, 0x22];
    assert MembersText(SmileValue().members) == [0x22, 0x1F600, 0x22, 0x3A, 0x31];
  }

  lemma {:induction false} JoinedSmile()
    ensures Joined(SMILE) == [0x7B, 0x22, 0x1F600, 0x22, 0x3A, 0x31, 0x7D]
  {
    var tail: Text := [0x22, 0x3A, 0x31, 0x7D];
    JoinedIsSame(tail);
    assert Joined([0xD83D, 0xDE00] + tail) == [0x1F600] + Joined(tail) by {
      assert ([0xD83D, 0xDE00] + tail)[2..] == tail;
    }
    var fromKey: Text := [0x22] + ([0xD83D, 0xDE00] + tail);
    assert fromKey[1..] == [0xD83D, 0xDE00] + tail;
    assert SMILE[1..] == fromKey;
  }

  lemma {:induction false} SevenUnitsOfSmile(a: seq<Unit>)
    requires CutAt(SMILE, 7, a)
    ensures a == SMILE[..7]
  {
    assert CutAt(SMILE, 7, SMILE[..7]);
    CutIsUnique(SMILE, 7, a, SMILE[..7]);
  }

  lemma {:induction false} SmileInMessage(rest: seq<Unit>, arguments: Option<seq<Unit>>)
    requires ArgumentsOf(SMILE + rest, arguments)
    ensures arguments.Some? && CutAt(SMILE, |Joined(SMILE)|, arguments.value)
  {
    var none: seq<Unit> := [];
    assert none + SMILE + rest == SMILE + rest;
    SmileIsObject();
    ArgumentsComeBackExactlyWhen(none, SMILE, SmileValue(), rest, arguments);
  }

  /** An object whose one key is U+1F600 comes back without its final brace. */
  lemma {:induction false} SmileLosesItsBrace(rest: seq<Unit>, arguments: Option<seq<Unit>>)
    requires ArgumentsOf(SMILE + rest, arguments)
    ensures arguments == Some(SMILE[..7])
  {
    SmileInMessage(rest, arguments);
    JoinedSmile();
    SevenUnitsOfSmile(arguments.value);
  }
}
