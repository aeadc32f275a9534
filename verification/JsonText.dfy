/** JSON text, by the grammar of sections 2, 4, 5, 6 and 7 of RFC 8259, over code points. */
module JsonText {
  import opened Surrogates

  const QUOTE: CodePoint := 0x22
  const BACKSLASH: CodePoint := 0x5C
  const OPEN_BRACE: CodePoint := 0x7B
  const CLOSE_BRACE: CodePoint := 0x7D
  const OPEN_BRACKET: CodePoint := 0x5B
  const CLOSE_BRACKET: CodePoint := 0x5D
  const COMMA: CodePoint := 0x2C
  const COLON: CodePoint := 0x3A
  const LOWER_U: CodePoint := 0x75

  predicate Blank(c: CodePoint) {
    c == 0x20 || c == 0x09 || c == 0x0A || c == 0x0D
  }

  predicate Digit(c: CodePoint) {
    0x30 <= c <= 0x39
  }

  predicate Hex(c: CodePoint) {
    Digit(c) || 0x41 <= c <= 0x46 || 0x61 <= c <= 0x66
  }

  /** What may follow a backslash: the quote, backslash, solidus, b, f, n, r and t. */
  predicate Escapable(c: CodePoint) {
    c == QUOTE || c == BACKSLASH || c == 0x2F || c == 0x62 || c == 0x66 || c == 0x6E || c == 0x72 || c == 0x74
  }

  datatype Char =
    | Plain(c: CodePoint)
    | Escape(c: CodePoint)
    | Unicode(h0: CodePoint, h1: CodePoint, h2: CodePoint, h3: CodePoint)

  predicate CharOk(ch: Char) {
    match ch
    case Plain(c) => c >= 0x20 && c != QUOTE && c != BACKSLASH
    case Escape(c) => Escapable(c)
    case Unicode(a, b, c, d) => Hex(a) && Hex(b) && Hex(c) && Hex(d)
  }

  function CharText(ch: Char): Text {
    match ch
    case Plain(c) => [c]
    case Escape(c) => [BACKSLASH, c]
    case Unicode(a, b, c, d) => [BACKSLASH, LOWER_U, a, b, c, d]
  }

  /** Space as it may surround any structural character. */
  predicate SpaceOk(ws: Text) {
    forall i :: 0 <= i < |ws| ==> Blank(ws[i])
  }

  datatype Value =
    | Literal(text: Text)
    | Number(text: Text)
    | Str(chars: seq<Char>)
    | EmptyArray(ws: Text)
    | Array(items: Items)
    | EmptyObject(ws: Text)
    | Object(members: Members)

  datatype Items =
    | LastItem(before: Text, value: Value, after: Text)
    | MoreItems(before: Text, value: Value, after: Text, rest: Items)

  datatype Members =
    | LastMember(before: Text, key: seq<Char>, mid: Text, mid': Text, value: Value, after: Text)
    | MoreMembers(before: Text, key: seq<Char>, mid: Text, mid': Text, value: Value, after: Text, rest: Members)

  predicate StringOk(chars: seq<Char>) {
    forall i :: 0 <= i < |chars| ==> CharOk(chars[i])
  }

  /** A number's characters. The order the grammar asks for is not needed and not required here. */
  predicate NumberChar(c: CodePoint) {
    Digit(c) || c == 0x2B || c == 0x2D || c == 0x2E || c == 0x45 || c == 0x65
  }

  predicate LowerLetter(c: CodePoint) {
    0x61 <= c <= 0x7A
  }

  predicate ValueOk(v: Value) {
    match v
    case Literal(text) => forall i :: 0 <= i < |text| ==> LowerLetter(text[i])
    case Number(text) => forall i :: 0 <= i < |text| ==> NumberChar(text[i])
    case Str(chars) => StringOk(chars)
    case EmptyArray(ws) => SpaceOk(ws)
    case Array(items) => ItemsOk(items)
    case EmptyObject(ws) => SpaceOk(ws)
    case Object(members) => MembersOk(members)
  }

  predicate ItemsOk(items: Items) {
    match items
    case LastItem(before, value, after) => SpaceOk(before) && ValueOk(value) && SpaceOk(after)
    case MoreItems(before, value, after, rest) => SpaceOk(before) && ValueOk(value) && SpaceOk(after) && ItemsOk(rest)
  }

  predicate MembersOk(members: Members) {
    match members
    case LastMember(before, key, mid, mid', value, after) =>
      SpaceOk(before) && StringOk(key) && SpaceOk(mid) && SpaceOk(mid') && ValueOk(value) && SpaceOk(after)
    case MoreMembers(before, key, mid, mid', value, after, rest) =>
      SpaceOk(before) && StringOk(key) && SpaceOk(mid) && SpaceOk(mid') && ValueOk(value) && SpaceOk(after) && MembersOk(rest)
  }

  function CharsText(chars: seq<Char>): Text
    decreases |chars|
  {
    if chars == [] then [] else CharText(chars[0]) + CharsText(chars[1..])
  }

  function StringText(chars: seq<Char>): Text {
    [QUOTE] + (CharsText(chars) + [QUOTE])
  }

  function ValueText(v: Value): Text {
    match v
    case Literal(text) => text
    case Number(text) => text
    case Str(chars) => StringText(chars)
    case EmptyArray(ws) => [OPEN_BRACKET] + ws + [CLOSE_BRACKET]
    case Array(items) => [OPEN_BRACKET] + ItemsText(items) + [CLOSE_BRACKET]
    case EmptyObject(ws) => [OPEN_BRACE] + ws + [CLOSE_BRACE]
    case Object(members) => [OPEN_BRACE] + MembersText(members) + [CLOSE_BRACE]
  }

  function ItemsText(items: Items): Text {
    match items
    case LastItem(before, value, after) => before + ValueText(value) + after
    case MoreItems(before, value, after, rest) => before + ValueText(value) + after + [COMMA] + ItemsText(rest)
  }

  function MemberText(before: Text, key: seq<Char>, mid: Text, mid': Text, value: Text, after: Text): Text {
    before + StringText(key) + mid + [COLON] + mid' + value + after
  }

  function MembersText(members: Members): Text {
    match members
    case LastMember(before, key, mid, mid', value, after) => MemberText(before, key, mid, mid', ValueText(value), after)
    case MoreMembers(before, key, mid, mid', value, after, rest) =>
      MemberText(before, key, mid, mid', ValueText(value), after) + [COMMA] + MembersText(rest)
  }

  predicate IsObject(v: Value) {
    v.EmptyObject? || v.Object?
  }
}
