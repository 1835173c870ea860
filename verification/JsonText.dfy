/** JSON texts (RFC 8259) as a grammar: every choice of white space, of string
    spelling (section 7) and of nesting.  With the scanners it shares only the
    encoding of a character, which `ToolArgText` shows to be UTF-8. */
module JsonText {
  import opened Unicode
  import opened GoStrings
  import opened ToolArgScanner

  /** One character of a string as section 7 of RFC 8259 has it: itself, a short
      escape, or the escape of a UTF-16 code unit, which may be a surrogate. */
  datatype Spelling =
    | Raw(r: Scalar)
    | Short(r: Scalar, letter: Byte)
    | Hex(unit: int, digits: Bytes)
  {
    predicate Legal() {
      match this
      case Raw(r) => r >= 0x20 && r != 0x22 && r != 0x5C
      case Short(r, letter) =>
        (r, letter) in {(34, 34), (92, 92), (47, 47), (8, 98), (12, 102), (10, 110), (13, 114), (9, 116)}
      case Hex(unit, digits) => 0 <= unit < 0x10000 && Spells(digits, unit)
    }

    function Text(): Bytes {
      match this
      case Raw(r) => EncodeRune(r)
      case Short(_, letter) => [BACKSLASH, letter]
      case Hex(_, digits) => [BACKSLASH, LOWER_U] + digits
    }

    predicate High() { Hex? && IsHighSurrogate(unit) }

    predicate Low() { Hex? && IsLowSurrogate(unit) }

    /** A character on its own: anything but a surrogate. */
    predicate Whole() { Hex? ==> 0 <= unit < 0x10000 && !(0xD800 <= unit <= 0xDFFF) }

    function Value(): Scalar
      requires Whole()
    {
      if Hex? then unit else r
    }
  }

  /** The lower-case hexadecimal digit of a value. */
  function LowerDigit(d: int): int {
    if d < 10 then 48 + d else 97 + (d - 10)
  }

  /** A digit with that value, in either case. */
  predicate IsDigit(b: Byte, d: int) {
    0 <= d < 16 && (b == LowerDigit(d) || (d >= 10 && b == LowerDigit(d) - 32))
  }

  /** The four hexadecimal digits, in either case, of a UTF-16 code unit. */
  predicate Spells(digits: Bytes, unit: int) {
    && |digits| == 4
    && IsDigit(digits[0], unit / 0x1000)
    && IsDigit(digits[1], unit / 0x100 % 0x10)
    && IsDigit(digits[2], unit / 0x10 % 0x10)
    && IsDigit(digits[3], unit % 0x10)
  }

  predicate LegalBody(body: seq<Spelling>) {
    forall k :: 0 <= k < |body| ==> body[k].Legal()
  }

  function BodyText(body: seq<Spelling>): Bytes {
    if body == [] then [] else body[0].Text() + BodyText(body[1..])
  }

  predicate PairAt(body: seq<Spelling>, k: nat) {
    k + 1 < |body| && body[k].High() && body[k + 1].Low()
  }

  /** A high surrogate that no low one follows, or a low one behind no high one. */
  predicate LoneAt(body: seq<Spelling>, k: nat) {
    k < |body| && ((body[k].High() && !PairAt(body, k)) || (body[k].Low() && !(k > 0 && PairAt(body, k - 1))))
  }

  ghost predicate NoLone(body: seq<Spelling>) {
    forall k: nat :: !LoneAt(body, k)
  }

  /** The Unicode scalar values of a string, up to its first lone surrogate. */
  function Scalars(body: seq<Spelling>): seq<Scalar> {
    if body == [] then []
    else if PairAt(body, 0) then [CombineSurrogates(body[0].unit, body[1].unit)] + Scalars(body[2..])
    else if body[0].Whole() then [body[0].Value()] + Scalars(body[1..])
    else []
  }

  function Encode(scalars: seq<Scalar>): Bytes {
    if scalars == [] then [] else EncodeRune(scalars[0]) + Encode(scalars[1..])
  }

  /** What a string means: the UTF-8 encoding of its scalar values. */
  function Utf8(body: seq<Spelling>): Bytes {
    Encode(Scalars(body))
  }

  function StringText(body: seq<Spelling>): Bytes {
    [QUOTE] + BodyText(body) + [QUOTE]
  }

  /** A value with all its white space.  `Literal` is a number or a name. */
  datatype Value =
    | Literal(text: Bytes)
    | String(body: seq<Spelling>)
    | Array(lead: Bytes, items: Items)
    | Object(lead: Bytes, members: Members)

  datatype Items = NoItems | Item(pre: Bytes, value: Value, post: Bytes, rest: Items)

  datatype Members =
    | NoMembers
    | Member(pre: Bytes, key: seq<Spelling>, mid: Bytes, gap: Bytes, value: Value, post: Bytes, rest: Members)

  function ValueText(v: Value): Bytes {
    match v
    case Literal(text) => text
    case String(body) => StringText(body)
    case Array(lead, items) => [LBRACKET] + lead + ItemsText(items) + [RBRACKET]
    case Object(lead, members) => [LBRACE] + lead + MembersText(members) + [RBRACE]
  }

  function ItemsText(items: Items): Bytes {
    match items
    case NoItems => []
    case Item(pre, value, post, rest) =>
      pre + ValueText(value) + post + (if rest.NoItems? then [] else [COMMA]) + ItemsText(rest)
  }

  /** The text of a member up to its value. */
  function KeyText(m: Members): Bytes
    requires m.Member?
  {
    m.pre + StringText(m.key) + m.mid + [COLON] + m.gap
  }

  function MembersText(members: Members): Bytes {
    match members
    case NoMembers => []
    case Member(_, _, _, _, value, post, rest) =>
      KeyText(members) + ValueText(value) + post + (if rest.NoMembers? then [] else [COMMA]) + MembersText(rest)
  }

  /** Space, tab, line feed and carriage return (section 2 of RFC 8259). */
  predicate White(b: Byte) { b in {0x20, 0x09, 0x0A, 0x0D} }

  predicate Blank(s: Bytes) {
    forall k :: 0 <= k < |s| ==> White(s[k])
  }

  predicate Structural(b: Byte) {
    b in {QUOTE, LBRACKET, RBRACKET, LBRACE, RBRACE, COLON, COMMA} || White(b)
  }

  predicate WellFormed(v: Value) {
    match v
    case Literal(text) => text != [] && forall k :: 0 <= k < |text| ==> !Structural(text[k])
    case String(body) => LegalBody(body)
    case Array(lead, items) => Blank(lead) && WellFormedItems(items)
    case Object(lead, members) => Blank(lead) && WellFormedMembers(members)
  }

  predicate WellFormedItems(items: Items) {
    match items
    case NoItems => true
    case Item(pre, value, post, rest) => Blank(pre) && WellFormed(value) && Blank(post) && WellFormedItems(rest)
  }

  predicate WellFormedMembers(members: Members) {
    match members
    case NoMembers => true
    case Member(pre, key, mid, gap, value, post, rest) =>
      && Blank(pre) && LegalBody(key) && Blank(mid) && Blank(gap)
      && WellFormed(value) && Blank(post) && WellFormedMembers(rest)
  }

  /** No string of a value, at any depth, has a lone surrogate. */
  ghost predicate Sound(v: Value) {
    match v
    case Literal(_) => true
    case String(body) => NoLone(body)
    case Array(_, items) => SoundItems(items)
    case Object(_, members) => SoundMembers(members)
  }

  ghost predicate SoundItems(items: Items) {
    items.Item? ==> Sound(items.value) && SoundItems(items.rest)
  }

  ghost predicate SoundMembers(members: Members) {
    members.Member? ==> NoLone(members.key) && Sound(members.value) && SoundMembers(members.rest)
  }

  /** A member the search is for: an allowed key and a string value. */
  ghost predicate Wanted(m: Members, allowed: set<Bytes>)
    requires m.Member?
  {
    m.value.String? && NoLone(m.key) && Utf8(m.key) in allowed
  }

  /** Of the members of an object, the first whose key is allowed and whose value
      is a string. */
  datatype Choice = Chosen(key: Bytes, body: seq<Spelling>, start: nat) | NoChoice

  /** `at` is where the members' text begins; `start` is just past the opening
      quote of the chosen value. */
  ghost function FirstStringMember(members: Members, allowed: set<Bytes>, at: nat): Choice {
    match members
    case NoMembers => NoChoice
    case Member(_, key, _, _, value, post, rest) =>
      var valueAt := at + |KeyText(members)|;
      if Wanted(members, allowed) then Chosen(Utf8(key), value.body, valueAt + 1)
      else
        var comma := if rest.NoMembers? then 0 else 1;
        FirstStringMember(rest, allowed, valueAt + |ValueText(value)| + |post| + comma)
  }

  /** No lone surrogate in front of the first wanted value, or anywhere if there
      is no such value. */
  ghost predicate Unobstructed(members: Members, allowed: set<Bytes>) {
    members.Member? ==>
      && NoLone(members.key)
      && (Wanted(members, allowed) || (Sound(members.value) && Unobstructed(members.rest, allowed)))
  }
}
