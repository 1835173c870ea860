/** Canonical JSON is unambiguous: a parser undoes the printer. */
module CanonicalJsonProperties {
  import opened CanonicalJson

  datatype Parsed<+T> = Parsed(value: T, rest: Text) | NoParse

  // ---------- the parser ----------

  function HexDigitValue(c: Scalar): (d: int)
    ensures -1 <= d < 16
  {
    if 48 <= c <= 57 then c - 48 else if 97 <= c <= 102 then c - 87 else -1
  }

  /** One character of a string body. */
  function ParseChar(t: Text): (p: Parsed<Scalar>)
    ensures p.Parsed? ==> |p.rest| < |t|
  {
    if t == [] || t[0] == QUOTE then NoParse
    else if t[0] != BACKSLASH then Parsed(t[0], t[1..])
    else if |t| < 2 then NoParse
    else if t[1] == QUOTE || t[1] == BACKSLASH then Parsed(t[1], t[2..])
    else if t[1] == 98 then Parsed(8, t[2..])
    else if t[1] == 102 then Parsed(12, t[2..])
    else if t[1] == 110 then Parsed(10, t[2..])
    else if t[1] == 114 then Parsed(13, t[2..])
    else if t[1] == 116 then Parsed(9, t[2..])
    else if t[1] == 117 && |t| >= 6 then
      var a, b, c, d := HexDigitValue(t[2]), HexDigitValue(t[3]), HexDigitValue(t[4]), HexDigitValue(t[5]);
      var r := ((a * 16 + b) * 16 + c) * 16 + d;
      if a < 0 || b < 0 || c < 0 || d < 0 || 0xD800 <= r <= 0xDFFF then NoParse else Parsed(r, t[6..])
    else NoParse
  }

  /** A string body and its closing quote. */
  function ParseBody(t: Text): (p: Parsed<Text>)
    ensures p.Parsed? ==> |p.rest| < |t|
    decreases |t|
  {
    if t != [] && t[0] == QUOTE then Parsed([], t[1..])
    else
      match ParseChar(t)
      case NoParse => NoParse
      case Parsed(c, rest) =>
        match ParseBody(rest)
        case NoParse => NoParse
        case Parsed(s, rest') => Parsed([c] + s, rest')
  }

  /** The longest run of number characters. */
  function NumberLength(t: Text): (n: nat)
    ensures n <= |t| && forall k :: 0 <= k < n ==> NumberChar(t[k])
    ensures n < |t| ==> !NumberChar(t[n])
  {
    if t != [] && NumberChar(t[0]) then 1 + NumberLength(t[1..]) else 0
  }

  function ParseValue(t: Text): (p: Parsed<Json>)
    ensures p.Parsed? ==> |p.rest| < |t|
    decreases |t|, 0
  {
    if t == [] then NoParse
    else if NULL <= t then Parsed(Null, t[4..])
    else if TRUE <= t then Parsed(Bool(true), t[4..])
    else if FALSE <= t then Parsed(Bool(false), t[5..])
    else if NumberChar(t[0]) then var n := NumberLength(t); Parsed(Number(t[..n]), t[n..])
    else if t[0] == QUOTE then
      (match ParseBody(t[1..])
       case NoParse => NoParse
       case Parsed(s, rest) => Parsed(String(s), rest))
    else if t[0] == LBRACKET then
      if |t| >= 2 && t[1] == RBRACKET then Parsed(Array([]), t[2..])
      else
        match ParseItems(t[1..])
        case NoParse => NoParse
        case Parsed(items, rest) => Parsed(Array(items), rest)
    else if t[0] == LBRACE then
      if |t| >= 2 && t[1] == RBRACE then Parsed(Object(map[]), t[2..])
      else
        match ParseMembers(t[1..])
        case NoParse => NoParse
        case Parsed(fields, rest) => Parsed(Object(fields), rest)
    else NoParse
  }

  /** At least one item, up to the closing bracket. */
  function ParseItems(t: Text): (p: Parsed<seq<Json>>)
    ensures p.Parsed? ==> |p.rest| < |t|
    decreases |t|, 1
  {
    match ParseValue(t)
    case NoParse => NoParse
    case Parsed(v, rest) =>
      if rest != [] && rest[0] == RBRACKET then Parsed([v], rest[1..])
      else if rest != [] && rest[0] == COMMA then
        match ParseItems(rest[1..])
        case NoParse => NoParse
        case Parsed(vs, rest') => Parsed([v] + vs, rest')
      else NoParse
  }

  function ParseKey(t: Text): (p: Parsed<Text>)
    ensures p.Parsed? ==> |p.rest| < |t|
  {
    if t == [] || t[0] != QUOTE then NoParse
    else
      match ParseBody(t[1..])
      case NoParse => NoParse
      case Parsed(s, rest) => if rest != [] && rest[0] == COLON then Parsed(s, rest[1..]) else NoParse
  }

  /** At least one member, up to the closing brace. */
  function ParseMembers(t: Text): (p: Parsed<map<Text, Json>>)
    ensures p.Parsed? ==> |p.rest| < |t|
    decreases |t|, 1
  {
    match ParseKey(t)
    case NoParse => NoParse
    case Parsed(k, rest) =>
      match ParseValue(rest)
      case NoParse => NoParse
      case Parsed(v, rest) =>
        if rest != [] && rest[0] == RBRACE then Parsed(map[k := v], rest[1..])
        else if rest != [] && rest[0] == COMMA then
          match ParseMembers(rest[1..])
          case NoParse => NoParse
          case Parsed(fields, rest') => Parsed(fields[k := v], rest')
        else NoParse
  }

  // ---------- strings ----------

  lemma HexDigitRoundTrip(d: int)
    requires 0 <= d < 16
    ensures HexDigitValue(HexDigit(d)) == d
  {
  }

  lemma HexRoundTrip(c: Scalar, rest: Text)
    requires c < 0x10000
    ensures var e: Text := [
              BACKSLASH, 117, HexDigit(c / 0x1000), HexDigit(c / 0x100 % 16), HexDigit(c / 16 % 16), HexDigit(c % 16)];
            ParseChar(e + rest) == Parsed(c, rest)
  {
    hide HexDigit, HexDigitValue;
    var e: Text := [
      BACKSLASH, 117, HexDigit(c / 0x1000), HexDigit(c / 0x100 % 16), HexDigit(c / 16 % 16), HexDigit(c % 16)];
    var t := e + rest;
    assert t[6..] == rest;
    HexDigitRoundTrip(c / 0x1000);
    HexDigitRoundTrip(c / 0x100 % 16);
    HexDigitRoundTrip(c / 16 % 16);
    HexDigitRoundTrip(c % 16);
    assert c / 0x1000 == c / 16 / 16 / 16 && c / 0x100 == c / 16 / 16;
  }

  /** Every character is read back from its escape, whatever follows. */
  lemma {:induction false} CharRoundTrip(c: Scalar, rest: Text)
    ensures ParseChar(Escape(c) + rest) == Parsed(c, rest)
  {
    hide HexDigit, HexDigitValue;
    var e := Escape(c);
    var t := e + rest;
    if |e| == 6 {
      HexRoundTrip(c, rest);
    } else {
      assert t[|e|..] == rest;
    }
  }

  lemma {:induction false} BodyRoundTrip(s: Text, rest: Text)
    ensures ParseBody(EscapeAll(s) + [QUOTE] + rest) == Parsed(s, rest)
    decreases |s|
  {
    hide Escape, ParseChar;
    var t := EscapeAll(s) + [QUOTE] + rest;
    if s == [] {
      assert t[1..] == rest;
    } else {
      var tail := EscapeAll(s[1..]) + [QUOTE] + rest;
      assert t == Escape(s[0]) + tail;
      CharRoundTrip(s[0], tail);
      EscapeIsNoQuote(s[0]);
      assert t[0] == Escape(s[0])[0];
      BodyRoundTrip(s[1..], rest);
      assert s == [s[0]] + s[1..];
    }
  }

  lemma EscapeIsNoQuote(c: Scalar)
    ensures Escape(c)[0] != QUOTE
  {
  }

  // ---------- values ----------

  /** What may follow a printed value without changing how it is read. */
  predicate Delimited(rest: Text) {
    rest == [] || !NumberChar(rest[0])
  }

  lemma {:induction false} NumberRoundTrip(text: Text, rest: Text)
    requires Delimited(rest) && forall k :: 0 <= k < |text| ==> NumberChar(text[k])
    ensures NumberLength(text + rest) == |text|
    decreases |text|
  {
    if text == [] {
      assert text + rest == rest;
    } else {
      assert (text + rest)[1..] == text[1..] + rest;
      NumberRoundTrip(text[1..], rest);
    }
  }

  /** The first character of a printed value is no closing bracket or brace. */
  lemma FirstChar(v: Json)
    ensures Print(v)[0] !in {RBRACKET, RBRACE}
  {
    hide SortedKeys, EscapeAll, PrintItems, PrintMembers;
    match v
    case Null =>
    case Bool(_) =>
    case Number(text) => assert NumberChar(text[0]);
    case String(s) => assert Quoted(s)[0] == QUOTE;
    case Array(_) => assert Print(v)[0] == LBRACKET;
    case Object(_) => assert Print(v)[0] == LBRACE;
  }

  /** The first character tells the names apart from each other and the rest. */
  lemma NoName(t: Text)
    requires t != []
    ensures t[0] != 110 ==> !(NULL <= t)
    ensures t[0] != 116 ==> !(TRUE <= t)
    ensures t[0] != 102 ==> !(FALSE <= t)
  {
  }

  lemma ScalarRoundTrip(v: Json, rest: Text)
    requires v.Null? || v.Bool? || v.Number? || v.String?
    requires Delimited(rest)
    ensures ParseValue(Print(v) + rest) == Parsed(v, rest)
  {
    hide EscapeAll, ParseBody, ParseItems, ParseMembers;
    var t := Print(v) + rest;
    NoName(t);
    match v
    case Null => assert t[..4] == NULL && t[4..] == rest;
    case Bool(b) =>
      if b {
        assert t[..4] == TRUE && t[4..] == rest;
      } else {
        assert t[..5] == FALSE && t[5..] == rest;
      }
    case Number(text) =>
      NumberRoundTrip(text, rest);
      assert t[0] == text[0];
      assert t[..|text|] == text && t[|text|..] == rest;
    case String(s) =>
      BodyRoundTrip(s, rest);
      assert t[0] == QUOTE;
      assert t[1..] == EscapeAll(s) + [QUOTE] + rest;
  }

  /** What the first character of an array or object leads to. */
  lemma ParseOpened(t: Text)
    requires t != []
    ensures t[0] == LBRACKET ==>
              ParseValue(t) ==
              if |t| >= 2 && t[1] == RBRACKET then Parsed(Array([]), t[2..])
              else
                match ParseItems(t[1..])
                case NoParse => NoParse
                case Parsed(items, rest) => Parsed(Array(items), rest)
    ensures t[0] == LBRACE ==>
              ParseValue(t) ==
              if |t| >= 2 && t[1] == RBRACE then Parsed(Object(map[]), t[2..])
              else
                match ParseMembers(t[1..])
                case NoParse => NoParse
                case Parsed(fields, rest) => Parsed(Object(fields), rest)
  {
    hide ParseItems, ParseMembers, ParseBody;
    NoName(t);
  }

  lemma Enclosed(open: Scalar, inner: Text, close: Scalar, rest: Text)
    ensures var t := [open] + inner + [close] + rest;
            && t != [] && t[0] == open && t[1..] == inner + [close] + rest && |t| >= 2
            && t[1] == (if inner == [] then close else inner[0])
            && (inner == [] ==> t[2..] == rest)
  {
  }

  lemma ParseArray(inner: Text, items: seq<Json>, rest: Text)
    requires inner == [] || inner[0] != RBRACKET
    requires if inner == [] then items == [] else ParseItems(inner + [RBRACKET] + rest) == Parsed(items, rest)
    ensures ParseValue([LBRACKET] + inner + [RBRACKET] + rest) == Parsed(Array(items), rest)
  {
    hide ParseValue, ParseItems;
    Enclosed(LBRACKET, inner, RBRACKET, rest);
    ParseOpened([LBRACKET] + inner + [RBRACKET] + rest);
  }

  lemma ParseObject(inner: Text, fields: map<Text, Json>, rest: Text)
    requires inner == [] || inner[0] != RBRACE
    requires if inner == [] then fields == map[] else ParseMembers(inner + [RBRACE] + rest) == Parsed(fields, rest)
    ensures ParseValue([LBRACE] + inner + [RBRACE] + rest) == Parsed(Object(fields), rest)
  {
    hide ParseValue, ParseMembers;
    Enclosed(LBRACE, inner, RBRACE, rest);
    ParseOpened([LBRACE] + inner + [RBRACE] + rest);
  }

  /** Round trip: whatever follows a printed value, parsing reads the value back
      and leaves what follows. */
  lemma {:induction false} RoundTrip(v: Json, rest: Text)
    requires Delimited(rest)
    ensures ParseValue(Print(v) + rest) == Parsed(v, rest)
    decreases v, 1, 0
  {
    hide ParseValue, ParseItems, ParseMembers, PrintItems, PrintMembers, Quoted, SortedKeys, Sorted;
    match v
    case Array(items) =>
      var inner := PrintItems(v, 0);
      if items == [] {
        NoItemsLeft(v);
      } else {
        ItemsStart(v);
        FirstChar(items[0]);
        ItemsRoundTrip(v, 0, rest);
        assert items[0..] == items;
      }
      ParseArray(inner, items, rest);
      assert Print(v) + rest == [LBRACKET] + inner + [RBRACKET] + rest;
    case Object(fields) =>
      var ks := SortedKeys(fields.Keys);
      var inner := PrintMembers(v, ks, 0);
      if ks == [] {
        NoMembersLeft(v, ks);
        NoKeysNoFields(fields, ks);
      } else {
        MembersStart(v, ks);
        SortedIsDistinct(ks);
        MembersRoundTrip(v, ks, 0, rest);
        AllFields(v, ks);
      }
      ParseObject(inner, fields, rest);
      assert Print(v) + rest == [LBRACE] + inner + [RBRACE] + rest;
    case _ => ScalarRoundTrip(v, rest);
  }

  lemma SortedIsDistinct(ks: seq<Text>)
    requires Sorted(ks)
    ensures Distinct(ks)
  {
    forall i, j | 0 <= i < j < |ks|
      ensures ks[i] != ks[j]
    {
      LessIsTotal(ks[i], ks[j]);
    }
  }

  lemma NoKeysNoFields(fields: map<Text, Json>, ks: seq<Text>)
    requires ks == [] && forall x :: x in ks <==> x in fields.Keys
    ensures fields == map[]
  {
  }

  lemma ItemsStart(v: Json)
    requires v.Array? && v.items != []
    ensures PrintItems(v, 0) == Print(v.items[0]) + PrintItems(v, 1)
  {
  }

  lemma MembersStart(v: Json, ks: seq<Text>)
    requires v.Object? && ks != [] && forall k :: k in ks ==> k in v.fields
    ensures PrintMembers(v, ks, 0) == Quoted(ks[0]) + [COLON] + Print(v.fields[ks[0]]) + PrintMembers(v, ks, 1)
    ensures PrintMembers(v, ks, 0)[0] == QUOTE
  {
    hide Print, PrintMembers, Quoted;
    MembersStep(v, ks, 0, []);
    QuotedStart(ks[0]);
    var members := Quoted(ks[0]) + [COLON] + Print(v.fields[ks[0]]) + PrintMembers(v, ks, 1);
    assert [] + PrintMembers(v, ks, 0) == PrintMembers(v, ks, 0);
    assert [] + [] + Quoted(ks[0]) == Quoted(ks[0]);
    assert members[0] == Quoted(ks[0])[0];
  }

  lemma QuotedStart(s: Text)
    ensures Quoted(s) != [] && Quoted(s)[0] == QUOTE
  {
  }

  /** The text of an array from item `n` on, behind the comma. */
  ghost function ItemsFrom(v: Json, n: nat, rest: Text): Text
    requires v.Array? && n < |v.items|
  {
    Print(v.items[n]) + PrintItems(v, n + 1) + [RBRACKET] + rest
  }

  lemma ItemsNext(v: Json, n: nat, rest: Text)
    requires v.Array? && n < |v.items|
    ensures var more := PrintItems(v, n + 1) + [RBRACKET] + rest;
            && ItemsFrom(v, n, rest) == Print(v.items[n]) + more && Delimited(more)
            && (if n + 1 == |v.items| then more == [RBRACKET] + rest
                else more == [COMMA] + ItemsFrom(v, n + 1, rest))
  {
  }

  lemma {:induction false} ItemsRoundTrip(v: Json, n: nat, rest: Text)
    requires v.Array? && n < |v.items|
    ensures ParseItems(ItemsFrom(v, n, rest)) == Parsed(v.items[n..], rest)
    decreases v, 0, |v.items| - n
  {
    hide ParseValue, PrintItems, Print, ItemsFrom;
    var more := PrintItems(v, n + 1) + [RBRACKET] + rest;
    ItemsNext(v, n, rest);
    RoundTrip(v.items[n], more);
    if n + 1 == |v.items| {
      assert more[1..] == rest;
      assert v.items[n..] == [v.items[n]];
    } else {
      ItemsRoundTrip(v, n + 1, rest);
      assert more[1..] == ItemsFrom(v, n + 1, rest);
      assert v.items[n..] == [v.items[n]] + v.items[n + 1..];
    }
  }

  /** The fields of an object under the keys from the n-th on. */
  function FieldsFrom(v: Json, ks: seq<Text>, n: nat): map<Text, Json>
    requires v.Object? && n <= |ks|
  {
    map k | k in ks[n..] && k in v.fields :: v.fields[k]
  }

  lemma AllFields(v: Json, ks: seq<Text>)
    requires v.Object? && forall x :: x in ks <==> x in v.fields.Keys
    ensures FieldsFrom(v, ks, 0) == v.fields
  {
    assert ks[0..] == ks;
  }

  ghost function MembersFrom(v: Json, ks: seq<Text>, n: nat, rest: Text): Text
    requires v.Object? && n < |ks| && forall k :: k in ks ==> k in v.fields
  {
    Quoted(ks[n]) + [COLON] + Print(v.fields[ks[n]]) + PrintMembers(v, ks, n + 1) + [RBRACE] + rest
  }

  lemma MembersNext(v: Json, ks: seq<Text>, n: nat, rest: Text)
    requires v.Object? && n < |ks| && forall k :: k in ks ==> k in v.fields
    ensures var more := PrintMembers(v, ks, n + 1) + [RBRACE] + rest;
            && MembersFrom(v, ks, n, rest) == Quoted(ks[n]) + [COLON] + (Print(v.fields[ks[n]]) + more)
            && Delimited(more)
            && (if n + 1 == |ks| then more == [RBRACE] + rest
                else more == [COMMA] + MembersFrom(v, ks, n + 1, rest))
  {
    hide Print, Quoted;
  }

  lemma KeyRoundTrip(k: Text, more: Text)
    ensures ParseKey(Quoted(k) + [COLON] + more) == Parsed(k, more)
  {
    hide ParseBody, EscapeAll;
    var t := Quoted(k) + [COLON] + more;
    BodyRoundTrip(k, [COLON] + more);
    assert t[1..] == EscapeAll(k) + [QUOTE] + ([COLON] + more);
    assert ([COLON] + more)[1..] == more;
  }

  lemma {:induction false} MembersRoundTrip(v: Json, ks: seq<Text>, n: nat, rest: Text)
    requires v.Object? && n < |ks| && forall k :: k in ks ==> k in v.fields
    requires Distinct(ks)
    ensures ParseMembers(MembersFrom(v, ks, n, rest)) == Parsed(FieldsFrom(v, ks, n), rest)
    decreases v, 0, |ks| - n
  {
    hide ParseValue, ParseKey, PrintMembers, Print, Quoted, MembersFrom;
    var more := PrintMembers(v, ks, n + 1) + [RBRACE] + rest;
    var value := v.fields[ks[n]];
    MembersNext(v, ks, n, rest);
    KeyRoundTrip(ks[n], Print(value) + more);
    RoundTrip(value, more);
    if n + 1 == |ks| {
      assert more[1..] == rest;
      assert ks[n..] == [ks[n]];
      assert FieldsFrom(v, ks, n) == map[ks[n] := value];
    } else {
      MembersRoundTrip(v, ks, n + 1, rest);
      assert more[1..] == MembersFrom(v, ks, n + 1, rest);
      assert ks[n..] == [ks[n]] + ks[n + 1..];
      assert FieldsFrom(v, ks, n) == FieldsFrom(v, ks, n + 1)[ks[n] := value];
    }
  }

  /** Canonical JSON is unambiguous: two values print alike exactly when they are
      equal, and no printed value continues another. */
  lemma {:induction false} PrintIsInjective(u: Json, v: Json, a: Text, b: Text)
    requires Delimited(a) && Delimited(b)
    ensures Print(u) + a == Print(v) + b <==> u == v && a == b
  {
    hide Print, ParseValue;
    RoundTrip(u, a);
    RoundTrip(v, b);
  }

  lemma {:induction false} CanonicalIsUnambiguous(u: Json, v: Json)
    ensures Print(u) == Print(v) <==> u == v
  {
    hide Print;
    PrintIsInjective(u, v, [], []);
    assert Print(u) + [] == Print(u) && Print(v) + [] == Print(v);
  }

  // ---------- fingerprints ----------

  /** The bytes hashed for a context determine its system and its messages. */
  lemma {:induction false} ContextBytesDetermineContext(s: Json, m: Messages, s': Json, m': Messages)
    ensures Print(Context(s, m)) == Print(Context(s', m')) <==> s == s' && m == m'
  {
    hide Print;
    CanonicalIsUnambiguous(Context(s, m), Context(s', m'));
    var f, f' := Context(s, m).fields, Context(s', m').fields;
    assert SYSTEM != MESSAGES;
    assert f[SYSTEM] == s && f'[SYSTEM] == s' && f[MESSAGES] == MessagesJson(m) && f'[MESSAGES] == MessagesJson(m');
  }

  /** Two different texts with the same digest. */
  predicate Collide(digest: Text -> Text, a: Text, b: Text) {
    a != b && digest(a) == digest(b)
  }

  /** The fingerprint of an assistant response is the fingerprint of exactly one
      later context, unless the two hashed texts collide: the same system, and the
      messages followed by that response. */
  lemma {:induction false} ResponseFingerprintNamesNextContext(
    digest: Text -> Text, s: Json, m: Messages, role: Text, content: Json, s': Json, m': Messages)
    ensures var answered := (true, m.1 + [Message(role, content)]);
            var hashed, hashed' := Print(Context(s, answered)), Print(Context(s', m'));
            digest(hashed) == digest(hashed') <==> (s' == s && m' == answered) || Collide(digest, hashed, hashed')
  {
    hide Print, Context;
    ContextBytesDetermineContext(s, (true, m.1 + [Message(role, content)]), s', m');
  }
}
