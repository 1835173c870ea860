/** The canonical text in so many bytes: a JSON text (RFC 8259) without white space
    that says the value, with the members of every object in the order in which
    `sort.Strings` compares the bytes of their keys. */
module CanonicalText {
  import opened GoStrings
  import opened CanonicalJson
  import Grammar = JsonText
  import Scanner = ToolArgScanner

  const COLON: Scalar := CanonicalJson.COLON

  // ---------- byte order ----------

  /** `a` and `b` agree up to `n`, where `a` ends or has the smaller byte. */
  predicate LessAt(a: Bytes, b: Bytes, n: nat) {
    n <= |a| && n < |b| && a[..n] == b[..n] && (n == |a| || a[n] < b[n])
  }

  /** How Go compares strings. */
  ghost predicate ByteLess(a: Bytes, b: Bytes) {
    exists n: nat :: LessAt(a, b, n)
  }

  lemma NotBothLess(a: Bytes, b: Bytes, m: nat, n: nat)
    requires LessAt(a, b, m)
    ensures !LessAt(b, a, n)
  {
    if m < n && n <= |b| && m < |a| && n <= |a| {
      assert a[m] == a[..n][m] && b[m] == b[..n][m];
    } else if n < m && n < |b| {
      assert a[n] == a[..m][n] && b[n] == b[..m][n];
    }
  }

  lemma RuneOrder(c: Scalar, d: Scalar) returns (n: nat)
    requires c < d
    ensures var x, y := Scanner.EncodeRune(c), Scanner.EncodeRune(d);
            n < |x| && n < |y| && x[..n] == y[..n] && x[n] < y[n]
  {
    hide Scanner.EncodeRune;
    var x, y := Scanner.EncodeRune(c), Scanner.EncodeRune(d);
    LeadOrder(c, d);
    if |x| != |y| || x[0] != y[0] {
      return 0;
    }
    SecondOrder(c, d);
    if x[1] != y[1] {
      assert x[..1] == [x[0]] && y[..1] == [y[0]];
      return 1;
    }
    ThirdOrder(c, d);
    if x[2] != y[2] {
      assert x[..2] == [x[0], x[1]] && y[..2] == [y[0], y[1]];
      return 2;
    }
    LastOrder(c, d);
    assert x[..3] == [x[0], x[1], x[2]] && y[..3] == [y[0], y[1], y[2]];
    return 3;
  }

  lemma LeadOrder(c: Scalar, d: Scalar)
    requires c < d
    ensures var x, y := Scanner.EncodeRune(c), Scanner.EncodeRune(d);
            x[0] <= y[0] && (|x| != |y| ==> x[0] < y[0]) && (|x| == |y| == 1 ==> x[0] < y[0])
  {
  }

  lemma SecondOrder(c: Scalar, d: Scalar)
    requires c < d
    ensures var x, y := Scanner.EncodeRune(c), Scanner.EncodeRune(d);
            |x| == |y| > 1 && x[0] == y[0] ==> x[1] <= y[1] && (|x| == 2 ==> x[1] < y[1])
  {
    Digits(c);
    Digits(d);
  }

  lemma ThirdOrder(c: Scalar, d: Scalar)
    requires c < d
    ensures var x, y := Scanner.EncodeRune(c), Scanner.EncodeRune(d);
            |x| == |y| > 2 && x[0] == y[0] && x[1] == y[1] ==> x[2] <= y[2] && (|x| == 3 ==> x[2] < y[2])
  {
    Digits(c);
    Digits(d);
  }

  lemma LastOrder(c: Scalar, d: Scalar)
    requires c < d
    ensures var x, y := Scanner.EncodeRune(c), Scanner.EncodeRune(d);
            |x| == |y| > 3 && x[0] == y[0] && x[1] == y[1] && x[2] == y[2] ==> x[3] < y[3]
  {
    Digits(c);
    Digits(d);
  }

  lemma Digits(c: nat)
    ensures c / 0x40 == c / 0x1000 * 0x40 + c / 0x40 % 0x40
    ensures c / 0x1000 == c / 0x40000 * 0x40 + c / 0x1000 % 0x40
    ensures c == c / 0x40 * 0x40 + c % 0x40
  {
    assert c / 0x40 / 0x40 == c / 0x1000 && c / 0x1000 / 0x40 == c / 0x40000;
  }

  lemma BehindSmaller(x: Bytes, y: Bytes, n: nat, s: Bytes, t: Bytes)
    requires n < |x| && n < |y| && x[..n] == y[..n] && x[n] < y[n]
    ensures LessAt(x + s, y + t, n)
  {
    assert (x + s)[..n] == x[..n] && (y + t)[..n] == y[..n];
  }

  lemma BehindSame(e: Bytes, x: Bytes, y: Bytes)
    ensures ByteLess(e + x, e + y) <==> ByteLess(x, y)
  {
    var a, b := e + x, e + y;
    if ByteLess(x, y) {
      var n: nat :| LessAt(x, y, n);
      assert a[..|e| + n] == e + x[..n] && b[..|e| + n] == e + y[..n];
      assert LessAt(a, b, |e| + n);
    }
    if ByteLess(a, b) {
      var n: nat :| LessAt(a, b, n);
      assert n >= |e|;
      assert x[..n - |e|] == a[..n][|e|..] && y[..n - |e|] == b[..n][|e|..];
      assert LessAt(x, y, n - |e|);
    }
  }

  /** Keys are sorted as Go sorts strings, by the bytes of their UTF-8 encoding. */
  lemma {:induction false} KeysAreInByteOrder(a: Text, b: Text)
    ensures Less(a, b) <==> ByteLess(Grammar.Encode(a), Grammar.Encode(b))
    decreases |a|
  {
    hide Scanner.EncodeRune;
    var ea, eb := Grammar.Encode(a), Grammar.Encode(b);
    if a == [] {
      assert b != [] ==> LessAt(ea, eb, 0);
    } else if b != [] {
      var s, t := Grammar.Encode(a[1..]), Grammar.Encode(b[1..]);
      if a[0] == b[0] {
        KeysAreInByteOrder(a[1..], b[1..]);
        BehindSame(Scanner.EncodeRune(a[0]), s, t);
      } else if a[0] < b[0] {
        var n := RuneOrder(a[0], b[0]);
        BehindSmaller(Scanner.EncodeRune(a[0]), Scanner.EncodeRune(b[0]), n, s, t);
      } else {
        var n := RuneOrder(b[0], a[0]);
        BehindSmaller(Scanner.EncodeRune(b[0]), Scanner.EncodeRune(a[0]), n, t, s);
        forall m: nat
          ensures !LessAt(ea, eb, m)
        {
          NotBothLess(eb, ea, n, m);
        }
      }
    }
  }

  // ---------- what the text says ----------

  /** A string of the grammar that stands for a text. */
  ghost predicate StringSays(body: seq<Grammar.Spelling>, s: Text) {
    Grammar.LegalBody(body) && Grammar.NoLone(body) && Grammar.Scalars(body) == s
  }

  function KeysOf(members: Grammar.Members): seq<Text> {
    match members
    case NoMembers => []
    case Member(_, key, _, _, _, _, rest) => [Grammar.Scalars(key)] + KeysOf(rest)
  }

  ghost predicate InByteOrder(keys: seq<Text>) {
    forall i, j :: 0 <= i < j < |keys| ==> ByteLess(Grammar.Encode(keys[i]), Grammar.Encode(keys[j]))
  }

  /** A JSON text without white space that stands for a value, with every field of
      an object once, in byte order. */
  ghost predicate Says(w: Grammar.Value, v: Json) {
    match v
    case Null => w == Grammar.Literal(Ascii("null"))
    case Bool(b) => w == Grammar.Literal(if b then Ascii("true") else Ascii("false"))
    case Number(text) => w == Grammar.Literal(Grammar.Encode(text))
    case String(s) => w.String? && StringSays(w.body, s)
    case Array(items) => w.Array? && w.lead == [] && ItemsSay(w.items, items)
    case Object(fields) =>
      && w.Object? && w.lead == [] && InByteOrder(KeysOf(w.members))
      && (forall k :: k in KeysOf(w.members) <==> k in fields)
      && MembersSay(w.members, fields)
  }

  ghost predicate ItemsSay(items: Grammar.Items, vs: seq<Json>) {
    match items
    case NoItems => vs == []
    case Item(pre, value, post, rest) =>
      pre == [] && post == [] && vs != [] && Says(value, vs[0]) && ItemsSay(rest, vs[1..])
  }

  ghost predicate MembersSay(members: Grammar.Members, fields: map<Text, Json>) {
    match members
    case NoMembers => true
    case Member(pre, key, mid, gap, value, post, rest) =>
      && pre == [] && mid == [] && gap == [] && post == []
      && Grammar.LegalBody(key) && Grammar.NoLone(key)
      && Grammar.Scalars(key) in fields && Says(value, fields[Grammar.Scalars(key)])
      && MembersSay(rest, fields)
  }

  // ---------- strings ----------

  lemma {:induction false} EncodeConcat(s: Text, t: Text)
    ensures Grammar.Encode(s + t) == Grammar.Encode(s) + Grammar.Encode(t)
    decreases |s|
  {
    hide Scanner.EncodeRune;
    if s == [] {
      assert s + t == t;
    } else {
      assert (s + t)[1..] == s[1..] + t;
      EncodeConcat(s[1..], t);
    }
  }

  predicate Plain(s: Text) {
    forall k :: 0 <= k < |s| ==> s[k] < 0x80
  }

  lemma {:induction false} EncodePlain(s: Text)
    requires Plain(s)
    ensures |Grammar.Encode(s)| == |s| && forall k :: 0 <= k < |s| ==> Grammar.Encode(s)[k] == s[k]
    decreases |s|
  {
    if s != [] {
      EncodePlain(s[1..]);
    }
  }

  /** How `json.Marshal` spells a character. */
  function Spelled(c: Scalar): Grammar.Spelling {
    if c == 0x22 || c == 0x5C then Grammar.Short(c, c)
    else if c == 8 then Grammar.Short(c, 98)
    else if c == 12 then Grammar.Short(c, 102)
    else if c == 10 then Grammar.Short(c, 110)
    else if c == 13 then Grammar.Short(c, 114)
    else if c == 9 then Grammar.Short(c, 116)
    else if c < 0x20 || c in {0x3C, 0x3E, 0x26, 0x2028, 0x2029} then
      Grammar.Hex(c, [HexDigit(c / 0x1000), HexDigit(c / 0x100 % 16), HexDigit(c / 16 % 16), HexDigit(c % 16)])
    else Grammar.Raw(c)
  }

  lemma SpelledIsLegal(c: Scalar)
    ensures Spelled(c).Legal() && Spelled(c).Whole() && Spelled(c).Value() == c
    ensures !Spelled(c).High() && !Spelled(c).Low()
  {
  }

  lemma EscapeIsSpelled(c: Scalar)
    ensures Grammar.Encode(Escape(c)) == Spelled(c).Text()
  {
    if Spelled(c).Raw? {
      assert Escape(c) == [c];
      assert Grammar.Encode([c]) == Scanner.EncodeRune(c) + Grammar.Encode([]);
    } else {
      EscapeIsText(c);
      EncodePlain(Escape(c));
      hide *;
    }
  }

  lemma EscapeIsText(c: Scalar)
    requires !Spelled(c).Raw?
    ensures Plain(Escape(c)) && |Escape(c)| == |Spelled(c).Text()|
    ensures forall k :: 0 <= k < |Escape(c)| ==> Escape(c)[k] == Spelled(c).Text()[k]
  {
  }

  function Body(s: Text): (body: seq<Grammar.Spelling>)
    ensures |body| == |s|
  {
    if s == [] then [] else [Spelled(s[0])] + Body(s[1..])
  }

  lemma {:induction false} BodySays(s: Text)
    ensures StringSays(Body(s), s)
    ensures Grammar.BodyText(Body(s)) == Grammar.Encode(EscapeAll(s))
    decreases |s|
  {
    hide Spelled, Escape, Scanner.EncodeRune;
    if s != [] {
      BodySays(s[1..]);
      SpelledIsLegal(s[0]);
      EscapeIsSpelled(s[0]);
      EncodeConcat(Escape(s[0]), EscapeAll(s[1..]));
      OneMoreSpelled(Spelled(s[0]), Body(s[1..]), s[0], s[1..]);
      assert [s[0]] + s[1..] == s;
    }
  }

  lemma OneMoreSpelled(p: Grammar.Spelling, body: seq<Grammar.Spelling>, c: Scalar, s: Text)
    requires p.Legal() && p.Whole() && p.Value() == c && !p.High() && !p.Low() && StringSays(body, s)
    ensures StringSays([p] + body, [c] + s)
  {
    var more := [p] + body;
    assert more[1..] == body;
    forall k: nat
      ensures !Grammar.LoneAt(more, k)
    {
      if 0 < k < |more| {
        assert !Grammar.LoneAt(body, k - 1);
        assert more[k - 1] == if k == 1 then p else body[k - 2];
      }
    }
  }

  lemma QuotedSays(s: Text)
    ensures Grammar.Encode(Quoted(s)) == Grammar.StringText(Body(s))
  {
    hide EscapeAll, Body, Grammar.BodyText;
    BodySays(s);
    EncodeConcat([QUOTE] + EscapeAll(s), [QUOTE]);
    EncodeConcat([QUOTE], EscapeAll(s));
    EncodePlain([QUOTE]);
    assert Grammar.Encode([QUOTE]) == [QUOTE];
  }

  // ---------- values ----------

  ghost function Doc(v: Json): Grammar.Value
    decreases v, 1, 0
  {
    match v
    case Null => Grammar.Literal(Ascii("null"))
    case Bool(b) => Grammar.Literal(if b then Ascii("true") else Ascii("false"))
    case Number(text) => Grammar.Literal(Grammar.Encode(text))
    case String(s) => Grammar.String(Body(s))
    case Array(items) => Grammar.Array([], DocItems(v, 0))
    case Object(fields) => Grammar.Object([], DocMembers(v, SortedKeys(fields.Keys), 0))
  }

  ghost function DocItems(v: Json, n: nat): Grammar.Items
    requires v.Array? && n <= |v.items|
    decreases v, 0, |v.items| - n
  {
    if n == |v.items| then Grammar.NoItems else Grammar.Item([], Doc(v.items[n]), [], DocItems(v, n + 1))
  }

  ghost function DocMembers(v: Json, ks: seq<Text>, n: nat): Grammar.Members
    requires v.Object? && n <= |ks| && forall k :: k in ks ==> k in v.fields
    decreases v, 0, |ks| - n
  {
    if n == |ks| then Grammar.NoMembers
    else Grammar.Member([], Body(ks[n]), [], [], Doc(v.fields[ks[n]]), [], DocMembers(v, ks, n + 1))
  }

  /** The text of a value is a JSON text of RFC 8259 that says this value. */
  lemma {:induction false} CanonicalTextIsJson(v: Json)
    ensures Grammar.WellFormed(Doc(v)) && Says(Doc(v), v)
    ensures Grammar.ValueText(Doc(v)) == Grammar.Encode(Print(v))
    decreases v, 1, 0
  {
    hide Grammar.Encode, Quoted, SortedKeys, Ascii, StringSays, PrintItems, PrintMembers, DocItems, DocMembers,
         ItemsSay, MembersSay, KeysOf, InByteOrder, Body;
    match v {
      case Null => NameIsLiteral(NULL, "null");
      case Bool(b) =>
        NameIsLiteral(TRUE, "true");
        NameIsLiteral(FALSE, "false");
      case Number(text) => NumberIsLiteral(text);
      case String(s) =>
        BodySays(s);
        SaysLegal(Body(s), s);
        QuotedSays(s);
      case Array(items) =>
        ItemsAreJson(v, 0);
        ArrayIsJson(v);
      case Object(fields) =>
        var ks := SortedKeys(fields.Keys);
        MembersAreJson(v, ks, 0);
        ObjectIsJson(v, ks);
    }
  }

  lemma NoLead(left: Byte, inner: Bytes, right: Byte)
    ensures [left] + ([] + inner) + [right] == [left] + [] + inner + [right]
  {
  }

  lemma ArrayIsJson(v: Json)
    requires v.Array?
    requires Grammar.WellFormedItems(DocItems(v, 0)) && ItemsSay(DocItems(v, 0), v.items[0..])
    requires Grammar.Encode(PrintItems(v, 0)) == [] + Grammar.ItemsText(DocItems(v, 0))
    ensures Grammar.WellFormed(Doc(v)) && Says(Doc(v), v)
    ensures Grammar.ValueText(Doc(v)) == Grammar.Encode(Print(v))
  {
    hide Grammar.Encode, DocItems, PrintItems, ItemsSay, Grammar.WellFormedItems, Grammar.ItemsText;
    Bracketed(LBRACKET, PrintItems(v, 0), RBRACKET);
    assert v.items[0..] == v.items;
    NoLead(LBRACKET, Grammar.ItemsText(DocItems(v, 0)), RBRACKET);
  }

  lemma ObjectIsJson(v: Json, ks: seq<Text>)
    requires v.Object? && ks == SortedKeys(v.fields.Keys)
    requires Grammar.WellFormedMembers(DocMembers(v, ks, 0)) && MembersSay(DocMembers(v, ks, 0), v.fields)
    requires KeysOf(DocMembers(v, ks, 0)) == ks[0..]
    requires Grammar.Encode(PrintMembers(v, ks, 0)) == [] + Grammar.MembersText(DocMembers(v, ks, 0))
    ensures Grammar.WellFormed(Doc(v)) && Says(Doc(v), v)
    ensures Grammar.ValueText(Doc(v)) == Grammar.Encode(Print(v))
  {
    hide Grammar.Encode, DocMembers, PrintMembers, MembersSay, Grammar.WellFormedMembers, Grammar.MembersText;
    hide SortedKeys, InByteOrder, KeysOf;
    Bracketed(LBRACE, PrintMembers(v, ks, 0), RBRACE);
    SortedIsByteOrder(ks);
    assert ks[0..] == ks;
    NoLead(LBRACE, Grammar.MembersText(DocMembers(v, ks, 0)), RBRACE);
  }

  lemma SaysLegal(body: seq<Grammar.Spelling>, s: Text)
    requires StringSays(body, s)
    ensures Grammar.LegalBody(body) && Grammar.NoLone(body) && Grammar.Scalars(body) == s
  {
  }

  /** A name of small letters is encoded as it is, and is a literal. */
  lemma NameIsLiteral(t: Text, name: string)
    requires name != [] && |t| == |name| && forall k :: 0 <= k < |t| ==> t[k] == name[k] as int && 97 <= t[k] <= 122
    ensures Grammar.Encode(t) == Ascii(name) && Grammar.WellFormed(Grammar.Literal(Ascii(name)))
  {
    assert Plain(t);
    EncodePlain(t);
    hide Grammar.Encode;
    assert forall k :: 0 <= k < |t| ==> Ascii(name)[k] == t[k];
    assert Grammar.Encode(t) == Ascii(name);
    hide Ascii;
    forall k | 0 <= k < |t|
      ensures !Grammar.Structural(Ascii(name)[k])
    {
      assert Ascii(name)[k] == t[k];
    }
  }

  lemma NumberIsLiteral(text: NumberText)
    ensures Grammar.WellFormed(Grammar.Literal(Grammar.Encode(text)))
  {
    assert Plain(text) by { assert forall k :: 0 <= k < |text| ==> NumberChar(text[k]); }
    EncodePlain(text);
    hide Grammar.Encode;
    var t := Grammar.Encode(text);
    forall k | 0 <= k < |t|
      ensures !Grammar.Structural(t[k])
    {
      assert NumberChar(text[k]);
    }
  }

  lemma Bracketed(left: Scalar, inner: Text, right: Scalar)
    requires left < 0x80 && right < 0x80
    ensures Grammar.Encode([left] + inner + [right]) == [left] + Grammar.Encode(inner) + [right]
  {
    EncodeConcat([left] + inner, [right]);
    EncodeConcat([left], inner);
    EncodePlain([left]);
    EncodePlain([right]);
    hide Grammar.Encode;
    assert Grammar.Encode([left]) == [left] && Grammar.Encode([right]) == [right];
  }

  lemma SortedIsByteOrder(ks: seq<Text>)
    requires Sorted(ks)
    ensures InByteOrder(ks)
  {
    hide ByteLess, Less, Grammar.Encode;
    forall i, j | 0 <= i < j < |ks|
      ensures ByteLess(Grammar.Encode(ks[i]), Grammar.Encode(ks[j]))
    {
      KeysAreInByteOrder(ks[i], ks[j]);
    }
  }

  lemma {:induction false} ItemsAreJson(v: Json, n: nat)
    requires v.Array? && n <= |v.items|
    ensures Grammar.WellFormedItems(DocItems(v, n)) && ItemsSay(DocItems(v, n), v.items[n..])
    ensures Grammar.Encode(PrintItems(v, n)) ==
            (if 0 < n < |v.items| then [COMMA] else []) + Grammar.ItemsText(DocItems(v, n))
    decreases v, 0, |v.items| - n
  {
    hide Grammar.Encode, Print, Doc, Says, Grammar.WellFormed;
    if n == |v.items| {
      EncodePlain([]);
    } else {
      CanonicalTextIsJson(v.items[n]);
      ItemsAreJson(v, n + 1);
      assert v.items[n..][1..] == v.items[n + 1..];
      OneItemText(v, n);
    }
  }

  lemma OneItemText(v: Json, n: nat)
    requires v.Array? && n < |v.items|
    requires Grammar.ValueText(Doc(v.items[n])) == Grammar.Encode(Print(v.items[n]))
    requires Grammar.Encode(PrintItems(v, n + 1)) ==
             (if 0 < n + 1 < |v.items| then [COMMA] else []) + Grammar.ItemsText(DocItems(v, n + 1))
    ensures Grammar.Encode(PrintItems(v, n)) ==
            (if 0 < n < |v.items| then [COMMA] else []) + Grammar.ItemsText(DocItems(v, n))
  {
    hide Grammar.Encode, Print, Doc, Grammar.ValueText, PrintItems, DocItems, Grammar.ItemsText;
    var comma: Text := if n > 0 then [COMMA] else [];
    var behind := DocItems(v, n + 1);
    ItemsUnfold(v, n, comma);
    ItemStands(Doc(v.items[n]), behind);
    EncodePlain(comma);
    assert Grammar.Encode(comma) == comma;
    EncodeConcat(comma + Print(v.items[n]), PrintItems(v, n + 1));
    EncodeConcat(comma, Print(v.items[n]));
    InARow(comma, Grammar.ValueText(Doc(v.items[n])), [], [], if behind.NoItems? then [] else [COMMA],
           Grammar.ItemsText(behind));
    NothingBetween(comma + Grammar.ValueText(Doc(v.items[n])));
    NothingBetween(Grammar.ValueText(Doc(v.items[n])));
  }

  lemma NothingBetween(a: Bytes)
    ensures a + [] + [] == a
  {
  }

  lemma ItemsUnfold(v: Json, n: nat, comma: Text)
    requires v.Array? && n < |v.items| && comma == if n > 0 then [COMMA] else []
    ensures PrintItems(v, n) == comma + Print(v.items[n]) + PrintItems(v, n + 1)
    ensures DocItems(v, n) == Grammar.Item([], Doc(v.items[n]), [], DocItems(v, n + 1))
    ensures DocItems(v, n + 1).NoItems? <==> n + 1 == |v.items|
  {
    hide Print, Doc;
  }

  lemma ItemStands(value: Grammar.Value, rest: Grammar.Items)
    ensures Grammar.ItemsText(Grammar.Item([], value, [], rest)) ==
            Grammar.ValueText(value) + (if rest.NoItems? then [] else [COMMA]) + Grammar.ItemsText(rest)
  {
    hide Grammar.ValueText;
  }

  lemma {:induction false} MembersAreJson(v: Json, ks: seq<Text>, n: nat)
    requires v.Object? && n <= |ks| && forall k :: k in ks ==> k in v.fields
    ensures Grammar.WellFormedMembers(DocMembers(v, ks, n)) && MembersSay(DocMembers(v, ks, n), v.fields)
    ensures KeysOf(DocMembers(v, ks, n)) == ks[n..]
    ensures Grammar.Encode(PrintMembers(v, ks, n)) ==
            (if 0 < n < |ks| then [COMMA] else []) + Grammar.MembersText(DocMembers(v, ks, n))
    decreases v, 0, |ks| - n
  {
    if n == |ks| {
      EncodePlain([]);
    } else {
      CanonicalTextIsJson(v.fields[ks[n]]);
      MembersAreJson(v, ks, n + 1);
      OneMemberSays(v, ks, n);
      OneMemberText(v, ks, n);
      hide *;
    }
  }

  lemma OneMemberSays(v: Json, ks: seq<Text>, n: nat)
    requires v.Object? && n < |ks| && forall k :: k in ks ==> k in v.fields
    requires var w := Doc(v.fields[ks[n]]); Grammar.WellFormed(w) && Says(w, v.fields[ks[n]])
    requires var rest := DocMembers(v, ks, n + 1);
             Grammar.WellFormedMembers(rest) && MembersSay(rest, v.fields) && KeysOf(rest) == ks[n + 1..]
    ensures var m := DocMembers(v, ks, n);
            Grammar.WellFormedMembers(m) && MembersSay(m, v.fields) && KeysOf(m) == ks[n..]
  {
    hide *;
    BodySays(ks[n]);
    SaysLegal(Body(ks[n]), ks[n]);
    DocUnfold(v, ks, n);
    MemberSays(Body(ks[n]), Doc(v.fields[ks[n]]), DocMembers(v, ks, n + 1), v.fields);
    assert ks[n..] == [ks[n]] + ks[n + 1..];
  }

  lemma DocUnfold(v: Json, ks: seq<Text>, n: nat)
    requires v.Object? && n < |ks| && forall k :: k in ks ==> k in v.fields
    ensures DocMembers(v, ks, n) ==
            Grammar.Member([], Body(ks[n]), [], [], Doc(v.fields[ks[n]]), [], DocMembers(v, ks, n + 1))
  {
    hide Doc, Body;
  }

  lemma MemberSays(
    key: seq<Grammar.Spelling>, value: Grammar.Value, rest: Grammar.Members, fields: map<Text, Json>)
    requires Grammar.LegalBody(key) && Grammar.NoLone(key) && Grammar.Scalars(key) in fields
    requires Grammar.WellFormed(value) && Says(value, fields[Grammar.Scalars(key)])
    requires Grammar.WellFormedMembers(rest) && MembersSay(rest, fields)
    ensures var m := Grammar.Member([], key, [], [], value, [], rest);
            && Grammar.WellFormedMembers(m) && MembersSay(m, fields)
            && KeysOf(m) == [Grammar.Scalars(key)] + KeysOf(rest)
  {
    hide Grammar.LegalBody, Grammar.NoLone, Grammar.Scalars, Grammar.WellFormed, Says, Grammar.White;
  }

  lemma OneMemberText(v: Json, ks: seq<Text>, n: nat)
    requires v.Object? && n < |ks| && forall k :: k in ks ==> k in v.fields
    requires Grammar.ValueText(Doc(v.fields[ks[n]])) == Grammar.Encode(Print(v.fields[ks[n]]))
    requires Grammar.Encode(PrintMembers(v, ks, n + 1)) ==
             (if 0 < n + 1 < |ks| then [COMMA] else []) + Grammar.MembersText(DocMembers(v, ks, n + 1))
    ensures Grammar.Encode(PrintMembers(v, ks, n)) ==
            (if 0 < n < |ks| then [COMMA] else []) + Grammar.MembersText(DocMembers(v, ks, n))
  {
    hide Grammar.Encode, Print, Doc, Quoted, Body, Grammar.StringText, Grammar.ValueText, Grammar.MembersText;
    hide PrintMembers;
    var k, rest := ks[n], PrintMembers(v, ks, n + 1);
    QuotedSays(k);
    var comma: Text := if n > 0 then [COMMA] else [];
    MembersUnfold(v, ks, n, comma);
    MemberText(comma, Quoted(k), Print(v.fields[k]), rest);
    var behind := DocMembers(v, ks, n + 1);
    MemberStands(Body(k), Doc(v.fields[k]), behind);
    InARow(comma, Grammar.StringText(Body(k)), [COLON], Grammar.ValueText(Doc(v.fields[k])),
           if behind.NoMembers? then [] else [COMMA], Grammar.MembersText(behind));
  }

  lemma InARow(a: Bytes, b: Bytes, c: Bytes, d: Bytes, e: Bytes, f: Bytes)
    ensures a + b + c + d + (e + f) == a + (b + c + d + e + f)
  {
  }

  lemma MemberStands(key: seq<Grammar.Spelling>, value: Grammar.Value, rest: Grammar.Members)
    ensures Grammar.MembersText(Grammar.Member([], key, [], [], value, [], rest)) ==
            Grammar.StringText(key) + [COLON] + Grammar.ValueText(value)
            + (if rest.NoMembers? then [] else [COMMA]) + Grammar.MembersText(rest)
  {
    hide Grammar.StringText, Grammar.ValueText;
    var m := Grammar.Member([], key, [], [], value, [], rest);
    assert Grammar.KeyText(m) == Grammar.StringText(key) + [COLON];
  }

  lemma MemberText(comma: Text, key: Text, value: Text, rest: Text)
    requires comma == [] || comma == [COMMA]
    ensures Grammar.Encode(comma + key + [COLON] + value + rest) ==
            comma + Grammar.Encode(key) + [COLON] + Grammar.Encode(value) + Grammar.Encode(rest)
  {
    hide Grammar.Encode;
    EncodePlain(comma);
    EncodePlain([COLON]);
    assert Grammar.Encode(comma) == comma && Grammar.Encode([COLON]) == [COLON];
    EncodeConcat(comma + key + [COLON] + value, rest);
    EncodeConcat(comma + key + [COLON], value);
    EncodeConcat(comma + key, [COLON]);
    EncodeConcat(comma, key);
  }

  // ---------- what is hashed ----------

  lemma TwoKeys(a: Text, b: Text)
    requires Less(a, b)
    ensures SortedKeys({a, b}) == [a, b]
  {
    hide SortedKeys;
    LessIsTotal(a, a);
    SortedIsUnique(SortedKeys({a, b}), [a, b]);
  }

  /** The text of an object with two fields. */
  lemma TwoMembers(v: Json, a: Text, b: Text)
    requires v.Object? && v.fields.Keys == {a, b} && Less(a, b)
    ensures Grammar.Encode(Print(v)) ==
            [LBRACE] + Grammar.Encode(Quoted(a)) + [COLON] + Grammar.Encode(Print(v.fields[a]))
            + [COMMA] + Grammar.Encode(Quoted(b)) + [COLON] + Grammar.Encode(Print(v.fields[b])) + [RBRACE]
  {
    hide Grammar.Encode, Quoted, PrintMembers, SortedKeys;
    TwoKeys(a, b);
    var ks := [a, b];
    assert Print(v) == [LBRACE] + PrintMembers(v, ks, 0) + [RBRACE];
    hide Print;
    MembersUnfold(v, ks, 0, []);
    MembersUnfold(v, ks, 1, [COMMA]);
    NoMembersLeft(v, ks);
    EncodePlain([]);
    Bracketed(LBRACE, PrintMembers(v, ks, 0), RBRACE);
    MemberText([], Quoted(a), Print(v.fields[a]), PrintMembers(v, ks, 1));
    MemberText([COMMA], Quoted(b), Print(v.fields[b]), PrintMembers(v, ks, 2));
    InOneRow(Grammar.Encode(Quoted(a)), Grammar.Encode(Print(v.fields[a])),
             Grammar.Encode(Quoted(b)), Grammar.Encode(Print(v.fields[b])));
  }

  lemma InOneRow(a: Bytes, p: Bytes, b: Bytes, q: Bytes)
    ensures [LBRACE] + ([] + a + [COLON] + p + ([COMMA] + b + [COLON] + q + [])) + [RBRACE] ==
            [LBRACE] + a + [COLON] + p + [COMMA] + b + [COLON] + q + [RBRACE]
  {
  }

  predicate NeedsNoEscape(s: Text) {
    forall k :: 0 <= k < |s| ==> 0x20 <= s[k] < 0x80 && s[k] !in {0x22, 0x5C, 0x3C, 0x3E, 0x26}
  }

  lemma {:induction false} QuotedPlain(s: Text)
    requires NeedsNoEscape(s)
    ensures EscapeAll(s) == s
    decreases |s|
  {
    if s != [] {
      QuotedPlain(s[1..]);
      assert Escape(s[0]) == [s[0]];
    }
  }

  lemma FieldText(s: Text, name: Bytes)
    requires NeedsNoEscape(s) && |s| == |name| && forall k :: 0 <= k < |s| ==> s[k] == name[k]
    ensures Grammar.Encode(Quoted(s)) == [QUOTE] + name + [QUOTE]
  {
    QuotedPlain(s);
    Bracketed(QUOTE, s, QUOTE);
    EncodePlain(s);
    hide Grammar.Encode;
    assert Grammar.Encode(s) == name;
  }

  lemma FieldTexts()
    ensures Grammar.Encode(Quoted(MESSAGES)) == [QUOTE] + Ascii("messages") + [QUOTE]
    ensures Grammar.Encode(Quoted(SYSTEM)) == [QUOTE] + Ascii("system") + [QUOTE]
    ensures Grammar.Encode(Quoted(CONTENT)) == [QUOTE] + Ascii("content") + [QUOTE]
    ensures Grammar.Encode(Quoted(ROLE)) == [QUOTE] + Ascii("role") + [QUOTE]
  {
    hide Grammar.Encode, Quoted;
    FieldText(MESSAGES, Ascii("messages"));
    FieldText(SYSTEM, Ascii("system"));
    FieldText(CONTENT, Ascii("content"));
    FieldText(ROLE, Ascii("role"));
  }

  lemma Braces()
    ensures Ascii("{") == [LBRACE] && Ascii(",") == [COMMA] && Ascii("}") == [RBRACE]
  {
  }

  lemma NameBetween(c: char, name: string)
    requires c as int < 128
    ensures Ascii([c] + ['"'] + name + ['"', ':']) == Ascii([c]) + ([QUOTE] + Ascii(name) + [QUOTE]) + [COLON]
  {
  }

  lemma MessagesAndSystem()
    ensures [LBRACE] + Grammar.Encode(Quoted(MESSAGES)) + [COLON] == Ascii("{\"messages\":")
    ensures [COMMA] + Grammar.Encode(Quoted(SYSTEM)) + [COLON] == Ascii(",\"system\":")
    ensures [RBRACE] == Ascii("}")
  {
    hide Grammar.Encode, Quoted, Ascii;
    FieldTexts();
    NameBetween('{', "messages");
    NameBetween(',', "system");
    assert ['{'] + ['"'] + "messages" + ['"', ':'] == "{\"messages\":";
    assert [','] + ['"'] + "system" + ['"', ':'] == ",\"system\":";
    Braces();
  }

  /** What is hashed of a context: its messages, then its system prompt. */
  lemma ContextText(system: Json, messages: Messages)
    ensures Grammar.Encode(Print(Context(system, messages))) ==
            Ascii("{\"messages\":") + Grammar.Encode(Print(MessagesJson(messages)))
            + Ascii(",\"system\":") + Grammar.Encode(Print(system)) + Ascii("}")
  {
    hide Grammar.Encode, Print, Quoted, Ascii;
    var v := Context(system, messages);
    assert v.fields.Keys == {MESSAGES, SYSTEM};
    assert Less(MESSAGES, SYSTEM);
    TwoMembers(v, MESSAGES, SYSTEM);
    MessagesAndSystem();
    Regroup([LBRACE], Grammar.Encode(Quoted(MESSAGES)), [COLON], Grammar.Encode(Print(v.fields[MESSAGES])),
            [COMMA], Grammar.Encode(Quoted(SYSTEM)), Grammar.Encode(Print(v.fields[SYSTEM])), [RBRACE]);
  }

  lemma ContentAndRole()
    ensures [LBRACE] + Grammar.Encode(Quoted(CONTENT)) + [COLON] == Ascii("{\"content\":")
    ensures [COMMA] + Grammar.Encode(Quoted(ROLE)) + [COLON] == Ascii(",\"role\":")
    ensures [RBRACE] == Ascii("}")
  {
    hide Grammar.Encode, Quoted, Ascii;
    FieldTexts();
    NameBetween('{', "content");
    NameBetween(',', "role");
    assert ['{'] + ['"'] + "content" + ['"', ':'] == "{\"content\":";
    assert [','] + ['"'] + "role" + ['"', ':'] == ",\"role\":";
    Braces();
  }

  /** What is hashed of a response: its content, then its role. */
  lemma MessageText(role: Text, content: Json)
    ensures Grammar.Encode(Print(Message(role, content))) ==
            Ascii("{\"content\":") + Grammar.Encode(Print(content))
            + Ascii(",\"role\":") + Grammar.Encode(Print(String(role))) + Ascii("}")
  {
    hide Grammar.Encode, Print, Quoted, Ascii;
    var v := Message(role, content);
    assert v.fields.Keys == {CONTENT, ROLE};
    assert Less(CONTENT, ROLE);
    TwoMembers(v, CONTENT, ROLE);
    ContentAndRole();
    Regroup([LBRACE], Grammar.Encode(Quoted(CONTENT)), [COLON], Grammar.Encode(Print(v.fields[CONTENT])),
            [COMMA], Grammar.Encode(Quoted(ROLE)), Grammar.Encode(Print(v.fields[ROLE])), [RBRACE]);
  }

  lemma Regroup(a: Bytes, b: Bytes, c: Bytes, d: Bytes, e: Bytes, f: Bytes, g: Bytes, h: Bytes)
    ensures a + b + c + d + e + f + c + g + h == (a + b + c) + d + (e + f + c) + g + h
  {
  }
}
