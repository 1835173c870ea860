/** Canonical JSON and the fingerprints taken of it.  Texts are sequences of
    Unicode scalar values; the bytes are their UTF-8 encoding, whose order is the
    order of the scalar values. */
module CanonicalJson {
  import Unicode

  type Scalar = Unicode.Scalar
  type Text = seq<Scalar>

  // the shared characters, as elements of a text
  const COMMA: Scalar := Unicode.COMMA
  const QUOTE: Scalar := Unicode.QUOTE
  const BACKSLASH: Scalar := Unicode.BACKSLASH
  const LBRACKET: Scalar := Unicode.LBRACKET
  const RBRACKET: Scalar := Unicode.RBRACKET
  const LBRACE: Scalar := Unicode.LBRACE
  const RBRACE: Scalar := Unicode.RBRACE
  const COLON: Scalar := 58
  const NULL: Text := [110, 117, 108, 108]
  const TRUE: Text := [116, 114, 117, 101]
  const FALSE: Text := [102, 97, 108, 115, 101]

  /** A character of a JSON number: a digit or one of `+-.Ee`. */
  predicate NumberChar(c: Scalar) { 48 <= c <= 57 || c in {43, 45, 46, 69, 101} }

  /** A number, given by the text that `json.Marshal` writes for it; different
      floats have different texts. */
  type NumberText = t: Text | t != [] && forall k :: 0 <= k < |t| ==> NumberChar(t[k]) witness [48]

  /** A decoded JSON value. */
  datatype Json =
    | Null
    | Bool(b: bool)
    | Number(text: NumberText)
    | String(s: Text)
    | Array(items: seq<Json>)
    | Object(fields: map<Text, Json>)

  // ---------- strings ----------

  function HexDigit(d: int): Scalar
    requires 0 <= d < 16
  {
    if d < 10 then 48 + d else 87 + d
  }

  /** How `json.Marshal` writes one character of a string. */
  function Escape(c: Scalar): (t: Text)
    ensures t != []
  {
    if c == QUOTE || c == BACKSLASH then [BACKSLASH, c]
    else if c == 8 then [BACKSLASH, 98]
    else if c == 12 then [BACKSLASH, 102]
    else if c == 10 then [BACKSLASH, 110]
    else if c == 13 then [BACKSLASH, 114]
    else if c == 9 then [BACKSLASH, 116]
    else if c < 0x20 || c in {60, 62, 38, 0x2028, 0x2029} then
      [BACKSLASH, 117, HexDigit(c / 0x1000), HexDigit(c / 0x100 % 16), HexDigit(c / 16 % 16), HexDigit(c % 16)]
    else [c]
  }

  function EscapeAll(s: Text): Text {
    if s == [] then [] else Escape(s[0]) + EscapeAll(s[1..])
  }

  function Quoted(s: Text): Text {
    [QUOTE] + EscapeAll(s) + [QUOTE]
  }

  // ---------- key order ----------

  /** The order of `sort.Strings`. */
  predicate Less(a: Text, b: Text) {
    b != [] && (a == [] || a[0] < b[0] || (a[0] == b[0] && Less(a[1..], b[1..])))
  }

  lemma {:induction false} LessIsTotal(a: Text, b: Text)
    ensures a != b ==> Less(a, b) || Less(b, a)
    ensures !(Less(a, b) && Less(b, a)) && !Less(a, a)
    decreases |a|
  {
    if a != [] && b != [] && a[0] == b[0] {
      LessIsTotal(a[1..], b[1..]);
      assert a == [a[0]] + a[1..] && b == [b[0]] + b[1..];
    }
    if a != [] {
      LessIsTotal(a[1..], a[1..]);
    }
  }

  lemma {:induction false} LessIsTransitive(a: Text, b: Text, c: Text)
    requires Less(a, b) && Less(b, c)
    ensures Less(a, c)
    decreases |a|
  {
    if a != [] && a[0] == b[0] == c[0] {
      LessIsTransitive(a[1..], b[1..], c[1..]);
    }
  }

  predicate Sorted(ks: seq<Text>) {
    forall i, j :: 0 <= i < j < |ks| ==> Less(ks[i], ks[j])
  }

  function Insert(k: Text, ks: seq<Text>): (out: seq<Text>)
    ensures |out| == |ks| + 1
    ensures forall x :: x in out <==> x == k || x in ks
  {
    if ks == [] then [k]
    else if Less(k, ks[0]) then [k] + ks
    else [ks[0]] + Insert(k, ks[1..])
  }

  /** `sort.Strings`; keys of a map are distinct, so any correct sort gives this. */
  function SortStrings(ks: seq<Text>): (out: seq<Text>)
    ensures |out| == |ks|
    ensures forall x :: x in out <==> x in ks
  {
    if ks == [] then [] else Insert(ks[0], SortStrings(ks[1..]))
  }

  predicate Distinct(ks: seq<Text>) {
    forall i, j :: 0 <= i < j < |ks| ==> ks[i] != ks[j]
  }

  lemma {:induction false} InsertKeepsSorted(k: Text, ks: seq<Text>)
    requires Sorted(ks) && k !in ks
    ensures Sorted(Insert(k, ks))
    decreases |ks|
  {
    if ks != [] {
      LessIsTotal(k, ks[0]);
      assert ks[0] in ks;
      if Less(k, ks[0]) {
        forall j | 0 < j < |ks|
          ensures Less(k, ks[j])
        {
          LessIsTransitive(k, ks[0], ks[j]);
        }
      } else {
        InsertKeepsSorted(k, ks[1..]);
        var rest := Insert(k, ks[1..]);
        forall j | 0 <= j < |rest|
          ensures Less(ks[0], rest[j])
        {
          assert rest[j] in rest;
        }
      }
    }
  }

  lemma {:induction false} SortIsSorted(ks: seq<Text>)
    requires Distinct(ks)
    ensures Sorted(SortStrings(ks))
    decreases |ks|
  {
    if ks != [] {
      SortIsSorted(ks[1..]);
      InsertKeepsSorted(ks[0], SortStrings(ks[1..]));
    }
  }

  /** A set of keys has one sorted order. */
  lemma {:induction false} SortedIsUnique(a: seq<Text>, b: seq<Text>)
    requires Sorted(a) && Sorted(b) && forall x :: x in a <==> x in b
    ensures a == b
    decreases |a|
  {
    assert forall k :: 0 <= k < |b| ==> b[k] in a;
    assert forall k :: 0 <= k < |a| ==> a[k] in b;
    if a != [] && b != [] {
      if a[0] != b[0] {
        LessIsTotal(a[0], b[0]);
        assert false;
      }
      TailElements(a, b);
      SortedIsUnique(a[1..], b[1..]);
      assert a == [a[0]] + a[1..] && b == [b[0]] + b[1..];
    }
  }

  lemma TailElements(a: seq<Text>, b: seq<Text>)
    requires Sorted(a) && Sorted(b) && a != [] && b != [] && a[0] == b[0]
    requires forall x :: x in a <==> x in b
    ensures forall x :: x in a[1..] <==> x in b[1..]
  {
    LessIsTotal(a[0], a[0]);
    assert a[0] !in a[1..] && b[0] !in b[1..];
    assert forall x :: x in a <==> x == a[0] || x in a[1..];
    assert forall x :: x in b <==> x == b[0] || x in b[1..];
  }

  ghost function Enumerate(s: set<Text>): (ks: seq<Text>)
    ensures |ks| == |s| && Distinct(ks) && forall x :: x in ks <==> x in s
  {
    if s == {} then [] else var k :| k in s; [k] + Enumerate(s - {k})
  }

  ghost function SortedKeys(s: set<Text>): (ks: seq<Text>)
    ensures |ks| == |s| && Sorted(ks) && forall x :: x in ks <==> x in s
  {
    SortIsSorted(Enumerate(s));
    SortStrings(Enumerate(s))
  }

  /** Whatever order the map yields its keys in, sorting gives the same. */
  lemma {:induction false} AnyOrderSortsAlike(ks: seq<Text>, s: set<Text>)
    requires Distinct(ks) && forall x :: x in ks <==> x in s
    ensures SortStrings(ks) == SortedKeys(s)
  {
    hide SortStrings, SortedKeys;
    SortIsSorted(ks);
    SortedIsUnique(SortStrings(ks), SortedKeys(s));
  }

  // ---------- printing ----------

  ghost function Print(v: Json): (t: Text)
    ensures t != []
    decreases v, 1, 0
  {
    match v
    case Null => NULL
    case Bool(b) => if b then TRUE else FALSE
    case Number(text) => text
    case String(s) => Quoted(s)
    case Array(items) => [LBRACKET] + PrintItems(v, 0) + [RBRACKET]
    case Object(fields) => [LBRACE] + PrintMembers(v, SortedKeys(fields.Keys), 0) + [RBRACE]
  }

  /** The items from the n-th on, each but the first of all behind a comma. */
  ghost function PrintItems(v: Json, n: nat): Text
    requires v.Array? && n <= |v.items|
    decreases v, 0, |v.items| - n
  {
    if n == |v.items| then []
    else (if n > 0 then [COMMA] else []) + Print(v.items[n]) + PrintItems(v, n + 1)
  }

  ghost function PrintMembers(v: Json, ks: seq<Text>, n: nat): Text
    requires v.Object? && n <= |ks| && forall k :: k in ks ==> k in v.fields
    decreases v, 0, |ks| - n
  {
    if n == |ks| then []
    else
      (if n > 0 then [COMMA] else []) + Quoted(ks[n]) + [COLON] + Print(v.fields[ks[n]]) + PrintMembers(v, ks, n + 1)
  }

  class Buffer {
    var text: Text

    constructor ()
      ensures text == []
    {
      text := [];
    }

    method Write(t: Text)
      modifies this
      ensures text == old(text) + t
    {
      text := text + t;
    }
  }

  /** `writeCanonicalJSON`: values are printed into one shared buffer; the keys of
      an object are collected in whatever order the map yields them, then sorted. */
  method WriteCanonicalJSON(buf: Buffer, v: Json)
    modifies buf
    ensures buf.text == old(buf.text) + Print(v)
    decreases v
  {
    hide Quoted, SortStrings, SortedKeys, Sorted;
    match v {
      case Null => buf.Write(NULL);
      case Bool(b) =>
        if b {
          buf.Write(TRUE);
        } else {
          buf.Write(FALSE);
        }
      case String(s) => buf.Write(Quoted(s));
      case Number(text) => buf.Write(text);
      case Array(items) =>
        WriteItems(buf, v);
      case Object(fields) =>
        var keys: seq<Text> := [];
        var left := fields.Keys;
        while left != {}
          invariant left <= fields.Keys && Distinct(keys)
          invariant forall x :: x in keys <==> x in fields.Keys && x !in left
          decreases left
        {
          var key :| key in left;
          keys := keys + [key];
          left := left - {key};
        }
        AnyOrderSortsAlike(keys, fields.Keys);
        keys := SortStrings(keys);
        WriteMembers(buf, v, keys);
    }
  }

  lemma ItemsStep(v: Json, i: nat, before: Text)
    requires v.Array? && i < |v.items|
    ensures before + PrintItems(v, i) ==
            before + (if i > 0 then [COMMA] else []) + Print(v.items[i]) + PrintItems(v, i + 1)
  {
    hide Print;
  }

  method WriteItems(buf: Buffer, v: Json)
    requires v.Array?
    modifies buf
    ensures buf.text == old(buf.text) + ([LBRACKET] + PrintItems(v, 0) + [RBRACKET])
    decreases v, 0
  {
    hide Print, PrintItems;
    ghost var start := old(buf.text) + [LBRACKET];
    buf.Write([LBRACKET]);
    for i := 0 to |v.items|
      invariant buf.text + PrintItems(v, i) == start + PrintItems(v, 0)
    {
      ItemsStep(v, i, buf.text);
      ghost var before := buf.text;
      if i > 0 {
        buf.Write([COMMA]);
      }
      WriteCanonicalJSON(buf, v.items[i]);
      assert i > 0 || before + [] == before;
    }
    assert PrintItems(v, |v.items|) == [] by { NoItemsLeft(v); }
    assert buf.text + [] == buf.text;
    buf.Write([RBRACKET]);
  }

  lemma NoItemsLeft(v: Json)
    requires v.Array?
    ensures PrintItems(v, |v.items|) == []
  {
  }

  lemma MembersStep(v: Json, ks: seq<Text>, i: nat, before: Text)
    requires v.Object? && i < |ks| && forall k :: k in ks ==> k in v.fields
    ensures before + PrintMembers(v, ks, i) ==
            before + (if i > 0 then [COMMA] else []) + Quoted(ks[i]) + [COLON] + Print(v.fields[ks[i]])
            + PrintMembers(v, ks, i + 1)
  {
    var comma: Text := if i > 0 then [COMMA] else [];
    MembersUnfold(v, ks, i, comma);
    hide Print, Quoted, PrintMembers;
    Reassociate(before, comma, Quoted(ks[i]), [COLON], Print(v.fields[ks[i]]), PrintMembers(v, ks, i + 1));
  }

  lemma MembersUnfold(v: Json, ks: seq<Text>, i: nat, comma: Text)
    requires v.Object? && i < |ks| && forall k :: k in ks ==> k in v.fields
    requires comma == if i > 0 then [COMMA] else []
    ensures PrintMembers(v, ks, i) ==
            comma + Quoted(ks[i]) + [COLON] + Print(v.fields[ks[i]]) + PrintMembers(v, ks, i + 1)
  {
    hide Print, Quoted;
  }

  lemma Reassociate(before: Text, a: Text, b: Text, c: Text, d: Text, e: Text)
    ensures before + (a + b + c + d + e) == before + a + b + c + d + e
  {
  }

  lemma NoMembersLeft(v: Json, ks: seq<Text>)
    requires v.Object? && forall k :: k in ks ==> k in v.fields
    ensures PrintMembers(v, ks, |ks|) == []
  {
  }

  method WriteMembers(buf: Buffer, v: Json, keys: seq<Text>)
    requires v.Object? && forall k :: k in keys ==> k in v.fields
    modifies buf
    ensures buf.text == old(buf.text) + ([LBRACE] + PrintMembers(v, keys, 0) + [RBRACE])
    decreases v, 0
  {
    hide Quoted, Print, PrintMembers;
    ghost var start := old(buf.text) + [LBRACE];
    buf.Write([LBRACE]);
    for i := 0 to |keys|
      invariant buf.text + PrintMembers(v, keys, i) == start + PrintMembers(v, keys, 0)
    {
      MembersStep(v, keys, i, buf.text);
      ghost var before := buf.text;
      if i > 0 {
        buf.Write([COMMA]);
      }
      assert i > 0 || before + [] == before;
      buf.Write(Quoted(keys[i]));
      buf.Write([COLON]);
      WriteCanonicalJSON(buf, v.fields[keys[i]]);
    }
    NoMembersLeft(v, keys);
    assert buf.text + [] == buf.text;
    buf.Write([RBRACE]);
  }

  /** `canonicalJSON` after the value has been marshalled and decoded. */
  method CanonicalJSON(v: Json) returns (text: Text)
    ensures text == Print(v)
  {
    var buf := new Buffer();
    WriteCanonicalJSON(buf, v);
    text := buf.text;
  }

  // ---------- fingerprints ----------

  /** "system", "messages", "role", "content" */
  const SYSTEM: Text := [115, 121, 115, 116, 101, 109]
  const MESSAGES: Text := [109, 101, 115, 115, 97, 103, 101, 115]
  const ROLE: Text := [114, 111, 108, 101]
  const CONTENT: Text := [99, 111, 110, 116, 101, 110, 116]

  /** A slice of messages; a nil slice is `None`. */
  type Messages = m: (bool, seq<Json>) | m.0 || m.1 == [] witness (false, [])

  function MessagesJson(messages: Messages): Json {
    if messages.0 then Array(messages.1) else Null
  }

  function Context(system: Json, messages: Messages): Json {
    Object(map[SYSTEM := system, MESSAGES := MessagesJson(messages)])
  }

  function Message(role: Text, content: Json): Json {
    Object(map[ROLE := String(role), CONTENT := content])
  }

  /** `ContextFingerprint`, with the hash and its hexadecimal form as a parameter. */
  method ContextFingerprint(digest: Text -> Text, system: Json, messages: Messages) returns (fingerprint: Text)
    ensures fingerprint == digest(Print(Context(system, messages)))
  {
    var raw := CanonicalJSON(Context(system, messages));
    fingerprint := digest(raw);
  }

  datatype Response = NoResponse | Response(role: Text, content: Json)

  /** `AssistantResponseFingerprint`. */
  method AssistantResponseFingerprint(digest: Text -> Text, system: Json, messages: Messages, response: Response)
    returns (fingerprint: Text)
    ensures response.NoResponse? ==> fingerprint == []
    ensures response.Response? ==>
              var answered := (true, messages.1 + [Message(response.role, response.content)]);
              fingerprint == digest(Print(Context(system, answered)))
  {
    if response.NoResponse? {
      return [];
    }
    var nextMessages := messages.1;
    nextMessages := nextMessages + [Message(response.role, response.content)];
    fingerprint := ContextFingerprint(digest, system, (true, nextMessages));
  }
}
