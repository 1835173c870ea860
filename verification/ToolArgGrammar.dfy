/** Correctness of the scanners on well-formed JSON: decoding undoes every legal
    spelling, and the field search returns exactly the first allowed root-level
    member with a string value. */
module ToolArgGrammar {
  import opened Unicode
  import opened GoStrings
  import opened ToolArgScanner
  import opened ToolArgStability
  import opened JsonText

  /** `t` is what stands in `raw` at `i`. */
  predicate At(raw: Bytes, i: nat, t: Bytes) {
    i + |t| <= |raw| && raw[i..i + |t|] == t
  }

  lemma AtSplit(raw: Bytes, i: nat, a: Bytes, b: Bytes)
    requires At(raw, i, a + b)
    ensures At(raw, i, a) && At(raw, i + |a|, b)
  {
    var t := a + b;
    assert raw[i..i + |a|] == raw[i..i + |t|][..|a|] == a;
    assert raw[i + |a|..i + |t|] == raw[i..i + |t|][|a|..] == b;
  }

  lemma AtByte(raw: Bytes, i: nat, t: Bytes, k: nat)
    requires At(raw, i, t) && k < |t|
    ensures raw[i + k] == t[k]
  {
    assert raw[i..i + |t|][k] == t[k];
  }

  lemma Bounded(raw: Bytes, i: nat, t: Bytes)
    requires At(raw, i, t)
    ensures i + |t| <= |raw|
  {
  }

  // ---------- strings ----------

  lemma DigitValue(b: Byte, d: int)
    requires IsDigit(b, d)
    ensures HexValue(b) == d
  {
  }

  lemma SpelledUnit(digits: Bytes, unit: int)
    requires 0 <= unit < 0x10000 && Spells(digits, unit)
    ensures ParseHexRune(digits) == unit
  {
    assert unit / 0x1000 == unit / 0x100 / 0x10 && unit / 0x100 == unit / 0x10 / 0x10;
    DigitValue(digits[0], unit / 0x1000);
    DigitValue(digits[1], unit / 0x100 % 0x10);
    DigitValue(digits[2], unit / 0x10 % 0x10);
    DigitValue(digits[3], unit % 0x10);
    hide HexValue, IsDigit;
  }

  lemma EncodedBytesArePlain(r: Scalar)
    requires Raw(r).Legal()
    ensures forall k :: 0 <= k < |EncodeRune(r)| ==> EncodeRune(r)[k] != QUOTE && EncodeRune(r)[k] != BACKSLASH
  {
  }

  lemma {:induction false} ScanPlain(raw: Bytes, i: nat, t: Bytes)
    requires At(raw, i, t)
    requires forall k :: 0 <= k < |t| ==> t[k] != QUOTE && t[k] != BACKSLASH
    ensures ScanString(raw, i) == ScanString(raw, i + |t|).Prepend(t)
    decreases |t|
  {
    if t != [] {
      assert t == [t[0]] + t[1..];
      AtSplit(raw, i, [t[0]], t[1..]);
      AtByte(raw, i, t, 0);
      ScanPlain(raw, i + 1, t[1..]);
      PrependTwice(ScanString(raw, i + |t|), [t[0]], t[1..]);
    }
  }

  lemma WholeItem(raw: Bytes, i: nat, p: Spelling)
    requires p.Legal() && p.Whole() && !p.Raw? && At(raw, i, p.Text())
    ensures i < |raw| && NextItem(raw, i) == Piece(EncodeRune(p.Value()), |p.Text()|)
  {
    match p
    case Short(r, letter) =>
      AtByte(raw, i, p.Text(), 0);
      AtByte(raw, i, p.Text(), 1);
    case Hex(unit, digits) =>
      HexUnit(raw, i, p);
      hide EncodeRune, ParseHexRune;
  }

  /** What the escape of a code unit looks like from its backslash. */
  lemma HexUnit(raw: Bytes, i: nat, p: Spelling)
    requires p.Legal() && p.Hex? && At(raw, i, p.Text())
    ensures |p.Text()| == 6 && i + 5 < |raw| && raw[i] == BACKSLASH && raw[i + 1] == LOWER_U
    ensures ParseHexRune(raw[i + 2..i + 6]) == p.unit
  {
    hide ParseHexRune;
    var t := p.Text();
    AtByte(raw, i, t, 0);
    AtByte(raw, i, t, 1);
    AtSplit(raw, i, [BACKSLASH, LOWER_U], p.digits);
    assert raw[i + 2..i + 6] == p.digits;
    SpelledUnit(p.digits, p.unit);
  }

  lemma PairItem(raw: Bytes, i: nat, hi: Spelling, lo: Spelling)
    requires hi.Legal() && hi.High() && lo.Legal() && lo.Low() && At(raw, i, hi.Text()) && At(raw, i + 6, lo.Text())
    ensures NextItem(raw, i) == Piece(EncodeRune(CombineSurrogates(hi.unit, lo.unit)), 12)
  {
    HexUnit(raw, i, hi);
    HexUnit(raw, i + 6, lo);
    assert raw[i + 6 + 2..i + 6 + 6] == raw[i + 8..i + 12];
    hide EncodeRune, ParseHexRune, CombineSurrogates, At;
  }

  lemma ScanWhole(raw: Bytes, i: nat, p: Spelling)
    requires p.Legal() && p.Whole() && At(raw, i, p.Text())
    ensures ScanString(raw, i) == ScanString(raw, i + |p.Text()|).Prepend(EncodeRune(p.Value()))
  {
    hide EncodeRune, NextItem;
    if p.Raw? {
      EncodedBytesArePlain(p.r);
      ScanPlain(raw, i, p.Text());
    } else {
      WholeItem(raw, i, p);
    }
  }

  lemma ScanPair(raw: Bytes, i: nat, hi: Spelling, lo: Spelling)
    requires hi.Legal() && hi.High() && lo.Legal() && lo.Low() && At(raw, i, hi.Text()) && At(raw, i + 6, lo.Text())
    ensures ScanString(raw, i) ==
            ScanString(raw, i + 12).Prepend(EncodeRune(CombineSurrogates(hi.unit, lo.unit)))
  {
    PairItem(raw, i, hi, lo);
    AtByte(raw, i, hi.Text(), 0);
    hide EncodeRune, NextItem, CombineSurrogates, At;
  }

  // ---------- the characters of a body ----------

  /** How many spellings make up the first scalar value. */
  function Width(body: seq<Spelling>): nat {
    if PairAt(body, 0) then 2 else 1
  }

  lemma LoneBehind(body: seq<Spelling>)
    requires body != [] && !LoneAt(body, 0)
    ensures Width(body) <= |body|
    ensures NoLone(body) <==> NoLone(body[Width(body)..])
  {
    var w := Width(body);
    var rest := body[w..];
    forall k: nat
      ensures LoneAt(rest, k) <==> LoneAt(body, k + w)
    {
    }
    if NoLone(rest) {
      forall k: nat
        ensures !LoneAt(body, k)
      {
        if k >= w {
          assert !LoneAt(rest, k - w);
        }
      }
    }
  }

  /** The text of a body is the text of its first scalar value and of the rest. */
  lemma BodyParts(raw: Bytes, i: nat, body: seq<Spelling>, tail: Bytes)
    requires body != [] && LegalBody(body) && At(raw, i, BodyText(body) + tail)
    ensures At(raw, i, body[0].Text())
    ensures var rest := body[1..];
            && LegalBody(rest) && BodyText(body) == body[0].Text() + BodyText(rest)
            && At(raw, i + |body[0].Text()|, BodyText(rest) + tail)
  {
    hide At, BodyText, LegalBody, Spelling.Text;
    BodyFirst(body);
    var p, rest := body[0].Text(), BodyText(body[1..]);
    assert p + rest + tail == p + (rest + tail);
    AtSplit(raw, i, p, rest + tail);
  }

  lemma BodyFirst(body: seq<Spelling>)
    requires body != [] && LegalBody(body)
    ensures LegalBody(body[1..]) && BodyText(body) == body[0].Text() + BodyText(body[1..])
  {
    hide Spelling.Text, Spelling.Legal;
  }

  /** The first scalar value of a body is decoded, and scanning goes on behind it. */
  lemma ScanFirst(raw: Bytes, i: nat, body: seq<Spelling>, tail: Bytes) returns (n: nat)
    requires body != [] && LegalBody(body) && !LoneAt(body, 0) && At(raw, i, BodyText(body) + tail)
    ensures Width(body) <= |body| && Scalars(body) != []
    ensures var rest := body[Width(body)..];
            && LegalBody(rest) && |BodyText(body)| == n + |BodyText(rest)| && At(raw, i + n, BodyText(rest) + tail)
            && Scalars(body)[1..] == Scalars(rest)
            && ScanString(raw, i) == ScanString(raw, i + n).Prepend(EncodeRune(Scalars(body)[0]))
  {
    hide EncodeRune, ScanString, At, BodyText, Spelling.Text, CombineSurrogates, LegalBody;
    assert body[0].Legal() by { LegalAt(body, 0); }
    BodyParts(raw, i, body, tail);
    if PairAt(body, 0) {
      assert body[1].Legal() by { LegalAt(body, 1); }
      BodyParts(raw, i + |body[0].Text()|, body[1..], tail);
      HexUnit(raw, i, body[0]);
      HexUnit(raw, i + 6, body[1]);
      ScanPair(raw, i, body[0], body[1]);
      assert body[1..][1..] == body[2..];
      n := 12;
    } else {
      ScanWhole(raw, i, body[0]);
      n := |body[0].Text()|;
    }
  }

  lemma LegalAt(body: seq<Spelling>, k: nat)
    requires LegalBody(body) && k < |body|
    ensures body[k].Legal()
  {
  }

  lemma EncodeFirst(scalars: seq<Scalar>)
    requires scalars != []
    ensures Encode(scalars) == EncodeRune(scalars[0]) + Encode(scalars[1..])
  {
  }

  /** Escape round trip: whatever spelling is chosen for each scalar value,
      scanning over the body of a string yields the UTF-8 of the original, and
      continues just past the body. */
  lemma {:induction false} ScanBody(raw: Bytes, i: nat, body: seq<Spelling>)
    requires LegalBody(body) && NoLone(body) && At(raw, i, BodyText(body))
    ensures ScanString(raw, i) == ScanString(raw, i + |BodyText(body)|).Prepend(Utf8(body))
    decreases |body|
  {
    hide EncodeRune, ScanString, At, NoLone, LegalBody, BodyText, Encode;
    if body == [] {
      EmptyBody();
    } else {
      assert !LoneAt(body, 0) by { LoneNowhere(body, 0); }
      assert BodyText(body) + [] == BodyText(body);
      var n := ScanFirst(raw, i, body, []);
      LoneBehind(body);
      var rest := body[Width(body)..];
      assert BodyText(rest) + [] == BodyText(rest);
      ScanBody(raw, i + n, rest);
      EncodeFirst(Scalars(body));
      PrependTwice(ScanString(raw, i + |BodyText(body)|), EncodeRune(Scalars(body)[0]), Utf8(rest));
    }
  }

  lemma EmptyBody()
    ensures BodyText([]) == [] && Utf8([]) == []
  {
  }

  lemma LoneNowhere(body: seq<Spelling>, k: nat)
    requires NoLone(body)
    ensures !LoneAt(body, k)
  {
  }

  // ---------- lone surrogates ----------

  /** At `i` the escape of a surrogate stands alone: a low one, or a high one that
      something else than the escape of a low one follows. */
  predicate LoneSurrogateAt(raw: Bytes, i: nat) {
    && i + 5 < |raw| && raw[i] == BACKSLASH && raw[i + 1] == LOWER_U
    && var unit := ParseHexRune(raw[i + 2..i + 6]);
       IsLowSurrogate(unit) || (IsHighSurrogate(unit) && NoLowFollows(raw, i + 6))
  }

  /** What is visible from `i` on is not, and cannot become, the escape of a low
      surrogate. */
  predicate NoLowFollows(raw: Bytes, i: nat) {
    || (i < |raw| && raw[i] != BACKSLASH)
    || (i + 1 < |raw| && raw[i + 1] != LOWER_U)
    || (i + 5 < |raw| && !IsLowSurrogate(ParseHexRune(raw[i + 2..i + 6])))
  }

  /** Where both halves of a pair would be in view, an escaped code unit cannot be
      decoded exactly if it is a lone surrogate. */
  lemma StuckIffLone(raw: Bytes, i: nat)
    requires i + 11 < |raw| && raw[i] == BACKSLASH && raw[i + 1] == LOWER_U
    requires ParseHexRune(raw[i + 2..i + 6]) >= 0
    ensures NextItem(raw, i).Stuck? <==> LoneSurrogateAt(raw, i)
  {
    hide ParseHexRune, EncodeRune;
    assert raw[i + 6 + 2..i + 6 + 6] == raw[i + 8..i + 12];
  }

  lemma LoneSurrogateSticks(raw: Bytes, i: nat)
    requires LoneSurrogateAt(raw, i)
    ensures NextItem(raw, i) == Stuck
    ensures ScanString(raw, i) == Scan([], i, false)
  {
    hide ParseHexRune, EncodeRune;
    if i + 11 < |raw| {
      assert raw[i + 6 + 2..i + 6 + 6] == raw[i + 8..i + 12];
    }
  }

  /** A lone surrogate of a body, as its bytes show it. */
  lemma LoneShows(raw: Bytes, i: nat, body: seq<Spelling>)
    requires body != [] && LegalBody(body) && LoneAt(body, 0) && At(raw, i, BodyText(body) + [QUOTE])
    ensures LoneSurrogateAt(raw, i)
  {
    hide BodyText, At, Spelling.Text, ParseHexRune, LegalBody;
    assert body[0].Legal() by { LegalAt(body, 0); }
    BodyParts(raw, i, body, [QUOTE]);
    HexUnit(raw, i, body[0]);
    if body[0].High() {
      if |body| == 1 {
        EmptyBody();
        assert body[1..] == [] && BodyText([]) + [QUOTE] == [QUOTE];
        AtByte(raw, i + 6, [QUOTE], 0);
        Bounded(raw, i + 6, [QUOTE]);
      } else {
        assert body[1].Legal() by { LegalAt(body, 1); }
        BodyParts(raw, i + 6, body[1..], [QUOTE]);
        NotLowShows(raw, i + 6, body[1]);
      }
    }
  }

  lemma NotLowShows(raw: Bytes, i: nat, p: Spelling)
    requires p.Legal() && !p.Low() && At(raw, i, p.Text())
    ensures NoLowFollows(raw, i)
  {
    match p
    case Raw(r) =>
      EncodedBytesArePlain(r);
      AtByte(raw, i, p.Text(), 0);
    case Short(_, letter) =>
      AtByte(raw, i, p.Text(), 1);
    case Hex(_, _) =>
      HexUnit(raw, i, p);
  }

  /** Scanning over a body with a lone surrogate stops there. */
  lemma {:induction false} ScanLoneBody(raw: Bytes, i: nat, body: seq<Spelling>)
    requires LegalBody(body) && !NoLone(body) && At(raw, i, BodyText(body) + [QUOTE])
    ensures !ScanString(raw, i).complete && ScanString(raw, i).text == Utf8(body)
    decreases |body|
  {
    hide EncodeRune, ScanString, At, NoLone, LegalBody, BodyText, Encode, LoneSurrogateAt;
    if body == [] {
      NoLoneInNothing();
      assert false;
    } else if LoneAt(body, 0) {
      LoneShows(raw, i, body);
      LoneSurrogateSticks(raw, i);
      EmptyBody();
    } else {
      var n := ScanFirst(raw, i, body, [QUOTE]);
      LoneBehind(body);
      ScanLoneBody(raw, i + n, body[Width(body)..]);
      EncodeFirst(Scalars(body));
    }
  }

  lemma NoLoneInNothing()
    ensures NoLone([])
  {
  }

  lemma StringParts(raw: Bytes, i: nat, body: seq<Spelling>)
    requires At(raw, i, StringText(body))
    ensures var e := i + 1 + |BodyText(body)|;
            && e < |raw| && raw[i] == QUOTE && At(raw, i + 1, BodyText(body)) && raw[e] == QUOTE
            && i + |StringText(body)| == e + 1
  {
    hide BodyText;
    var t := BodyText(body);
    AtByte(raw, i, StringText(body), 0);
    AtByte(raw, i, StringText(body), |t| + 1);
    AtSplit(raw, i, [QUOTE] + t, [QUOTE]);
    AtSplit(raw, i, [QUOTE], t);
  }

  /** A string literal is decoded as a whole and ends just past its closing quote
      if and only if it has no lone surrogate; otherwise it never ends, and is
      decoded up to there. */
  lemma {:induction false} ScanToken(raw: Bytes, i: nat, body: seq<Spelling>)
    requires LegalBody(body) && At(raw, i, StringText(body))
    ensures raw[i] == QUOTE
    ensures var s := ScanString(raw, i + 1);
            && s.text == Utf8(body) && (s.complete <==> NoLone(body))
            && (s.complete ==> s.end == i + |StringText(body)|)
  {
    hide BodyText, Utf8, LegalBody, NextItem, NoLone, At, ScanString;
    StringParts(raw, i, body);
    if NoLone(body) {
      ScanBody(raw, i + 1, body);
      ClosingQuote(raw, i + 1 + |BodyText(body)|);
      assert Utf8(body) + [] == Utf8(body);
    } else {
      assert StringText(body) == [QUOTE] + (BodyText(body) + [QUOTE]);
      AtSplit(raw, i, [QUOTE], BodyText(body) + [QUOTE]);
      ScanLoneBody(raw, i + 1, body);
    }
  }

  lemma ClosingQuote(raw: Bytes, e: nat)
    requires e < |raw| && raw[e] == QUOTE
    ensures ScanString(raw, e) == Scan([], e + 1, true)
  {
  }

  /** A string that is still open decodes to everything received of it. */
  lemma {:induction false} OpenStringDecodes(body: seq<Spelling>)
    requires LegalBody(body) && NoLone(body)
    ensures ScanString(BodyText(body), 0).text == Utf8(body)
  {
    hide BodyText, Utf8, LegalBody, NextItem, NoLone;
    var raw := BodyText(body);
    assert raw[0..|raw|] == raw;
    ScanBody(raw, 0, body);
    assert Utf8(body) + [] == Utf8(body);
  }

  // ---------- passing over values ----------

  lemma SkipExact(raw: Bytes, i: nat, ws: Bytes)
    requires At(raw, i, ws) && Blank(ws)
    requires i + |ws| < |raw| ==> !IsJSONWhitespace(raw[i + |ws|])
    ensures SkipFrom(raw, i) == i + |ws|
    decreases |ws|
  {
    if ws != [] {
      assert ws == [ws[0]] + ws[1..];
      AtSplit(raw, i, [ws[0]], ws[1..]);
      AtByte(raw, i, ws, 0);
      SkipExact(raw, i + 1, ws[1..]);
    }
  }

  predicate Plain(t: Bytes) {
    forall k :: 0 <= k < |t| ==> t[k] !in {QUOTE, LBRACKET, RBRACKET, LBRACE, RBRACE}
  }

  lemma {:induction false} PassPlain(raw: Bytes, allowed: set<Bytes>, i: nat, depth: nat, t: Bytes)
    requires At(raw, i, t) && Plain(t)
    ensures FindFrom(raw, allowed, i, depth) == FindFrom(raw, allowed, i + |t|, depth)
    decreases |t|
  {
    if t != [] {
      assert t == [t[0]] + t[1..];
      AtSplit(raw, i, [t[0]], t[1..]);
      AtByte(raw, i, t, 0);
      PassPlain(raw, allowed, i + 1, depth, t[1..]);
    }
  }

  /** The next byte after white space exists and is not a colon. */
  predicate NoColonNext(raw: Bytes, i: nat) {
    i <= |raw| && SkipFrom(raw, i) < |raw| && raw[SkipFrom(raw, i)] != COLON
  }

  /** An opening bracket, what it encloses, and the closing bracket. */
  lemma BracketParts(raw: Bytes, i: nat, open: Byte, lead: Bytes, inner: Bytes, close: Byte)
    requires At(raw, i, [open] + lead + inner + [close])
    ensures var e := i + 1 + |lead| + |inner|;
            && raw[i] == open && At(raw, i + 1, lead) && At(raw, i + 1 + |lead|, inner) && raw[e] == close
  {
    AtSplit(raw, i, [open] + lead + inner, [close]);
    AtSplit(raw, i, [open] + lead, inner);
    AtSplit(raw, i, [open], lead);
    AtByte(raw, i, [open], 0);
    AtByte(raw, i + |[open] + lead + inner|, [close], 0);
  }

  lemma PassBracket(raw: Bytes, allowed: set<Bytes>, i: nat, depth: nat)
    requires i < |raw|
    ensures raw[i] in {LBRACE, LBRACKET} ==>
              FindFrom(raw, allowed, i, depth) == FindFrom(raw, allowed, i + 1, depth + 1)
    ensures raw[i] in {RBRACE, RBRACKET} && depth > 0 ==>
              FindFrom(raw, allowed, i, depth) == FindFrom(raw, allowed, i + 1, depth - 1)
  {
  }

  /** A string token that is not a root-level key. */
  lemma PassString(raw: Bytes, allowed: set<Bytes>, i: nat, depth: nat, body: seq<Spelling>)
    requires LegalBody(body) && At(raw, i, StringText(body))
    requires depth == 1 ==> NoColonNext(raw, i + |StringText(body)|)
    ensures FindFrom(raw, allowed, i, depth) ==
            if NoLone(body) then FindFrom(raw, allowed, i + |StringText(body)|, depth) else NotFound
  {
    hide ScanString, Utf8, StringText, LegalBody, SkipFrom, NoLone;
    ScanToken(raw, i, body);
  }

  /** Any value, at any depth, leaves the search where it was: braces, colons and
      keys inside it are never mistaken for those of the root object.  A lone
      surrogate anywhere in it ends the search. */
  lemma {:induction false} PassValue(raw: Bytes, allowed: set<Bytes>, i: nat, depth: nat, v: Value)
    requires depth >= 1 && WellFormed(v) && At(raw, i, ValueText(v))
    requires depth == 1 ==> NoColonNext(raw, i + |ValueText(v)|)
    ensures FindFrom(raw, allowed, i, depth) ==
            if Sound(v) then FindFrom(raw, allowed, i + |ValueText(v)|, depth) else NotFound
    decreases v
  {
    hide FindFrom, StringText, ItemsText, MembersText, NoColonNext, LegalBody, At, NoLone, SoundItems, SoundMembers;
    match v
    case Literal(text) =>
      PassPlain(raw, allowed, i, depth, text);
    case String(body) =>
      PassString(raw, allowed, i, depth, body);
    case Array(lead, items) =>
      BracketParts(raw, i, LBRACKET, lead, ItemsText(items), RBRACKET);
      PassItems(raw, allowed, i + 1 + |lead|, depth + 1, items);
      PassEnclosed(raw, allowed, i, depth, LBRACKET, lead, ItemsText(items), RBRACKET, SoundItems(items));
    case Object(lead, members) =>
      BracketParts(raw, i, LBRACE, lead, MembersText(members), RBRACE);
      PassMembers(raw, allowed, i + 1 + |lead|, depth + 1, members);
      PassEnclosed(raw, allowed, i, depth, LBRACE, lead, MembersText(members), RBRACE, SoundMembers(members));
  }

  /** Passing over what brackets enclose is passing over the brackets too. */
  lemma PassEnclosed(
    raw: Bytes, allowed: set<Bytes>, i: nat, depth: nat,
    open: Byte, lead: Bytes, inner: Bytes, close: Byte, passes: bool)
    requires open in {LBRACE, LBRACKET} && close in {RBRACE, RBRACKET} && Blank(lead)
    requires At(raw, i, [open] + lead + inner + [close])
    requires var k := i + 1 + |lead|;
             FindFrom(raw, allowed, k, depth + 1) ==
             if passes then FindFrom(raw, allowed, k + |inner|, depth + 1) else NotFound
    ensures FindFrom(raw, allowed, i, depth) ==
            if passes then FindFrom(raw, allowed, i + |lead| + |inner| + 2, depth) else NotFound
  {
    hide FindFrom;
    BracketParts(raw, i, open, lead, inner, close);
    PassBracket(raw, allowed, i, depth);
    PassPlain(raw, allowed, i + 1, depth + 1, lead);
    PassBracket(raw, allowed, i + 1 + |lead| + |inner|, depth + 1);
  }

  lemma ItemParts(raw: Bytes, i: nat, pre: Bytes, text: Bytes, post: Bytes, comma: Bytes, rest: Bytes)
    requires At(raw, i, pre + text + post + comma + rest)
    ensures var k := i + |pre| + |text|;
            && At(raw, i, pre) && At(raw, i + |pre|, text) && At(raw, k, post) && At(raw, k + |post|, comma)
            && At(raw, k + |post| + |comma|, rest)
  {
    hide At;
    AtSplit(raw, i, pre + text + post + comma, rest);
    AtSplit(raw, i, pre + text + post, comma);
    AtSplit(raw, i, pre + text, post);
    AtSplit(raw, i, pre, text);
  }

  lemma {:induction false} PassItems(raw: Bytes, allowed: set<Bytes>, i: nat, depth: nat, items: Items)
    requires depth >= 2 && WellFormedItems(items) && At(raw, i, ItemsText(items))
    ensures FindFrom(raw, allowed, i, depth) ==
            if SoundItems(items) then FindFrom(raw, allowed, i + |ItemsText(items)|, depth) else NotFound
    decreases items
  {
    hide FindFrom, ValueText, WellFormed, At, Sound;
    match items
    case NoItems =>
    case Item(pre, value, post, rest) =>
      var comma: Bytes := if rest.NoItems? then [] else [COMMA];
      ItemParts(raw, i, pre, ValueText(value), post, comma, ItemsText(rest));
      PassPlain(raw, allowed, i, depth, pre);
      PassValue(raw, allowed, i + |pre|, depth, value);
      var k := i + |pre| + |ValueText(value)|;
      PassPlain(raw, allowed, k, depth, post);
      PassPlain(raw, allowed, k + |post|, depth, comma);
      PassItems(raw, allowed, k + |post| + |comma|, depth, rest);
  }

  /** The parts of a member, each where it stands. */
  lemma MemberParts(raw: Bytes, i: nat, m: Members)
    requires m.Member? && At(raw, i, MembersText(m))
    ensures var comma: Bytes := if m.rest.NoMembers? then [] else [COMMA];
            var s := i + |m.pre|;
            var e := s + |StringText(m.key)|;
            var v := e + |m.mid| + 1 + |m.gap|;
            var p := v + |ValueText(m.value)|;
            && v == i + |KeyText(m)|
            && At(raw, i, m.pre) && At(raw, s, StringText(m.key)) && At(raw, e, m.mid)
            && At(raw, e + |m.mid|, [COLON]) && At(raw, e + |m.mid| + 1, m.gap)
            && At(raw, v, ValueText(m.value)) && At(raw, p, m.post) && At(raw, p + |m.post|, comma)
            && At(raw, p + |m.post| + |comma|, MembersText(m.rest))
            && |MembersText(m)| == p + |m.post| + |comma| + |MembersText(m.rest)| - i
  {
    hide At, ValueText, StringText, KeyText;
    var comma: Bytes := if m.rest.NoMembers? then [] else [COMMA];
    var key, value := KeyText(m), ValueText(m.value);
    ItemParts(raw, i, key, value, m.post, comma, MembersText(m.rest));
    KeyParts(raw, i, m);
  }

  lemma KeyParts(raw: Bytes, i: nat, m: Members)
    requires m.Member? && At(raw, i, KeyText(m))
    ensures var s := i + |m.pre|;
            var e := s + |StringText(m.key)|;
            && e + |m.mid| + 1 + |m.gap| == i + |KeyText(m)|
            && At(raw, i, m.pre) && At(raw, s, StringText(m.key)) && At(raw, e, m.mid)
            && At(raw, e + |m.mid|, [COLON]) && At(raw, e + |m.mid| + 1, m.gap)
  {
    hide At, StringText;
    ItemParts(raw, i, m.pre, StringText(m.key), m.mid, [COLON], m.gap);
  }

  lemma ValueThenSeparator(raw: Bytes, p: nat, post: Bytes)
    requires At(raw, p, post) && Blank(post)
    requires p + |post| < |raw| && raw[p + |post|] in {COMMA, RBRACE}
    ensures NoColonNext(raw, p)
  {
    SkipExact(raw, p, post);
  }

  /** From the end of a key to the start of the next member.  At depth 1 a string
      value is not taken for a key because no colon follows it. */
  lemma {:induction false} PassAfterKey(raw: Bytes, allowed: set<Bytes>, e: nat, depth: nat, m: Members)
    requires depth >= 1 && m.Member? && WellFormedMembers(m)
    requires var v := e + |m.mid| + 1 + |m.gap|;
             var p := v + |ValueText(m.value)|;
             var comma: Bytes := if m.rest.NoMembers? then [] else [COMMA];
             && At(raw, e, m.mid) && At(raw, e + |m.mid|, [COLON]) && At(raw, e + |m.mid| + 1, m.gap)
             && At(raw, v, ValueText(m.value)) && At(raw, p, m.post) && At(raw, p + |m.post|, comma)
             && (depth == 1 ==> p + |m.post| < |raw| && raw[p + |m.post|] in {COMMA, RBRACE})
    ensures var comma := if m.rest.NoMembers? then 0 else 1;
            FindFrom(raw, allowed, e, depth) ==
            if Sound(m.value)
            then FindFrom(raw, allowed, e + |m.mid| + 1 + |m.gap| + |ValueText(m.value)| + |m.post| + comma, depth)
            else NotFound
    decreases m, 0
  {
    hide FindFrom, ValueText, WellFormed, LegalBody, At, NoColonNext, Sound;
    var comma: Bytes := if m.rest.NoMembers? then [] else [COMMA];
    var v := e + |m.mid| + 1 + |m.gap|;
    var p := v + |ValueText(m.value)|;
    PassPlain(raw, allowed, e, depth, m.mid);
    PassPlain(raw, allowed, e + |m.mid|, depth, [COLON]);
    PassPlain(raw, allowed, e + |m.mid| + 1, depth, m.gap);
    if depth == 1 {
      ValueThenSeparator(raw, p, m.post);
    }
    PassValue(raw, allowed, v, depth, m.value);
    PassPlain(raw, allowed, p, depth, m.post);
    PassPlain(raw, allowed, p + |m.post|, depth, comma);
  }

  lemma {:induction false} PassMembers(raw: Bytes, allowed: set<Bytes>, i: nat, depth: nat, members: Members)
    requires depth >= 2 && WellFormedMembers(members) && At(raw, i, MembersText(members))
    ensures FindFrom(raw, allowed, i, depth) ==
            if SoundMembers(members) then FindFrom(raw, allowed, i + |MembersText(members)|, depth) else NotFound
    decreases members, 1
  {
    hide FindFrom, KeyText, StringText, ValueText, WellFormed, LegalBody, At, Sound, NoLone;
    match members
    case NoMembers =>
    case Member(pre, key, mid, gap, value, post, rest) =>
      hide MembersText;
      MemberParts(raw, i, members);
      var comma: Bytes := if rest.NoMembers? then [] else [COMMA];
      var s := i + |pre|;
      var e := s + |StringText(key)|;
      var v := e + |mid| + 1 + |gap|;
      var p := v + |ValueText(value)|;
      PassPlain(raw, allowed, i, depth, pre);
      PassString(raw, allowed, s, depth, key);
      PassAfterKey(raw, allowed, e, depth, members);
      PassMembers(raw, allowed, p + |post| + |comma|, depth, rest);
  }

  // ---------- the root object ----------

  lemma FirstByte(v: Value)
    requires WellFormed(v)
    ensures ValueText(v) != [] && !IsJSONWhitespace(ValueText(v)[0])
    ensures ValueText(v)[0] == QUOTE <==> v.String?
  {
    hide ItemsText, MembersText, BodyText;
  }

  lemma ClassifyKey(raw: Bytes, allowed: set<Bytes>, key: Bytes, e: nat, mid: Bytes, gap: Bytes, value: Value)
    requires At(raw, e, mid) && At(raw, e + |mid|, [COLON]) && At(raw, e + |mid| + 1, gap)
    requires At(raw, e + |mid| + 1 + |gap|, ValueText(value))
    requires Blank(mid) && Blank(gap) && WellFormed(value)
    ensures Classify(raw, key, e, allowed) ==
            if value.String? && key in allowed then Match(e + |mid| + 1 + |gap| + 1) else Pass
  {
    hide SkipFrom, ValueText, WellFormed;
    AtByte(raw, e + |mid|, [COLON], 0);
    SkipExact(raw, e, mid);
    FirstByte(value);
    AtByte(raw, e + |mid| + 1 + |gap|, ValueText(value), 0);
    SkipExact(raw, e + |mid| + 1, gap);
  }

  /** At depth 1 a key either is the hit or is passed over. */
  lemma RootKey(raw: Bytes, allowed: set<Bytes>, s: nat, m: Members)
    requires m.Member? && WellFormedMembers(m)
    requires At(raw, s, StringText(m.key))
    requires var e := s + |StringText(m.key)|;
             && At(raw, e, m.mid) && At(raw, e + |m.mid|, [COLON]) && At(raw, e + |m.mid| + 1, m.gap)
             && At(raw, e + |m.mid| + 1 + |m.gap|, ValueText(m.value))
    ensures var e := s + |StringText(m.key)|;
            FindFrom(raw, allowed, s, 1) ==
            if !NoLone(m.key) then NotFound
            else if Wanted(m, allowed) then Found(Utf8(m.key), e + |m.mid| + 1 + |m.gap| + 1)
            else FindFrom(raw, allowed, e, 1)
  {
    hide ScanString, StringText, ValueText, Classify, LegalBody, WellFormed, Utf8, NoLone;
    ScanToken(raw, s, m.key);
    ClassifyKey(raw, allowed, Utf8(m.key), s + |StringText(m.key)|, m.mid, m.gap, m.value);
  }

  /** The search over the members of the root object, from the first one on. */
  lemma {:induction false} RootMembers(raw: Bytes, allowed: set<Bytes>, i: nat, members: Members)
    requires WellFormedMembers(members) && At(raw, i, MembersText(members))
    requires i + |MembersText(members)| < |raw| && raw[i + |MembersText(members)|] == RBRACE
    ensures match FirstStringMember(members, allowed, i)
            case Chosen(key, body, start) =>
              FindFrom(raw, allowed, i, 1) == (if Unobstructed(members, allowed) then Found(key, start) else NotFound)
              && LegalBody(body) && At(raw, start, BodyText(body) + [QUOTE])
            case NoChoice =>
              FindFrom(raw, allowed, i, 1) ==
              if Unobstructed(members, allowed) then FindFrom(raw, allowed, i + |MembersText(members)|, 1) else NotFound
    decreases members
  {
    hide NoLone, Sound, FindFrom, KeyText, StringText, ValueText, LegalBody, At, NoColonNext, Utf8, BodyText;
    match members
    case NoMembers =>
    case Member(pre, key, mid, gap, value, post, rest) =>
      MemberParts(raw, i, members);
      var comma: Bytes := if rest.NoMembers? then [] else [COMMA];
      var s := i + |pre|;
      var e := s + |StringText(key)|;
      var v := e + |mid| + 1 + |gap|;
      var p := v + |ValueText(value)|;
      PassPlain(raw, allowed, i, 1, pre);
      RootKey(raw, allowed, s, members);
      if Wanted(members, allowed) {
        ChosenBody(raw, v, value);
      } else {
        SeparatorFollows(raw, p + |post|, rest);
        PassAfterKey(raw, allowed, e, 1, members);
        RootMembers(raw, allowed, p + |post| + |comma|, rest);
      }
  }

  lemma SeparatorFollows(raw: Bytes, q: nat, rest: Members)
    requires var comma: Bytes := if rest.NoMembers? then [] else [COMMA];
             && At(raw, q, comma) && q + |comma| + |MembersText(rest)| < |raw|
             && raw[q + |comma| + |MembersText(rest)|] == RBRACE
    ensures raw[q] in {COMMA, RBRACE}
  {
    if rest.Member? {
      AtByte(raw, q, [COMMA], 0);
    }
  }

  lemma ChosenBody(raw: Bytes, v: nat, value: Value)
    requires WellFormed(value) && value.String? && At(raw, v, ValueText(value))
    ensures LegalBody(value.body) && At(raw, v + 1, BodyText(value.body) + [QUOTE])
  {
    hide BodyText;
    var rest := BodyText(value.body) + [QUOTE];
    assert ValueText(value) == [QUOTE] + rest;
    AtSplit(raw, v, [QUOTE], rest);
  }

  /** A JSON object with white space around it. */
  function Document(before: Bytes, lead: Bytes, members: Members, after: Bytes): Bytes {
    before + ValueText(Object(lead, members)) + after
  }

  /** Scanner correctness: on every well-formed JSON object the search returns the
      first root-level member whose key is allowed and whose value is a string, at
      the start of that string's content, if and only if no lone surrogate stands
      in front of it; otherwise, and if there is no such member, it returns
      nothing.  What is extracted is that string decoded. */
  lemma {:induction false} SearchFindsFirstStringMember(
    before: Bytes, lead: Bytes, members: Members, after: Bytes, allowed: set<Bytes>)
    requires Blank(before) && WellFormed(Object(lead, members)) && Blank(after)
    ensures var raw := Document(before, lead, members, after);
            match FirstStringMember(members, allowed, |before| + 1 + |lead|)
            case Chosen(key, body, start) =>
              if Unobstructed(members, allowed)
              then FindFrom(raw, allowed, 0, 0) == Found(key, start) && Extract(raw, allowed) == Field(key, Utf8(body))
              else FindFrom(raw, allowed, 0, 0) == NotFound && Extract(raw, allowed) == NoField
            case NoChoice => FindFrom(raw, allowed, 0, 0) == NotFound && Extract(raw, allowed) == NoField
  {
    hide FindFrom, At, LegalBody, Utf8, BodyText, MembersText, ScanString, FirstStringMember, Unobstructed;
    var raw := Document(before, lead, members, after);
    var text := ValueText(Object(lead, members));
    WholeText(raw, before, text, after);
    BracketParts(raw, |before|, LBRACE, lead, MembersText(members), RBRACE);
    PassPlain(raw, allowed, 0, 0, before);
    PassBracket(raw, allowed, |before|, 0);
    var i := |before| + 1;
    PassPlain(raw, allowed, i, 1, lead);
    RootMembers(raw, allowed, i + |lead|, members);
    match FirstStringMember(members, allowed, i + |lead|)
    case Chosen(key, body, start) =>
      ExtractedBody(raw, start, body);
    case NoChoice =>
      PassBracket(raw, allowed, i + |lead| + |MembersText(members)|, 1);
      PassPlain(raw, allowed, |before| + |text|, 0, after);
      NothingLeft(raw, allowed);
  }

  lemma WholeText(raw: Bytes, before: Bytes, text: Bytes, after: Bytes)
    requires raw == before + text + after
    ensures At(raw, 0, before) && At(raw, |before|, text) && At(raw, |before| + |text|, after)
  {
    assert raw[0..|raw|] == raw;
    AtSplit(raw, 0, before + text, after);
    AtSplit(raw, 0, before, text);
  }

  lemma NothingLeft(raw: Bytes, allowed: set<Bytes>)
    ensures FindFrom(raw, allowed, |raw|, 0) == NotFound
  {
  }

  lemma ExtractedBody(raw: Bytes, start: nat, body: seq<Spelling>)
    requires LegalBody(body) && At(raw, start, BodyText(body) + [QUOTE])
    ensures ScanString(raw[start..], 0).text == Utf8(body)
  {
    hide NextItem, BodyText, LegalBody, Utf8, NoLone, At, ScanString;
    assert At(raw, start, BodyText(body) + [QUOTE]);
    Bounded(raw, start, BodyText(body) + [QUOTE]);
    ScanShift(raw, start, 0);
    if NoLone(body) {
      AtSplit(raw, start, BodyText(body), [QUOTE]);
      AtByte(raw, start + |BodyText(body)|, [QUOTE], 0);
      ScanBody(raw, start, body);
      ClosingQuote(raw, start + |BodyText(body)|);
      assert Utf8(body) + [] == Utf8(body);
    } else {
      ScanLoneBody(raw, start, body);
    }
  }
}
