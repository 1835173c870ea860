/** What the decoder delivers is UTF-8: read back by its definition, the text of a
    string is the sequence of the scalar values that were written. */
module ToolArgText {
  import opened Unicode
  import opened GoStrings
  import opened ToolArgScanner
  import opened ToolArgDecoder
  import opened ToolArgGrammar
  import opened ToolArgGuarantees
  import opened JsonText
  import Utf8Text

  /** Whatever follows it, the encoding of a character is read as that character. */
  lemma EncodedRuneIsRead(r: Scalar, rest: Bytes)
    ensures Utf8Text.ReadCharacter(EncodeRune(r) + rest) == Utf8Text.Character(r, rest)
  {
    var t := EncodeRune(r) + rest;
    assert t[|EncodeRune(r)|..] == rest;
    if r < 0x80 {
      assert t[0] == r;
    } else if r < 0x800 {
      assert t[0] == EncodeRune(r)[0] && t[1] == EncodeRune(r)[1];
    } else if r < 0x10000 {
      assert t[0] == EncodeRune(r)[0] && t[1] == EncodeRune(r)[1] && t[2] == EncodeRune(r)[2];
      ThreeBytes(r);
    } else {
      assert t[0] == EncodeRune(r)[0] && t[1] == EncodeRune(r)[1];
      assert t[2] == EncodeRune(r)[2] && t[3] == EncodeRune(r)[3];
      FourBytes(r);
    }
  }

  lemma ThreeBytes(r: int)
    requires 0x800 <= r < 0x10000
    ensures r / 0x1000 * 0x1000 + r / 0x40 % 0x40 * 0x40 + r % 0x40 == r && r / 0x1000 < 0x10
  {
    assert r / 0x40 / 0x40 == r / 0x1000;
  }

  lemma FourBytes(r: int)
    requires 0x10000 <= r < 0x110000
    ensures r / 0x40000 * 0x40000 + r / 0x1000 % 0x40 * 0x1000 + r / 0x40 % 0x40 * 0x40 + r % 0x40 == r
    ensures r / 0x40000 <= 4
  {
    assert r / 0x40 / 0x40 == r / 0x1000 && r / 0x1000 / 0x40 == r / 0x40000;
  }

  /** Decoded text is valid UTF-8, and reads as the scalar values encoded in it. */
  lemma {:induction false} EncodedTextIsRead(scalars: seq<Scalar>)
    ensures Utf8Text.ReadText(Encode(scalars)) == Utf8Text.Characters(scalars)
    decreases |scalars|
  {
    hide EncodeRune, Utf8Text.ReadCharacter;
    if scalars != [] {
      var r, rest := scalars[0], Encode(scalars[1..]);
      EncodedRuneIsRead(r, rest);
      EncodedTextIsRead(scalars[1..]);
      assert [r] + scalars[1..] == scalars;
    }
  }

  /** Two texts that read alike are the same bytes. */
  lemma {:induction false} ReadingIsInjective(s: Bytes, t: Bytes)
    requires Utf8Text.ReadText(s).Characters? && Utf8Text.ReadText(s) == Utf8Text.ReadText(t)
    ensures s == t
    decreases |s|
  {
    hide Utf8Text.ReadCharacter;
    if s == [] {
      assert t == [];
    } else {
      assert t != [];
      var c, d := Utf8Text.ReadCharacter(s), Utf8Text.ReadCharacter(t);
      assert Utf8Text.ReadText(s).scalars[0] == c.r && Utf8Text.ReadText(t).scalars[0] == d.r;
      assert Utf8Text.ReadText(s).scalars[1..] == Utf8Text.ReadText(c.rest).scalars;
      assert Utf8Text.ReadText(t).scalars[1..] == Utf8Text.ReadText(d.rest).scalars;
      ReadingIsInjective(c.rest, d.rest);
      CharacterIsEncoded(s);
      CharacterIsEncoded(t);
    }
  }

  lemma Digits(a: int, b: int, c: int, d: int)
    requires 0 <= a && 0 <= b < 0x40 && 0 <= c < 0x40 && 0 <= d < 0x40
    ensures var v := a * 0x40000 + b * 0x1000 + c * 0x40 + d;
            && v / 0x40000 == a && v / 0x1000 == a * 0x40 + b && v / 0x40 == a * 0x1000 + b * 0x40 + c
            && v / 0x1000 % 0x40 == b && v / 0x40 % 0x40 == c && v % 0x40 == d
  {
    var v := a * 0x40000 + b * 0x1000 + c * 0x40 + d;
    assert v / 0x40 == a * 0x1000 + b * 0x40 + c;
    assert v / 0x1000 == a * 0x40 + b;
  }

  lemma TwoBytesEncode(a: Byte, b: Byte)
    requires 0xC2 <= a <= 0xDF && 0x80 <= b <= 0xBF
    ensures EncodeRune((a as int - 0xC0) * 0x40 + (b as int - 0x80)) == [a, b]
  {
    Digits(0, 0, a as int - 0xC0, b as int - 0x80);
  }

  lemma ThreeBytesEncode(a: Byte, b: Byte, c: Byte, v: Scalar)
    requires 0xE0 <= a <= 0xEF && 0x80 <= b <= 0xBF && 0x80 <= c <= 0xBF && v >= 0x800
    requires v == (a as int - 0xE0) * 0x1000 + (b as int - 0x80) * 0x40 + (c as int - 0x80)
    ensures EncodeRune(v) == [a, b, c]
  {
    Digits(0, a as int - 0xE0, b as int - 0x80, c as int - 0x80);
  }

  lemma FourBytesEncode(a: Byte, b: Byte, c: Byte, d: Byte, v: Scalar)
    requires 0xF0 <= a <= 0xF4 && 0x80 <= b <= 0xBF && 0x80 <= c <= 0xBF && 0x80 <= d <= 0xBF && v >= 0x10000
    requires v ==
             (a as int - 0xF0) * 0x40000 + (b as int - 0x80) * 0x1000 + (c as int - 0x80) * 0x40 + (d as int - 0x80)
    ensures EncodeRune(v) == [a, b, c, d]
  {
    Digits(a as int - 0xF0, b as int - 0x80, c as int - 0x80, d as int - 0x80);
  }

  /** There is only one way to encode a character. */
  lemma CharacterIsEncoded(t: Bytes)
    requires Utf8Text.ReadCharacter(t).Character?
    ensures var c := Utf8Text.ReadCharacter(t); t == EncodeRune(c.r) + c.rest
  {
    var c := Utf8Text.ReadCharacter(t);
    if t[0] <= 0x7F {
      assert EncodeRune(c.r) == [t[0]];
    } else {
      hide EncodeRune;
      if t[0] <= 0xDF {
        TwoBytesEncode(t[0], t[1]);
      } else if t[0] <= 0xEF {
        ThreeBytesEncode(t[0], t[1], t[2], c.r);
      } else {
        FourBytesEncode(t[0], t[1], t[2], t[3], c.r);
      }
    }
  }

  /** Escape round trip, down to the bytes: whatever spelling is chosen for each
      scalar value of a text, what is decoded is UTF-8 and reads as that text. */
  lemma {:induction false} LiteralReadsAsItsText(
    raw: Bytes, i: nat, choices: seq<seq<Spelling>>, scalars: seq<Scalar>)
    requires SpellAll(choices, scalars) && At(raw, i, StringText(Flat(choices)))
    ensures var s := ScanString(raw, i + 1);
            && s.complete && s.end == i + |StringText(Flat(choices))|
            && Utf8Text.ReadText(s.text) == Utf8Text.Characters(scalars)
  {
    hide SpellAll, Flat, Encode, ScanString, At, StringText, Utf8Text.ReadText;
    EscapeRoundTrip(raw, i, choices, scalars);
    EncodedTextIsRead(scalars);
  }

  /** The text that the decoder ends with on a well-formed object, however it is
      cut into fragments, is UTF-8 and reads as the scalar values of the wanted
      member's value. */
  lemma {:induction false} DecodedTextReadsAsTheValue(
    keys: seq<Bytes>, fragments: seq<Bytes>, before: Bytes, lead: Bytes, members: Members, after: Bytes)
    requires [] !in keys && Concat(fragments) == Document(before, lead, members, after)
    requires Blank(before) && WellFormed(Object(lead, members)) && Blank(after)
    requires var allowed := set k | k in keys;
             Unobstructed(members, allowed) && FirstStringMember(members, allowed, |before| + 1 + |lead|).Chosen?
    ensures var choice := FirstStringMember(members, set k | k in keys, |before| + 1 + |lead|);
            var final := Final(keys, START, fragments);
            && Utf8Text.ReadText(final.lastFull) == Utf8Text.Characters(Scalars(choice.body))
            && Deltas(Updates(keys, START, fragments)) == final.lastFull
  {
    hide FirstStringMember, Encode, Scalars, Document, Final, Deltas, Updates, WellFormed, Unobstructed;
    hide Utf8Text.ReadText;
    DecoderDecodesObject(keys, fragments, before, lead, members, after);
    EncodedTextIsRead(Scalars(FirstStringMember(members, set k | k in keys, |before| + 1 + |lead|).body));
  }
}
