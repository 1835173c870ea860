/** The byte scanners of the incremental tool-argument decoder: one step of a
    JSON string (section 7 of RFC 8259), a whole string, and the search for the
    first allowed root-level string field.  Each loop of the source is a method
    proved against a recursive definition. */
module ToolArgScanner {
  import opened GoStrings
  import opened Unicode

  const SLASH: Byte := 47
  const LOWER_U: Byte := 117

  // ---------- runes ----------

  /** UTF-8, as `strings.Builder.WriteRune` appends it. */
  function EncodeRune(r: Scalar): (text: Bytes)
    ensures 1 <= |text| <= 4
  {
    if r < 0x80 then [r]
    else if r < 0x800 then [0xC0 + r / 0x40, 0x80 + r % 0x40]
    else if r < 0x10000 then [0xE0 + r / 0x1000, 0x80 + r / 0x40 % 0x40, 0x80 + r % 0x40]
    else [0xF0 + r / 0x40000, 0x80 + r / 0x1000 % 0x40, 0x80 + r / 0x40 % 0x40, 0x80 + r % 0x40]
  }

  /** The value of a hexadecimal digit, or -1. */
  function HexValue(b: Byte): (v: int)
    ensures -1 <= v < 16
  {
    if 48 <= b <= 57 then b - 48
    else if 65 <= b <= 70 then b - 55
    else if 97 <= b <= 102 then b - 87
    else -1
  }

  /** `parseHexRune`: the value of exactly four hexadecimal digits, or -1. */
  function ParseHexRune(s: Bytes): (v: int)
    ensures -1 <= v < 0x10000
  {
    if |s| != 4 || (exists k :: 0 <= k < 4 && HexValue(s[k]) < 0) then -1
    else ((HexValue(s[0]) * 16 + HexValue(s[1])) * 16 + HexValue(s[2])) * 16 + HexValue(s[3])
  }

  /** Exactly four hexadecimal digits give a value, and they are its digits. */
  lemma {:induction false} HexRuneMeaning(s: Bytes)
    ensures var v := ParseHexRune(s);
            && (v >= 0 <==> |s| == 4 && forall k :: 0 <= k < 4 ==> HexValue(s[k]) >= 0)
            && (v >= 0 ==> (
                  && HexValue(s[0]) == v / 0x1000 && HexValue(s[1]) == v / 0x100 % 0x10
                  && HexValue(s[2]) == v / 0x10 % 0x10 && HexValue(s[3]) == v % 0x10))
  {
    if |s| == 4 && forall k :: 0 <= k < 4 ==> HexValue(s[k]) >= 0 {
      assert HexValue(s[0]) >= 0 && HexValue(s[1]) >= 0 && HexValue(s[2]) >= 0 && HexValue(s[3]) >= 0;
      FourDigitsOf(HexValue(s[0]), HexValue(s[1]), HexValue(s[2]), HexValue(s[3]));
    }
    hide HexValue;
  }

  lemma FourDigitsOf(a: int, b: int, c: int, d: int)
    requires 0 <= a < 16 && 0 <= b < 16 && 0 <= c < 16 && 0 <= d < 16
    ensures var v := ((a * 16 + b) * 16 + c) * 16 + d;
            && 0 <= v && a == v / 0x1000 && b == v / 0x100 % 0x10 && c == v / 0x10 % 0x10 && d == v % 0x10
  {
    var v := ((a * 16 + b) * 16 + c) * 16 + d;
    assert v / 0x10 == (a * 16 + b) * 16 + c;
    assert v / 0x100 == a * 16 + b;
  }

  datatype Escape = Rune(r: Scalar, width: nat) | NoRune

  /** `decodeUnicodeEscape`: `\uXXXX`, or a complete surrogate pair; a lone or
      incomplete surrogate yields nothing. */
  function DecodeUnicodeEscape(raw: Bytes, slash: nat): (e: Escape)
    ensures e.Rune? ==> e.width in {6, 12} && slash + e.width <= |raw|
  {
    if slash + 5 >= |raw| || raw[slash] != BACKSLASH || raw[slash + 1] != LOWER_U then NoRune
    else
      var r1 := ParseHexRune(raw[slash + 2..slash + 6]);
      if r1 < 0 then NoRune
      else if IsHighSurrogate(r1) then
        if slash + 11 >= |raw| || raw[slash + 6] != BACKSLASH || raw[slash + 7] != LOWER_U then NoRune
        else
          var r2 := ParseHexRune(raw[slash + 8..slash + 12]);
          if r2 < 0 || !IsLowSurrogate(r2) then NoRune else Rune(CombineSurrogates(r1, r2), 12)
      else if IsLowSurrogate(r1) then NoRune
      else Rune(r1, 6)
  }

  /** The code unit whose escape stands at `i`, or -1. */
  function UnitAt(raw: Bytes, i: nat): int {
    if i + 5 < |raw| && raw[i] == BACKSLASH && raw[i + 1] == LOWER_U then ParseHexRune(raw[i + 2..i + 6]) else -1
  }

  /** An escape is decoded to the scalar value whose UTF-16 code units (one, or a
      surrogate pair) are escaped there, and exactly if there is one. */
  lemma {:induction false} EscapeMeaning(raw: Bytes, slash: nat, r: Scalar, width: nat)
    ensures DecodeUnicodeEscape(raw, slash) == Rune(r, width) <==>
              || (r < 0x10000 && width == 6 && UnitAt(raw, slash) == r)
              || (r >= 0x10000 && width == 12
                  && UnitAt(raw, slash) == 0xD800 + (r - 0x10000) / 0x400
                  && UnitAt(raw, slash + 6) == 0xDC00 + (r - 0x10000) % 0x400)
    ensures DecodeUnicodeEscape(raw, slash).NoRune? <==>
              var unit, next := UnitAt(raw, slash), UnitAt(raw, slash + 6);
              unit < 0 || IsLowSurrogate(unit) || (IsHighSurrogate(unit) && !IsLowSurrogate(next))
  {
    hide ParseHexRune;
    if slash + 11 < |raw| {
      assert raw[slash + 6 + 2..slash + 6 + 6] == raw[slash + 8..slash + 12];
    }
  }

  // ---------- one string ----------

  /** What the byte at the read position of an open string amounts to: the
      closing quote, some decoded text, or nothing that can be decoded (yet). */
  datatype Item = Close | Piece(text: Bytes, width: nat) | Stuck

  /** The byte a two-character escape stands for, or -1. */
  function ShortEscape(b: Byte): (v: int)
    ensures -1 <= v < 256
  {
    if b == QUOTE || b == BACKSLASH || b == SLASH then b
    else if b == 98 then 8
    else if b == 102 then 12
    else if b == 110 then 10
    else if b == 114 then 13
    else if b == 116 then 9
    else -1
  }

  function NextItem(raw: Bytes, i: nat): (it: Item)
    requires i < |raw|
    ensures it.Piece? ==> 0 < it.width && i + it.width <= |raw| && it.text != []
  {
    if raw[i] == QUOTE then Close
    else if raw[i] != BACKSLASH then Piece([raw[i]], 1)
    else if i + 1 >= |raw| then Stuck
    else if ShortEscape(raw[i + 1]) >= 0 then Piece([ShortEscape(raw[i + 1])], 2)
    else if raw[i + 1] == LOWER_U then
      match DecodeUnicodeEscape(raw, i)
      case Rune(r, width) => Piece(EncodeRune(r), width)
      case NoRune => Stuck
    else Stuck
  }

  datatype Scan = Scan(text: Bytes, end: nat, complete: bool) {
    function Prepend(before: Bytes): Scan {
      this.(text := before + text)
    }
  }

  /** The decoded text of the string whose content starts at `i`, as far as it
      can be decoded, and where decoding stopped. */
  function ScanString(raw: Bytes, i: nat): (s: Scan)
    ensures s.complete ==> i < s.end <= |raw|
    decreases |raw| - i
  {
    if i >= |raw| then Scan([], |raw|, false)
    else
      match NextItem(raw, i)
      case Close => Scan([], i + 1, true)
      case Stuck => Scan([], i, false)
      case Piece(text, width) => ScanString(raw, i + width).Prepend(text)
  }

  lemma PrependTwice(s: Scan, a: Bytes, b: Bytes)
    ensures s.Prepend(b).Prepend(a) == s.Prepend(a + b)
  {
    assert a + (b + s.text) == (a + b) + s.text;
  }

  /** One turn of a scanning loop that has decoded `out` so far. */
  lemma ScanOneMore(raw: Bytes, i: nat, out: Bytes, piece: Bytes, width: nat)
    requires i < |raw| && NextItem(raw, i) == Piece(piece, width)
    ensures ScanString(raw, i).Prepend(out) == ScanString(raw, i + width).Prepend(out + piece)
  {
    hide NextItem;
    PrependTwice(ScanString(raw, i + width), out, piece);
  }

  lemma ScanEnds(raw: Bytes, i: nat)
    requires i < |raw| ==> !NextItem(raw, i).Piece?
    ensures ScanString(raw, i) ==
            if i >= |raw| then Scan([], |raw|, false)
            else Scan([], if raw[i] == QUOTE then i + 1 else i, raw[i] == QUOTE)
  {
    hide DecodeUnicodeEscape, EncodeRune;
  }

  /** `parseJSONStringToken`. */
  method ParseJSONStringToken(raw: Bytes, start: nat) returns (decoded: Bytes, end: nat, complete: bool)
    ensures start >= |raw| || raw[start] != QUOTE ==> decoded == [] && end == start && !complete
    ensures start < |raw| && raw[start] == QUOTE ==>
              Scan(decoded, end, complete) == ScanString(raw, start + 1)
  {
    hide DecodeUnicodeEscape, EncodeRune, ScanString;
    if start >= |raw| || raw[start] != QUOTE {
      return [], start, false;
    }
    var out: Bytes := [];
    var i := start + 1;
    while i < |raw|
      invariant start < i <= |raw|
      invariant ScanString(raw, start + 1) == ScanString(raw, i).Prepend(out)
    {
      var ch := raw[i];
      if ch == QUOTE {
        ScanEnds(raw, i);
        return out, i + 1, true;
      }
      if ch != BACKSLASH {
        ScanOneMore(raw, i, out, [ch], 1);
        out := out + [ch];
        i := i + 1;
        continue;
      }
      if i + 1 >= |raw| {
        ScanEnds(raw, i);
        return out, i, false;
      }
      var esc := raw[i + 1];
      var width := 2;
      var piece: Bytes := [];
      if esc == QUOTE || esc == BACKSLASH || esc == SLASH {
        piece := [esc];
      } else if esc == 98 {
        piece := [8];
      } else if esc == 102 {
        piece := [12];
      } else if esc == 110 {
        piece := [10];
      } else if esc == 114 {
        piece := [13];
      } else if esc == 116 {
        piece := [9];
      } else if esc == LOWER_U {
        match DecodeUnicodeEscape(raw, i) {
          case NoRune =>
            ScanEnds(raw, i);
            return out, i, false;
          case Rune(r, consumed) => piece, width := EncodeRune(r), consumed;
        }
      } else {
        ScanEnds(raw, i);
        return out, i, false;
      }
      ScanOneMore(raw, i, out, piece, width);
      out := out + piece;
      i := i + width;
    }
    ScanEnds(raw, i);
    return out, |raw|, false;
  }

  /** `decodeJSONStringPrefixFrom`. */
  method DecodeJSONStringPrefixFrom(raw: Bytes) returns (decoded: Bytes)
    ensures decoded == ScanString(raw, 0).text
  {
    hide DecodeUnicodeEscape, EncodeRune, ScanString;
    var out: Bytes := [];
    var i := 0;
    while i < |raw|
      invariant 0 <= i <= |raw|
      invariant ScanString(raw, 0) == ScanString(raw, i).Prepend(out)
    {
      var ch := raw[i];
      if ch == QUOTE {
        ScanEnds(raw, i);
        return out;
      }
      if ch != BACKSLASH {
        ScanOneMore(raw, i, out, [ch], 1);
        out := out + [ch];
        i := i + 1;
        continue;
      }
      if i + 1 >= |raw| {
        ScanEnds(raw, i);
        return out;
      }
      var esc := raw[i + 1];
      var width := 2;
      var piece: Bytes := [];
      if esc == QUOTE || esc == BACKSLASH || esc == SLASH {
        piece := [esc];
      } else if esc == 98 {
        piece := [8];
      } else if esc == 102 {
        piece := [12];
      } else if esc == 110 {
        piece := [10];
      } else if esc == 114 {
        piece := [13];
      } else if esc == 116 {
        piece := [9];
      } else if esc == LOWER_U {
        match DecodeUnicodeEscape(raw, i) {
          case NoRune =>
            ScanEnds(raw, i);
            return out;
          case Rune(r, consumed) => piece, width := EncodeRune(r), consumed;
        }
      } else {
        ScanEnds(raw, i);
        return out;
      }
      ScanOneMore(raw, i, out, piece, width);
      out := out + piece;
      i := i + width;
    }
    ScanEnds(raw, i);
    return out;
  }

  // ---------- the root-level field search ----------

  predicate IsJSONWhitespace(b: Byte) { b == SPACE || b == 9 || b == LF || b == CR }

  function SkipFrom(raw: Bytes, pos: nat): (p: nat)
    requires pos <= |raw|
    ensures pos <= p <= |raw|
    ensures p < |raw| ==> !IsJSONWhitespace(raw[p])
    ensures forall k :: pos <= k < p ==> IsJSONWhitespace(raw[k])
    decreases |raw| - pos
  {
    if pos < |raw| && IsJSONWhitespace(raw[pos]) then SkipFrom(raw, pos + 1) else pos
  }

  /** `skipJSONWhitespace`. */
  method SkipJSONWhitespace(raw: Bytes, start: nat) returns (pos: nat)
    requires start <= |raw|
    ensures pos == SkipFrom(raw, start)
  {
    pos := start;
    while pos < |raw|
      invariant start <= pos <= |raw|
      invariant SkipFrom(raw, start) == SkipFrom(raw, pos)
    {
      if raw[pos] == SPACE || raw[pos] == 9 || raw[pos] == LF || raw[pos] == CR {
        pos := pos + 1;
      } else {
        return;
      }
    }
  }

  datatype Hit = Found(key: Bytes, start: nat) | NotFound

  /** What a complete string token at depth 1, decoded as `key` and ending at
      `end`, is: an allowed key of a string value, a key whose value has not
      arrived yet, or something to pass over. */
  datatype Member = Match(start: nat) | Wait | Pass

  function Classify(raw: Bytes, key: Bytes, end: nat, allowed: set<Bytes>): (m: Member)
    requires end <= |raw|
    ensures m.Match? ==> end < m.start <= |raw|
  {
    var j := SkipFrom(raw, end);
    if j >= |raw| || raw[j] != COLON then Pass
    else
      var v := SkipFrom(raw, j + 1);
      if v >= |raw| then Wait
      else if key !in allowed || raw[v] != QUOTE then Pass
      else Match(v + 1)
  }

  function FindFrom(raw: Bytes, allowed: set<Bytes>, i: nat, depth: nat): (h: Hit)
    requires i <= |raw|
    ensures h.Found? ==> h.key in allowed && i < h.start <= |raw|
    decreases |raw| - i
  {
    if i == |raw| then NotFound
    else if raw[i] == QUOTE then
      var token := ScanString(raw, i + 1);
      if !token.complete then NotFound
      else if depth != 1 then FindFrom(raw, allowed, token.end, depth)
      else
        match Classify(raw, token.text, token.end, allowed)
        case Match(start) => Found(token.text, start)
        case Wait => NotFound
        case Pass => FindFrom(raw, allowed, token.end, depth)
    else if raw[i] == LBRACE || raw[i] == LBRACKET then FindFrom(raw, allowed, i + 1, depth + 1)
    else if raw[i] == RBRACE || raw[i] == RBRACKET then
      FindFrom(raw, allowed, i + 1, if depth > 0 then depth - 1 else 0)
    else FindFrom(raw, allowed, i + 1, depth)
  }

  /** `findRootStringFieldValueStart`. */
  method FindRootStringFieldValueStart(raw: Bytes, allowed: set<Bytes>)
    returns (key: Bytes, valueStart: nat, found: bool)
    ensures found == FindFrom(raw, allowed, 0, 0).Found?
    ensures found ==> FindFrom(raw, allowed, 0, 0) == Found(key, valueStart)
    ensures !found ==> key == [] && valueStart == 0
  {
    hide ScanString, SkipFrom;
    if raw == [] || allowed == {} {
      return [], 0, false;
    }
    var depth := 0;
    var i := 0;
    while i < |raw|
      invariant 0 <= i <= |raw| && 0 <= depth
      invariant FindFrom(raw, allowed, 0, 0) == FindFrom(raw, allowed, i, depth)
    {
      if raw[i] == QUOTE {
        var decoded, end, complete := ParseJSONStringToken(raw, i);
        if !complete {
          return [], 0, false;
        }
        if depth != 1 {
          i := end;
          continue;
        }
        var j := SkipJSONWhitespace(raw, end);
        if j >= |raw| || raw[j] != COLON {
          i := end;
          continue;
        }
        j := j + 1;
        j := SkipJSONWhitespace(raw, j);
        if j >= |raw| {
          return [], 0, false;
        }
        if decoded !in allowed {
          i := end;
          continue;
        }
        if raw[j] != QUOTE {
          i := end;
          continue;
        }
        return decoded, j + 1, true;
      } else if raw[i] == LBRACE || raw[i] == LBRACKET {
        depth := depth + 1;
        i := i + 1;
      } else if raw[i] == RBRACE || raw[i] == RBRACKET {
        if depth > 0 {
          depth := depth - 1;
        }
        i := i + 1;
      } else {
        i := i + 1;
      }
    }
    return [], 0, false;
  }

  datatype Extracted = Field(key: Bytes, text: Bytes) | NoField

  /** The first allowed root-level string field and its text decoded so far. */
  function Extract(raw: Bytes, allowed: set<Bytes>): Extracted {
    match FindFrom(raw, allowed, 0, 0)
    case NotFound => NoField
    case Found(key, start) => Field(key, ScanString(raw[start..], 0).text)
  }

  /** `extractFirstRootStringFieldPrefix`. */
  method ExtractFirstRootStringFieldPrefix(raw: Bytes, keys: seq<Bytes>)
    returns (key: Bytes, decoded: Bytes, found: bool)
    ensures found ==> Extract(raw, set k | k in keys) == Field(key, decoded)
    ensures !found ==> Extract(raw, set k | k in keys) == NoField && key == [] && decoded == []
  {
    if raw == [] || |keys| == 0 {
      return [], [], false;
    }
    var allowed := set k | k in keys;
    var valueStart;
    key, valueStart, found := FindRootStringFieldValueStart(raw, allowed);
    if !found {
      return [], [], false;
    }
    decoded := DecodeJSONStringPrefixFrom(raw[valueStart..]);
  }

  /** `extractRootStringFieldPrefix`. */
  method ExtractRootStringFieldPrefix(raw: Bytes, key: Bytes) returns (decoded: Bytes, found: bool)
    ensures found == (key != [] && Extract(raw, {key}).Field?)
    ensures found ==> Extract(raw, {key}) == Field(key, decoded)
    ensures !found ==> decoded == []
  {
    if raw == [] || key == [] {
      return [], false;
    }
    var foundKey, valueStart, ok := FindRootStringFieldValueStart(raw, {key});
    if !ok || foundKey == [] {
      return [], false;
    }
    decoded := DecodeJSONStringPrefixFrom(raw[valueStart..]);
    found := true;
  }
}
