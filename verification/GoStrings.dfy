/** The parts of Go's `strings` package that the modelled code relies on, over
    byte strings.  A Go `string` is a sequence of bytes, not of characters. */
module GoStrings {

  type Byte = b: int | 0 <= b < 256
  type Bytes = seq<Byte>

  const LF: Byte := 10
  const CR: Byte := 13
  const SPACE: Byte := 32
  const COLON: Byte := 58

  /** The bytes of an ASCII text. */
  function Ascii(s: string): (t: Bytes)
    ensures |t| == |s|
  {
    seq(|s|, i requires 0 <= i < |s| => AsciiByte(s[i]))
  }

  function AsciiByte(c: char): Byte {
    if (c as int) < 128 then c as int else 63
  }

  /** The UTF-8 encodings of the runes that `unicode.IsSpace` accepts. */
  predicate IsSpaceRune(r: Bytes) {
    || (|r| == 1 && (9 <= r[0] <= 13 || r[0] == SPACE))
    || r == [0xC2, 0x85] || r == [0xC2, 0xA0]
    || r == [0xE1, 0x9A, 0x80] || r == [0xE3, 0x80, 0x80]
    || (|r| == 3 && r[..2] == [0xE2, 0x80] && (0x80 <= r[2] <= 0x8A || r[2] in {0xA8, 0xA9, 0xAF}))
    || r == [0xE2, 0x81, 0x9F]
  }

  predicate SpaceAhead(s: Bytes, k: nat) {
    k <= |s| && IsSpaceRune(s[..k])
  }

  predicate SpaceBehind(s: Bytes, k: nat) {
    k <= |s| && IsSpaceRune(s[|s| - k..])
  }

  /** The width of the white space rune at the beginning or the end, or 0. */
  function LeadSpace(s: Bytes): (n: nat)
    ensures n <= |s|
  {
    if SpaceAhead(s, 1) then 1 else if SpaceAhead(s, 2) then 2 else if SpaceAhead(s, 3) then 3 else 0
  }

  function TrailSpace(s: Bytes): (n: nat)
    ensures n <= |s|
  {
    if SpaceBehind(s, 1) then 1 else if SpaceBehind(s, 2) then 2 else if SpaceBehind(s, 3) then 3 else 0
  }

  function TrimLeft(s: Bytes): Bytes {
    if LeadSpace(s) > 0 then TrimLeft(s[LeadSpace(s)..]) else s
  }

  function TrimRight(s: Bytes): Bytes {
    if TrailSpace(s) > 0 then TrimRight(s[..|s| - TrailSpace(s)]) else s
  }

  /** `strings.TrimSpace`. */
  function TrimSpace(s: Bytes): Bytes {
    TrimRight(TrimLeft(s))
  }

  lemma TrimSpaceDropsLeadingLF(s: Bytes)
    ensures TrimSpace([LF] + s) == TrimSpace(s)
  {
    assert ([LF] + s)[1..] == s;
    assert LeadSpace([LF] + s) == 1;
  }

  /** `strings.ReplaceAll(s, "\r\n", "\n")`. */
  function Normalize(s: Bytes): Bytes {
    if s == [] then []
    else if |s| >= 2 && s[0] == CR && s[1] == LF then [LF] + Normalize(s[2..])
    else [s[0]] + Normalize(s[1..])
  }

  /** `strings.Split(s, "\n\n")`: cut at the leftmost non-overlapping separators. */
  function SplitBlank(s: Bytes): (parts: seq<Bytes>)
    ensures |parts| > 0
  {
    if s == [] then [[]]
    else if |s| >= 2 && s[0] == LF && s[1] == LF then [[]] + SplitBlank(s[2..])
    else var rest := SplitBlank(s[1..]); [[s[0]] + rest[0]] + rest[1..]
  }

  /** `strings.Split(s, "\n")`. */
  function SplitLines(s: Bytes): (parts: seq<Bytes>)
    ensures |parts| > 0
  {
    if s == [] then [[]]
    else if s[0] == LF then [[]] + SplitLines(s[1..])
    else var rest := SplitLines(s[1..]); [[s[0]] + rest[0]] + rest[1..]
  }

  /** `strings.Join(lines, "\n")`. */
  function JoinLines(lines: seq<Bytes>): Bytes {
    if lines == [] then []
    else if |lines| == 1 then lines[0]
    else lines[0] + [LF] + JoinLines(lines[1..])
  }

  lemma {:induction false} JoinSplitLines(s: Bytes)
    ensures JoinLines(SplitLines(s)) == s
  {
    if s == [] {
    } else {
      JoinSplitLines(s[1..]);
      var rest := SplitLines(s[1..]);
      if s[0] == LF {
        assert SplitLines(s)[1..] == rest;
      } else {
        assert SplitLines(s)[1..] == rest[1..];
        assert s == [s[0]] + s[1..];
      }
    }
  }

  /** The lines, in order, with line feeds between them. */
  function Joined(lines: seq<Bytes>): Bytes {
    if lines == [] then []
    else if |lines| == 1 then lines[0]
    else Joined(lines[..|lines| - 1]) + [10] + lines[|lines| - 1]
  }

  lemma {:induction false} JoinedIsJoin(lines: seq<Bytes>)
    ensures JoinLines(lines) == Joined(lines)
    decreases |lines|
  {
    if |lines| > 1 {
      JoinedIsJoin(lines[..|lines| - 1]);
      JoinOneMore(lines[..|lines| - 1], lines[|lines| - 1]);
      assert lines == lines[..|lines| - 1] + [lines[|lines| - 1]];
    }
  }

  lemma {:induction false} JoinOneMore(lines: seq<Bytes>, line: Bytes)
    requires lines != []
    ensures JoinLines(lines + [line]) == JoinLines(lines) + [LF] + line
    decreases |lines|
  {
    assert (lines + [line])[1..] == lines[1..] + [line];
    if |lines| > 1 {
      JoinOneMore(lines[1..], line);
      var rest := JoinLines(lines[1..]);
      assert lines[0] + [LF] + (rest + [LF] + line) == lines[0] + [LF] + rest + [LF] + line;
    } else {
      assert lines[1..] + [line] == [line];
    }
  }

  lemma {:induction false} SplitLinesHaveNoLF(s: Bytes)
    ensures forall l :: l in SplitLines(s) ==> LF !in l
  {
    if s != [] {
      SplitLinesHaveNoLF(s[1..]);
      var rest := SplitLines(s[1..]);
      if s[0] != LF {
        assert rest[0] in rest;
        assert forall l :: l in SplitLines(s) ==> l == [s[0]] + rest[0] || l in rest;
      }
    }
  }

  lemma {:induction false} SplitOneLine(s: Bytes)
    requires LF !in s
    ensures SplitLines(s) == [s]
    decreases |s|
  {
    if s != [] {
      SplitOneLine(s[1..]);
      assert s == [s[0]] + s[1..];
    }
  }

  /** The bytes of consecutive writes or fragments. */
  function Concat(parts: seq<Bytes>): Bytes {
    if parts == [] then [] else parts[0] + Concat(parts[1..])
  }

  lemma {:induction false} ConcatOneMore(parts: seq<Bytes>, part: Bytes)
    ensures Concat(parts + [part]) == Concat(parts) + part
    decreases |parts|
  {
    if parts == [] {
      assert Concat([part]) == part + Concat([]);
      assert part + [] == part && [] + part == part;
      assert parts + [part] == [part];
    } else {
      ConcatOneMore(parts[1..], part);
      assert (parts + [part])[1..] == parts[1..] + [part];
      assert parts[0] + (Concat(parts[1..]) + part) == (parts[0] + Concat(parts[1..])) + part;
    }
  }
}
