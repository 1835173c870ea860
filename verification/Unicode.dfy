/** Unicode scalar values and the surrogate code units of UTF-16. */
module Unicode {
  /** A character that is one byte in UTF-8. */
  type AsciiChar = c: int | 0 <= c < 128

  const QUOTE: AsciiChar := 34
  const BACKSLASH: AsciiChar := 92
  const LBRACKET: AsciiChar := 91
  const RBRACKET: AsciiChar := 93
  const LBRACE: AsciiChar := 123
  const RBRACE: AsciiChar := 125
  const COMMA: AsciiChar := 44

  /** A Unicode scalar value: every code point that is not a surrogate. */
  type Scalar = r: int | 0 <= r < 0x110000 && !(0xD800 <= r <= 0xDFFF)

  predicate IsHighSurrogate(r: int) { 0xD800 <= r <= 0xDBFF }

  predicate IsLowSurrogate(r: int) { 0xDC00 <= r <= 0xDFFF }

  /** `utf16.DecodeRune` on a valid pair. */
  function CombineSurrogates(hi: int, lo: int): Scalar
    requires IsHighSurrogate(hi) && IsLowSurrogate(lo)
  {
    (hi - 0xD800) * 0x400 + (lo - 0xDC00) + 0x10000
  }
}
