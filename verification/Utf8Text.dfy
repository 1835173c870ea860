/** UTF-8 as it is read (section 3 of RFC 3629): which byte sequences stand for
    which scalar values. */
module Utf8Text {
  import opened GoStrings
  import opened Unicode

  predicate Continuation(b: Byte) { 0x80 <= b <= 0xBF }

  datatype Reading = Character(r: Scalar, rest: Bytes) | Malformed

  /** The first character of a text: its length is told by the lead byte, and
      neither surrogates nor longer forms than necessary are allowed. */
  function ReadCharacter(t: Bytes): (c: Reading)
    ensures c.Character? ==> |c.rest| < |t|
  {
    if t == [] then Malformed
    else if t[0] <= 0x7F then Character(t[0], t[1..])
    else if 0xC2 <= t[0] <= 0xDF then
      if |t| >= 2 && Continuation(t[1])
      then Character((t[0] as int - 0xC0) * 0x40 + (t[1] as int - 0x80), t[2..])
      else Malformed
    else if 0xE0 <= t[0] <= 0xEF then
      if |t| >= 3 && Continuation(t[1]) && Continuation(t[2]) then
        var v := (t[0] as int - 0xE0) * 0x1000 + (t[1] as int - 0x80) * 0x40 + (t[2] as int - 0x80);
        if v < 0x800 || 0xD800 <= v <= 0xDFFF then Malformed else Character(v, t[3..])
      else Malformed
    else if 0xF0 <= t[0] <= 0xF4 then
      if |t| >= 4 && Continuation(t[1]) && Continuation(t[2]) && Continuation(t[3]) then
        var v := (t[0] as int - 0xF0) * 0x40000 + (t[1] as int - 0x80) * 0x1000
                 + (t[2] as int - 0x80) * 0x40 + (t[3] as int - 0x80);
        if v < 0x10000 || v > 0x10FFFF then Malformed else Character(v, t[4..])
      else Malformed
    else Malformed
  }

  datatype Text = Characters(scalars: seq<Scalar>) | NotUtf8

  /** The scalar values of a text. */
  function ReadText(t: Bytes): Text {
    if t == [] then Characters([])
    else
      match ReadCharacter(t)
      case Malformed => NotUtf8
      case Character(r, rest) =>
        match ReadText(rest)
        case NotUtf8 => NotUtf8
        case Characters(rs) => Characters([r] + rs)
  }
}
