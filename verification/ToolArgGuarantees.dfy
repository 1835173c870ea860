/** What the incremental decoder delivers on well-formed JSON, and what a lone
    surrogate does to it. */
module ToolArgGuarantees {
  import opened Unicode
  import opened GoStrings
  import opened ToolArgScanner
  import opened ToolArgDecoder
  import opened ToolArgGrammar
  import opened JsonText

  // ---------- every spelling of a text ----------

  /** The legal ways to write one scalar value. */
  predicate SpellsScalar(c: seq<Spelling>, r: Scalar) {
    && LegalBody(c)
    && ((|c| == 1 && c[0].Whole() && c[0].Value() == r)
        || (|c| == 2 && PairAt(c, 0) && CombineSurrogates(c[0].unit, c[1].unit) == r))
  }

  predicate SpellAll(choices: seq<seq<Spelling>>, scalars: seq<Scalar>) {
    |choices| == |scalars| && forall k :: 0 <= k < |scalars| ==> SpellsScalar(choices[k], scalars[k])
  }

  function Flat(choices: seq<seq<Spelling>>): seq<Spelling> {
    if choices == [] then [] else choices[0] + Flat(choices[1..])
  }

  lemma {:induction false} ChoicesMean(choices: seq<seq<Spelling>>, scalars: seq<Scalar>)
    requires SpellAll(choices, scalars)
    ensures LegalBody(Flat(choices)) && NoLone(Flat(choices)) && Scalars(Flat(choices)) == scalars
    decreases |choices|
  {
    hide NoLone;
    if choices == [] {
      NoLoneInNothing();
    } else {
      var body, first, rest := Flat(choices), choices[0], Flat(choices[1..]);
      ChoicesMean(choices[1..], scalars[1..]);
      assert SpellsScalar(first, scalars[0]);
      assert body[0] == first[0] && (|first| == 2 ==> body[1] == first[1]);
      assert Width(body) == |first| && body[|first|..] == rest;
      assert !LoneAt(body, 0);
      LoneBehind(body);
      assert |first| == 1 ==> body[1..] == rest;
      assert |first| == 2 ==> body[2..] == rest;
      assert scalars == [scalars[0]] + scalars[1..];
    }
  }

  /** Escape round trip: whatever spelling is chosen for each scalar value of a
      text, the literal decodes to the UTF-8 of that text and ends just past its
      closing quote. */
  lemma {:induction false} EscapeRoundTrip(
    raw: Bytes, i: nat, choices: seq<seq<Spelling>>, scalars: seq<Scalar>)
    requires SpellAll(choices, scalars) && At(raw, i, StringText(Flat(choices)))
    ensures raw[i] == QUOTE
    ensures ScanString(raw, i + 1) == Scan(Encode(scalars), i + |StringText(Flat(choices))|, true)
  {
    hide SpellAll, Flat, NoLone, LegalBody, Scalars, Encode, ScanString, At, StringText;
    ChoicesMean(choices, scalars);
    ScanToken(raw, i, Flat(choices));
  }

  // ---------- whole documents ----------

  /** The incremental decoder on a well-formed object, however it is cut into
      fragments: it ends with the first allowed root-level string member, and its
      deltas put together are that member's decoded text, if and only if no lone
      surrogate stands in front of that member; otherwise it never reports
      anything. */
  lemma {:induction false} DecoderDecodesObject(
    keys: seq<Bytes>, fragments: seq<Bytes>, before: Bytes, lead: Bytes, members: Members, after: Bytes)
    requires [] !in keys && Concat(fragments) == Document(before, lead, members, after)
    requires Blank(before) && WellFormed(Object(lead, members)) && Blank(after)
    ensures var final, deltas := Final(keys, START, fragments), Deltas(Updates(keys, START, fragments));
            var allowed := set k | k in keys;
            match FirstStringMember(members, allowed, |before| + 1 + |lead|)
            case Chosen(key, body, _) =>
              if Unobstructed(members, allowed)
              then final == State(Concat(fragments), key, Utf8(body)) && deltas == Utf8(body)
              else final == State(Concat(fragments), [], []) && deltas == []
            case NoChoice => final == State(Concat(fragments), [], []) && deltas == []
  {
    hide Extract, FirstStringMember, Utf8, Document, Final, Deltas, Updates, WellFormed, Unobstructed;
    SearchFindsFirstStringMember(before, lead, members, after, set k | k in keys);
    FragmentationIndependence(keys, fragments);
    DeltaConcatenation(keys, fragments);
  }

  // ---------- strings that are still open ----------

  lemma LoneSurrogateStays(raw: Bytes, more: Bytes, i: nat)
    requires LoneSurrogateAt(raw, i)
    ensures LoneSurrogateAt(raw + more, i)
  {
    hide ParseHexRune;
    var long := raw + more;
    assert long[i + 2..i + 6] == raw[i + 2..i + 6];
    if i + 11 < |raw| {
      assert long[i + 8..i + 12] == raw[i + 8..i + 12];
    }
  }

  lemma UnfinishedStringHidesTheRest(raw: Bytes, allowed: set<Bytes>, q: nat, depth: nat)
    requires q < |raw| && raw[q] == QUOTE && !ScanString(raw, q + 1).complete
    ensures FindFrom(raw, allowed, q, depth) == NotFound
  {
    hide ScanString;
  }

  /** As soon as a lone surrogate can be seen, the string never ends for the
      scanners, whatever follows, so that nothing behind it is ever found. */
  lemma {:induction false} LoneSurrogateHidesTheRest(
    raw: Bytes, more: Bytes, q: nat, body: seq<Spelling>, allowed: set<Bytes>, depth: nat)
    requires LegalBody(body) && NoLone(body) && At(raw, q, [QUOTE] + BodyText(body))
    requires LoneSurrogateAt(raw, q + 1 + |BodyText(body)|)
    ensures ScanString(raw + more, q + 1) == Scan(Utf8(body), q + 1 + |BodyText(body)|, false)
    ensures FindFrom(raw + more, allowed, q, depth) == NotFound
  {
    hide BodyText, LegalBody, NoLone, Utf8, LoneSurrogateAt, ScanString, FindFrom;
    var long := raw + more;
    var i := q + 1 + |BodyText(body)|;
    assert long[q..i] == raw[q..i];
    AtSplit(long, q, [QUOTE], BodyText(body));
    AtByte(long, q, [QUOTE], 0);
    ScanBody(long, q + 1, body);
    LoneSurrogateStays(raw, more, i);
    LoneSurrogateSticks(long, i);
    assert Utf8(body) + [] == Utf8(body);
    UnfinishedStringHidesTheRest(long, allowed, q, depth);
  }
}
