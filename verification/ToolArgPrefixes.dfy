/** How early the incremental decoder reports: on every beginning of a well-formed
    object. */
module ToolArgPrefixes {
  import opened Unicode
  import opened GoStrings
  import opened ToolArgScanner
  import opened ToolArgStability
  import opened ToolArgDecoder
  import opened ToolArgGrammar
  import opened JsonText

  // ---------- nothing behind a hit was needed to find it ----------

  lemma ItemLocal(raw: Bytes, n: nat, i: nat)
    requires i < n <= |raw| && !NextItem(raw, i).Stuck?
    requires NextItem(raw, i).Piece? ==> i + NextItem(raw, i).width <= n
    ensures NextItem(raw[..n], i) == NextItem(raw, i)
  {
    hide ParseHexRune, EncodeRune;
    var cut := raw[..n];
    if i + 5 < n {
      assert cut[i + 2..i + 6] == raw[i + 2..i + 6];
    }
    if i + 11 < n {
      assert cut[i + 8..i + 12] == raw[i + 8..i + 12];
    }
  }

  lemma {:induction false} ScanLocal(raw: Bytes, n: nat, i: nat)
    requires i <= n <= |raw| && ScanString(raw, i).complete && ScanString(raw, i).end <= n
    ensures ScanString(raw[..n], i) == ScanString(raw, i)
    decreases n - i
  {
    hide NextItem;
    ItemLocal(raw, n, i);
    if NextItem(raw, i).Piece? {
      ScanLocal(raw, n, i + NextItem(raw, i).width);
    }
  }

  lemma {:induction false} SkipLocal(raw: Bytes, n: nat, pos: nat)
    requires pos <= n <= |raw|
    ensures SkipFrom(raw[..n], pos) == if SkipFrom(raw, pos) < n then SkipFrom(raw, pos) else n
    decreases n - pos
  {
    if pos < n && IsJSONWhitespace(raw[pos]) {
      SkipLocal(raw, n, pos + 1);
    }
  }

  lemma {:induction false} HitBehindQuote(raw: Bytes, allowed: set<Bytes>, i: nat, depth: nat)
    requires i <= |raw| && FindFrom(raw, allowed, i, depth).Found?
    ensures raw[FindFrom(raw, allowed, i, depth).start - 1] == QUOTE
    decreases |raw| - i
  {
    hide ScanString, SkipFrom;
    if raw[i] == QUOTE {
      var token := ScanString(raw, i + 1);
      if depth != 1 || Classify(raw, token.text, token.end, allowed).Pass? {
        HitBehindQuote(raw, allowed, token.end, depth);
      }
    } else if raw[i] == LBRACE || raw[i] == LBRACKET {
      HitBehindQuote(raw, allowed, i + 1, depth + 1);
    } else if raw[i] == RBRACE || raw[i] == RBRACKET {
      HitBehindQuote(raw, allowed, i + 1, if depth > 0 then depth - 1 else 0);
    } else {
      HitBehindQuote(raw, allowed, i + 1, depth);
    }
  }

  /** A key that is passed over is passed over in a beginning of the input that
      has the hit behind it. */
  lemma ClassifyLocal(raw: Bytes, n: nat, allowed: set<Bytes>, key: Bytes, end: nat)
    requires end <= n <= |raw|
    requires match Classify(raw, key, end, allowed)
             case Match(start) => start <= n
             case Wait => false
             case Pass => FindFrom(raw, allowed, end, 1).Found? && FindFrom(raw, allowed, end, 1).start <= n
    ensures Classify(raw[..n], key, end, allowed) == Classify(raw, key, end, allowed)
  {
    hide SkipFrom, FindFrom;
    SkipLocal(raw, n, end);
    var j := SkipFrom(raw, end);
    if j < n && raw[j] == COLON {
      SkipLocal(raw, n, j + 1);
      if SkipFrom(raw, j + 1) >= n {
        HitBehindQuote(raw, allowed, end, 1);
        NoQuoteAhead(raw, end, j, n);
        assert false;
      }
    }
  }

  lemma NoQuoteAhead(raw: Bytes, end: nat, j: nat, n: nat)
    requires end <= j < n <= |raw| && j == SkipFrom(raw, end) && raw[j] == COLON && SkipFrom(raw, j + 1) >= n
    ensures forall k :: end <= k < n ==> raw[k] != QUOTE
  {
  }

  /** A field is found as soon as everything up to its opening quote is there. */
  lemma {:induction false} HitLocal(raw: Bytes, n: nat, allowed: set<Bytes>, i: nat, depth: nat)
    requires i <= n <= |raw| && FindFrom(raw, allowed, i, depth).Found?
    requires FindFrom(raw, allowed, i, depth).start <= n
    ensures FindFrom(raw[..n], allowed, i, depth) == FindFrom(raw, allowed, i, depth)
    decreases n - i
  {
    hide ScanString, Classify;
    if raw[i] == QUOTE {
      var token := ScanString(raw, i + 1);
      if depth != 1 {
        ScanLocal(raw, n, i + 1);
        HitLocal(raw, n, allowed, token.end, depth);
      } else {
        var member := Classify(raw, token.text, token.end, allowed);
        ScanLocal(raw, n, i + 1);
        ClassifyLocal(raw, n, allowed, token.text, token.end);
        if member.Pass? {
          HitLocal(raw, n, allowed, token.end, depth);
        }
      }
    } else if raw[i] == LBRACE || raw[i] == LBRACKET {
      HitLocal(raw, n, allowed, i + 1, depth + 1);
    } else if raw[i] == RBRACE || raw[i] == RBRACKET {
      HitLocal(raw, n, allowed, i + 1, if depth > 0 then depth - 1 else 0);
    } else {
      HitLocal(raw, n, allowed, i + 1, depth);
    }
  }

  // ---------- a body of which only the beginning is there ----------

  /** The first bytes of a spelling, not all of them. */
  predicate Begun(next: Spelling, partial: Bytes) {
    next.Legal() && |partial| < |next.Text()| && partial == next.Text()[..|partial|]
  }

  lemma TextLength(p: Spelling)
    requires p.Legal()
    ensures 1 <= |p.Text()| <= 6
  {
  }

  /** Of a spelling that has only begun, an unescaped character shows the bytes
      that are there, and an escape shows nothing. */
  lemma BegunShows(raw: Bytes, i: nat, next: Spelling, partial: Bytes)
    requires Begun(next, partial) && At(raw, i, partial) && i + |partial| == |raw|
    ensures ScanString(raw, i).text == if next.Raw? then partial else []
  {
    hide EncodeRune, At;
    if partial == [] {
      return;
    }
    AtByte(raw, i, partial, 0);
    match next
    case Raw(r) =>
      EncodedBytesArePlain(r);
      ScanPlain(raw, i, partial);
      assert partial + [] == partial;
    case Short(_, _) =>
      assert NextItem(raw, i) == Stuck;
    case Hex(_, _) =>
      if |partial| >= 2 {
        AtByte(raw, i, partial, 1);
      }
      assert NextItem(raw, i) == Stuck;
  }

  lemma HighAtEnd(raw: Bytes, i: nat, p: Spelling)
    requires p.Legal() && p.High() && At(raw, i, p.Text()) && |raw| <= i + 11
    ensures ScanString(raw, i).text == []
  {
    HexUnit(raw, i, p);
    hide ParseHexRune, EncodeRune, At;
    assert NextItem(raw, i) == Stuck;
  }

  lemma {:induction false} BegunBodyWithLone(raw: Bytes, i: nat, done: seq<Spelling>, next: Spelling, partial: Bytes)
    requires LegalBody(done) && !NoLone(done) && Begun(next, partial)
    requires At(raw, i, BodyText(done) + partial) && i + |BodyText(done) + partial| == |raw|
    ensures ScanString(raw, i).text == Utf8(done)
    decreases |done|
  {
    hide EncodeRune, ScanString, At, NoLone, LegalBody, BodyText, Encode, LoneSurrogateAt, Begun, Spelling.Text,
      NoLowFollows;
    if done == [] {
      NoLoneInNothing();
      assert false;
    } else if LoneAt(done, 0) {
      EmptyBody();
      LoneBegun(raw, i, done, next, partial);
    } else {
      var n := ScanFirst(raw, i, done, partial);
      LoneBehind(done);
      BegunBodyWithLone(raw, i + n, done[Width(done)..], next, partial);
      EncodeFirst(Scalars(done));
    }
  }

  /** A lone surrogate, or a high one that nothing follows yet. */
  lemma LoneBegun(raw: Bytes, i: nat, done: seq<Spelling>, next: Spelling, partial: Bytes)
    requires done != [] && LegalBody(done) && LoneAt(done, 0) && Begun(next, partial)
    requires At(raw, i, BodyText(done) + partial) && i + |BodyText(done) + partial| == |raw|
    ensures ScanString(raw, i).text == []
  {
    hide ScanString, At, LegalBody, BodyText, Spelling.Text, NoLowFollows, ParseHexRune;
    assert done[0].Legal() by { LegalAt(done, 0); }
    BodyParts(raw, i, done, partial);
    HexUnit(raw, i, done[0]);
    if done[0].Low() {
      LoneSurrogateSticks(raw, i);
    } else if |done| == 1 {
      EmptyBody();
      TextLength(next);
      assert done[1..] == [];
      HighAtEnd(raw, i, done[0]);
    } else {
      assert done[1].Legal() by { LegalAt(done, 1); }
      BodyParts(raw, i + 6, done[1..], partial);
      NotLowShows(raw, i + 6, done[1]);
      LoneSurrogateSticks(raw, i);
    }
  }

  /** Of a string of which only the beginning is there, every spelling received in
      full is decoded, up to the first lone surrogate; a high surrogate waits for
      the low one. */
  lemma {:induction false} BegunBodyDecodes(raw: Bytes, done: seq<Spelling>, next: Spelling, partial: Bytes)
    requires LegalBody(done) && Begun(next, partial) && raw == BodyText(done) + partial
    ensures ScanString(raw, 0).text == Utf8(done) + if NoLone(done) && next.Raw? then partial else []
  {
    hide NextItem, ScanString, NoLone, LegalBody, BodyText, Utf8, Begun;
    assert raw[0..|raw|] == raw;
    if NoLone(done) {
      AtSplit(raw, 0, BodyText(done), partial);
      ScanBody(raw, 0, done);
      BegunShows(raw, |BodyText(done)|, next, partial);
    } else {
      BegunBodyWithLone(raw, 0, done, next, partial);
      assert Utf8(done) + [] == Utf8(done);
    }
  }

  // ---------- documents ----------

  /** The body of the chosen member stands where the choice says. */
  lemma ChosenStands(before: Bytes, lead: Bytes, members: Members, after: Bytes, allowed: set<Bytes>)
    requires WellFormed(Object(lead, members)) && Blank(before)
    ensures match FirstStringMember(members, allowed, |before| + 1 + |lead|)
            case Chosen(_, body, start) =>
              LegalBody(body) && At(Document(before, lead, members, after), start, BodyText(body) + [QUOTE])
            case NoChoice => true
  {
    hide FindFrom, At, LegalBody, Utf8, BodyText, MembersText, FirstStringMember, Unobstructed;
    var raw := Document(before, lead, members, after);
    WholeText(raw, before, ValueText(Object(lead, members)), after);
    BracketParts(raw, |before|, LBRACE, lead, MembersText(members), RBRACE);
    RootMembers(raw, allowed, |before| + 1 + |lead|, members);
  }

  /** What can be extracted from the first `n` bytes of a document: nothing before
      the opening quote of the wanted value, and from then on its key. */
  lemma BeginningHasKey(
    before: Bytes, lead: Bytes, members: Members, after: Bytes, allowed: set<Bytes>, n: nat, key: Bytes, start: nat)
    requires n <= |Document(before, lead, members, after)|
    requires FindFrom(Document(before, lead, members, after), allowed, 0, 0) == Found(key, start)
    ensures var cut := Document(before, lead, members, after)[..n];
            Extract(cut, allowed) == if n < start then NoField else Field(key, ScanString(cut[start..], 0).text)
  {
    hide FindFrom, ScanString, Document;
    var raw := Document(before, lead, members, after);
    var cut := raw[..n];
    if n >= start {
      HitLocal(raw, n, allowed, 0, 0);
    } else if FindFrom(cut, allowed, 0, 0).Found? {
      assert cut + raw[n..] == raw;
      HitStable(cut, raw[n..], allowed, 0, 0);
    }
  }

  /** The text received so far of a body that starts at `start`. */
  lemma ReceivedSlice(
    raw: Bytes, start: nat, body: seq<Spelling>,
    done: seq<Spelling>, next: Spelling, rest: seq<Spelling>, j: nat)
    requires At(raw, start, BodyText(body) + [QUOTE]) && body == done + [next] + rest && j < |next.Text()|
    ensures var n := start + |BodyText(done)| + j;
            n <= |raw| && raw[..n][start..] == BodyText(done) + next.Text()[..j]
  {
    hide BodyText, Spelling.Text;
    var tail := next.Text() + BodyText(rest) + [QUOTE];
    BodyConcat(done, [next] + rest);
    assert done + ([next] + rest) == body;
    BodyOne(next, rest);
    var text := BodyText(body) + [QUOTE];
    assert text == BodyText(done) + tail;
    var n := start + |BodyText(done)| + j;
    assert raw[start..start + |text|] == text;
    assert raw[..n][start..] == text[..n - start];
    assert text[..n - start] == BodyText(done) + next.Text()[..j];
  }

  lemma {:induction false} BodyConcat(a: seq<Spelling>, b: seq<Spelling>)
    ensures BodyText(a + b) == BodyText(a) + BodyText(b)
    decreases |a|
  {
    hide Spelling.Text;
    if a == [] {
      assert a + b == b;
    } else {
      assert (a + b)[1..] == a[1..] + b;
      BodyConcat(a[1..], b);
    }
  }

  lemma BodyOne(next: Spelling, rest: seq<Spelling>)
    ensures BodyText([next] + rest) == next.Text() + BodyText(rest)
  {
    assert ([next] + rest)[1..] == rest;
  }

  /** The decoder reports as early as it can.  Fed any beginning of a well-formed
      object, in any fragments, it has locked the wanted member exactly from its
      opening quote on, and its text is every spelling received in full and, of
      an unescaped character, the bytes that have come; a lone surrogate in the
      value stops it there. */
  lemma {:induction false} ReportsAsItArrives(
    keys: seq<Bytes>, fragments: seq<Bytes>, before: Bytes, lead: Bytes, members: Members, after: Bytes,
    done: seq<Spelling>, next: Spelling, rest: seq<Spelling>, j: nat)
    requires [] !in keys && Blank(before) && WellFormed(Object(lead, members)) && Blank(after)
    requires var allowed := set k | k in keys;
             var choice := FirstStringMember(members, allowed, |before| + 1 + |lead|);
             && Unobstructed(members, allowed) && choice.Chosen?
             && choice.body == done + [next] + rest && j < |next.Text()|
             && var n := choice.start + |BodyText(done)| + j;
                n <= |Document(before, lead, members, after)| &&
                Concat(fragments) == Document(before, lead, members, after)[..n]
    ensures var choice := FirstStringMember(members, set k | k in keys, |before| + 1 + |lead|);
            var text := Utf8(done) + if NoLone(done) && next.Raw? then next.Text()[..j] else [];
            && Final(keys, START, fragments) == State(Concat(fragments), choice.key, text)
            && Deltas(Updates(keys, START, fragments)) == text
  {
    hide FirstStringMember, Utf8, BodyText, Document, Final, Deltas, Updates, WellFormed, Unobstructed, FindFrom,
      ScanString, At, NoLone, LegalBody, Spelling.Text, Extract;
    var allowed := set k | k in keys;
    var choice := FirstStringMember(members, allowed, |before| + 1 + |lead|);
    var raw := Document(before, lead, members, after);
    var start := choice.start;
    var n := start + |BodyText(done)| + j;
    SearchFindsFirstStringMember(before, lead, members, after, allowed);
    ChosenStands(before, lead, members, after, allowed);
    ReceivedSlice(raw, start, choice.body, done, next, rest, j);
    BeginningHasKey(before, lead, members, after, allowed, n, choice.key, start);
    LegalParts(choice.body, done, next, rest);
    BegunBodyDecodes(raw[..n][start..], done, next, next.Text()[..j]);
    FragmentationIndependence(keys, fragments);
    DeltaConcatenation(keys, fragments);
  }

  lemma LegalParts(body: seq<Spelling>, done: seq<Spelling>, next: Spelling, rest: seq<Spelling>)
    requires LegalBody(body) && body == done + [next] + rest
    ensures LegalBody(done) && next.Legal()
  {
    hide Spelling.Legal;
    assert forall k :: 0 <= k < |done| ==> done[k] == body[k];
    assert body[|done|] == next;
  }

  /** Before that opening quote nothing is reported. */
  lemma {:induction false} NothingBeforeTheQuote(
    keys: seq<Bytes>, fragments: seq<Bytes>, before: Bytes, lead: Bytes, members: Members, after: Bytes, n: nat)
    requires [] !in keys && Blank(before) && WellFormed(Object(lead, members)) && Blank(after)
    requires n <= |Document(before, lead, members, after)|
    requires Concat(fragments) == Document(before, lead, members, after)[..n]
    requires var allowed := set k | k in keys;
             match FirstStringMember(members, allowed, |before| + 1 + |lead|)
             case Chosen(_, _, start) => n < start || !Unobstructed(members, allowed)
             case NoChoice => true
    ensures Final(keys, START, fragments) == State(Concat(fragments), [], [])
    ensures Deltas(Updates(keys, START, fragments)) == []
  {
    hide FirstStringMember, Utf8, Document, Final, Deltas, Updates, WellFormed, Unobstructed, FindFrom, ScanString;
    var allowed := set k | k in keys;
    var raw := Document(before, lead, members, after);
    SearchFindsFirstStringMember(before, lead, members, after, allowed);
    if FindFrom(raw, allowed, 0, 0).Found? {
      var choice := FirstStringMember(members, allowed, |before| + 1 + |lead|);
      BeginningHasKey(before, lead, members, after, allowed, n, choice.key, choice.start);
    } else if FindFrom(raw[..n], allowed, 0, 0).Found? {
      assert raw[..n] + raw[n..] == raw;
      HitStable(raw[..n], raw[n..], allowed, 0, 0);
    }
    FragmentationIndependence(keys, fragments);
    DeltaConcatenation(keys, fragments);
  }

  lemma WholeBodyThere(raw: Bytes, start: nat, body: seq<Spelling>)
    requires LegalBody(body) && At(raw, start, BodyText(body) + [QUOTE])
    ensures var n := start + |BodyText(body)|;
            n < |raw| && ScanString(raw[..n][start..], 0).text == Utf8(body)
  {
    hide BodyText, LegalBody, ScanString, Utf8, NoLone;
    var text := BodyText(body) + [QUOTE];
    var n := start + |BodyText(body)|;
    assert raw[start..start + |text|] == text;
    assert raw[..n][start..] == text[..|text| - 1] == BodyText(body) + [];
    BegunBodyDecodes(raw[..n][start..], body, Short(34, 34), []);
    assert Utf8(body) + [] == Utf8(body);
  }

  /** From the last byte of the value's content on the text is whole, whether or
      not its closing quote and the rest have come. */
  lemma {:induction false} ReportsTheWholeText(
    keys: seq<Bytes>, fragments: seq<Bytes>, before: Bytes, lead: Bytes, members: Members, after: Bytes, n: nat)
    requires [] !in keys && Blank(before) && WellFormed(Object(lead, members)) && Blank(after)
    requires n <= |Document(before, lead, members, after)|
    requires Concat(fragments) == Document(before, lead, members, after)[..n]
    requires var allowed := set k | k in keys;
             var choice := FirstStringMember(members, allowed, |before| + 1 + |lead|);
             Unobstructed(members, allowed) && choice.Chosen? && choice.start + |BodyText(choice.body)| <= n
    ensures var choice := FirstStringMember(members, set k | k in keys, |before| + 1 + |lead|);
            && Final(keys, START, fragments) == State(Concat(fragments), choice.key, Utf8(choice.body))
            && Deltas(Updates(keys, START, fragments)) == Utf8(choice.body)
  {
    hide FirstStringMember, Utf8, BodyText, Document, Final, Deltas, Updates, WellFormed, Unobstructed, FindFrom,
      ScanString, At, LegalBody, Extract;
    var allowed := set k | k in keys;
    var choice := FirstStringMember(members, allowed, |before| + 1 + |lead|);
    var raw := Document(before, lead, members, after);
    var whole := choice.start + |BodyText(choice.body)|;
    SearchFindsFirstStringMember(before, lead, members, after, allowed);
    ChosenStands(before, lead, members, after, allowed);
    WholeBodyThere(raw, choice.start, choice.body);
    BeginningHasKey(before, lead, members, after, allowed, whole, choice.key, choice.start);
    assert raw[..whole] + raw[whole..n] == raw[..n] && raw[..n] + raw[n..] == raw;
    ExtractStable(raw[..whole], raw[whole..n], allowed);
    ExtractStable(raw[..n], raw[n..], allowed);
    FragmentationIndependence(keys, fragments);
    DeltaConcatenation(keys, fragments);
  }
}
