/** What reading more bytes can and cannot change: every scanner of the
    tool-argument decoder is monotone under extension of its input. */
module ToolArgStability {
  import opened GoStrings
  import opened Unicode
  import opened ToolArgScanner

  lemma ItemStable(raw: Bytes, more: Bytes, i: nat)
    requires i < |raw| && !NextItem(raw, i).Stuck?
    ensures NextItem(raw + more, i) == NextItem(raw, i)
  {
    var long := raw + more;
    if raw[i] == BACKSLASH && i + 1 < |raw| && ShortEscape(raw[i + 1]) < 0 {
      assert long[i + 2..i + 6] == raw[i + 2..i + 6];
      if i + 11 < |raw| {
        assert long[i + 8..i + 12] == raw[i + 8..i + 12];
      }
    }
  }

  /** Decoding an open string is monotone: more input only extends the text, and
      a string that is complete stays what it is. */
  lemma {:induction false} ScanStable(raw: Bytes, more: Bytes, i: nat)
    requires i <= |raw|
    ensures ScanString(raw, i).text <= ScanString(raw + more, i).text
    ensures ScanString(raw, i).complete ==> ScanString(raw + more, i) == ScanString(raw, i)
    decreases |raw| - i
  {
    hide NextItem;
    if i < |raw| && !NextItem(raw, i).Stuck? {
      ItemStable(raw, more, i);
      if NextItem(raw, i).Piece? {
        ScanStable(raw, more, i + NextItem(raw, i).width);
      }
    }
  }

  lemma ItemShift(raw: Bytes, v: nat, i: nat)
    requires v + i < |raw|
    ensures NextItem(raw[v..], i) == NextItem(raw, v + i)
  {
    var tail := raw[v..];
    if i + 5 < |tail| {
      assert tail[i + 2..i + 6] == raw[v + i + 2..v + i + 6];
    }
    if i + 11 < |tail| {
      assert tail[i + 8..i + 12] == raw[v + i + 8..v + i + 12];
    }
  }

  /** Decoding a slice is decoding in place. */
  lemma {:induction false} ScanShift(raw: Bytes, v: nat, i: nat)
    requires v + i <= |raw|
    ensures ScanString(raw[v..], i).text == ScanString(raw, v + i).text
    decreases |raw| - i
  {
    hide NextItem;
    var tail := raw[v..];
    if i < |tail| {
      ItemShift(raw, v, i);
      var item := NextItem(tail, i);
      if item.Piece? {
        ScanShift(raw, v, i + item.width);
        assert ScanString(tail, i).text == item.text + ScanString(tail, i + item.width).text;
      } else {
        assert ScanString(tail, i).text == [];
      }
    }
  }

  lemma SkipStable(raw: Bytes, more: Bytes, pos: nat)
    requires pos <= |raw|
    ensures SkipFrom(raw, pos) < |raw| ==> SkipFrom(raw + more, pos) == SkipFrom(raw, pos)
    decreases |raw| - pos
  {
    if pos < |raw| && IsJSONWhitespace(raw[pos]) {
      SkipStable(raw, more, pos + 1);
    }
  }

  lemma {:induction false} OnlyWhitespaceLeft(raw: Bytes, allowed: set<Bytes>, i: nat, depth: nat)
    requires i <= |raw| && SkipFrom(raw, i) == |raw|
    ensures FindFrom(raw, allowed, i, depth) == NotFound
    decreases |raw| - i
  {
    if i < |raw| {
      OnlyWhitespaceLeft(raw, allowed, i + 1, depth);
    }
  }

  /** A field that has been found is found at the same place in every extension. */
  lemma {:induction false} HitStable(raw: Bytes, more: Bytes, allowed: set<Bytes>, i: nat, depth: nat)
    requires i <= |raw|
    requires FindFrom(raw, allowed, i, depth).Found?
    ensures FindFrom(raw + more, allowed, i, depth) == FindFrom(raw, allowed, i, depth)
    decreases |raw| - i
  {
    hide ScanString, SkipFrom;
    if raw[i] == QUOTE {
      ScanStable(raw, more, i + 1);
      var token := ScanString(raw, i + 1);
      if depth != 1 {
        HitStable(raw, more, allowed, token.end, depth);
      } else {
        var j := SkipFrom(raw, token.end);
        SkipStable(raw, more, token.end);
        if j == |raw| {
          OnlyWhitespaceLeft(raw, allowed, token.end, depth);
          assert false;
        }
        if raw[j] == COLON {
          SkipStable(raw, more, j + 1);
        }
        if Classify(raw, token.text, token.end, allowed).Pass? {
          HitStable(raw, more, allowed, token.end, depth);
        }
      }
    } else if raw[i] == LBRACE || raw[i] == LBRACKET {
      HitStable(raw, more, allowed, i + 1, depth + 1);
    } else if raw[i] == RBRACE || raw[i] == RBRACKET {
      HitStable(raw, more, allowed, i + 1, if depth > 0 then depth - 1 else 0);
    } else {
      HitStable(raw, more, allowed, i + 1, depth);
    }
  }

  /** A field that has been found is found at the same place once its key is the
      only one allowed. */
  lemma {:induction false} HitSurvivesLocking(raw: Bytes, allowed: set<Bytes>, key: Bytes, i: nat, depth: nat)
    requires i <= |raw|
    requires FindFrom(raw, allowed, i, depth).Found? && FindFrom(raw, allowed, i, depth).key == key
    ensures FindFrom(raw, {key}, i, depth) == FindFrom(raw, allowed, i, depth)
    decreases |raw| - i
  {
    hide ScanString, SkipFrom;
    if raw[i] == QUOTE {
      var token := ScanString(raw, i + 1);
      if depth != 1 || Classify(raw, token.text, token.end, allowed).Pass? {
        HitSurvivesLocking(raw, allowed, key, token.end, depth);
      }
    } else if raw[i] == LBRACE || raw[i] == LBRACKET {
      HitSurvivesLocking(raw, allowed, key, i + 1, depth + 1);
    } else if raw[i] == RBRACE || raw[i] == RBRACKET {
      HitSurvivesLocking(raw, allowed, key, i + 1, if depth > 0 then depth - 1 else 0);
    } else {
      HitSurvivesLocking(raw, allowed, key, i + 1, depth);
    }
  }

  /** Once a field has been extracted, every extension of the input yields the
      same key and a text that extends the old one, with all keys allowed as
      well as with only the found key allowed. */
  lemma {:induction false} ExtractStable(raw: Bytes, more: Bytes, allowed: set<Bytes>)
    requires Extract(raw, allowed).Field?
    ensures var before, after := Extract(raw, allowed), Extract(raw + more, allowed);
            && after.Field? && after.key == before.key && before.text <= after.text
            && Extract(raw + more, {before.key}) == after
  {
    HitStable(raw, more, allowed, 0, 0);
    var hit := FindFrom(raw, allowed, 0, 0);
    HitSurvivesLocking(raw + more, allowed, hit.key, 0, 0);
    ScanStable(raw[hit.start..], more, 0);
    assert (raw + more)[hit.start..] == raw[hit.start..] + more;
  }
}
