/** Line ends: what normalizing a stream piece by piece keeps of it. */
module LineEnds {
  import opened GoStrings

  predicate CRLFAt(s: Bytes, k: nat) {
    k + 1 < |s| && s[k] == CR && s[k + 1] == LF
  }

  predicate CRCRLFAt(s: Bytes, k: nat) {
    k + 2 < |s| && s[k] == CR && s[k + 1] == CR && s[k + 2] == LF
  }

  ghost predicate NoCRLF(s: Bytes) {
    forall k: nat :: !CRLFAt(s, k)
  }

  ghost predicate NoCRCRLF(s: Bytes) {
    forall k: nat :: !CRCRLFAt(s, k)
  }

  lemma SuffixHasNone(s: Bytes, n: nat)
    requires n <= |s|
    ensures NoCRLF(s) ==> NoCRLF(s[n..])
    ensures NoCRCRLF(s) ==> NoCRCRLF(s[n..])
  {
    forall k: nat
      ensures CRLFAt(s[n..], k) ==> CRLFAt(s, n + k)
      ensures CRCRLFAt(s[n..], k) ==> CRCRLFAt(s, n + k)
    {
    }
  }

  lemma PrefixHasNone(a: Bytes, b: Bytes)
    ensures NoCRLF(a + b) ==> NoCRLF(a)
    ensures NoCRCRLF(a + b) ==> NoCRCRLF(a)
  {
    forall k: nat
      ensures CRLFAt(a, k) ==> CRLFAt(a + b, k)
      ensures CRCRLFAt(a, k) ==> CRCRLFAt(a + b, k)
    {
    }
  }

  // ---------- line-end normalization ----------

  lemma {:induction false} NormalizeFixes(s: Bytes)
    requires NoCRLF(s)
    ensures Normalize(s) == s
    decreases |s|
  {
    if s != [] {
      SuffixHasNone(s, 1);
      assert !CRLFAt(s, 0);
      NormalizeFixes(s[1..]);
    }
  }

  lemma NormalizeOne(b: Byte, s: Bytes)
    requires !CRLFAt([b] + s, 0)
    ensures Normalize([b] + s) == [b] + Normalize(s)
  {
    assert ([b] + s)[1..] == s;
  }

  lemma NormalizePair(s: Bytes)
    ensures Normalize([CR, LF] + s) == [LF] + Normalize(s)
  {
    assert ([CR, LF] + s)[2..] == s;
  }

  lemma NormalizedHead(s: Bytes)
    requires s != []
    ensures Normalize(s) != [] && Normalize(s)[0] == (if CRLFAt(s, 0) then LF else s[0])
  {
  }

  /** Normalizing what has been received, then appending and normalizing again, is
      normalizing everything at once. */
  lemma {:induction false} NormalizeIncrementally(a: Bytes, b: Bytes)
    requires NoCRCRLF(a + b)
    ensures Normalize(Normalize(a) + b) == Normalize(a + b)
    decreases |a|
  {
    hide Normalize;
    var ab := a + b;
    if a == [] {
      assert Normalize(a) == [] by { NormalizeFixes(a); }
      assert Normalize(a) + b == b == ab;
    } else if CRLFAt(a, 0) {
      var rest := a[2..];
      SuffixHasNone(ab, 2);
      assert ab[2..] == rest + b;
      NormalizeIncrementally(rest, b);
      assert a == [CR, LF] + rest && ab == [CR, LF] + (rest + b);
      NormalizePair(rest);
      NormalizePair(rest + b);
      NormalizeOne(LF, Normalize(rest) + b);
      assert Normalize(a) + b == [LF] + (Normalize(rest) + b);
    } else if |a| == 1 {
      assert Normalize(a) == a by { NormalizeFixes(a); }
    } else {
      var rest := a[1..];
      assert !CRCRLFAt(ab, 0);
      SuffixHasNone(ab, 1);
      assert ab[1..] == rest + b;
      NormalizeIncrementally(rest, b);
      assert a == [a[0]] + rest && ab == [a[0]] + (rest + b);
      NormalizedHead(rest);
      NormalizeOne(a[0], rest);
      NormalizeOne(a[0], rest + b);
      NormalizeOne(a[0], Normalize(rest) + b);
      assert Normalize(a) + b == [a[0]] + (Normalize(rest) + b);
    }
  }

  // ---------- normalizing twice ----------

  lemma {:induction false} NormalizeConcat(x: Bytes, y: Bytes)
    requires x == [] || y == [] || x[|x| - 1] != CR || y[0] != LF
    ensures Normalize(x + y) == Normalize(x) + Normalize(y)
    decreases |x|
  {
    hide Normalize;
    if x == [] {
      NormalizeFixes(x);
      assert x + y == y;
    } else if CRLFAt(x, 0) {
      var rest := x[2..];
      NormalizeConcat(rest, y);
      assert x == [CR, LF] + rest && x + y == [CR, LF] + (rest + y);
      NormalizePair(rest);
      NormalizePair(rest + y);
    } else {
      var rest := x[1..];
      NormalizeConcat(rest, y);
      assert x == [x[0]] + rest && x + y == [x[0]] + (rest + y);
      NormalizeOne(x[0], rest);
      NormalizeOne(x[0], rest + y);
    }
  }

  lemma NormalizeShrinks(s: Bytes)
    ensures |Normalize(s)| <= |s|
  {
  }

  lemma NormalizedCRCRLF(p: Bytes)
    ensures Normalize(p + [CR, CR, LF]) == Normalize(p) + [CR, LF]
  {
    hide Normalize;
    NormalizeConcat(p, [CR, CR, LF]);
    NormalizeOne(CR, [CR, LF]);
    NormalizePair([]);
    assert [CR] + [CR, LF] == [CR, CR, LF] && [CR, LF] + [] == [CR, LF];
    NormalizeFixes([]);
  }

  lemma CutAfterCRCRLF(p: Bytes, b: Bytes)
    ensures Normalize(Normalize(p + [CR, CR, LF]) + b) != Normalize(p + [CR, CR, LF] + b)
  {
    hide Normalize;
    var a := p + [CR, CR, LF];
    var q := Normalize(p);
    NormalizeConcat(a, b);
    NormalizedCRCRLF(p);
    assert Normalize(a) == q + [CR, LF];
    assert Normalize(a) + b == q + ([CR, LF] + b);
    NormalizeConcat(q, [CR, LF] + b);
    NormalizePair(b);
    NormalizeShrinks(q);
  }

  /** Exactly the streams without CR CR LF can be cut anywhere without the second
      normalization of the buffered text changing the text: elsewhere a cut behind
      CR CR LF turns the CR LF that the first normalization left into a line end. */
  lemma {:induction false} RenormalizingKeepsTextIff(t: Bytes)
    ensures NoCRCRLF(t) <==> forall a, b | a + b == t :: Normalize(Normalize(a) + b) == Normalize(t)
  {
    if NoCRCRLF(t) {
      forall a, b | a + b == t
        ensures Normalize(Normalize(a) + b) == Normalize(t)
      {
        NormalizeIncrementally(a, b);
      }
    } else {
      var k: nat :| CRCRLFAt(t, k);
      var a, b := t[..k + 3], t[k + 3..];
      assert a == t[..k] + [CR, CR, LF] && a + b == t;
      CutAfterCRCRLF(t[..k], b);
    }
  }

  // ---------- carriage returns before line ends ----------

  /** The text without the carriage returns that stand before line ends. */
  function Collapse(s: Bytes): Bytes {
    if s == [] then []
    else var r := Collapse(s[1..]); if s[0] == CR && r != [] && r[0] == LF then r else [s[0]] + r
  }

  /** Any number of carriage returns and then a line feed. */
  predicate EndsLine(s: Bytes) {
    s != [] && (s[0] == LF || (s[0] == CR && EndsLine(s[1..])))
  }

  /** No line consists of two or more carriage returns and nothing else; `start`
      says whether `s` begins at the start of a line. */
  predicate NoCRLine(s: Bytes, start: bool) {
    s != [] ==> !(start && |s| >= 2 && s[0] == CR && s[1] == CR && EndsLine(s)) && NoCRLine(s[1..], s[0] == LF)
  }

  /** Every such line ends in CR CR LF. */
  lemma {:induction false} CRLineHasCRCRLF(s: Bytes)
    requires |s| >= 2 && s[0] == CR && s[1] == CR && EndsLine(s)
    ensures !NoCRCRLF(s)
    decreases |s|
  {
    var rest := s[1..];
    assert EndsLine(rest) && rest[0] == CR && EndsLine(rest[1..]);
    assert rest[1] == s[2] && rest[1..][0] == s[2];
    if s[2] == LF {
      assert CRCRLFAt(s, 0);
    } else {
      CRLineHasCRCRLF(s[1..]);
      SuffixHasNone(s, 1);
    }
  }

  lemma {:induction false} NoCRCRLFHasNoCRLine(s: Bytes, start: bool)
    requires NoCRCRLF(s)
    ensures NoCRLine(s, start)
    decreases |s|
  {
    if s != [] {
      SuffixHasNone(s, 1);
      NoCRCRLFHasNoCRLine(s[1..], s[0] == LF);
      if |s| >= 2 && s[0] == CR && s[1] == CR && EndsLine(s) {
        CRLineHasCRCRLF(s);
      }
    }
  }

  /** No line consists of carriage returns and nothing else. */
  predicate NoBlankCR(s: Bytes, start: bool) {
    s != [] ==> !(start && s[0] == CR && EndsLine(s)) && NoBlankCR(s[1..], s[0] == LF)
  }

  lemma Cons(b: Byte, s: Bytes)
    ensures ([b] + s)[0] == b && ([b] + s)[1..] == s
  {
  }

  lemma CollapseOne(b: Byte, s: Bytes)
    ensures Collapse([b] + s) ==
            var r := Collapse(s); if b == CR && r != [] && r[0] == LF then r else [b] + r
  {
    Cons(b, s);
  }

  lemma {:induction false} CollapseConcat(a: Bytes, b: Bytes)
    ensures Collapse(Collapse(a) + b) == Collapse(a + b)
    decreases |a|
  {
    hide Collapse;
    if a == [] {
      assert Collapse(a) == [] by { CollapseNothing(); }
      assert [] + b == b;
    } else {
      var c, rest := a[0], a[1..];
      CollapseConcat(rest, b);
      assert a == [c] + rest && a + b == [c] + (rest + b);
      CollapseOne(c, rest);
      CollapseOne(c, rest + b);
      CollapseOne(c, Collapse(rest) + b);
      var r := Collapse(rest);
      if c == CR && r != [] && r[0] == LF {
        assert r + b == [LF] + (r[1..] + b);
        CollapseOne(LF, r[1..] + b);
      } else {
        assert Collapse(a) + b == [c] + (r + b);
      }
    }
  }

  lemma CollapseNothing()
    ensures Collapse([]) == []
  {
  }

  /** Normalizing is the beginning of collapsing. */
  lemma {:induction false} CollapseNormalized(s: Bytes)
    ensures Collapse(Normalize(s)) == Collapse(s)
    decreases |s|
  {
    hide Collapse, Normalize;
    if s == [] {
      NormalizeFixes(s);
    } else if CRLFAt(s, 0) {
      var rest := s[2..];
      CollapseNormalized(rest);
      assert s == [CR, LF] + rest && s == [CR] + ([LF] + rest);
      NormalizePair(rest);
      CollapseOne(LF, Normalize(rest));
      CollapseOne(LF, rest);
      CollapseOne(CR, [LF] + rest);
    } else {
      var rest := s[1..];
      CollapseNormalized(rest);
      assert s == [s[0]] + rest;
      NormalizeOne(s[0], rest);
      CollapseOne(s[0], rest);
      CollapseOne(s[0], Normalize(rest));
    }
  }

  /** Whole collapsed lines stay as they are. */
  lemma {:induction false} CollapseAfter(done: Bytes, y: Bytes)
    requires NoCRLF(done) && (done == [] || done[|done| - 1] == LF)
    ensures Collapse(done + y) == done + Collapse(y)
    decreases |done|
  {
    hide Collapse;
    if done == [] {
      assert done + y == y && done + Collapse(y) == Collapse(y);
    } else {
      var rest := done[1..];
      SuffixHasNone(done, 1);
      assert !CRLFAt(done, 0);
      CollapseAfter(rest, y);
      assert done == [done[0]] + rest && done + y == [done[0]] + (rest + y);
      CollapseOne(done[0], rest + y);
    }
  }

  lemma {:induction false} CollapseWhole(cc: Bytes, y: Bytes)
    requires cc == [] || cc[|cc| - 1] == LF
    ensures Collapse(cc + y) == Collapse(cc) + Collapse(y)
    ensures var c := Collapse(cc); NoCRLF(c) && (c == [] || c[|c| - 1] == LF) && (c == [] <==> cc == [])
    decreases |cc|
  {
    hide Collapse;
    if cc == [] {
      CollapseNothing();
      assert cc + y == y && [] + Collapse(y) == Collapse(y);
    } else {
      var b, rest := cc[0], cc[1..];
      CollapseWhole(rest, y);
      assert cc == [b] + rest && cc + y == [b] + (rest + y);
      CollapseOne(b, rest);
      CollapseOne(b, rest + y);
      var r := Collapse(rest);
      if rest != [] {
        assert (r + Collapse(y))[0] == r[0];
      }
      forall k: nat
        ensures !CRLFAt([b] + r, k) || (k == 0 && b == CR && r[0] == LF)
      {
        assert k > 0 && CRLFAt([b] + r, k) ==> CRLFAt(r, k - 1);
      }
    }
  }

  lemma {:induction false} EndsLineOfNormalized(a: Bytes, y: Bytes)
    ensures EndsLine(Normalize(a) + y) <==> EndsLine(a + y)
    decreases |a|
  {
    hide Normalize;
    if a == [] {
      NormalizeFixes(a);
      assert Normalize(a) + y == y && a + y == y;
    } else if CRLFAt(a, 0) {
      var rest := a[2..];
      assert a == [CR, LF] + rest;
      NormalizePair(rest);
      assert a + y == [CR] + ([LF] + (rest + y));
      Cons(CR, [LF] + (rest + y));
    } else {
      var rest := a[1..];
      EndsLineOfNormalized(rest, y);
      assert a == [a[0]] + rest && a + y == [a[0]] + (rest + y);
      NormalizeOne(a[0], rest);
      assert Normalize(a) + y == [a[0]] + (Normalize(rest) + y);
      Cons(a[0], rest + y);
      Cons(a[0], Normalize(rest) + y);
    }
  }

  lemma CRLineOne(b: Byte, s: Bytes, start: bool)
    ensures NoCRLine([b] + s, start) <==>
              !(start && b == CR && s != [] && s[0] == CR && EndsLine(s)) && NoCRLine(s, b == LF)
  {
    Cons(b, s);
    assert EndsLine([b] + s) <==> b == LF || (b == CR && EndsLine(s));
  }

  /** Normalizing what has been received makes no line of carriage returns. */
  lemma {:induction false} NormalizingMakesNoCRLine(a: Bytes, y: Bytes, start: bool)
    requires NoCRLine(a + y, start)
    ensures NoCRLine(Normalize(a) + y, start)
    decreases |a|
  {
    hide Normalize, NoCRLine, EndsLine;
    if a == [] {
      NormalizeFixes(a);
      assert Normalize(a) + y == a + y;
    } else if CRLFAt(a, 0) {
      var rest := a[2..];
      assert a == [CR, LF] + rest;
      NormalizePair(rest);
      assert a + y == [CR] + ([LF] + (rest + y));
      CRLineOne(CR, [LF] + (rest + y), start);
      CRLineOne(LF, rest + y, false);
      NormalizingMakesNoCRLine(rest, y, true);
      assert Normalize(a) + y == [LF] + (Normalize(rest) + y);
      CRLineOne(LF, Normalize(rest) + y, start);
    } else {
      var b, rest := a[0], a[1..];
      assert a == [b] + rest && a + y == [b] + (rest + y);
      CRLineOne(b, rest + y, start);
      NormalizeOne(b, rest);
      NormalizingMakesNoCRLine(rest, y, b == LF);
      assert Normalize(a) + y == [b] + (Normalize(rest) + y);
      CRLineOne(b, Normalize(rest) + y, start);
      EndsLineOfNormalized(rest, y);
      if rest != [] {
        NormalizedHead(rest);
      } else {
        NormalizeFixes(rest);
      }
    }
  }

  lemma BlankCROne(b: Byte, s: Bytes, start: bool)
    ensures NoBlankCR([b] + s, start) <==> !(start && b == CR && EndsLine(s)) && NoBlankCR(s, b == LF)
  {
    Cons(b, s);
    assert EndsLine([b] + s) <==> b == LF || (b == CR && EndsLine(s));
  }

  /** In a normalized text the remaining lines of carriage returns are blank. */
  lemma {:induction false} NormalizedHasNoBlankCR(s: Bytes, start: bool)
    requires NoCRLine(s, start)
    ensures NoBlankCR(Normalize(s), start)
    decreases |s|
  {
    hide Normalize, NoCRLine, NoBlankCR;
    if s == [] {
      NormalizeFixes(s);
      assert NoBlankCR([], start) by { NothingIsBlank(start); }
    } else if CRLFAt(s, 0) {
      var rest := s[2..];
      assert s == [CR, LF] + rest && s == [CR] + ([LF] + rest);
      NormalizePair(rest);
      CRLineOne(CR, [LF] + rest, start);
      CRLineOne(LF, rest, false);
      NormalizedHasNoBlankCR(rest, true);
      BlankCROne(LF, Normalize(rest), start);
    } else {
      var b, rest := s[0], s[1..];
      assert s == [b] + rest;
      CRLineOne(b, rest, start);
      NormalizeOne(b, rest);
      NormalizedHasNoBlankCR(rest, b == LF);
      BlankCROne(b, Normalize(rest), start);
      EndsLineOfNormalized(rest, []);
      assert Normalize(rest) + [] == Normalize(rest) && rest + [] == rest;
    }
  }

  lemma NothingIsBlank(start: bool)
    ensures NoBlankCR([], start)
  {
  }

  lemma {:induction false} EndsLineStays(a: Bytes, y: Bytes)
    requires EndsLine(a)
    ensures EndsLine(a + y)
    decreases |a|
  {
    if a[0] == CR {
      EndsLineStays(a[1..], y);
      assert (a + y)[1..] == a[1..] + y;
    }
  }

  lemma {:induction false} CRLinePrefix(a: Bytes, y: Bytes, start: bool)
    requires NoCRLine(a + y, start)
    ensures NoCRLine(a, start)
    decreases |a|
  {
    if a != [] {
      assert (a + y)[1..] == a[1..] + y;
      CRLinePrefix(a[1..], y, a[0] == LF);
      if EndsLine(a) {
        EndsLineStays(a, y);
      }
    }
  }

  lemma {:induction false} CRLineSuffix(a: Bytes, y: Bytes, start: bool)
    requires NoCRLine(a + y, start) && (a == [] || a[|a| - 1] == LF)
    ensures NoCRLine(y, if a == [] then start else true)
    decreases |a|
  {
    if a == [] {
      assert a + y == y;
    } else {
      assert (a + y)[1..] == a[1..] + y;
      CRLineSuffix(a[1..], y, a[0] == LF);
    }
  }

  lemma {:induction false} BlankCRPrefix(a: Bytes, y: Bytes, start: bool)
    requires NoBlankCR(a + y, start)
    ensures NoBlankCR(a, start)
    decreases |a|
  {
    if a != [] {
      assert (a + y)[1..] == a[1..] + y;
      BlankCRPrefix(a[1..], y, a[0] == LF);
      if EndsLine(a) {
        EndsLineStays(a, y);
      }
    }
  }

  lemma {:induction false} CollapsedHead(s: Bytes)
    ensures EndsLine(s) <==> (Collapse(s) != [] && Collapse(s)[0] == LF)
    decreases |s|
  {
    if s != [] {
      CollapsedHead(s[1..]);
    }
  }
}
