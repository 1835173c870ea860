/** What `strings.TrimSpace` does around letters and line ends. */
module Trimming {
  import opened GoStrings

  // ---------- letters ----------

  lemma LettersAreNotSpace(r: Bytes)
    requires r != [] && (97 <= r[0] <= 122 || 97 <= r[|r| - 1] <= 122)
    ensures !IsSpaceRune(r)
  {
  }

  lemma LettersAreNotSpaceAround(s: Bytes, k: nat)
    requires s != [] && k > 0
    ensures 97 <= s[0] <= 122 ==> !SpaceAhead(s, k)
    ensures 97 <= s[|s| - 1] <= 122 ==> !SpaceBehind(s, k)
  {
    hide IsSpaceRune;
    if k <= |s| && 97 <= s[0] <= 122 {
      LettersAreNotSpace(s[..k]);
    }
    if k <= |s| && 97 <= s[|s| - 1] <= 122 {
      LettersAreNotSpace(s[|s| - k..]);
    }
  }

  /** A text between letters is not trimmed. */
  lemma NothingToTrim(s: Bytes)
    requires s != [] && 97 <= s[0] <= 122 && 97 <= s[|s| - 1] <= 122
    ensures TrimSpace(s) == s
  {
    hide SpaceAhead, SpaceBehind;
    LettersAreNotSpaceAround(s, 1);
    LettersAreNotSpaceAround(s, 2);
    LettersAreNotSpaceAround(s, 3);
  }

  // ---------- line ends ----------

  predicate LineEnd(b: Byte) { b == CR || b == LF }

  lemma LineEndsAreSingle(r: Bytes, k: nat)
    requires k < |r| && LineEnd(r[k])
    ensures IsSpaceRune(r) <==> |r| == 1
  {
  }

  lemma HeadAcross(a: Bytes, x: Bytes, k: nat)
    requires a != [] && x != [] && LineEnd(x[0]) && k > 0
    ensures SpaceAhead(a + x, k) <==> SpaceAhead(a, k)
  {
    hide IsSpaceRune;
    if k <= |a + x| {
      var head := (a + x)[..k];
      if k <= |a| {
        assert head == a[..k];
      } else {
        assert head[|a|] == x[0];
        LineEndsAreSingle(head, |a|);
      }
    }
  }

  lemma TailAcross(x: Bytes, b: Bytes, k: nat)
    requires b != [] && x != [] && LineEnd(x[|x| - 1]) && k > 0
    ensures SpaceBehind(x + b, k) <==> SpaceBehind(b, k)
  {
    hide IsSpaceRune;
    if k <= |x + b| {
      var tail := (x + b)[|x + b| - k..];
      if k <= |b| {
        assert tail == b[|b| - k..];
      } else {
        assert tail[k - 1 - |b|] == x[|x| - 1];
        LineEndsAreSingle(tail, k - 1 - |b|);
      }
    }
  }

  lemma LeadSpaceBefore(a: Bytes, x: Bytes)
    requires a != [] && x != [] && LineEnd(x[0])
    ensures LeadSpace(a + x) == LeadSpace(a)
  {
    hide SpaceAhead;
    HeadAcross(a, x, 1);
    HeadAcross(a, x, 2);
    HeadAcross(a, x, 3);
  }

  lemma TrailSpaceBehind(x: Bytes, b: Bytes)
    requires b != [] && x != [] && LineEnd(x[|x| - 1])
    ensures TrailSpace(x + b) == TrailSpace(b)
  {
    hide SpaceBehind;
    TailAcross(x, b, 1);
    TailAcross(x, b, 2);
    TailAcross(x, b, 3);
  }

  lemma {:induction false} TrimLeftBefore(a: Bytes, x: Bytes)
    requires x != [] && LineEnd(x[0])
    ensures TrimLeft(a + x) == if TrimLeft(a) == [] then TrimLeft(x) else TrimLeft(a) + x
    decreases |a|
  {
    hide LeadSpace;
    if a == [] {
      assert a + x == x;
    } else {
      LeadSpaceBefore(a, x);
      var n := LeadSpace(a);
      if n > 0 {
        assert (a + x)[n..] == a[n..] + x;
        TrimLeftBefore(a[n..], x);
      }
    }
  }

  lemma {:induction false} TrimRightBehind(x: Bytes, b: Bytes)
    requires x != [] && LineEnd(x[|x| - 1])
    ensures TrimRight(x + b) == if TrimRight(b) == [] then TrimRight(x) else x + TrimRight(b)
    decreases |b|
  {
    hide TrailSpace;
    if b == [] {
      assert x + b == x;
    } else {
      TrailSpaceBehind(x, b);
      var n := TrailSpace(b);
      if n > 0 {
        assert (x + b)[..|x + b| - n] == x + b[..|b| - n];
        TrimRightBehind(x, b[..|b| - n]);
      }
    }
  }

  lemma TrimsLineEnd(b: Byte, s: Bytes)
    requires LineEnd(b)
    ensures TrimLeft([b] + s) == TrimLeft(s) && TrimRight(s + [b]) == TrimRight(s)
  {
    var l, r := [b] + s, s + [b];
    assert l[..1] == [b] && l[1..] == s;
    assert r[|r| - 1..] == [b] && r[..|r| - 1] == s;
    assert LeadSpace(l) == 1 && TrailSpace(r) == 1;
    hide LeadSpace, TrailSpace;
  }

  lemma TrimsNothing()
    ensures TrimLeft([]) == []
  {
  }

  lemma TrimDropsLastCR(a: Bytes)
    ensures TrimSpace(a + [CR]) == TrimSpace(a)
  {
    hide TrimLeft, TrimRight;
    TrimLeftBefore(a, [CR]);
    TrimsLineEnd(CR, TrimLeft(a));
    TrimsLineEnd(CR, []);
    var cr: Bytes := [CR];
    assert cr + [] == cr;
    assert TrimLeft([]) == [] by { TrimsNothing(); }
  }

  /** A carriage return before a line feed either is trimmed or stays between what
      is left on both sides. */
  lemma TrimAroundLineEnd(a: Bytes, b: Bytes) returns (before: Bytes, after: Bytes)
    ensures before == [] ==> TrimSpace(a + [CR, LF] + b) == TrimSpace(a + [LF] + b)
    ensures before != [] ==>
              TrimSpace(a + [CR, LF] + b) == before + [CR, LF] + after
              && TrimSpace(a + [LF] + b) == before + [LF] + after
  {
    hide TrimLeft, TrimRight;
    var x, y: Bytes := [CR, LF], [LF];
    var l := TrimLeft(a);
    assert a + x + b == a + (x + b) && a + y + b == a + (y + b);
    TrimLeftBefore(a, x + b);
    TrimLeftBefore(a, y + b);
    if l == [] {
      assert x + b == [CR] + ([LF] + b);
      TrimsLineEnd(CR, [LF] + b);
      return [], [];
    }
    assert l + (x + b) == (l + x) + b && l + (y + b) == (l + y) + b;
    TrimRightBehind(l + x, b);
    TrimRightBehind(l + y, b);
    if TrimRight(b) == [] {
      assert l + x == (l + [CR]) + [LF];
      TrimsLineEnd(LF, l + [CR]);
      TrimsLineEnd(CR, l);
      TrimsLineEnd(LF, l);
      return [], [];
    }
    return l, TrimRight(b);
  }
}
