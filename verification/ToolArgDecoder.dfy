/** `ToolArgStringDecoder`: the incremental decoder, and what holds over every
    run of `Push`. */
module ToolArgDecoder {
  import opened GoStrings
  import opened ToolArgScanner
  import opened ToolArgStability

  const DEFAULT_KEYS: seq<Bytes> := [Ascii("content"), Ascii("message"), Ascii("text")]

  /** The trimmed non-blank keys, each at its first occurrence. */
  function DistinctKeys(keys: seq<Bytes>): (out: seq<Bytes>)
    ensures [] !in out
  {
    if keys == [] then []
    else
      var before := DistinctKeys(keys[..|keys| - 1]);
      var key := TrimSpace(keys[|keys| - 1]);
      if key == [] || key in before then before else before + [key]
  }

  /** The distinct keys are exactly the non-blank ones, trimmed, each once. */
  lemma {:induction false} DistinctKeysMeaning(keys: seq<Bytes>, key: Bytes)
    ensures key in DistinctKeys(keys) <==> key != [] && exists i :: 0 <= i < |keys| && TrimSpace(keys[i]) == key
    ensures var out := DistinctKeys(keys); forall i, j :: 0 <= i < j < |out| ==> out[i] != out[j]
    decreases |keys|
  {
    hide TrimSpace;
    if keys != [] {
      var n := |keys| - 1;
      DistinctKeysMeaning(keys[..n], key);
      assert forall i :: 0 <= i < n ==> keys[..n][i] == keys[i];
      if exists i :: 0 <= i < n && TrimSpace(keys[..n][i]) == key {
        var i :| 0 <= i < n && TrimSpace(keys[..n][i]) == key;
        assert TrimSpace(keys[i]) == key;
      }
      if exists i :: 0 <= i < |keys| && TrimSpace(keys[i]) == key {
        var i :| 0 <= i < |keys| && TrimSpace(keys[i]) == key;
        assert i < n ==> TrimSpace(keys[..n][i]) == key;
      }
    }
  }

  function NormalizedKeys(keys: seq<Bytes>): (out: seq<Bytes>)
    ensures out != [] && [] !in out
  {
    if DistinctKeys(keys) == [] then DEFAULT_KEYS else DistinctKeys(keys)
  }

  /** `normalizeToolArgStringKeys`. */
  method NormalizeToolArgStringKeys(keys: seq<Bytes>) returns (out: seq<Bytes>)
    ensures out == NormalizedKeys(keys)
  {
    if |keys| == 0 {
      return DEFAULT_KEYS;
    }
    out := [];
    var seen: set<Bytes> := {};
    for n := 0 to |keys|
      invariant out == DistinctKeys(keys[..n])
      invariant seen == set k | k in out
    {
      assert keys[..n + 1][..n] == keys[..n];
      var key := TrimSpace(keys[n]);
      if key == [] {
        continue;
      }
      if key in seen {
        continue;
      }
      seen := seen + {key};
      out := out + [key];
    }
    assert keys[..|keys|] == keys;
    if |out| == 0 {
      out := DEFAULT_KEYS;
    }
  }

  function CommonPrefix(a: Bytes, b: Bytes): (n: nat)
    ensures n <= |a| && n <= |b| && a[..n] == b[..n]
    ensures n < |a| && n < |b| ==> a[n] != b[n]
  {
    if a == [] || b == [] || a[0] != b[0] then 0 else 1 + CommonPrefix(a[1..], b[1..])
  }

  /** `commonPrefixLen`. */
  method CommonPrefixLen(a: Bytes, b: Bytes) returns (i: nat)
    ensures i == CommonPrefix(a, b)
  {
    var limit := if |b| < |a| then |b| else |a|;
    i := 0;
    while i < limit && a[i] == b[i]
      invariant i <= limit
      invariant CommonPrefix(a, b) == i + CommonPrefix(a[i..], b[i..])
    {
      i := i + 1;
    }
  }

  function Delta(previous: Bytes, current: Bytes): Bytes {
    if previous == [] then current
    else if previous <= current then current[|previous|..]
    else current[CommonPrefix(previous, current)..]
  }

  /** `decodedDelta`. */
  method DecodedDelta(previous: Bytes, current: Bytes) returns (delta: Bytes)
    ensures delta == Delta(previous, current)
  {
    if previous == [] {
      return current;
    }
    if previous <= current {
      return current[|previous|..];
    }
    var common := CommonPrefixLen(previous, current);
    if common >= |current| {
      return [];
    }
    return current[common..];
  }

  datatype Update = Update(found: bool, key: Bytes, full: Bytes, delta: Bytes)

  const NO_UPDATE := Update(false, [], [], [])

  /** The state of a decoder: the bytes received, the locked key and the text
      last reported. */
  datatype State = State(raw: Bytes, matchedKey: Bytes, lastFull: Bytes)

  const START := State([], [], [])

  /** One `Push`: until a key is locked every key is searched for, afterwards
      only the locked one. */
  function PushStep(keys: seq<Bytes>, s: State, fragment: Bytes): (State, Update) {
    var raw := s.raw + fragment;
    var field := if s.matchedKey == [] then Extract(raw, set k | k in keys) else Extract(raw, {s.matchedKey});
    match field
    case NoField => (s.(raw := raw), NO_UPDATE)
    case Field(key, full) => (State(raw, key, full), Update(true, key, full, Delta(s.lastFull, full)))
  }

  class ToolArgStringDecoder {
    const keys: seq<Bytes>
    var raw: Bytes
    var matchedKey: Bytes
    var lastFull: Bytes

    function Value(): State
      reads this
    {
      State(raw, matchedKey, lastFull)
    }

    /** `NewToolArgStringDecoder`. */
    constructor (options: seq<Bytes>)
      ensures keys == NormalizedKeys(options) && [] !in keys && Value() == START
    {
      var normalized := NormalizeToolArgStringKeys(options);
      keys := normalized;
      raw, matchedKey, lastFull := [], [], [];
    }

    method Push(partialJSON: Bytes) returns (u: Update)
      requires [] !in keys
      modifies this
      ensures (Value(), u) == PushStep(keys, old(Value()), partialJSON)
    {
      if partialJSON != [] {
        raw := raw + partialJSON;
      }
      assert raw == old(raw) + partialJSON;
      if raw == [] {
        return NO_UPDATE;
      }
      if matchedKey == [] {
        var key, full, found := ExtractFirstRootStringFieldPrefix(raw, keys);
        if !found {
          return NO_UPDATE;
        }
        matchedKey := key;
        var delta := DecodedDelta(lastFull, full);
        lastFull := full;
        return Update(true, key, full, delta);
      }
      var full, found := ExtractRootStringFieldPrefix(raw, matchedKey);
      if !found {
        return NO_UPDATE;
      }
      var delta := DecodedDelta(lastFull, full);
      lastFull := full;
      return Update(true, matchedKey, full, delta);
    }

    method Reset()
      modifies this
      ensures Value() == START
    {
      raw := [];
      matchedKey := [];
      lastFull := [];
    }
  }

  // ---------- whole runs ----------

  /** What a decoder knows after receiving `raw` in one piece. */
  function Batch(keys: seq<Bytes>, raw: Bytes): State {
    match Extract(raw, set k | k in keys)
    case NoField => State(raw, [], [])
    case Field(key, text) => State(raw, key, text)
  }

  /** The state after a run, and what each `Push` of it reported. */
  function Final(keys: seq<Bytes>, s: State, fragments: seq<Bytes>): State
    decreases |fragments|
  {
    if fragments == [] then s else Final(keys, PushStep(keys, s, fragments[0]).0, fragments[1..])
  }

  function Updates(keys: seq<Bytes>, s: State, fragments: seq<Bytes>): (us: seq<Update>)
    ensures |us| == |fragments|
    decreases |fragments|
  {
    if fragments == [] then []
    else
      var (next, u) := PushStep(keys, s, fragments[0]);
      [u] + Updates(keys, next, fragments[1..])
  }

  function Deltas(us: seq<Update>): Bytes {
    if us == [] then [] else us[0].delta + Deltas(us[1..])
  }

  /** One step of a run that has been equivalent to a batch search so far: it
      still is, although only the locked key was searched for; the key does not
      change; the old text is a prefix of the new one, so that the delta is
      exactly the rest of it. */
  lemma {:induction false} PushIsBatch(keys: seq<Bytes>, raw: Bytes, fragment: Bytes)
    requires [] !in keys
    ensures var before, after := Batch(keys, raw), Batch(keys, raw + fragment);
            && PushStep(keys, before, fragment).0 == after
            && before.lastFull <= after.lastFull
            && (before.matchedKey != [] ==> after.matchedKey == before.matchedKey)
            && PushStep(keys, before, fragment).1 ==
               (if after.matchedKey == [] then NO_UPDATE
                else Update(true, after.matchedKey, after.lastFull, after.lastFull[|before.lastFull|..]))
  {
    hide FindFrom, ScanString;
    if Batch(keys, raw).matchedKey != [] {
      ExtractStable(raw, fragment, set k | k in keys);
    }
  }

  lemma {:induction false} RunIsBatch(keys: seq<Bytes>, raw: Bytes, fragments: seq<Bytes>)
    requires [] !in keys
    ensures Final(keys, Batch(keys, raw), fragments) == Batch(keys, raw + Concat(fragments))
    decreases |fragments|
  {
    hide Extract, PushStep, Batch, FindFrom, ScanString;
    if fragments == [] {
      assert raw + [] == raw;
    } else {
      PushIsBatch(keys, raw, fragments[0]);
      RunIsBatch(keys, raw + fragments[0], fragments[1..]);
      assert raw + Concat(fragments) == raw + fragments[0] + Concat(fragments[1..]);
    }
  }

  /** Fragmentation independence: however the bytes are cut into fragments, the
      decoder ends with the key and the text of one batch search over all of them. */
  lemma {:induction false} FragmentationIndependence(keys: seq<Bytes>, fragments: seq<Bytes>)
    requires [] !in keys
    ensures Final(keys, START, fragments) == Batch(keys, Concat(fragments))
  {
    RunIsBatch(keys, [], fragments);
    assert [] + Concat(fragments) == Concat(fragments);
  }

  /** The text reported by any `Push` of a run, and by the state it starts from,
      is a prefix of the text at the end; what was found stays found under the
      same key. */
  lemma {:induction false} RunGrows(keys: seq<Bytes>, raw: Bytes, fragments: seq<Bytes>, i: nat, j: nat)
    requires [] !in keys && i < j < |fragments|
    ensures var us := Updates(keys, Batch(keys, raw), fragments);
            us[i].found ==> us[j].found && us[j].key == us[i].key && us[i].full <= us[j].full
    decreases |fragments|
  {
    hide Extract, PushStep, FindFrom, ScanString;
    PushIsBatch(keys, raw, fragments[0]);
    var next := raw + fragments[0];
    if i > 0 {
      RunGrows(keys, next, fragments[1..], i - 1, j - 1);
    } else if j > 1 {
      PushIsBatch(keys, next, fragments[1]);
      RunGrows(keys, next, fragments[1..], 0, j - 1);
    } else {
      PushIsBatch(keys, next, fragments[1]);
    }
  }

  /** A state that is the batch result for its bytes. */
  predicate Consistent(keys: seq<Bytes>, s: State) {
    s == Batch(keys, s.raw)
  }

  lemma PushAddsDelta(keys: seq<Bytes>, s: State, fragment: Bytes)
    requires [] !in keys && Consistent(keys, s)
    ensures var (after, u) := PushStep(keys, s, fragment);
            Consistent(keys, after) && after.lastFull == s.lastFull + u.delta
  {
    PushIsBatch(keys, s.raw, fragment);
  }

  lemma {:induction false} DeltasFrom(keys: seq<Bytes>, s: State, fragments: seq<Bytes>)
    requires [] !in keys && Consistent(keys, s)
    ensures s.lastFull + Deltas(Updates(keys, s, fragments)) == Final(keys, s, fragments).lastFull
    decreases |fragments|
  {
    hide Extract, PushStep, Batch, FindFrom, ScanString;
    if fragments != [] {
      PushAddsDelta(keys, s, fragments[0]);
      var (after, u) := PushStep(keys, s, fragments[0]);
      DeltasFrom(keys, after, fragments[1..]);
      var rest := Updates(keys, after, fragments[1..]);
      assert Updates(keys, s, fragments)[1..] == rest;
      assert s.lastFull + (u.delta + Deltas(rest)) == (s.lastFull + u.delta) + Deltas(rest);
    }
  }

  /** Delta concatenation: over every run from a fresh decoder, the deltas put
      together are the final text. */
  lemma {:induction false} DeltaConcatenation(keys: seq<Bytes>, fragments: seq<Bytes>)
    requires [] !in keys
    ensures Deltas(Updates(keys, START, fragments)) == Batch(keys, Concat(fragments)).lastFull
  {
    DeltasFrom(keys, START, fragments);
    FragmentationIndependence(keys, fragments);
  }

  /** Reported texts only grow, and found never reverts to not-found. */
  lemma {:induction false} ReportsGrow(keys: seq<Bytes>, fragments: seq<Bytes>, i: nat, j: nat)
    requires [] !in keys && i < j < |fragments|
    ensures var us := Updates(keys, START, fragments);
            us[i].found ==> us[j].found && us[j].key == us[i].key && us[i].full <= us[j].full
  {
    RunGrows(keys, [], fragments, i, j);
  }
}
