/**
 * Chunk-safe restore: holding back a tail of `TAIL_LEN` characters makes restoring a stream piece by piece the
 * same as restoring the whole text at once (deploy/litellm/klai_pii_text_masking.py, klai_pii_enforce.py).
 */
module StreamRestore {
  import opened Sequences
  import opened Strings
  import opened Placeholders

  // '<' + longest entity name ("EMAIL_ADDRESS") + '_' + four digits + '>'
  const MAX_ENTITY_NAME_LEN := |"EMAIL_ADDRESS"|
  const MAX_INSTANCE_DIGITS := 4
  const TAIL_LEN: nat := 1 + MAX_ENTITY_NAME_LEN + 1 + MAX_INSTANCE_DIGITS + 1

  /** `split_safe_tail`: what may be emitted now, and what is held back for the next chunk. */
  function SplitSafeTail(buffer: string, restoreMap: map<string, string>, neverRestore: set<string>)
    : (r: (string, string))
    ensures r.0 + r.1 == Restore(buffer, restoreMap, neverRestore)
    ensures r.0 != "" ==> |r.1| == TAIL_LEN
    ensures r.0 == "" ==> |r.1| <= TAIL_LEN
    ensures |r.1| >= TAIL_LEN <==> |Restore(buffer, restoreMap, neverRestore)| >= TAIL_LEN
  {
    if buffer == "" then ("", buffer)
    else
      var restored := Restore(buffer, restoreMap, neverRestore);
      if |restored| <= TAIL_LEN then ("", restored)
      else
        var cut := |restored| - TAIL_LEN;
        (restored[..cut], restored[cut..])
  }

  /** A short buffer is held whole, and it is shorter than the tail. */
  lemma ShortBufferHoldsLess(restoreMap: map<string, string>, neverRestore: set<string>)
    ensures SplitSafeTail("x", restoreMap, neverRestore) == ("", "x") && |"x"| < TAIL_LEN
  {
    assert IndexOf("x", '>') < 0 && TokenLength("x") == 0;
    assert "x"[1..] == "" && Restore("", restoreMap, neverRestore) == "";
    assert Restore("x", restoreMap, neverRestore) == "x";
  }

  /** What a stream has emitted and still holds after `chunks`. */
  function StreamState(chunks: seq<string>, restoreMap: map<string, string>, neverRestore: set<string>)
    : (string, string)
  {
    if chunks == [] then ("", "")
    else
      var (emitted, held) := StreamState(chunks[..|chunks| - 1], restoreMap, neverRestore);
      var (safe, rest) := SplitSafeTail(held + chunks[|chunks| - 1], restoreMap, neverRestore);
      (emitted + safe, rest)
  }

  /** What the reader has after the stream ended: everything emitted, and the leftover restored and flushed. */
  function StreamOutput(chunks: seq<string>, restoreMap: map<string, string>, neverRestore: set<string>): string {
    var (emitted, held) := StreamState(chunks, restoreMap, neverRestore);
    emitted + Restore(held, restoreMap, neverRestore)
  }

  // ----- When a restored value can take part in a second match

  /** Laid over each other with `k` starting at position `d` of `v`, the two texts agree where both exist. */
  predicate Agree(v: string, k: string, d: int) {
    forall i :: 0 <= i < |v| && 0 <= i - d < |k| ==> v[i] == k[i - d]
  }

  /** Some occurrence of the key `k` could use a character of the value `v`, or swallow an empty `v`. */
  predicate Clashes(v: string, k: string) {
    exists d | -|k| < d < |v| :: Agree(v, k, d)
  }

  ghost predicate Quiet(v: string, live: map<string, string>) {
    forall k :: k in live ==> !Clashes(v, k)
  }

  /** No value of the map can be part of an occurrence of one of its keys. */
  ghost predicate Inert(live: map<string, string>) {
    forall k :: k in live ==> Quiet(live[k], live)
  }

  ghost predicate KeysFit(live: map<string, string>) {
    forall k :: k in live ==> |k| <= TAIL_LEN + 1
  }

  /** A key that starts inside `v` makes the two agree at that offset. */
  lemma KeyInValueClashes(v: string, w: string, i: nat, k: string)
    requires i < |v| && k <= (v + w)[i..]
    requires |k| > 0
    ensures Clashes(v, k)
  {
    forall j | 0 <= j < |v| && 0 <= j - i < |k| ensures v[j] == k[j - i] {
      assert (v + w)[i..][j - i] == (v + w)[j];
    }
    assert Agree(v, k, i);
  }

  /** A key whose end piece `end` lies over the front of `v` makes the two agree at a negative offset. */
  lemma KeyOverValueClashes(v: string, w: string, k: string, end: string)
    requires 0 < |end| < |k| && end == k[|k| - |end|..]
    requires end <= v + w
    ensures Clashes(v, k)
  {
    var d := |end| - |k|;
    forall i | 0 <= i < |v| && 0 <= i - d < |k| ensures v[i] == k[i - d] {
      assert end[i] == (v + w)[i];
    }
    assert Agree(v, k, d);
  }

  lemma NoKeyInValue(v: string, i: nat, w: string, live: map<string, string>)
    requires i < |v| && Shaped(live) && Quiet(v, live)
    ensures forall k :: k in live ==> !(k <= (v + w)[i..])
  {
    forall k | k in live ensures !(k <= (v + w)[i..]) {
      if k <= (v + w)[i..] {
        KeyInValueClashes(v, w, i, k);
      }
    }
  }

  lemma {:induction false} ValueStays(v: string, i: nat, w: string, live: map<string, string>)
    requires i <= |v| && Shaped(live) && Quiet(v, live)
    ensures Replace(v[i..] + w, live) == v[i..] + Replace(w, live)
    decreases |v| - i
  {
    hide Replace, Quiet, Shaped;
    if i == |v| {
      assert v[i..] + w == w && v[i..] + Replace(w, live) == Replace(w, live);
    } else {
      ValueStays(v, i + 1, w, live);
      var rest := v[i + 1..] + w;
      assert v[i..] == [v[i]] + v[i + 1..];
      TailOfCat(v, w, i);
      Associates([v[i]], v[i + 1..], w);
      NoKeyInValue(v, i, w, live);
      ReplaceChar(v[i], rest, live);
      Associates([v[i]], v[i + 1..], Replace(w, live));
    }
  }

  lemma ValueIsCopied(v: string, w: string, live: map<string, string>)
    requires Shaped(live) && Quiet(v, live)
    ensures Replace(v + w, live) == v + Replace(w, live)
  {
    ValueStays(v, 0, w, live);
    assert v[0..] == v;
  }

  lemma PrefixTail(end: string, x: char, s: string)
    requires end != ""
    ensures end <= [x] + s <==> end[0] == x && end[1..] <= s
  {
    assert end == [end[0]] + end[1..];
    assert ([x] + s)[1..] == s;
  }

  /** The end piece of a key that shows up in restored text was there before restoring. */
  lemma {:induction false} KeyEndWasThere(k: string, end: string, t: string, c: string, live: map<string, string>)
    requires Shaped(live) && Inert(live) && k in live
    requires 0 < |end| < |k| && end == k[|k| - |end|..]
    requires end <= Replace(t, live) + c
    ensures end <= t + c
    decreases |t|
  {
    hide Replace, KeyLength;
    ReplaceUnfolds(t, live);
    if t != "" {
      var n := KeyLength(t, live);
      if n > 0 {
        var v, w := live[t[..n]], Replace(t[n..], live) + c;
        Associates(v, Replace(t[n..], live), c);
        KeyOverValueClashes(v, w, k, end);
        assert false;
      } else {
        HeadAndTail(t);
        Associates([t[0]], Replace(t[1..], live), c);
        Associates([t[0]], t[1..], c);
        if |end| > 1 {
          PrefixTail(end, t[0], Replace(t[1..], live) + c);
          KeyEndWasThere(k, end[1..], t[1..], c, live);
        }
        PrefixTail(end, t[0], t[1..] + c);
        PrefixTail(end, t[0], Replace(t[1..], live) + c);
      }
    }
  }

  /** A key that shows up behind the copied character `x` was there before restoring. */
  lemma KeyWasThere(k: string, x: char, t: string, c: string, live: map<string, string>)
    requires Shaped(live) && Inert(live) && k in live
    requires k <= [x] + (Replace(t, live) + c)
    ensures k <= [x] + (t + c)
  {
    assert k[1..] <= Replace(t, live) + c;
    KeyEndWasThere(k, k[1..], t, c, live);
    assert k == [k[0]] + k[1..];
  }

  lemma NoKeysPrepend(p: string, w: string, live: map<string, string>)
    requires NoKeys(w, live)
    requires forall i, k :: 0 <= i < |p| && k in live ==> !(k <= (p + w)[i..])
    ensures NoKeys(p + w, live)
  {
    forall i, k | 0 <= i <= |p + w| && k in live ensures !(k <= (p + w)[i..]) {
      if i >= |p| {
        assert (p + w)[i..] == w[i - |p|..];
      }
    }
  }

  /** No whole key is left in restored text. */
  lemma {:induction false} RestoredHasNoKeys(t: string, live: map<string, string>)
    requires Shaped(live) && Inert(live)
    ensures NoKeys(Replace(t, live), live)
    decreases |t|
  {
    if t != "" {
      var n := KeyLength(t, live);
      if n > 0 {
        var v, w := live[t[..n]], Replace(t[n..], live);
        RestoredHasNoKeys(t[n..], live);
        forall i, k | 0 <= i < |v| && k in live ensures !(k <= (v + w)[i..]) {
          if k <= (v + w)[i..] {
            KeyInValueClashes(v, w, i, k);
          }
        }
        NoKeysPrepend(v, w, live);
      } else {
        var w := Replace(t[1..], live);
        RestoredHasNoKeys(t[1..], live);
        assert t == [t[0]] + (t[1..] + "") && w == w + "";
        forall k | k in live ensures !(k <= [t[0]] + w) {
          if k <= [t[0]] + w {
            KeyWasThere(k, t[0], t[1..], "", live);
            KeyLengthIs(t, live, k);
          }
        }
        assert ([t[0]] + w)[0..] == [t[0]] + w;
        NoKeysPrepend([t[0]], w, live);
      }
    }
  }

  /** Restoring a prefix first does not change what restoring the whole gives. */
  lemma {:induction false} RestoreResumes(t: string, c: string, live: map<string, string>)
    requires Shaped(live) && Inert(live)
    ensures Replace(Replace(t, live) + c, live) == Replace(t + c, live)
    decreases |t|
  {
    hide *;
    var n := KeyLength(t, live);
    if t == "" {
      ReplaceEmpty(live);
      assert "" + c == c;
    } else if n > 0 {
      RestoreResumes(t[n..], c, live);
      ResumeAfterKey(t[..n], t[n..], c, live);
      assert t == t[..n] + t[n..];
      assert t + c == t[..n] + (t[n..] + c);
    } else if KeyLength(t + c, live) > 0 {
      OpenKeyIsUntouched(t, c, live);
    } else {
      RestoreResumes(t[1..], c, live);
      assert t == [t[0]] + t[1..];
      assert t + c == [t[0]] + (t[1..] + c);
      NoKeyAtHead(t, live);
      NoKeyAtHead(t + c, live);
      ResumeAfterChar(t[0], t[1..], c, live);
    }
  }

  lemma ReplaceEmpty(live: map<string, string>)
    ensures Replace("", live) == ""
  {
  }

  lemma NoKeyAtHead(t: string, live: map<string, string>)
    requires Shaped(live) && KeyLength(t, live) == 0
    ensures forall k :: k in live ==> !(k <= t)
  {
    forall k | k in live ensures !(k <= t) {
      if k <= t {
        KeyLengthIs(t, live, k);
      }
    }
  }

  lemma ResumeAfterKey(k: string, t: string, c: string, live: map<string, string>)
    requires Shaped(live) && Inert(live) && k in live
    requires Replace(Replace(t, live) + c, live) == Replace(t + c, live)
    ensures Replace(Replace(k + t, live) + c, live) == Replace(k + (t + c), live)
  {
    hide Replace;
    var v, r := live[k], Replace(t, live);
    calc {
      Replace(Replace(k + t, live) + c, live);
      { ReplaceKey(k, t, live); assert v + r + c == v + (r + c); }
      Replace(v + (r + c), live);
      { ValueIsCopied(v, r + c, live); }
      v + Replace(r + c, live);
      v + Replace(t + c, live);
      { ReplaceKey(k, t + c, live); }
      Replace(k + (t + c), live);
    }
  }

  lemma ResumeAfterChar(x: char, t: string, c: string, live: map<string, string>)
    requires Shaped(live) && Inert(live)
    requires forall k :: k in live ==> !(k <= [x] + t) && !(k <= [x] + (t + c))
    requires Replace(Replace(t, live) + c, live) == Replace(t + c, live)
    ensures Replace(Replace([x] + t, live) + c, live) == Replace([x] + (t + c), live)
  {
    hide Replace;
    var r := Replace(t, live);
    forall k | k in live ensures !(k <= [x] + (r + c)) {
      if k <= [x] + (r + c) {
        KeyWasThere(k, x, t, c, live);
      }
    }
    calc {
      Replace(Replace([x] + t, live) + c, live);
      { ReplaceChar(x, t, live); assert [x] + r + c == [x] + (r + c); }
      Replace([x] + (r + c), live);
      { ReplaceChar(x, r + c, live); }
      [x] + Replace(r + c, live);
      [x] + Replace(t + c, live);
      { ReplaceChar(x, t + c, live); }
      Replace([x] + (t + c), live);
    }
  }

  /** A key that is still open at the end of `t` is untouched by restoring `t`. */
  lemma OpenKeyIsUntouched(t: string, c: string, live: map<string, string>)
    requires Shaped(live) && t != ""
    requires KeyLength(t, live) == 0 && KeyLength(t + c, live) > 0
    ensures Replace(t, live) == t
  {
    var k := (t + c)[..KeyLength(t + c, live)];
    if |k| <= |t| {
      assert t[..|k|] == k;
      KeyLengthIs(t, live, k);
    }
    forall i | 0 < i < |t| ensures t[i] != '<' {
      assert t[i] == k[i];
    }
    ReplaceCopies(t[1..], "", live);
    assert t[1..] + "" == t[1..];
    assert t == [t[0]] + t[1..];
  }

  /** No key starts in the emitted part, and none can be completed there by what is still to come. */
  ghost predicate Sealed(emitted: string, held: string, live: map<string, string>) {
    forall i, k :: 0 <= i < |emitted| && k in live
      ==> !(k <= (emitted + held)[i..]) && !((emitted + held)[i..] <= k)
  }

  lemma SealedTail(a: string, b: string, c: string, live: map<string, string>)
    requires a != "" && Sealed(a, b, live)
    ensures Sealed(a[1..], b, live)
    ensures forall k :: k in live ==> !(k <= [a[0]] + (a[1..] + b + c))
  {
    forall i, k | 0 <= i < |a[1..]| && k in live
      ensures !(k <= (a[1..] + b)[i..]) && !((a[1..] + b)[i..] <= k)
    {
      assert (a[1..] + b)[i..] == (a + b)[i + 1..];
    }
    assert (a + b)[0..] == a + b;
    assert [a[0]] + (a[1..] + b + c) == (a + b) + c;
    forall k | k in live ensures !(k <= (a + b) + c) {
      if k <= (a + b) + c {
        PrefixesCompare(k, a + b, c);
      }
    }
  }

  /** What is sealed can be emitted: restoring the rest later gives the same text. */
  lemma {:induction false} HeadIsSafe(a: string, b: string, c: string, live: map<string, string>)
    requires Sealed(a, b, live)
    ensures Replace(a + b + c, live) == a + Replace(b + c, live)
  {
    hide Sealed, Replace;
    if a == "" {
      Associates("", b, c);
      assert "" + (b + c) == b + c && "" + Replace(b + c, live) == Replace(b + c, live);
    } else {
      var w := a[1..] + b + c;
      HeadAndTail(a);
      SealedTail(a, b, c, live);
      HeadIsSafe(a[1..], b, c, live);
      Associates([a[0]], a[1..], b);
      Associates([a[0]], a[1..] + b, c);
      ReplaceChar(a[0], w, live);
      Associates([a[0]], a[1..], Replace(b + c, live));
    }
  }

  lemma PrefixesCompare(k: string, s: string, c: string)
    requires k <= s + c
    ensures k <= s || s <= k
  {
  }

  lemma OverlaidValueClashes(p: string, v: string, w: string, k: string)
    requires p != "" && p + v + w <= k && |k| >= 2
    ensures Clashes(v, k)
  {
    var d := if v == "" then -1 else -|p|;
    forall i | 0 <= i < |v| && 0 <= i - d < |k| ensures v[i] == k[i - d] {
      assert (p + v + w)[i + |p|] == v[i];
    }
    assert Agree(v, k, d);
  }

  /** A prefix of a key that survives restoring was not changed by it: an inserted value would clash. */
  lemma {:induction false} OpenPrefixUnchanged(p: string, t: string, k: string, live: map<string, string>)
    requires Shaped(live) && Inert(live) && k in live
    requires p != "" && p + Replace(t, live) <= k
    ensures Replace(t, live) == t
    decreases |t|
  {
    hide Replace, KeyLength;
    ReplaceUnfolds(t, live);
    if t != "" {
      var n := KeyLength(t, live);
      if n > 0 {
        var v := live[t[..n]];
        var w := Replace(t[n..], live);
        Associates(p, v, w);
        OverlaidValueClashes(p, v, w, k);
      } else {
        Associates(p, [t[0]], Replace(t[1..], live));
        OpenPrefixUnchanged(p + [t[0]], t[1..], k, live);
      }
      HeadAndTail(t);
    }
  }

  lemma PrefixWasOpen(emitted: string, held: string, chunk: string, i: nat, k: string, live: map<string, string>)
    requires Shaped(live) && Inert(live) && k in live
    requires i < |emitted| && (emitted + Replace(held + chunk, live))[i..] <= k
    ensures (emitted + held)[i..] <= k
  {
    var p := emitted[i..];
    assert (emitted + Replace(held + chunk, live))[i..] == p + Replace(held + chunk, live);
    OpenPrefixUnchanged(p, held + chunk, k, live);
    assert (emitted + held)[i..] == p + held;
  }

  /** One chunk keeps the emitted part sealed, although completing a key may leave a tail shorter than `TAIL_LEN`. */
  lemma SealedStep(emitted: string, held: string, chunk: string, safe: string, rest: string, live: map<string, string>)
    requires Shaped(live) && Inert(live) && KeysFit(live)
    requires Sealed(emitted, held, live)
    requires safe + rest == Replace(held + chunk, live)
    requires safe != "" ==> |rest| == TAIL_LEN
    requires NoKeys(emitted + (safe + rest), live)
    ensures Sealed(emitted + safe, rest, live)
  {
    hide Replace, Shaped, Inert;
    var u := emitted + (safe + rest);
    assert emitted + safe + rest == u;
    forall i, k | 0 <= i < |emitted + safe| && k in live ensures !(k <= u[i..]) && !(u[i..] <= k) {
      if u[i..] <= k && i < |emitted| {
        PrefixWasOpen(emitted, held, chunk, i, k, live);
      }
    }
  }

  /** The invariant of a stream: what was emitted and what is held are together the restored prefix. */
  lemma {:induction false} StreamInvariant(chunks: seq<string>, restoreMap: map<string, string>,
                                           neverRestore: set<string>)
    requires Inert(Live(restoreMap, neverRestore)) && KeysFit(Live(restoreMap, neverRestore))
    ensures var live := Live(restoreMap, neverRestore);
      var (emitted, held) := StreamState(chunks, restoreMap, neverRestore);
      emitted + held == Replace(Concat(chunks), live) && Sealed(emitted, held, live)
  {
    hide *;
    if chunks == [] {
      StreamStart(restoreMap, neverRestore);
    } else {
      var before, chunk := chunks[..|chunks| - 1], chunks[|chunks| - 1];
      StreamInvariant(before, restoreMap, neverRestore);
      assert chunks == before + [chunk];
      ConcatSnoc(before, chunk);
      StreamStateSnoc(before, chunk, restoreMap, neverRestore);
      var (emitted, held) := StreamState(before, restoreMap, neverRestore);
      var (safe, rest) := SplitSafeTail(held + chunk, restoreMap, neverRestore);
      RestoreIsReplace(held + chunk, restoreMap, neverRestore);
      LiveIsShaped(restoreMap, neverRestore);
      StreamStep(Concat(before), emitted, held, chunk, safe, rest, Live(restoreMap, neverRestore));
    }
  }

  lemma StreamStart(restoreMap: map<string, string>, neverRestore: set<string>)
    ensures StreamState([], restoreMap, neverRestore) == ("", "")
    ensures "" + "" == Replace(Concat([]), Live(restoreMap, neverRestore))
    ensures Sealed("", "", Live(restoreMap, neverRestore))
  {
    hide Live;
  }

  lemma StreamStateSnoc(chunks: seq<string>, chunk: string, restoreMap: map<string, string>, neverRestore: set<string>)
    ensures var (emitted, held) := StreamState(chunks, restoreMap, neverRestore);
      var (safe, rest) := SplitSafeTail(held + chunk, restoreMap, neverRestore);
      StreamState(chunks + [chunk], restoreMap, neverRestore) == (emitted + safe, rest)
  {
    hide SplitSafeTail;
    assert (chunks + [chunk])[..|chunks|] == chunks;
  }

  lemma StreamStep(t: string, emitted: string, held: string, chunk: string, safe: string, rest: string,
                   live: map<string, string>)
    requires Shaped(live) && Inert(live) && KeysFit(live)
    requires emitted + held == Replace(t, live) && Sealed(emitted, held, live)
    requires safe + rest == Replace(held + chunk, live)
    requires safe != "" ==> |rest| == TAIL_LEN
    ensures emitted + safe + rest == Replace(t + chunk, live)
    ensures Sealed(emitted + safe, rest, live)
  {
    hide Replace;
    RestoreResumes(t, chunk, live);
    HeadIsSafe(emitted, held, chunk, live);
    assert emitted + held + chunk == Replace(t, live) + chunk;
    assert emitted + safe + rest == emitted + (safe + rest);
    RestoredHasNoKeys(t + chunk, live);
    SealedStep(emitted, held, chunk, safe, rest, live);
  }

  /** Streaming restore is one-shot restore, for every way of cutting the response into chunks. */
  lemma StreamRefinesRestore(chunks: seq<string>, restoreMap: map<string, string>, neverRestore: set<string>)
    requires Inert(Live(restoreMap, neverRestore)) && KeysFit(Live(restoreMap, neverRestore))
    ensures StreamOutput(chunks, restoreMap, neverRestore) == Restore(Concat(chunks), restoreMap, neverRestore)
  {
    var live := Live(restoreMap, neverRestore);
    var (emitted, held) := StreamState(chunks, restoreMap, neverRestore);
    StreamInvariant(chunks, restoreMap, neverRestore);
    LiveIsShaped(restoreMap, neverRestore);
    RestoreIsReplace(Concat(chunks), restoreMap, neverRestore);
    RestoreIsReplace(held, restoreMap, neverRestore);
    RestoredHasNoKeys(Concat(chunks), live);
    NoKeysSuffix(emitted + held, |emitted|, live);
    assert (emitted + held)[|emitted|..] == held;
    ReplaceWithoutKeys(held, live);
  }

  // ----- Exactly when streaming is exact, for values without angle brackets

  ghost predicate BracketFree(live: map<string, string>) {
    forall k :: k in live ==> '<' !in live[k] && '>' !in live[k]
  }

  /** `v` occurs in `k` at position `x`. */
  predicate OccursAt(v: string, k: string, x: int) {
    0 <= x <= |k| - |v| && k[x..x + |v|] == v
  }

  /** No restored value reads like a piece of a key. In particular no value is empty. */
  ghost predicate NoValueInsideKey(live: map<string, string>) {
    forall k, k', x :: k in live && k' in live ==> !OccursAt(live[k'], k, x)
  }

  lemma AgreeShares(v: string, k: string, d: int, j: nat)
    requires Agree(v, k, d) && j < |k| && 0 <= d + j < |v|
    ensures k[j] in v
  {
    assert v[d + j] == k[j];
  }

  /** For a value without angle brackets, clashing with a key means occurring inside it. */
  lemma ClashIsOccurrence(v: string, k: string)
    requires Bracketed(k) && '<' !in v && '>' !in v
    requires Clashes(v, k)
    ensures exists x :: OccursAt(v, k, x)
  {
    var d :| -|k| < d < |v| && Agree(v, k, d);
    if v == "" {
      assert OccursAt(v, k, 0);
    } else {
      if 0 <= d {
        AgreeShares(v, k, d, 0);
      } else if d + |k| - 1 < |v| {
        AgreeShares(v, k, d, |k| - 1);
      }
      assert k[-d..-d + |v|] == v;
      assert OccursAt(v, k, -d);
    }
  }

  lemma CleanValuesAreInert(live: map<string, string>)
    requires Shaped(live) && BracketFree(live) && NoValueInsideKey(live)
    ensures Inert(live)
  {
    forall k, k' | k in live && k' in live ensures !Clashes(live[k'], k) {
      if Clashes(live[k'], k) {
        ClashIsOccurrence(live[k'], k);
      }
    }
  }

  /** What two chunks give, spelled out. */
  lemma TwoChunks(c1: string, c2: string, restoreMap: map<string, string>, neverRestore: set<string>)
    ensures var (safe1, held1) := SplitSafeTail(c1, restoreMap, neverRestore);
      var (safe2, held2) := SplitSafeTail(held1 + c2, restoreMap, neverRestore);
      StreamOutput([c1, c2], restoreMap, neverRestore) == safe1 + safe2 + Restore(held2, restoreMap, neverRestore)
  {
    var (safe1, held1) := SplitSafeTail(c1, restoreMap, neverRestore);
    var (safe2, held2) := SplitSafeTail(held1 + c2, restoreMap, neverRestore);
    assert StreamState([c1, c2], restoreMap, neverRestore) == (safe1 + safe2, held2) by {
      hide *;
      StreamStart(restoreMap, neverRestore);
      StreamStateSnoc([], c1, restoreMap, neverRestore);
      StreamStateSnoc([c1], c2, restoreMap, neverRestore);
      assert "" + c1 == c1 && [] + [c1] == [c1] && [c1] + [c2] == [c1, c2];
      assert "" + safe1 == safe1;
    }
    hide SplitSafeTail, Restore, StreamState, Live;
  }

  lemma KeyShowsBothBrackets(s: string, i: nat, k: string)
    requires i <= |s| && Bracketed(k) && k <= s[i..]
    ensures '<' in s && '>' in s
  {
    assert s[i..][0] == s[i];
    assert s[i..][|k| - 1] == s[i + |k| - 1];
  }

  /** Text without a `<` is copied, and so is text without a `>`. */
  lemma {:induction false} HalfBracketedIsCopied(s: string, live: map<string, string>)
    requires Shaped(live) && ('<' !in s || '>' !in s)
    ensures Replace(s, live) == s
  {
    forall i, k | 0 <= i <= |s| && k in live ensures !(k <= s[i..]) {
      if k <= s[i..] {
        KeyShowsBothBrackets(s, i, k);
      }
    }
    ReplaceWithoutKeys(s, live);
  }

  /** `Restore` on a lone key, and on text that lacks one of the brackets. */
  lemma RestoreKey(k: string, restoreMap: map<string, string>, neverRestore: set<string>)
    requires k in Live(restoreMap, neverRestore)
    ensures Restore(k, restoreMap, neverRestore) == Live(restoreMap, neverRestore)[k]
  {
    var live := Live(restoreMap, neverRestore);
    hide *;
    LiveIsShaped(restoreMap, neverRestore);
    RestoreIsReplace(k, restoreMap, neverRestore);
    ReplaceKey(k, "", live);
    ReplaceEmpty(live);
    assert k + "" == k && live[k] + "" == live[k];
  }

  lemma RestoreHalfBracketed(s: string, restoreMap: map<string, string>, neverRestore: set<string>)
    requires '<' !in s || '>' !in s
    ensures Restore(s, restoreMap, neverRestore) == s
  {
    hide *;
    LiveIsShaped(restoreMap, neverRestore);
    RestoreIsReplace(s, restoreMap, neverRestore);
    HalfBracketedIsCopied(s, Live(restoreMap, neverRestore));
  }

  ghost predicate Breaks(chunks: seq<string>, restoreMap: map<string, string>, neverRestore: set<string>) {
    StreamOutput(chunks, restoreMap, neverRestore) != Restore(Concat(chunks), restoreMap, neverRestore)
  }

  lemma ConcatTwo(c1: string, c2: string)
    ensures Concat([c1, c2]) == c1 + c2
  {
    assert [c1, c2][1..] == [c2];
    assert Concat([c2]) == c2 + "" == c2;
  }

  lemma OneTooLongSplits(c: string, restoreMap: map<string, string>, neverRestore: set<string>)
    requires |c| == TAIL_LEN + 1 && Restore(c, restoreMap, neverRestore) == c
    ensures SplitSafeTail(c, restoreMap, neverRestore) == (c[..1], c[1..])
  {
    hide Restore;
  }

  lemma LongKeyParts(k: string, c1: string, c2: string)
    requires Bracketed(k) && k == c1 + c2 && c1 != "" && c2 != ""
    ensures '>' !in c1 && '<' !in c1[1..] + c2 && c1[0] == '<'
  {
    forall i | 0 <= i < |c1| ensures c1[i] != '>' {
      assert c1[i] == k[i];
    }
    forall i | 0 <= i < |c1[1..] + c2| ensures (c1[1..] + c2)[i] != '<' {
      assert (c1[1..] + c2)[i] == k[i + 1];
    }
  }

  /** A key two longer than the tail is cut before it is complete: its `<` is emitted too early. */
  lemma LongKeyBreaks(k: string, restoreMap: map<string, string>, neverRestore: set<string>)
    requires k in Live(restoreMap, neverRestore) && |k| > TAIL_LEN + 1
    requires '<' !in Live(restoreMap, neverRestore)[k]
    ensures exists chunks :: Breaks(chunks, restoreMap, neverRestore)
  {
    var c1, c2 := k[..TAIL_LEN + 1], k[TAIL_LEN + 1..];
    assert Bracketed(k) by {
      TokenIsBracketed(k);
    }
    assert Breaks([c1, c2], restoreMap, neverRestore) by {
      hide Restore, Live, Bracketed, SplitSafeTail, StreamOutput, Concat;
      LongKeyParts(k, c1, c2);
      RestoreHalfBracketed(c1, restoreMap, neverRestore);
      OneTooLongSplits(c1, restoreMap, neverRestore);
      TwoChunks(c1, c2, restoreMap, neverRestore);
      ConcatTwo(c1, c2);
      RestoreKey(k, restoreMap, neverRestore);
      assert StreamOutput([c1, c2], restoreMap, neverRestore)[0] == '<';
    }
  }

  /** A text without brackets lies strictly between those of a key. */
  lemma InsideBrackets(v: string, k: string, p: int)
    requires Bracketed(k) && '<' !in v && '>' !in v && v != "" && OccursAt(v, k, p)
    ensures 0 < p && p + |v| < |k|
  {
    assert k[p..p + |v|][0] == v[0] && k[p..p + |v|][|v| - 1] == v[|v| - 1];
    assert v[0] in v && v[|v| - 1] in v;
  }

  /** The pieces around a value inside a key: neither is empty, and only the front holds the `<`. */
  lemma KeyAroundValue(v: string, k: string) returns (x: string, y: string)
    requires Bracketed(k) && '<' !in v && '>' !in v
    requires exists p :: OccursAt(v, k, p)
    ensures k == x + v + y && x != "" && y != ""
    ensures x[0] == '<' && '<' !in x[1..] && '>' !in x && '<' !in y
  {
    hide Bracketed;
    var p :| OccursAt(v, k, p);
    if v == "" {
      p := 1;
      BracketsApart(k);
    } else {
      InsideBrackets(v, k, p);
    }
    x, y := k[..p], k[p + |v|..];
    KeyFront(k, p);
    KeyBack(k, p + |v|);
    CutAround(k, p, v);
  }

  lemma BracketsApart(k: string)
    requires Bracketed(k)
    ensures |k| >= 2 && OccursAt("", k, 1)
  {
  }

  lemma KeyFront(k: string, p: nat)
    requires Bracketed(k) && 0 < p < |k|
    ensures k[..p][0] == '<' && '<' !in k[..p][1..] && '>' !in k[..p]
  {
  }

  lemma KeyBack(k: string, p: nat)
    requires Bracketed(k) && 0 < p < |k|
    ensures '<' !in k[p..]
  {
  }

  lemma CutAround(k: string, p: nat, v: string)
    requires OccursAt(v, k, p)
    ensures k == k[..p] + v + k[p + |v|..]
  {
  }

  lemma OpensTwice(q: string, s: string, i: nat)
    requires Bracketed(q) && 0 < i < |s| && s[i] == '<'
    requires forall j :: 0 <= j < i ==> s[j] != '>'
    ensures !(q <= s)
  {
  }

  /** The front piece of a key in front of a whole key is copied. */
  lemma FrontIsCopied(x: string, k: string, w: string, live: map<string, string>)
    requires Shaped(live) && k in live
    requires x != "" && '<' !in x[1..] && '>' !in x
    ensures Replace(x + (k + w), live) == x + (live[k] + Replace(w, live))
  {
    hide Replace;
    var s := x[1..] + (k + w);
    assert x + (k + w) == [x[0]] + s;
    assert x == [x[0]] + x[1..];
    NoKeyOverTwoOpens(x, k, w, live);
    ReplaceChar(x[0], s, live);
    ReplaceCopies(x[1..], k + w, live);
    ReplaceKey(k, w, live);
  }

  lemma NoKeyOverTwoOpens(x: string, k: string, w: string, live: map<string, string>)
    requires Shaped(live) && k in live && x != "" && '>' !in x
    ensures forall q :: q in live ==> !(q <= x + (k + w))
  {
    assert (x + (k + w))[|x|] == k[0] == '<';
    forall q | q in live ensures !(q <= x + (k + w)) {
      OpensTwice(q, x + (k + w), |x|);
    }
  }

  lemma RestoreFront(x: string, k: string, y: string, restoreMap: map<string, string>, neverRestore: set<string>)
    requires k in Live(restoreMap, neverRestore)
    requires x != "" && '<' !in x[1..] && '>' !in x && '<' !in y
    ensures Restore(x + k + y, restoreMap, neverRestore) == x + Live(restoreMap, neverRestore)[k] + y
  {
    var live := Live(restoreMap, neverRestore);
    hide *;
    LiveIsShaped(restoreMap, neverRestore);
    RestoreIsReplace(x + k + y, restoreMap, neverRestore);
    assert x + k + y == x + (k + y);
    FrontIsCopied(x, k, y, live);
    HalfBracketedIsCopied(y, live);
    assert x + (live[k] + y) == x + live[k] + y;
  }

  lemma ShortIsHeld(buffer: string, restored: string, restoreMap: map<string, string>, neverRestore: set<string>)
    requires Restore(buffer, restoreMap, neverRestore) == restored && |restored| <= TAIL_LEN
    ensures SplitSafeTail(buffer, restoreMap, neverRestore) == ("", restored)
  {
    hide Restore;
  }

  /** A value that completes a key together with its surroundings is restored a second time. */
  lemma InnerValueBreaks(k: string, k': string, restoreMap: map<string, string>, neverRestore: set<string>)
    requires k in Live(restoreMap, neverRestore) && k' in Live(restoreMap, neverRestore)
    requires '<' !in Live(restoreMap, neverRestore)[k]
    requires '<' !in Live(restoreMap, neverRestore)[k'] && '>' !in Live(restoreMap, neverRestore)[k']
    requires |k| <= TAIL_LEN + 1
    requires exists p :: OccursAt(Live(restoreMap, neverRestore)[k'], k, p)
    ensures exists chunks :: Breaks(chunks, restoreMap, neverRestore)
  {
    var live := Live(restoreMap, neverRestore);
    assert Bracketed(k) by {
      TokenIsBracketed(k);
    }
    var x, y := KeyAroundValue(live[k'], k);
    assert Breaks([x + k', y], restoreMap, neverRestore) by {
      hide Restore, Live, Bracketed, OccursAt, SplitSafeTail, StreamOutput, Concat;
      assert x + k' + "" == x + k' && x + live[k'] + "" == x + live[k'];
      RestoreFront(x, k', "", restoreMap, neverRestore);
      ShortIsHeld(x + k', x + live[k'], restoreMap, neverRestore);
      TwoChunks(x + k', y, restoreMap, neverRestore);
      RestoreKey(k, restoreMap, neverRestore);
      var (safe, held) := SplitSafeTail(k, restoreMap, neverRestore);
      forall c | c in held ensures c in safe + held {}
      RestoreHalfBracketed(held, restoreMap, neverRestore);
      assert "" + safe == safe;
      assert StreamOutput([x + k', y], restoreMap, neverRestore) == live[k];
      ConcatTwo(x + k', y);
      RestoreFront(x, k', y, restoreMap, neverRestore);
      assert '<' in k;
    }
  }

  /** For every map: a short value that a second restore would change is changed by the final flush. */
  lemma UnsettledValueBreaks(k: string, restoreMap: map<string, string>, neverRestore: set<string>)
    requires k in Live(restoreMap, neverRestore)
    requires var v := Live(restoreMap, neverRestore)[k];
      |v| <= TAIL_LEN && Restore(v, restoreMap, neverRestore) != v
    ensures Breaks([k], restoreMap, neverRestore)
  {
    hide Restore, Live, SplitSafeTail;
    var v := Live(restoreMap, neverRestore)[k];
    assert Concat([k]) == k + "" == k;
    RestoreKey(k, restoreMap, neverRestore);
    ShortIsHeld(k, v, restoreMap, neverRestore);
    StreamStart(restoreMap, neverRestore);
    StreamStateSnoc([], k, restoreMap, neverRestore);
    assert [] + [k] == [k] && "" + k == k && "" + "" == "";
    assert "" + Restore(v, restoreMap, neverRestore) == Restore(v, restoreMap, neverRestore);
  }

  /** So angle brackets must stay out of values: a value that is another key is restored again. */
  lemma BracketedValueBreaks(k: string, k': string, restoreMap: map<string, string>, neverRestore: set<string>)
    requires k in Live(restoreMap, neverRestore) && k' in Live(restoreMap, neverRestore)
    requires |k| <= TAIL_LEN && Live(restoreMap, neverRestore)[k'] == k
    requires Live(restoreMap, neverRestore)[k] != k
    ensures Breaks([k'], restoreMap, neverRestore)
  {
    hide Restore, Live, Breaks;
    RestoreKey(k, restoreMap, neverRestore);
    UnsettledValueBreaks(k', restoreMap, neverRestore);
  }

  /** With values in brackets `Inert` is not needed: keys that stand for themselves clash, and no cut ever breaks. */
  lemma OwnValuesNeverBreak(chunks: seq<string>, restoreMap: map<string, string>, neverRestore: set<string>)
    requires forall k :: k in Live(restoreMap, neverRestore) ==> Live(restoreMap, neverRestore)[k] == k
    ensures !Breaks(chunks, restoreMap, neverRestore)
    ensures Live(restoreMap, neverRestore) != map[] ==> !Inert(Live(restoreMap, neverRestore))
  {
    hide Restore, SplitSafeTail, Live;
    NothingChanges(Concat(chunks), restoreMap, neverRestore);
    NothingChanges(StreamState(chunks, restoreMap, neverRestore).1, restoreMap, neverRestore);
    PassesThrough(chunks, restoreMap, neverRestore);
    var live := Live(restoreMap, neverRestore);
    LiveIsShaped(restoreMap, neverRestore);
    if live != map[] {
      var k :| k in live;
      assert Agree(live[k], k, 0);
      assert Clashes(live[k], k);
    }
  }

  lemma {:induction false} NothingReplaced(text: string, live: map<string, string>)
    requires forall k :: k in live ==> live[k] == k
    ensures Replace(text, live) == text
    decreases |text|
  {
    hide Replace;
    ReplaceUnfolds(text, live);
    if text != "" {
      var n := KeyLength(text, live);
      if n > 0 {
        NothingReplaced(text[n..], live);
        Rejoined(text, n);
      } else {
        NothingReplaced(text[1..], live);
        HeadAndTail(text);
      }
    }
  }

  lemma NothingChanges(text: string, restoreMap: map<string, string>, neverRestore: set<string>)
    requires forall k :: k in Live(restoreMap, neverRestore) ==> Live(restoreMap, neverRestore)[k] == k
    ensures Restore(text, restoreMap, neverRestore) == text
  {
    hide Live, Restore;
    RestoreIsReplace(text, restoreMap, neverRestore);
    NothingReplaced(text, Live(restoreMap, neverRestore));
  }

  lemma {:induction false} PassesThrough(chunks: seq<string>, restoreMap: map<string, string>,
                                         neverRestore: set<string>)
    requires forall k :: k in Live(restoreMap, neverRestore) ==> Live(restoreMap, neverRestore)[k] == k
    ensures var (emitted, held) := StreamState(chunks, restoreMap, neverRestore); emitted + held == Concat(chunks)
  {
    hide Live, Restore, SplitSafeTail, Concat, StreamState;
    if chunks == [] {
      StreamStart(restoreMap, neverRestore);
      NothingConcat();
    } else {
      var before, chunk := chunks[..|chunks| - 1], chunks[|chunks| - 1];
      PassesThrough(before, restoreMap, neverRestore);
      StreamStateSnoc(before, chunk, restoreMap, neverRestore);
      assert chunks == before + [chunk];
      ConcatSnoc(before, chunk);
      var (emitted, held) := StreamState(before, restoreMap, neverRestore);
      var (safe, rest) := SplitSafeTail(held + chunk, restoreMap, neverRestore);
      NothingChanges(held + chunk, restoreMap, neverRestore);
      Associates(emitted, safe, rest);
      Associates(emitted, held, chunk);
    }
  }

  lemma NothingConcat()
    ensures Concat([]) == "" && "" + "" == ""
  {
  }

  /**
   * For a map whose values hold no angle bracket, streaming restores every response however it is cut into chunks
   * if and only if every key is at most one longer than the tail and no value occurs inside a key.
   */
  lemma StreamIsExact(restoreMap: map<string, string>, neverRestore: set<string>)
    requires BracketFree(Live(restoreMap, neverRestore))
    ensures KeysFit(Live(restoreMap, neverRestore)) && NoValueInsideKey(Live(restoreMap, neverRestore))
      <==> forall chunks :: !Breaks(chunks, restoreMap, neverRestore)
  {
    var live := Live(restoreMap, neverRestore);
    LiveIsShaped(restoreMap, neverRestore);
    hide Live, Breaks, OccursAt, Shaped;
    if !KeysFit(live) {
      var k :| k in live && |k| > TAIL_LEN + 1;
      LongKeyBreaks(k, restoreMap, neverRestore);
    } else if !NoValueInsideKey(live) {
      var k, k', x :| k in live && k' in live && OccursAt(live[k'], k, x);
      InnerValueBreaks(k, k', restoreMap, neverRestore);
    } else {
      CleanValuesAreInert(live);
      forall chunks ensures !Breaks(chunks, restoreMap, neverRestore) {
        StreamNeverBreaks(chunks, restoreMap, neverRestore);
      }
    }
  }

  lemma StreamNeverBreaks(chunks: seq<string>, restoreMap: map<string, string>, neverRestore: set<string>)
    requires Inert(Live(restoreMap, neverRestore)) && KeysFit(Live(restoreMap, neverRestore))
    ensures !Breaks(chunks, restoreMap, neverRestore)
  {
    hide StreamOutput, Restore, Live, Inert, KeysFit;
    StreamRefinesRestore(chunks, restoreMap, neverRestore);
  }
}
