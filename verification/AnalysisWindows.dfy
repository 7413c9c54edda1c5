/**
 * Analysing a long text in overlapping windows
 * (deploy/litellm/klai_pii_enforce.py, `_chunk_windows`, `_analyze_spans_chunked`, `_analyze_spans`).
 */
module AnalysisWindows {
  import opened Sequences
  import opened SpanSelection

  const MAX_ANALYZE_CHARS := 20000
  const CHUNK_OVERLAP_CHARS := 6000

  datatype Window = Window(coreStart: nat, coreEnd: nat, start: nat, end: nat)

  /** The cores are non-empty, in order and without gap or overlap from 0 to `upTo`. */
  ghost predicate Tiles(ws: seq<Window>, upTo: nat) {
    if ws == [] then upTo == 0
    else
      var w := ws[|ws| - 1];
      w.coreStart < w.coreEnd == upTo && Tiles(ws[..|ws| - 1], w.coreStart)
  }

  /** A core is padded by the overlap on both sides, cut at the ends of the text. */
  ghost predicate Padded(w: Window, textLen: nat, overlap: nat) {
    && w.start <= w.coreStart <= w.coreEnd <= w.end <= textLen
    && (w.start == 0 || w.start + overlap == w.coreStart)
    && (w.end == textLen || w.end == w.coreEnd + overlap)
  }

  ghost predicate AllPadded(ws: seq<Window>, textLen: nat, overlap: nat) {
    forall i :: 0 <= i < |ws| ==> Padded(ws[i], textLen, overlap)
  }

  ghost predicate NoWiderThan(ws: seq<Window>, size: nat) {
    forall w :: w in ws ==> w.end - w.start <= size
  }

  /** `_chunk_windows`, for any size cap and overlap. */
  method ChunkWindows(textLen: nat, maxChars: nat, overlap: nat) returns (windows: seq<Window>)
    ensures textLen <= maxChars ==> windows == [Window(0, textLen, 0, textLen)]
    ensures textLen > maxChars ==> Tiles(windows, textLen)
    ensures AllPadded(windows, textLen, overlap)
    ensures 2 * overlap < maxChars ==> NoWiderThan(windows, maxChars)
  {
    if textLen <= maxChars {
      return [Window(0, textLen, 0, textLen)];
    }
    hide Tiles, AllPadded, NoWiderThan;
    var coreSize := if maxChars - 2 * overlap > 1 then maxChars - 2 * overlap else 1;
    windows := [];
    var coreStart := 0;
    NoWindows(textLen, overlap, maxChars);
    while coreStart < textLen
      invariant coreStart <= textLen
      invariant Tiles(windows, coreStart) && AllPadded(windows, textLen, overlap)
      invariant 2 * overlap < maxChars ==> NoWiderThan(windows, maxChars)
    {
      var coreEnd := if coreStart + coreSize < textLen then coreStart + coreSize else textLen;
      var start := if coreStart > overlap then coreStart - overlap else 0;
      var end := if coreEnd + overlap < textLen then coreEnd + overlap else textLen;
      var w := Window(coreStart, coreEnd, start, end);
      WindowsSnoc(windows, w, textLen, overlap, maxChars);
      windows := windows + [w];
      coreStart := coreEnd;
    }
  }

  lemma NoWindows(textLen: nat, overlap: nat, size: nat)
    ensures Tiles([], 0) && AllPadded([], textLen, overlap) && NoWiderThan([], size)
  {
  }

  lemma WindowsSnoc(ws: seq<Window>, w: Window, textLen: nat, overlap: nat, size: nat)
    ensures Tiles(ws, w.coreStart) && w.coreStart < w.coreEnd ==> Tiles(ws + [w], w.coreEnd)
    ensures AllPadded(ws, textLen, overlap) && Padded(w, textLen, overlap) ==> AllPadded(ws + [w], textLen, overlap)
    ensures NoWiderThan(ws, size) && w.end - w.start <= size ==> NoWiderThan(ws + [w], size)
  {
    hide Padded;
    assert (ws + [w])[..|ws|] == ws;
  }

  /** The detected spans of a text: the analyzer, seen as an oracle. */
  type Analyzer = string -> seq<DetectedSpan>

  function Shift(s: DetectedSpan, offset: nat): DetectedSpan {
    Span(s.entity, s.start + offset, s.end + offset, s.score)
  }

  /** How often `s` was reported. */
  function Times(s: DetectedSpan, spans: seq<DetectedSpan>): nat {
    multiset(spans)[s]
  }

  /**
   * The analyzer looks at most `reach` characters around a span's start: inside any window that shows this much
   * context, or the end of the text, on both sides of the start, it reports the span exactly when it reports it
   * for the whole text. Near a cut it may miss spans or invent truncated ones.
   */
  ghost predicate WindowLocal(analyze: Analyzer, text: string, reach: nat) {
    && (forall s :: s in analyze(text) ==> s.start < |text|)
    && forall a: nat, b: nat, s: DetectedSpan ::
         a <= b <= |text| && a <= s.start < b
         && (a == 0 || a + reach <= s.start) && (b == |text| || s.start + reach <= b)
         ==> Times(s, analyze(text)) == Times(Unshift(s, a), analyze(text[a..b]))
  }

  function Unshift(s: DetectedSpan, offset: nat): DetectedSpan
    requires offset <= s.start
  {
    Span(s.entity, s.start - offset, s.end - offset, s.score)
  }

  predicate OwnedBy(s: DetectedSpan, w: Window) {
    w.coreStart <= s.start < w.coreEnd
  }

  /** The filter of one window's answer: shifted to the whole text, kept only when the start lies in the core. */
  method KeepOwned(w: Window, found: seq<DetectedSpan>) returns (kept: seq<DetectedSpan>)
    ensures kept == Own(w, found)
    ensures forall s: DetectedSpan :: Times(s, kept) == OwnTimes(s, w, found)
  {
    kept := [];
    for i := 0 to |found|
      invariant kept == Own(w, found[..i])
    {
      var s := Shift(found[i], w.start);
      OneMore(found, i);
      if OwnedBy(s, w) {
        kept := kept + [s];
      }
    }
    assert found[..|found|] == found;
    forall s: DetectedSpan ensures Times(s, kept) == OwnTimes(s, w, found) {
      OwnIsCounted(s, w, found);
    }
  }

  /** The window's answer in the places of the whole text, in the order it was found. */
  function Own(w: Window, found: seq<DetectedSpan>): seq<DetectedSpan> {
    if found == [] then []
    else
      var s := Shift(found[|found| - 1], w.start);
      Own(w, found[..|found| - 1]) + (if OwnedBy(s, w) then [s] else [])
  }

  /** The answers of all windows, one after the other. */
  ghost function Gathered(ws: seq<Window>, text: string, analyze: Analyzer): seq<DetectedSpan>
    requires forall i :: 0 <= i < |ws| ==> ws[i].start <= ws[i].end <= |text|
  {
    if ws == [] then []
    else
      var w := ws[|ws| - 1];
      Gathered(ws[..|ws| - 1], text, analyze) + Own(w, analyze(text[w.start..w.end]))
  }

  /** How often `s` comes out of the window's answer `found`. */
  function OwnTimes(s: DetectedSpan, w: Window, found: seq<DetectedSpan>): nat {
    if OwnedBy(s, w) && w.start <= s.start then Times(Unshift(s, w.start), found) else 0
  }

  lemma {:induction false} OwnIsCounted(s: DetectedSpan, w: Window, found: seq<DetectedSpan>)
    ensures Times(s, Own(w, found)) == OwnTimes(s, w, found)
  {
    hide OwnedBy;
    if found != [] {
      var front, x := found[..|found| - 1], found[|found| - 1];
      OwnIsCounted(s, w, front);
      assert found == front + [x];
      OneMoreFound(s, w, front, x);
    }
  }

  lemma OneMoreFound(s: DetectedSpan, w: Window, found: seq<DetectedSpan>, x: DetectedSpan)
    ensures var t := Shift(x, w.start);
      OwnTimes(s, w, found + [x]) == OwnTimes(s, w, found) + (if OwnedBy(t, w) && t == s then 1 else 0)
  {
    if w.start <= s.start {
      assert Unshift(s, w.start) == x <==> s == Shift(x, w.start);
    }
  }

  ghost function FromWindows(s: DetectedSpan, ws: seq<Window>, text: string, analyze: Analyzer): nat
    requires forall i :: 0 <= i < |ws| ==> ws[i].start <= ws[i].end <= |text|
  {
    if ws == [] then 0
    else
      var w := ws[|ws| - 1];
      FromWindows(s, ws[..|ws| - 1], text, analyze) + OwnTimes(s, w, analyze(text[w.start..w.end]))
  }

  /** A padded window answers for its own core exactly like the whole text. */
  lemma CoreIsExact(s: DetectedSpan, w: Window, text: string, analyze: Analyzer, overlap: nat)
    requires WindowLocal(analyze, text, overlap) && Padded(w, |text|, overlap)
    ensures OwnTimes(s, w, analyze(text[w.start..w.end])) == if OwnedBy(s, w) then Times(s, analyze(text)) else 0
  {
  }

  /** Every position belongs to exactly one core, so every span is counted exactly as often as in the whole text. */
  lemma {:induction false} CoresAddUp(s: DetectedSpan, ws: seq<Window>, upTo: nat, text: string, analyze: Analyzer,
                                      overlap: nat)
    requires WindowLocal(analyze, text, overlap)
    requires Tiles(ws, upTo) && AllPadded(ws, |text|, overlap)
    ensures FromWindows(s, ws, text, analyze) == if s.start < upTo then Times(s, analyze(text)) else 0
  {
    hide WindowLocal, Times, OwnTimes;
    if ws != [] {
      var w := ws[|ws| - 1];
      CoresAddUp(s, ws[..|ws| - 1], w.coreStart, text, analyze, overlap);
      CoreIsExact(s, w, text, analyze, overlap);
    }
  }

  /**
   * `_analyze_spans`: for a window-local analyzer, long and short texts alike get exactly the spans of the whole
   * text, each exactly as often; long ones get them window by window, in the order they were found.
   */
  method AnalyzeSpans(text: string, analyze: Analyzer) returns (spans: seq<DetectedSpan>, ghost windows: seq<Window>)
    ensures |text| <= MAX_ANALYZE_CHARS ==> spans == analyze(text)
    ensures |text| > MAX_ANALYZE_CHARS ==>
      && Tiles(windows, |text|) && AllPadded(windows, |text|, CHUNK_OVERLAP_CHARS)
      && spans == Gathered(windows, text, analyze)
    ensures WindowLocal(analyze, text, CHUNK_OVERLAP_CHARS) ==> multiset(spans) == multiset(analyze(text))
  {
    if |text| <= MAX_ANALYZE_CHARS {
      return analyze(text), [];
    }
    hide WindowLocal;
    var ws := ChunkWindows(|text|, MAX_ANALYZE_CHARS, CHUNK_OVERLAP_CHARS);
    windows := ws;
    spans := [];
    for i := 0 to |ws|
      invariant spans == Gathered(windows[..i], text, analyze)
      invariant forall s: DetectedSpan :: Times(s, spans) == FromWindows(s, windows[..i], text, analyze)
    {
      var w := ws[i];
      assert windows[..i + 1] == windows[..i] + [w];
      assert windows[..i + 1][..i] == windows[..i];
      var kept := KeepOwned(w, analyze(text[w.start..w.end]));
      spans := spans + kept;
    }
    assert windows[..|windows|] == windows;
    if WindowLocal(analyze, text, CHUNK_OVERLAP_CHARS) {
      forall s: DetectedSpan ensures Times(s, spans) == Times(s, analyze(text)) {
        CoresAddUp(s, windows, |text|, text, analyze, CHUNK_OVERLAP_CHARS);
        if s.start >= |text| {
          StartsInText(s, text, analyze, CHUNK_OVERLAP_CHARS);
        }
      }
      SameTimes(spans, analyze(text));
    }
  }

  lemma StartsInText(s: DetectedSpan, text: string, analyze: Analyzer, reach: nat)
    requires WindowLocal(analyze, text, reach) && s.start >= |text|
    ensures Times(s, analyze(text)) == 0
  {
    assert s !in analyze(text);
  }

  lemma SameTimes(a: seq<DetectedSpan>, b: seq<DetectedSpan>)
    requires forall s: DetectedSpan :: Times(s, a) == Times(s, b)
    ensures multiset(a) == multiset(b)
  {
    forall s: DetectedSpan ensures multiset(a)[s] == multiset(b)[s] {
      assert Times(s, a) == Times(s, b);
    }
  }
}
