/**
 * Splitting text into size-bounded chunks at paragraph and sentence breaks
 * (klai-knowledge-ingest/knowledge_ingest/chunker.py, `_split_by_size`).
 */
module Chunker {
  import opened Sequences
  import opened Strings

  const SENTENCE := ". "
  const MIN_SECTION_TOKENS: nat := 50

  /** Python's `text.rfind(sep, lo, hi)`: the last occurrence that lies within `[lo, hi)`. */
  function RFindIn(text: string, sep: string, lo: nat, hi: nat): (r: int)
    requires lo <= hi <= |text| && sep != ""
    ensures r == -1 || (lo <= r <= hi - |sep| && At(text, sep, r))
    ensures forall i :: i > r && lo <= i <= hi - |sep| ==> !At(text, sep, i)
  {
    var r := RFind(text[lo..hi], sep);
    assert forall j :: 0 <= j <= hi - lo - |sep| ==> (At(text[lo..hi], sep, j) <==> At(text, sep, lo + j)) by {
      forall j | 0 <= j <= hi - lo - |sep| { AtSlice(text, sep, lo, hi, j); }
    }
    assert forall i :: i > lo + r && lo <= i <= hi - |sep| ==> !At(text, sep, i) by {
      forall i | i > lo + r && lo <= i <= hi - |sep| ensures !At(text, sep, i) {
        assert !At(text[lo..hi], sep, i - lo);
      }
    }
    if r < 0 then -1 else lo + r
  }

  lemma AtSlice(text: string, sep: string, lo: nat, hi: nat, j: nat)
    requires lo <= hi <= |text| && j <= hi - lo - |sep|
    ensures At(text[lo..hi], sep, j) <==> At(text, sep, lo + j)
  {
    var a, b := text[lo..hi][j..j + |sep|], text[lo + j..lo + j + |sep|];
    forall k | 0 <= k < |sep| ensures a[k] == b[k] {}
    assert a == b;
  }

  /** Python's `text.find(sep, lo)`. */
  function FindFrom(text: string, sep: string, lo: nat): (r: int)
    ensures r == -1 || (lo <= r && At(text, sep, r))
    ensures forall i :: lo <= i && (r < 0 || i < r) ==> !At(text, sep, i)
    decreases |text| - lo
  {
    if lo + |sep| > |text| then -1
    else if At(text, sep, lo) then lo
    else FindFrom(text, sep, lo + 1)
  }

  /** The length of the paragraph that starts at `start`. */
  function ParagraphLength(text: string, start: nat): int {
    var end := FindFrom(text, PARAGRAPH, start);
    (if end == -1 then |text| else end) - start
  }

  predicate FitsWhole(text: string, start: nat, size: nat) {
    ParagraphLength(text, start) <= size
  }

  /** The least distance into the window at which an early paragraph break is taken. */
  function EarlyFloor(overlap: nat): nat {
    if MIN_SECTION_TOKENS * 4 > overlap + 1 then MIN_SECTION_TOKENS * 4 else overlap + 1
  }

  /** Where the window that starts at `start` ends: paragraph break, else sentence break, else the size. */
  function WindowEnd(text: string, start: nat, size: nat, overlap: nat, keepParagraphs: bool): (end: nat)
    ensures end <= start + size
  {
    var end := start + size;
    if end >= |text| then end
    else
      var breakAt := RFindIn(text, PARAGRAPH, start, end);
      var early := keepParagraphs && breakAt - start >= EarlyFloor(overlap) && FitsWhole(text, breakAt + 2, size);
      if breakAt > start + size / 2 || early then breakAt
      else
        var stop := RFindIn(text, SENTENCE, start, end);
        if stop > start + size / 2 then stop + 1 else end
  }

  predicate Pair(text: string, a: char, b: char, i: int) {
    0 <= i < |text| - 1 && text[i] == a && text[i + 1] == b
  }

  /** `i` is the last place where `a` and `b` stand next to each other within `size` characters from `start` on. */
  ghost predicate LastPair(text: string, a: char, b: char, start: nat, size: nat, i: int) {
    && start <= i <= start + size - 2
    && Pair(text, a, b, i)
    && forall k :: i < k <= start + size - 2 ==> !Pair(text, a, b, k)
  }

  /**
   * Whether a window is cut at the paragraph break at `b`: past its middle; or, with paragraphs kept, behind at least
   * 200 characters and more than the overlap, if the next paragraph ends within a chunk's size.
   */
  ghost predicate Taken(text: string, start: nat, size: nat, overlap: nat, keep: bool, b: int) {
    || b > start + size / 2
    || (keep && b - start >= 200 && b - start > overlap
        && (|text| <= b + 2 + size || exists k :: b + 2 <= k <= b + 2 + size && Pair(text, '\n', '\n', k)))
  }

  lemma PairIs(text: string, i: int)
    ensures At(text, PARAGRAPH, i) <==> Pair(text, '\n', '\n', i)
    ensures At(text, SENTENCE, i) <==> Pair(text, '.', ' ', i)
  {
    if 0 <= i < |text| - 1 {
      assert text[i..i + 2] == [text[i], text[i + 1]];
    }
  }

  /** `rfind` finds the last pair, or there is none. */
  lemma LastPairIs(text: string, start: nat, size: nat, i: int)
    requires start + size <= |text|
    ensures LastPair(text, '\n', '\n', start, size, i) <==> i >= 0 && RFindIn(text, PARAGRAPH, start, start + size) == i
    ensures LastPair(text, '.', ' ', start, size, i) <==> i >= 0 && RFindIn(text, SENTENCE, start, start + size) == i
  {
    hide RFindIn, Pair, At;
    forall k: int ensures At(text, PARAGRAPH, k) <==> Pair(text, '\n', '\n', k) { PairIs(text, k); }
    forall k: int ensures At(text, SENTENCE, k) <==> Pair(text, '.', ' ', k) { PairIs(text, k); }
  }

  lemma FitsIs(text: string, from: nat, size: nat)
    ensures FitsWhole(text, from, size)
      <==> |text| <= from + size || exists k :: from <= k <= from + size && Pair(text, '\n', '\n', k)
  {
    hide FindFrom, At;
    forall k: int ensures At(text, PARAGRAPH, k) <==> Pair(text, '\n', '\n', k) { PairIs(text, k); }
    var end := FindFrom(text, PARAGRAPH, from);
    assert FindFrom(text, PARAGRAPH, from) == end && (end != -1 ==> Pair(text, '\n', '\n', end));
  }

  lemma TakenIs(text: string, start: nat, size: nat, overlap: nat, keep: bool, b: nat)
    ensures Taken(text, start, size, overlap, keep, b)
      <==> b > start + size / 2 || (keep && b - start >= EarlyFloor(overlap) && FitsWhole(text, b + 2, size))
  {
    hide FitsWhole, Pair;
    FitsIs(text, b + 2, size);
  }

  /**
   * Where a window ends, by the characters of the text: at the last paragraph break within the size when that one is
   * taken; else behind the full stop of the last sentence break when that lies past the middle; else at the size.
   */
  lemma WindowEndIsExact(text: string, start: nat, size: nat, overlap: nat, keep: bool, end: nat)
    ensures end == WindowEnd(text, start, size, overlap, keep) <==>
      if start + size >= |text| then end == start + size
      else if exists b :: LastPair(text, '\n', '\n', start, size, b) && Taken(text, start, size, overlap, keep, b)
      then LastPair(text, '\n', '\n', start, size, end)
      else if exists p :: LastPair(text, '.', ' ', start, size, p) && p > start + size / 2
      then LastPair(text, '.', ' ', start, size, end - 1)
      else end == start + size
  {
    hide RFindIn, FitsWhole, LastPair, Taken;
    if start + size < |text| {
      var b, p := RFindIn(text, PARAGRAPH, start, start + size), RFindIn(text, SENTENCE, start, start + size);
      forall i ensures LastPair(text, '\n', '\n', start, size, i) <==> i >= 0 && b == i {
        LastPairIs(text, start, size, i);
      }
      forall i ensures LastPair(text, '.', ' ', start, size, i) <==> i >= 0 && p == i {
        LastPairIs(text, start, size, i);
      }
      if b >= 0 {
        TakenIs(text, start, size, overlap, keep, b);
        assert LastPair(text, '\n', '\n', start, size, b);
      }
      assert p >= 0 ==> LastPair(text, '.', ' ', start, size, p);
    }
  }

  /** The largest overlap at which every window moves on: a break lies just past the middle, or has no room at all. */
  function MaxOverlap(size: nat): int {
    if size >= 5 then size / 2 else size - 1
  }

  predicate Advances(size: nat, overlap: nat) {
    overlap <= MaxOverlap(size)
  }

  /** The window moves on: this is what makes the loop terminate. */
  lemma WindowAdvances(text: string, start: nat, size: nat, overlap: nat, keepParagraphs: bool)
    requires Advances(size, overlap)
    ensures WindowEnd(text, start, size, overlap, keepParagraphs) - overlap > start
  {
    hide RFindIn, FitsWhole;
  }

  /**
   * The bound on the overlap is exact for every size: with any larger one some text has a window that does not move
   * forward - at a paragraph break just past the middle, or at its full size - and the loop never ends.
   */
  lemma OverlapBoundIsExact(size: nat, overlap: nat)
    ensures Advances(size, overlap) <==> forall text: string, start: nat, keep: bool ::
      start < |text| ==> WindowEnd(text, start, size, overlap, keep) - overlap > start
  {
    if Advances(size, overlap) {
      forall text: string, start: nat, keep: bool | start < |text|
        ensures WindowEnd(text, start, size, overlap, keep) - overlap > start
      {
        WindowAdvances(text, start, size, overlap, keep);
      }
    } else if size < 5 {
      assert 0 < |"x"| && !(WindowEnd("x", 0, size, overlap, false) - overlap > 0);
    } else {
      var text := StuckText(size);
      assert WindowEnd(text, 0, size, overlap, false) == size / 2 + 1 by {
        StuckTextBreaks(size);
      }
      assert 0 < |text| && !(WindowEnd(text, 0, size, overlap, false) - overlap > 0);
    }
  }

  /** One paragraph break just past the middle, and text beyond the size. */
  function StuckText(size: nat): string {
    seq(size + 1, i => if i == size / 2 + 1 || i == size / 2 + 2 then '\n' else 'x')
  }

  lemma StuckTextBreaks(size: nat)
    requires size >= 5
    ensures RFindIn(StuckText(size), PARAGRAPH, 0, size) == size / 2 + 1
  {
    var text, b := StuckText(size), size / 2 + 1;
    AtBreak(text, b);
    var r := RFindIn(text, PARAGRAPH, 0, size);
    assert r >= b;
    AtBreak(text, r);
  }

  // ----- The windows of a text

  datatype Window = Window(start: nat, end: nat)

  ghost function Windows(text: string, start: nat, size: nat, overlap: nat, keep: bool): seq<Window>
    requires Advances(size, overlap)
    decreases |text| - start
  {
    if start >= |text| then []
    else
      var end := WindowEnd(text, start, size, overlap, keep);
      WindowAdvances(text, start, size, overlap, keep);
      [Window(start, end)] + Windows(text, end - overlap, size, overlap, keep)
  }

  /** Python's `text[start:end]`, which stops at the end of the text. */
  function Slice(text: string, start: nat, end: nat): string {
    if end <= |text| then (if start <= end then text[start..end] else "")
    else if start <= |text| then text[start..] else ""
  }

  /** The stripped, non-empty pieces. */
  ghost function Pieces(text: string, ws: seq<Window>): seq<string> {
    if ws == [] then []
    else
      var piece := Strip(Slice(text, ws[0].start, ws[0].end));
      (if piece == "" then [] else [piece]) + Pieces(text, ws[1..])
  }

  /** The result of splitting: the text itself when it fits, else the pieces of its windows. */
  ghost function Split(text: string, size: nat, overlap: nat, keep: bool): seq<string>
    requires |text| > size ==> Advances(size, overlap)
  {
    if |text| <= size then [text] else Pieces(text, Windows(text, 0, size, overlap, keep))
  }

  /** `_split_by_size`. */
  method SplitBySize(text: string, size: nat, overlap: nat, keepParagraphs: bool) returns (chunks: seq<string>)
    requires |text| > size ==> Advances(size, overlap)
    ensures chunks == Split(text, size, overlap, keepParagraphs)
  {
    hide *;
    SplitCases(text, size, overlap, keepParagraphs);
    if |text| <= size {
      return [text];
    }
    var all: seq<string> := [];
    var start := 0;
    ghost var ws := Windows(text, 0, size, overlap, keepParagraphs);
    NonEmptyNothing();
    assert [] + Pieces(text, ws) == Pieces(text, ws);
    while start < |text|
      invariant NonEmpty(all) + Pieces(text, Windows(text, start, size, overlap, keepParagraphs)) == Pieces(text, ws)
      decreases |text| - start
    {
      var end := WindowEnd(text, start, size, overlap, keepParagraphs);
      WindowAdvances(text, start, size, overlap, keepParagraphs);
      var piece := Strip(Slice(text, start, end));
      NextWindow(text, start, size, overlap, keepParagraphs);
      NonEmptySnoc(all, piece);
      all := all + [piece];
      start := end - overlap;
    }
    chunks := NonEmpty(all);
    NothingBehind(text, start, size, overlap, keepParagraphs);
    assert chunks + [] == chunks;
  }

  lemma SplitCases(text: string, size: nat, overlap: nat, keep: bool)
    requires |text| > size ==> Advances(size, overlap)
    ensures Split(text, size, overlap, keep)
         == if |text| <= size then [text] else Pieces(text, Windows(text, 0, size, overlap, keep))
  {
  }

  lemma NonEmptyNothing()
    ensures NonEmpty([]) == []
  {
  }

  lemma NothingBehind(text: string, start: nat, size: nat, overlap: nat, keep: bool)
    requires Advances(size, overlap) && start >= |text|
    ensures Windows(text, start, size, overlap, keep) == []
    ensures Pieces(text, Windows(text, start, size, overlap, keep)) == []
  {
  }

  function NonEmpty(parts: seq<string>): seq<string> {
    if parts == [] then [] else (if parts[0] == "" then [] else [parts[0]]) + NonEmpty(parts[1..])
  }

  lemma {:induction false} NonEmptySnoc(parts: seq<string>, p: string)
    ensures NonEmpty(parts + [p]) == NonEmpty(parts) + (if p == "" then [] else [p])
  {
    if parts == [] {
      assert [] + [p] == [p] && [p][1..] == [];
    } else {
      assert (parts + [p])[1..] == parts[1..] + [p];
      NonEmptySnoc(parts[1..], p);
    }
  }

  lemma NextWindow(text: string, start: nat, size: nat, overlap: nat, keep: bool)
    requires Advances(size, overlap) && start < |text|
    requires WindowEnd(text, start, size, overlap, keep) - overlap > start
    ensures var end := WindowEnd(text, start, size, overlap, keep);
      var piece := Strip(Slice(text, start, end));
      Pieces(text, Windows(text, start, size, overlap, keep))
        == (if piece == "" then [] else [piece]) + Pieces(text, Windows(text, end - overlap, size, overlap, keep))
  {
    hide WindowEnd, Strip;
    var end := WindowEnd(text, start, size, overlap, keep);
    var rest := Windows(text, end - overlap, size, overlap, keep);
    assert ([Window(start, end)] + rest)[1..] == rest;
  }

  // ----- Sizes, coverage, conservation

  lemma StripShortens(s: string)
    ensures |Strip(s)| <= |s|
  {
    LStripFacts(s);
    RStripFacts(LStrip(s));
  }

  lemma WindowsUnfold(text: string, start: nat, size: nat, overlap: nat, keep: bool)
    requires Advances(size, overlap) && start < |text|
    ensures var end := WindowEnd(text, start, size, overlap, keep);
      end - overlap > start
      && Windows(text, start, size, overlap, keep)
           == [Window(start, end)] + Windows(text, end - overlap, size, overlap, keep)
  {
    hide WindowEnd;
    WindowAdvances(text, start, size, overlap, keep);
  }

  /** Each window is at most `size` wide and starts where the one before ended less the overlap, further on. */
  ghost predicate Chained(ws: seq<Window>, size: nat, overlap: nat) {
    && (forall i :: 0 <= i < |ws| ==> ws[i].start < ws[i].end <= ws[i].start + size)
    && forall i, j :: 0 <= i && j == i + 1 < |ws| ==> ws[j].start == ws[i].end - overlap > ws[i].start
  }

  lemma WindowInFront(w: Window, rest: seq<Window>, size: nat, overlap: nat)
    requires w.start < w.end - overlap && w.end <= w.start + size && Chained(rest, size, overlap)
    requires rest != [] ==> rest[0].start == w.end - overlap
    ensures Chained([w] + rest, size, overlap)
    ensures ([w] + rest)[|rest|] == if rest == [] then w else rest[|rest| - 1]
  {
  }

  /** The windows from `start` on form such a chain, and together reach the end. */
  lemma {:induction false} WindowsCover(text: string, start: nat, size: nat, overlap: nat, keep: bool)
    requires Advances(size, overlap)
    ensures var ws := Windows(text, start, size, overlap, keep);
      && (start < |text| ==> ws != [] && ws[0].start == start && ws[|ws| - 1].end - overlap >= |text|)
      && (start >= |text| ==> ws == [])
      && Chained(ws, size, overlap)
    decreases |text| - start
  {
    hide *;
    if start < |text| {
      var end := WindowEnd(text, start, size, overlap, keep);
      WindowsUnfold(text, start, size, overlap, keep);
      WindowsCover(text, end - overlap, size, overlap, keep);
      WindowInFront(Window(start, end), Windows(text, end - overlap, size, overlap, keep), size, overlap);
    } else {
      NothingBehind(text, start, size, overlap, keep);
      NothingChained(size, overlap);
    }
  }

  lemma NothingChained(size: nat, overlap: nat)
    ensures Chained([], size, overlap)
  {
  }

  /** Every position of the text lies in some window. */
  lemma {:induction false} EveryPositionCovered(text: string, start: nat, p: nat, size: nat, overlap: nat, keep: bool)
    requires Advances(size, overlap) && start <= p < |text|
    ensures exists w :: w in Windows(text, start, size, overlap, keep) && w.start <= p < w.end
    decreases |text| - start
  {
    hide WindowEnd;
    var end := WindowEnd(text, start, size, overlap, keep);
    WindowAdvances(text, start, size, overlap, keep);
    var ws := Windows(text, start, size, overlap, keep);
    if p < end {
      assert ws[0] in ws && ws[0].start <= p < ws[0].end;
    } else {
      EveryPositionCovered(text, end - overlap, p, size, overlap, keep);
      var w :| w in Windows(text, end - overlap, size, overlap, keep) && w.start <= p < w.end;
      assert w in ws;
    }
  }

  lemma SliceFits(text: string, start: nat, end: nat)
    requires start <= end
    ensures |Slice(text, start, end)| <= end - start
  {
  }

  /** No chunk is longer than the size, and none starts or ends in whitespace. */
  lemma {:induction false} PiecesFit(text: string, start: nat, size: nat, overlap: nat, keep: bool)
    requires Advances(size, overlap)
    ensures forall c :: c in Pieces(text, Windows(text, start, size, overlap, keep)) ==> Trimmed(c) && 0 < |c| <= size
    decreases |text| - start
  {
    hide *;
    if start >= |text| {
      NothingBehind(text, start, size, overlap, keep);
    } else {
      var end := WindowEnd(text, start, size, overlap, keep);
      WindowAdvances(text, start, size, overlap, keep);
      NextWindow(text, start, size, overlap, keep);
      StripShortens(Slice(text, start, end));
      StripFacts(Slice(text, start, end));
      SliceFits(text, start, end);
      PiecesFit(text, end - overlap, size, overlap, keep);
    }
  }

  /** The characters of `s` that are not whitespace, in order. */
  function Ink(s: string): string {
    if s == "" then "" else (if IsSpace(s[0]) then "" else [s[0]]) + Ink(s[1..])
  }

  lemma {:induction false} InkConcat(a: string, b: string)
    ensures Ink(a + b) == Ink(a) + Ink(b)
  {
    if a == "" {
      assert a + b == b;
    } else {
      assert (a + b)[1..] == a[1..] + b;
      InkConcat(a[1..], b);
    }
  }

  lemma {:induction false} InkOfSpace(s: string)
    requires forall i :: 0 <= i < |s| ==> IsSpace(s[i])
    ensures Ink(s) == ""
  {
    if s != "" {
      InkOfSpace(s[1..]);
    }
  }

  /** Stripping loses only whitespace. */
  lemma InkOfStrip(s: string)
    ensures Ink(Strip(s)) == Ink(s)
  {
    var l := LStrip(s);
    LStripFacts(s);
    RStripFacts(l);
    var a, b := s[..|s| - |l|], l[|RStrip(l)|..];
    assert s == a + l && l == RStrip(l) + b;
    assert Strip(s) == RStrip(l);
    assert (forall i :: 0 <= i < |a| ==> IsSpace(a[i])) && forall i :: 0 <= i < |b| ==> IsSpace(b[i]);
    hide Ink, IsSpace, Strip, RStrip, LStrip;
    InkOfSpace(a);
    InkOfSpace(b);
    InkConcat(a, l);
    InkConcat(RStrip(l), b);
  }

  lemma NothingLeft(text: string)
    ensures text[|text|..] == "" && Concat([]) == ""
  {
  }

  lemma SliceAndRest(text: string, start: nat, end: nat)
    requires start <= |text| && start <= end
    ensures text[start..] == Slice(text, start, end) + text[if end <= |text| then end else |text|..]
  {
  }

  /** Without overlap the windows tile the text: nothing but whitespace is lost, nothing repeated or reordered. */
  lemma {:induction false} InkIsConserved(text: string, start: nat, size: nat, keep: bool)
    requires size >= 1 && start <= |text|
    ensures Ink(Concat(Pieces(text, Windows(text, start, size, 0, keep)))) == Ink(text[start..])
    decreases |text| - start
  {
    hide WindowEnd, Strip, Ink, Slice, Concat, Pieces, Windows;
    if start < |text| {
      var end := WindowEnd(text, start, size, 0, keep);
      WindowAdvances(text, start, size, 0, keep);
      NextWindow(text, start, size, 0, keep);
      var slice := Slice(text, start, end);
      var piece := Strip(slice);
      InkOfStrip(slice);
      var stop := if end <= |text| then end else |text|;
      SliceAndRest(text, start, end);
      var rest := Pieces(text, Windows(text, end, size, 0, keep));
      if end <= |text| {
        InkIsConserved(text, end, size, keep);
      } else {
        NothingBehind(text, end, size, 0, keep);
        NothingLeft(text);
      }
      InkConcat(slice, text[stop..]);
      ConcatCons(piece, rest);
      InkConcat(piece, Concat(rest));
    } else {
      NothingBehind(text, start, size, 0, keep);
      NothingLeft(text);
    }
  }

  lemma ConcatCons(piece: string, rest: seq<string>)
    ensures Concat((if piece == "" then [] else [piece]) + rest) == piece + Concat(rest)
  {
    if piece == "" {
      assert [] + rest == rest;
    } else {
      assert ([piece] + rest)[1..] == rest;
    }
  }

  /** The whole result without overlap, short texts included. */
  lemma SplitConservesText(text: string, size: nat, keep: bool)
    requires size >= 1
    ensures Ink(Concat(Split(text, size, 0, keep))) == Ink(text)
  {
    if |text| <= size {
      assert Concat([text]) == text + Concat([text][1..]) == text + "" == text;
    } else {
      InkIsConserved(text, 0, size, keep);
      assert text[0..] == text;
    }
  }

  /**
   * No chunk is longer than the size, only a whole short text is not trimmed, and a text with something in it gives a
   * chunk with something in it.
   */
  lemma SplitFacts(text: string, size: nat, overlap: nat, keep: bool)
    requires |text| > size ==> Advances(size, overlap)
    ensures forall c :: c in Split(text, size, overlap, keep) ==> |c| <= size && (|text| > size ==> Trimmed(c))
    ensures |text| <= size ==> Split(text, size, overlap, keep) == [text]
    ensures Strip(text) != "" ==> exists c :: c in Split(text, size, overlap, keep) && Strip(c) != ""
  {
    hide Strip, Windows, Pieces;
    if |text| > size {
      PiecesFit(text, 0, size, overlap, keep);
      if Strip(text) != "" {
        StripFacts(text);
        var p :| 0 <= p < |text| && !IsSpace(text[p]);
        EveryPositionCovered(text, 0, p, size, overlap, keep);
        var w :| w in Windows(text, 0, size, overlap, keep) && w.start <= p < w.end;
        InkyWindow(text, Windows(text, 0, size, overlap, keep), w, p);
      }
    } else {
      assert text in Split(text, size, overlap, keep);
    }
  }

  lemma {:induction false} InkyWindow(text: string, ws: seq<Window>, w: Window, p: nat)
    requires w in ws && w.start <= p < w.end && p < |text| && !IsSpace(text[p])
    ensures exists c :: c in Pieces(text, ws) && Strip(c) != ""
  {
    hide Strip, IsSpace;
    if w == ws[0] {
      var slice := Slice(text, w.start, w.end);
      assert slice[p - w.start] == text[p];
      StripFacts(slice);
      assert Strip(slice) in Pieces(text, ws);
    } else {
      assert w in ws[1..];
      InkyWindow(text, ws[1..], w, p);
      var c :| c in Pieces(text, ws[1..]) && Strip(c) != "";
      assert c in Pieces(text, ws);
    }
  }

  // ----- Where a paragraph may be cut

  /** The start of the paragraph that `pos` lies in: just behind the last break that ends at or before `pos`. */
  function ParagraphStart(text: string, pos: nat): (q: nat)
    requires pos <= |text|
    ensures q <= pos && (q == 0 || (q >= 2 && At(text, PARAGRAPH, q - 2)))
    ensures forall i :: 0 <= i <= pos - 2 && i > q - 2 ==> !At(text, PARAGRAPH, i)
  {
    RFindIn(text, PARAGRAPH, 0, pos) + (if RFindIn(text, PARAGRAPH, 0, pos) < 0 then 1 else 2)
  }

  /**
   * With `keep_paragraphs` a cut falls inside a paragraph only if that paragraph is longer than a chunk, or starts
   * so early in the window that breaking in front of it would leave a stub or not move the window on.
   */
  lemma CutsSpareParagraphs(text: string, start: nat, size: nat, overlap: nat)
    requires Advances(size, overlap) && start < |text|
    requires var end := WindowEnd(text, start, size, overlap, true); end < |text| && !At(text, PARAGRAPH, end)
    ensures var end := WindowEnd(text, start, size, overlap, true);
      var q := ParagraphStart(text, end);
      ParagraphLength(text, q) > size || q < start + EarlyFloor(overlap) + 2
  {
    var end := WindowEnd(text, start, size, overlap, true);
    var q := ParagraphStart(text, end);
    if start + size < |text| && q - 2 >= start {
      hide ParagraphLength, ParagraphStart;
      var b := RFindIn(text, PARAGRAPH, start, start + size);
      assert b >= q - 2 && end != b;
    }
  }
}
