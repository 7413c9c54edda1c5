/**
 * Cutting a Markdown text at its headings (klai-knowledge-ingest/knowledge_ingest/chunker.py,
 * `_find_code_block_ranges`, `_split_by_headings`, `_drop_link_blocks` and `_clean_sections`). The matches of the
 * fence and heading patterns are inputs, in the order the pattern search gives them.
 */
module Headings {
  import opened Sequences
  import opened Strings
  import opened Chunker
  import opened StubMerging

  // ----- Fenced code

  /** A line that opens or may close a fenced block: a run of one marker character. */
  datatype Fence = Fence(start: nat, end: nat, mark: char) {
    function Length(): int { end - start }
  }

  /** Fences as the search finds them: apart from each other, in order, inside the text. */
  ghost predicate FencesInOrder(fences: seq<Fence>, textLen: nat) {
    && (forall i :: 0 <= i < |fences| ==> fences[i].start < fences[i].end <= textLen)
    && forall i, j :: 0 <= i < j < |fences| ==> fences[i].end <= fences[j].start
  }

  datatype Range = Range(start: nat, end: nat)

  predicate InRange(ranges: seq<Range>, pos: nat) {
    exists r :: r in ranges && r.start <= pos < r.end
  }

  predicate Closes(closer: Fence, opener: Fence) {
    closer.mark == opener.mark && closer.Length() >= opener.Length()
  }

  /** The first fence from `j` on that closes the opener, or the number of fences. */
  function Closer(fences: seq<Fence>, opener: Fence, j: nat): (r: nat)
    requires j <= |fences|
    ensures j <= r <= |fences| && (r < |fences| ==> Closes(fences[r], opener))
    ensures forall k :: j <= k < r ==> !Closes(fences[k], opener)
    decreases |fences| - j
  {
    if j == |fences| || Closes(fences[j], opener) then j else Closer(fences, opener, j + 1)
  }

  /** The blocks that begin at the fences from `i` on. */
  function Ranges(fences: seq<Fence>, i: nat, textLen: nat): seq<Range>
    requires i <= |fences|
    decreases |fences| - i
  {
    if i == |fences| then []
    else
      var j := Closer(fences, fences[i], i + 1);
      if j == |fences| then [Range(fences[i].start, textLen)]
      else [Range(fences[i].start, fences[j].end)] + Ranges(fences, j + 1, textLen)
  }

  /** `_find_code_block_ranges`. */
  method FindCodeBlockRanges(fences: seq<Fence>, textLen: nat) returns (ranges: seq<Range>)
    ensures ranges == Ranges(fences, 0, textLen)
  {
    hide Ranges, Closer, Closes;
    ranges := [];
    var i: nat := 0;
    RangesUnfold(fences, |fences|, textLen);
    while i < |fences|
      invariant i <= |fences|
      invariant ranges + Ranges(fences, i, textLen) == Ranges(fences, 0, textLen)
    {
      var opener := fences[i];
      var j := i + 1;
      var closed := false;
      ghost var from := i;
      RangesUnfold(fences, i, textLen);
      while j < |fences|
        invariant from + 1 <= j <= |fences| && i == from && !closed
        invariant Closer(fences, opener, from + 1) == Closer(fences, opener, j)
      {
        CloserUnfolds(fences, opener, j);
        if fences[j].mark == opener.mark && fences[j].Length() >= opener.Length() {
          closed := true;
          break;
        }
        j := j + 1;
      }
      CloserUnfolds(fences, opener, j);
      if !closed {
        ranges := ranges + [Range(opener.start, textLen)];
        return;
      }
      Associates(ranges, [Range(opener.start, fences[j].end)], Ranges(fences, j + 1, textLen));
      ranges := ranges + [Range(opener.start, fences[j].end)];
      i := j + 1;
    }
  }

  lemma RangesUnfold(fences: seq<Fence>, i: nat, textLen: nat)
    requires i <= |fences|
    ensures Ranges(fences, i, textLen) ==
      if i == |fences| then []
      else
        var j := Closer(fences, fences[i], i + 1);
        if j == |fences| then [Range(fences[i].start, textLen)]
        else [Range(fences[i].start, fences[j].end)] + Ranges(fences, j + 1, textLen)
  {
    hide Closer;
  }

  lemma CloserUnfolds(fences: seq<Fence>, opener: Fence, j: nat)
    requires j <= |fences|
    ensures Closer(fences, opener, j)
         == if j == |fences| || (fences[j].mark == opener.mark && fences[j].Length() >= opener.Length()) then j
            else Closer(fences, opener, j + 1)
  {
  }

  /** A reader going through the fences one by one: the block that is open behind the first `n`. */
  function OpenAfter(fences: seq<Fence>, n: nat): Option<Fence>
    requires n <= |fences|
  {
    if n == 0 then None
    else
      var f := fences[n - 1];
      match OpenAfter(fences, n - 1)
      case None => Some(f)
      case Some(opener) =>
        if f.mark == opener.mark && f.end - f.start >= opener.end - opener.start then None else Some(opener)
  }

  /** How many fences end at or before `pos`. */
  function Passed(fences: seq<Fence>, pos: nat): (n: nat)
    ensures n <= |fences|
  {
    if fences == [] then 0
    else if fences[|fences| - 1].end <= pos then |fences|
    else Passed(fences[..|fences| - 1], pos)
  }

  /** Code is what stands behind an open fence, and the fences themselves. */
  ghost predicate InCode(fences: seq<Fence>, pos: nat) {
    || OpenAfter(fences, Passed(fences, pos)).Some?
    || exists k :: 0 <= k < |fences| && fences[k].start <= pos < fences[k].end
  }

  lemma {:induction false} PassedIs(fences: seq<Fence>, pos: nat, textLen: nat)
    requires FencesInOrder(fences, textLen)
    ensures forall k :: 0 <= k < |fences| ==> (k < Passed(fences, pos) <==> fences[k].end <= pos)
  {
    if fences != [] {
      var last := fences[|fences| - 1];
      if last.end <= pos {
        forall k | 0 <= k < |fences| ensures fences[k].end <= pos {
          assert k < |fences| - 1 ==> fences[k].end <= last.start;
        }
      } else {
        PassedIs(fences[..|fences| - 1], pos, textLen);
      }
    }
  }

  /** From its opener up to its closer a block stays open. */
  lemma {:induction false} StaysOpen(fences: seq<Fence>, i: nat, n: nat)
    requires i < n <= |fences| && OpenAfter(fences, i) == None
    requires n <= Closer(fences, fences[i], i + 1)
    ensures OpenAfter(fences, n) == Some(fences[i])
  {
    if n > i + 1 {
      StaysOpen(fences, i, n - 1);
    }
  }

  lemma {:induction false} RangesStart(fences: seq<Fence>, i: nat, textLen: nat)
    requires FencesInOrder(fences, textLen) && i <= |fences|
    ensures forall r :: r in Ranges(fences, i, textLen) ==> i < |fences| && fences[i].start <= r.start
    decreases |fences| - i
  {
    if i < |fences| {
      var j := Closer(fences, fences[i], i + 1);
      if j < |fences| {
        RangesStart(fences, j + 1, textLen);
        assert j + 1 < |fences| ==> fences[i].end <= fences[j + 1].start;
      }
    }
  }

  lemma {:induction false} RangesAreCode(fences: seq<Fence>, i: nat, pos: nat, textLen: nat)
    requires FencesInOrder(fences, textLen) && i <= |fences| && pos < textLen
    requires OpenAfter(fences, i) == None && (i > 0 ==> fences[i - 1].end <= pos)
    ensures InRange(Ranges(fences, i, textLen), pos) <==> InCode(fences, pos)
    decreases |fences| - i
  {
    hide OpenAfter, Closes, Passed, InRange, Ranges, Closer;
    PassedIs(fences, pos, textLen);
    var n := Passed(fences, pos);
    if i == |fences| {
      BehindAllFences(fences, n, pos, textLen);
    } else {
      hide InCode;
      var opener, j := fences[i], Closer(fences, fences[i], i + 1);
      if pos < opener.start {
        BeforeTheBlock(fences, i, n, pos, textLen);
      } else if j == |fences| || pos < fences[j].end {
        InsideTheBlock(fences, i, n, pos, textLen);
      } else {
        OpenStep(fences, i, j);
        RangesAreCode(fences, j + 1, pos, textLen);
        InLaterRange(fences, i, pos, textLen);
      }
    }
  }

  lemma InRangeCons(first: Range, rest: seq<Range>, pos: nat)
    ensures InRange([first] + rest, pos) <==> first.start <= pos < first.end || InRange(rest, pos)
  {
    assert first in [first] + rest;
    assert forall r :: r in rest ==> r in [first] + rest;
  }

  lemma InLaterRange(fences: seq<Fence>, i: nat, pos: nat, textLen: nat)
    requires i < |fences|
    requires var j := Closer(fences, fences[i], i + 1); j < |fences| && fences[j].end <= pos
    ensures var j := Closer(fences, fences[i], i + 1);
      InRange(Ranges(fences, i, textLen), pos) <==> InRange(Ranges(fences, j + 1, textLen), pos)
  {
    hide InRange;
    var j := Closer(fences, fences[i], i + 1);
    InRangeCons(Range(fences[i].start, fences[j].end), Ranges(fences, j + 1, textLen), pos);
  }

  lemma BehindAllFences(fences: seq<Fence>, n: nat, pos: nat, textLen: nat)
    requires FencesInOrder(fences, textLen) && n == Passed(fences, pos)
    requires forall k :: 0 <= k < |fences| ==> (k < n <==> fences[k].end <= pos)
    requires OpenAfter(fences, |fences|) == None && (fences != [] ==> fences[|fences| - 1].end <= pos)
    ensures !InCode(fences, pos) && !InRange(Ranges(fences, |fences|, textLen), pos)
  {
    hide OpenAfter, Passed;
    assert n == |fences|;
  }

  lemma OpenStep(fences: seq<Fence>, i: nat, j: nat)
    requires i < j < |fences| && OpenAfter(fences, i) == None && j == Closer(fences, fences[i], i + 1)
    ensures OpenAfter(fences, j + 1) == None
  {
    StaysOpen(fences, i, j);
  }

  lemma BeforeTheBlock(fences: seq<Fence>, i: nat, n: nat, pos: nat, textLen: nat)
    requires FencesInOrder(fences, textLen) && i < |fences| && n == Passed(fences, pos) && pos < fences[i].start
    requires forall k :: 0 <= k < |fences| ==> (k < n <==> fences[k].end <= pos)
    requires OpenAfter(fences, i) == None && (i > 0 ==> fences[i - 1].end <= pos)
    ensures !InCode(fences, pos) && !InRange(Ranges(fences, i, textLen), pos)
  {
    hide OpenAfter, Closes, Ranges, Passed;
    RangesStart(fences, i, textLen);
    assert n == i;
    forall k | 0 <= k < |fences| ensures !(fences[k].start <= pos < fences[k].end) {
      assert k < i ==> fences[k].end <= pos;
      assert k > i ==> fences[i].end <= fences[k].start;
    }
  }

  lemma InsideTheBlock(fences: seq<Fence>, i: nat, n: nat, pos: nat, textLen: nat)
    requires FencesInOrder(fences, textLen) && i < |fences| && n == Passed(fences, pos)
    requires fences[i].start <= pos < textLen
    requires forall k :: 0 <= k < |fences| ==> (k < n <==> fences[k].end <= pos)
    requires OpenAfter(fences, i) == None
    requires var j := Closer(fences, fences[i], i + 1); j == |fences| || pos < fences[j].end
    ensures InCode(fences, pos) && InRange(Ranges(fences, i, textLen), pos)
  {
    var j := Closer(fences, fences[i], i + 1);
    var all := Ranges(fences, i, textLen);
    assert all[0] == Range(fences[i].start, if j == |fences| then textLen else fences[j].end) && all[0] in all;
    hide OpenAfter, Closes, Ranges, Passed, Closer;
    if pos >= fences[i].end {
      assert i < n <= j;
      StaysOpen(fences, i, n);
    }
  }

  /** The recorded ranges are exactly the positions a reader who keeps track of the open fence takes for code. */
  lemma CodeRangesAreExact(fences: seq<Fence>, textLen: nat, pos: nat)
    requires FencesInOrder(fences, textLen) && pos < textLen
    ensures InRange(Ranges(fences, 0, textLen), pos) <==> InCode(fences, pos)
  {
    RangesAreCode(fences, 0, pos, textLen);
  }

  // ----- Headings

  /** A heading line: where it begins and ends, its level, and the title the pattern captured. */
  datatype Heading = Heading(start: nat, end: nat, level: nat, title: string)

  /** Headings as the search finds them: whole lines, in order, with a line break between one and the next. */
  ghost predicate HeadingsInOrder(headings: seq<Heading>, textLen: nat) {
    && (forall i :: 0 <= i < |headings| ==> headings[i].start < headings[i].end <= textLen)
    && forall i, j :: 0 <= i < j < |headings| ==> headings[i].end < headings[j].start
  }

  /** The headings outside code. */
  function Live(headings: seq<Heading>, ranges: seq<Range>): (live: seq<Heading>)
  {
    if headings == [] then []
    else
      var h := headings[|headings| - 1];
      Live(headings[..|headings| - 1], ranges) + (if InRange(ranges, h.start) then [] else [h])
  }

  /** The headings a text behind these stands under: each one with no heading behind it of the same level or above. */
  function Enclosing(live: seq<Heading>): seq<Heading> {
    if live == [] then []
    else
      var h := live[|live| - 1];
      Shallower(Enclosing(live[..|live| - 1]), h.level) + [h]
  }

  function Shallower(stack: seq<Heading>, level: nat): (r: seq<Heading>)
    ensures forall h :: h in r <==> h in stack && h.level < level
  {
    if stack == [] then []
    else
      var h := stack[|stack| - 1];
      Shallower(stack[..|stack| - 1], level) + (if h.level < level then [h] else [])
  }

  function Titles(stack: seq<Heading>): seq<string> {
    seq(|stack|, i requires 0 <= i < |stack| => Strip(stack[i].title))
  }

  function PathOf(live: seq<Heading>): string {
    Join(PATH_SEPARATOR, Titles(Enclosing(live)))
  }

  /** The text between one heading line and the next; the line break that ends a heading belongs to it. */
  function Gap(text: string, live: seq<Heading>, k: nat): string
    requires k <= |live|
  {
    Slice(text, if k == 0 then 0 else live[k - 1].end + 1, if k == |live| then |text| else live[k].start)
  }

  /** One section more, unless its text is blank. */
  function WithSection(sections: seq<Section>, path: string, body: string): seq<Section> {
    if body == "" then sections else sections + [Section(path, body)]
  }

  /** The sections in front of the first `n` headings, each under the headings before it. */
  function SectionsBefore(text: string, live: seq<Heading>, n: nat): seq<Section>
    requires n <= |live| + 1
  {
    if n == 0 then []
    else WithSection(SectionsBefore(text, live, n - 1), PathOf(live[..n - 1]), Strip(Gap(text, live, n - 1)))
  }

  function AllSections(text: string, live: seq<Heading>): seq<Section> {
    SectionsBefore(text, live, |live| + 1)
  }

  lemma LiveSnoc(headings: seq<Heading>, h: Heading, ranges: seq<Range>)
    ensures Live(headings + [h], ranges)
         == if InRange(ranges, h.start) then Live(headings, ranges) else Live(headings, ranges) + [h]
  {
    assert (headings + [h])[..|headings|] == headings;
  }

  lemma EnclosingSnoc(live: seq<Heading>, h: Heading)
    ensures Enclosing(live + [h]) == Shallower(Enclosing(live), h.level) + [h]
  {
    assert (live + [h])[..|live|] == live;
  }

  lemma LiveIn(headings: seq<Heading>, ranges: seq<Range>)
    ensures forall h :: h in Live(headings, ranges) ==> h in headings
  {
    if headings != [] {
      LiveIn(headings[..|headings| - 1], ranges);
    }
  }

  lemma {:induction false} LiveInOrder(headings: seq<Heading>, ranges: seq<Range>, textLen: nat)
    requires HeadingsInOrder(headings, textLen)
    ensures HeadingsInOrder(Live(headings, ranges), textLen)
  {
    if headings != [] {
      var before, h := headings[..|headings| - 1], headings[|headings| - 1];
      LiveInOrder(before, ranges, textLen);
      LiveIn(before, ranges);
      var live := Live(before, ranges);
      forall i | 0 <= i < |live| ensures live[i].end < h.start {
        assert live[i] in before;
        var k :| 0 <= k < |before| && before[k] == live[i];
        assert headings[k].end < headings[|before|].start;
      }
    }
  }

  /** One heading more: the gap in front of it no longer runs to the end of the text. */
  lemma {:induction false} EarlierSections(text: string, live: seq<Heading>, h: Heading, n: nat)
    requires n <= |live|
    ensures SectionsBefore(text, live + [h], n) == SectionsBefore(text, live, n)
  {
    hide Strip, Slice, Enclosing;
    if n > 0 {
      EarlierSections(text, live, h, n - 1);
      assert (live + [h])[..n - 1] == live[..n - 1];
    }
  }

  lemma SectionsSnoc(text: string, live: seq<Heading>, h: Heading)
    ensures SectionsBefore(text, live + [h], |live| + 1)
      == WithSection(SectionsBefore(text, live, |live|), PathOf(live), Strip(Slice(text, LineEnd(live), h.start)))
  {
    hide Strip, Slice, PathOf;
    EarlierSections(text, live, h, |live|);
    assert (live + [h])[..|live|] == live;
  }

  /** Where the text behind the last heading begins. */
  function LineEnd(live: seq<Heading>): nat {
    if live == [] then 0 else live[|live| - 1].end + 1
  }

  /** `_split_by_headings`, with the stack of headings rebuilt at each one. */
  method SplitByHeadings(text: string, headings: seq<Heading>, fences: seq<Fence>) returns (sections: seq<Section>)
    requires HeadingsInOrder(headings, |text|)
    ensures sections == AllSections(text, Live(headings, Ranges(fences, 0, |text|)))
  {
    hide Strip, Slice, Live, InRange, Ranges, Titles, Join, AllSections, Reading;
    var codeRanges := FindCodeBlockRanges(fences, |text|);
    sections := [];
    var stack: seq<Heading> := [];
    var lastPos: nat, lastPath := 0, "";
    ghost var live: seq<Heading> := [];
    NothingRead(text, codeRanges);
    assert headings[..0] == [];
    for n := 0 to |headings|
      invariant live == Live(headings[..n], codeRanges)
      invariant Reading(text, live, sections, stack, lastPos, lastPath)
    {
      var h := headings[n];
      assert headings[..n + 1] == headings[..n] + [h];
      LiveSnoc(headings[..n], h, codeRanges);
      if InRange(codeRanges, h.start) {
        continue;
      }
      ReadOn(text, live, sections, stack, lastPos, lastPath, h);
      BlankSlice(text, lastPos, h.start);
      if h.start > lastPos {
        var body := Strip(Slice(text, lastPos, h.start));
        if body != "" {
          sections := sections + [Section(lastPath, body)];
        }
      }
      stack := Shallower(stack, h.level) + [h];
      lastPath := Join(PATH_SEPARATOR, Titles(stack));
      live := live + [h];
      lastPos := h.end + 1;
    }
    assert headings[..|headings|] == headings;
    LastSection(text, live, sections, stack, lastPos, lastPath);
    BlankSlice(text, lastPos, |text|);
    if lastPos < |text| {
      var body := Strip(Slice(text, lastPos, |text|));
      if body != "" {
        sections := sections + [Section(lastPath, body)];
      }
    }
  }

  /** What the loop knows behind the headings `live`. */
  ghost predicate Reading(text: string, live: seq<Heading>, sections: seq<Section>, stack: seq<Heading>, lastPos: nat,
                          lastPath: string) {
    && stack == Enclosing(live) && lastPath == PathOf(live) && lastPos == LineEnd(live)
    && sections == SectionsBefore(text, live, |live|)
  }

  lemma NothingRead(text: string, ranges: seq<Range>)
    ensures Reading(text, [], [], [], 0, "") && Live([], ranges) == []
  {
    assert Titles([]) == [];
  }

  lemma ReadOn(text: string, live: seq<Heading>, sections: seq<Section>, stack: seq<Heading>, lastPos: nat,
               lastPath: string, h: Heading)
    requires Reading(text, live, sections, stack, lastPos, lastPath)
    ensures var stack' := Shallower(stack, h.level) + [h];
      Reading(text, live + [h], WithSection(sections, lastPath, Strip(Slice(text, lastPos, h.start))), stack',
              h.end + 1, Join(PATH_SEPARATOR, Titles(stack')))
  {
    hide Strip, Slice, Shallower, Titles, Join, Enclosing, SectionsBefore;
    SectionsSnoc(text, live, h);
    EnclosingSnoc(live, h);
  }

  lemma BlankSlice(text: string, from: nat, to: nat)
    ensures from >= to ==> Strip(Slice(text, from, to)) == ""
  {
    if from >= to {
      assert Slice(text, from, to) == "";
    }
  }

  lemma LastSection(text: string, live: seq<Heading>, sections: seq<Section>, stack: seq<Heading>, lastPos: nat,
                    lastPath: string)
    requires Reading(text, live, sections, stack, lastPos, lastPath)
    ensures AllSections(text, live) == WithSection(sections, lastPath, Strip(Slice(text, lastPos, |text|)))
  {
    hide Strip, Slice, PathOf, Enclosing;
    assert live[..|live|] == live;
  }

  // ----- What the sections hold

  /** A heading is above the text behind it exactly when no heading since is of its level or a higher one. */
  lemma {:induction false} EnclosingIsExact(live: seq<Heading>, i: nat, textLen: nat)
    requires HeadingsInOrder(live, textLen) && i < |live|
    ensures live[i] in Enclosing(live) <==> forall j :: i < j < |live| ==> live[j].level > live[i].level
  {
    hide Enclosing;
    if i == |live| - 1 {
      LastEncloses(live);
    } else {
      var before, last := live[..|live| - 1], live[|live| - 1];
      assert live[i].end < last.start;
      EnclosingIsExact(before, i, textLen);
      assert live == before + [last];
      EnclosingSnoc(before, last);
      assert forall j :: i < j < |before| ==> before[j] == live[j];
      assert last.level > live[i].level ==> forall j :: i < j < |live| ==> j < |before| || live[j] == last;
    }
  }

  lemma LastEncloses(live: seq<Heading>)
    requires live != []
    ensures live[|live| - 1] in Enclosing(live)
  {
  }

  /** The levels grow from the outermost heading to the innermost, so a path has at most one heading of each level. */
  lemma {:induction false} EnclosingGrows(live: seq<Heading>)
    ensures forall i, j :: 0 <= i < j < |Enclosing(live)| ==> Enclosing(live)[i].level < Enclosing(live)[j].level
  {
    if live != [] {
      var h := live[|live| - 1];
      EnclosingGrows(live[..|live| - 1]);
      ShallowerGrows(Enclosing(live[..|live| - 1]), h.level);
      var kept := Shallower(Enclosing(live[..|live| - 1]), h.level);
      forall i | 0 <= i < |kept| ensures kept[i].level < h.level {
        assert kept[i] in kept;
      }
    }
  }

  lemma {:induction false} ShallowerGrows(stack: seq<Heading>, level: nat)
    requires forall i, j :: 0 <= i < j < |stack| ==> stack[i].level < stack[j].level
    ensures forall i, j :: 0 <= i < j < |Shallower(stack, level)| ==>
      Shallower(stack, level)[i].level < Shallower(stack, level)[j].level
  {
    if stack != [] {
      var before, h := stack[..|stack| - 1], stack[|stack| - 1];
      ShallowerGrows(before, level);
      var kept := Shallower(before, level);
      forall i | 0 <= i < |kept| ensures kept[i].level < h.level {
        assert kept[i] in kept && kept[i] in before;
        var k :| 0 <= k < |before| && before[k] == kept[i];
        assert stack[k].level < stack[|before|].level;
      }
    }
  }

  // ----- What the paths read

  /** The headings outside code, and no others. */
  lemma {:induction false} LiveIsExact(headings: seq<Heading>, ranges: seq<Range>)
    ensures forall h :: h in Live(headings, ranges) <==> h in headings && !InRange(ranges, h.start)
  {
    if headings != [] {
      var before, h := headings[..|headings| - 1], headings[|headings| - 1];
      LiveIsExact(before, ranges);
      assert headings == before + [h];
    }
  }

  /** No heading between `i` and the text in front of heading `n` is of its level or above. */
  ghost predicate StandsOver(live: seq<Heading>, i: nat, n: nat)
    requires i < n <= |live|
  {
    forall j :: i < j < n ==> live[j].level > live[i].level
  }

  /** The positions of exactly those headings in front of `n`, in text order. */
  ghost predicate Over(live: seq<Heading>, n: nat, positions: seq<nat>)
    requires n <= |live|
  {
    && (forall k :: 0 <= k < |positions| ==> positions[k] < n)
    && (forall j, k :: 0 <= j < k < |positions| ==> positions[j] < positions[k])
    && forall i: nat :: i < n ==> (i in positions <==> StandsOver(live, i, n))
  }

  function TitlesAt(live: seq<Heading>, positions: seq<nat>): seq<string>
    requires forall k :: 0 <= k < |positions| ==> positions[k] < |live|
  {
    seq(|positions|, k requires 0 <= k < |positions| => Strip(live[positions[k]].title))
  }

  function HeadingsAt(live: seq<Heading>, positions: seq<nat>): seq<Heading>
    requires forall k :: 0 <= k < |positions| ==> positions[k] < |live|
  {
    seq(|positions|, k requires 0 <= k < |positions| => live[positions[k]])
  }

  /** The positions below `level`. */
  function Below(live: seq<Heading>, positions: seq<nat>, level: nat): (r: seq<nat>)
    requires forall k :: 0 <= k < |positions| ==> positions[k] < |live|
    ensures forall i :: i in r <==> i in positions && live[i].level < level
    ensures |r| <= |positions|
  {
    if positions == [] then []
    else
      var n := |positions| - 1;
      Below(live, positions[..n], level) + (if live[positions[n]].level < level then [positions[n]] else [])
  }

  ghost predicate Rising(positions: seq<nat>) {
    forall j, k :: 0 <= j < k < |positions| ==> positions[j] < positions[k]
  }

  lemma RisingFront(front: seq<nat>, last: nat)
    requires Rising(front + [last])
    ensures Rising(front) && forall p :: p in front ==> p < last
  {
    var all := front + [last];
    assert forall k :: 0 <= k < |front| ==> all[k] == front[k];
    assert all[|front|] == last;
  }

  lemma RisingSnoc(front: seq<nat>, last: nat)
    requires Rising(front) && forall p :: p in front ==> p < last
    ensures Rising(front + [last])
  {
    var all := front + [last];
    forall j, k | 0 <= j < k < |all| ensures all[j] < all[k] {
      assert all[j] == front[j] && front[j] in front;
      assert k < |front| ==> all[k] == front[k];
    }
  }

  lemma {:induction false} BelowInOrder(live: seq<Heading>, positions: seq<nat>, level: nat)
    requires (forall k :: 0 <= k < |positions| ==> positions[k] < |live|) && Rising(positions)
    ensures Rising(Below(live, positions, level))
  {
    hide Below, Rising;
    BelowUnfolds(live, positions, level);
    if positions == [] {
      NothingRises();
    } else {
      var n := |positions| - 1;
      var front, last := positions[..n], positions[n];
      assert positions == front + [last];
      RisingFront(front, last);
      BelowInOrder(live, front, level);
      if live[last].level < level {
        RisingSnoc(Below(live, front, level), last);
      }
    }
  }

  lemma NothingRises()
    ensures Rising([])
  {
  }

  lemma {:induction false} BelowIsShallower(live: seq<Heading>, positions: seq<nat>, level: nat)
    requires forall k :: 0 <= k < |positions| ==> positions[k] < |live|
    ensures var r := Below(live, positions, level);
      && (forall k :: 0 <= k < |r| ==> r[k] < |live|)
      && HeadingsAt(live, r) == Shallower(HeadingsAt(live, positions), level)
  {
    hide Shallower, Below, HeadingsAt;
    BelowUnfolds(live, positions, level);
    BelowAreOf(live, positions, level);
    if positions == [] {
      NothingShallower(level);
      NoHeadingsAt(live);
    } else {
      var n := |positions| - 1;
      var front, last := positions[..n], positions[n];
      BelowIsShallower(live, front, level);
      assert positions == front + [last];
      HeadingsSnoc(live, front, last);
      ShallowerSnoc(HeadingsAt(live, front), live[last], level);
      if live[last].level < level {
        HeadingsSnoc(live, Below(live, front, level), last);
      }
    }
  }

  lemma NoHeadingsAt(live: seq<Heading>)
    ensures HeadingsAt(live, []) == []
  {
  }

  lemma BelowAreOf(live: seq<Heading>, positions: seq<nat>, level: nat)
    requires forall k :: 0 <= k < |positions| ==> positions[k] < |live|
    ensures var r := Below(live, positions, level); forall j :: 0 <= j < |r| ==> r[j] in positions
  {
    var r := Below(live, positions, level);
    forall j | 0 <= j < |r| ensures r[j] in positions {
      assert r[j] in r;
    }
  }

  lemma HeadingsSnoc(live: seq<Heading>, positions: seq<nat>, last: nat)
    requires last < |live| && forall k :: 0 <= k < |positions| ==> positions[k] < |live|
    ensures HeadingsAt(live, positions + [last]) == HeadingsAt(live, positions) + [live[last]]
  {
  }

  lemma BelowUnfolds(live: seq<Heading>, positions: seq<nat>, level: nat)
    requires forall k :: 0 <= k < |positions| ==> positions[k] < |live|
    ensures positions == [] ==> Below(live, positions, level) == []
    ensures positions != [] ==>
      var n := |positions| - 1;
      Below(live, positions, level)
        == if live[positions[n]].level < level then Below(live, positions[..n], level) + [positions[n]]
           else Below(live, positions[..n], level)
  {
    if positions != [] {
      var r := Below(live, positions[..|positions| - 1], level);
      assert r + [] == r;
    }
  }

  lemma NothingShallower(level: nat)
    ensures Shallower([], level) == []
  {
  }

  lemma ShallowerSnoc(stack: seq<Heading>, h: Heading, level: nat)
    ensures Shallower(stack + [h], level) == Shallower(stack, level) + (if h.level < level then [h] else [])
  {
    assert (stack + [h])[..|stack|] == stack;
  }

  /** Enclosing headings are the ones that stand over the text, found again by position. */
  lemma {:induction false} EnclosingIsOver(live: seq<Heading>, n: nat) returns (positions: seq<nat>)
    requires n <= |live|
    ensures Over(live, n, positions) && Enclosing(live[..n]) == HeadingsAt(live, positions)
  {
    hide Enclosing, Shallower, HeadingsAt, Over;
    if n == 0 {
      positions := [];
      NothingEncloses();
      NoHeadingsAt(live);
      NothingOver(live);
      assert live[..0] == [];
    } else {
      var before := EnclosingIsOver(live, n - 1);
      var h := live[n - 1];
      OverMeans(live, n - 1, before);
      BelowInOrder(live, before, h.level);
      BelowIsShallower(live, before, h.level);
      var kept := Below(live, before, h.level);
      positions := kept + [n - 1];
      assert live[..n] == live[..n - 1] + [h];
      EnclosingSnoc(live[..n - 1], h);
      HeadingsSnoc(live, kept, n - 1);
      OverStep(live, n, before, kept);
    }
  }

  lemma NothingOver(live: seq<Heading>)
    ensures Over(live, 0, [])
  {
  }

  lemma OverMeans(live: seq<Heading>, n: nat, positions: seq<nat>)
    requires n <= |live| && Over(live, n, positions)
    ensures (forall k :: 0 <= k < |positions| ==> positions[k] < |live|) && Rising(positions)
  {
  }

  lemma NothingEncloses()
    ensures Enclosing([]) == []
  {
  }

  lemma OverStep(live: seq<Heading>, n: nat, before: seq<nat>, kept: seq<nat>)
    requires 0 < n <= |live| && Over(live, n - 1, before)
    requires forall i :: i in kept <==> i in before && live[i].level < live[n - 1].level
    requires Rising(kept)
    ensures Over(live, n, kept + [n - 1])
  {
    var positions := kept + [n - 1];
    forall k | 0 <= k < |kept| ensures kept[k] < n - 1 {
      assert kept[k] in kept && kept[k] in before;
    }
    forall i: nat | i < n ensures i in positions <==> StandsOver(live, i, n) {
      if i < n - 1 {
        assert i in before <==> StandsOver(live, i, n - 1);
        assert i in positions <==> i in kept;
        assert StandsOver(live, i, n) <==> StandsOver(live, i, n - 1) && live[n - 1].level > live[i].level;
      } else {
        assert positions[|kept|] == n - 1;
      }
    }
  }

  /**
   * A section is the text in front of heading `n`, and its path is the trimmed titles of the headings that stand over
   * that text, in text order.
   */
  ghost predicate SectionOf(text: string, live: seq<Heading>, s: Section, n: nat) {
    && n <= |live| && s.body == Strip(Gap(text, live, n))
    && exists positions :: Over(live, n, positions) && s.path == Join(" > ", TitlesAt(live, positions))
  }

  /** The gaps with text in them, in order, one for each section. */
  ghost predicate SectionsOf(text: string, live: seq<Heading>, sections: seq<Section>, gaps: seq<nat>, upTo: nat)
    requires upTo <= |live| + 1
  {
    && |gaps| == |sections|
    && (forall k :: 0 <= k < |gaps| ==> gaps[k] < upTo && SectionOf(text, live, sections[k], gaps[k]))
    && (forall j, k :: 0 <= j < k < |gaps| ==> gaps[j] < gaps[k])
    && forall n: nat :: n < upTo ==> (n in gaps <==> Strip(Gap(text, live, n)) != "")
  }

  ghost predicate ReadAs(text: string, live: seq<Heading>, sections: seq<Section>, gaps: seq<nat>) {
    SectionsOf(text, live, sections, gaps, |live| + 1)
  }

  lemma PathIsOver(text: string, live: seq<Heading>, n: nat)
    requires n <= |live|
    ensures SectionOf(text, live, Section(PathOf(live[..n]), Strip(Gap(text, live, n))), n)
  {
    hide Strip, Gap, Join, Enclosing;
    var positions := EnclosingIsOver(live, n);
    assert Titles(HeadingsAt(live, positions)) == TitlesAt(live, positions);
  }

  lemma {:induction false} SectionsAreGaps(text: string, live: seq<Heading>, n: nat) returns (gaps: seq<nat>)
    requires n <= |live| + 1
    ensures SectionsOf(text, live, SectionsBefore(text, live, n), gaps, n)
  {
    hide Strip, Gap, PathOf, SectionOf;
    if n == 0 {
      gaps := [];
    } else {
      var before := SectionsAreGaps(text, live, n - 1);
      PathIsOver(text, live, n - 1);
      gaps := before + (if Strip(Gap(text, live, n - 1)) == "" then [] else [n - 1]);
    }
  }

  /**
   * Every section of a document, in order, is a stretch of text between heading lines outside code, trimmed and not
   * blank, and its path names exactly the headings that stand over it; no stretch with text is left out.
   */
  lemma PathsAreExact(text: string, headings: seq<Heading>, ranges: seq<Range>)
    ensures exists gaps :: ReadAs(text, Live(headings, ranges), AllSections(text, Live(headings, ranges)), gaps)
    ensures forall h :: h in Live(headings, ranges) <==> h in headings && !InRange(ranges, h.start)
  {
    hide ReadAs, Live, AllSections;
    LiveIsExact(headings, ranges);
    GapsAreThere(text, Live(headings, ranges));
  }

  lemma GapsAreThere(text: string, live: seq<Heading>)
    ensures exists gaps :: ReadAs(text, live, AllSections(text, live), gaps)
  {
    hide SectionsOf;
    var gaps := SectionsAreGaps(text, live, |live| + 1);
    assert ReadAs(text, live, AllSections(text, live), gaps);
  }

  /** The text up to and with the line of the first `n` headings, gap by gap. */
  function Woven(text: string, live: seq<Heading>, n: nat): string
    requires n <= |live|
  {
    if n == 0 then ""
    else Woven(text, live, n - 1) + Gap(text, live, n - 1) + Slice(text, live[n - 1].start, live[n - 1].end + 1)
  }

  lemma {:induction false} WovenIsFront(text: string, live: seq<Heading>, n: nat)
    requires HeadingsInOrder(live, |text|) && n <= |live|
    ensures Woven(text, live, n) == Slice(text, 0, if n == 0 then 0 else live[n - 1].end + 1)
  {
    hide Slice;
    if n == 0 {
      EmptyFront(text);
    } else {
      WovenIsFront(text, live, n - 1);
      var from := if n == 1 then 0 else live[n - 2].end + 1;
      assert from <= live[n - 1].start;
      SliceCat(text, 0, from, live[n - 1].start);
      SliceCat(text, 0, live[n - 1].start, live[n - 1].end + 1);
    }
  }

  lemma EmptyFront(text: string)
    ensures Slice(text, 0, 0) == ""
  {
  }

  lemma SliceCat(text: string, a: nat, b: nat, c: nat)
    requires a <= b <= c && b <= |text|
    ensures Slice(text, a, b) + Slice(text, b, c) == Slice(text, a, c)
  {
  }

  /** The gaps and the heading lines outside code tile the text. */
  lemma GapsTileTheText(text: string, headings: seq<Heading>, ranges: seq<Range>)
    requires HeadingsInOrder(headings, |text|)
    ensures var live := Live(headings, ranges);
      HeadingsInOrder(live, |text|) && Woven(text, live, |live|) + Gap(text, live, |live|) == text
  {
    var live := Live(headings, ranges);
    LiveInOrder(headings, ranges, |text|);
    WovenIsFront(text, live, |live|);
    hide Woven, Live;
    SliceRest(text, LineEnd(live));
  }

  lemma SliceRest(text: string, from: nat)
    ensures Slice(text, 0, from) + Slice(text, from, |text|) == text
  {
  }

  function Gaps(text: string, live: seq<Heading>, n: nat): seq<string>
    requires n <= |live| + 1
  {
    if n == 0 then [] else Gaps(text, live, n - 1) + [Gap(text, live, n - 1)]
  }

  function BodiesOf(sections: seq<Section>): seq<string> {
    if sections == [] then [] else BodiesOf(sections[..|sections| - 1]) + [sections[|sections| - 1].body]
  }

  lemma {:induction false} SectionsHoldGaps(text: string, live: seq<Heading>, n: nat)
    requires n <= |live| + 1
    ensures Ink(Concat(BodiesOf(SectionsBefore(text, live, n)))) == Ink(Concat(Gaps(text, live, n)))
  {
    hide Strip, PathOf, Gap, Ink, Concat;
    if n > 0 {
      SectionsHoldGaps(text, live, n - 1);
      var before, gap := SectionsBefore(text, live, n - 1), Gap(text, live, n - 1);
      InkOfStrip(gap);
      ConcatSnoc(Gaps(text, live, n - 1), gap);
      InkConcat(Concat(Gaps(text, live, n - 1)), gap);
      if Strip(gap) == "" {
        NoInk();
        assert Ink(Concat(Gaps(text, live, n - 1))) + "" == Ink(Concat(Gaps(text, live, n - 1)));
      } else {
        var s := Section(PathOf(live[..n - 1]), Strip(gap));
        assert (before + [s])[..|before|] == before;
        ConcatSnoc(BodiesOf(before), Strip(gap));
        InkConcat(Concat(BodiesOf(before)), Strip(gap));
      }
    }
  }

  lemma NoInk()
    ensures Ink("") == ""
  {
  }

  /** The sections of a document; a blank document has none. */
  function SectionsIn(text: string, headings: seq<Heading>, fences: seq<Fence>): seq<Section> {
    if Strip(text) == "" then [] else AllSections(text, Live(headings, Ranges(fences, 0, |text|)))
  }

  /** The text between the heading lines outside code. */
  function Between(text: string, headings: seq<Heading>, fences: seq<Fence>): seq<string> {
    var live := Live(headings, Ranges(fences, 0, |text|));
    Gaps(text, live, |live| + 1)
  }

  /** Cutting at headings loses nothing but whitespace and the heading lines themselves, and keeps the order. */
  lemma SplittingLosesNothing(text: string, headings: seq<Heading>, fences: seq<Fence>)
    requires Strip(text) != ""
    ensures Ink(Concat(BodiesOf(SectionsIn(text, headings, fences)))) == Ink(Concat(Between(text, headings, fences)))
  {
    var live := Live(headings, Ranges(fences, 0, |text|));
    SectionsHoldGaps(text, live, |live| + 1);
  }

  // ----- Cleaning

  /** The sections that are not mostly links. */
  function Prose(sections: seq<Section>, isLinks: Section -> bool): (r: seq<Section>)
    ensures forall s :: s in r <==> s in sections && !isLinks(s)
  {
    if sections == [] then []
    else
      var s := sections[|sections| - 1];
      Prose(sections[..|sections| - 1], isLinks) + (if isLinks(s) then [] else [s])
  }

  /** `_drop_link_blocks`: the link sections go, unless nothing else would be left. */
  function WithoutLinkBlocks(sections: seq<Section>, isLinks: Section -> bool): seq<Section> {
    if Prose(sections, isLinks) == [] then sections else Prose(sections, isLinks)
  }

  lemma {:induction false} ProseIsExact(sections: seq<Section>, isLinks: Section -> bool) returns (ps: seq<nat>)
    ensures Picks(ps, sections, (s: Section) => !isLinks(s)) && Prose(sections, isLinks) == Image(sections, ps)
  {
    hide Picks, Image;
    ps := [];
    if sections == [] {
      NothingPicked((s: Section) => !isLinks(s));
    } else {
      var front, last := sections[..|sections| - 1], sections[|sections| - 1];
      assert sections == front + [last];
      ps := ProseIsExact(front, isLinks);
      ps := PicksSnoc(ps, front, last, (s: Section) => !isLinks(s));
    }
  }

  /**
   * A document with text keeps a section. One with prose keeps exactly its prose, in order; one of links alone keeps
   * them all.
   */
  lemma LinkBlocksNeverEmptyADocument(sections: seq<Section>, isLinks: Section -> bool) returns (ps: seq<nat>)
    requires sections != []
    ensures WithoutLinkBlocks(sections, isLinks) != []
    ensures Picks(ps, sections, (s: Section) => !isLinks(s))
    ensures WithoutLinkBlocks(sections, isLinks)
         == if exists s :: s in sections && !isLinks(s) then Image(sections, ps) else sections
  {
    hide Picks, Image;
    ps := ProseIsExact(sections, isLinks);
    var r := Prose(sections, isLinks);
    assert r != [] ==> r[0] in r;
    if s :| s in sections && !isLinks(s) {
      assert s in r;
    }
  }

  /** A document without sections is a single one without a path. */
  function Whole(body: string, headings: seq<Heading>, fences: seq<Fence>): seq<Section> {
    if SectionsIn(body, headings, fences) == [] then [Section("", body)] else SectionsIn(body, headings, fences)
  }

  /** What is left to merge and cut. */
  function Kept(body: string, headings: seq<Heading>, fences: seq<Fence>, isLinks: Section -> bool): seq<Section> {
    WithoutLinkBlocks(Whole(body, headings, fences), isLinks)
  }

  /** `_clean_sections`: cut, drop link blocks, merge stubs. */
  method CleanSections(body: string, headings: seq<Heading>, fences: seq<Fence>, isLinks: Section -> bool)
    returns (sections: seq<Section>, total: nat, dropped: nat, merged: nat, ghost cuts: seq<nat>)
    requires HeadingsInOrder(headings, |body|)
    ensures var kept := Kept(body, headings, fences, isLinks);
      Grouped(kept, cuts, sections, |kept|) && AllStuck(kept, cuts, sections)
    ensures total == |Whole(body, headings, fences)|
    ensures sections != [] && |sections| + dropped + merged == total
  {
    hide Live, Ranges, AllSections, Grouped, AllStuck, Strip;
    sections := [];
    if Strip(body) != "" {
      sections := SplitByHeadings(body, headings, fences);
    }
    if sections == [] {
      sections := [Section("", body)];
    }
    total := |sections|;
    ProseIsShorter(sections, isLinks);
    ghost var prose := LinkBlocksNeverEmptyADocument(sections, isLinks);
    var kept := WithoutLinkBlocks(sections, isLinks);
    dropped := |sections| - |kept|;
    sections, merged, cuts := MergeStubs(kept);
    SomethingLeft(kept, sections, cuts);
  }

  lemma SomethingLeft(kept: seq<Section>, out: seq<Section>, cuts: seq<nat>)
    requires kept != [] && Grouped(kept, cuts, out, |kept|)
    ensures out != []
  {
    hide Group;
  }

  lemma {:induction false} ProseIsShorter(sections: seq<Section>, isLinks: Section -> bool)
    ensures |Prose(sections, isLinks)| <= |sections|
  {
    if sections != [] {
      ProseIsShorter(sections[..|sections| - 1], isLinks);
    }
  }
}
