/**
 * The derived lines of a chunk: appended from settings, stripped again before every patch
 * (klai-knowledge-ingest/knowledge_ingest/cheap_layer.py).
 */
module CheapLayer {
  import opened Sequences
  import opened Strings

  const ALIAS_LABEL := "Also known as: "
  const ANCHOR_LABEL := "Linked as: "

  /** The fields of an enriched chunk the derived lines go into. */
  datatype Fields = Fields(prefix: string, enriched: string)

  // ----- Building the lines

  /** Whether a text mentions a term, as a word and ignoring case: the regular-expression search, as an oracle. */
  type Mentions = (string, string) -> bool

  /** The names of a group that are neither there yet nor mentioned. */
  function Unnamed(group: seq<string>, names: seq<string>, text: string, mentions: Mentions): seq<string> {
    if group == [] then []
    else
      var t := group[|group| - 1];
      Unnamed(group[..|group| - 1], names, text, mentions) + (if t !in names && !mentions(text, t) then [t] else [])
  }

  predicate Mentioned(group: seq<string>, text: string, mentions: Mentions) {
    exists i :: 0 <= i < |group| && mentions(text, group[i])
  }

  /** The names of all groups the text mentions, group by group. */
  function AllNames(groups: seq<seq<string>>, text: string, mentions: Mentions): seq<string> {
    if groups == [] then []
    else
      var names, group := AllNames(groups[..|groups| - 1], text, mentions), groups[|groups| - 1];
      names + (if Mentioned(group, text, mentions) then Unnamed(group, names, text, mentions) else [])
  }

  /** `_alias_line`, up to the joining: the unmentioned names of every group that has a mentioned one. */
  method AliasNames(text: string, groups: seq<seq<string>>, mentions: Mentions) returns (names: seq<string>)
    ensures names == AllNames(groups, text, mentions)
  {
    names := [];
    for n := 0 to |groups|
      invariant names == AllNames(groups[..n], text, mentions)
    {
      var group := groups[n];
      assert groups[..n + 1][..n] == groups[..n] && groups[..n + 1][n] == group;
      if exists i | 0 <= i < |group| :: mentions(text, group[i]) {
        var add: seq<string> := [];
        for k := 0 to |group|
          invariant add == Unnamed(group[..k], names, text, mentions)
        {
          assert group[..k + 1][..k] == group[..k] && group[..k + 1][k] == group[k];
          if group[k] !in names && !mentions(text, group[k]) {
            add := add + [group[k]];
          }
        }
        assert group[..|group|] == group;
        names := names + add;
      }
    }
    assert groups[..|groups|] == groups;
  }

  lemma {:induction false} UnnamedMembers(group: seq<string>, names: seq<string>, text: string, mentions: Mentions,
                                          t: string)
    ensures t in Unnamed(group, names, text, mentions) <==> t in group && t !in names && !mentions(text, t)
  {
    if group != [] {
      UnnamedMembers(group[..|group| - 1], names, text, mentions, t);
      assert group == group[..|group| - 1] + [group[|group| - 1]];
    }
  }

  /** A name is on the alias line exactly when the text does not mention it but mentions another name of its group. */
  lemma {:induction false} AliasNamesAre(groups: seq<seq<string>>, text: string, mentions: Mentions, t: string)
    ensures t in AllNames(groups, text, mentions)
      <==> !mentions(text, t) && exists g, u :: g in groups && t in g && u in g && mentions(text, u)
  {
    if groups != [] {
      var before, group := groups[..|groups| - 1], groups[|groups| - 1];
      assert groups == before + [group];
      AliasNamesAre(before, text, mentions, t);
      UnnamedMembers(group, AllNames(before, text, mentions), text, mentions, t);
      hide Mentioned;
      assert group in groups;
      assert forall g :: g in before ==> g in groups;
    }
  }

  lemma {:induction false} UnnamedIsExact(group: seq<string>, names: seq<string>, text: string, mentions: Mentions)
    returns (ps: seq<nat>)
    ensures Picks(ps, group, (t: string) => t !in names && !mentions(text, t))
    ensures Unnamed(group, names, text, mentions) == Image(group, ps)
  {
    hide Picks, Image;
    ps := [];
    if group == [] {
      NothingPicked((t: string) => t !in names && !mentions(text, t));
    } else {
      var front, last := group[..|group| - 1], group[|group| - 1];
      assert group == front + [last];
      ps := UnnamedIsExact(front, names, text, mentions);
      ps := PicksSnoc(ps, front, last, (t: string) => t !in names && !mentions(text, t));
    }
  }

  /** Each group adds its new, unmentioned names behind those there are, in its own order, when a name is mentioned. */
  lemma NamesAreAppended(groups: seq<seq<string>>, group: seq<string>, text: string, mentions: Mentions)
    returns (ps: seq<nat>)
    ensures Picks(ps, group, (t: string) => t !in AllNames(groups, text, mentions) && !mentions(text, t))
    ensures AllNames(groups + [group], text, mentions)
         == AllNames(groups, text, mentions)
            + (if exists u :: u in group && mentions(text, u) then Image(group, ps) else [])
  {
    hide Picks, Image;
    assert (groups + [group])[..|groups|] == groups;
    ps := UnnamedIsExact(group, AllNames(groups, text, mentions), text, mentions);
    assert Mentioned(group, text, mentions) <==> exists u :: u in group && mentions(text, u);
  }

  function AliasLine(names: seq<string>): string {
    if names == [] then "" else ALIAS_LABEL + Join(" | ", names)
  }

  /** Python's `s.split()`: the maximal runs without whitespace. */
  function Split(s: string): seq<string> {
    SplitFrom(s, "")
  }

  function SplitFrom(s: string, word: string): seq<string>
    decreases |s|
  {
    if s == "" then (if word == "" then [] else [word])
    else if IsSpace(s[0]) then (if word == "" then [] else [word]) + SplitFrom(s[1..], "")
    else SplitFrom(s[1..], word + [s[0]])
  }

  function AnchorTerms(anchors: seq<string>): seq<string> {
    seq(|anchors|, i requires 0 <= i < |anchors| => Join(" ", Split(anchors[i])))
  }

  function AnchorLine(anchors: seq<string>): string {
    if anchors == [] then "" else ANCHOR_LABEL + Join(" | ", AnchorTerms(anchors))
  }

  lemma {:induction false} SplitHasNoBreak(s: string, word: string)
    requires '\n' !in word
    ensures forall w :: w in SplitFrom(s, word) ==> '\n' !in w
    decreases |s|
  {
    if s != "" {
      SplitHasNoBreak(s[1..], if IsSpace(s[0]) then "" else word + [s[0]]);
    }
  }

  /** Whatever the anchor texts hold, their line is one line. */
  lemma AnchorLineIsOneLine(anchors: seq<string>)
    ensures '\n' !in AnchorLine(anchors)
    ensures AnchorLine(anchors) == "" || ANCHOR_LABEL <= AnchorLine(anchors)
  {
    forall t | t in AnchorTerms(anchors) ensures '\n' !in t {
      var i :| 0 <= i < |anchors| && t == Join(" ", Split(anchors[i]));
      SplitHasNoBreak(anchors[i], "");
      JoinWithout(" ", Split(anchors[i]), '\n');
    }
    JoinWithout(" | ", AnchorTerms(anchors), '\n');
  }

  // ----- What the lines read

  /** The alias line holds its names in order. */
  lemma AliasLineReads(names: seq<string>)
    ensures if names == [] then AliasLine(names) == "" else LaidOut(AliasLine(names), "Also known as: ", " | ", names)
  {
    hide Placed;
    if names != [] {
      var starts := JoinIsPlaced(ALIAS_LABEL, " | ", names);
    }
  }

  /**
   * A text with its whitespace collapsed, character by character: behind the first ink a run of whitespace in front
   * of more ink reads as one space, all other whitespace is gone.
   */
  function Collapsed(s: string, started: bool): string {
    if s == "" then ""
    else if !IsSpace(s[0]) then [s[0]] + Collapsed(s[1..], true)
    else (if started && |s| > 1 && !IsSpace(s[1]) then " " else "") + Collapsed(s[1..], started)
  }

  lemma {:induction false} SpaceThenInk(s: string)
    requires s != "" && IsSpace(s[0])
    ensures var rest := Collapsed(s[1..], false);
      Collapsed(s, true) == (if rest == "" then "" else " " + rest)
  {
    hide IsSpace;
    if |s| > 1 && IsSpace(s[1]) {
      SpaceThenInk(s[1..]);
    }
  }

  lemma {:induction false} WordsCollapse(s: string, word: string)
    ensures Join(" ", SplitFrom(s, word)) == word + Collapsed(s, word != "")
    ensures SplitFrom(s, word) == [] <==> word + Collapsed(s, word != "") == ""
    decreases |s|
  {
    hide IsSpace;
    if s != "" {
      if IsSpace(s[0]) {
        WordsCollapse(s[1..], "");
        var later := SplitFrom(s[1..], "");
        if word != "" {
          SpaceThenInk(s);
          assert SplitFrom(s, word) == [word] + later && ([word] + later)[1..] == later;
        } else {
          assert [] + later == later;
        }
      } else {
        WordsCollapse(s[1..], word + [s[0]]);
      }
    }
  }

  /** The anchor line holds its link texts in order, each with its whitespace collapsed. */
  lemma AnchorLineReads(anchors: seq<string>)
    ensures if anchors == [] then AnchorLine(anchors) == ""
      else LaidOut(AnchorLine(anchors), "Linked as: ", " | ",
                   seq(|anchors|, i requires 0 <= i < |anchors| => Collapsed(anchors[i], false)))
  {
    hide Placed, Collapsed, SplitFrom, Join;
    var terms := seq(|anchors|, i requires 0 <= i < |anchors| => Collapsed(anchors[i], false));
    forall i | 0 <= i < |anchors| ensures AnchorTerms(anchors)[i] == terms[i] {
      WordsCollapse(anchors[i], "");
    }
    assert AnchorTerms(anchors) == terms;
    if anchors != [] {
      var starts := JoinIsPlaced(ANCHOR_LABEL, " | ", terms);
    }
  }

  // ----- Stripping and appending

  /** `_without_last_paragraph`: a labelled last paragraph goes, unless the chunk's own text ends with it. */
  function WithoutLastParagraph(enriched: string, lbl: string, text: string): string {
    var (head, found, last) := RPartition(enriched, PARAGRAPH);
    if found && lbl <= last && !EndsWith(text, last) then head else enriched
  }

  /** The alias line that stands both at the end of the prefix and of the embedded text. */
  function WithoutTwin(f: Fields): Fields {
    var (head, _, last) := RPartition(f.prefix, "\n");
    if ALIAS_LABEL <= last && EndsWith(f.enriched, PARAGRAPH + last)
    then Fields(head, f.enriched[..|f.enriched| - |last| - 2])
    else f
  }

  /** `_without_derived_lines`. */
  function Stripped(f: Fields, text: string): Fields {
    var f := f.(enriched := WithoutLastParagraph(f.enriched, ANCHOR_LABEL, text));
    var f := WithoutTwin(f);
    f.(enriched := WithoutLastParagraph(f.enriched, ALIAS_LABEL, text))
  }

  function Appended(f: Fields, alias: string, anchor: string): Fields {
    var f := if alias == "" then f
             else Fields(Strip(f.prefix + "\n" + alias), f.enriched + PARAGRAPH + alias);
    if anchor == "" then f else f.(enriched := f.enriched + PARAGRAPH + anchor)
  }

  /** The line the two settings give for one chunk. */
  datatype Lines = Lines(alias: string, anchor: string)

  /** The enriched-chunk part of `cheap_fields`. */
  function Patched(f: Fields, lines: Lines, text: string): Fields {
    Appended(Stripped(f, text), lines.alias, lines.anchor)
  }

  /** Every line is empty or carries its label; the anchor line is one line, as `AnchorLine` always is. */
  predicate Labelled(lines: Lines) {
    && (lines.alias == "" || (ALIAS_LABEL <= lines.alias && |lines.alias| > |ALIAS_LABEL|))
    && (lines.anchor == "" || ANCHOR_LABEL <= lines.anchor)
    && '\n' !in lines.anchor
  }

  /** A pair the strip leaves alone. */
  predicate Fresh(f: Fields, text: string) {
    Stripped(f, text) == f
  }

  /** What makes one patch undoable: a one-line, right-trimmed alias line, an anchor line the text does not end with. */
  predicate Undoable(f: Fields, lines: Lines, text: string) {
    && (lines.alias != "" ==>
          && '\n' !in lines.alias && !IsSpace(lines.alias[|lines.alias| - 1])
          && (f.prefix == "" || !IsSpace(f.prefix[0])))
    && (lines.anchor != "" ==> !EndsWith(text, lines.anchor))
  }

  /** A last paragraph without a line break is found again. */
  lemma LastParagraph(x: string, last: string)
    requires '\n' !in last
    ensures RPartition(x + PARAGRAPH + last, PARAGRAPH) == (x, true, last)
  {
    var s := x + PARAGRAPH + last;
    AtBreak(s, |x|);
    forall i | i > |x| ensures !At(s, PARAGRAPH, i) {
      AtBreak(s, i);
      assert |x| < i < |s| - 1 ==> s[i + 1] in last;
    }
    RFindIs(s, PARAGRAPH, |x|);
    assert s[..|x|] == x && s[|x| + 2..] == last;
  }

  lemma LastLine(p: string, last: string)
    requires '\n' !in last
    ensures RPartition(p + "\n" + last, "\n") == (p, true, last)
    ensures RPartition(last, "\n") == ("", false, last)
  {
    var s := p + "\n" + last;
    AtBreak(s, |p|);
    forall i | i > |p| ensures !At(s, "\n", i) {
      AtBreak(s, i);
      assert |p| < i < |s| ==> s[i] in last;
    }
    RFindIs(s, "\n", |p|);
    assert s[..|p|] == p && s[|p| + 1..] == last;
    forall i ensures !At(last, "\n", i) {
      AtBreak(last, i);
    }
    RFindIs(last, "\n", -1);
  }

  /** Where a text ends in a paragraph without line breaks, that paragraph is the last one. */
  lemma EndParagraph(s: string, last: string)
    requires EndsWith(s, PARAGRAPH + last) && '\n' !in last
    ensures RPartition(s, PARAGRAPH) == (s[..|s| - |last| - 2], true, last)
  {
    var x := s[..|s| - |last| - 2];
    assert s == x + (PARAGRAPH + last) == x + PARAGRAPH + last;
    LastParagraph(x, last);
  }

  lemma LastOfLines(p: string)
    ensures '\n' !in RPartition(p, "\n").2
    ensures |RPartition(p, "\n").0| <= |p|
    ensures RPartition(p, "\n").0 <= p
  {
    var r := RFind(p, "\n");
    forall i | r < i < |p| ensures p[i] != '\n' {
      AtBreak(p, i);
    }
  }

  lemma FreshSteps(f: Fields, text: string)
    requires Fresh(f, text)
    ensures WithoutLastParagraph(f.enriched, ANCHOR_LABEL, text) == f.enriched
    ensures WithoutTwin(f) == f
    ensures WithoutLastParagraph(f.enriched, ALIAS_LABEL, text) == f.enriched
  {
    Shortens(f.enriched, ANCHOR_LABEL, text);
    var g := f.(enriched := WithoutLastParagraph(f.enriched, ANCHOR_LABEL, text));
    Shortens(WithoutTwin(g).enriched, ALIAS_LABEL, text);
  }

  lemma Shortens(enriched: string, lbl: string, text: string)
    ensures var r := WithoutLastParagraph(enriched, lbl, text);
      |r| <= |enriched| && (|r| == |enriched| ==> r == enriched)
  {
  }

  /** The last paragraph decides; one without the label stays. */
  lemma ParagraphStep(x: string, last: string, lbl: string, text: string)
    requires '\n' !in last
    ensures WithoutLastParagraph(x + PARAGRAPH + last, lbl, text)
         == if lbl <= last && !EndsWith(text, last) then x else x + PARAGRAPH + last
  {
    LastParagraph(x, last);
  }

  lemma LabelsDiffer(a: string, b: string)
    requires ALIAS_LABEL <= a && ANCHOR_LABEL <= b
    ensures !(ANCHOR_LABEL <= a) && !(ALIAS_LABEL <= b) && a != b
  {
    assert a[0] == 'A' && b[0] == 'L';
  }

  /** While an anchor line stays at the end, the alias line in front of it is out of reach. */
  lemma AnchorShieldsAlias(prefix: string, x: string, anchor: string, text: string)
    requires ANCHOR_LABEL <= anchor && '\n' !in anchor
    ensures WithoutTwin(Fields(prefix, x + PARAGRAPH + anchor)) == Fields(prefix, x + PARAGRAPH + anchor)
    ensures WithoutLastParagraph(x + PARAGRAPH + anchor, ALIAS_LABEL, text) == x + PARAGRAPH + anchor
  {
    var s := x + PARAGRAPH + anchor;
    var last := RPartition(prefix, "\n").2;
    LastOfLines(prefix);
    LastParagraph(x, anchor);
    if ALIAS_LABEL <= last && EndsWith(s, PARAGRAPH + last) {
      EndParagraph(s, last);
      LabelsDiffer(last, anchor);
    }
    assert anchor[0] == 'L';
  }

  /** Cases without an alias line. */
  lemma AnchorOnly(f: Fields, anchor: string, text: string)
    requires Fresh(f, text) && ANCHOR_LABEL <= anchor && '\n' !in anchor
    ensures Stripped(Fields(f.prefix, f.enriched + PARAGRAPH + anchor), text) == f <==> !EndsWith(text, anchor)
  {
    FreshSteps(f, text);
    ParagraphStep(f.enriched, anchor, ANCHOR_LABEL, text);
    AnchorShieldsAlias(f.prefix, f.enriched, anchor, text);
    assert f.(enriched := f.enriched) == f;
  }

  /** The prefix `Appended` gives when nothing has to be trimmed. */
  lemma GoodPrefix(p: string, alias: string)
    requires ALIAS_LABEL <= alias && !IsSpace(alias[|alias| - 1])
    requires p == "" || !IsSpace(p[0])
    ensures Strip(p + "\n" + alias) == if p == "" then alias else p + "\n" + alias
  {
    assert alias[0] == 'A';
    if p == "" {
      assert ("" + "\n" + alias)[1..] == alias;
      assert LStrip("" + "\n" + alias) == LStrip(alias) == alias;
      TrimmedIsStripped(alias);
    } else {
      TrimmedIsStripped(p + "\n" + alias);
    }
  }

  /** A twin at the end of prefix and embedded text goes from both. */
  lemma TwinGoes(p: string, x: string, alias: string)
    requires ALIAS_LABEL <= alias && '\n' !in alias
    ensures WithoutTwin(Fields(if p == "" then alias else p + "\n" + alias, x + PARAGRAPH + alias)) == Fields(p, x)
  {
    hide RPartition, EndsWith;
    LastLine(p, alias);
    EndsInLine(x, alias);
  }

  lemma EndsInLine(x: string, line: string)
    ensures var s := x + PARAGRAPH + line; EndsWith(s, PARAGRAPH + line) && s[..|s| - |line| - 2] == x
  {
    assert (x + PARAGRAPH + line)[|x|..] == PARAGRAPH + line;
  }

  lemma GoodAlias(f: Fields, lines: Lines, text: string)
    requires Fresh(f, text) && Labelled(lines) && lines.alias != ""
    requires '\n' !in lines.alias && !IsSpace(lines.alias[|lines.alias| - 1])
    requires f.prefix == "" || !IsSpace(f.prefix[0])
    ensures Stripped(Appended(f, lines.alias, lines.anchor), text) == f
      <==> lines.anchor != "" ==> !EndsWith(text, lines.anchor)
  {
    var alias, anchor := lines.alias, lines.anchor;
    var p' := if f.prefix == "" then alias else f.prefix + "\n" + alias;
    var x := f.enriched + PARAGRAPH + alias;
    GoodPrefix(f.prefix, alias);
    FreshSteps(f, text);
    TwinGoes(f.prefix, f.enriched, alias);
    assert alias[0] == 'A';
    hide RPartition, EndsWith, Strip;
    if anchor == "" {
      ParagraphStep(f.enriched, alias, ANCHOR_LABEL, text);
      assert Stripped(Fields(p', x), text) == f;
    } else {
      ParagraphStep(x, anchor, ANCHOR_LABEL, text);
      AnchorShieldsAlias(p', x, anchor, text);
      assert |p'| > |f.prefix|;
    }
  }

  /** Only the twin step touches the prefix: it keeps it or takes its last line off. */
  lemma PrefixAfterStrip(f: Fields, text: string)
    ensures var e := WithoutLastParagraph(f.enriched, ANCHOR_LABEL, text);
      var (head, _, last) := RPartition(f.prefix, "\n");
      Stripped(f, text).prefix
        == if ALIAS_LABEL <= last && EndsWith(e, PARAGRAPH + last) then head else f.prefix
  {
  }

  lemma StripStartsAtAlias(p: string, alias: string)
    requires ALIAS_LABEL <= alias
    ensures Strip(p + "\n" + alias) != "" && Trimmed(Strip(p + "\n" + alias))
  {
    var s := p + "\n" + alias;
    assert s[|p| + 1] == alias[0] == 'A';
    StripFacts(s);
  }

  /** With a clean front, stripping only takes the alias line's own trailing whitespace. */
  lemma TrimmedEnd(p: string, alias: string)
    requires ALIAS_LABEL <= alias && (p == "" || !IsSpace(p[0]))
    ensures Strip(p + "\n" + alias) == if p == "" then RStrip(alias) else p + "\n" + RStrip(alias)
  {
    assert alias[0] == 'A';
    RStripKeepsFront("", alias);
    if p == "" {
      assert ("" + "\n" + alias)[1..] == alias;
      assert LStrip("" + "\n" + alias) == LStrip(alias) == alias;
    } else {
      RStripKeepsFront(p + "\n", alias);
      assert LStrip(p + "\n" + alias) == p + "\n" + alias;
    }
  }

  lemma {:induction false} RStripKeepsFront(front: string, s: string)
    requires s != "" && !IsSpace(s[0])
    ensures RStrip(front + s) == front + RStrip(s)
  {
    if |s| > 1 && IsSpace(s[|s| - 1]) {
      RStripKeepsFront(front, s[..|s| - 1]);
      assert (front + s)[..|front + s| - 1] == front + s[..|s| - 1];
    }
  }

  /** A bad alias line leaves its mark in the prefix, whatever happens to the embedded text. */
  lemma BadAlias(f: Fields, lines: Lines, text: string)
    requires Labelled(lines) && lines.alias != ""
    requires '\n' in lines.alias || IsSpace(lines.alias[|lines.alias| - 1]) || (f.prefix != "" && IsSpace(f.prefix[0]))
    ensures Stripped(Appended(f, lines.alias, lines.anchor), text) != f
  {
    var alias := lines.alias;
    var g := Appended(f, alias, lines.anchor);
    PrefixAfterStrip(g, text);
    StripStartsAtAlias(f.prefix, alias);
    LastOfLines(g.prefix);
    if f.prefix != "" && IsSpace(f.prefix[0]) {
      assert RPartition(g.prefix, "\n").0 != "" ==> !IsSpace(RPartition(g.prefix, "\n").0[0]);
    } else {
      TrimmedEnd(f.prefix, alias);
      RStripFacts(alias);
      if '\n' in RStrip(alias) {
        InnerBreak(f.prefix, RStrip(alias));
      } else {
        TrailingSpace(f, lines, text);
      }
    }
  }

  /** A break inside the alias line: the last line cut off is shorter than the line put on. */
  lemma InnerBreak(p: string, line: string)
    requires '\n' in line && line[0] != '\n'
    ensures var p' := if p == "" then line else p + "\n" + line;
      p' != p && RPartition(p', "\n").0 != p
  {
    var p' := if p == "" then line else p + "\n" + line;
    var i :| 0 <= i < |line| && line[i] == '\n';
    var j := |p'| - |line| + i;
    assert p'[j] == '\n';
    AtBreak(p', j);
    var r := RFind(p', "\n");
    assert r >= j > |p|;
  }

  /** Trailing whitespace: the trimmed line of the prefix is no longer what the embedded text ends with. */
  lemma TrailingSpace(f: Fields, lines: Lines, text: string)
    requires Labelled(lines) && lines.alias != ""
    requires f.prefix == "" || !IsSpace(f.prefix[0])
    requires '\n' !in RStrip(lines.alias)
    requires '\n' in lines.alias || IsSpace(lines.alias[|lines.alias| - 1])
    ensures Stripped(Appended(f, lines.alias, lines.anchor), text) != f
  {
    hide Strip, RStrip, RPartition, EndsWith, WithoutLastParagraph, Stripped, IsSpace, Appended;
    var alias, anchor := lines.alias, lines.anchor;
    var line := RStrip(alias);
    var g := Appended(f, alias, anchor);
    AppendedIs(f, alias, anchor);
    TrimmedEnd(f.prefix, alias);
    LastLine(f.prefix, line);
    PrefixAfterStrip(g, text);
    assert RPartition(g.prefix, "\n").2 == line;
    NoTwinBehindSpace(f.enriched, alias, anchor, text);
    TrailingFacts(alias);
    assert Stripped(g, text).prefix == g.prefix != f.prefix;
  }

  lemma LastChar(e: string, alias: string)
    requires alias != ""
    ensures var x := e + PARAGRAPH + alias; x != "" && x[|x| - 1] == alias[|alias| - 1]
  {
  }

  lemma AppendedIs(f: Fields, alias: string, anchor: string)
    requires alias != ""
    ensures var x := f.enriched + PARAGRAPH + alias;
      Appended(f, alias, anchor)
        == Fields(Strip(f.prefix + "\n" + alias), if anchor == "" then x else x + PARAGRAPH + anchor)
  {
    hide Strip;
  }

  /** Behind trailing whitespace the trimmed line is not found at the end of the embedded text, anchor line or not. */
  lemma NoTwinBehindSpace(e: string, alias: string, anchor: string, text: string)
    requires ALIAS_LABEL <= alias && '\n' !in RStrip(alias)
    requires '\n' in alias || IsSpace(alias[|alias| - 1])
    requires anchor == "" || (ANCHOR_LABEL <= anchor && '\n' !in anchor)
    ensures var x := e + PARAGRAPH + alias;
      !EndsWith(WithoutLastParagraph(if anchor == "" then x else x + PARAGRAPH + anchor, ANCHOR_LABEL, text),
                PARAGRAPH + RStrip(alias))
  {
    hide RStrip, RPartition, EndsWith, WithoutLastParagraph, IsSpace;
    var line := RStrip(alias);
    var x := e + PARAGRAPH + alias;
    TrailingFacts(alias);
    LastChar(e, alias);
    SpaceIsNotTheEnd(x, line);
    if anchor == "" {
      NoAnchorInAlias(e, alias, text);
    } else {
      ParagraphStep(x, anchor, ANCHOR_LABEL, text);
      NotTheAnchor(x, anchor, line);
    }
  }

  lemma TrailingFacts(alias: string)
    requires ALIAS_LABEL <= alias && '\n' !in RStrip(alias)
    requires '\n' in alias || IsSpace(alias[|alias| - 1])
    ensures alias != "" && IsSpace(alias[|alias| - 1])
    ensures RStrip(alias) != "" && RStrip(alias)[0] == 'A' && !IsSpace(RStrip(alias)[|RStrip(alias)| - 1])
  {
    RStripFacts(alias);
    assert alias[0] == 'A' && !IsSpace(alias[0]);
  }

  lemma SpaceIsNotTheEnd(x: string, line: string)
    requires x != "" && IsSpace(x[|x| - 1]) && line != "" && !IsSpace(line[|line| - 1])
    ensures !EndsWith(x, PARAGRAPH + line)
  {
    var e := PARAGRAPH + line;
    if |e| <= |x| {
      assert x[|x| - |e|..][|e| - 1] == x[|x| - 1];
      assert e[|e| - 1] == line[|line| - 1];
    }
  }

  lemma NotTheAnchor(x: string, anchor: string, line: string)
    requires ANCHOR_LABEL <= anchor && '\n' !in anchor && '\n' !in line && line != "" && line[0] == 'A'
    ensures !EndsWith(x + PARAGRAPH + anchor, PARAGRAPH + line)
  {
    LastParagraph(x, anchor);
    if EndsWith(x + PARAGRAPH + anchor, PARAGRAPH + line) {
      EndParagraph(x + PARAGRAPH + anchor, line);
    }
  }

  /** The anchor step does not touch a text that ends in an alias line followed by whitespace only. */
  lemma NoAnchorInAlias(e: string, alias: string, text: string)
    requires ALIAS_LABEL <= alias && '\n' !in RStrip(alias)
    ensures WithoutLastParagraph(e + PARAGRAPH + alias, ANCHOR_LABEL, text) == e + PARAGRAPH + alias
  {
    var x := e + PARAGRAPH + alias;
    var r := RFind(x, PARAGRAPH);
    AtBreak(x, |e|);
    AtBreak(x, r);
    hide RFind, At, EndsWith, RStrip;
    LastPartHasNoLabel(e, alias, r);
  }

  /** What follows the last paragraph break is the alias line, or whitespace from its tail. */
  lemma LastPartHasNoLabel(e: string, alias: string, r: nat)
    requires ALIAS_LABEL <= alias && '\n' !in RStrip(alias)
    requires var x := e + PARAGRAPH + alias; |e| <= r < |x| - 1 && x[r + 1] == '\n'
    ensures !(ANCHOR_LABEL <= (e + PARAGRAPH + alias)[r + 2..])
  {
    RStripFacts(alias);
    hide RStrip;
    var last := (e + PARAGRAPH + alias)[r + 2..];
    assert last == alias[r - |e|..];
    if r > |e| {
      assert alias[r - |e| - 1] == '\n';
      assert r - |e| - 1 >= |RStrip(alias)|;
    }
    assert last != "" ==> last[0] == alias[r - |e|] && last[0] != 'L';
  }

  lemma NoAlias(f: Fields, anchor: string)
    ensures Appended(f, "", anchor) == if anchor == "" then f else Fields(f.prefix, f.enriched + PARAGRAPH + anchor)
  {
  }

  lemma NothingAppended(f: Fields, text: string)
    ensures Fresh(f, text) <==> Stripped(f, text) == f
  {
    hide Stripped;
  }

  /**
   * Stripping undoes appending exactly under the conditions a caller can check: the alias line is one line without
   * trailing whitespace, the prefix has no leading whitespace, and the chunk's text does not end with the anchor line.
   */
  lemma StripUndoesAppend(f: Fields, lines: Lines, text: string)
    requires Fresh(f, text) && Labelled(lines)
    ensures Stripped(Appended(f, lines.alias, lines.anchor), text) == f <==> Undoable(f, lines, text)
  {
    NoAlias(f, lines.anchor);
    hide Stripped, Appended, Fresh, EndsWith;
    if lines.alias == "" {
      NothingAppended(f, text);
      if lines.anchor != "" {
        AnchorOnly(f, lines.anchor, text);
      }
    } else if '\n' in lines.alias || IsSpace(lines.alias[|lines.alias| - 1])
              || (f.prefix != "" && IsSpace(f.prefix[0])) {
      BadAlias(f, lines, text);
    } else {
      GoodAlias(f, lines, text);
    }
  }

  /** Patching a chunk again and again. */
  function PatchAll(f: Fields, settings: seq<Lines>, text: string): Fields {
    if settings == [] then f
    else Patched(PatchAll(f, settings[..|settings| - 1], text), settings[|settings| - 1], text)
  }

  /** The fields of a fresh chunk with the lines of one setting: the alias line in both, then the anchor line. */
  function Shown(f: Fields, lines: Lines): Fields {
    Fields(if lines.alias == "" || f.prefix == "" then f.prefix + lines.alias else f.prefix + "\n" + lines.alias,
           f.enriched + (if lines.alias == "" then "" else "\n\n" + lines.alias)
                      + (if lines.anchor == "" then "" else "\n\n" + lines.anchor))
  }

  lemma PatchShows(f: Fields, lines: Lines, text: string)
    requires Fresh(f, text) && Labelled(lines) && Undoable(f, lines, text)
    ensures Patched(f, lines, text) == Shown(f, lines)
  {
    hide Stripped, Strip, IsSpace;
    var g := if lines.alias == "" then f.enriched else f.enriched + PARAGRAPH + lines.alias;
    assert f.enriched + (PARAGRAPH + lines.alias) == f.enriched + PARAGRAPH + lines.alias;
    assert g + (PARAGRAPH + lines.anchor) == g + PARAGRAPH + lines.anchor;
    assert f.enriched + "" == f.enriched && g + "" == g;
    if lines.alias != "" {
      GoodPrefix(f.prefix, lines.alias);
    }
  }

  /** An alias line left in the embedded text alone by an earlier release goes, unless it is the chunk's own text. */
  lemma LegacyLineGoes(prefix: string, enriched: string, legacy: string, text: string)
    requires "Also known as: " <= legacy && '\n' !in legacy
    requires legacy != prefix && !EndsWith(prefix, "\n" + legacy)
    ensures Stripped(Fields(prefix, enriched + "\n\n" + legacy), text)
         == Fields(prefix, if EndsWith(text, legacy) then enriched + "\n\n" + legacy else enriched)
  {
    var s := enriched + PARAGRAPH + legacy;
    var last := RPartition(prefix, "\n").2;
    assert legacy[0] == 'A';
    LastOfLines(prefix);
    ParagraphStep(enriched, legacy, ANCHOR_LABEL, text);
    ParagraphStep(enriched, legacy, ALIAS_LABEL, text);
    if EndsWith(s, PARAGRAPH + last) {
      EndParagraph(s, last);
      LastParagraph(enriched, legacy);
      assert last == legacy;
      LastLineIs(prefix);
    }
  }

  lemma LastLineIs(p: string)
    ensures var last := RPartition(p, "\n").2; p == last || EndsWith(p, "\n" + last)
  {
    var r := RFind(p, "\n");
    if r >= 0 {
      AtBreak(p, r);
      assert p[r..] == "\n" + p[r + 1..];
    }
  }

  /**
   * History independence: after any sequence of patches of a fresh chunk exactly the lines of the last settings show.
   * In particular patching twice with the same settings changes nothing.
   */
  lemma {:induction false} PatchingIsHistoryIndependent(f: Fields, settings: seq<Lines>, text: string)
    requires Fresh(f, text) && settings != []
    requires forall s :: s in settings ==> Labelled(s) && Undoable(f, s, text)
    ensures PatchAll(f, settings, text) == Patched(f, settings[|settings| - 1], text)
                                        == Shown(f, settings[|settings| - 1])
  {
    PatchShows(f, settings[|settings| - 1], text);
    var before, last := settings[..|settings| - 1], settings[|settings| - 1];
    if before != [] {
      assert forall s :: s in before ==> s in settings;
      PatchingIsHistoryIndependent(f, before, text);
      var previous := before[|before| - 1];
      assert previous in settings;
      StripUndoesAppend(f, previous, text);
    }
  }

  // ----- The alias line meets its conditions when the settings do

  /** A term as the settings should hold it: one line, nothing to trim. */
  predicate CleanTerm(t: string) {
    Trimmed(t) && '\n' !in t
  }

  lemma AliasLineIsClean(names: seq<string>)
    requires names != [] && forall t :: t in names ==> CleanTerm(t)
    ensures var line := AliasLine(names);
      ALIAS_LABEL <= line && |line| > |ALIAS_LABEL| && '\n' !in line && !IsSpace(line[|line| - 1])
  {
    JoinWithout(" | ", names, '\n');
    JoinEnds(names);
  }

  lemma {:induction false} JoinEnds(names: seq<string>)
    requires names != [] && forall t :: t in names ==> CleanTerm(t)
    ensures var s := Join(" | ", names); s != "" && !IsSpace(s[|s| - 1])
  {
    assert names[0] in names;
    if |names| > 1 {
      assert forall t :: t in names[1..] ==> t in names;
      JoinEnds(names[1..]);
    }
  }
}
