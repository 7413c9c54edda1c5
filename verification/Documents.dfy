/**
 * A whole document, from its text to its chunks (klai-knowledge-ingest/knowledge_ingest/chunker.py,
 * `chunk_markdown_with_parents`), behind its front matter. The pattern matches and the link test are inputs.
 */
module Documents {
  import opened Strings
  import opened Chunker
  import opened StubMerging
  import opened Headings
  import opened ParentChildChunks

  /** `chunk_markdown_with_parents`: clean the sections, then cut each into parents and children. */
  method ChunkDocument(body: string, headings: seq<Heading>, fences: seq<Fence>, isLinks: Section -> bool, z: Sizes)
    returns (children: seq<Chunk>, parents: seq<ParentChunk>, ghost sections: seq<Section>, ghost cuts: seq<nat>)
    requires HeadingsInOrder(headings, |body|) && Usable(z)
    ensures var kept := Kept(body, headings, fences, isLinks);
      Grouped(kept, cuts, sections, |kept|) && AllStuck(kept, cuts, sections)
    ensures Agree(AllParents(sections, z), children, parents, z)
  {
    hide *;
    var cleaned, _, _, _, groups := CleanSections(body, headings, fences, isLinks);
    children, parents := ChunkWithParents(cleaned, z);
    sections, cuts := cleaned, groups;
  }

  /** One title for each section: its own last heading, or none. */
  ghost predicate TitlesFit(titles: seq<string>, sections: seq<Section>) {
    && |titles| == |sections|
    && forall x :: 0 <= x < |titles| ==> titles[x] == "" || titles[x] == Title(sections[x].path)
  }

  /** The first `n` sections as running text: every body once, in order, each behind its title. */
  function Titled(titles: seq<string>, sections: seq<Section>, n: nat): string
    requires n <= |titles| && n <= |sections|
  {
    if n == 0 then "" else Titled(titles, sections, n - 1) + titles[n - 1] + sections[n - 1].body
  }

  /** The title section `x` brings into the text of its host. */
  function TitleIn(sections: seq<Section>, host: int, x: nat): string
    requires x < |sections|
  {
    var lines := LinesAt(sections, host, x);
    if |lines| == 1 then "" else lines[0]
  }

  lemma LinesAreTitled(sections: seq<Section>, host: int, x: nat)
    requires x < |sections|
    ensures Concat(LinesAt(sections, host, x)) == TitleIn(sections, host, x) + sections[x].body
    ensures TitleIn(sections, host, x) == "" || TitleIn(sections, host, x) == Title(sections[x].path)
  {
    hide Title, NoneBehind;
    var t, b := Title(sections[x].path), sections[x].body;
    assert [b][1..] == [] && [t, b][1..] == [b] && b + "" == b;
    assert Concat([b]) == b && Concat([t, b]) == t + b;
  }

  /** Blank lines between the parts are no ink. */
  lemma {:induction false} JoinKeepsInk(parts: seq<string>)
    ensures Ink(JoinParts(parts)) == Ink(Concat(parts))
  {
    hide Ink, JoinParts, Glue;
    if parts == [] {
      JoinOne("");
    } else {
      var p, rest := parts[0], parts[1..];
      assert parts == [p] + rest;
      JoinCons(p, rest);
      JoinKeepsInk(rest);
      GlueKeepsInk(p, JoinParts(rest));
      InkConcat(p, Concat(rest));
    }
  }

  lemma GlueKeepsInk(a: string, b: string)
    ensures Ink(Glue(a, b)) == Ink(a) + Ink(b)
  {
    InkOfSpace(PARAGRAPH);
    InkOfSpace("");
    hide Ink;
    if a != "" && b != "" {
      InkConcat(a + PARAGRAPH, b);
      InkConcat(a, PARAGRAPH);
      assert Ink(a) + "" == Ink(a);
    }
  }

  /** The lines of one group continue the running text. */
  lemma {:induction false} GroupIsTitled(sections: seq<Section>, host: int, titles: seq<string>, from: nat, to: nat)
    requires from <= to <= |sections| && to <= |titles|
    requires forall x: nat :: from <= x < to ==> titles[x] == TitleIn(sections, host, x)
    ensures Titled(titles, sections, to) == Titled(titles, sections, from) + Concat(LinesOf(sections, host, from, to))
  {
    hide LinesAt, TitleIn, Concat;
    if from == to {
      assert Concat([]) == "" by { ConcatNothing(); }
    } else {
      GroupIsTitled(sections, host, titles, from, to - 1);
      LinesAreTitled(sections, host, to - 1);
      ConcatAppend(LinesOf(sections, host, from, to - 1), LinesAt(sections, host, to - 1));
      assert titles[to - 1] == TitleIn(sections, host, to - 1);
    }
  }

  lemma ConcatNothing()
    ensures Concat([]) == ""
  {
  }

  lemma {:induction false} TitledFront(titles: seq<string>, more: seq<string>, sections: seq<Section>, n: nat)
    requires n <= |titles| && n <= |sections|
    ensures Titled(titles + more, sections, n) == Titled(titles, sections, n)
  {
    if n > 0 {
      TitledFront(titles, more, sections, n - 1);
    }
  }

  /** The first `g` merged sections hold the running text of their groups. */
  ghost predicate Reads(sections: seq<Section>, cuts: seq<nat>, out: seq<Section>, g: nat, titles: seq<string>) {
    && g < |cuts| && g <= |out| && cuts[g] <= |sections|
    && TitlesFit(titles, sections[..cuts[g]])
    && Ink(Concat(Texts(out[..g]))) == Ink(Titled(titles, sections, |titles|))
  }

  lemma {:induction false} MergedReads(sections: seq<Section>, cuts: seq<nat>, out: seq<Section>, upTo: nat, g: nat)
    requires Grouped(sections, cuts, out, upTo) && g <= |out|
    ensures exists titles :: Reads(sections, cuts, out, g, titles)
  {
    hide Group;
    if g == 0 {
      assert Texts(out[..0]) == [] && sections[..0] == [];
      assert Reads(sections, cuts, out, 0, []);
    } else {
      MergedReads(sections, cuts, out, upTo, g - 1);
      var titles :| Reads(sections, cuts, out, g - 1, titles);
      assert Group(sections, cuts, out[g - 1], g - 1);
      OneGroupMore(sections, cuts, out, g, titles);
    }
  }

  lemma OneGroupMore(sections: seq<Section>, cuts: seq<nat>, out: seq<Section>, g: nat, titles: seq<string>)
    requires 0 < g <= |out| && g < |cuts| && Group(sections, cuts, out[g - 1], g - 1)
    requires Reads(sections, cuts, out, g - 1, titles)
    ensures exists more :: Reads(sections, cuts, out, g, more)
  {
    hide Reads, Hosts;
    var host: nat :| Hosts(sections, cuts[g - 1], cuts[g], out[g - 1], host);
    MoreReads(sections, cuts, out, g, titles, host);
    assert Reads(sections, cuts, out, g, titles + TitlesIn(sections, host, cuts[g - 1], cuts[g]));
  }

  lemma MoreReads(sections: seq<Section>, cuts: seq<nat>, out: seq<Section>, g: nat, titles: seq<string>, host: nat)
    requires 0 < g <= |out| && g < |cuts| && cuts[g - 1] < cuts[g] <= |sections|
    requires Hosts(sections, cuts[g - 1], cuts[g], out[g - 1], host) && Reads(sections, cuts, out, g - 1, titles)
    ensures Reads(sections, cuts, out, g, titles + TitlesIn(sections, host, cuts[g - 1], cuts[g]))
  {
    hide Ink, JoinParts, TitlesIn, Titled, Concat, TitlesFit, Texts, LinesOf, Went;
    var from, to, o := cuts[g - 1], cuts[g], out[g - 1];
    TitlesCount(titles, sections[..from]);
    GroupReads(sections, host, titles, from, to, o.body);
    TitlesCount(titles + TitlesIn(sections, host, from, to), sections[..to]);
    BodySnoc(out, g);
    InkConcat(Concat(Texts(out[..g - 1])), o.body);
  }

  lemma TitlesCount(titles: seq<string>, sections: seq<Section>)
    requires TitlesFit(titles, sections)
    ensures |titles| == |sections|
  {
  }

  lemma BodySnoc(out: seq<Section>, g: nat)
    requires 0 < g <= |out|
    ensures Concat(Texts(out[..g])) == Concat(Texts(out[..g - 1])) + out[g - 1].body
  {
    hide Concat;
    assert Texts(out[..g]) == Texts(out[..g - 1]) + [out[g - 1].body];
    ConcatSnoc(Texts(out[..g - 1]), out[g - 1].body);
  }

  function TitlesIn(sections: seq<Section>, host: int, from: nat, to: nat): seq<string>
    requires from <= to <= |sections|
  {
    seq(to - from, x requires 0 <= x < to - from => TitleIn(sections, host, from + x))
  }

  /** One group more. */
  lemma GroupReads(sections: seq<Section>, host: int, titles: seq<string>, from: nat, to: nat, text: string)
    requires from <= to <= |sections| && TitlesFit(titles, sections[..from])
    requires text == JoinParts(LinesOf(sections, host, from, to))
    ensures var all := titles + TitlesIn(sections, host, from, to);
      && TitlesFit(all, sections[..to])
      && Ink(Titled(all, sections, to)) == Ink(Titled(titles, sections, from)) + Ink(text)
  {
    hide Ink, JoinParts, TitleIn, Title, Titled, Concat, LinesOf;
    var added, lines := TitlesIn(sections, host, from, to), LinesOf(sections, host, from, to);
    var all := titles + added;
    forall x: nat | from <= x < to
      ensures all[x] == TitleIn(sections, host, x) && (all[x] == "" || all[x] == Title(sections[x].path))
    {
      LinesAreTitled(sections, host, x);
    }
    GroupIsTitled(sections, host, all, from, to);
    TitledFront(titles, added, sections, from);
    JoinKeepsInk(lines);
    InkConcat(Titled(titles, sections, from), Concat(lines));
  }

  /** Some sections, none of them mostly links. */
  predicate AllText(sections: seq<Section>, isLinks: Section -> bool) {
    sections != [] && forall i :: 0 <= i < |sections| ==> !isLinks(sections[i])
  }

  /**
   * From a document to its chunks nothing is lost: with the shipped overlaps of 0 the children, read in order, are the
   * kept sections - every body exactly once and in order, with at most its own title in front of it - but for
   * whitespace. The kept sections in turn are the text between the headings when no section is mostly links.
   */
  lemma DocumentReachesChildren(body: string, headings: seq<Heading>, fences: seq<Fence>, isLinks: Section -> bool,
                                z: Sizes, sections: seq<Section>, cuts: seq<nat>)
    requires Usable(z) && z.parentOverlap == 0 && z.childOverlap == 0
    requires var kept := Kept(body, headings, fences, isLinks); Grouped(kept, cuts, sections, |kept|)
    ensures var kept := Kept(body, headings, fences, isLinks);
      exists titles :: TitlesFit(titles, kept)
        && Ink(Concat(Texts(AllChildren(AllParents(sections, z), z)))) == Ink(Titled(titles, kept, |kept|))
    ensures AllText(SectionsIn(body, headings, fences), isLinks) ==>
      Ink(Concat(BodiesOf(Kept(body, headings, fences, isLinks)))) == Ink(Concat(Between(body, headings, fences)))
  {
    if AllText(SectionsIn(body, headings, fences), isLinks) {
      AllTextStays(SectionsIn(body, headings, fences), isLinks);
      SplittingLosesNothing(body, headings, fences);
    }
    var kept := Kept(body, headings, fences, isLinks);
    hide Kept, SectionsIn, Group, AllChildren, AllParents, Ink, Concat, Titled, Title, AllText;
    MergedReads(kept, cuts, sections, |kept|, |sections|);
    var titles :| Reads(kept, cuts, sections, |sections|, titles);
    assert sections[..|sections|] == sections && kept[..|kept|] == kept;
    ChunkingLosesNothing(sections, z);
    assert TitlesFit(titles, kept);
  }

  lemma {:induction false} AllTextStays(sections: seq<Section>, isLinks: Section -> bool)
    requires forall i :: 0 <= i < |sections| ==> !isLinks(sections[i])
    ensures Prose(sections, isLinks) == sections
  {
    hide Prose;
    if sections == [] {
      ProseNothing(isLinks);
    } else {
      var front, last := sections[..|sections| - 1], sections[|sections| - 1];
      assert sections == front + [last];
      AllTextStays(front, isLinks);
      ProseSnoc(front, last, isLinks);
    }
  }

  lemma ProseNothing(isLinks: Section -> bool)
    ensures Prose([], isLinks) == []
  {
  }

  lemma ProseSnoc(sections: seq<Section>, s: Section, isLinks: Section -> bool)
    ensures Prose(sections + [s], isLinks) == Prose(sections, isLinks) + (if isLinks(s) then [] else [s])
  {
    assert (sections + [s])[..|sections|] == sections;
  }
}
