/**
 * Two-tier chunking: large parents for context, small children for matching
 * (klai-knowledge-ingest/knowledge_ingest/chunker.py, `chunk_markdown_with_parents`).
 */
module ParentChildChunks {
  import opened Sequences
  import opened Strings
  import opened Chunker
  import opened StubMerging

  datatype Chunk = Chunk(text: string, headingPath: string, charStart: nat, parentIndex: nat)

  datatype ParentChunk = ParentChunk(text: string, headingPath: string, charStart: nat, position: nat,
                                     childIndices: seq<nat>)

  datatype Sizes = Sizes(childSize: nat, childOverlap: nat, parentSize: nat, parentOverlap: nat)

  predicate Usable(z: Sizes) {
    Advances(z.childSize, z.childOverlap) && Advances(z.parentSize, z.parentOverlap)
  }

  /** A chunk's text with its heading path in front. */
  function Display(path: string, text: string): string {
    if path == "" then text else Strip(path + PARAGRAPH + text)
  }

  /** The texts that are not blank. */
  function NonBlank(parts: seq<string>): seq<string> {
    if parts == [] then []
    else
      var last := parts[|parts| - 1];
      NonBlank(parts[..|parts| - 1]) + (if Strip(last) == "" then [] else [last])
  }

  /** A piece of a section, before its heading path is put in front. */
  type Piece = Section

  function Under(path: string, texts: seq<string>): seq<Piece> {
    seq(|texts|, i requires 0 <= i < |texts| => Section(path, texts[i]))
  }

  ghost function ParentsOf(s: Section, z: Sizes): seq<Piece>
    requires Usable(z)
  {
    Under(s.path, NonBlank(Split(s.body, z.parentSize, z.parentOverlap, false)))
  }

  ghost function ChildrenOf(p: Piece, z: Sizes): seq<Piece>
    requires Usable(z)
  {
    Under(p.path, NonBlank(Split(p.body, z.childSize, z.childOverlap, true)))
  }

  ghost function AllParents(sections: seq<Section>, z: Sizes): seq<Piece>
    requires Usable(z)
  {
    if sections == [] then []
    else AllParents(sections[..|sections| - 1], z) + ParentsOf(sections[|sections| - 1], z)
  }

  ghost function AllChildren(parents: seq<Piece>, z: Sizes): seq<Piece>
    requires Usable(z)
  {
    if parents == [] then []
    else AllChildren(parents[..|parents| - 1], z) + ChildrenOf(parents[|parents| - 1], z)
  }

  function Range(from: nat, to: nat): seq<nat>
    requires from <= to
  {
    seq(to - from, i requires 0 <= i < to - from => from + i)
  }

  function Length(pieces: seq<Piece>): nat {
    if pieces == [] then 0 else Length(pieces[..|pieces| - 1]) + |pieces[|pieces| - 1].body|
  }

  /** A parent shows its piece, and owns the consecutive, non-empty range of children cut from it. */
  ghost predicate ParentFits(parents: seq<Piece>, p: ParentChunk, i: nat, z: Sizes)
    requires Usable(z) && i < |parents|
  {
    var from, to := |AllChildren(parents[..i], z)|, |AllChildren(parents[..i + 1], z)|;
    && p.text == Display(parents[i].path, parents[i].body) && p.headingPath == parents[i].path
    && p.position == i
    && p.charStart == Length(AllChildren(parents[..i], z))
    && from < to && p.childIndices == Range(from, to)
  }

  /** A child shows its piece and points to the parent whose range it lies in. */
  ghost predicate ChildFits(parents: seq<Piece>, c: Chunk, k: nat, z: Sizes)
    requires Usable(z) && k < |AllChildren(parents, z)|
  {
    var piece := AllChildren(parents, z)[k];
    && c.text == Display(piece.path, piece.body) && c.headingPath == piece.path
    && c.charStart == Length(AllChildren(parents, z)[..k])
    && c.parentIndex < |parents|
    && |AllChildren(parents[..c.parentIndex], z)| <= k < |AllChildren(parents[..c.parentIndex + 1], z)|
  }

  ghost predicate Agree(pieces: seq<Piece>, children: seq<Chunk>, parents: seq<ParentChunk>, z: Sizes)
    requires Usable(z)
  {
    && |parents| == |pieces| && |children| == |AllChildren(pieces, z)|
    && (forall i :: 0 <= i < |parents| ==> ParentFits(pieces, parents[i], i, z))
    && forall k :: 0 <= k < |children| ==> ChildFits(pieces, children[k], k, z)
  }

  lemma AllChildrenSnoc(pieces: seq<Piece>, p: Piece, z: Sizes)
    requires Usable(z)
    ensures AllChildren(pieces + [p], z) == AllChildren(pieces, z) + ChildrenOf(p, z)
  {
    assert (pieces + [p])[..|pieces|] == pieces;
  }

  lemma {:induction false} ChildRangesGrow(pieces: seq<Piece>, i: nat, z: Sizes)
    requires Usable(z) && i <= |pieces|
    ensures AllChildren(pieces[..i], z) <= AllChildren(pieces, z)
    decreases |pieces|
  {
    if i < |pieces| {
      var front := pieces[..|pieces| - 1];
      ChildRangesGrow(front, i, z);
      assert front[..i] == pieces[..i];
    } else {
      assert pieces[..i] == pieces;
    }
  }

  lemma {:induction false} NonBlankFacts(parts: seq<string>)
    ensures forall p :: p in NonBlank(parts) <==> p in parts && Strip(p) != ""
  {
    hide Strip;
    if parts != [] {
      NonBlankFacts(parts[..|parts| - 1]);
      assert parts == parts[..|parts| - 1] + [parts[|parts| - 1]];
    }
  }

  lemma NonBlankSnoc(parts: seq<string>, p: string)
    ensures NonBlank(parts + [p]) == NonBlank(parts) + (if Strip(p) == "" then [] else [p])
  {
    hide Strip;
    assert (parts + [p])[..|parts|] == parts;
  }

  /** A parent that is not blank has children. */
  lemma ParentHasChildren(p: Piece, z: Sizes)
    requires Usable(z) && Strip(p.body) != ""
    ensures ChildrenOf(p, z) != []
  {
    hide Strip, Split;
    SplitFacts(p.body, z.childSize, z.childOverlap, true);
    var parts := Split(p.body, z.childSize, z.childOverlap, true);
    var c :| c in parts && Strip(c) != "";
    NonBlankFacts(parts);
    assert c in NonBlank(parts);
  }

  lemma LengthSnoc(pieces: seq<Piece>, p: Piece)
    ensures Length(pieces + [p]) == Length(pieces) + |p.body|
  {
    assert (pieces + [p])[..|pieces|] == pieces;
  }

  /** One more parent with its children keeps the two lists in agreement. */
  lemma AgreeStep(pieces: seq<Piece>, children: seq<Chunk>, parents: seq<ParentChunk>, p: Piece, more: seq<Chunk>,
                  parent: ParentChunk, z: Sizes)
    requires Usable(z) && Agree(pieces, children, parents, z) && Strip(p.body) != ""
    requires parent == ParentChunk(Display(p.path, p.body), p.path, Length(AllChildren(pieces, z)), |pieces|,
                                   Range(|children|, |children| + |more|))
    requires |more| == |ChildrenOf(p, z)|
    requires forall k :: 0 <= k < |more| ==> MoreFits(pieces, p, more[k], k, z)
    ensures Agree(pieces + [p], children + more, parents + [parent], z)
  {
    hide Strip, Display, ChildrenOf, Length, AllChildren, ParentFits, ChildFits, MoreFits;
    AllChildrenSnoc(pieces, p, z);
    NewParent(pieces, p, parent, |children|, z);
    ParentsAgree(pieces, p, parents, parent, z);
    ChildrenAgree(pieces, p, children, more, z);
  }

  lemma ParentsAgree(pieces: seq<Piece>, p: Piece, parents: seq<ParentChunk>, parent: ParentChunk, z: Sizes)
    requires Usable(z) && |parents| == |pieces| && ParentFits(pieces + [p], parent, |pieces|, z)
    requires forall i :: 0 <= i < |parents| ==> ParentFits(pieces, parents[i], i, z)
    ensures forall i :: 0 <= i < |parents| + 1 ==> ParentFits(pieces + [p], (parents + [parent])[i], i, z)
  {
    hide ParentFits;
    forall i: nat | i < |parents| + 1 ensures ParentFits(pieces + [p], (parents + [parent])[i], i, z) {
      if i < |parents| {
        OldParent(pieces, p, parents[i], i, z);
      }
    }
  }

  lemma ChildrenAgree(pieces: seq<Piece>, p: Piece, children: seq<Chunk>, more: seq<Chunk>, z: Sizes)
    requires Usable(z) && |children| == |AllChildren(pieces, z)| && |more| == |ChildrenOf(p, z)|
    requires forall k :: 0 <= k < |children| ==> ChildFits(pieces, children[k], k, z)
    requires forall k :: 0 <= k < |more| ==> MoreFits(pieces, p, more[k], k, z)
    ensures |children + more| == |AllChildren(pieces + [p], z)|
    ensures forall k :: 0 <= k < |children + more| ==> ChildFits(pieces + [p], (children + more)[k], k, z)
  {
    hide ChildFits, MoreFits, AllChildren, ChildrenOf;
    AllChildrenSnoc(pieces, p, z);
    forall k: nat | k < |children + more| ensures ChildFits(pieces + [p], (children + more)[k], k, z) {
      if k < |children| {
        OldChild(pieces, p, children[k], k, z);
      } else {
        NewChild(pieces, p, more[k - |children|], k - |children|, z);
      }
    }
  }

  lemma OldParent(pieces: seq<Piece>, p: Piece, parent: ParentChunk, i: nat, z: Sizes)
    requires Usable(z) && i < |pieces| && ParentFits(pieces, parent, i, z)
    ensures ParentFits(pieces + [p], parent, i, z)
  {
    hide Display, Length, AllChildren;
    var all := pieces + [p];
    assert all[..i] == pieces[..i] && all[..i + 1] == pieces[..i + 1];
  }

  lemma NewParent(pieces: seq<Piece>, p: Piece, parent: ParentChunk, from: nat, z: Sizes)
    requires Usable(z) && Strip(p.body) != "" && from == |AllChildren(pieces, z)|
    requires parent == ParentChunk(Display(p.path, p.body), p.path, Length(AllChildren(pieces, z)), |pieces|,
                                   Range(from, from + |ChildrenOf(p, z)|))
    ensures ParentFits(pieces + [p], parent, |pieces|, z)
  {
    AllChildrenSnoc(pieces, p, z);
    ParentHasChildren(p, z);
    hide Strip, Display, Length, AllChildren, ChildrenOf;
    var all := pieces + [p];
    assert all[..|pieces|] == pieces && all[..|pieces| + 1] == all;
  }

  lemma OldChild(pieces: seq<Piece>, p: Piece, c: Chunk, k: nat, z: Sizes)
    requires Usable(z) && k < |AllChildren(pieces, z)| && ChildFits(pieces, c, k, z)
    ensures k < |AllChildren(pieces + [p], z)| && ChildFits(pieces + [p], c, k, z)
  {
    hide Display, Length, AllChildren, ChildrenOf, Usable;
    AllChildrenSnoc(pieces, p, z);
    FrontOfCat(pieces, [p], c.parentIndex);
    FrontOfCat(pieces, [p], c.parentIndex + 1);
    FrontOfCat(AllChildren(pieces, z), ChildrenOf(p, z), k);
  }

  lemma TakeBehind<T>(a: seq<T>, b: seq<T>, k: nat)
    requires k < |b|
    ensures (a + b)[|a| + k] == b[k] && (a + b)[..|a| + k] == a + b[..k]
  {
  }

  lemma NewChild(pieces: seq<Piece>, p: Piece, c: Chunk, k: nat, z: Sizes)
    requires Usable(z) && MoreFits(pieces, p, c, k, z)
    ensures var n := |AllChildren(pieces, z)| + k;
      n < |AllChildren(pieces + [p], z)| && ChildFits(pieces + [p], c, n, z)
  {
    hide Display, Length, AllChildren, ChildrenOf, Usable;
    AllChildrenSnoc(pieces, p, z);
    WholeFront(pieces, p);
    TakeBehind(AllChildren(pieces, z), ChildrenOf(p, z), k);
  }

  lemma WholeFront(pieces: seq<Piece>, p: Piece)
    ensures (pieces + [p])[..|pieces|] == pieces && (pieces + [p])[..|pieces| + 1] == pieces + [p]
  {
  }

  /** Child `k` of the parent that comes next. */
  ghost predicate MoreFits(pieces: seq<Piece>, p: Piece, c: Chunk, k: nat, z: Sizes)
    requires Usable(z)
  {
    && k < |ChildrenOf(p, z)|
    && c == Chunk(Display(p.path, ChildrenOf(p, z)[k].body), p.path,
                  Length(AllChildren(pieces, z) + ChildrenOf(p, z)[..k]), |pieces|)
    && ChildrenOf(p, z)[k].path == p.path
  }

  /** The inner loop: the children of one parent. */
  method CutChildren(path: string, parentText: string, z: Sizes, parentIndex: nat, charPos: nat,
                     ghost pieces: seq<Piece>)
    returns (more: seq<Chunk>, charPos': nat)
    requires Usable(z) && parentIndex == |pieces| && charPos == Length(AllChildren(pieces, z))
    ensures var p := Section(path, parentText);
      && |more| == |ChildrenOf(p, z)|
      && (forall k :: 0 <= k < |more| ==> MoreFits(pieces, p, more[k], k, z))
      && charPos' == Length(AllChildren(pieces, z) + ChildrenOf(p, z))
  {
    hide Split, Display, Strip, AllChildren, Length, NonBlank;
    ghost var p := Section(path, parentText);
    ghost var before := AllChildren(pieces, z);
    var texts := SplitBySize(parentText, z.childSize, z.childOverlap, true);
    more, charPos' := [], charPos;
    assert before + [] == before;
    NothingUnder(path);
    for n := 0 to |texts|
      invariant |more| == |NonBlank(texts[..n])|
      invariant charPos' == Length(before + Under(path, NonBlank(texts[..n])))
      invariant forall k :: 0 <= k < |more| ==> PartFits(before, path, NonBlank(texts[..n]), more[k], k, parentIndex)
    {
      assert texts[..n + 1] == texts[..n] + [texts[n]];
      ghost var kept := NonBlank(texts[..n]);
      NonBlankSnoc(texts[..n], texts[n]);
      if Strip(texts[n]) == "" {
        assert kept + [] == kept;
        continue;
      }
      more := more + [Chunk(Display(path, texts[n]), path, charPos', parentIndex)];
      PartStep(before, path, kept, texts[n], more, charPos', parentIndex);
      charPos' := charPos' + |texts[n]|;
    }
    assert texts[..|texts|] == texts;
    forall k | 0 <= k < |more| ensures MoreFits(pieces, p, more[k], k, z) {
      assert PartFits(before, path, NonBlank(texts), more[k], k, parentIndex);
    }
  }

  lemma NothingUnder(path: string)
    ensures NonBlank([]) == [] && Under(path, []) == []
  {
  }

  ghost predicate PartFits(before: seq<Piece>, path: string, kept: seq<string>, c: Chunk, k: nat, parentIndex: nat) {
    && k < |kept|
    && c == Chunk(Display(path, kept[k]), path, Length(before + Under(path, kept)[..k]), parentIndex)
  }

  lemma PartStep(before: seq<Piece>, path: string, kept: seq<string>, text: string, more: seq<Chunk>, charPos: nat,
                 parentIndex: nat)
    requires |more| == |kept| + 1 && charPos == Length(before + Under(path, kept))
    requires forall k :: 0 <= k < |kept| ==> PartFits(before, path, kept, more[k], k, parentIndex)
    requires more[|kept|] == Chunk(Display(path, text), path, charPos, parentIndex)
    ensures forall k :: 0 <= k < |more| ==> PartFits(before, path, kept + [text], more[k], k, parentIndex)
    ensures Length(before + Under(path, kept + [text])) == charPos + |text|
  {
    hide Display, Length;
    assert Under(path, kept + [text]) == Under(path, kept) + [Section(path, text)];
    assert before + (Under(path, kept) + [Section(path, text)]) == before + Under(path, kept) + [Section(path, text)];
    LengthSnoc(before + Under(path, kept), Section(path, text));
    forall k | 0 <= k < |more| ensures PartFits(before, path, kept + [text], more[k], k, parentIndex) {
      if k < |kept| {
        assert PartFits(before, path, kept, more[k], k, parentIndex);
        assert Under(path, kept + [text])[..k] == Under(path, kept)[..k];
      } else {
        assert Under(path, kept + [text])[..k] == Under(path, kept);
      }
    }
  }

  /** One parent block: the parent, then its children. */
  method AddParent(path: string, text: string, z: Sizes, children: seq<Chunk>, parents: seq<ParentChunk>, charPos: nat,
                   ghost pieces: seq<Piece>)
    returns (children': seq<Chunk>, parents': seq<ParentChunk>, charPos': nat)
    requires Usable(z) && Strip(text) != ""
    requires Agree(pieces, children, parents, z) && |parents| == |pieces| && charPos == Length(AllChildren(pieces, z))
    ensures Agree(pieces + [Section(path, text)], children', parents', z) && |parents'| == |pieces| + 1
    ensures charPos' == Length(AllChildren(pieces + [Section(path, text)], z))
  {
    hide *;
    var more;
    more, charPos' := CutChildren(path, text, z, |parents|, charPos, pieces);
    SizesAgree(pieces, children, parents, z);
    var parent := ParentChunk(Display(path, text), path, charPos, |parents|, Range(|children|, |children| + |more|));
    AgreeStep(pieces, children, parents, Section(path, text), more, parent, z);
    AllChildrenSnoc(pieces, Section(path, text), z);
    children', parents' := children + more, parents + [parent];
  }

  lemma SizesAgree(pieces: seq<Piece>, children: seq<Chunk>, parents: seq<ParentChunk>, z: Sizes)
    requires Usable(z) && Agree(pieces, children, parents, z)
    ensures |children| == |AllChildren(pieces, z)|
  {
  }

  /** All parents of one section. */
  method CutParents(section: Section, z: Sizes, children: seq<Chunk>, parents: seq<ParentChunk>, charPos: nat,
                    ghost pieces: seq<Piece>)
    returns (children': seq<Chunk>, parents': seq<ParentChunk>, charPos': nat, ghost pieces': seq<Piece>)
    requires Usable(z)
    requires Agree(pieces, children, parents, z) && |parents| == |pieces| && charPos == Length(AllChildren(pieces, z))
    ensures pieces' == pieces + ParentsOf(section, z)
    ensures Agree(pieces', children', parents', z) && |parents'| == |pieces'|
    ensures charPos' == Length(AllChildren(pieces', z))
  {
    ParentsOfIs(section, z);
    assert Advances(z.parentSize, z.parentOverlap);
    hide *;
    children', parents', charPos', pieces' := children, parents, charPos, pieces;
    var path := section.path;
    var texts := SplitBySize(section.body, z.parentSize, z.parentOverlap, false);
    NothingUnder(path);
    assert pieces + [] == pieces && texts[..0] == [];
    for n := 0 to |texts|
      invariant pieces' == pieces + Under(path, NonBlank(texts[..n]))
      invariant Agree(pieces', children', parents', z) && |parents'| == |pieces'|
      invariant charPos' == Length(AllChildren(pieces', z))
    {
      PartsSnoc(path, texts, n, pieces);
      if Strip(texts[n]) == "" {
        continue;
      }
      children', parents', charPos' := AddParent(path, texts[n], z, children', parents', charPos', pieces');
      pieces' := pieces' + [Section(path, texts[n])];
    }
    assert texts[..|texts|] == texts;
  }

  lemma PartsSnoc(path: string, texts: seq<string>, n: nat, pieces: seq<Piece>)
    requires n < |texts|
    ensures pieces + Under(path, NonBlank(texts[..n + 1]))
      == if Strip(texts[n]) == "" then pieces + Under(path, NonBlank(texts[..n]))
         else pieces + Under(path, NonBlank(texts[..n])) + [Section(path, texts[n])]
  {
    hide *;
    assert texts[..n + 1] == texts[..n] + [texts[n]];
    NonBlankSnoc(texts[..n], texts[n]);
    UnderSnoc(path, NonBlank(texts[..n]), texts[n]);
    var before := Under(path, NonBlank(texts[..n]));
    if Strip(texts[n]) == "" {
      assert NonBlank(texts[..n]) + [] == NonBlank(texts[..n]);
    } else {
      assert pieces + (before + [Section(path, texts[n])]) == pieces + before + [Section(path, texts[n])];
    }
  }

  lemma ParentsOfIs(s: Section, z: Sizes)
    requires Usable(z)
    ensures ParentsOf(s, z) == Under(s.path, NonBlank(Split(s.body, z.parentSize, z.parentOverlap, false)))
  {
  }

  /** `chunk_markdown_with_parents`, from the cleaned sections on. */
  method ChunkWithParents(sections: seq<Section>, z: Sizes) returns (children: seq<Chunk>, parents: seq<ParentChunk>)
    requires Usable(z)
    ensures Agree(AllParents(sections, z), children, parents, z)
  {
    hide *;
    children, parents := [], [];
    var charPos := 0;
    ghost var pieces: seq<Piece> := [];
    NothingYet(z);
    assert sections[..0] == [];
    for s := 0 to |sections|
      invariant pieces == AllParents(sections[..s], z)
      invariant Agree(pieces, children, parents, z) && |parents| == |pieces|
      invariant charPos == Length(AllChildren(pieces, z))
    {
      children, parents, charPos, pieces := CutParents(sections[s], z, children, parents, charPos, pieces);
      assert sections[..s + 1] == sections[..s] + [sections[s]];
      AllParentsSnoc(sections[..s], sections[s], z);
    }
    assert sections[..|sections|] == sections;
  }

  lemma NothingYet(z: Sizes)
    requires Usable(z)
    ensures AllParents([], z) == [] && Agree([], [], [], z) && Length(AllChildren([], z)) == 0
  {
  }

  lemma UnderSnoc(path: string, texts: seq<string>, text: string)
    ensures Under(path, texts + [text]) == Under(path, texts) + [Section(path, text)]
  {
  }

  lemma AllParentsSnoc(sections: seq<Section>, s: Section, z: Sizes)
    requires Usable(z)
    ensures AllParents(sections + [s], z) == AllParents(sections, z) + ParentsOf(s, z)
  {
    hide Split, NonBlank;
    assert (sections + [s])[..|sections|] == sections;
  }

  // ----- What agreement gives a reader

  /** The index ranges of successive parents are consecutive, start at 0 and end at the number of children. */
  lemma RangesPartitionChildren(pieces: seq<Piece>, children: seq<Chunk>, parents: seq<ParentChunk>, z: Sizes)
    requires Usable(z) && Agree(pieces, children, parents, z)
    ensures forall i :: 0 <= i < |parents| ==> parents[i].childIndices != []
    ensures parents != [] ==> parents[0].childIndices[0] == 0
    ensures parents != [] ==>
      parents[|parents| - 1].childIndices[|parents[|parents| - 1].childIndices| - 1] == |children| - 1
    ensures forall i, j :: 0 <= i && j == i + 1 < |parents| ==>
      parents[j].childIndices[0] == parents[i].childIndices[|parents[i].childIndices| - 1] + 1
    ensures forall i, n :: 0 <= i < |parents| && 0 <= n < |parents[i].childIndices| ==>
      parents[i].childIndices[n] == parents[i].childIndices[0] + n
  {
    hide Display, Length, AllChildren;
    assert forall i :: 0 <= i < |parents| ==> ParentFits(pieces, parents[i], i, z);
    assert pieces[..|pieces|] == pieces;
    if parents != [] {
      assert AllChildren(pieces[..0], z) == [] by {
        NothingYet(z);
        assert pieces[..0] == [];
        EmptyChildren(z);
      }
      assert ParentFits(pieces, parents[0], 0, z);
    }
  }

  lemma EmptyChildren(z: Sizes)
    requires Usable(z)
    ensures AllChildren([], z) == []
  {
  }

  /** A child is in a parent's list exactly when it points to that parent. */
  lemma ChildAndParentAgree(pieces: seq<Piece>, children: seq<Chunk>, parents: seq<ParentChunk>, z: Sizes, k: nat,
                            i: nat)
    requires Usable(z) && Agree(pieces, children, parents, z) && k < |children| && i < |parents|
    ensures k in parents[i].childIndices <==> children[k].parentIndex == i
  {
    hide Display, Length, AllChildren;
    assert ParentFits(pieces, parents[i], i, z) && ChildFits(pieces, children[k], k, z);
    var q := children[k].parentIndex;
    var from, to := |AllChildren(pieces[..i], z)|, |AllChildren(pieces[..i + 1], z)|;
    RangeHas(from, to, k);
    if q < i {
      OrderedEnds(pieces, q + 1, i, z);
    } else if i < q {
      OrderedEnds(pieces, i + 1, q, z);
    }
  }

  lemma RangeHas(from: nat, to: nat, k: nat)
    requires from <= to
    ensures k in Range(from, to) <==> from <= k < to
  {
    assert from <= k < to ==> Range(from, to)[k - from] == k;
  }

  lemma OrderedEnds(pieces: seq<Piece>, i: nat, j: nat, z: Sizes)
    requires Usable(z) && i <= j <= |pieces|
    ensures |AllChildren(pieces[..i], z)| <= |AllChildren(pieces[..j], z)|
  {
    ChildRangesGrow(pieces[..j], i, z);
    assert pieces[..j][..i] == pieces[..i];
  }

  // ----- Nothing is lost on the way from sections to children

  function Texts(pieces: seq<Piece>): seq<string> {
    seq(|pieces|, i requires 0 <= i < |pieces| => pieces[i].body)
  }

  lemma {:induction false} InkOfNonBlank(parts: seq<string>)
    ensures Ink(Concat(NonBlank(parts))) == Ink(Concat(parts))
  {
    hide Ink, Strip;
    if parts != [] {
      var front, last := parts[..|parts| - 1], parts[|parts| - 1];
      assert parts == front + [last];
      InkOfNonBlank(front);
      ConcatSnoc(front, last);
      InkConcat(Concat(front), last);
      if Strip(last) == "" {
        InkOfStrip(last);
        assert Ink("") == "" by { InkOfSpace(""); }
        assert NonBlank(front) + [] == NonBlank(front);
      } else {
        ConcatSnoc(NonBlank(front), last);
        InkConcat(Concat(NonBlank(front)), last);
      }
    }
  }

  lemma {:induction false} ConcatAppend(a: seq<string>, b: seq<string>)
    ensures Concat(a + b) == Concat(a) + Concat(b)
  {
    if a == [] {
      assert a + b == b;
    } else {
      assert (a + b)[1..] == a[1..] + b;
      ConcatAppend(a[1..], b);
    }
  }

  lemma TextsUnder(path: string, texts: seq<string>)
    ensures Texts(Under(path, texts)) == texts
  {
  }

  lemma {:induction false} ParentsKeepInk(sections: seq<Section>, z: Sizes)
    requires Usable(z) && z.parentOverlap == 0
    ensures Ink(Concat(Texts(AllParents(sections, z)))) == Ink(Concat(Texts(sections)))
  {
    hide Ink, Split, NonBlank, Strip, Concat, AllParents;
    if sections == [] {
      NothingYet(z);
      assert Texts(AllParents(sections, z)) == Texts(sections);
    } else {
      var front, s := sections[..|sections| - 1], sections[|sections| - 1];
      assert sections == front + [s];
      ParentsKeepInk(front, z);
      var parts := Split(s.body, z.parentSize, 0, false);
      AllParentsSnoc(front, s, z);
      ParentsOfIs(s, z);
      TextsUnder(s.path, NonBlank(parts));
      assert Texts(AllParents(sections, z)) == Texts(AllParents(front, z)) + NonBlank(parts);
      assert Texts(sections) == Texts(front) + [s.body];
      ConcatAppend(Texts(AllParents(front, z)), NonBlank(parts));
      InkConcat(Concat(Texts(AllParents(front, z))), Concat(NonBlank(parts)));
      InkOfNonBlank(parts);
      SplitConservesText(s.body, z.parentSize, false);
      ConcatSnoc(Texts(front), s.body);
      InkConcat(Concat(Texts(front)), s.body);
    }
  }

  lemma {:induction false} ChildrenKeepInk(pieces: seq<Piece>, z: Sizes)
    requires Usable(z) && z.childOverlap == 0
    ensures Ink(Concat(Texts(AllChildren(pieces, z)))) == Ink(Concat(Texts(pieces)))
  {
    hide Ink, Split, NonBlank, Strip, Concat, AllChildren;
    if pieces == [] {
      EmptyChildren(z);
      assert Texts(AllChildren(pieces, z)) == Texts(pieces);
    } else {
      var front, p := pieces[..|pieces| - 1], pieces[|pieces| - 1];
      assert pieces == front + [p];
      ChildrenKeepInk(front, z);
      var parts := Split(p.body, z.childSize, 0, true);
      AllChildrenSnoc(front, p, z);
      TextsUnder(p.path, NonBlank(parts));
      assert Texts(AllChildren(pieces, z)) == Texts(AllChildren(front, z)) + NonBlank(parts);
      assert Texts(pieces) == Texts(front) + [p.body];
      ConcatAppend(Texts(AllChildren(front, z)), NonBlank(parts));
      InkConcat(Concat(Texts(AllChildren(front, z))), Concat(NonBlank(parts)));
      InkOfNonBlank(parts);
      SplitConservesText(p.body, z.childSize, true);
      ConcatSnoc(Texts(front), p.body);
      InkConcat(Concat(Texts(front)), p.body);
    }
  }

  /** With the shipped overlaps of 0, parents and children both hold every non-blank character once, in order. */
  lemma ChunkingLosesNothing(sections: seq<Section>, z: Sizes)
    requires Usable(z) && z.parentOverlap == 0 && z.childOverlap == 0
    ensures Ink(Concat(Texts(AllParents(sections, z)))) == Ink(Concat(Texts(sections)))
    ensures Ink(Concat(Texts(AllChildren(AllParents(sections, z), z)))) == Ink(Concat(Texts(sections)))
  {
    hide *;
    ParentsKeepInk(sections, z);
    ChildrenKeepInk(AllParents(sections, z), z);
  }

  // ----- What a chunk shows, and where it comes from

  /** A chunk reads its heading path, a blank line and its text; without headings the text alone. */
  lemma DisplayReads(path: string, text: string)
    requires (path == "" || Trimmed(path)) && Trimmed(text)
    ensures Display(path, text) == if path == "" then text else path + "\n\n" + text
  {
    if path != "" {
      TrimmedIsStripped(path + "\n\n" + text);
    }
  }

  /** A chunk starts at the number of characters in the pieces in front of it. */
  lemma {:induction false} LengthIsExact(pieces: seq<Piece>)
    ensures Length(pieces) == |Concat(Texts(pieces))|
  {
    if pieces != [] {
      var front, last := pieces[..|pieces| - 1], pieces[|pieces| - 1];
      LengthIsExact(front);
      assert Texts(pieces) == Texts(front) + [last.body];
      ConcatSnoc(Texts(front), last.body);
    }
  }

  /** Pieces of one section: under its path, short, not blank, trimmed when it is, and without overlap all its text. */
  ghost predicate PiecesOf(s: Section, pieces: seq<Piece>, size: nat, whole: bool) {
    && (forall p :: p in pieces ==> p.path == s.path && Strip(p.body) != "" && |p.body| <= size)
    && (Trimmed(s.body) ==> forall p :: p in pieces ==> Trimmed(p.body))
    && (whole ==> Ink(Concat(Texts(pieces))) == Ink(s.body))
  }

  /** Cutting one text: what `PiecesOf` says. */
  lemma CutIsPieces(path: string, body: string, size: nat, overlap: nat, keep: bool)
    requires Advances(size, overlap) && size >= 1
    ensures PiecesOf(Section(path, body), Under(path, NonBlank(Split(body, size, overlap, keep))), size, overlap == 0)
  {
    hide Split, NonBlank, Strip, Ink, Concat, Trimmed;
    var parts := Split(body, size, overlap, keep);
    SplitFacts(body, size, overlap, keep);
    NonBlankFacts(parts);
    TextsUnder(path, NonBlank(parts));
    forall p | p in Under(path, NonBlank(parts)) ensures p.path == path && p.body in NonBlank(parts) {
      assert p.body in Texts(Under(path, NonBlank(parts)));
    }
    if |body| <= size {
      assert forall c :: c in parts ==> c == body;
    }
    if overlap == 0 {
      SplitConservesText(body, size, keep);
      InkOfNonBlank(parts);
    }
  }

  lemma UsableSizes(z: Sizes)
    requires Usable(z)
    ensures z.childSize >= 1 && z.parentSize >= 1
  {
  }

  /** Children of pieces of a section are pieces of that section. */
  lemma {:induction false} ChildrenArePieces(s: Section, parents: seq<Piece>, z: Sizes)
    requires Usable(z) && PiecesOf(s, parents, z.parentSize, z.parentOverlap == 0)
    ensures PiecesOf(s, AllChildren(parents, z), z.childSize, z.parentOverlap == 0 && z.childOverlap == 0)
  {
    hide AllChildren, Strip, Ink, Concat, Trimmed, Split, NonBlank, Under, Texts;
    UsableSizes(z);
    ChildrenFit(s, parents, z);
    if z.childOverlap == 0 {
      ChildrenKeepInk(parents, z);
    }
  }

  lemma {:induction false} ChildrenFit(s: Section, parents: seq<Piece>, z: Sizes)
    requires Usable(z) && PiecesOf(s, parents, z.parentSize, false)
    ensures PiecesOf(s, AllChildren(parents, z), z.childSize, false)
  {
    hide AllChildren, Strip, Trimmed, Split, NonBlank, Under;
    UsableSizes(z);
    if parents == [] {
      EmptyChildren(z);
    } else {
      var front, p := parents[..|parents| - 1], parents[|parents| - 1];
      assert parents == front + [p];
      ChildrenFit(s, front, z);
      AllChildrenSnoc(front, p, z);
      CutIsPieces(p.path, p.body, z.childSize, z.childOverlap, true);
    }
  }

  lemma {:induction false} AllChildrenCat(a: seq<Piece>, b: seq<Piece>, z: Sizes)
    requires Usable(z)
    ensures AllChildren(a + b, z) == AllChildren(a, z) + AllChildren(b, z)
  {
    hide ChildrenOf;
    if b == [] {
      assert a + b == a;
    } else {
      var front, last := b[..|b| - 1], b[|b| - 1];
      assert b == front + [last] && a + b == (a + front) + [last];
      AllChildrenCat(a, front, z);
      AllChildrenSnoc(a + front, last, z);
      AllChildrenSnoc(front, last, z);
    }
  }

  /** `bounds` cuts the children into one stretch for each section, in order. */
  ghost predicate BySection(sections: seq<Section>, children: seq<Piece>, bounds: seq<nat>, z: Sizes) {
    && |bounds| == |sections| + 1 && bounds[0] == 0 && bounds[|sections|] == |children|
    && forall x :: 0 <= x < |sections| ==> StretchOf(sections, children, bounds, x, z)
  }

  ghost predicate StretchOf(sections: seq<Section>, children: seq<Piece>, bounds: seq<nat>, x: int, z: Sizes)
    requires |bounds| == |sections| + 1 && 0 <= x < |sections|
  {
    && bounds[x] <= bounds[x + 1] <= |children|
    && PiecesOf(sections[x], children[bounds[x]..bounds[x + 1]], z.childSize,
                z.parentOverlap == 0 && z.childOverlap == 0)
  }

  /**
   * The children come section by section: each stretch stands under the path of its section, is cut to size and holds
   * something, and with the shipped overlaps of 0 reads that section's text.
   */
  lemma {:induction false} ChildrenBySection(sections: seq<Section>, z: Sizes) returns (bounds: seq<nat>)
    requires Usable(z)
    ensures BySection(sections, AllChildren(AllParents(sections, z), z), bounds, z)
  {
    hide AllChildren, AllParents, PiecesOf, Usable;
    if sections == [] {
      NothingYet(z);
      EmptyChildren(z);
      bounds := [0];
    } else {
      var front, s := sections[..|sections| - 1], sections[|sections| - 1];
      assert sections == front + [s];
      var before := ChildrenBySection(front, z);
      var own, old' := ParentsOf(s, z), AllChildren(AllParents(front, z), z);
      UsableIs(z);
      CutIsPieces(s.path, s.body, z.parentSize, z.parentOverlap, false);
      ParentsOfIs(s, z);
      SamePieces(s, z);
      ChildrenArePieces(s, own, z);
      AllParentsSnoc(front, s, z);
      AllChildrenCat(AllParents(front, z), own, z);
      bounds := before + [|old'| + |AllChildren(own, z)|];
      BySectionSnoc(front, s, old', AllChildren(own, z), before, z);
    }
  }

  lemma UsableIs(z: Sizes)
    requires Usable(z)
    ensures Advances(z.parentSize, z.parentOverlap) && z.parentSize >= 1 && Advances(z.childSize, z.childOverlap)
  {
  }

  lemma SamePieces(s: Section, z: Sizes)
    ensures Section(s.path, s.body) == s
  {
  }

  lemma BySectionSnoc(front: seq<Section>, s: Section, old': seq<Piece>, own: seq<Piece>, bounds: seq<nat>, z: Sizes)
    requires BySection(front, old', bounds, z)
    requires PiecesOf(s, own, z.childSize, z.parentOverlap == 0 && z.childOverlap == 0)
    ensures BySection(front + [s], old' + own, bounds + [|old'| + |own|], z)
  {
    hide PiecesOf;
    var all, more := old' + own, bounds + [|old'| + |own|];
    forall x | 0 <= x < |front| + 1 ensures StretchOf(front + [s], all, more, x, z) {
      if x < |front| {
        assert StretchOf(front, old', bounds, x, z);
        assert all[more[x]..more[x + 1]] == old'[bounds[x]..bounds[x + 1]];
      } else {
        assert all[more[x]..more[x + 1]] == own;
      }
    }
  }

  lemma {:induction false} StretchAt(bounds: seq<nat>, k: nat) returns (x: nat)
    requires |bounds| >= 2 && bounds[0] <= k < bounds[|bounds| - 1]
    ensures x + 1 < |bounds| && bounds[x] <= k < bounds[x + 1]
  {
    x := |bounds| - 2;
    if k < bounds[x] {
      x := StretchAt(bounds[..|bounds| - 1], k);
    }
  }

  lemma PieceOfSection(sections: seq<Section>, k: nat, z: Sizes) returns (x: nat)
    requires Usable(z) && k < |AllChildren(AllParents(sections, z), z)|
    ensures x < |sections|
    ensures var p := AllChildren(AllParents(sections, z), z)[k];
      p.path == sections[x].path && (Trimmed(sections[x].body) ==> Trimmed(p.body))
  {
    hide AllChildren, AllParents, Strip, Ink, Concat, Trimmed, Usable;
    var all := AllChildren(AllParents(sections, z), z);
    var bounds := ChildrenBySection(sections, z);
    x := StretchAt(bounds, k);
    assert StretchOf(sections, all, bounds, x, z);
    assert all[bounds[x]..bounds[x + 1]][k - bounds[x]] == all[k];
  }

  ghost predicate Reads(c: Chunk, path: string, body: string) {
    c.headingPath == path && c.text == if path == "" then body else path + "\n\n" + body
  }

  /** What a child of a document reads: the headings of its section, a blank line, and its own text, trimmed. */
  lemma ChildrenRead(sections: seq<Section>, children: seq<Chunk>, parents: seq<ParentChunk>, z: Sizes, k: nat)
    requires Usable(z) && Agree(AllParents(sections, z), children, parents, z) && k < |children|
    requires forall s :: s in sections ==> Trimmed(s.body) && (s.path == "" || Trimmed(s.path))
    ensures exists s, body :: s in sections && Trimmed(body) && Reads(children[k], s.path, body)
  {
    hide AllChildren, AllParents, Display, Trimmed, Usable;
    var p := AllChildren(AllParents(sections, z), z)[k];
    assert ChildFits(AllParents(sections, z), children[k], k, z);
    var x := PieceOfSection(sections, k, z);
    assert sections[x] in sections;
    DisplayReads(p.path, p.body);
    assert sections[x] in sections && Reads(children[k], sections[x].path, p.body);
  }

  /** A text longer than the size is cut into windows that start behind one another. */
  ghost predicate CutInto(body: string, size: nat, overlap: nat, keep: bool, parts: seq<string>, ws: seq<Window>) {
    && Chained(ws, size, overlap) && ws != [] && ws[0].start == 0
    && (forall w :: w in ws ==> w.end == WindowEnd(body, w.start, size, overlap, keep))
    && parts == NonBlank(Pieces(body, ws))
  }

  lemma {:induction false} WindowEnds(text: string, start: nat, size: nat, overlap: nat, keep: bool)
    requires Advances(size, overlap)
    ensures forall w :: w in Windows(text, start, size, overlap, keep) ==>
      w.end == WindowEnd(text, w.start, size, overlap, keep)
    decreases |text| - start
  {
    hide WindowEnd;
    if start < |text| {
      WindowsUnfold(text, start, size, overlap, keep);
      WindowEnds(text, WindowEnd(text, start, size, overlap, keep) - overlap, size, overlap, keep);
    }
  }

  /** Parents are cut without, children with regard to whole paragraphs. */
  lemma OnlyChildrenKeepParagraphs(s: Section, z: Sizes)
    requires Usable(z)
    ensures |s.body| > z.parentSize ==>
      exists ws :: CutInto(s.body, z.parentSize, z.parentOverlap, false, Texts(ParentsOf(s, z)), ws)
    ensures |s.body| > z.childSize ==>
      exists ws :: CutInto(s.body, z.childSize, z.childOverlap, true, Texts(ChildrenOf(s, z)), ws)
  {
    hide *;
    UsableIs(z);
    var parents := NonBlank(Split(s.body, z.parentSize, z.parentOverlap, false));
    var children := NonBlank(Split(s.body, z.childSize, z.childOverlap, true));
    WindowsAreCut(s.body, z.parentSize, z.parentOverlap, false);
    WindowsAreCut(s.body, z.childSize, z.childOverlap, true);
    ParentsOfIs(s, z);
    ChildrenOfIs(s, z);
    TextsUnder(s.path, parents);
    TextsUnder(s.path, children);
    assert Texts(ParentsOf(s, z)) == parents && Texts(ChildrenOf(s, z)) == children;
  }

  lemma ChildrenOfIs(p: Piece, z: Sizes)
    requires Usable(z)
    ensures ChildrenOf(p, z) == Under(p.path, NonBlank(Split(p.body, z.childSize, z.childOverlap, true)))
  {
  }

  lemma WindowsAreCut(body: string, size: nat, overlap: nat, keep: bool)
    requires Advances(size, overlap)
    ensures |body| > size ==> CutInto(body, size, overlap, keep, NonBlank(Split(body, size, overlap, keep)),
                                      Windows(body, 0, size, overlap, keep))
  {
    hide Windows, Pieces, NonBlank, WindowEnd, Chained;
    WindowsCover(body, 0, size, overlap, keep);
    WindowEnds(body, 0, size, overlap, keep);
  }
}
