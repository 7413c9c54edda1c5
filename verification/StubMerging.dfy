/**
 * Merging short sections into a neighbour (klai-knowledge-ingest/knowledge_ingest/chunker.py, `_merge_stubs`).
 */
module StubMerging {
  import opened Strings
  import opened Chunker

  datatype Section = Section(path: string, body: string)

  const PATH_SEPARATOR := " > "

  /** One token is about four characters. */
  function ApproxTokens(text: string): nat {
    if |text| / 4 > 1 then |text| / 4 else 1
  }

  function ParentPath(path: string): string { RPartition(path, PATH_SEPARATOR).0 }

  function Title(path: string): string { RPartition(path, PATH_SEPARATOR).2 }

  /** The other section sits under the stub, or the two are peers under one parent heading. */
  predicate Eligible(stubPath: string, otherPath: string) {
    ParentPath(otherPath) == stubPath || (ParentPath(stubPath) != "" && ParentPath(otherPath) == ParentPath(stubPath))
  }

  predicate IsStub(s: Section) { ApproxTokens(s.body) < MIN_SECTION_TOKENS }

  /** `join`: the non-empty parts, separated by blank lines. */
  function JoinParts(parts: seq<string>): string {
    Join(PARAGRAPH, NonEmpty(parts))
  }

  /** Two texts joined; an empty one leaves no blank line. */
  function Glue(a: string, b: string): string {
    if a == "" then b else if b == "" then a else a + PARAGRAPH + b
  }

  lemma GlueAssociates(a: string, b: string, c: string)
    ensures Glue(Glue(a, b), c) == Glue(a, Glue(b, c))
  {
    if a != "" && b != "" && c != "" {
      assert (a + PARAGRAPH + b) + PARAGRAPH + c == a + PARAGRAPH + (b + PARAGRAPH + c);
    }
  }

  lemma JoinOne(s: string)
    ensures JoinParts([s]) == s && JoinParts([]) == ""
  {
    assert [s][1..] == [] && NonEmpty([]) == [];
    assert NonEmpty([s]) == if s == "" then [] else [s];
  }

  /** Joining is gluing, part by part. */
  lemma JoinCons(p: string, rest: seq<string>)
    ensures JoinParts([p] + rest) == Glue(p, JoinParts(rest))
  {
    assert ([p] + rest)[1..] == rest;
    NonEmptyAreNotEmpty(rest);
    var kept := NonEmpty(rest);
    if p == "" {
      assert NonEmpty([p] + rest) == kept;
    } else {
      assert NonEmpty([p] + rest) == [p] + kept;
      assert ([p] + kept)[1..] == kept;
    }
  }

  lemma {:induction false} NonEmptyAreNotEmpty(parts: seq<string>)
    ensures NonEmpty(parts) != [] ==> JoinParts(parts) != ""
    ensures NonEmpty(parts) == [] ==> JoinParts(parts) == ""
  {
    if parts != [] && parts[0] == "" {
      NonEmptyAreNotEmpty(parts[1..]);
    }
  }

  /** Joining what is joined already changes nothing. */
  lemma {:induction false} JoinFlattens(xs: seq<string>, ys: seq<string>)
    ensures JoinParts(xs + ys) == Glue(JoinParts(xs), JoinParts(ys))
    ensures JoinParts([JoinParts(xs)] + ys) == JoinParts(xs + ys)
  {
    hide JoinParts;
    JoinCons(JoinParts(xs), ys);
    if xs == [] {
      JoinOne("");
      assert xs + ys == ys;
    } else {
      JoinFlattens(xs[1..], ys);
      assert xs == [xs[0]] + xs[1..] && xs + ys == [xs[0]] + (xs[1..] + ys);
      JoinCons(xs[0], xs[1..]);
      JoinCons(xs[0], xs[1..] + ys);
      GlueAssociates(xs[0], JoinParts(xs[1..]), JoinParts(ys));
    }
  }

  // ----- The merge

  /** A waiting stub: its path, the text merged into it so far, and its own body. */
  datatype Carry = Carry(path: string, lead: string, body: string)

  /** Section `x` has no following section it may join. */
  predicate NoneBehind(sections: seq<Section>, x: int)
    requires 0 <= x < |sections|
  {
    x + 1 == |sections| || !Eligible(sections[x].path, sections[x + 1].path)
  }

  /**
   * What section `x` adds to the text it ends up in: its body, and its title in front unless it is the host or goes
   * into a section right under its own heading.
   */
  function LinesAt(sections: seq<Section>, host: int, x: nat): seq<string>
    requires x < |sections|
  {
    var s := sections[x];
    if x == host || (!NoneBehind(sections, x) && s.path + PATH_SEPARATOR <= sections[x + 1].path) then [s.body]
    else [Title(s.path), s.body]
  }

  /** What the sections `[from, to)` add, in order: every body exactly once, and nothing but titles between them. */
  function LinesOf(sections: seq<Section>, host: int, from: nat, to: nat): seq<string>
    requires from <= to <= |sections|
  {
    if from == to then [] else LinesOf(sections, host, from, to - 1) + LinesAt(sections, host, to - 1)
  }

  lemma {:induction false} LinesSplit(sections: seq<Section>, host: int, from: nat, mid: nat, to: nat)
    requires from <= mid <= to <= |sections|
    ensures LinesOf(sections, host, from, to) == LinesOf(sections, host, from, mid) + LinesOf(sections, host, mid, to)
  {
    hide LinesAt;
    if mid < to {
      LinesSplit(sections, host, from, mid, to - 1);
    }
  }

  /** Only the host itself is told apart. */
  lemma {:induction false} HostElsewhere(sections: seq<Section>, host: int, other: int, from: nat, to: nat)
    requires from <= to <= |sections| && !(from <= host < to) && !(from <= other < to)
    ensures LinesOf(sections, host, from, to) == LinesOf(sections, other, from, to)
  {
    hide NoneBehind, Title;
    if from < to {
      HostElsewhere(sections, host, other, from, to - 1);
      NotTheHost(sections, host, other, to - 1);
      hide LinesAt;
    }
  }

  lemma NotTheHost(sections: seq<Section>, host: int, other: int, x: nat)
    requires x < |sections| && x != host && x != other
    ensures LinesAt(sections, host, x) == LinesAt(sections, other, x)
  {
    hide NoneBehind, Title;
  }

  /** No section is the host. */
  const NOBODY := -1

  /**
   * The output section `o` is made of the input sections `[from, to)`: it has the path of one of them, the host, and
   * its text is all their bodies, each once and in order, with the titles of the others. Every other one is a stub that
   * went into the section behind it when that was eligible, and only otherwise back into the host.
   */
  ghost predicate MadeOf(sections: seq<Section>, from: nat, to: nat, o: Section)
    requires from < to <= |sections|
  {
    exists host :: Hosts(sections, from, to, o, host)
  }

  ghost predicate Hosts(sections: seq<Section>, from: nat, to: nat, o: Section, host: nat)
    requires from < to <= |sections|
  {
    && from <= host < to && o.path == sections[host].path
    && o.body == JoinParts(LinesOf(sections, host, from, to))
    && forall x :: from <= x < to && x != host ==> Went(sections, x, to, o.path)
  }

  ghost predicate Went(sections: seq<Section>, x: int, to: nat, path: string)
    requires 0 <= x < to <= |sections|
  {
    && IsStub(sections[x])
    && ((x + 1 < to && Eligible(sections[x].path, sections[x + 1].path))
        || (Eligible(sections[x].path, path) && NoneBehind(sections, x)))
  }

  /** The waiting stub is section `to - 1`, with the sections from `from` on merged into it. */
  ghost predicate Waiting(sections: seq<Section>, from: nat, to: nat, c: Carry)
    requires from < to <= |sections|
  {
    && c.lead == JoinParts(LinesOf(sections, NOBODY, from, to - 1))
    && c.path == sections[to - 1].path && c.body == sections[to - 1].body && IsStub(sections[to - 1])
    && forall x :: from <= x < to - 1 ==> IsStub(sections[x]) && Eligible(sections[x].path, sections[x + 1].path)
  }

  /** `lead` holds the stubs `[from, n)`, each merged into the one behind it, the last one into section `n`. */
  ghost predicate Leading(sections: seq<Section>, from: nat, n: nat, lead: string)
    requires from <= n < |sections|
  {
    && lead == JoinParts(LinesOf(sections, NOBODY, from, n))
    && forall x :: from <= x < n ==> IsStub(sections[x]) && Eligible(sections[x].path, sections[x + 1].path)
  }

  lemma LeadingNothing(sections: seq<Section>, n: nat)
    requires n < |sections|
    ensures Leading(sections, n, n, "")
  {
    JoinOne("");
  }

  /** `cuts` bounds the groups of input sections that make up `out`; they cover the first `upTo` sections. */
  ghost predicate Grouped(sections: seq<Section>, cuts: seq<nat>, out: seq<Section>, upTo: nat) {
    && |cuts| == |out| + 1 && cuts[0] == 0 && cuts[|out|] == upTo <= |sections|
    && forall i :: 0 <= i < |out| ==> Group(sections, cuts, out[i], i)
  }

  ghost predicate Group(sections: seq<Section>, cuts: seq<nat>, o: Section, i: nat) {
    && i + 1 < |cuts| && cuts[i] < cuts[i + 1] <= |sections|
    && MadeOf(sections, cuts[i], cuts[i + 1], o)
  }

  /** An output section that is still short has no eligible neighbour on either side. */
  ghost predicate Stuck(sections: seq<Section>, cuts: seq<nat>, out: seq<Section>, i: nat) {
    && i < |out| && i + 1 < |cuts| && 0 < cuts[i + 1] <= |sections|
    && (IsStub(out[i]) ==>
          (i > 0 ==> !Eligible(out[i].path, out[i - 1].path)) && NoneBehind(sections, cuts[i + 1] - 1))
  }

  ghost predicate AllStuck(sections: seq<Section>, cuts: seq<nat>, out: seq<Section>) {
    |cuts| == |out| + 1 && forall i: nat :: i < |out| ==> Stuck(sections, cuts, out, i)
  }

  lemma StuckPush(sections: seq<Section>, cuts: seq<nat>, out: seq<Section>, to: nat, o: Section)
    requires AllStuck(sections, cuts, out) && 0 < to <= |sections|
    requires IsStub(o) ==> (out != [] ==> !Eligible(o.path, out[|out| - 1].path)) && NoneBehind(sections, to - 1)
    ensures AllStuck(sections, cuts + [to], out + [o])
  {
    hide Eligible, IsStub;
    forall i: nat | i < |out| + 1 ensures Stuck(sections, cuts + [to], out + [o], i) {
      if i < |out| {
        assert Stuck(sections, cuts, out, i);
      }
    }
  }

  lemma StuckGrow(sections: seq<Section>, cuts: seq<nat>, out: seq<Section>, to: nat, o: Section)
    requires AllStuck(sections, cuts, out) && out != [] && 0 < to <= |sections|
    requires o.path == out[|out| - 1].path && |o.body| >= |out[|out| - 1].body| && NoneBehind(sections, to - 1)
    ensures AllStuck(sections, cuts[..|out|] + [to], out[..|out| - 1] + [o])
  {
    hide Eligible;
    var cuts', out' := cuts[..|out|] + [to], out[..|out| - 1] + [o];
    LongerIsLess(out[|out| - 1], o);
    hide IsStub;
    forall i: nat | i < |out| ensures Stuck(sections, cuts', out', i) {
      assert Stuck(sections, cuts, out, i);
    }
  }

  lemma LongerIsLess(a: Section, b: Section)
    requires |b.body| >= |a.body|
    ensures IsStub(b) ==> IsStub(a)
  {
  }

  /** What the loop knows behind the first `n` sections: all are placed, but for the ones that wait. */
  ghost predicate Merging(sections: seq<Section>, cuts: seq<nat>, out: seq<Section>, upTo: nat, n: nat,
                          carry: Option<Carry>) {
    && Grouped(sections, cuts, out, upTo) && AllStuck(sections, cuts, out)
    && upTo <= n <= |sections|
    && match carry
       case None => upTo == n
       case Some(c) => upTo < n && Waiting(sections, upTo, n, c)
  }

  lemma MergingMeans(sections: seq<Section>, cuts: seq<nat>, out: seq<Section>, upTo: nat, n: nat, carry: Option<Carry>)
    requires Merging(sections, cuts, out, upTo, n, carry)
    ensures Grouped(sections, cuts, out, upTo) && AllStuck(sections, cuts, out) && upTo <= n <= |sections|
    ensures carry == None ==> upTo == n
    ensures carry.Some? ==> upTo < n && Waiting(sections, upTo, n, carry.value)
  {
    hide Grouped, AllStuck, Waiting;
  }

  lemma GroupedStart(sections: seq<Section>)
    ensures Merging(sections, [0], [], 0, 0, None)
  {
  }

  lemma GroupedLast(sections: seq<Section>, cuts: seq<nat>, out: seq<Section>, upTo: nat)
    requires Grouped(sections, cuts, out, upTo)
    ensures |cuts| == |out| + 1
    ensures out != [] ==> cuts[|out| - 1] < upTo <= |sections|
    ensures out != [] ==> MadeOf(sections, cuts[|out| - 1], upTo, out[|out| - 1])
  {
    assert out != [] ==> Group(sections, cuts, out[|out| - 1], |out| - 1);
  }

  lemma GroupedPush(sections: seq<Section>, cuts: seq<nat>, out: seq<Section>, upTo: nat, to: nat, o: Section)
    requires Grouped(sections, cuts, out, upTo)
    requires upTo < to <= |sections| && MadeOf(sections, upTo, to, o)
    ensures Grouped(sections, cuts + [to], out + [o], to)
  {
    hide MadeOf;
    forall i | 0 <= i < |out| ensures Group(sections, cuts + [to], out[i], i) {
      assert Group(sections, cuts, out[i], i);
    }
  }

  lemma GroupedGrow(sections: seq<Section>, cuts: seq<nat>, out: seq<Section>, upTo: nat, to: nat, o: Section)
    requires Grouped(sections, cuts, out, upTo) && out != []
    requires upTo < to <= |sections| && cuts[|out| - 1] < to && MadeOf(sections, cuts[|out| - 1], to, o)
    ensures Grouped(sections, cuts[..|out|] + [to], out[..|out| - 1] + [o], to)
  {
    hide MadeOf;
    forall i | 0 <= i < |out| - 1 ensures Group(sections, cuts[..|out|] + [to], out[i], i) {
      assert Group(sections, cuts, out[i], i);
    }
  }

  /** A waiting stub that stays alone keeps its own path. */
  lemma StandsAlone(sections: seq<Section>, from: nat, to: nat, c: Carry)
    requires from < to <= |sections| && Waiting(sections, from, to, c)
    ensures MadeOf(sections, from, to, Section(c.path, JoinParts([c.lead, c.body])))
  {
    hide Eligible, JoinParts, IsStub;
    var host := to - 1;
    Settling(sections, from, host, c.lead);
    assert Hosts(sections, from, to, Section(c.path, JoinParts([c.lead, c.body])), host);
  }

  /** The host behind the stubs that go into it. */
  lemma Settling(sections: seq<Section>, from: nat, host: nat, lead: string)
    requires from <= host < |sections| && lead == JoinParts(LinesOf(sections, NOBODY, from, host))
    ensures JoinParts([lead, sections[host].body]) == JoinParts(LinesOf(sections, host, from, host + 1))
  {
    hide JoinParts;
    HostElsewhere(sections, host, NOBODY, from, host);
    var lines := LinesOf(sections, host, from, host);
    JoinFlattens(lines, [sections[host].body]);
    assert [lead, sections[host].body] == [lead] + [sections[host].body];
    assert LinesOf(sections, host, from, host + 1) == lines + [sections[host].body];
  }

  /** A waiting stub that joins the section in front of it. */
  lemma GoesBack(sections: seq<Section>, start: nat, from: nat, to: nat, prev: Section, c: Carry)
    requires start < from < to <= |sections|
    requires MadeOf(sections, start, from, prev) && Waiting(sections, from, to, c) && Eligible(c.path, prev.path)
    requires NoneBehind(sections, to - 1)
    ensures var body := JoinParts([prev.body, c.lead, Title(c.path), c.body]);
      MadeOf(sections, start, to, Section(prev.path, body)) && |body| >= |prev.body|
  {
    hide Eligible, JoinParts, NoneBehind, IsStub, Title;
    assert [prev.body] + [c.lead, Title(c.path), c.body] == [prev.body, c.lead, Title(c.path), c.body];
    JoinIsLongerThanFirst(prev.body, [c.lead, Title(c.path), c.body]);
    var host: nat :| Hosts(sections, start, from, prev, host);
    BackLines(sections, start, from, to, prev, c, host);
    forall x | start <= x < to && x != host ensures Went(sections, x, to, prev.path) {
      if x < from {
        assert Went(sections, x, from, prev.path);
      }
    }
    assert Hosts(sections, start, to, Section(prev.path, JoinParts([prev.body, c.lead, Title(c.path), c.body])), host);
  }

  lemma BackLines(sections: seq<Section>, start: nat, from: nat, to: nat, prev: Section, c: Carry, host: nat)
    requires start <= host < from < to <= |sections| && NoneBehind(sections, to - 1)
    requires prev.body == JoinParts(LinesOf(sections, host, start, from))
    requires c.lead == JoinParts(LinesOf(sections, NOBODY, from, to - 1))
    requires c.path == sections[to - 1].path && c.body == sections[to - 1].body
    ensures JoinParts([prev.body, c.lead, Title(c.path), c.body]) == JoinParts(LinesOf(sections, host, start, to))
  {
    hide JoinParts, Title, LinesOf, Glue, NoneBehind;
    var xs, ys := LinesOf(sections, host, start, from), LinesOf(sections, host, from, to - 1);
    var zs := [Title(c.path), c.body];
    HostElsewhere(sections, host, NOBODY, from, to - 1);
    LinesSplit(sections, host, start, from, to);
    StuckLines(sections, host, from, to);
    JoinFlattens(ys, zs);
    JoinFlattens(xs, [c.lead] + zs);
    JoinFlattens(xs, ys + zs);
    assert [prev.body, c.lead, Title(c.path), c.body] == [prev.body] + ([c.lead] + zs);
  }

  /** A stub that goes back brings its title. */
  lemma StuckLines(sections: seq<Section>, host: nat, from: nat, to: nat)
    requires host < from < to <= |sections| && NoneBehind(sections, to - 1)
    ensures LinesOf(sections, host, from, to)
      == LinesOf(sections, host, from, to - 1) + [Title(sections[to - 1].path), sections[to - 1].body]
  {
    hide Title, NoneBehind;
  }

  /** The next section, with the waiting stub's text in front of it. */
  lemma GoesForward(sections: seq<Section>, from: nat, n: nat, c: Carry, titleLine: string)
    requires from < n < |sections| && Waiting(sections, from, n, c) && Eligible(c.path, sections[n].path)
    requires titleLine == if c.path + PATH_SEPARATOR <= sections[n].path then "" else Title(c.path)
    ensures var lead := JoinParts([c.lead, titleLine, c.body]);
      Leading(sections, from, n, lead)
  {
    hide Eligible, JoinParts, Title, IsStub;
    var xs, zs := LinesOf(sections, NOBODY, from, n - 1), LinesAt(sections, NOBODY, n - 1);
    JoinFlattens(xs, zs);
    JoinFlattens(xs, [titleLine, c.body]);
    assert [c.lead, titleLine, c.body] == [c.lead] + [titleLine, c.body];
    EmptyTitle(c.body);
    assert LinesOf(sections, NOBODY, from, n) == xs + zs;
  }

  lemma EmptyTitle(body: string)
    ensures JoinParts(["", body]) == JoinParts([body])
  {
    assert ["", body][1..] == [body];
    assert NonEmpty(["", body]) == NonEmpty([body]);
  }

  /** A section that is long enough, behind the stubs that wait for it. */
  lemma Settled(sections: seq<Section>, from: nat, n: nat, lead: string)
    requires from <= n < |sections| && Leading(sections, from, n, lead)
    ensures MadeOf(sections, from, n + 1, Section(sections[n].path, JoinParts([lead, sections[n].body])))
  {
    hide Eligible, JoinParts, IsStub;
    Settling(sections, from, n, lead);
    assert Hosts(sections, from, n + 1, Section(sections[n].path, JoinParts([lead, sections[n].body])), n);
  }

  lemma ShorterIsStub(lead: string, s: Section)
    requires ApproxTokens(JoinParts([lead, s.body])) < MIN_SECTION_TOKENS
    ensures IsStub(s)
  {
    JoinIsLonger(lead, s.body);
  }

  lemma JoinIsLonger(a: string, b: string)
    ensures |JoinParts([a, b])| >= |b|
  {
    hide JoinParts;
    assert [a, b] == [a] + [b];
    JoinCons(a, [b]);
    JoinOne(b);
  }

  lemma JoinIsLongerThanFirst(a: string, rest: seq<string>)
    ensures |JoinParts([a] + rest)| >= |a|
  {
    hide JoinParts;
    JoinCons(a, rest);
  }

  /** `settle`: a stub that found no following section goes backward, or stands alone. */
  method Settle(sections: seq<Section>, c: Carry, out: seq<Section>, merged: nat, ghost cuts: seq<nat>,
                ghost upTo: nat, ghost to: nat)
    returns (out': seq<Section>, merged': nat, ghost cuts': seq<nat>)
    requires upTo < to <= |sections| && Grouped(sections, cuts, out, upTo) && Waiting(sections, upTo, to, c)
    requires AllStuck(sections, cuts, out) && NoneBehind(sections, to - 1)
    ensures Grouped(sections, cuts', out', to) && AllStuck(sections, cuts', out')
    ensures |cuts'| == |out'| + 1
    ensures merged' + |out'| == merged + |out| + 1
  {
    hide *;
    GroupedLast(sections, cuts, out, upTo);
    if out != [] && Eligible(c.path, out[|out| - 1].path) {
      var prev := out[|out| - 1];
      GoesBack(sections, cuts[|out| - 1], upTo, to, prev, c);
      var grown := Section(prev.path, JoinParts([prev.body, c.lead, Title(c.path), c.body]));
      GroupedGrow(sections, cuts, out, upTo, to, grown);
      StuckGrow(sections, cuts, out, to, grown);
      out', merged', cuts' := out[..|out| - 1] + [grown], merged + 1, cuts[..|out|] + [to];
    } else {
      StandsAlone(sections, upTo, to, c);
      var alone := Section(c.path, JoinParts([c.lead, c.body]));
      GroupedPush(sections, cuts, out, upTo, to, alone);
      StuckPush(sections, cuts, out, to, alone);
      out', merged', cuts' := out + [alone], merged, cuts + [to];
    }
  }

  /** The waiting stub meets the next section: it goes in front of it when the two are eligible, else it settles. */
  method TakeCarry(sections: seq<Section>, n: nat, c: Carry, out: seq<Section>, merged: nat, ghost cuts: seq<nat>,
                   ghost upTo: nat)
    returns (lead: string, out': seq<Section>, merged': nat, ghost cuts': seq<nat>, ghost upTo': nat)
    requires upTo < n < |sections| && Grouped(sections, cuts, out, upTo) && Waiting(sections, upTo, n, c)
    requires AllStuck(sections, cuts, out)
    ensures upTo' <= n && Grouped(sections, cuts', out', upTo') && Leading(sections, upTo', n, lead)
    ensures AllStuck(sections, cuts', out')
    ensures merged' + |out'| == merged + |out| + 1
  {
    hide *;
    if Eligible(c.path, sections[n].path) {
      var titleLine := if c.path + PATH_SEPARATOR <= sections[n].path then "" else Title(c.path);
      GoesForward(sections, upTo, n, c, titleLine);
      lead := JoinParts([c.lead, titleLine, c.body]);
      out', merged', cuts', upTo' := out, merged + 1, cuts, upTo;
    } else {
      LeadingNothing(sections, n);
      NotEligibleBehind(sections, upTo, n, c);
      lead := "";
      out', merged', cuts' := Settle(sections, c, out, merged, cuts, upTo, n);
      upTo' := n;
    }
  }

  lemma NotEligibleBehind(sections: seq<Section>, from: nat, n: nat, c: Carry)
    requires from < n < |sections| && Waiting(sections, from, n, c) && !Eligible(c.path, sections[n].path)
    ensures NoneBehind(sections, n - 1)
  {
    hide Eligible;
  }

  lemma LastHasNoneBehind(sections: seq<Section>)
    requires sections != []
    ensures NoneBehind(sections, |sections| - 1)
  {
  }

  lemma LongIsNoStub(s: Section)
    requires ApproxTokens(s.body) >= MIN_SECTION_TOKENS
    ensures !IsStub(s)
  {
  }

  /** A section that is long enough, with what waited in front of it, is placed. */
  lemma LongEnough(sections: seq<Section>, cuts: seq<nat>, out: seq<Section>, upTo: nat, n: nat, lead: string)
    requires upTo <= n < |sections| && Leading(sections, upTo, n, lead)
    requires Grouped(sections, cuts, out, upTo) && AllStuck(sections, cuts, out)
    requires ApproxTokens(JoinParts([lead, sections[n].body])) >= MIN_SECTION_TOKENS
    ensures var whole := Section(sections[n].path, JoinParts([lead, sections[n].body]));
      Merging(sections, cuts + [n + 1], out + [whole], n + 1, n + 1, None)
  {
    hide Grouped, AllStuck, Leading, MadeOf, IsStub, JoinParts, ApproxTokens, NoneBehind, Eligible;
    Settled(sections, upTo, n, lead);
    var whole := Section(sections[n].path, JoinParts([lead, sections[n].body]));
    GroupedPush(sections, cuts, out, upTo, n + 1, whole);
    LongIsNoStub(whole);
    StuckPush(sections, cuts, out, n + 1, whole);
  }

  /**
   * `_merge_stubs`. The input sections fall into consecutive groups, one per output section, whose text is exactly the
   * bodies of its group, each once and in order, and the titles of the stubs; the count of merges is what is missing.
   * What is still short at the end has no eligible neighbour left.
   */
  method MergeStubs(sections: seq<Section>) returns (out: seq<Section>, merged: nat, ghost cuts: seq<nat>)
    ensures Grouped(sections, cuts, out, |sections|) && AllStuck(sections, cuts, out)
    ensures |out| == |sections| - merged
  {
    hide *;
    out, merged, cuts := [], 0, [0];
    var carry: Option<Carry> := None;
    ghost var upTo: nat := 0;
    GroupedStart(sections);
    for n := 0 to |sections|
      invariant Merging(sections, cuts, out, upTo, n, carry)
      invariant merged + |out| + (if carry.Some? then 1 else 0) == n
    {
      var s := sections[n];
      var lead := "";
      MergingMeans(sections, cuts, out, upTo, n, carry);
      LeadingNothing(sections, n);
      if carry.Some? {
        lead, out, merged, cuts, upTo := TakeCarry(sections, n, carry.value, out, merged, cuts, upTo);
        carry := None;
      }
      if ApproxTokens(JoinParts([lead, s.body])) < MIN_SECTION_TOKENS {
        ShorterIsStub(lead, s);
        NowWaiting(sections, cuts, out, upTo, n, lead);
        carry := Some(Carry(s.path, lead, s.body));
      } else {
        var whole := Section(s.path, JoinParts([lead, s.body]));
        LongEnough(sections, cuts, out, upTo, n, lead);
        out, cuts := out + [whole], cuts + [n + 1];
        upTo := n + 1;
      }
    }
    MergingMeans(sections, cuts, out, upTo, |sections|, carry);
    if carry.Some? {
      LastHasNoneBehind(sections);
      out, merged, cuts := Settle(sections, carry.value, out, merged, cuts, upTo, |sections|);
    }
  }

  lemma NowWaiting(sections: seq<Section>, cuts: seq<nat>, out: seq<Section>, from: nat, n: nat, lead: string)
    requires from <= n < |sections| && IsStub(sections[n]) && Leading(sections, from, n, lead)
    requires Grouped(sections, cuts, out, from) && AllStuck(sections, cuts, out)
    ensures Merging(sections, cuts, out, from, n + 1, Some(Carry(sections[n].path, lead, sections[n].body)))
  {
    hide Eligible, IsStub, JoinParts, Grouped, AllStuck;
  }

  // ----- The terms of the merge, by the characters of paths and texts

  /** `path` is `title` right under the headings `parent`: cut at the last separator. */
  ghost predicate SitsUnder(path: string, parent: string, title: string) {
    path == parent + " > " + title && forall i :: i > |parent| ==> !At(path, " > ", i)
  }

  /** A single heading, or the text in front of all headings. */
  ghost predicate IsTop(path: string) {
    forall i :: !At(path, " > ", i)
  }

  lemma PathParts(path: string)
    ensures if IsTop(path) then ParentPath(path) == "" && Title(path) == path
            else SitsUnder(path, ParentPath(path), Title(path))
  {
    hide RFind;
    var r := RFind(path, PATH_SEPARATOR);
    if r >= 0 {
      SeparatorAt(path, r);
      assert SitsUnder(path, path[..r], path[r + 3..]);
    }
  }

  lemma SeparatorAt(path: string, r: int)
    requires At(path, " > ", r)
    ensures 0 <= r <= |path| - 3 && path == path[..r] + " > " + path[r + 3..]
  {
    assert path == path[..r] + path[r..r + 3] + path[r + 3..];
  }

  lemma SitsOnce(path: string, parent: string, title: string)
    requires SitsUnder(path, parent, title)
    ensures !IsTop(path) && ParentPath(path) == parent && Title(path) == title
  {
    hide RFind;
    assert path[|parent|..|parent| + 3] == " > ";
    assert At(path, " > ", |parent|);
    RFindIs(path, " > ", |parent|);
    assert path[..|parent|] == parent && path[|parent| + 3..] == title;
  }

  /** A stub has fewer than 200 characters. */
  lemma StubIsShort(s: Section)
    ensures IsStub(s) <==> |s.body| < 200
  {
  }

  /**
   * A stub may join a section right under it, or a peer under the same heading; two top-level headings are no peers,
   * but a stub in front of all headings goes with the heading behind it.
   */
  lemma EligibleIsExact(stub: string, other: string)
    ensures Eligible(stub, other) <==>
      || (exists t :: SitsUnder(other, stub, t))
      || (stub == "" && IsTop(other))
      || exists p, a, b :: p != "" && SitsUnder(stub, p, a) && SitsUnder(other, p, b)
  {
    hide RPartition, At;
    PathParts(stub);
    PathParts(other);
    forall p, t ensures SitsUnder(stub, p, t) ==> !IsTop(stub) && ParentPath(stub) == p {
      if SitsUnder(stub, p, t) {
        SitsOnce(stub, p, t);
      }
    }
    forall p, t ensures SitsUnder(other, p, t) ==> !IsTop(other) && ParentPath(other) == p {
      if SitsUnder(other, p, t) {
        SitsOnce(other, p, t);
      }
    }
    hide SitsUnder, IsTop, ParentPath, Title;
  }

  /** A section whose title is put in front of its body: not the host, and not right in front of its own subsection. */
  ghost predicate Announced(sections: seq<Section>, host: int, x: nat)
    requires x < |sections|
  {
    x != host && !(x + 1 < |sections| && Eligible(sections[x].path, sections[x + 1].path)
                   && sections[x].path + " > " <= sections[x + 1].path)
  }

  /** Where the bodies of the sections from `from` on stand: one behind another, with announced titles in between. */
  ghost predicate BodiesAt(sections: seq<Section>, host: int, from: nat, lines: seq<string>, at: seq<nat>)
    requires from + |at| <= |sections|
  {
    && |lines| == (if at == [] then 0 else at[|at| - 1] + 1)
    && forall i :: 0 <= i < |at| ==> BodyAt(sections, host, from, lines, at, i)
  }

  ghost predicate BodyAt(sections: seq<Section>, host: int, from: nat, lines: seq<string>, at: seq<nat>, i: int)
    requires from + |at| <= |sections| && 0 <= i < |at|
  {
    var x, front := from + i, if i == 0 then 0 else at[i - 1] + 1;
    && at[i] == front + (if Announced(sections, host, x) then 1 else 0)
    && at[i] < |lines| && lines[at[i]] == sections[x].body
    && (Announced(sections, host, x) ==>
          if IsTop(sections[x].path) then lines[front] == sections[x].path
          else exists parent :: SitsUnder(sections[x].path, parent, lines[front]))
  }

  /** The lines of a group are exactly its bodies in order, each announced by its last heading where it has to be. */
  lemma {:induction false} LinesAreExact(sections: seq<Section>, host: int, from: nat, to: nat) returns (at: seq<nat>)
    requires from <= to <= |sections|
    ensures |at| == to - from && BodiesAt(sections, host, from, LinesOf(sections, host, from, to), at)
  {
    hide LinesAt, BodyAt;
    if from == to {
      at := [];
    } else {
      var x := to - 1;
      var before, own := LinesOf(sections, host, from, x), LinesAt(sections, host, x);
      var front := LinesAreExact(sections, host, from, x);
      OwnLines(sections, host, x);
      at := front + [|before| + |own| - 1];
      forall i | 0 <= i < |front| ensures BodyAt(sections, host, from, before + own, at, i) {
        BodyStays(sections, host, from, before, own, front, at[|front|], i);
      }
      LastBody(sections, host, from, before, own, front);
    }
  }

  lemma OwnLines(sections: seq<Section>, host: int, x: nat)
    requires x < |sections|
    ensures LinesAt(sections, host, x)
         == if Announced(sections, host, x) then [Title(sections[x].path), sections[x].body] else [sections[x].body]
  {
    hide Title, Eligible;
  }

  lemma BodyStays(sections: seq<Section>, host: int, from: nat, lines: seq<string>, more: seq<string>, at: seq<nat>,
                  last: nat, i: int)
    requires 0 <= i < |at| && from + |at| < |sections| && BodyAt(sections, host, from, lines, at, i)
    ensures BodyAt(sections, host, from, lines + more, at + [last], i)
  {
    hide Announced, SitsUnder, IsTop;
  }

  lemma LastBody(sections: seq<Section>, host: int, from: nat, lines: seq<string>, own: seq<string>, at: seq<nat>)
    requires from + |at| < |sections| && BodiesAt(sections, host, from, lines, at)
    requires own == LinesAt(sections, host, from + |at|)
    ensures own != [] && BodyAt(sections, host, from, lines + own, at + [|lines| + |own| - 1], |at|)
  {
    hide Announced, SitsUnder, IsTop, Title, LinesAt, BodyAt;
    var x := from + |at|;
    OwnLines(sections, host, x);
    PathParts(sections[x].path);
    LastBodyAt(sections, host, from, lines, own, at);
  }

  lemma LastBodyAt(sections: seq<Section>, host: int, from: nat, lines: seq<string>, own: seq<string>, at: seq<nat>)
    requires from + |at| < |sections| && |lines| == (if at == [] then 0 else at[|at| - 1] + 1)
    requires var s := sections[from + |at|];
      && own == (if Announced(sections, host, from + |at|) then [Title(s.path), s.body] else [s.body])
      && (if IsTop(s.path) then Title(s.path) == s.path else SitsUnder(s.path, ParentPath(s.path), Title(s.path)))
    ensures BodyAt(sections, host, from, lines + own, at + [|lines| + |own| - 1], |at|)
  {
    hide Announced, SitsUnder, IsTop, Title, ParentPath;
  }
}
