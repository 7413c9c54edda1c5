/**
 * Numbered substitution of analyzer spans and its round trip through `Restore`
 * (deploy/litellm/klai_pii_text_masking.py `mask_text`, deploy/litellm/klai_pii_enforce.py `_mask_messages`).
 */
module Masking {
  import opened Sequences
  import opened Placeholders
  import opened SpanSelection

  // ----- Placeholders are numbered, and a number names one span

  function Decimal(n: nat): (s: string)
    ensures IsNumber(s) && forall i :: 0 <= i < |s| ==> s[i] != '_'
  {
    if n < 10 then ["0123456789"[n]] else Decimal(n / 10) + ["0123456789"[n % 10]]
  }

  lemma {:induction false} DecimalIsInjective(m: nat, n: nat)
    requires Decimal(m) == Decimal(n)
    ensures m == n
  {
    var a, b := Decimal(m), Decimal(n);
    assert a[|a| - 1] == "0123456789"[m % 10] && b[|b| - 1] == "0123456789"[n % 10];
    if m >= 10 && n >= 10 {
      assert a[..|a| - 1] == Decimal(m / 10) && b[..|b| - 1] == Decimal(n / 10);
      DecimalIsInjective(m / 10, n / 10);
    }
  }

  /** The number a row of digits reads as. */
  function Value(s: string): nat
    requires IsNumber(s)
  {
    var last := s[|s| - 1];
    (if |s| == 1 then 0 else 10 * Value(s[..|s| - 1])) + (last as int - '0' as int)
  }

  /** A number is written in decimal, without leading zeros. */
  lemma {:induction false} DecimalReads(n: nat)
    ensures Value(Decimal(n)) == n && (Decimal(n)[0] == '0' ==> n == 0)
  {
    var s := Decimal(n);
    DigitReads(n % 10);
    if n >= 10 {
      DecimalReads(n / 10);
      assert s[..|s| - 1] == Decimal(n / 10) && s[0] == Decimal(n / 10)[0];
    }
  }

  lemma DigitReads(d: nat)
    requires d < 10
    ensures "0123456789"[d] as int - '0' as int == d
  {
  }

  function Placeholder(entity: string, n: nat): string {
    "<" + entity + "_" + Decimal(n) + ">"
  }

  lemma PlaceholderSplits(entity: string, n: nat)
    ensures var t := Placeholder(entity, n);
      && LastUnderscore(t) == |entity| + 1
      && t[1..|entity| + 1] == entity
      && t[|entity| + 2..|t| - 1] == Decimal(n)
      && (IsTypeName(entity) ==> IsPlaceholder(t) && EntityType(t) == entity)
  {
    var t, u := Placeholder(entity, n), |entity| + 1;
    assert t[1..u] == entity && t[u + 1..|t| - 1] == Decimal(n);
    forall i | u < i < |t| ensures t[i] != '_' {
      if i < |t| - 1 {
        assert t[i] == Decimal(n)[i - u - 1];
      }
    }
    LastUnderscoreIs(t, u);
    if IsTypeName(entity) {
      assert SplitsAt(t, u);
      TokenSplitsOnce(t, u);
    }
  }

  lemma PlaceholderIsInjective(e1: string, n1: nat, e2: string, n2: nat)
    requires Placeholder(e1, n1) == Placeholder(e2, n2)
    ensures e1 == e2 && n1 == n2
  {
    PlaceholderSplits(e1, n1);
    PlaceholderSplits(e2, n2);
    DecimalIsInjective(n1, n2);
  }

  type Counts = map<string, nat>

  function CountFor(counts: Counts, entity: string): nat {
    if entity in counts then counts[entity] else 0
  }

  datatype Assignment = Assignment(span: DetectedSpan, placeholder: string)

  /** Placeholders in left-to-right order; every entity type counts on from `counts`. */
  function Number(sel: seq<DetectedSpan>, counts: Counts): (r: seq<Assignment>)
    ensures |r| == |sel| && forall i :: 0 <= i < |sel| ==> r[i].span == sel[i]
  {
    if sel == [] then []
    else
      var n := CountFor(counts, sel[0].entity) + 1;
      [Assignment(sel[0], Placeholder(sel[0].entity, n))] + Number(sel[1..], counts[sel[0].entity := n])
  }

  function CountsAfter(sel: seq<DetectedSpan>, counts: Counts): Counts {
    if sel == [] then counts
    else CountsAfter(sel[1..], counts[sel[0].entity := CountFor(counts, sel[0].entity) + 1])
  }

  lemma NothingToNumber(counts: Counts)
    ensures Number([], counts) == [] && CountsAfter([], counts) == counts
    ensures forall a: Assignment :: [a] + [] == [] + [a]
  {
    forall a: Assignment ensures [a] + [] == [] + [a] {
      assert [a] + [] == [a] == [] + [a];
    }
  }

  lemma NumberCons(x: DetectedSpan, rest: seq<DetectedSpan>, counts: Counts)
    ensures var n := CountFor(counts, x.entity) + 1;
      && Number([x] + rest, counts) == [Assignment(x, Placeholder(x.entity, n))] + Number(rest, counts[x.entity := n])
      && CountsAfter([x] + rest, counts) == CountsAfter(rest, counts[x.entity := n])
  {
    hide Placeholder;
    assert ([x] + rest)[1..] == rest;
  }

  lemma {:induction false} NumberSnoc(sel: seq<DetectedSpan>, s: DetectedSpan, counts: Counts)
    ensures var n := CountFor(CountsAfter(sel, counts), s.entity) + 1;
      && Number(sel + [s], counts) == Number(sel, counts) + [Assignment(s, Placeholder(s.entity, n))]
      && CountsAfter(sel + [s], counts) == CountsAfter(sel, counts)[s.entity := n]
  {
    hide *;
    if sel == [] {
      assert [] + [s] == [s] + [];
      NumberCons(s, [], counts);
      NothingToNumber(counts);
      NothingToNumber(counts[s.entity := CountFor(counts, s.entity) + 1]);
    } else {
      var x, rest := sel[0], sel[1..];
      var next := counts[x.entity := CountFor(counts, x.entity) + 1];
      HeadAndTail(sel);
      Associates([x], rest, [s]);
      NumberCons(x, rest, counts);
      NumberCons(x, rest + [s], counts);
      NumberSnoc(rest, s, next);
      var n := CountFor(CountsAfter(sel, counts), s.entity) + 1;
      Associates([Assignment(x, Placeholder(x.entity, CountFor(counts, x.entity) + 1))], Number(rest, next),
                 [Assignment(s, Placeholder(s.entity, n))]);
    }
  }

  /** `t` is the placeholder of some number of its type in `(before, after]`. */
  ghost predicate NumberedBetween(t: string, before: Counts, after: Counts) {
    exists e, n: nat :: t == Placeholder(e, n) && CountFor(before, e) < n <= CountFor(after, e)
  }

  ghost predicate CountsGrow(before: Counts, after: Counts) {
    forall e :: CountFor(before, e) <= CountFor(after, e)
  }

  lemma {:induction false} NumbersAreFresh(sel: seq<DetectedSpan>, counts: Counts)
    ensures CountsGrow(counts, CountsAfter(sel, counts))
    ensures forall i :: 0 <= i < |sel| ==>
      NumberedBetween(Number(sel, counts)[i].placeholder, counts, CountsAfter(sel, counts))
  {
    hide Placeholder;
    if sel != [] {
      var e := sel[0].entity;
      var n := CountFor(counts, e) + 1;
      var next := counts[e := n];
      NumbersAreFresh(sel[1..], next);
      var after := CountsAfter(sel, counts);
      assert CountFor(next, e) <= CountFor(after, e);
      forall e' ensures CountFor(counts, e') <= CountFor(after, e') {
        assert CountFor(counts, e') <= CountFor(next, e') <= CountFor(after, e');
      }
      forall i | 0 <= i < |sel| ensures NumberedBetween(Number(sel, counts)[i].placeholder, counts, after) {
        var t := Number(sel, counts)[i].placeholder;
        if i == 0 {
          assert t == Placeholder(e, n);
        } else {
          assert t == Number(sel[1..], next)[i - 1].placeholder;
          var e', n': nat :| t == Placeholder(e', n') && CountFor(next, e') < n' <= CountFor(after, e');
        }
      }
    }
  }

  /** How often an entity type is selected. */
  function Times(sel: seq<DetectedSpan>, e: string): nat {
    if sel == [] then 0 else (if sel[0].entity == e then 1 else 0) + Times(sel[1..], e)
  }

  lemma {:induction false} TimesCat(a: seq<DetectedSpan>, b: seq<DetectedSpan>, e: string)
    ensures Times(a + b, e) == Times(a, e) + Times(b, e)
  {
    if a == [] {
      assert a + b == b;
    } else {
      assert (a + b)[1..] == a[1..] + b;
      TimesCat(a[1..], b, e);
    }
  }

  /** Each type is numbered on its own: a span's number is that of the type before, and one for each span up to it. */
  lemma {:induction false} NumbersCountOn(sel: seq<DetectedSpan>, counts: Counts, i: nat)
    requires i < |sel|
    ensures var e := sel[i].entity;
      Number(sel, counts)[i].placeholder == Placeholder(e, CountFor(counts, e) + Times(sel[..i], e) + 1)
  {
    hide *;
    var x, rest := sel[0], sel[1..];
    HeadAndTail(sel);
    NumberCons(x, rest, counts);
    if i > 0 {
      var next := counts[x.entity := CountFor(counts, x.entity) + 1];
      NumbersCountOn(rest, next, i - 1);
      assert Number(sel, counts)[i] == Number(rest, next)[i - 1];
      assert sel[..i] == [x] + rest[..i - 1];
      TimesCons(x, rest[..i - 1], sel[i].entity);
      CountedNext(counts, x.entity, sel[i].entity);
    } else {
      NothingCounted(x.entity);
      assert sel[..0] == [];
    }
  }

  lemma TimesCons(x: DetectedSpan, rest: seq<DetectedSpan>, e: string)
    ensures Times([x] + rest, e) == (if x.entity == e then 1 else 0) + Times(rest, e)
  {
    assert ([x] + rest)[1..] == rest;
  }

  lemma CountedNext(counts: Counts, x: string, e: string)
    ensures CountFor(counts[x := CountFor(counts, x) + 1], e) == CountFor(counts, e) + (if x == e then 1 else 0)
  {
  }

  lemma NothingCounted(e: string)
    ensures Times([], e) == 0
  {
  }

  lemma {:induction false} CountsAddUp(sel: seq<DetectedSpan>, counts: Counts, e: string)
    ensures CountFor(CountsAfter(sel, counts), e) == CountFor(counts, e) + Times(sel, e)
  {
    if sel != [] {
      CountsAddUp(sel[1..], counts[sel[0].entity := CountFor(counts, sel[0].entity) + 1], e);
    }
  }

  /** Placeholders of disjoint number ranges differ. */
  lemma RangesAreDisjoint(t: string, c0: Counts, c1: Counts, c2: Counts)
    requires NumberedBetween(t, c0, c1)
    ensures !NumberedBetween(t, c1, c2)
  {
    hide Placeholder;
    if NumberedBetween(t, c1, c2) {
      var e, n: nat :| t == Placeholder(e, n) && CountFor(c0, e) < n <= CountFor(c1, e);
      var e', n': nat :| t == Placeholder(e', n') && CountFor(c1, e') < n' <= CountFor(c2, e');
      PlaceholderIsInjective(e, n, e', n');
    }
  }

  // ----- Substitution

  /** Spans in order, apart from each other, between `from` and the end of the text. */
  ghost predicate InOrder(asg: seq<Assignment>, from: nat, end: nat) {
    if asg == [] then from <= end
    else from <= asg[0].span.start && InOrder(asg[1..], asg[0].span.end, end)
  }

  /** The masked text, built left to right. */
  ghost function Build(text: string, asg: seq<Assignment>, from: nat): string
    requires InOrder(asg, from, |text|)
  {
    InOrderBound(asg, from, |text|);
    if asg == [] then text[from..]
    else text[from..asg[0].span.start] + asg[0].placeholder + Build(text, asg[1..], asg[0].span.end)
  }

  /** The text a user may get back: the original with only never-restore spans replaced. */
  ghost function Redacted(text: string, asg: seq<Assignment>, from: nat, never: set<string>): string
    requires InOrder(asg, from, |text|)
  {
    InOrderBound(asg, from, |text|);
    if asg == [] then text[from..]
    else
      var s := asg[0].span;
      text[from..s.start] + (if s.entity in never then asg[0].placeholder else text[s.start..s.end])
        + Redacted(text, asg[1..], s.end, never)
  }

  lemma {:induction false} InOrderBound(asg: seq<Assignment>, from: nat, end: nat)
    requires InOrder(asg, from, end)
    ensures from <= end && (asg != [] ==> asg[0].span.end <= end)
  {
    if asg != [] {
      InOrderBound(asg[1..], asg[0].span.end, end);
    }
  }

  lemma {:induction false} SelectionIsInOrder(sel: seq<DetectedSpan>, counts: Counts, from: nat, end: nat)
    requires Disjoint(sel) && ByStart(sel) && from <= end
    requires forall s :: s in sel ==> s.end <= end
    requires sel != [] ==> from <= sel[0].start
    ensures InOrder(Number(sel, counts), from, end)
  {
    hide Placeholder;
    if sel != [] {
      assert sel[0] in sel;
      if |sel| > 1 {
        assert sel[1..][0] == sel[1];
        assert !Overlap(sel[0], sel[1]);
      }
      forall s | s in sel[1..] ensures s in sel {}
      SelectionIsInOrder(sel[1..], counts[sel[0].entity := CountFor(counts, sel[0].entity) + 1], sel[0].end, end);
      assert Number(sel, counts)[1..] == Number(sel[1..], counts[sel[0].entity := CountFor(counts, sel[0].entity) + 1]);
    }
  }

  /** placeholder -> original, for the spans that may be restored. */
  ghost function RestoreMapOf(text: string, asg: seq<Assignment>, from: nat, never: set<string>): map<string, string>
    requires InOrder(asg, from, |text|)
  {
    InOrderBound(asg, from, |text|);
    if asg == [] then map[]
    else
      var s := asg[0].span;
      var rest := RestoreMapOf(text, asg[1..], s.end, never);
      if s.entity in never then rest else rest[asg[0].placeholder := text[s.start..s.end]]
  }

  lemma {:induction false} RestOfInOrder(asg: seq<Assignment>, j: nat, from: nat, end: nat)
    requires InOrder(asg, from, end) && j <= |asg|
    ensures InOrder(asg[j..], if j == 0 then from else asg[j - 1].span.end, end)
  {
    if j == 0 {
      assert asg[0..] == asg;
    } else {
      RestOfInOrder(asg[1..], j - 1, asg[0].span.end, end);
      assert asg[1..][j - 1..] == asg[j..];
      assert j > 1 ==> asg[1..][j - 2] == asg[j - 1];
    }
  }

  /** One back-to-front substitution extends the finished part of the build by one span. */
  lemma BuildStep(text: string, asg: seq<Assignment>, j: nat, from: nat, result: string, never: set<string>)
    requires j < |asg| && InOrder(asg[j..], from, |text|)
    requires InOrder(asg[j + 1..], asg[j].span.end, |text|) && asg[j].span.end <= |text|
    requires result == text[..asg[j].span.end] + Build(text, asg[j + 1..], asg[j].span.end)
    ensures var s := asg[j].span;
      && from <= s.start && s.end <= |result|
      && result[..s.start] + asg[j].placeholder + result[s.end..] == text[..from] + Build(text, asg[j..], from)
      && RestoreMapOf(text, asg[j..], from, never)
         == var rest := RestoreMapOf(text, asg[j + 1..], s.end, never);
            if s.entity in never then rest else rest[asg[j].placeholder := text[s.start..s.end]]
  {
    var s := asg[j].span;
    var rest := asg[j..];
    assert rest[1..] == asg[j + 1..] && rest[0] == asg[j];
    InOrderBound(rest, from, |text|);
    assert Build(text, rest, from) == text[from..s.start] + asg[j].placeholder + Build(text, asg[j + 1..], s.end);
    hide Build, RestoreMapOf, InOrder;
    Pasted(text, result, asg[j].placeholder, Build(text, asg[j + 1..], s.end), from, s.start, s.end);
    RestoreStep(text, rest, from, never);
  }

  lemma Pasted(text: string, result: string, placeholder: string, tail: string, from: nat, start: nat, end: nat)
    requires from <= start <= end <= |text| && result == text[..end] + tail
    ensures result[..start] + placeholder + result[end..] == text[..from] + (text[from..start] + placeholder + tail)
  {
    assert result[..start] == text[..from] + text[from..start];
    assert result[end..] == tail;
  }

  lemma RestoreStep(text: string, asg: seq<Assignment>, from: nat, never: set<string>)
    requires asg != [] && InOrder(asg, from, |text|)
    ensures InOrder(asg[1..], asg[0].span.end, |text|) && asg[0].span.start <= asg[0].span.end <= |text|
    ensures RestoreMapOf(text, asg, from, never)
         == var rest := RestoreMapOf(text, asg[1..], asg[0].span.end, never);
            if asg[0].span.entity in never then rest
            else rest[asg[0].placeholder := text[asg[0].span.start..asg[0].span.end]]
  {
    InOrderBound(asg, from, |text|);
  }

  class InstanceCounters {
    var counts: Counts

    constructor ()
      ensures counts == map[]
    {
      counts := map[];
    }
  }

  datatype MaskResult = MaskResult(maskedText: string, restoreMap: map<string, string>, maskedTypes: seq<string>)

  /** The entity type of every masked span, left to right. */
  function EntitiesOf(sel: seq<DetectedSpan>): seq<string> {
    seq(|sel|, i requires 0 <= i < |sel| => sel[i].entity)
  }

  /** The candidates: spans of an enabled entity type. */
  function Enabled(spans: seq<DetectedSpan>, enabled: set<string>): (r: seq<DetectedSpan>)
    ensures forall s :: s in r <==> s in spans && s.entity in enabled
  {
    if spans == [] then []
    else (if spans[0].entity in enabled then [spans[0]] else []) + Enabled(spans[1..], enabled)
  }

  lemma NothingNumbered(counts: Counts)
    ensures Number([], counts) == [] && CountsAfter([], counts) == counts
  {
  }

  /** Pass 1: number the selected spans left to right, counting on in the shared counters. */
  method AssignPlaceholders(selected: seq<DetectedSpan>, counters: InstanceCounters)
    returns (assignments: seq<Assignment>)
    modifies counters
    ensures assignments == Number(selected, old(counters.counts))
    ensures counters.counts == CountsAfter(selected, old(counters.counts))
  {
    hide Placeholder, Number, CountsAfter;
    assignments := [];
    NothingNumbered(counters.counts);
    assert selected[..0] == [];
    for i := 0 to |selected|
      invariant assignments == Number(selected[..i], old(counters.counts))
      invariant counters.counts == CountsAfter(selected[..i], old(counters.counts))
    {
      var span := selected[i];
      assert selected[..i + 1] == selected[..i] + [span];
      NumberSnoc(selected[..i], span, old(counters.counts));
      var n := CountFor(counters.counts, span.entity) + 1;
      counters.counts := counters.counts[span.entity := n];
      assignments := assignments + [Assignment(span, Placeholder(span.entity, n))];
    }
    assert selected[..|selected|] == selected;
  }

  /** Pass 2: substitute from the highest offset down, so that the offsets still to come stay valid. */
  method SubstituteBackToFront(text: string, assignments: seq<Assignment>, never: set<string>)
    returns (result: string, restoreMap: map<string, string>)
    requires InOrder(assignments, 0, |text|)
    ensures result == Build(text, assignments, 0)
    ensures restoreMap == RestoreMapOf(text, assignments, 0, never)
  {
    hide Build, RestoreMapOf, InOrder;
    result, restoreMap := text, map[];
    var j := |assignments|;
    RestOfInOrder(assignments, j, 0, |text|);
    ghost var from := if j == 0 then 0 else assignments[j - 1].span.end;
    assert assignments[j..] == [];
    NothingLeft(text, from, never);
    while j > 0
      invariant 0 <= j <= |assignments|
      invariant from == (if j == 0 then 0 else assignments[j - 1].span.end) <= |text|
      invariant InOrder(assignments[j..], from, |text|)
      invariant result == text[..from] + Build(text, assignments[j..], from)
      invariant restoreMap == RestoreMapOf(text, assignments[j..], from, never)
    {
      j := j - 1;
      var span, placeholder := assignments[j].span, assignments[j].placeholder;
      RestOfInOrder(assignments, j, 0, |text|);
      ghost var from' := if j == 0 then 0 else assignments[j - 1].span.end;
      BuildStep(text, assignments, j, from', result, never);
      result := result[..span.start] + placeholder + result[span.end..];
      if span.entity !in never {
        restoreMap := restoreMap[placeholder := text[span.start..span.end]];
      }
      from := from';
    }
    assert assignments[0..] == assignments;
    assert text[..0] == "";
  }

  lemma NothingLeft(text: string, from: nat, never: set<string>)
    requires InOrder([], from, |text|)
    ensures from <= |text| && text == text[..from] + Build(text, [], from)
    ensures RestoreMapOf(text, [], from, never) == map[]
  {
  }

  /**
   * `mask_text`. Numbers are given left to right and continue across calls through `counters`; substitution runs
   * back to front, and its result is the left-to-right `Build`.
   */
  method MaskText(text: string, spans: seq<DetectedSpan>, enabled: set<string>, never: set<string>,
                  counters: InstanceCounters)
    returns (r: MaskResult, ghost sel: seq<DetectedSpan>)
    requires forall s :: s in spans ==> s.end <= |text|
    modifies counters
    ensures IsGreedy(Enabled(spans, enabled), sel, never)
    ensures counters.counts == CountsAfter(sel, old(counters.counts))
    ensures InOrder(Number(sel, old(counters.counts)), 0, |text|)
    ensures r.maskedText == Build(text, Number(sel, old(counters.counts)), 0)
    ensures r.restoreMap == RestoreMapOf(text, Number(sel, old(counters.counts)), 0, never)
    ensures r.maskedTypes == EntitiesOf(sel)
  {
    hide Placeholder, Precedes;
    var selected := SelectNonOverlapping(Enabled(spans, enabled), never);
    sel := selected;
    SelectionIsInOrder(sel, counters.counts, 0, |text|);
    if selected == [] {
      r := MaskResult(text, map[], []);
      return;
    }
    var assignments := AssignPlaceholders(selected, counters);
    var result, restoreMap := SubstituteBackToFront(text, assignments, never);
    r := MaskResult(result, restoreMap, EntitiesOf(selected));
  }
}
