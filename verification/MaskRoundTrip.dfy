/**
 * Masking a whole request and restoring it again
 * (deploy/litellm/klai_pii_enforce.py `_mask_messages`, deploy/litellm/klai_pii_text_masking.py).
 */
module MaskRoundTrip {
  import opened Sequences
  import opened Strings
  import opened Placeholders
  import opened StreamRestore
  import opened SpanSelection
  import opened Masking

  type Selections = seq<seq<DetectedSpan>>

  /** The shared counters as unit `u` finds them. */
  ghost function CountsBefore(sels: Selections, u: nat): Counts
    requires u <= |sels|
  {
    if u == 0 then map[] else CountsAfter(sels[u - 1], CountsBefore(sels, u - 1))
  }

  ghost function Assigned(sels: Selections, u: nat): seq<Assignment>
    requires u < |sels|
  {
    Number(sels[u], CountsBefore(sels, u))
  }

  ghost predicate AllInOrder(texts: seq<string>, sels: Selections) {
    && |texts| == |sels|
    && forall u :: 0 <= u < |sels| ==> InOrder(Assigned(sels, u), 0, |texts[u]|)
  }

  /** The combined restore map of the first `n` units; later units update earlier ones. */
  ghost function CombinedMap(texts: seq<string>, sels: Selections, n: nat, never: set<string>): map<string, string>
    requires AllInOrder(texts, sels) && n <= |texts|
  {
    if n == 0 then map[]
    else CombinedMap(texts, sels, n - 1, never) + RestoreMapOf(texts[n - 1], Assigned(sels, n - 1), 0, never)
  }

  /** The entity types masked in the first `n` units, with repetitions. */
  ghost function MaskedTypes(sels: Selections, n: nat): seq<string>
    requires n <= |sels|
  {
    if n == 0 then []
    else MaskedTypes(sels, n - 1) + EntitiesOf(sels[n - 1])
  }

  lemma {:induction false} CountsBeforePrefix(sels: Selections, more: Selections, u: nat)
    requires u <= |sels|
    ensures CountsBefore(sels + more, u) == CountsBefore(sels, u)
  {
    if u > 0 {
      CountsBeforePrefix(sels, more, u - 1);
    }
  }

  lemma AssignedPrefix(sels: Selections, more: Selections, u: nat)
    requires u < |sels|
    ensures Assigned(sels + more, u) == Assigned(sels, u)
  {
    CountsBeforePrefix(sels, more, u);
  }

  lemma {:induction false} CombinedMapPrefix(texts: seq<string>, sels: Selections, text: string,
                                             sel: seq<DetectedSpan>, n: nat, never: set<string>)
    requires AllInOrder(texts, sels) && AllInOrder(texts + [text], sels + [sel]) && n <= |texts|
    ensures CombinedMap(texts + [text], sels + [sel], n, never) == CombinedMap(texts, sels, n, never)
    ensures MaskedTypes(sels + [sel], n) == MaskedTypes(sels, n)
  {
    hide InOrder, RestoreMapOf, Number, CountsAfter, EntitiesOf;
    if n > 0 {
      CombinedMapPrefix(texts, sels, text, sel, n - 1, never);
      AssignedPrefix(sels, [sel], n - 1);
    }
  }

  /** What masking one more unit adds to the request. */
  lemma AddUnit(texts: seq<string>, sels: Selections, text: string, sel: seq<DetectedSpan>, never: set<string>)
    requires AllInOrder(texts, sels)
    requires InOrder(Number(sel, CountsBefore(sels, |sels|)), 0, |text|)
    ensures AllInOrder(texts + [text], sels + [sel])
    ensures forall u :: 0 <= u < |sels| ==> Assigned(sels + [sel], u) == Assigned(sels, u)
    ensures Assigned(sels + [sel], |sels|) == Number(sel, CountsBefore(sels, |sels|))
    ensures CountsBefore(sels + [sel], |sels| + 1) == CountsAfter(sel, CountsBefore(sels, |sels|))
    ensures CombinedMap(texts + [text], sels + [sel], |sels| + 1, never)
         == CombinedMap(texts, sels, |sels|, never)
          + RestoreMapOf(text, Number(sel, CountsBefore(sels, |sels|)), 0, never)
    ensures MaskedTypes(sels + [sel], |sels| + 1)
         == MaskedTypes(sels, |sels|) + EntitiesOf(sel)
  {
    hide InOrder, RestoreMapOf, Number, CountsAfter, EntitiesOf;
    forall u | 0 <= u < |sels| ensures Assigned(sels + [sel], u) == Assigned(sels, u) {
      AssignedPrefix(sels, [sel], u);
    }
    CountsBeforePrefix(sels, [sel], |sels|);
    CombinedMapPrefix(texts, sels, text, sel, |sels|, never);
  }

  lemma {:induction false} CountsOfUnits(sels: Selections, u: nat, e: string)
    requires u <= |sels|
    ensures CountFor(CountsBefore(sels, u), e) == Times(Flat(sels[..u]), e)
  {
    if u > 0 {
      CountsOfUnits(sels, u - 1, e);
      CountsAddUp(sels[u - 1], CountsBefore(sels, u - 1), e);
      OneMore(sels, u - 1);
      FlatSnoc(sels[..u - 1], sels[u - 1]);
      TimesCat(Flat(sels[..u - 1]), sels[u - 1], e);
    }
  }

  /** Over a whole request, the placeholders of each entity type are numbered 1, 2, 3 in the order of the spans. */
  lemma PlaceholdersCount(sels: Selections, u: nat, i: nat)
    requires u < |sels| && i < |sels[u]|
    ensures var e := sels[u][i].entity;
      var n := Times(Flat(sels[..u]) + sels[u][..i], e) + 1;
      Assigned(sels, u)[i] == Assignment(sels[u][i], "<" + e + "_" + Decimal(n) + ">")
  {
    var e := sels[u][i].entity;
    CountsOfUnits(sels, u, e);
    TimesCat(Flat(sels[..u]), sels[u][..i], e);
    NumbersCountOn(sels[u], CountsBefore(sels, u), i);
  }

  /** The outcome of masking `texts` in order: each unit's own selection, numbering and text, and the united map. */
  ghost predicate Outcome(texts: seq<string>, spansPerUnit: seq<seq<DetectedSpan>>, enabled: set<string>,
                          never: set<string>, sels: Selections, masked: seq<string>, combined: map<string, string>,
                          types: seq<string>)
  {
    && AllInOrder(texts, sels)
    && |masked| == |texts| <= |spansPerUnit|
    && (forall u :: 0 <= u < |texts| ==> IsGreedy(Enabled(spansPerUnit[u], enabled), sels[u], never))
    && (forall u :: 0 <= u < |texts| ==> masked[u] == Build(texts[u], Assigned(sels, u), 0))
    && combined == CombinedMap(texts, sels, |texts|, never)
    && types == MaskedTypes(sels, |texts|)
  }

  lemma OutcomeStart(spansPerUnit: seq<seq<DetectedSpan>>, enabled: set<string>, never: set<string>)
    ensures Outcome([], spansPerUnit, enabled, never, [], [], map[], [])
    ensures CountsBefore([], 0) == map[]
  {
  }

  lemma OutcomeStep(texts: seq<string>, spansPerUnit: seq<seq<DetectedSpan>>, enabled: set<string>,
                    never: set<string>, sels: Selections, masked: seq<string>, combined: map<string, string>,
                    types: seq<string>, text: string, sel: seq<DetectedSpan>)
    requires Outcome(texts, spansPerUnit, enabled, never, sels, masked, combined, types)
    requires |texts| < |spansPerUnit|
    requires InOrder(Number(sel, CountsBefore(sels, |texts|)), 0, |text|)
    requires IsGreedy(Enabled(spansPerUnit[|texts|], enabled), sel, never)
    ensures var asg := Number(sel, CountsBefore(sels, |texts|));
      && Outcome(texts + [text], spansPerUnit, enabled, never, sels + [sel], masked + [Build(text, asg, 0)],
                 combined + RestoreMapOf(text, asg, 0, never), types + EntitiesOf(sel))
      && CountsBefore(sels + [sel], |texts| + 1) == CountsAfter(sel, CountsBefore(sels, |texts|))
  {
    hide Build, RestoreMapOf, IsGreedy, Number, CountsAfter, InOrder, CombinedMap, MaskedTypes, CountsBefore,
      EntitiesOf, Enabled, Assigned;
    AddUnit(texts, sels, text, sel, never);
    GreedySnoc(spansPerUnit, enabled, never, sels, sel);
    MaskedSnoc(texts, sels, masked, text, sel);
    hide AllInOrder;
  }

  lemma GreedySnoc(spansPerUnit: seq<seq<DetectedSpan>>, enabled: set<string>, never: set<string>, sels: Selections,
                   sel: seq<DetectedSpan>)
    requires |sels| < |spansPerUnit|
    requires forall u :: 0 <= u < |sels| ==> IsGreedy(Enabled(spansPerUnit[u], enabled), sels[u], never)
    requires IsGreedy(Enabled(spansPerUnit[|sels|], enabled), sel, never)
    ensures forall u :: 0 <= u < |sels| + 1 ==> IsGreedy(Enabled(spansPerUnit[u], enabled), (sels + [sel])[u], never)
  {
    hide IsGreedy, Enabled;
  }

  lemma MaskedSnoc(texts: seq<string>, sels: Selections, masked: seq<string>, text: string, sel: seq<DetectedSpan>)
    requires AllInOrder(texts, sels) && AllInOrder(texts + [text], sels + [sel]) && |masked| == |texts|
    requires forall u :: 0 <= u < |texts| ==> masked[u] == Build(texts[u], Assigned(sels, u), 0)
    requires forall u :: 0 <= u < |sels| ==> Assigned(sels + [sel], u) == Assigned(sels, u)
    ensures var all := masked + [Build(text, Assigned(sels + [sel], |sels|), 0)];
      forall u :: 0 <= u < |texts| + 1 ==> all[u] == Build((texts + [text])[u], Assigned(sels + [sel], u), 0)
  {
    hide Build, Assigned, InOrder;
  }

  /** The analyzer answered for every unit, with offsets into that unit. */
  predicate InRange(texts: seq<string>, spansPerUnit: seq<seq<DetectedSpan>>) {
    && |spansPerUnit| == |texts|
    && forall u, s :: 0 <= u < |texts| && s in spansPerUnit[u] ==> s.end <= |texts[u]|
  }

  lemma UnitInRange(texts: seq<string>, spansPerUnit: seq<seq<DetectedSpan>>, u: nat)
    requires InRange(texts, spansPerUnit)
    ensures |spansPerUnit| == |texts|
    ensures u < |texts| ==> forall s :: s in spansPerUnit[u] ==> s.end <= |texts[u]|
  {
  }

  lemma NothingBehind(done: seq<string>, all: seq<string>)
    ensures all[..|all|] == all && done + all[|all|..] == done
  {
  }

  lemma ReplaceFront(done: seq<string>, all: seq<string>, u: nat, x: string)
    requires |done| == u < |all|
    ensures (done + all[u..])[u] == all[u]
    ensures (done + all[u..])[u := x] == (done + [x]) + all[u + 1..]
    ensures all[..u + 1] == all[..u] + [all[u]]
  {
  }

  /** The loop body of `_mask_messages`: one unit is masked in place and its map joins the others. */
  method MaskUnit(units: array<string>, u: nat, spans: seq<DetectedSpan>, enabled: set<string>, never: set<string>,
                  counters: InstanceCounters, combined: map<string, string>, types: seq<string>)
    returns (combined': map<string, string>, types': seq<string>, ghost sel: seq<DetectedSpan>)
    requires u < units.Length && forall s :: s in spans ==> s.end <= |units[u]|
    modifies units, counters
    ensures IsGreedy(Enabled(spans, enabled), sel, never)
    ensures counters.counts == CountsAfter(sel, old(counters.counts))
    ensures InOrder(Number(sel, old(counters.counts)), 0, |old(units[u])|)
    ensures units[..] == old(units[..])[u := Build(old(units[u]), Number(sel, old(counters.counts)), 0)]
    ensures combined' == combined + RestoreMapOf(old(units[u]), Number(sel, old(counters.counts)), 0, never)
    ensures types' == types + EntitiesOf(sel)
  {
    hide *;
    var text := units[u];
    var result;
    result, sel := MaskText(text, spans, enabled, never, counters);
    NothingMasked(text, sel, old(counters.counts), never);
    combined', types' := combined, types;
    if result.maskedTypes != [] {
      units[u] := result.maskedText;
      combined' := combined + result.restoreMap;
      types' := types + result.maskedTypes;
    }
  }

  /** `_mask_messages`: every unit is masked in place, numbering is shared, the maps are united. */
  method MaskMessages(units: array<string>, spansPerUnit: seq<seq<DetectedSpan>>, enabled: set<string>,
                      never: set<string>)
    returns (combined: map<string, string>, types: seq<string>, ghost sels: Selections)
    requires InRange(units[..], spansPerUnit)
    modifies units
    ensures Outcome(old(units[..]), spansPerUnit, enabled, never, sels, units[..], combined, types)
  {
    hide *;
    combined, types, sels := map[], [], [];
    ghost var texts, masked: seq<string> := units[..], [];
    var counters := new InstanceCounters();
    OutcomeStart(spansPerUnit, enabled, never);
    UnitInRange(texts, spansPerUnit, 0);
    assert texts[..0] == [];
    for u := 0 to units.Length
      invariant fresh(counters)
      invariant |masked| == |sels| == u && units[..] == masked + texts[u..]
      invariant counters.counts == CountsBefore(sels, u)
      invariant Outcome(texts[..u], spansPerUnit, enabled, never, sels, masked, combined, types)
    {
      ReplaceFront(masked, texts, u, texts[u]);
      assert units[u] == units[..][u];
      UnitInRange(texts, spansPerUnit, u);
      ghost var sel;
      ghost var combinedBefore, typesBefore := combined, types;
      combined, types, sel := MaskUnit(units, u, spansPerUnit[u], enabled, never, counters, combined, types);
      OutcomeStep(texts[..u], spansPerUnit, enabled, never, sels, masked, combinedBefore, typesBefore, texts[u], sel);
      ghost var maskedText := Build(texts[u], Number(sel, CountsBefore(sels, u)), 0);
      ReplaceFront(masked, texts, u, maskedText);
      sels, masked := sels + [sel], masked + [maskedText];
    }
    NothingBehind(masked, texts);
  }

  lemma NothingMasked(text: string, sel: seq<DetectedSpan>, counts: Counts, never: set<string>)
    requires InOrder(Number(sel, counts), 0, |text|)
    ensures EntitiesOf(sel) == [] ==> Build(text, Number(sel, counts), 0) == text
    ensures EntitiesOf(sel) == [] ==> RestoreMapOf(text, Number(sel, counts), 0, never) == map[]
  {
    assert |EntitiesOf(sel)| == |sel|;
  }

  // ----- The combined map holds every restorable original under its own placeholder

  lemma InOrderTail(asg: seq<Assignment>, from: nat, textLen: nat)
    requires InOrder(asg, from, textLen) && asg != []
    ensures InOrder(asg[1..], asg[0].span.end, textLen)
  {
  }

  lemma NothingNumberedMap(text: string, counts: Counts, from: nat, never: set<string>)
    requires InOrder(Number([], counts), from, |text|)
    ensures Number([], counts) == [] && RestoreMapOf(text, Number([], counts), from, never) == map[]
  {
  }

  lemma NumberUnfolds(sel: seq<DetectedSpan>, counts: Counts)
    requires sel != []
    ensures var e := sel[0].entity; var n := CountFor(counts, e) + 1; var asg := Number(sel, counts);
      && asg != [] && asg[0] == Assignment(sel[0], Placeholder(e, n)) && asg[1..] == Number(sel[1..], counts[e := n])
      && (forall a :: a in asg <==> a == asg[0] || a in asg[1..])
      && CountsAfter(sel, counts) == CountsAfter(sel[1..], counts[e := n])
  {
    hide Placeholder;
    var asg := Number(sel, counts);
    assert asg == [asg[0]] + asg[1..];
  }

  lemma MapUnfolds(text: string, asg: seq<Assignment>, from: nat, never: set<string>)
    requires asg != [] && InOrder(asg, from, |text|)
    ensures asg[0].span.end <= |text| && InOrder(asg[1..], asg[0].span.end, |text|)
    ensures var rest := RestoreMapOf(text, asg[1..], asg[0].span.end, never);
      RestoreMapOf(text, asg, from, never)
        == if asg[0].span.entity in never then rest
           else rest[asg[0].placeholder := text[asg[0].span.start..asg[0].span.end]]
  {
    InOrderBound(asg, from, |text|);
    InOrderBound(asg[1..], asg[0].span.end, |text|);
    hide InOrder;
  }

  lemma {:induction false} UnitMap(text: string, sel: seq<DetectedSpan>, counts: Counts, from: nat, never: set<string>)
    requires InOrder(Number(sel, counts), from, |text|)
    ensures var m := RestoreMapOf(text, Number(sel, counts), from, never);
      && (forall k :: k in m ==> NumberedBetween(k, counts, CountsAfter(sel, counts)))
      && forall a :: a in Number(sel, counts) && a.span.entity !in never && a.span.end <= |text| ==>
           a.placeholder in m && m[a.placeholder] == text[a.span.start..a.span.end]
  {
    hide *;
    var m := RestoreMapOf(text, Number(sel, counts), from, never);
    if sel == [] {
      NothingNumberedMap(text, counts, from, never);
    } else {
      var e := sel[0].entity;
      var n := CountFor(counts, e) + 1;
      var next, after := counts[e := n], CountsAfter(sel, counts);
      var asg, head, tail := Number(sel, counts), Assignment(sel[0], Placeholder(e, n)), Number(sel[1..], next);
      NumberUnfolds(sel, counts);
      InOrderBound(asg, from, |text|);
      InOrderTail(asg, from, |text|);
      UnitMap(text, sel[1..], next, head.span.end, never);
      NumbersAreFresh(sel[1..], next);
      HeadNumber(e, counts, after);
      var rest := RestoreMapOf(text, tail, head.span.end, never);
      forall k | k in rest ensures NumberedBetween(k, counts, after) && k != head.placeholder {
        WidenRange(k, counts, next, after);
        RangesAreDisjoint(head.placeholder, counts, next, after);
      }
      MapUnfolds(text, asg, from, never);
    }
  }

  lemma HeadNumber(e: string, counts: Counts, after: Counts)
    requires CountsGrow(counts[e := CountFor(counts, e) + 1], after)
    ensures var n := CountFor(counts, e) + 1;
      && NumberedBetween(Placeholder(e, n), counts, counts[e := n])
      && NumberedBetween(Placeholder(e, n), counts, after)
      && CountsGrow(counts, counts[e := n])
  {
    hide Placeholder;
    var next := counts[e := CountFor(counts, e) + 1];
    assert CountFor(next, e) <= CountFor(after, e);
  }

  lemma WidenRange(k: string, c0: Counts, c1: Counts, c2: Counts)
    requires CountsGrow(c0, c1) && NumberedBetween(k, c1, c2)
    ensures NumberedBetween(k, c0, c2)
  {
    hide Placeholder;
    var e, n: nat :| k == Placeholder(e, n) && CountFor(c1, e) < n <= CountFor(c2, e);
    assert CountFor(c0, e) <= CountFor(c1, e);
  }

  lemma ExtendRange(k: string, c0: Counts, c1: Counts, c2: Counts)
    requires CountsGrow(c1, c2) && NumberedBetween(k, c0, c1)
    ensures NumberedBetween(k, c0, c2)
  {
    hide Placeholder;
    var e, n: nat :| k == Placeholder(e, n) && CountFor(c0, e) < n <= CountFor(c1, e);
    assert CountFor(c1, e) <= CountFor(c2, e);
  }

  lemma {:induction false} CombinedKeys(texts: seq<string>, sels: Selections, n: nat, never: set<string>)
    requires AllInOrder(texts, sels) && n <= |texts|
    ensures forall k :: k in CombinedMap(texts, sels, n, never) ==> NumberedBetween(k, map[], CountsBefore(sels, n))
    ensures CountsGrow(map[], CountsBefore(sels, n))
  {
    hide NumberedBetween, RestoreMapOf, Number, InOrder, CountsAfter;
    if n > 0 {
      var before, after := CountsBefore(sels, n - 1), CountsBefore(sels, n);
      CombinedKeys(texts, sels, n - 1, never);
      UnitMap(texts[n - 1], sels[n - 1], before, 0, never);
      NumbersAreFresh(sels[n - 1], before);
      forall k | k in CombinedMap(texts, sels, n, never) ensures NumberedBetween(k, map[], after) {
        if k in RestoreMapOf(texts[n - 1], Assigned(sels, n - 1), 0, never) {
          WidenRange(k, map[], before, after);
        } else {
          ExtendRange(k, map[], before, after);
        }
      }
    }
  }

  /** Shared counters keep placeholders distinct across units: no unit's entry is ever overwritten. */
  lemma {:induction false} CombinedMapHas(texts: seq<string>, sels: Selections, u: nat, n: nat, a: Assignment,
                                          never: set<string>)
    requires AllInOrder(texts, sels) && u < n <= |texts|
    requires a in Assigned(sels, u) && a.span.entity !in never && a.span.end <= |texts[u]|
    ensures var m := CombinedMap(texts, sels, n, never);
      a.placeholder in m && m[a.placeholder] == texts[u][a.span.start..a.span.end]
    decreases n
  {
    hide NumberedBetween, RestoreMapOf, Number, InOrder, CountsAfter;
    var before := CountsBefore(sels, n - 1);
    UnitMap(texts[n - 1], sels[n - 1], before, 0, never);
    if u < n - 1 {
      CombinedMapHas(texts, sels, u, n - 1, a, never);
      CombinedKeys(texts, sels, n - 1, never);
      RangesAreDisjoint(a.placeholder, map[], before, CountsBefore(sels, n));
    }
  }

  // ----- Restoring a masked unit

  /** The map agrees with the unit's own assignments. */
  ghost predicate MapServes(text: string, asg: seq<Assignment>, m: map<string, string>, never: set<string>) {
    forall a :: a in asg && a.span.entity !in never && a.span.end <= |text| ==>
      a.placeholder in m && m[a.placeholder] == text[a.span.start..a.span.end]
  }

  /** Every placeholder reads as a token of its own entity type. */
  ghost predicate TokensOfType(asg: seq<Assignment>) {
    forall a :: a in asg ==> IsPlaceholder(a.placeholder) && EntityType(a.placeholder) == a.span.entity
  }

  /** No stretch of text between the masked spans holds a usable map key. */
  ghost predicate GapsHoldNoKey(text: string, asg: seq<Assignment>, from: nat, live: map<string, string>)
    requires InOrder(asg, from, |text|)
  {
    InOrderBound(asg, from, |text|);
    if asg == [] then NoKeys(text[from..], live)
    else NoKeys(text[from..asg[0].span.start], live) && GapsHoldNoKey(text, asg[1..], asg[0].span.end, live)
  }

  predicate OpensOrEnds(w: string) { w == "" || w[0] == '<' }

  /** A stretch in front of a placeholder is restored on its own: no key reaches into the placeholder. */
  lemma {:induction false} ReplaceSplits(gap: string, w: string, live: map<string, string>)
    requires Shaped(live) && OpensOrEnds(w)
    ensures Replace(gap + w, live) == Replace(gap, live) + Replace(w, live)
    decreases |gap|
  {
    if gap == "" {
      assert gap + w == w;
      ReplaceEmpty(live);
      assert "" + Replace(w, live) == Replace(w, live);
    } else {
      var n := KeyLength(gap, live);
      if n > 0 {
        var k, rest := gap[..n], gap[n..];
        assert gap == k + rest;
        assert gap + w == k + (rest + w);
        ReplaceSplits(rest, w, live);
        ReplaceAtKey(k, rest, w, live);
      } else {
        assert gap == [gap[0]] + gap[1..] && gap + w == [gap[0]] + (gap[1..] + w);
        ReplaceSplits(gap[1..], w, live);
        NoKeyAtHead(gap, live);
        NoKeyIntoToken(gap, w, live);
        ReplaceAtChar(gap[0], gap[1..], w, live);
      }
    }
  }

  lemma ReplaceAtKey(k: string, rest: string, w: string, live: map<string, string>)
    requires Shaped(live) && k in live
    requires Replace(rest + w, live) == Replace(rest, live) + Replace(w, live)
    ensures Replace(k + (rest + w), live) == Replace(k + rest, live) + Replace(w, live)
  {
    hide Replace;
    ReplaceKey(k, rest + w, live);
    ReplaceKey(k, rest, live);
  }

  lemma ReplaceAtChar(x: char, rest: string, w: string, live: map<string, string>)
    requires forall k :: k in live ==> !(k <= [x] + rest) && !(k <= [x] + (rest + w))
    requires Replace(rest + w, live) == Replace(rest, live) + Replace(w, live)
    ensures Replace([x] + (rest + w), live) == Replace([x] + rest, live) + Replace(w, live)
  {
    hide Replace;
    ReplaceChar(x, rest + w, live);
    ReplaceChar(x, rest, live);
  }

  lemma LongerKeyRunsOn(k: string, gap: string, w: string)
    requires k <= gap + w && !(k <= gap)
    ensures w != "" && |k| > |gap| && k[|gap|] == w[0]
  {
    assert |k| <= |gap| ==> k <= gap;
    assert k[|gap|] == (gap + w)[|gap|];
  }

  lemma NoKeyIntoToken(gap: string, w: string, live: map<string, string>)
    requires Shaped(live) && OpensOrEnds(w) && gap != ""
    requires forall k :: k in live ==> !(k <= gap)
    ensures forall k :: k in live ==> !(k <= gap + w)
  {
    forall k | k in live ensures !(k <= gap + w) {
      if k <= gap + w {
        LongerKeyRunsOn(k, gap, w);
      }
    }
  }

  /** One masked span in front of already restored text. */
  lemma ReplaceToken(a: Assignment, original: string, w: string, m: map<string, string>, never: set<string>)
    requires IsPlaceholder(a.placeholder) && EntityType(a.placeholder) == a.span.entity
    requires a.span.entity !in never ==> a.placeholder in m && m[a.placeholder] == original
    ensures Replace(a.placeholder + w, Live(m, never))
         == (if a.span.entity in never then a.placeholder else original) + Replace(w, Live(m, never))
    ensures OpensOrEnds(a.placeholder + w)
  {
    var live, t := Live(m, never), a.placeholder;
    assert t in live <==> a.span.entity !in never && t in m;
    assert t in live ==> live[t] == m[t];
    TokenIsBracketed(t);
    LiveIsShaped(m, never);
    hide Live, Replace, IsPlaceholder, EntityType, Shaped;
    if t in live {
      ReplaceKey(t, w, live);
    } else {
      ReplaceSkips(t, w, live);
    }
  }

  /** The restored unit, stretch by stretch. */
  ghost function RestoredParts(text: string, asg: seq<Assignment>, from: nat, live: map<string, string>,
                               never: set<string>)
    : string
    requires InOrder(asg, from, |text|)
  {
    InOrderBound(asg, from, |text|);
    if asg == [] then Replace(text[from..], live)
    else
      var s := asg[0].span;
      Replace(text[from..s.start], live) + (if s.entity in never then asg[0].placeholder else text[s.start..s.end])
        + RestoredParts(text, asg[1..], s.end, live, never)
  }

  /** Restoring a masked unit puts every restorable original back; between them each stretch is restored alone. */
  lemma {:induction false} RestoreByParts(text: string, asg: seq<Assignment>, from: nat, m: map<string, string>,
                                          never: set<string>)
    requires InOrder(asg, from, |text|) && TokensOfType(asg) && MapServes(text, asg, m, never)
    ensures Replace(Build(text, asg, from), Live(m, never)) == RestoredParts(text, asg, from, Live(m, never), never)
  {
    hide Replace, Live, IsPlaceholder, EntityType;
    InOrderBound(asg, from, |text|);
    if asg != [] {
      var a := asg[0];
      var s := a.span;
      assert a in asg && forall b :: b in asg[1..] ==> b in asg;
      RestoreByParts(text, asg[1..], s.end, m, never);
      var w := Build(text, asg[1..], s.end);
      LiveIsShaped(m, never);
      ReplaceToken(a, text[s.start..s.end], w, m, never);
      var gap := text[from..s.start];
      ReplaceSplits(gap, a.placeholder + w, Live(m, never));
      assert gap + a.placeholder + w == gap + (a.placeholder + w);
    }
  }

  lemma {:induction false} CleanParts(text: string, asg: seq<Assignment>, from: nat, live: map<string, string>,
                                      never: set<string>)
    requires InOrder(asg, from, |text|) && Shaped(live) && GapsHoldNoKey(text, asg, from, live)
    ensures RestoredParts(text, asg, from, live, never) == Redacted(text, asg, from, never)
  {
    hide Replace, Shaped, NoKeys;
    InOrderBound(asg, from, |text|);
    if asg == [] {
      ReplaceWithoutKeys(text[from..], live);
    } else {
      ReplaceWithoutKeys(text[from..asg[0].span.start], live);
      CleanParts(text, asg[1..], asg[0].span.end, live, never);
    }
  }

  // ----- Exactness, counting the opening brackets

  lemma {:induction false} ReplaceLosesOpens(s: string, live: map<string, string>)
    requires Shaped(live) && BracketFree(live)
    ensures CountOf(Replace(s, live), '<') <= CountOf(s, '<')
    ensures CountOf(Replace(s, live), '<') == CountOf(s, '<') ==> NoKeys(s, live)
    decreases |s|
  {
    if s == "" {
    } else {
      var n := KeyLength(s, live);
      if n > 0 {
        var k, rest := s[..n], s[n..];
        assert s == k + rest;
        ReplaceLosesOpens(rest, live);
        CountOfConcat(k, rest, '<');
        CountOfConcat(live[k], Replace(rest, live), '<');
        CountOfAbsent(live[k], '<');
        assert k[0] == '<';
      } else {
        var rest := s[1..];
        assert s == [s[0]] + rest;
        ReplaceLosesOpens(rest, live);
        assert Replace(s, live)[1..] == Replace(rest, live);
        if CountOf(Replace(s, live), '<') == CountOf(s, '<') {
          NoKeyAtHead(s, live);
          assert ([s[0]] + rest)[0..] == s;
          NoKeysPrepend([s[0]], rest, live);
        }
      }
    }
  }

  lemma {:induction false} PartsLoseOpens(text: string, asg: seq<Assignment>, from: nat, live: map<string, string>,
                                          never: set<string>)
    requires InOrder(asg, from, |text|) && Shaped(live) && BracketFree(live)
    ensures var parts, whole := RestoredParts(text, asg, from, live, never), Redacted(text, asg, from, never);
      && CountOf(parts, '<') <= CountOf(whole, '<')
      && (CountOf(parts, '<') == CountOf(whole, '<') ==> GapsHoldNoKey(text, asg, from, live))
  {
    hide Replace, Shaped, BracketFree, NoKeys, CountOf;
    InOrderBound(asg, from, |text|);
    if asg == [] {
      ReplaceLosesOpens(text[from..], live);
    } else {
      var s := asg[0].span;
      var gap := text[from..s.start];
      var mid := if s.entity in never then asg[0].placeholder else text[s.start..s.end];
      ReplaceLosesOpens(gap, live);
      PartsLoseOpens(text, asg[1..], s.end, live, never);
      var restored := RestoredParts(text, asg[1..], s.end, live, never);
      var original := Redacted(text, asg[1..], s.end, never);
      CountOfConcat(Replace(gap, live) + mid, restored, '<');
      CountOfConcat(Replace(gap, live), mid, '<');
      CountOfConcat(gap + mid, original, '<');
      CountOfConcat(gap, mid, '<');
    }
  }

  /** Everything the enabled entity types must satisfy for their placeholders to be recognised again. */
  ghost predicate GoodTypes(enabled: set<string>) {
    forall e :: e in enabled ==> IsTypeName(e)
  }

  lemma {:induction false} NumberedOwn(sel: seq<DetectedSpan>, counts: Counts, i: nat) returns (n: nat)
    requires i < |sel|
    ensures Number(sel, counts)[i].placeholder == Placeholder(sel[i].entity, n)
  {
    hide Placeholder;
    n := CountFor(counts, sel[0].entity) + 1;
    if i > 0 {
      n := NumberedOwn(sel[1..], counts[sel[0].entity := n], i - 1);
    }
  }

  lemma NumberedTokens(sel: seq<DetectedSpan>, counts: Counts, enabled: set<string>)
    requires GoodTypes(enabled) && forall s :: s in sel ==> s.entity in enabled
    ensures TokensOfType(Number(sel, counts))
  {
    hide Placeholder, IsTypeName, IsPlaceholder, EntityType;
    var asg := Number(sel, counts);
    forall a | a in asg ensures IsPlaceholder(a.placeholder) && EntityType(a.placeholder) == a.span.entity {
      var i :| 0 <= i < |asg| && asg[i] == a;
      var n := NumberedOwn(sel, counts, i);
      assert sel[i] in sel;
      PlaceholderSplits(sel[i].entity, n);
    }
  }

  lemma UnitIsServed(texts: seq<string>, sels: Selections, u: nat, enabled: set<string>, never: set<string>)
    requires AllInOrder(texts, sels) && u < |texts| && GoodTypes(enabled)
    requires forall s :: s in sels[u] ==> s.entity in enabled
    ensures TokensOfType(Assigned(sels, u))
    ensures MapServes(texts[u], Assigned(sels, u), CombinedMap(texts, sels, |texts|, never), never)
  {
    hide CombinedMap, Number, IsTypeName, IsPlaceholder, EntityType, InOrder;
    NumberedTokens(sels[u], CountsBefore(sels, u), enabled);
    forall a | a in Assigned(sels, u) && a.span.entity !in never && a.span.end <= |texts[u]|
      ensures var m := CombinedMap(texts, sels, |texts|, never);
        a.placeholder in m && m[a.placeholder] == texts[u][a.span.start..a.span.end]
    {
      CombinedMapHas(texts, sels, u, |texts|, a, never);
    }
  }

  /**
   * The round trip of a request: restoring any masked unit with the combined map gives the original back with only
   * its never-restore spans replaced, whenever no unmasked stretch of that unit holds a map key.
   */
  lemma RequestRoundTrip(texts: seq<string>, sels: Selections, u: nat, enabled: set<string>, never: set<string>)
    requires AllInOrder(texts, sels) && u < |texts| && GoodTypes(enabled)
    requires forall s :: s in sels[u] ==> s.entity in enabled
    requires GapsHoldNoKey(texts[u], Assigned(sels, u), 0, Live(CombinedMap(texts, sels, |texts|, never), never))
    ensures Restore(Build(texts[u], Assigned(sels, u), 0), CombinedMap(texts, sels, |texts|, never), never)
         == Redacted(texts[u], Assigned(sels, u), 0, never)
  {
    var m, asg := CombinedMap(texts, sels, |texts|, never), Assigned(sels, u);
    assert InOrder(asg, 0, |texts[u]|);
    hide *;
    UnitIsServed(texts, sels, u, enabled, never);
    RestoreIsReplace(Build(texts[u], asg, 0), m, never);
    RestoreByParts(texts[u], asg, 0, m, never);
    LiveIsShaped(m, never);
    CleanParts(texts[u], asg, 0, Live(m, never), never);
  }

  /** When the masked originals hold no angle bracket the condition is exact: a key in a gap always shows. */
  lemma RoundTripIsExact(texts: seq<string>, sels: Selections, u: nat, enabled: set<string>, never: set<string>)
    requires AllInOrder(texts, sels) && u < |texts| && GoodTypes(enabled)
    requires forall s :: s in sels[u] ==> s.entity in enabled
    requires BracketFree(Live(CombinedMap(texts, sels, |texts|, never), never))
    ensures Restore(Build(texts[u], Assigned(sels, u), 0), CombinedMap(texts, sels, |texts|, never), never)
         == Redacted(texts[u], Assigned(sels, u), 0, never)
      <==> GapsHoldNoKey(texts[u], Assigned(sels, u), 0, Live(CombinedMap(texts, sels, |texts|, never), never))
  {
    var m, asg := CombinedMap(texts, sels, |texts|, never), Assigned(sels, u);
    assert InOrder(asg, 0, |texts[u]|);
    hide *;
    UnitIsServed(texts, sels, u, enabled, never);
    RestoreIsReplace(Build(texts[u], asg, 0), m, never);
    RestoreByParts(texts[u], asg, 0, m, never);
    LiveIsShaped(m, never);
    PartsLoseOpens(texts[u], asg, 0, Live(m, never), never);
    if GapsHoldNoKey(texts[u], asg, 0, Live(m, never)) {
      CleanParts(texts[u], asg, 0, Live(m, never), never);
    }
  }

  /** Without a never-restore span the user gets the very text back. */
  lemma {:induction false} NothingRedacted(text: string, asg: seq<Assignment>, from: nat, never: set<string>)
    requires InOrder(asg, from, |text|)
    requires forall a :: a in asg ==> a.span.entity !in never
    ensures from <= |text| && Redacted(text, asg, from, never) == text[from..]
  {
    InOrderBound(asg, from, |text|);
    if asg != [] {
      var s := asg[0].span;
      assert asg[0] in asg && forall b :: b in asg[1..] ==> b in asg;
      NothingRedacted(text, asg[1..], s.end, never);
      assert text[from..] == text[from..s.start] + text[s.start..s.end] + text[s.end..];
    }
  }

  // ----- The entity types this deployment can mask

  const ALL_MASKABLE_ENTITIES: set<string> := {
    "SECRET", "NL_BSN",
    "IBAN_CODE", "CREDIT_CARD", "EMAIL_ADDRESS", "PHONE_NUMBER", "NL_KVK", "NL_BTW", "NL_POSTCODE"
  }

  lemma {:induction false} DecimalDigits(n: nat, d: nat, bound: nat)
    requires n < bound && 1 <= d <= 5
    requires bound == [10, 100, 1000, 10000, 100000][d - 1]
    ensures |Decimal(n)| <= d
  {
    if n >= 10 {
      DecimalDigits(n / 10, d - 1, bound / 10);
    }
  }

  /**
   * The tail is long enough for 99,999 instances of any type in one request, ten times the allowance it was
   * computed from: every such placeholder is a token and fits the streaming condition.
   */
  lemma ShippedPlaceholdersFit(e: string, n: nat)
    requires e in ALL_MASKABLE_ENTITIES && n < 100000
    ensures IsTypeName(e) && IsPlaceholder(Placeholder(e, n)) && |Placeholder(e, n)| <= TAIL_LEN + 1
  {
    assert |e| <= MAX_ENTITY_NAME_LEN && IsTypeName(e);
    DecimalDigits(n, 5, 100000);
    PlaceholderSplits(e, n);
  }

  // ----- From masking to streaming

  lemma {:induction false} CountedTypes(sel: seq<DetectedSpan>, counts: Counts, types: set<string>)
    requires forall s :: s in sel ==> s.entity in types
    requires forall e :: CountFor(counts, e) > 0 ==> e in types
    ensures forall e :: CountFor(CountsAfter(sel, counts), e) > 0 ==> e in types
  {
    if sel != [] {
      assert sel[0] in sel;
      var next := counts[sel[0].entity := CountFor(counts, sel[0].entity) + 1];
      forall e | CountFor(next, e) > 0 ensures e in types {
        assert e != sel[0].entity ==> CountFor(next, e) == CountFor(counts, e);
      }
      CountedTypes(sel[1..], next, types);
    }
  }

  lemma {:induction false} CountedTypesBefore(sels: Selections, n: nat, types: set<string>)
    requires n <= |sels| && forall u, s :: 0 <= u < |sels| && s in sels[u] ==> s.entity in types
    ensures forall e :: CountFor(CountsBefore(sels, n), e) > 0 ==> e in types
  {
    if n > 0 {
      CountedTypesBefore(sels, n - 1, types);
      CountedTypes(sels[n - 1], CountsBefore(sels, n - 1), types);
    }
  }

  /** The keys of a request fit the streaming condition: shipped entity types, fewer than 100,000 of each. */
  lemma KeysOfRequestFit(texts: seq<string>, sels: Selections, never: set<string>)
    requires AllInOrder(texts, sels)
    requires forall u, s :: 0 <= u < |sels| && s in sels[u] ==> s.entity in ALL_MASKABLE_ENTITIES
    requires forall e :: CountFor(CountsBefore(sels, |texts|), e) < 100000
    ensures KeysFit(Live(CombinedMap(texts, sels, |texts|, never), never))
  {
    hide CombinedMap, CountsBefore, Placeholder, IsPlaceholder, EntityType, InOrder, Assigned;
    var m, counts := CombinedMap(texts, sels, |texts|, never), CountsBefore(sels, |texts|);
    CombinedKeys(texts, sels, |texts|, never);
    CountedTypesBefore(sels, |texts|, ALL_MASKABLE_ENTITIES);
    forall k | k in Live(m, never) ensures |k| <= TAIL_LEN + 1 {
      var e, n: nat :| k == Placeholder(e, n) && CountFor(map[], e) < n <= CountFor(counts, e);
      ShippedPlaceholdersFit(e, n);
    }
  }

  /**
   * From masking to the reader: for the map a request leaves behind, with fewer than 100,000 instances per shipped type
   * and originals without brackets, every cut of every response is restored as the whole response would be, if and
   * only if no original occurs inside a placeholder of the map.
   */
  lemma MaskedRequestStreams(texts: seq<string>, sels: Selections, never: set<string>)
    requires AllInOrder(texts, sels)
    requires forall u, s :: 0 <= u < |sels| && s in sels[u] ==> s.entity in ALL_MASKABLE_ENTITIES
    requires forall e :: CountFor(CountsBefore(sels, |texts|), e) < 100000
    requires BracketFree(Live(CombinedMap(texts, sels, |texts|, never), never))
    ensures var m := CombinedMap(texts, sels, |texts|, never);
      NoValueInsideKey(Live(m, never)) <==>
      forall chunks :: StreamOutput(chunks, m, never) == Restore(Concat(chunks), m, never)
  {
    hide CombinedMap, CountsBefore, InOrder, Assigned, Live, BracketFree, NoValueInsideKey, KeysFit, StreamOutput,
         Restore;
    KeysOfRequestFit(texts, sels, never);
    StreamIsExact(CombinedMap(texts, sels, |texts|, never), never);
    var m := CombinedMap(texts, sels, |texts|, never);
    forall chunks
      ensures Breaks(chunks, m, never) <==> StreamOutput(chunks, m, never) != Restore(Concat(chunks), m, never)
    {
    }
  }
}
