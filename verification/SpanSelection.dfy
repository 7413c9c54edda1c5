/**
 * Greedy selection of non-overlapping analyzer spans
 * (deploy/litellm/klai_pii_text_masking.py, `_select_non_overlapping`).
 */
module SpanSelection {
  import opened Sequences

  /** One analyzer result. */
  datatype RawSpan = Span(entity: string, start: nat, end: nat, score: real)

  type DetectedSpan = s: RawSpan | s.start < s.end witness Span("", 0, 1, 0.0)

  predicate Overlap(a: DetectedSpan, b: DetectedSpan) {
    a.start < b.end && b.start < a.end
  }

  /** Python's `<=` on strings: code points, left to right, a proper prefix first. */
  predicate StringAtMost(a: string, b: string) {
    a == "" || (b != "" && (a[0] < b[0] || (a[0] == b[0] && StringAtMost(a[1..], b[1..]))))
  }

  lemma {:induction false} StringOrder(a: string, b: string, c: string)
    ensures StringAtMost(a, a)
    ensures StringAtMost(a, b) || StringAtMost(b, a)
    ensures StringAtMost(a, b) && StringAtMost(b, a) ==> a == b
    ensures StringAtMost(a, b) && StringAtMost(b, c) ==> StringAtMost(a, c)
  {
    if a != "" {
      StringOrder(a[1..], if b == "" then "" else b[1..], if c == "" then "" else c[1..]);
      assert a == [a[0]] + a[1..];
      if b != "" {
        assert b == [b[0]] + b[1..];
      }
    }
  }

  /** The sort key order: score and length descending, never-restore first, then start and entity ascending. */
  predicate Precedes(a: DetectedSpan, b: DetectedSpan, never: set<string>) {
    if a.score != b.score then a.score > b.score
    else if a.end - a.start != b.end - b.start then a.end - a.start > b.end - b.start
    else if (a.entity in never) != (b.entity in never) then a.entity in never
    else if a.start != b.start then a.start < b.start
    else StringAtMost(a.entity, b.entity)
  }

  function Priority(never: set<string>): (DetectedSpan, DetectedSpan) -> bool {
    (a: DetectedSpan, b: DetectedSpan) => Precedes(a, b, never)
  }

  predicate StartsFirst(a: DetectedSpan, b: DetectedSpan) {
    a.start <= b.start
  }

  /** The key orders spans totally, and only equal spans tie: the sort does not depend on the incoming order. */
  lemma KeyIsTotal(a: DetectedSpan, b: DetectedSpan, c: DetectedSpan, never: set<string>)
    ensures Precedes(a, a, never)
    ensures Precedes(a, b, never) || Precedes(b, a, never)
    ensures Precedes(a, b, never) && Precedes(b, a, never) ==> a == b
    ensures Precedes(a, b, never) && Precedes(b, c, never) ==> Precedes(a, c, never)
  {
    hide StringAtMost;
    StringOrder(a.entity, b.entity, c.entity);
    StringOrder(b.entity, a.entity, c.entity);
  }

  ghost predicate SortedBy(s: seq<DetectedSpan>, before: (DetectedSpan, DetectedSpan) -> bool) {
    forall i, j :: 0 <= i < j < |s| ==> before(s[i], s[j])
  }

  /** Python's `sorted` with a total key order: an ordered rearrangement. */
  method Sorted(spans: seq<DetectedSpan>, before: (DetectedSpan, DetectedSpan) -> bool) returns (r: seq<DetectedSpan>)
    requires forall a, b :: before(a, b) || before(b, a)
    requires forall a, b, c :: before(a, b) && before(b, c) ==> before(a, c)
    ensures SortedBy(r, before)
    ensures multiset(r) == multiset(spans)
  {
    hide SortedBy;
    r := [];
    SortedNothing(before);
    for n := 0 to |spans|
      invariant SortedBy(r, before)
      invariant multiset(r) == multiset(spans[..n])
    {
      var x, i := spans[n], 0;
      while i < |r| && before(r[i], x)
        invariant 0 <= i <= |r|
        invariant forall k :: 0 <= k < i ==> before(r[k], x)
      {
        i := i + 1;
      }
      InsertKeepsOrder(r, i, x, before);
      InsertAddsOne(r, i, x);
      OneMore(spans, n);
      r := r[..i] + [x] + r[i..];
    }
    assert spans[..|spans|] == spans;
  }

  lemma SortedNothing(before: (DetectedSpan, DetectedSpan) -> bool)
    ensures SortedBy([], before)
  {
  }

  lemma InsertAddsOne<T>(s: seq<T>, i: nat, x: T)
    requires i <= |s|
    ensures multiset(s[..i] + [x] + s[i..]) == multiset(s + [x])
  {
    Rejoined(s, i);
  }

  lemma InsertKeepsOrder(r: seq<DetectedSpan>, i: nat, x: DetectedSpan, before: (DetectedSpan, DetectedSpan) -> bool)
    requires forall a, b :: before(a, b) || before(b, a)
    requires forall a, b, c :: before(a, b) && before(b, c) ==> before(a, c)
    requires SortedBy(r, before) && i <= |r|
    requires forall k :: 0 <= k < i ==> before(r[k], x)
    requires i < |r| ==> !before(r[i], x)
    ensures SortedBy(r[..i] + [x] + r[i..], before)
  {
    var s := r[..i] + [x] + r[i..];
    forall p, q | 0 <= p < q < |s| ensures before(s[p], s[q]) {
      if p == i {
        assert before(x, r[i]);
        assert s[q] == r[q - 1];
      }
    }
  }

  ghost predicate Disjoint(sel: seq<DetectedSpan>) {
    forall i, j :: 0 <= i < j < |sel| ==> !Overlap(sel[i], sel[j])
  }

  ghost predicate ByStart(sel: seq<DetectedSpan>) {
    forall i, j :: 0 <= i < j < |sel| ==> sel[i].start < sel[j].start
  }

  /** Everything offered was accepted, or overlaps an accepted span that comes first in the key order. */
  ghost predicate Maximal(spans: seq<DetectedSpan>, sel: seq<DetectedSpan>, never: set<string>) {
    forall s :: s in spans ==> s in sel || exists a :: a in sel && Overlap(a, s) && Precedes(a, s, never)
  }

  /** What a greedy selection is, without saying how it is computed. */
  ghost predicate IsGreedy(spans: seq<DetectedSpan>, sel: seq<DetectedSpan>, never: set<string>) {
    && (forall s :: s in sel ==> s in spans)
    && Disjoint(sel)
    && ByStart(sel)
    && Maximal(spans, sel, never)
  }

  /** `_select_non_overlapping`: sort by priority, accept what overlaps nothing accepted, sort by start. */
  method SelectNonOverlapping(spans: seq<DetectedSpan>, never: set<string>) returns (sel: seq<DetectedSpan>)
    ensures IsGreedy(spans, sel, never)
  {
    forall a: DetectedSpan, b: DetectedSpan, c: DetectedSpan
      ensures Precedes(a, b, never) || Precedes(b, a, never)
      ensures Precedes(a, b, never) && Precedes(b, c, never) ==> Precedes(a, c, never)
    {
      KeyIsTotal(a, b, c, never);
    }
    hide Precedes;
    var ordered := Sorted(spans, Priority(never));
    var accepted: seq<DetectedSpan> := [];
    for n := 0 to |ordered|
      invariant forall s :: s in accepted ==> s in ordered[..n]
      invariant Disjoint(accepted)
      invariant Maximal(ordered[..n], accepted, never)
    {
      var overlaps := exists k | 0 <= k < |accepted| :: Overlap(ordered[n], accepted[k]);
      GreedyStep(ordered, n, accepted, overlaps, never);
      if !overlaps {
        accepted := accepted + [ordered[n]];
      }
    }
    assert ordered[..|ordered|] == ordered;
    sel := Sorted(accepted, StartsFirst);
    SameMembers(spans, ordered);
    SameMembers(accepted, sel);
    SelectedIsGreedy(spans, ordered, accepted, sel, never);
  }

  lemma SameMembers<T>(a: seq<T>, b: seq<T>)
    requires multiset(a) == multiset(b)
    ensures forall x :: x in a <==> x in b
  {
    forall x ensures x in a <==> x in b {
      assert x in a <==> x in multiset(a);
      assert x in b <==> x in multiset(b);
    }
  }

  lemma GreedyStep(ordered: seq<DetectedSpan>, n: nat, accepted: seq<DetectedSpan>, overlaps: bool, never: set<string>)
    requires n < |ordered|
    requires SortedBy(ordered, Priority(never))
    requires forall s :: s in accepted ==> s in ordered[..n]
    requires Maximal(ordered[..n], accepted, never)
    requires overlaps <==> exists k | 0 <= k < |accepted| :: Overlap(ordered[n], accepted[k])
    ensures var accepted' := if overlaps then accepted else accepted + [ordered[n]];
      && Maximal(ordered[..n + 1], accepted', never)
      && forall s :: s in accepted' ==> s in ordered[..n + 1]
  {
    hide Precedes;
    var x := ordered[n];
    assert ordered[..n + 1] == ordered[..n] + [x];
    if overlaps {
      var k :| 0 <= k < |accepted| && Overlap(x, accepted[k]);
      assert accepted[k] in ordered[..n];
      var j :| 0 <= j < n && ordered[j] == accepted[k];
      assert Precedes(accepted[k], x, never);
      assert Overlap(accepted[k], x);
    }
  }

  lemma SelectedIsGreedy(spans: seq<DetectedSpan>, ordered: seq<DetectedSpan>, accepted: seq<DetectedSpan>,
                         sel: seq<DetectedSpan>, never: set<string>)
    requires forall x :: x in spans <==> x in ordered
    requires forall x :: x in accepted <==> x in sel
    requires multiset(accepted) == multiset(sel)
    requires forall s :: s in accepted ==> s in ordered
    requires Disjoint(accepted) && Maximal(ordered, accepted, never)
    requires SortedBy(sel, StartsFirst)
    ensures IsGreedy(spans, sel, never)
  {
    hide Precedes;
    DisjointRearranged(accepted, sel);
    forall i, j | 0 <= i < j < |sel| ensures sel[i].start < sel[j].start {
      assert !Overlap(sel[i], sel[j]);
    }
  }

  lemma DisjointRearranged(a: seq<DetectedSpan>, b: seq<DetectedSpan>)
    requires multiset(a) == multiset(b) && Disjoint(a)
    ensures Disjoint(b)
  {
    forall i, j | 0 <= i < j < |b| ensures !Overlap(b[i], b[j]) {
      TwoPlaces(a, b, i, j);
      var p, q :| 0 <= p < |a| && 0 <= q < |a| && p != q && a[p] == b[i] && a[q] == b[j];
      assert if p < q then !Overlap(a[p], a[q]) else !Overlap(a[q], a[p]);
    }
  }

  lemma SomewhereTwice<T>(b: seq<T>, i: nat, j: nat)
    requires i < j < |b| && b[i] == b[j]
    ensures multiset(b)[b[i]] >= 2
  {
    var front, behind := b[..j], b[j..];
    assert b == front + behind;
    assert front[i] in multiset(front) && behind[0] in multiset(behind);
  }

  lemma TwiceHasTwoPlaces<T>(a: seq<T>, x: T)
    requires multiset(a)[x] >= 2
    ensures exists p, q :: 0 <= p < |a| && 0 <= q < |a| && p != q && a[p] == x && a[q] == x
  {
    assert x in multiset(a);
    var p :| 0 <= p < |a| && a[p] == x;
    var front, behind := a[..p], a[p + 1..];
    assert a == front + [x] + behind;
    assert multiset(a) == multiset(front) + multiset{x} + multiset(behind);
    if x in multiset(front) {
      var q :| 0 <= q < |front| && front[q] == x;
      assert a[q] == x;
    } else {
      assert x in multiset(behind);
      var q :| 0 <= q < |behind| && behind[q] == x;
      assert a[p + 1 + q] == x;
    }
  }

  lemma TwoPlaces<T>(a: seq<T>, b: seq<T>, i: nat, j: nat)
    requires multiset(a) == multiset(b) && i < j < |b|
    ensures exists p, q :: 0 <= p < |a| && 0 <= q < |a| && p != q && a[p] == b[i] && a[q] == b[j]
  {
    assert b[i] in multiset(a) && b[j] in multiset(a);
    if b[i] != b[j] {
      var p :| 0 <= p < |a| && a[p] == b[i];
      var q :| 0 <= q < |a| && a[q] == b[j];
    } else {
      SomewhereTwice(b, i, j);
      TwiceHasTwoPlaces(a, b[i]);
    }
  }

  lemma Apart(sel: seq<DetectedSpan>, x: DetectedSpan, y: DetectedSpan)
    requires Disjoint(sel) && x in sel && y in sel && x != y
    ensures !Overlap(x, y)
  {
    var i :| 0 <= i < |sel| && sel[i] == x;
    var j :| 0 <= j < |sel| && sel[j] == y;
    assert if i < j then !Overlap(sel[i], sel[j]) else !Overlap(sel[j], sel[i]);
  }

  /** The members of `spans` that come before `x`. */
  ghost function Earlier(spans: seq<DetectedSpan>, x: DetectedSpan, never: set<string>): set<DetectedSpan> {
    set s | s in spans && s != x && Precedes(s, x, never)
  }

  /** A span accepted by one greedy selection is accepted by every other, whatever order the spans came in. */
  lemma {:induction false} SelectionAgrees(spans1: seq<DetectedSpan>, sel1: seq<DetectedSpan>,
                                           spans2: seq<DetectedSpan>, sel2: seq<DetectedSpan>,
                                           x: DetectedSpan, never: set<string>)
    requires forall s :: s in spans1 <==> s in spans2
    requires IsGreedy(spans1, sel1, never) && IsGreedy(spans2, sel2, never)
    requires x in sel1
    ensures x in sel2
    decreases Earlier(spans1, x, never)
  {
    hide Precedes;
    if x !in sel2 {
      var a :| a in sel2 && Overlap(a, x) && Precedes(a, x, never);
      assert Earlier(spans2, a, never) < Earlier(spans1, x, never) by {
        forall s | s in Earlier(spans2, a, never) ensures s in Earlier(spans1, x, never) {
          KeyIsTotal(s, a, x, never);
          KeyIsTotal(a, s, x, never);
          KeyIsTotal(x, a, s, never);
        }
        assert a in Earlier(spans1, x, never) && a !in Earlier(spans2, a, never);
      }
      SelectionAgrees(spans2, sel2, spans1, sel1, a, never);
      Apart(sel1, a, x);
    }
  }

  /** The selection is a function of the set of spans: no analyzer ordering and no duplicate can change it. */
  lemma SelectionIsOrderIndependent(spans1: seq<DetectedSpan>, sel1: seq<DetectedSpan>,
                                    spans2: seq<DetectedSpan>, sel2: seq<DetectedSpan>, never: set<string>)
    requires forall s :: s in spans1 <==> s in spans2
    requires IsGreedy(spans1, sel1, never) && IsGreedy(spans2, sel2, never)
    ensures sel1 == sel2
  {
    hide Precedes;
    forall x ensures x in sel1 <==> x in sel2 {
      if x in sel1 {
        SelectionAgrees(spans1, sel1, spans2, sel2, x, never);
      }
      if x in sel2 {
        SelectionAgrees(spans2, sel2, spans1, sel1, x, never);
      }
    }
    SameByStart(sel1, sel2);
  }

  lemma HasMember<T>(s: seq<T>)
    requires s != []
    ensures exists x :: x in s
  {
    assert s[0] in s;
  }

  lemma TailMember(s: seq<DetectedSpan>, x: DetectedSpan)
    requires s != [] && ByStart(s)
    ensures x in s[1..] <==> x in s && x != s[0]
  {
  }

  lemma {:induction false} SameByStart(a: seq<DetectedSpan>, b: seq<DetectedSpan>)
    requires ByStart(a) && ByStart(b)
    requires forall x :: x in a <==> x in b
    ensures a == b
  {
    if a == [] {
      if b != [] {
        HasMember(b);
      }
    } else {
      assert a[0] in b && b[0] in a;
      var i :| 0 <= i < |b| && b[i] == a[0];
      var j :| 0 <= j < |a| && a[j] == b[0];
      assert a[0] == b[0];
      forall x ensures x in a[1..] <==> x in b[1..] {
        TailMember(a, x);
        TailMember(b, x);
      }
      SameByStart(a[1..], b[1..]);
      assert a == [a[0]] + a[1..] && b == [b[0]] + b[1..];
    }
  }

  // ----- The order spelled out

  /** `a` is a proper front of `b`, or has the smaller character where they first differ. */
  ghost predicate TextBefore(a: string, b: string) {
    a < b || exists i :: FirstSmaller(a, b, i)
  }

  ghost predicate FirstSmaller(a: string, b: string, i: int) {
    0 <= i < |a| && i < |b| && a[i] < b[i] && forall k :: 0 <= k < i ==> a[k] == b[k]
  }

  lemma {:induction false} TextOrder(a: string, b: string)
    ensures TextBefore(a, b) <==> StringAtMost(a, b) && a != b
  {
    if a != "" && b != "" {
      assert a == [a[0]] + a[1..] && b == [b[0]] + b[1..];
      if a[0] == b[0] {
        TextOrder(a[1..], b[1..]);
        assert a < b <==> a[1..] < b[1..];
        forall i ensures FirstSmaller(a, b, i) <==> FirstSmaller(a[1..], b[1..], i - 1) {
          FirstSmallerTail(a, b, i);
        }
        assert forall i :: FirstSmaller(a[1..], b[1..], i) ==> FirstSmaller(a, b, i + 1);
      } else {
        assert FirstSmaller(a, b, 0) <==> a[0] < b[0];
        assert forall i :: FirstSmaller(a, b, i) ==> i == 0;
      }
    }
  }

  lemma FirstSmallerTail(a: string, b: string, i: int)
    requires a != "" && b != "" && a[0] == b[0]
    ensures FirstSmaller(a, b, i) <==> FirstSmaller(a[1..], b[1..], i - 1)
  {
    if FirstSmaller(a[1..], b[1..], i - 1) {
      forall k | 0 <= k < i ensures a[k] == b[k] {
        assert k > 0 ==> a[1..][k - 1] == b[1..][k - 1];
      }
    }
  }

  /** Higher score; then greater length; then never restored; then further left; then the earlier type name. */
  ghost predicate Stronger(a: DetectedSpan, b: DetectedSpan, never: set<string>) {
    || a.score > b.score
    || (a.score == b.score
        && (|| a.end - a.start > b.end - b.start
            || (a.end - a.start == b.end - b.start
                && (|| (a.entity in never && b.entity !in never)
                    || ((a.entity in never <==> b.entity in never)
                        && (a.start < b.start || (a.start == b.start && TextBefore(a.entity, b.entity))))))))
  }

  lemma StrongerIs(a: DetectedSpan, b: DetectedSpan, never: set<string>)
    ensures Stronger(a, b, never) <==> Precedes(a, b, never) && a != b
  {
    hide TextBefore, StringAtMost;
    TextOrder(a.entity, b.entity);
  }

  /**
   * What is selected: exactly the candidates that no selected stronger one overlaps. So a candidate that is stronger
   * than all it overlaps is always selected.
   */
  lemma SelectionIsExact(spans: seq<DetectedSpan>, sel: seq<DetectedSpan>, never: set<string>, x: DetectedSpan)
    requires IsGreedy(spans, sel, never)
    ensures x in sel <==> x in spans && forall a :: a in sel && Overlap(a, x) ==> !Stronger(a, x, never)
    ensures x in spans && (forall s :: s in spans && s != x && Overlap(s, x) ==> Stronger(x, s, never)) ==> x in sel
  {
    hide Precedes, Stronger;
    forall a: DetectedSpan, b: DetectedSpan
      ensures Stronger(a, b, never) <==> Precedes(a, b, never) && a != b
    {
      StrongerIs(a, b, never);
    }
    if x in sel {
      forall a | a in sel && Overlap(a, x) ensures a == x {
        if a != x {
          Apart(sel, a, x);
        }
      }
    } else if x in spans {
      var a :| a in sel && Overlap(a, x) && Precedes(a, x, never);
      KeyIsTotal(a, x, a, never);
    }
  }

  /** Ties never decide whether a value becomes restorable: the never-restore candidate wins an exact tie. */
  lemma NeverRestoreWinsTies(spans: seq<DetectedSpan>, sel: seq<DetectedSpan>, never: set<string>,
                             x: DetectedSpan, y: DetectedSpan)
    requires IsGreedy(spans, sel, never)
    requires x in spans && x.entity !in never
    requires y in spans && y.entity in never
    requires x.start == y.start && x.end == y.end && x.score == y.score
    ensures x !in sel
  {
    if x in sel {
      assert Precedes(y, x, never);
      if y in sel {
        Apart(sel, x, y);
      } else {
        var a :| a in sel && Overlap(a, y) && Precedes(a, y, never);
        KeyIsTotal(a, y, x, never);
        KeyIsTotal(y, a, x, never);
        Apart(sel, a, x);
      }
    }
  }
}
