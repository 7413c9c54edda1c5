/**
 * The per-choice buffers of the streaming iterator hook
 * (deploy/litellm/klai_pii_enforce.py, `async_post_call_streaming_iterator_hook`).
 */
module StreamingHook {
  import opened Strings
  import opened Placeholders
  import opened StreamRestore

  /** One choice of a stream item; `content` is `None` when the delta carries no text. */
  datatype Choice = NoDelta | Delta(content: Option<string>)

  type Item = seq<Choice>

  predicate HasDelta(item: Item, i: nat) { i < |item| && item[i].Delta? }

  function ChoiceText(item: Item, i: nat): string {
    if HasDelta(item, i) && item[i].content.Some? then item[i].content.value else ""
  }

  /** All the text that reaches choice `i` over the items. */
  function Delivered(items: seq<Item>, i: nat): string {
    if items == [] then ""
    else Delivered(items[..|items| - 1], i) + ChoiceText(items[|items| - 1], i)
  }

  /** The pieces the model sent for choice `i`. */
  function Chunks(items: seq<Item>, i: nat): seq<string> {
    if items == [] then []
    else
      var last := items[|items| - 1];
      Chunks(items[..|items| - 1], i) + (if HasDelta(last, i) then [ChoiceText(last, i)] else [])
  }

  predicate LastHasDelta(items: seq<Item>, i: nat) {
    items != [] && HasDelta(items[|items| - 1], i)
  }

  function Held(buffers: map<nat, string>, i: nat): string {
    if i in buffers then buffers[i] else ""
  }

  predicate SameShape(items: seq<Item>, out: seq<Item>) {
    && |out| == |items|
    && forall j :: 0 <= j < |items| ==> SameChoices(items[j], out[j])
  }

  predicate SameChoices(item: Item, out: Item) {
    |out| == |item| && forall i :: 0 <= i < |item| ==> (out[i].Delta? <==> item[i].Delta?)
  }

  /** What one choice's buffer and delta become when one item goes through the loop. */
  ghost predicate Absorbed(item: Item, out: Item, before: string, after: string, i: nat,
                           restoreMap: map<string, string>, neverRestore: set<string>) {
    if HasDelta(item, i)
    then (ChoiceText(out, i), after) == SplitSafeTail(before + ChoiceText(item, i), restoreMap, neverRestore)
    else ChoiceText(out, i) == "" && after == before
  }

  /** All choices at once. */
  ghost predicate AbsorbedAll(item: Item, out: Item, before: map<nat, string>, after: map<nat, string>,
                              restoreMap: map<string, string>, neverRestore: set<string>) {
    forall i: nat :: Absorbed(item, out, Held(before, i), Held(after, i), i, restoreMap, neverRestore)
  }

  /** One item: every delta's text is exchanged for what may be emitted now. */
  method Absorb(item: Item, buffers: map<nat, string>, restoreMap: map<string, string>, neverRestore: set<string>)
    returns (out: Item, buffers': map<nat, string>)
    ensures SameChoices(item, out)
    ensures AbsorbedAll(item, out, buffers, buffers', restoreMap, neverRestore)
  {
    hide SplitSafeTail, Restore, Absorbed;
    out, buffers' := item, buffers;
    for idx := 0 to |item|
      invariant SameChoices(item, out)
      invariant out[idx..] == item[idx..]
      invariant forall i: nat :: i < idx ==>
        Absorbed(item, out, Held(buffers, i), Held(buffers', i), i, restoreMap, neverRestore)
      invariant forall i: nat :: i >= idx ==> Held(buffers', i) == Held(buffers, i)
    {
      ghost var outBefore := out;
      if item[idx].Delta? {
        var buffered := Held(buffers', idx) + ChoiceText(item, idx);
        var (safe, rest) := SplitSafeTail(buffered, restoreMap, neverRestore);
        buffers' := buffers'[idx := rest];
        out := out[idx := Delta(Some(safe))];
      }
      forall i: nat | i <= idx
        ensures Absorbed(item, out, Held(buffers, i), Held(buffers', i), i, restoreMap, neverRestore)
      {
        if i < idx {
          SameChoiceAbsorbed(item, outBefore, out, Held(buffers, i), Held(buffers', i), i, restoreMap, neverRestore);
        } else {
          AbsorbedHere(item, out, Held(buffers, i), Held(buffers', i), i, restoreMap, neverRestore);
        }
      }
    }
    forall i: nat ensures Absorbed(item, out, Held(buffers, i), Held(buffers', i), i, restoreMap, neverRestore) {
      if i >= |item| {
        AbsorbedHere(item, out, Held(buffers, i), Held(buffers', i), i, restoreMap, neverRestore);
      }
    }
  }

  lemma SameChoiceAbsorbed(item: Item, out: Item, out': Item, before: string, after: string, i: nat,
                           restoreMap: map<string, string>, neverRestore: set<string>)
    requires Absorbed(item, out, before, after, i, restoreMap, neverRestore)
    requires |out| == |out'| && (i < |out| ==> out[i] == out'[i])
    ensures Absorbed(item, out', before, after, i, restoreMap, neverRestore)
  {
    hide SplitSafeTail;
  }

  lemma AbsorbedHere(item: Item, out: Item, before: string, after: string, i: nat,
                     restoreMap: map<string, string>, neverRestore: set<string>)
    requires |out| == |item|
    requires HasDelta(item, i) ==>
      var (safe, rest) := SplitSafeTail(before + ChoiceText(item, i), restoreMap, neverRestore);
      out[i] == Delta(Some(safe)) && after == rest
    requires !HasDelta(item, i) ==> (i < |item| ==> out[i] == item[i]) && after == before
    ensures Absorbed(item, out, before, after, i, restoreMap, neverRestore)
  {
    hide SplitSafeTail;
  }

  function Flushed(item: Item, buffers: map<nat, string>, i: nat, restoreMap: map<string, string>,
                   neverRestore: set<string>): string {
    ChoiceText(item, i) + (if HasDelta(item, i) then Restore(Held(buffers, i), restoreMap, neverRestore) else "")
  }

  /** The last item absorbs whatever its own choices still hold back. */
  method Flush(item: Item, buffers: map<nat, string>, restoreMap: map<string, string>, neverRestore: set<string>)
    returns (out: Item)
    ensures SameChoices(item, out)
    ensures forall i: nat :: ChoiceText(out, i) == Flushed(item, buffers, i, restoreMap, neverRestore)
  {
    assert Restore("", restoreMap, neverRestore) == "";
    hide Restore;
    out := item;
    for idx := 0 to |item|
      invariant SameChoices(item, out)
      invariant out[idx..] == item[idx..]
      invariant forall i: nat :: i < idx ==> ChoiceText(out, i) == Flushed(item, buffers, i, restoreMap, neverRestore)
    {
      var leftover := Held(buffers, idx);
      if item[idx].Delta? && leftover != "" {
        out := out[idx := Delta(Some(ChoiceText(item, idx) + Restore(leftover, restoreMap, neverRestore)))];
      }
    }
  }

  /**
   * The hook: per-choice buffers and a one-item lookahead, so that the truly last item can take the leftover.
   * Every item comes out once, in order, with its choices intact, and each choice receives exactly what its own
   * stream of pieces emits, plus the restored leftover when the last item has a delta to put it in.
   */
  method RestoreStream(items: seq<Item>, restoreMap: map<string, string>, neverRestore: set<string>)
    returns (out: seq<Item>)
    ensures SameShape(items, out)
    ensures restoreMap == map[] ==> out == items
    ensures restoreMap != map[] ==> forall i: nat ::
      var (emitted, held) := StreamState(Chunks(items, i), restoreMap, neverRestore);
      Delivered(out, i)
        == emitted + (if LastHasDelta(items, i) then Restore(held, restoreMap, neverRestore) else "")
    ensures restoreMap != map[] && Inert(Live(restoreMap, neverRestore)) && KeysFit(Live(restoreMap, neverRestore)) ==>
      forall i: nat :: ReadsRestored(items, out, i, restoreMap, neverRestore) <==>
        (LastHasDelta(items, i) || Restore(Concat(Chunks(items, i)), restoreMap, neverRestore) == "")
  {
    if restoreMap == map[] {
      return items;
    }
    hide SplitSafeTail, Restore, StreamState, Delivered, Chunks, AbsorbedAll, InStep, SameShape;
    out := [];
    var buffers: map<nat, string> := map[];
    var pending: Option<Item> := None;
    ghost var done: seq<Item> := [];
    Nothing(restoreMap, neverRestore);
    assert items[..0] == [];
    for j := 0 to |items|
      invariant done == out + (if pending.Some? then [pending.value] else [])
      invariant |done| == j && (pending.Some? <==> j > 0)
      invariant SameShape(items[..j], done)
      invariant InStep(items[..j], done, buffers, restoreMap, neverRestore)
    {
      ghost var before := buffers;
      var item;
      item, buffers := Absorb(items[j], buffers, restoreMap, neverRestore);
      InStepSnoc(items[..j], done, items[j], item, before, buffers, restoreMap, neverRestore);
      SameShapeSnoc(items[..j], done, items[j], item);
      if pending.Some? {
        out := out + [pending.value];
      }
      pending := Some(item);
      done := done + [item];
      assert items[..j + 1] == items[..j] + [items[j]];
    }
    assert items[..|items|] == items;
    if pending.Some? {
      var last := Flush(pending.value, buffers, restoreMap, neverRestore);
      Ended(items, out, pending.value, last, buffers, restoreMap, neverRestore);
      out := out + [last];
    } else {
      NothingStreamed(items, buffers, restoreMap, neverRestore);
    }
    if Inert(Live(restoreMap, neverRestore)) && KeysFit(Live(restoreMap, neverRestore)) {
      hide Inert, KeysFit, Live, LastHasDelta, ReadsRestored;
      forall i: nat
        ensures ReadsRestored(items, out, i, restoreMap, neverRestore) <==>
          (LastHasDelta(items, i) || Restore(Concat(Chunks(items, i)), restoreMap, neverRestore) == "")
      {
        HookDeliversRestored(items, out, i, restoreMap, neverRestore);
      }
    }
  }

  /** What reaches choice `i` is the whole of what was sent to it, restored. */
  predicate ReadsRestored(items: seq<Item>, out: seq<Item>, i: nat, restoreMap: map<string, string>,
                          neverRestore: set<string>) {
    Delivered(out, i) == Restore(Concat(Chunks(items, i)), restoreMap, neverRestore)
  }

  /** Every choice has received what its own stream of pieces emits, and holds what that holds back. */
  ghost predicate InStep(items: seq<Item>, done: seq<Item>, buffers: map<nat, string>,
                         restoreMap: map<string, string>, neverRestore: set<string>) {
    forall i: nat :: (Delivered(done, i), Held(buffers, i)) == StreamState(Chunks(items, i), restoreMap, neverRestore)
  }

  lemma InStepSnoc(items: seq<Item>, done: seq<Item>, item: Item, out: Item, before: map<nat, string>,
                   after: map<nat, string>, restoreMap: map<string, string>, neverRestore: set<string>)
    requires InStep(items, done, before, restoreMap, neverRestore)
    requires AbsorbedAll(item, out, before, after, restoreMap, neverRestore)
    ensures InStep(items + [item], done + [out], after, restoreMap, neverRestore)
  {
    hide StreamState, Delivered, Chunks, Absorbed, Held;
    forall i: nat
      ensures (Delivered(done + [out], i), Held(after, i))
           == StreamState(Chunks(items + [item], i), restoreMap, neverRestore)
    {
      StateSnoc(items, done, item, out, Held(before, i), Held(after, i), i, restoreMap, neverRestore);
    }
  }

  lemma SameShapeSnoc(items: seq<Item>, done: seq<Item>, item: Item, out: Item)
    requires SameShape(items, done) && SameChoices(item, out)
    ensures SameShape(items + [item], done + [out])
  {
    hide SameChoices;
  }

  /** Flushing the last item completes the delivery. */
  lemma Ended(items: seq<Item>, out: seq<Item>, pending: Item, last: Item, buffers: map<nat, string>,
              restoreMap: map<string, string>, neverRestore: set<string>)
    requires items != [] && SameShape(items, out + [pending]) && SameChoices(pending, last)
    requires InStep(items, out + [pending], buffers, restoreMap, neverRestore)
    requires forall i: nat :: ChoiceText(last, i) == Flushed(pending, buffers, i, restoreMap, neverRestore)
    ensures SameShape(items, out + [last])
    ensures forall i: nat ::
      var (emitted, held) := StreamState(Chunks(items, i), restoreMap, neverRestore);
      Delivered(out + [last], i)
        == emitted + (if LastHasDelta(items, i) then Restore(held, restoreMap, neverRestore) else "")
  {
    hide Restore, StreamState, Delivered, Chunks, Held, ChoiceText;
    assert forall j :: 0 <= j < |out| ==> (out + [pending])[j] == (out + [last])[j];
    assert SameChoices(items[|items| - 1], (out + [pending])[|out|]);
    forall i: nat
      ensures var (emitted, held) := StreamState(Chunks(items, i), restoreMap, neverRestore);
        Delivered(out + [last], i)
          == emitted + (if LastHasDelta(items, i) then Restore(held, restoreMap, neverRestore) else "")
    {
      DeliveredSnoc(out, pending, i);
      DeliveredSnoc(out, last, i);
      assert (Delivered(out + [pending], i), Held(buffers, i))
          == StreamState(Chunks(items, i), restoreMap, neverRestore);
      assert HasDelta(pending, i) <==> LastHasDelta(items, i);
    }
  }

  lemma NothingStreamed(items: seq<Item>, buffers: map<nat, string>, restoreMap: map<string, string>,
                        neverRestore: set<string>)
    requires items == [] && InStep(items, [], buffers, restoreMap, neverRestore)
    ensures forall i: nat ::
      var (emitted, held) := StreamState(Chunks(items, i), restoreMap, neverRestore);
      Delivered([], i) == emitted + (if LastHasDelta(items, i) then Restore(held, restoreMap, neverRestore) else "")
  {
    hide Restore, StreamState, Held;
  }

  lemma Nothing(restoreMap: map<string, string>, neverRestore: set<string>)
    ensures InStep([], [], map[], restoreMap, neverRestore) && SameShape([], [])
  {
  }

  lemma DeliveredSnoc(items: seq<Item>, item: Item, i: nat)
    ensures Delivered(items + [item], i) == Delivered(items, i) + ChoiceText(item, i)
  {
    assert (items + [item])[..|items|] == items;
  }

  lemma StateSnoc(items: seq<Item>, done: seq<Item>, item: Item, out: Item, before: string, after: string, i: nat,
                  restoreMap: map<string, string>, neverRestore: set<string>)
    requires (Delivered(done, i), before) == StreamState(Chunks(items, i), restoreMap, neverRestore)
    requires Absorbed(item, out, before, after, i, restoreMap, neverRestore)
    ensures (Delivered(done + [out], i), after)
         == StreamState(Chunks(items + [item], i), restoreMap, neverRestore)
  {
    hide SplitSafeTail, StreamState;
    assert (items + [item])[..|items|] == items;
    DeliveredSnoc(done, out, i);
    StreamStateSnoc(Chunks(items, i), ChoiceText(item, i), restoreMap, neverRestore);
    assert Chunks(items, i) + [] == Chunks(items, i) && Delivered(done, i) + "" == Delivered(done, i);
  }

  /**
   * End to end, for every choice: the reader gets the restored whole if and only if the last item of the stream
   * carries a delta for that choice, or there was nothing to deliver.
   */
  lemma HookDeliversRestored(items: seq<Item>, out: seq<Item>, i: nat, restoreMap: map<string, string>,
                             neverRestore: set<string>)
    requires Inert(Live(restoreMap, neverRestore)) && KeysFit(Live(restoreMap, neverRestore))
    requires var (emitted, held) := StreamState(Chunks(items, i), restoreMap, neverRestore);
      Delivered(out, i) == emitted + (if LastHasDelta(items, i) then Restore(held, restoreMap, neverRestore) else "")
    ensures ReadsRestored(items, out, i, restoreMap, neverRestore) <==>
      (LastHasDelta(items, i) || Restore(Concat(Chunks(items, i)), restoreMap, neverRestore) == "")
  {
    var chunks := Chunks(items, i);
    var (emitted, held) := StreamState(chunks, restoreMap, neverRestore);
    assert ReadsRestored(items, out, i, restoreMap, neverRestore)
      <==> Delivered(out, i) == Restore(Concat(chunks), restoreMap, neverRestore);
    hide *;
    StreamRefinesRestore(chunks, restoreMap, neverRestore);
    StreamInvariant(chunks, restoreMap, neverRestore);
    RestoreIsReplace(Concat(chunks), restoreMap, neverRestore);
    HeldIsOutput(chunks, restoreMap, neverRestore);
    assert !LastHasDelta(items, i) ==> Delivered(out, i) == emitted;
    HeldNotEmpty(chunks, restoreMap, neverRestore);
  }

  lemma HeldIsOutput(chunks: seq<string>, restoreMap: map<string, string>, neverRestore: set<string>)
    ensures var (emitted, held) := StreamState(chunks, restoreMap, neverRestore);
      StreamOutput(chunks, restoreMap, neverRestore) == emitted + Restore(held, restoreMap, neverRestore)
  {
    hide StreamState, Restore;
  }

  /** A stream that emitted something still holds something back. */
  lemma {:induction false} HeldNotEmpty(chunks: seq<string>, restoreMap: map<string, string>, neverRestore: set<string>)
    requires Inert(Live(restoreMap, neverRestore))
    ensures var (emitted, held) := StreamState(chunks, restoreMap, neverRestore);
      held == "" ==> emitted == ""
  {
    hide *;
    if chunks == [] {
      StreamStart(restoreMap, neverRestore);
    } else {
      var before, chunk := chunks[..|chunks| - 1], chunks[|chunks| - 1];
      HeldNotEmpty(before, restoreMap, neverRestore);
      assert chunks == before + [chunk];
      StreamStateSnoc(before, chunk, restoreMap, neverRestore);
      var (_, held) := StreamState(before, restoreMap, neverRestore);
      var (safe, rest) := SplitSafeTail(held + chunk, restoreMap, neverRestore);
      RestoreIsReplace(held + chunk, restoreMap, neverRestore);
      LiveIsShaped(restoreMap, neverRestore);
      TextIsNotErased(held + chunk, Live(restoreMap, neverRestore));
      TailIsHeld(held + chunk, restoreMap, neverRestore);
    }
  }

  lemma TailIsHeld(buffer: string, restoreMap: map<string, string>, neverRestore: set<string>)
    ensures var (safe, rest) := SplitSafeTail(buffer, restoreMap, neverRestore);
      rest == "" ==> safe == ""
  {
    hide Restore;
  }

  /** Restoring never erases text: an empty value would swallow nothing but still break a key. */
  lemma TextIsNotErased(s: string, live: map<string, string>)
    requires Shaped(live) && Inert(live)
    ensures Replace(s, live) == "" ==> s == ""
  {
    if s != "" && KeyLength(s, live) > 0 {
      var k := s[..KeyLength(s, live)];
      if live[k] == "" {
        assert Agree(live[k], k, -1);
      }
    }
  }
}
