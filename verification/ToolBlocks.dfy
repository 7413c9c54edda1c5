/**
 * Chat messages, and pairing an assistant's tool calls with the results behind it
 * (deploy/litellm/klai_context.py, `_reconcile_assistant_tool_block`).
 */
module ToolBlocks {
  import opened Strings

  datatype Role = System | User | Assistant | Tool | Function | Other(name: string)

  /** A requested call; the id may sit under either of two keys. */
  datatype ToolCall = ToolCall(id: Option<string>, altId: Option<string>, payload: string)

  /** The `tool_calls` key: missing, not a list, or a list. */
  datatype ToolCalls = Absent | Malformed | Calls(calls: seq<ToolCall>)

  /** One message; `content` is `None` when it is missing or not a string. */
  datatype Message = Message(
    role: Role,
    content: Option<string>,
    toolCalls: ToolCalls,
    functionCall: bool,
    toolCallId: Option<string>,
    name: Option<string>)

  function CallsOf(m: Message): seq<ToolCall> {
    if m.toolCalls.Calls? then m.toolCalls.calls else []
  }

  function NonBlankId(id: Option<string>): Option<string> {
    if id.Some? && Strip(id.value) != "" then id else None
  }

  /** `_tool_call_id`: the second key is used when the first is missing or empty, and a blank id is no id. */
  function CallId(c: ToolCall): Option<string> {
    NonBlankId(if c.id.Some? && c.id.value != "" then c.id else c.altId)
  }

  function ResultId(m: Message): Option<string> {
    NonBlankId(m.toolCallId)
  }

  predicate Blank(text: string) {
    forall i :: 0 <= i < |text| ==> IsSpace(text[i])
  }

  /** A call goes by its first id, or by the second where the first is missing or empty; a blank id is none. */
  lemma IdsAreExact(c: ToolCall, m: Message)
    ensures c.id.Some? && c.id.value != "" ==> CallId(c) == if Blank(c.id.value) then None else c.id
    ensures c.id == None || c.id == Some("") ==>
      CallId(c) == if c.altId == None || Blank(c.altId.value) then None else c.altId
    ensures ResultId(m) == if m.toolCallId == None || Blank(m.toolCallId.value) then None else m.toolCallId
  {
    hide Strip;
    forall text: string ensures Strip(text) == "" <==> Blank(text) {
      StripFacts(text);
    }
  }

  /** Which results are used up, by position. */
  type Flags = seq<bool>

  /** The first free result with this id. */
  function FirstWithId(tools: seq<Message>, used: Flags, id: string, from: nat): (r: Option<nat>)
    requires |used| == |tools|
    ensures r.Some? ==> from <= r.value < |tools| && !used[r.value] && ResultId(tools[r.value]) == Some(id)
    ensures forall i :: from <= i < |tools| && !used[i] && (r == None || i < r.value) ==> ResultId(tools[i]) != Some(id)
    decreases |tools| - from
  {
    if from >= |tools| then None
    else if !used[from] && ResultId(tools[from]) == Some(id) then Some(from)
    else FirstWithId(tools, used, id, from + 1)
  }

  /** The first free position from `pos` on, or the end. */
  function NextFree(used: Flags, pos: nat): (r: nat)
    requires pos <= |used|
    ensures pos <= r <= |used| && (r < |used| ==> !used[r])
    ensures forall i :: pos <= i < r ==> used[i]
    decreases |used| - pos
  {
    if pos < |used| && used[pos] then NextFree(used, pos + 1) else pos
  }

  /** The matched calls, each with the position of its result, and the flags afterwards. */
  datatype Matching = Matching(calls: seq<ToolCall>, picks: seq<nat>, used: Flags)

  /** Where the scan for free results stands, and the result chosen for one call. */
  datatype Choice = Choice(pos: nat, pick: Option<nat>)

  /** By id where the call has one, else the next free result. */
  function Choose(call: ToolCall, tools: seq<Message>, used: Flags, pos: nat): (c: Choice)
    requires |used| == |tools| && pos <= |tools|
    ensures pos <= c.pos <= |tools| && forall i :: pos <= i < c.pos ==> used[i]
    ensures c.pick.Some? ==>
      && c.pick.value < |tools| && !used[c.pick.value]
      && (CallId(call).Some? ==> ResultId(tools[c.pick.value]) == CallId(call))
    ensures c.pick == None && CallId(call) == None ==> c.pos == |tools|
    ensures c.pick == None && CallId(call).Some? ==>
      forall k :: 0 <= k < |tools| && !used[k] ==> ResultId(tools[k]) != CallId(call)
  {
    var id := CallId(call);
    if id.Some? then Choice(pos, FirstWithId(tools, used, id.value, 0))
    else
      var next := NextFree(used, pos);
      Choice(next, if next < |tools| then Some(next) else None)
  }

  /** Calls in order, each with the result chosen for it. */
  function Match(calls: seq<ToolCall>, tools: seq<Message>, used: Flags, pos: nat): Matching
    requires |used| == |tools| && pos <= |tools|
    decreases |calls|
  {
    if calls == [] then Matching([], [], used)
    else
      var c := Choose(calls[0], tools, used, pos);
      if c.pick == None then Match(calls[1..], tools, used, c.pos)
      else
        var m := Match(calls[1..], tools, used[c.pick.value := true], c.pos);
        Matching([calls[0]] + m.calls, [c.pick.value] + m.picks, m.used)
  }

  function Unused(tools: seq<Message>): (f: Flags)
    ensures |f| == |tools| && forall i :: 0 <= i < |f| ==> !f[i]
  {
    seq(|tools|, _ => false)
  }

  function Matched(calls: seq<ToolCall>, tools: seq<Message>): Matching {
    Match(calls, tools, Unused(tools), 0)
  }

  function Picked(tools: seq<Message>, picks: seq<nat>): seq<Message>
    requires forall i :: 0 <= i < |picks| ==> picks[i] < |tools|
  {
    seq(|picks|, i requires 0 <= i < |picks| => tools[picks[i]])
  }

  // ----- What a matching is

  /** Every pick is a free result of its own, carrying the call's id when the call has one. */
  ghost predicate Sound(m: Matching, tools: seq<Message>, used: Flags)
    requires |used| == |tools|
  {
    && |m.picks| == |m.calls| && |m.used| == |tools|
    && (forall i :: 0 <= i < |m.picks| ==> m.picks[i] < |tools| && !used[m.picks[i]])
    && (forall i, j :: 0 <= i < j < |m.picks| ==> m.picks[i] != m.picks[j])
    && (forall i :: 0 <= i < |m.picks| && CallId(m.calls[i]).Some? ==>
          ResultId(tools[m.picks[i]]) == CallId(m.calls[i]))
    && (forall k :: 0 <= k < |tools| ==> (m.used[k] <==> used[k] || k in m.picks))
  }

  lemma {:induction false} MatchIsSound(calls: seq<ToolCall>, tools: seq<Message>, used: Flags, pos: nat)
    requires |used| == |tools| && pos <= |tools|
    ensures Sound(Match(calls, tools, used, pos), tools, used)
    ensures |Match(calls, tools, used, pos).calls| <= |calls|
    decreases |calls|
  {
    hide CallId, ResultId, Choose;
    if calls != [] {
      var c := Choose(calls[0], tools, used, pos);
      if c.pick == None {
        MatchIsSound(calls[1..], tools, used, c.pos);
      } else {
        MatchIsSound(calls[1..], tools, used[c.pick.value := true], c.pos);
        SoundCons(calls[0], c.pick.value, Match(calls[1..], tools, used[c.pick.value := true], c.pos), tools, used);
      }
    }
  }

  lemma SoundCons(c: ToolCall, pick: nat, m: Matching, tools: seq<Message>, used: Flags)
    requires |used| == |tools| && pick < |tools| && !used[pick]
    requires CallId(c).Some? ==> ResultId(tools[pick]) == CallId(c)
    requires Sound(m, tools, used[pick := true])
    ensures Sound(Matching([c] + m.calls, [pick] + m.picks, m.used), tools, used)
  {
    hide CallId, ResultId;
    var picks := [pick] + m.picks;
    forall k | 0 <= k < |tools| ensures m.used[k] <==> used[k] || k in picks {
      assert k in picks <==> k == pick || k in m.picks;
    }
  }

  /** The calls that got no result. */
  function Dropped(calls: seq<ToolCall>, m: Matching): multiset<ToolCall> {
    multiset(calls) - multiset(m.calls)
  }

  /** No leftover result fits this call. */
  ghost predicate NoneFits(call: ToolCall, m: Matching, tools: seq<Message>)
    requires |m.used| == |tools|
  {
    forall k :: 0 <= k < |tools| && !m.used[k] ==> CallId(call).Some? && ResultId(tools[k]) != CallId(call)
  }

  /** Every call is matched or dropped, and nothing that could be matched is left: no dropped call fits a leftover. */
  ghost predicate Complete(calls: seq<ToolCall>, m: Matching, tools: seq<Message>, used: Flags)
    requires |used| == |tools|
  {
    && |m.used| == |tools|
    && (forall k :: 0 <= k < |tools| && used[k] ==> m.used[k])
    && multiset(m.calls) <= multiset(calls)
    && (forall c :: c in Dropped(calls, m) ==> NoneFits(c, m, tools))
  }

  lemma ConsMultiset(c: ToolCall, rest: seq<ToolCall>)
    ensures multiset([c] + rest) == multiset{c} + multiset(rest)
  {
  }

  lemma CompleteDrop(c: ToolCall, rest: seq<ToolCall>, m: Matching, tools: seq<Message>, used: Flags)
    requires |used| == |tools| && Complete(rest, m, tools, used)
    requires forall k :: 0 <= k < |tools| && !used[k] ==> CallId(c).Some? && ResultId(tools[k]) != CallId(c)
    ensures Complete([c] + rest, m, tools, used)
  {
    hide CallId, ResultId;
    ConsMultiset(c, rest);
    assert NoneFits(c, m, tools);
    forall d | d in Dropped([c] + rest, m) ensures NoneFits(d, m, tools) {
      assert d == c || d in Dropped(rest, m);
    }
  }

  lemma CompleteTake(c: ToolCall, pick: nat, rest: seq<ToolCall>, m: Matching, tools: seq<Message>, used: Flags)
    requires |used| == |tools| && pick < |tools| && Complete(rest, m, tools, used[pick := true])
    ensures Complete([c] + rest, Matching([c] + m.calls, [pick] + m.picks, m.used), tools, used)
  {
    hide CallId, ResultId;
    var all := Matching([c] + m.calls, [pick] + m.picks, m.used);
    SameDropped(c, rest, m, all);
    assert forall k :: 0 <= k < |tools| && used[k] ==> used[pick := true][k];
    hide Dropped;
    forall d | d in Dropped(rest, m) ensures NoneFits(d, all, tools) {
      assert NoneFits(d, m, tools);
    }
  }

  /** Matching one more call drops nothing more. */
  lemma SameDropped(c: ToolCall, rest: seq<ToolCall>, m: Matching, all: Matching)
    requires all.calls == [c] + m.calls && multiset(m.calls) <= multiset(rest)
    ensures Dropped([c] + rest, all) == Dropped(rest, m)
    ensures multiset(all.calls) <= multiset([c] + rest)
  {
    ConsMultiset(c, rest);
    ConsMultiset(c, m.calls);
  }

  lemma {:induction false} MatchIsComplete(calls: seq<ToolCall>, tools: seq<Message>, used: Flags, pos: nat)
    requires |used| == |tools| && pos <= |tools|
    requires forall i :: 0 <= i < pos ==> used[i]
    ensures Complete(calls, Match(calls, tools, used, pos), tools, used)
    decreases |calls|
  {
    hide CallId, ResultId, Choose, NoneFits;
    if calls != [] {
      hide Complete;
      var c := Choose(calls[0], tools, used, pos);
      assert calls == [calls[0]] + calls[1..];
      if c.pick == None {
        MatchIsComplete(calls[1..], tools, used, c.pos);
        CompleteDrop(calls[0], calls[1..], Match(calls[1..], tools, used, c.pos), tools, used);
      } else {
        MatchIsComplete(calls[1..], tools, used[c.pick.value := true], c.pos);
        var rest := Match(calls[1..], tools, used[c.pick.value := true], c.pos);
        CompleteTake(calls[0], c.pick.value, calls[1..], rest, tools, used);
      }
    }
  }

  /** `a` is `b` with some elements left out. */
  ghost predicate Subsequence<T>(a: seq<T>, b: seq<T>) {
    a == [] || (b != [] && ((a[0] == b[0] && Subsequence(a[1..], b[1..])) || Subsequence(a, b[1..])))
  }

  /** The matched calls keep their order. */
  lemma {:induction false} MatchKeepsOrder(calls: seq<ToolCall>, tools: seq<Message>, used: Flags, pos: nat)
    requires |used| == |tools| && pos <= |tools|
    ensures Subsequence(Match(calls, tools, used, pos).calls, calls)
    decreases |calls|
  {
    hide Choose;
    if calls != [] {
      var c := Choose(calls[0], tools, used, pos);
      if c.pick == None {
        MatchKeepsOrder(calls[1..], tools, used, c.pos);
      } else {
        MatchKeepsOrder(calls[1..], tools, used[c.pick.value := true], c.pos);
        var rest := Match(calls[1..], tools, used[c.pick.value := true], c.pos).calls;
        assert ([calls[0]] + rest)[1..] == rest;
      }
    }
  }

  // ----- The block

  /** An assistant whose calls and results agree one to one: in call order, and by id where the call has one. */
  ghost predicate Answered(assistant: Message, tools: seq<Message>) {
    && |tools| == |CallsOf(assistant)|
    && forall i :: 0 <= i < |tools| && CallId(CallsOf(assistant)[i]).Some? ==>
         ResultId(tools[i]) == CallId(CallsOf(assistant)[i])
  }

  function Reconcile(assistant: Message, tools: seq<Message>): seq<Message> {
    var calls := CallsOf(assistant);
    if calls == [] then [assistant]
    else
      var m := Matched(calls, tools);
      MatchedFits(calls, tools);
      if m.calls == [] then
        if assistant.content.Some? && Strip(assistant.content.value) != ""
        then [assistant.(toolCalls := Absent)] else []
      else [assistant.(toolCalls := Calls(m.calls))] + Picked(tools, m.picks)
  }

  function Prefixed(calls: seq<ToolCall>, picks: seq<nat>, m: Matching): Matching {
    Matching(calls + m.calls, picks + m.picks, m.used)
  }

  lemma MatchStep(calls: seq<ToolCall>, i: nat, tools: seq<Message>, used: Flags, pos: nat,
                  before: seq<ToolCall>, picks: seq<nat>)
    requires i < |calls| && |used| == |tools| && pos <= |tools|
    ensures var c := Choose(calls[i], tools, used, pos);
      Prefixed(before, picks, Match(calls[i..], tools, used, pos))
      == if c.pick == None then Prefixed(before, picks, Match(calls[i + 1..], tools, used, c.pos))
         else Prefixed(before + [calls[i]], picks + [c.pick.value],
                       Match(calls[i + 1..], tools, used[c.pick.value := true], c.pos))
  {
    hide Choose;
    assert calls[i..][0] == calls[i] && calls[i..][1..] == calls[i + 1..];
    var c := Choose(calls[i], tools, used, pos);
    if c.pick.Some? {
      var m := Match(calls[i + 1..], tools, used[c.pick.value := true], c.pos);
      assert before + ([calls[i]] + m.calls) == (before + [calls[i]]) + m.calls;
      assert picks + ([c.pick.value] + m.picks) == (picks + [c.pick.value]) + m.picks;
    }
  }

  lemma MatchEnd(calls: seq<ToolCall>, tools: seq<Message>, used: Flags, pos: nat, before: seq<ToolCall>,
                 picks: seq<nat>)
    requires |used| == |tools| && pos <= |tools|
    ensures Prefixed(before, picks, Match(calls[|calls|..], tools, used, pos)) == Matching(before, picks, used)
  {
    assert calls[|calls|..] == [];
  }

  /** A sound matching names positions in the tools, each once. */
  lemma MatchedFits(calls: seq<ToolCall>, tools: seq<Message>)
    ensures var m := Matched(calls, tools);
      && |m.calls| == |m.picks| <= |tools|
      && (forall i :: 0 <= i < |m.picks| ==> m.picks[i] < |tools|)
      && |m.calls| <= |calls|
  {
    hide Match, CallId, ResultId;
    MatchIsSound(calls, tools, Unused(tools), 0);
    PicksFit(Matched(calls, tools).picks, |tools|);
  }

  /**
   * `_reconcile_assistant_tool_block`. The block is the reconciled one; calls are matched or dropped, results are
   * matched or orphaned, and nothing is counted twice.
   */
  method ReconcileToolBlock(assistant: Message, tools: seq<Message>)
    returns (block: seq<Message>, droppedCalls: nat, orphans: nat)
    ensures block == Reconcile(assistant, tools)
    ensures var m := Matched(CallsOf(assistant), tools);
      && |CallsOf(assistant)| == |m.calls| + droppedCalls
      && |tools| == |m.picks| + orphans
  {
    hide CallId, ResultId, Strip, Match;
    var calls := CallsOf(assistant);
    MatchedFits(calls, tools);
    if calls == [] {
      return [assistant], 0, |tools|;
    }
    var used: Flags := Unused(tools);
    var matchedCalls: seq<ToolCall> := [];
    var picks: seq<nat> := [];
    var next: nat := 0;
    droppedCalls := 0;
    ghost var all := Matched(calls, tools);
    for i := 0 to |calls|
      invariant |used| == |tools| && next <= |tools|
      invariant |matchedCalls| == |picks| && |matchedCalls| + droppedCalls == i
      invariant all == Prefixed(matchedCalls, picks, Match(calls[i..], tools, used, next))
    {
      ghost var was, from := used, next;
      var id := CallId(calls[i]);
      var pick: Option<nat> := None;
      if id.Some? {
        pick := FirstWithId(tools, used, id.value, 0);
      } else {
        next := NextFree(used, next);
        if next < |tools| {
          pick := Some(next);
        }
      }
      assert Choose(calls[i], tools, was, from) == Choice(next, pick);
      MatchStep(calls, i, tools, was, from, matchedCalls, picks);
      if pick == None {
        droppedCalls := droppedCalls + 1;
        continue;
      }
      used := used[pick.value := true];
      matchedCalls := matchedCalls + [calls[i]];
      picks := picks + [pick.value];
    }
    MatchEnd(calls, tools, used, next, matchedCalls, picks);
    orphans := |tools| - |picks|;
    if matchedCalls == [] {
      block := if assistant.content.Some? && Strip(assistant.content.value) != ""
               then [assistant.(toolCalls := Absent)] else [];
    } else {
      block := [assistant.(toolCalls := Calls(matchedCalls))] + Picked(tools, picks);
    }
  }

  function Positions(picks: seq<nat>): set<nat> {
    set p: nat | p in picks
  }

  /** Distinct positions are not more than there are positions. */
  lemma PicksFit(picks: seq<nat>, n: nat)
    requires forall i :: 0 <= i < |picks| ==> picks[i] < n
    requires forall i, j :: 0 <= i < j < |picks| ==> picks[i] != picks[j]
    ensures |picks| <= n
  {
    DistinctCount(picks);
    BelowCount(Positions(picks), n);
  }

  lemma {:induction false} DistinctCount(picks: seq<nat>)
    requires forall i, j :: 0 <= i < j < |picks| ==> picks[i] != picks[j]
    ensures |Positions(picks)| == |picks|
  {
    if picks == [] {
      assert Positions(picks) == {};
    } else {
      DistinctCount(picks[1..]);
      assert picks == [picks[0]] + picks[1..];
      assert Positions(picks) == {picks[0]} + Positions(picks[1..]);
    }
  }

  lemma {:induction false} BelowCount(s: set<nat>, n: nat)
    requires forall x :: x in s ==> x < n
    ensures |s| <= n
  {
    if n == 0 {
      assert s == {};
    } else {
      BelowCount(s - {n - 1}, n - 1);
    }
  }

  /** Reconciling gives a block whose calls are all answered, or an assistant without calls, or nothing. */
  lemma ReconcileAnswers(assistant: Message, tools: seq<Message>)
    ensures var block := Reconcile(assistant, tools);
      block == [] || (block[0].role == assistant.role && Answered(block[0], block[1..])
                      && forall k :: 1 <= k < |block| ==> block[k] in tools)
  {
    hide CallId, ResultId, Strip, Match;
    MatchIsSound(CallsOf(assistant), tools, Unused(tools), 0);
  }

  /** With exactly the results before `i` used up, a call whose own result is at `i` gets that one. */
  lemma ChoosesNext(call: ToolCall, tools: seq<Message>, used: Flags, pos: nat, i: nat)
    requires |used| == |tools| && pos <= i < |tools|
    requires CallId(call).Some? ==> ResultId(tools[i]) == CallId(call)
    requires forall k :: 0 <= k < |used| ==> (used[k] <==> k < i)
    ensures var c := Choose(call, tools, used, pos); c.pick == Some(i) && c.pos <= i
  {
    hide CallId, ResultId, FirstWithId, NextFree;
    var c := Choose(call, tools, used, pos);
    assert !used[i];
    if c.pick.Some? && CallId(call).Some? {
      assert c.pick == FirstWithId(tools, used, CallId(call).value, 0);
    }
  }

  /** An answered block is matched to itself, call by call. */
  lemma {:induction false} MatchRest(calls: seq<ToolCall>, tools: seq<Message>, i: nat, used: Flags, pos: nat)
    requires |calls| == |tools| == |used| && pos <= i <= |tools|
    requires forall k :: 0 <= k < |tools| && CallId(calls[k]).Some? ==> ResultId(tools[k]) == CallId(calls[k])
    requires forall k :: 0 <= k < |used| ==> (used[k] <==> k < i)
    ensures var m := Match(calls[i..], tools, used, pos);
      m.calls == calls[i..] && |m.picks| == |tools| - i && forall k :: 0 <= k < |m.picks| ==> m.picks[k] == i + k
    decreases |tools| - i
  {
    hide CallId, ResultId, Choose;
    if i < |tools| {
      assert calls[i..][0] == calls[i] && calls[i..][1..] == calls[i + 1..];
      var c := Choose(calls[i], tools, used, pos);
      ChoosesNext(calls[i], tools, used, pos, i);
      MatchRest(calls, tools, i + 1, used[i := true], c.pos);
    }
  }

  /** Reconciling is idempotent: an answered block stays as it is. */
  lemma AnsweredIsStable(assistant: Message, tools: seq<Message>)
    requires Answered(assistant, tools)
    ensures Reconcile(assistant, tools) == [assistant] + tools
  {
    hide CallId, ResultId, Strip, Match;
    var calls := CallsOf(assistant);
    if calls == [] {
      assert tools == [];
    } else {
      assert calls[0..] == calls;
      MatchRest(calls, tools, 0, Unused(tools), 0);
      assert Picked(tools, Matched(calls, tools).picks) == tools;
    }
  }
}
