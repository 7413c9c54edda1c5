/**
 * The calls and results of the turn behind the last user (deploy/litellm/klai_context.py, lines 280-338, 362-419 and
 * `assemble`): what sanitizing makes of them, and that they reach the provider.
 */
module ActiveTurn {
  import opened Sequences
  import opened Strings
  import opened ToolBlocks
  import opened MessageRepair
  import opened ContextAssembly
  import opened RepairBlocks
  import opened ProviderContract

  // ----- What a result shows

  /** What is left of a text that is too long: the front that fits in front of the notice, without trailing blanks. */
  ghost predicate CutShort(shown: string, text: string, max: nat) {
    exists n: nat :: CutAt(shown, text, Room(max), n)
  }

  function Room(max: nat): nat {
    if max > |TRUNCATION_SUFFIX| then max - |TRUNCATION_SUFFIX| else 0
  }

  ghost predicate CutAt(shown: string, text: string, room: nat, n: nat) {
    && n <= room <= |text| && shown == text[..n] + TRUNCATION_SUFFIX
    && (n > 0 ==> !IsSpace(text[n - 1])) && forall i :: n <= i < room ==> IsSpace(text[i])
  }

  /** A result shows its text, or the placeholder when it is blank; the whole of it when it fits the bound. */
  ghost predicate Shows(shown: string, text: string, max: Option<nat>) {
    var whole := if Strip(text) == "" then EMPTY_TOOL_RESULT else Strip(text);
    if max.Some? && max.value > 0 && |whole| > max.value then CutShort(shown, whole, max.value) else shown == whole
  }

  lemma CutIsShort(text: string, max: nat)
    requires 0 < max < |text|
    ensures CutShort(Truncated(text, Some(max)), text, max)
    ensures max >= |TRUNCATION_SUFFIX| ==> |Truncated(text, Some(max))| <= max
  {
    var room := Room(max);
    FrontIsCut(text, room);
    RStripFacts(text[..room]);
    hide RStrip, CutAt;
    assert Truncated(text, Some(max)) == RStrip(text[..room]) + TRUNCATION_SUFFIX;
    assert CutAt(Truncated(text, Some(max)), text, room, |RStrip(text[..room])|);
  }

  lemma FrontIsCut(text: string, room: nat)
    requires room <= |text|
    ensures CutAt(RStrip(text[..room]) + TRUNCATION_SUFFIX, text, room, |RStrip(text[..room])|)
  {
    var front := text[..room];
    RStripFacts(front);
    hide RStrip, IsSpace;
    var n := |RStrip(front)|;
    assert RStrip(front) == front[..n] == text[..n];
    assert n > 0 ==> RStrip(front)[n - 1] == text[n - 1];
    assert forall i :: n <= i < room ==> front[i] == text[i];
  }

  /** The bound on a result: with its own budget, or with that of the history when nothing else is said. */
  ghost function ResultBound(s: Settings): Option<nat> {
    if s.historyChars > 0
       && (s.applyActiveToolBudget == Some(true) || (s.applyActiveToolBudget == None && s.applyHistoryBudget))
    then Some(s.historyChars) else None
  }

  ghost predicate CallsTools(m: Message) {
    m.toolCalls != Absent || m.functionCall
  }

  /** What sanitizing makes of a message behind the last user. */
  ghost predicate ActiveStays(m: Message, r: Message, s: Settings) {
    if m.role == Tool || m.role == Function then
      && r.role == Tool && r.toolCalls == Absent && !r.functionCall
      && r.toolCallId == (if m.toolCallId == Some("") then None else m.toolCallId)
      && r.name == (if m.name == Some("") then None else m.name)
      && r.content.Some? && Shows(r.content.value, TextOf(m), ResultBound(s))
    else if m.role == Assistant && m.toolCalls.Calls? then
      && r == m.(content := r.content) && TextOf(r) == TextOf(m)
      && (s.normalizeContent ==> r.content.Some?)
    else if m.role == Assistant && s.normalizeContent && CallsTools(m) then ToolsHidden(m, r)
    else r == m
  }

  /** Calls that are not sent leave the text of the message, or a notice where there is none. */
  ghost predicate ToolsHidden(m: Message, r: Message) {
    r == m.(toolCalls := Absent, functionCall := false,
            content := Some(if Strip(TextOf(m)) != "" then TextOf(m) else TOOL_CONTEXT))
  }

  lemma OneActive(m: Message, index: nat, last: int, s: Settings)
    requires index > last && m.role != User
    ensures |SanitizedAt(m, index, last, s)| == 1 && ActiveStays(m, SanitizedAt(m, index, last, s)[0], s)
  {
    hide IsStaleUpload, Strip, Shows, Truncated;
    if IsToolRole(m.role) {
      assert s.ToolResultMax() == ResultBound(s);
      ResultShows(TextOf(m), ResultBound(s));
    }
  }

  lemma ResultShows(text: string, max: Option<nat>)
    ensures Shows(Truncated(if Strip(text) == "" then EMPTY_TOOL_RESULT else Strip(text), max), text, max)
  {
    hide Strip, CutShort;
    var whole := if Strip(text) == "" then EMPTY_TOOL_RESULT else Strip(text);
    if max.Some? && 0 < max.value < |whole| {
      CutIsShort(whole, max.value);
      hide Truncated;
    }
  }

  lemma NoUserBehind(messages: seq<Message>, index: nat)
    requires LastUser(messages) < index < |messages|
    ensures messages[index].role != User
  {
  }

  /** The text of an upload starts with its mark, behind any whitespace. */
  ghost predicate LooksUploaded(text: string) {
    exists k :: MarkedAt(text, k)
  }

  ghost predicate MarkedAt(text: string, k: int) {
    0 <= k <= |text| && (forall i :: 0 <= i < k ==> IsSpace(text[i])) && "Attached document(s):" <= text[k..]
  }

  lemma UploadIs(text: string)
    ensures LooksUploaded(text) <==> IsStaleUpload(text)
  {
    LStripFacts(text);
    hide LStrip;
    var n := |text| - |LStrip(text)|;
    assert IsStaleUpload(text) ==> MarkedAt(text, n);
    if k :| MarkedAt(text, k) {
      assert text[k] == 'A' && !IsSpace('A');
      assert n <= k;
      assert LStrip(text) != "" && LStrip(text)[0] == text[n];
    }
  }

  /** A message in front of the last user: results go, stale uploads and tool calls become notices, the rest stays. */
  ghost predicate HistoryStays(m: Message, out: seq<Message>, s: Settings) {
    if m.role == Tool || m.role == Function then out == []
    else if s.normalizeContent && m.role == User && LooksUploaded(TextOf(m))
    then out == [m.(content := Some(STALE_ATTACHMENT))]
    else if s.normalizeContent && m.role == Assistant && CallsTools(m) then |out| == 1 && ToolsHidden(m, out[0])
    else out == [m]
  }

  lemma OneOfHistory(m: Message, index: nat, last: int, s: Settings)
    requires index < last
    ensures HistoryStays(m, SanitizedAt(m, index, last, s), s)
  {
    hide Strip, Truncated, IsStaleUpload, LooksUploaded;
    NothingIsNoUpload();
    UploadIs(TextOf(m));
  }

  lemma NothingIsNoUpload()
    ensures !IsStaleUpload("")
  {
  }

  /** What each message becomes: history, the last user as it is, and the turn behind it. */
  ghost predicate InPlace(messages: seq<Message>, parts: seq<seq<Message>>, s: Settings) {
    var last := LastUser(messages);
    && |parts| == |messages|
    && forall i :: 0 <= i < |parts| ==>
         if i < last then HistoryStays(messages[i], parts[i], s)
         else if i == last then parts[i] == [messages[i]]
         else |parts[i]| == 1 && ActiveStays(messages[i], parts[i][0], s)
  }

  function PartsOf(messages: seq<Message>, s: Settings): seq<seq<Message>> {
    seq(|messages|, i requires 0 <= i < |messages| => SanitizedAt(messages[i], i, LastUser(messages), s))
  }

  lemma {:induction false} SanitizedIsFlat(messages: seq<Message>, from: nat, s: Settings)
    requires from <= |messages|
    ensures Sanitized(messages, from, LastUser(messages), s) == Flat(PartsOf(messages, s)[from..])
    decreases |messages| - from
  {
    hide SanitizedAt, LastUser;
    if from < |messages| {
      SanitizedIsFlat(messages, from + 1, s);
      assert PartsOf(messages, s)[from..][1..] == PartsOf(messages, s)[from + 1..];
    }
  }

  /** Sanitizing, message by message: nothing changes places, and each message becomes what it should. */
  lemma SanitizedInPlace(messages: seq<Message>, s: Settings)
    requires LastUser(messages) >= 0
    ensures exists parts ::
      InPlace(messages, parts, s) && Sanitized(messages, 0, LastUser(messages), s) == Flat(parts)
  {
    hide ActiveStays, HistoryStays, Sanitized, SanitizedAt, LastUser;
    var parts := PartsOf(messages, s);
    SanitizedIsFlat(messages, 0, s);
    WholeTail(parts);
    var last := LastUser(messages);
    LastUserIs(messages);
    forall i | 0 <= i < |parts|
      ensures if i < last then HistoryStays(messages[i], parts[i], s)
              else if i == last then parts[i] == [messages[i]]
              else |parts[i]| == 1 && ActiveStays(messages[i], parts[i][0], s)
    {
      if i < last {
        OneOfHistory(messages[i], i, last, s);
      } else if i == last {
        LastIsUser(messages);
        LastStays(messages[i], i, s);
      } else {
        NoUserBehind(messages, i);
        OneActive(messages[i], i, last, s);
      }
    }
    assert InPlace(messages, parts, s);
  }

  lemma LastIsUser(messages: seq<Message>)
    requires LastUser(messages) >= 0
    ensures messages[LastUser(messages)].role == User
  {
  }

  // ----- The rounds of a turn

  /** An assistant with calls, and the results behind it. */
  datatype Round = Round(caller: Message, results: seq<Message>)

  function Spread(rounds: seq<Round>): seq<Message> {
    if rounds == [] then [] else [rounds[0].caller] + rounds[0].results + Spread(rounds[1..])
  }

  /** Some result has this id; `FirstResult` is the first of them. */
  predicate HasResult(results: seq<Message>, id: string) {
    exists t :: t in results && ResultId(t) == Some(id)
  }

  function FirstResult(results: seq<Message>, id: string): (r: nat)
    requires HasResult(results, id)
    ensures r < |results| && ResultId(results[r]) == Some(id)
    ensures forall i :: 0 <= i < r ==> ResultId(results[i]) != Some(id)
  {
    if ResultId(results[0]) == Some(id) then 0
    else
      assert HasResult(results[1..], id) by {
        var t :| t in results && ResultId(t) == Some(id);
        assert results == [results[0]] + results[1..];
      }
      1 + FirstResult(results[1..], id)
  }

  /** Calls with ids of their own, each with a result behind it. */
  ghost predicate AllAnswered(calls: seq<ToolCall>, results: seq<Message>) {
    && (forall i :: 0 <= i < |calls| ==> CallId(calls[i]).Some? && HasResult(results, CallId(calls[i]).value))
    && forall i, j :: 0 <= i < j < |calls| ==> CallId(calls[i]) != CallId(calls[j])
  }

  /** A round in which every call is answered; it may hold further results. */
  ghost predicate CompleteRound(r: Round) {
    && r.caller.role == Assistant && CallsOf(r.caller) != []
    && (forall t :: t in r.results ==> t.role == Tool || t.role == Function)
    && AllAnswered(CallsOf(r.caller), r.results)
  }

  /** The results of the calls, in call order. */
  ghost function Chosen(calls: seq<ToolCall>, results: seq<Message>): seq<Message>
    requires AllAnswered(calls, results)
  {
    seq(|calls|, i requires 0 <= i < |calls| => results[FirstResult(results, CallId(calls[i]).value)])
  }

  /** No result of a call from `i` on is used up. */
  ghost predicate Open(calls: seq<ToolCall>, i: nat, results: seq<Message>, used: Flags)
    requires |used| == |results|
  {
    forall j, k :: i <= j < |calls| && 0 <= k < |results| && ResultId(results[k]) == CallId(calls[j]) ==> !used[k]
  }

  /** Matching gives every call its own result. */
  lemma {:induction false} MatchAll(calls: seq<ToolCall>, i: nat, results: seq<Message>, used: Flags, pos: nat)
    requires AllAnswered(calls, results) && i <= |calls| && |used| == |results| && pos <= |results|
    requires Open(calls, i, results, used)
    ensures var m := Match(calls[i..], results, used, pos);
      && m.calls == calls[i..] && |m.picks| == |calls| - i
      && forall k :: 0 <= k < |m.picks| ==> m.picks[k] == FirstResult(results, CallId(calls[i + k]).value)
    decreases |calls| - i
  {
    hide CallId, ResultId, Choose, FirstResult, HasResult;
    if i < |calls| {
      var c := Choose(calls[i], results, used, pos);
      ChoosesFirst(calls[i], results, used, pos);
      var p := FirstResult(results, CallId(calls[i]).value);
      var next := used[p := true];
      forall j, k | i + 1 <= j < |calls| && 0 <= k < |results| && ResultId(results[k]) == CallId(calls[j])
        ensures !next[k]
      {
        assert k != p;
      }
      MatchAll(calls, i + 1, results, next, c.pos);
      MatchTakes(calls, i, results, used, pos);
      var m := Match(calls[i + 1..], results, next, c.pos);
      forall k | 0 <= k < |calls| - i
        ensures ([p] + m.picks)[k] == FirstResult(results, CallId(calls[i + k]).value)
      {
        assert k > 0 ==> calls[i + k] == calls[i + 1 + (k - 1)];
      }
    }
  }

  lemma MatchTakes(calls: seq<ToolCall>, i: nat, results: seq<Message>, used: Flags, pos: nat)
    requires i < |calls| && |used| == |results| && pos <= |results|
    requires Choose(calls[i], results, used, pos).pick.Some?
    ensures var c := Choose(calls[i], results, used, pos);
      var m := Match(calls[i + 1..], results, used[c.pick.value := true], c.pos);
      Match(calls[i..], results, used, pos) == Matching([calls[i]] + m.calls, [c.pick.value] + m.picks, m.used)
    ensures calls[i..] == [calls[i]] + calls[i + 1..]
  {
    hide Choose;
    assert calls[i..][0] == calls[i] && calls[i..][1..] == calls[i + 1..];
  }

  lemma ChoosesFirst(call: ToolCall, results: seq<Message>, used: Flags, pos: nat)
    requires CallId(call).Some? && HasResult(results, CallId(call).value)
    requires |used| == |results| && pos <= |results|
    requires forall k :: 0 <= k < |results| && ResultId(results[k]) == CallId(call) ==> !used[k]
    ensures Choose(call, results, used, pos).pick == Some(FirstResult(results, CallId(call).value))
  {
    hide CallId, ResultId, HasResult;
    var first := FirstResult(results, CallId(call).value);
    var found := FirstWithId(results, used, CallId(call).value, 0);
    assert !used[first];
  }

  /** A complete round keeps all its calls, each with its own result, in call order. */
  lemma CompleteIsKept(caller: Message, results: seq<Message>)
    requires CallsOf(caller) != [] && AllAnswered(CallsOf(caller), results)
    ensures Reconcile(caller, results) == [caller] + Chosen(CallsOf(caller), results)
  {
    hide CallId, ResultId, Match, AllAnswered, FirstResult, HasResult;
    var calls := CallsOf(caller);
    assert calls[0..] == calls;
    NothingUsed(calls, results);
    MatchAll(calls, 0, results, Unused(results), 0);
    var m := Matched(calls, results);
    MatchedFits(calls, results);
    ChosenArePicked(calls, results, m.picks);
    assert caller.(toolCalls := Calls(calls)) == caller;
  }

  lemma NothingUsed(calls: seq<ToolCall>, results: seq<Message>)
    ensures Open(calls, 0, results, Unused(results))
  {
  }

  lemma ChosenArePicked(calls: seq<ToolCall>, results: seq<Message>, picks: seq<nat>)
    requires AllAnswered(calls, results) && |picks| == |calls|
    requires forall k :: 0 <= k < |picks| ==> picks[k] == FirstResult(results, CallId(calls[0 + k]).value)
    ensures (forall k :: 0 <= k < |picks| ==> picks[k] < |results|) && Picked(results, picks) == Chosen(calls, results)
  {
    hide CallId, ResultId, HasResult;
  }

  // ----- A repair keeps them

  /** Rounds as they stand in a conversation. */
  ghost predicate Formed(rounds: seq<Round>) {
    forall r :: r in rounds ==> FormedRound(r)
  }

  ghost predicate FormedRound(r: Round) {
    r.caller.role == Assistant && r.results != [] && forall t :: t in r.results ==> t.role == Tool
  }

  function TurnsOf(rounds: seq<Round>): seq<Block> {
    seq(|rounds|, i requires 0 <= i < |rounds| => Turn([rounds[i].caller], rounds[i].results))
  }

  /** Each round reconciled. */
  function Reconciled(rounds: seq<Round>): seq<Message> {
    if rounds == [] then []
    else Reconcile(rounds[0].caller, rounds[0].results) + Reconciled(rounds[1..])
  }

  lemma FormedTail(rounds: seq<Round>)
    requires Formed(rounds) && rounds != []
    ensures FormedRound(rounds[0]) && Formed(rounds[1..])
  {
    assert rounds[0] in rounds && forall r :: r in rounds[1..] ==> r in rounds;
  }

  lemma SpreadStart(rounds: seq<Round>)
    requires Formed(rounds)
    ensures Spread(rounds) != [] ==> Spread(rounds)[0].role == Assistant
    ensures rounds != [] ==> Spread(rounds) != []
  {
    if rounds != [] {
      FormedTail(rounds);
    }
  }

  /** The blocks of the rounds are the rounds. */
  lemma {:induction false} BlocksOfRounds(rounds: seq<Round>)
    requires Formed(rounds)
    ensures Blocks(Spread(rounds)) == TurnsOf(rounds)
  {
    hide *;
    if rounds == [] {
      NoRounds();
    } else {
      FormedTail(rounds);
      BlocksOfRounds(rounds[1..]);
      SpreadStart(rounds[1..]);
      SpreadCons(rounds);
      BlocksOfRound(rounds[0], Spread(rounds[1..]));
    }
  }

  lemma NoRounds()
    ensures Blocks(Spread([])) == TurnsOf([])
  {
  }

  lemma SpreadCons(rounds: seq<Round>)
    requires rounds != []
    ensures Spread(rounds) == [rounds[0].caller] + rounds[0].results + Spread(rounds[1..])
    ensures TurnsOf(rounds) == [Turn([rounds[0].caller], rounds[0].results)] + TurnsOf(rounds[1..])
  {
  }

  lemma BlocksOfRound(r: Round, rest: seq<Message>)
    requires FormedRound(r) && (rest != [] ==> rest[0].role == Assistant)
    ensures Blocks([r.caller] + r.results + rest) == [Turn([r.caller], r.results)] + Blocks(rest)
  {
    hide Blocks, RunLen;
    var conv := [r.caller] + r.results + rest;
    Associates([r.caller], r.results, rest);
    BlocksUnfold(conv);
    assert r.results[0] in r.results;
    RunLenIs([r.caller], r.results + rest, Assistant);
    RunLenIs(r.results, rest, Tool);
    assert conv[1..] == r.results + rest && conv[..1] == [r.caller];
    assert conv[1..1 + |r.results|] == r.results && conv[1 + |r.results|..] == rest;
  }

  lemma RunIsShorter(conv: seq<Message>, role: Role)
    requires conv != [] && conv[|conv| - 1].role != role
    ensures RunLen(conv, role) < |conv|
  {
    hide RunLen;
    assert conv[|conv| - 1].role != role;
  }

  lemma UsersInFront(conv: seq<Message>, rest: seq<Message>)
    requires Begins(conv, User) && conv[|conv| - 1].role == User && Begins(rest, Assistant)
    ensures var n := RunLen(conv, User);
      && n > 0 && Blocks(conv) == [Asked(conv[..n])] + Blocks(conv[n..])
      && Blocks(conv + rest) == [Asked(conv[..n])] + Blocks(conv[n..] + rest)
  {
    hide Blocks, RunLen;
    BlocksUnfold(conv);
    BlocksUnfold(conv + rest);
    RunInFront(conv, rest, User);
    TailOfCat(conv, rest, RunLen(conv, User));
    FrontOfCat(conv, rest, RunLen(conv, User));
  }

  lemma TurnInFront(conv: seq<Message>, rest: seq<Message>, n: nat, m: nat)
    requires Begins(conv, Assistant) && n < |conv| && n + m < |conv|
    requires n == RunLen(conv, Assistant) == RunLen(conv + rest, Assistant)
    requires m == RunLen(conv[n..], Tool) == RunLen(conv[n..] + rest, Tool)
    ensures Blocks(conv) == [Turn(conv[..n], conv[n..n + m])] + Blocks(conv[n + m..])
    ensures Blocks(conv + rest) == [Turn(conv[..n], conv[n..n + m])] + Blocks(conv[n + m..] + rest)
  {
    hide Blocks, RunLen;
    BlocksUnfold(conv);
    BlocksUnfold(conv + rest);
    TailOfCat(conv, rest, n);
    FrontOfCat(conv, rest, n);
    TailOfCat(conv, rest, n + m);
    SameSlice(conv, rest, n, n + m);
  }

  lemma SameSlice(a: seq<Message>, b: seq<Message>, i: nat, j: nat)
    requires i <= j <= |a|
    ensures (a + b)[i..j] == a[i..j]
  {
  }

  lemma ToolsInFront(conv: seq<Message>, rest: seq<Message>)
    requires Begins(conv, Tool) && conv[|conv| - 1].role == User && Begins(rest, Assistant)
    ensures var n := RunLen(conv, Tool);
      && 0 < n < |conv| && Blocks(conv) == Blocks(conv[n..]) && Blocks(conv + rest) == Blocks(conv[n..] + rest)
  {
    hide Blocks, RunLen;
    BlocksUnfold(conv);
    BlocksUnfold(conv + rest);
    RunInFront(conv, rest, Tool);
    RunIsShorter(conv, Tool);
    TailOfCat(conv, rest, RunLen(conv, Tool));
  }

  lemma OtherInFront(conv: seq<Message>, rest: seq<Message>)
    requires conv != [] && !Spoken(conv[0])
    ensures Blocks(conv) == Blocks(conv[1..]) && Blocks(conv + rest) == Blocks(conv[1..] + rest)
  {
    hide Blocks, RunLen;
    BlocksUnfold(conv);
    BlocksUnfold(conv + rest);
    TailOfCat(conv, rest, 1);
  }

  /** The blocks of a conversation that ends in a user, with rounds behind it. */
  lemma {:induction false} BlocksBehind(conv: seq<Message>, rest: seq<Message>)
    requires conv != [] && conv[|conv| - 1].role == User && Begins(rest, Assistant)
    ensures Blocks(conv + rest) == Blocks(conv) + Blocks(rest)
    decreases |conv|
  {
    hide Blocks, RunLen, Begins;
    if conv[0].role == User {
      BeginsWith(conv);
      UsersInFront(conv, rest);
      var n := RunLen(conv, User);
      if n == |conv| {
        NoBlocksBehind(conv, rest);
      } else {
        BlocksBehind(conv[n..], rest);
        Associates([Asked(conv[..n])], Blocks(conv[n..]), Blocks(rest));
      }
    } else if conv[0].role == Assistant {
      BeginsWith(conv);
      RunIsShorter(conv, Assistant);
      var n := RunLen(conv, Assistant);
      RunIsShorter(conv[n..], Tool);
      var m := RunLen(conv[n..], Tool);
      RunInFront(conv, rest, Assistant);
      RunInFront(conv[n..], rest, Tool);
      RunLenTail(conv, Assistant);
      TurnInFront(conv, rest, n, m);
      BlocksBehind(conv[n + m..], rest);
      Associates([Turn(conv[..n], conv[n..n + m])], Blocks(conv[n + m..]), Blocks(rest));
    } else if conv[0].role == Tool {
      BeginsWith(conv);
      ToolsInFront(conv, rest);
      BlocksBehind(conv[RunLen(conv, Tool)..], rest);
    } else {
      OtherInFront(conv, rest);
      BlocksBehind(conv[1..], rest);
    }
  }

  lemma BeginsWith(conv: seq<Message>)
    requires conv != []
    ensures Begins(conv, conv[0].role)
  {
  }

  lemma NoBlocksBehind(conv: seq<Message>, rest: seq<Message>)
    ensures Blocks(conv[|conv|..]) == [] && conv[|conv|..] + rest == rest
  {
    assert conv[|conv|..] == [];
  }

  /** A run in front of a last user, or of users in front of an assistant, is the same run. */
  lemma RunInFront(conv: seq<Message>, rest: seq<Message>, role: Role)
    requires conv != [] && conv[|conv| - 1].role == User && Begins(rest, Assistant)
    ensures RunLen(conv + rest, role) == RunLen(conv, role)
    ensures role != User ==> RunLen(conv, role) < |conv|
  {
    var n := RunLen(conv, role);
    var all := conv + rest;
    assert all == conv[..n] + (conv[n..] + rest);
    forall m | m in conv[..n] ensures m.role == role {
      var i :| 0 <= i < n && conv[..n][i] == m;
    }
    if n < |conv| {
      assert (conv[n..] + rest)[0] == conv[n];
    } else {
      assert conv[n..] + rest == rest;
      assert role == User || n == 0;
    }
    RunLenIs(conv[..n], conv[n..] + rest, role);
  }

  lemma {:induction false} AllLeftCat(a: seq<Block>, b: seq<Block>)
    requires AllFormed(a) && AllFormed(b)
    ensures AllFormed(a + b) && AllLeft(a + b) == AllLeft(a) + AllLeft(b)
  {
    hide Left, WellFormed, AllLeft;
    if a == [] {
      assert a + b == b;
      NothingAllLeft();
    } else {
      FormedParts(a);
      AllLeftCat(a[1..], b);
      AllLeftCons(a[0], a[1..]);
      AllLeftCons(a[0], a[1..] + b);
      assert a == [a[0]] + a[1..] && a + b == [a[0]] + (a[1..] + b);
      Associates(Left(a[0]), AllLeft(a[1..]), AllLeft(b));
    }
  }

  lemma NothingAllLeft()
    ensures AllFormed([]) && AllLeft([]) == []
  {
  }

  lemma {:induction false} RoundsLeft(rounds: seq<Round>)
    requires Formed(rounds)
    ensures AllFormed(TurnsOf(rounds)) && AllLeft(TurnsOf(rounds)) == Reconciled(rounds)
  {
    hide Reconcile, AllLeft, AllFormed, Formed;
    if rounds == [] {
      NothingAllLeft();
      assert TurnsOf(rounds) == [];
    } else {
      FormedTail(rounds);
      RoundsLeft(rounds[1..]);
      var b := Turn([rounds[0].caller], rounds[0].results);
      assert TurnsOf(rounds) == [b] + TurnsOf(rounds[1..]);
      LeftOfRound(rounds[0]);
      AllLeftCons(b, TurnsOf(rounds[1..]));
    }
  }

  lemma LeftOfRound(r: Round)
    requires FormedRound(r)
    ensures var b := Turn([r.caller], r.results); WellFormed(b) && Left(b) == Reconcile(r.caller, r.results)
  {
    hide Reconcile;
    assert Survivor([r.caller], true) == r.caller;
  }

  /** A repair takes the rounds behind the last user one by one, whatever is in front. */
  lemma RepairTakesRounds(conv: seq<Message>, rounds: seq<Round>)
    requires conv != [] && conv[|conv| - 1].role == User && rounds != [] && Formed(rounds)
    requires forall m :: m in conv ==> Spoken(m)
    ensures RepairedConversation(conv + Spread(rounds)) == RepairedConversation(conv) + Reconciled(rounds)
    ensures var r := RepairedConversation(conv); r != [] && r[|r| - 1].role == User
  {
    hide Blocks, AllLeft, AllFormed, Formed, Sequence, Parity, Spread, FromFirstUser, Reconciled;
    var rest := Spread(rounds);
    SpreadStart(rounds);
    SpreadIsSpoken(rounds);
    var body := FromFirstUser(conv);
    UserIsFound(conv, rest);
    BeforeFirstUser(conv);
    BeforeFirstUser(conv + rest);
    RepairIsAllLeft(body, None);
    RepairIsAllLeft(body + rest, None);
    BlocksBehind(body, rest);
    BlocksOfRounds(rounds);
    RoundsLeft(rounds);
    AllLeftCat(Blocks(body), TurnsOf(rounds));
    EndsAsked(body);
    LeftOfLast(Blocks(body));
  }

  lemma {:induction false} SpreadIsSpoken(rounds: seq<Round>)
    requires Formed(rounds)
    ensures forall m :: m in Spread(rounds) ==> Spoken(m)
  {
    if rounds != [] {
      FormedTail(rounds);
      SpreadIsSpoken(rounds[1..]);
    }
  }

  lemma {:induction false} UserIsFound(conv: seq<Message>, rest: seq<Message>)
    requires conv != [] && conv[|conv| - 1].role == User
    ensures FromFirstUser(conv + rest) == FromFirstUser(conv) + rest
    ensures var r := FromFirstUser(conv); r != [] && r[|r| - 1] == conv[|conv| - 1]
  {
    if conv[0].role != User {
      assert (conv + rest)[1..] == conv[1..] + rest;
      UserIsFound(conv[1..], rest);
    }
  }

  lemma {:induction false} EndsAsked(conv: seq<Message>)
    requires conv != [] && conv[|conv| - 1].role == User
    ensures Blocks(conv) != [] && Blocks(conv)[|Blocks(conv)| - 1].Asked?
    decreases |conv|
  {
    hide Blocks, RunLen;
    BlocksUnfold(conv);
    var role := conv[0].role;
    var n := RunLen(conv, role);
    if role == User {
      if n < |conv| {
        EndsAsked(conv[n..]);
      } else {
        NoBlocksBehind(conv, []);
      }
    } else if role == Assistant {
      RunIsShorter(conv, Assistant);
      RunIsShorter(conv[n..], Tool);
      EndsAsked(conv[n + RunLen(conv[n..], Tool)..]);
    } else if role == Tool {
      RunIsShorter(conv, Tool);
      EndsAsked(conv[n..]);
    } else {
      EndsAsked(conv[1..]);
    }
  }

  lemma LeftOfLast(blocks: seq<Block>)
    requires AllFormed(blocks) && blocks != [] && blocks[|blocks| - 1].Asked?
    ensures AllLeft(blocks) != [] && AllLeft(blocks)[|AllLeft(blocks)| - 1].role == User
  {
    hide AllLeft;
    var front, last := blocks[..|blocks| - 1], blocks[|blocks| - 1];
    assert blocks == front + [last] && last in blocks;
    assert forall b :: b in front ==> b in blocks;
    assert forall b :: b in [last] ==> b == last;
    AllLeftCat(front, [last]);
    AllLeftCons(last, []);
    NothingAllLeft();
    assert [last] + [] == [last];
  }

  // ----- From the request to the provider

  /** Behind the last user it makes no difference where a message stands. */
  ghost function SaneMessage(m: Message, s: Settings): (r: Message)
    requires m.role != User
    ensures ActiveStays(m, r, s)
  {
    OneActive(m, 1, 0, s);
    SanitizedAt(m, 1, 0, s)[0]
  }

  ghost function SaneAll(messages: seq<Message>, s: Settings): (r: seq<Message>)
    requires NoUsers(messages)
    ensures |r| == |messages|
    ensures forall i :: 0 <= i < |r| ==> messages[i].role != User && r[i] == SaneMessage(messages[i], s)
  {
    if messages == [] then []
    else
      assert messages[0] in messages;
      NoUsersIsLate(messages);
      assert messages[1..] == messages[1..];
      [SaneMessage(messages[0], s)] + SaneAll(messages[1..], s)
  }

  lemma ActiveIsSane(m: Message, index: nat, last: int, s: Settings)
    requires index > last && m.role != User
    ensures SanitizedAt(m, index, last, s) == [SaneMessage(m, s)]
  {
    hide IsStaleUpload, ActiveToolMessage;
    OneActive(m, index, last, s);
  }

  /** A stretch of the active turn, message by message. */
  lemma {:induction false} SaneStretch(messages: seq<Message>, from: nat, to: nat, s: Settings)
    requires LastUser(messages) < from <= to <= |messages|
    ensures NoUsers(messages[from..to])
    ensures Sanitized(messages, from, LastUser(messages), s)
         == SaneAll(messages[from..to], s) + Sanitized(messages, to, LastUser(messages), s)
    decreases |messages| - from
  {
    hide SanitizedAt, LastUser, SaneMessage;
    ActiveHasNoUsers(messages, from, to);
    if from == to {
      assert messages[from..to] == [];
      var rest := Sanitized(messages, to, LastUser(messages), s);
      assert SaneAll([], s) + rest == rest;
    } else {
      NoUserBehind(messages, from);
      ActiveIsSane(messages[from], from, LastUser(messages), s);
      SaneStretch(messages, from + 1, to, s);
      assert messages[from..to][0] == messages[from] && messages[from..to][1..] == messages[from + 1..to];
      Associates([SaneMessage(messages[from], s)], SaneAll(messages[from + 1..to], s),
                 Sanitized(messages, to, LastUser(messages), s));
    }
  }

  lemma ActiveHasNoUsers(messages: seq<Message>, from: nat, to: nat)
    requires LastUser(messages) < from <= to <= |messages|
    ensures NoUsers(messages[from..to])
  {
    forall m | m in messages[from..to] ensures m.role != User {
      var i :| 0 <= i < to - from && messages[from..to][i] == m;
      NoUserBehind(messages, from + i);
    }
  }

  /** What a complete round becomes when it is sanitized. */
  ghost function SaneRound(r: Round, s: Settings): Round
    requires CompleteRound(r)
  {
    ToolsAreNoUsers(r.results);
    Round(SaneMessage(r.caller, s), SaneAll(r.results, s))
  }

  lemma ToolsAreNoUsers(results: seq<Message>)
    requires forall t :: t in results ==> IsToolRole(t.role)
    ensures NoUsers(results)
  {
  }

  ghost predicate AllComplete(rounds: seq<Round>) {
    forall r :: r in rounds ==> CompleteRound(r)
  }

  lemma CompleteTail(rounds: seq<Round>)
    requires AllComplete(rounds) && rounds != []
    ensures CompleteRound(rounds[0]) && AllComplete(rounds[1..])
  {
    assert rounds[0] in rounds && forall r :: r in rounds[1..] ==> r in rounds;
  }

  ghost function SaneRounds(rounds: seq<Round>, s: Settings): (r: seq<Round>)
    requires AllComplete(rounds)
    ensures |r| == |rounds|
  {
    if rounds == [] then []
    else
      CompleteTail(rounds);
      [SaneRound(rounds[0], s)] + SaneRounds(rounds[1..], s)
  }

  lemma {:induction false} SaneSpread(messages: seq<Message>, from: nat, rounds: seq<Round>, s: Settings)
    requires LastUser(messages) < from <= |messages| && AllComplete(rounds)
    requires messages[from..] == Spread(rounds)
    ensures Sanitized(messages, from, LastUser(messages), s) == Spread(SaneRounds(rounds, s))
    decreases |rounds|
  {
    hide SanitizedAt, LastUser, SaneMessage, AllComplete, SaneAll, NoUsers, CompleteRound;
    if rounds == [] {
      assert |messages[from..]| == 0;
    } else {
      CompleteTail(rounds);
      var r := rounds[0];
      var to := from + 1 + |r.results|;
      RoundInPlace(messages, from, r, Spread(rounds[1..]));
      SaneStretch(messages, from, from + 1, s);
      SaneStretch(messages, from + 1, to, s);
      SaneSpread(messages, to, rounds[1..], s);
      OneSane(r.caller, s);
      Associates([SaneMessage(r.caller, s)], SaneAll(r.results, s), Spread(SaneRounds(rounds[1..], s)));
    }
  }

  lemma OneSane(m: Message, s: Settings)
    requires m.role != User
    ensures NoUsers([m]) && SaneAll([m], s) == [SaneMessage(m, s)]
  {
    hide SaneMessage;
    assert [m][1..] == [];
  }

  lemma RoundInPlace(messages: seq<Message>, from: nat, r: Round, rest: seq<Message>)
    requires from <= |messages| && messages[from..] == [r.caller] + r.results + rest
    requires CompleteRound(r)
    ensures var to := from + 1 + |r.results|;
      && to <= |messages| && messages[from..from + 1] == [r.caller] && messages[from + 1..to] == r.results
      && messages[to..] == rest && r.caller.role != User && NoUsers(r.results)
  {
    hide AllAnswered;
    var n := |r.results|;
    assert |messages[from..]| == 1 + n + |rest|;
    SliceOfTail(messages, from, from, from + 1);
    SliceOfTail(messages, from, from + 1, from + 1 + n);
    SliceOfTail(messages, from, from + 1 + n, |messages|);
    assert messages[from..][0..1] == [r.caller];
    assert messages[from..][1..1 + n] == r.results;
    assert messages[from..][1 + n..] == rest;
    ToolsAreNoUsers(r.results);
  }

  /** The call has its first result in the same place of both lists. */
  ghost predicate SameResult(c: ToolCall, a: seq<Message>, b: seq<Message>) {
    && CallId(c).Some? && HasResult(a, CallId(c).value) && HasResult(b, CallId(c).value)
    && FirstResult(a, CallId(c).value) == FirstResult(b, CallId(c).value)
  }

  /** A sanitized round is as complete as before, and the same results are first. */
  lemma SaneRoundIsComplete(r: Round, s: Settings)
    requires CompleteRound(r)
    ensures var k := SaneRound(r, s);
      && FormedRound(k) && CallsOf(k.caller) == CallsOf(r.caller) && TextOf(k.caller) == TextOf(r.caller)
      && |k.results| == |r.results| && AllAnswered(CallsOf(r.caller), k.results)
      && (forall i :: 0 <= i < |r.results| ==> ActiveStays(r.results[i], k.results[i], s))
      && forall c :: c in CallsOf(r.caller) ==> SameResult(c, r.results, k.results)
  {
    hide Shows, CallId, FirstResult, HasResult, SaneMessage, ActiveStays;
    ToolsAreNoUsers(r.results);
    var k := SaneRound(r, s);
    var calls := CallsOf(r.caller);
    CallerStays(r.caller, k.caller, s);
    SaneResults(r, s);
    assert calls[0] in calls;
    NotWithoutResults(r.results, CallId(calls[0]).value);
    SameAnswers(calls, r.results, k.results);
  }

  lemma SaneResults(r: Round, s: Settings)
    requires CompleteRound(r)
    ensures var k := SaneRound(r, s);
      |k.results| == |r.results| && forall i :: 0 <= i < |r.results| ==>
        k.results[i].role == Tool && ResultId(k.results[i]) == ResultId(r.results[i])
        && ActiveStays(r.results[i], k.results[i], s)
  {
    hide Shows, CallId, FirstResult, HasResult, SaneMessage, AllAnswered, ResultId;
    ToolsAreNoUsers(r.results);
    var k := SaneRound(r, s);
    forall i | 0 <= i < |r.results|
      ensures k.results[i].role == Tool && ResultId(k.results[i]) == ResultId(r.results[i])
      ensures ActiveStays(r.results[i], k.results[i], s)
    {
      assert r.results[i] in r.results;
      SameId(r.results[i], k.results[i], s);
    }
  }

  lemma SameAnswers(calls: seq<ToolCall>, a: seq<Message>, b: seq<Message>)
    requires AllAnswered(calls, a) && |a| == |b| && forall i :: 0 <= i < |a| ==> ResultId(b[i]) == ResultId(a[i])
    ensures AllAnswered(calls, b) && forall c :: c in calls ==> SameResult(c, a, b)
  {
    hide CallId, ResultId, FirstResult, HasResult;
    forall c | c in calls ensures CallId(c).Some? && HasResult(b, CallId(c).value) && SameResult(c, a, b) {
      var i :| 0 <= i < |calls| && calls[i] == c;
      SameFirst(a, b, CallId(c).value);
    }
    forall i | 0 <= i < |calls| ensures CallId(calls[i]).Some? && HasResult(b, CallId(calls[i]).value) {
      assert calls[i] in calls;
    }
  }

  lemma CallerStays(m: Message, r: Message, s: Settings)
    requires m.role == Assistant && CallsOf(m) != [] && ActiveStays(m, r, s)
    ensures r.role == Assistant && CallsOf(r) == CallsOf(m) && TextOf(r) == TextOf(m)
  {
    hide Shows;
  }

  lemma NotWithoutResults(results: seq<Message>, id: string)
    requires HasResult(results, id)
    ensures results != []
  {
  }

  lemma SameId(m: Message, r: Message, s: Settings)
    requires IsToolRole(m.role) && ActiveStays(m, r, s)
    ensures r.role == Tool && ResultId(r) == ResultId(m)
  {
    hide Shows;
    EmptyStrip();
  }

  lemma SameFirst(a: seq<Message>, b: seq<Message>, id: string)
    requires |a| == |b| && forall i :: 0 <= i < |a| ==> ResultId(b[i]) == ResultId(a[i])
    requires HasResult(a, id)
    ensures HasResult(b, id) && FirstResult(b, id) == FirstResult(a, id)
  {
    hide ResultId;
    var k := FirstResult(a, id);
    assert b[k] in b;
    hide HasResult, FirstResult;
    var j := FirstResult(b, id);
    assert ResultId(b[k]) == Some(id) && ResultId(a[j]) == Some(id);
  }

  /** What is left of a round: the caller with all its calls, and their results in call order. */
  ghost predicate RoundKept(r: Round, kept: Round, s: Settings)
    requires CompleteRound(r)
  {
    var calls := CallsOf(r.caller);
    && kept.caller.role == Assistant && CallsOf(kept.caller) == calls && TextOf(kept.caller) == TextOf(r.caller)
    && |kept.results| == |calls|
    && forall i :: 0 <= i < |calls| ==>
         ResultId(kept.results[i]) == CallId(calls[i])
         && ActiveStays(r.results[FirstResult(r.results, CallId(calls[i]).value)], kept.results[i], s)
  }

  ghost function KeptRound(r: Round, s: Settings): Round
    requires CompleteRound(r)
  {
    SaneRoundIsComplete(r, s);
    Round(SaneRound(r, s).caller, Chosen(CallsOf(r.caller), SaneRound(r, s).results))
  }

  lemma KeptRoundIsKept(r: Round, s: Settings)
    requires CompleteRound(r)
    ensures var kept := KeptRound(r, s);
      && RoundKept(r, kept, s) && FormedRound(kept) && Answered(kept.caller, kept.results)
      && Reconcile(SaneRound(r, s).caller, SaneRound(r, s).results) == [kept.caller] + kept.results
  {
    hide ActiveStays, CallId, ResultId, SaneRound, HasResult, FirstResult, Reconcile, AllAnswered;
    SaneRoundIsComplete(r, s);
    var sane, kept, calls := SaneRound(r, s), KeptRound(r, s), CallsOf(r.caller);
    CompleteIsKept(sane.caller, sane.results);
    forall i | 0 <= i < |calls| ensures SameResult(calls[i], r.results, sane.results) {
      assert calls[i] in calls;
    }
    forall i | 0 <= i < |calls|
      ensures ResultId(kept.results[i]) == CallId(calls[i]) && kept.results[i] in sane.results
        && ActiveStays(r.results[FirstResult(r.results, CallId(calls[i]).value)], kept.results[i], s)
    {
      assert SameResult(calls[i], r.results, sane.results);
      assert kept.results[i] == sane.results[FirstResult(sane.results, CallId(calls[i]).value)];
    }
  }

  ghost function KeptRounds(rounds: seq<Round>, s: Settings): (r: seq<Round>)
    requires AllComplete(rounds)
    ensures |r| == |rounds|
  {
    if rounds == [] then []
    else
      CompleteTail(rounds);
      [KeptRound(rounds[0], s)] + KeptRounds(rounds[1..], s)
  }

  /** Every round is kept, in its place. */
  ghost predicate RoundsKept(rounds: seq<Round>, kept: seq<Round>, s: Settings)
    requires AllComplete(rounds)
  {
    |kept| == |rounds| && forall i :: 0 <= i < |rounds| ==> CompleteRound(rounds[i]) && RoundKept(rounds[i], kept[i], s)
  }

  /** Rounds that are answered one to one. */
  ghost predicate Settled(rounds: seq<Round>) {
    Formed(rounds) && forall r :: r in rounds ==> Answered(r.caller, r.results)
  }

  lemma {:induction false} RoundsAreKept(rounds: seq<Round>, s: Settings)
    requires AllComplete(rounds)
    ensures var kept := KeptRounds(rounds, s);
      && Settled(kept) && Formed(SaneRounds(rounds, s)) && Reconciled(SaneRounds(rounds, s)) == Spread(kept)
      && RoundsKept(rounds, kept, s)
  {
    hide RoundKept, KeptRound, SaneRound, Reconcile, Answered, FormedRound, CompleteRound;
    if rounds != [] {
      CompleteTail(rounds);
      RoundsAreKept(rounds[1..], s);
      KeptRoundIsKept(rounds[0], s);
      SaneIsFormed(rounds[0], s);
      forall i | 0 <= i < |rounds|
        ensures CompleteRound(rounds[i]) && RoundKept(rounds[i], KeptRounds(rounds, s)[i], s)
      {
        if i > 0 {
          assert rounds[i] == rounds[1..][i - 1];
        }
      }
    }
  }

  lemma SaneIsFormed(r: Round, s: Settings)
    requires CompleteRound(r)
    ensures FormedRound(SaneRound(r, s))
  {
    hide *;
    SaneRoundIsComplete(r, s);
  }

  lemma {:induction false} SettledStays(rounds: seq<Round>)
    requires Settled(rounds)
    ensures Reconciled(rounds) == Spread(rounds)
  {
    hide Reconcile, Answered;
    if rounds != [] {
      assert rounds[0] in rounds && forall r :: r in rounds[1..] ==> r in rounds;
      SettledStays(rounds[1..]);
      AnsweredIsStable(rounds[0].caller, rounds[0].results);
    }
  }

  /** A front that ends in a user, and the rounds behind it. */
  ghost predicate EndsWithRounds(conv: seq<Message>, rounds: seq<Round>) {
    exists front :: Fronted(conv, front, rounds)
  }

  ghost predicate Fronted(conv: seq<Message>, front: seq<Message>, rounds: seq<Round>) {
    conv == front + Spread(rounds) && front != [] && front[|front| - 1].role == User
  }

  lemma PreparedTurn(messages: seq<Message>, rounds: seq<Round>, s: Settings)
    requires LastUser(messages) >= 0 && rounds != [] && AllComplete(rounds)
    requires messages[LastUser(messages) + 1..] == Spread(rounds)
    ensures EndsWithRounds(Conversation(Prepared(messages, s)), KeptRounds(rounds, s))
  {
    hide Conversation, Prepared, RepairedConversation, SaneRounds, KeptRounds, AllComplete, Spread, Sanitized, LastUser,
         Formed, Settled, Reconciled, RoundKept;
    var last := LastUser(messages);
    LastUserIs(messages);
    LastIsUser(messages);
    var sane := SaneRounds(rounds, s);
    var front := SanitizedFront(messages, 0, last, s);
    LastPart(messages, s);
    SaneSpread(messages, last + 1, rounds, s);
    RoundsAreKept(rounds, s);
    SpreadIsSpoken(sane);
    PairedHasNoSystem(Spread(sane));
    var pre := Conversation(front) + [messages[last]];
    assert front + ([messages[last]] + Spread(sane)) == (front + [messages[last]]) + Spread(sane);
    ConversationCat(front + [messages[last]], Spread(sane));
    ConversationCat(front, [messages[last]]);
    OneSpoken(messages[last]);
    RepairTakesRounds(pre, sane);
    PreparedIsRepaired(messages, s);
    assert Fronted(Conversation(Prepared(messages, s)), RepairedConversation(pre), KeptRounds(rounds, s));
  }

  lemma OneSpoken(m: Message)
    requires Spoken(m)
    ensures Conversation([m]) == [m]
  {
    assert [m][1..] == [];
  }

  lemma {:induction false} SanitizedFront(messages: seq<Message>, from: nat, to: nat, s: Settings)
    returns (front: seq<Message>)
    requires from <= to <= |messages|
    ensures Sanitized(messages, from, LastUser(messages), s) == front + Sanitized(messages, to, LastUser(messages), s)
    decreases |messages| - from
  {
    hide SanitizedAt, LastUser;
    if from == to {
      front := [];
    } else {
      var rest := SanitizedFront(messages, from + 1, to, s);
      var here := SanitizedAt(messages[from], from, LastUser(messages), s);
      front := here + rest;
      Associates(here, rest, Sanitized(messages, to, LastUser(messages), s));
    }
  }

  lemma LastPart(messages: seq<Message>, s: Settings)
    requires LastUser(messages) >= 0
    ensures var last := LastUser(messages);
      Sanitized(messages, last, last, s) == [messages[last]] + Sanitized(messages, last + 1, last, s)
  {
    hide SanitizedAt;
    LastStays(messages[LastUser(messages)], LastUser(messages), s);
  }

  lemma SpreadEnds(rounds: seq<Round>)
    requires Formed(rounds) && rounds != []
    ensures Spread(rounds) != [] && Spread(rounds)[|Spread(rounds)| - 1].role == Tool
  {
    FormedTail(rounds);
    var r := rounds[0];
    assert r.results[|r.results| - 1] in r.results;
    if |rounds| > 1 {
      SpreadEnds(rounds[1..]);
    }
  }

  lemma {:induction false} SpreadHasNoUsers(rounds: seq<Round>)
    requires Formed(rounds)
    ensures NoUsers(Spread(rounds))
  {
    if rounds != [] {
      FormedTail(rounds);
      SpreadHasNoUsers(rounds[1..]);
    }
  }

  /** The budget step keeps the rounds behind the last user, cut or not. */
  lemma BudgetedTurn(first: seq<Message>, conv: seq<Message>, rounds: seq<Round>, s: Settings)
    requires Headed(first, conv) && Orderly(conv) && EndsSafely(conv)
    requires rounds != [] && Settled(rounds) && EndsWithRounds(conv, rounds)
    ensures EndsWithRounds(Conversation(Budgeted(first, s)), rounds)
  {
    hide *;
    var cut := HistoryCut(first, s);
    BudgetedIsSafe(first, conv, s);
    HeadedHasUser(first, conv);
    if cut < 0 {
      OrderlyReads(first, conv);
      RepairReads(first);
      RepairedTurn(conv, conv, rounds);
    } else {
      CutIsExact(first, s);
      var from := NextUser(first, cut + 1);
      NextUserIsUser(first, cut + 1);
      DropIsOrderly(first, conv, from);
      var blocked := WithSystemBlock(DropHistory(first, from), HISTORY_OMITTED);
      SystemBlockKeeps(DropHistory(first, from), HISTORY_OMITTED);
      RepairReads(blocked);
      SuffixTurn(first, conv, from, rounds);
      RepairedTurn(Conversation(DropHistory(first, from)), first[from..], rounds);
    }
  }

  lemma RepairedTurn(out: seq<Message>, conv: seq<Message>, rounds: seq<Round>)
    requires rounds != [] && Settled(rounds) && EndsWithRounds(conv, rounds)
    requires Orderly(conv) && RepairedConversation(out) == RepairedConversation(conv)
    ensures EndsWithRounds(RepairedConversation(out), rounds)
  {
    hide RepairedConversation, Formed, Spread, Reconciled, Paired, NoUserAfterTool;
    var front :| Fronted(conv, front, rounds);
    PairedIsSpoken(conv);
    assert forall m :: m in front ==> m in conv;
    RepairTakesRounds(front, rounds);
    SettledStays(rounds);
    assert Fronted(RepairedConversation(out), RepairedConversation(front), rounds);
  }

  lemma UserIsInFront(front: seq<Message>, rest: seq<Message>, n: nat)
    requires NoUsers(rest) && n < |front + rest| && (front + rest)[n].role == User
    ensures n < |front|
  {
    forall k | |front| <= k < |front + rest| ensures (front + rest)[k].role != User {
      assert (front + rest)[k] == rest[k - |front|] && rest[k - |front|] in rest;
    }
  }

  lemma SuffixTurn(first: seq<Message>, conv: seq<Message>, from: nat, rounds: seq<Round>)
    requires Headed(first, conv) && Settled(rounds) && rounds != [] && EndsWithRounds(conv, rounds)
    requires from < |first| && first[from].role == User
    ensures EndsWithRounds(first[from..], rounds)
  {
    hide Formed, Spread, Answered;
    var front :| Fronted(conv, front, rounds);
    SpreadHasNoUsers(rounds);
    var n := if first == conv then from else from - 1;
    assert first[from..] == conv[n..] && conv[n].role == User;
    UserIsInFront(front, Spread(rounds), n);
    TailOfCat(front, Spread(rounds), n);
    assert Fronted(conv[n..], front[n..], rounds);
  }

  /**
   * End to end: when the turn behind the last user is rounds of calls with ids of their own, each answered behind it,
   * the provider gets every one of these calls with its own result, in call order, whatever the budget drops.
   */
  lemma ActiveTurnSurvives(messages: seq<Message>, rounds: seq<Round>, s: Settings)
    requires LastUser(messages) >= 0 && rounds != [] && AllComplete(rounds)
    requires messages[LastUser(messages) + 1..] == Spread(rounds)
    ensures exists kept ::
      RoundsKept(rounds, kept, s) && EndsWithRounds(Conversation(Assembled(messages, s)), kept)
  {
    hide *;
    var kept := KeptRounds(rounds, s);
    var first := Prepared(messages, s);
    var conv := Conversation(first);
    RoundsAreKept(rounds, s);
    PreparedTurn(messages, rounds, s);
    PreparedIsOrderly(messages, s);
    EndsWithResult(conv, kept);
    TailIsOrderly(first, conv);
    HeadedHasUser(first, conv);
    AssembledIs(messages, s);
    if s.applyHistoryBudget {
      BudgetedTurn(first, conv, kept, s);
    }
  }

  lemma EndsWithResult(conv: seq<Message>, rounds: seq<Round>)
    requires rounds != [] && Settled(rounds) && EndsWithRounds(conv, rounds)
    ensures EndsSafely(conv)
  {
    hide Formed, Spread;
    SpreadEnds(rounds);
  }
}
