/**
 * When one repair pass is enough, read off the conversation that goes in
 * (deploy/litellm/klai_context.py, the guards at lines 873 and 1027).
 */
module RepairBlocks {
  import opened Strings
  import opened ToolBlocks
  import opened MessageRepair

  /** A run of users, or a run of assistants with the run of results behind it. */
  datatype Block = Asked(users: seq<Message>) | Turn(assistants: seq<Message>, results: seq<Message>)

  /** The runs of a conversation from its first user on; results behind a user belong to no block. */
  function Blocks(conv: seq<Message>): seq<Block>
    decreases |conv|, 1
  {
    if conv == [] then [] else BlocksAt(conv, RunLen(conv, conv[0].role))
  }

  /** The block that the first `n` messages begin, and those behind it. */
  function BlocksAt(conv: seq<Message>, n: nat): seq<Block>
    requires conv != [] && n == RunLen(conv, conv[0].role)
    decreases |conv|, 0
  {
    match conv[0].role
    case User => [Asked(conv[..n])] + Blocks(conv[n..])
    case Assistant =>
      var m := RunLen(conv[n..], Tool);
      [Turn(conv[..n], conv[n..n + m])] + Blocks(conv[n + m..])
    case Tool => Blocks(conv[n..])
    case _ => Blocks(conv[1..])
  }

  function FromFirstUser(conv: seq<Message>): (r: seq<Message>)
    ensures StartsWithUser(r)
  {
    if conv == [] || conv[0].role == User then conv else FromFirstUser(conv[1..])
  }

  /** Some call has a result among these: one with its id, or any at all when it has none. */
  predicate SomeCallFits(calls: seq<ToolCall>, results: seq<Message>) {
    exists c :: c in calls && exists t :: t in results && (CallId(c).Some? ==> ResultId(t) == CallId(c))
  }

  /** The assistant whose calls count: the last one with calls when results follow, else the last one. */
  function Speaker(b: Block): Message
    requires b.Turn? && b.assistants != []
  {
    Survivor(b.assistants, b.results != [])
  }

  predicate WellFormed(b: Block) {
    match b
    case Asked(users) => users != [] && forall m :: m in users ==> m.role == User
    case Turn(assistants, results) =>
      && assistants != [] && (forall m :: m in assistants ==> m.role == Assistant)
      && forall m :: m in results ==> m.role == Tool
  }

  /** No call of the turn can be answered and nothing was said: the turn goes. */
  predicate Vanishes(b: Block)
    requires WellFormed(b)
  {
    && b.Turn? && CallsOf(Speaker(b)) != [] && !SomeCallFits(CallsOf(Speaker(b)), b.results)
    && Strip(TextOf(Speaker(b))) == ""
  }

  /** The turn stays without any result: it has no calls, or none that can be answered, but says something. */
  predicate StandsBare(b: Block)
    requires WellFormed(b)
  {
    && b.Turn? && !SomeCallFits(CallsOf(Speaker(b)), b.results)
    && (CallsOf(Speaker(b)) == [] || Strip(TextOf(Speaker(b))) != "")
  }

  /** Two blocks that may not end up next to each other. */
  predicate Touch(a: Block, b: Block)
    requires WellFormed(a) && WellFormed(b)
  {
    (a.Asked? && b.Asked?) || (StandsBare(a) && b.Turn? && !Vanishes(b))
  }

  ghost predicate AllFormed(blocks: seq<Block>) {
    forall b :: b in blocks ==> WellFormed(b)
  }

  /** Two blocks that may not meet, with nothing left between them. */
  ghost predicate Clash(blocks: seq<Block>)
    requires AllFormed(blocks)
  {
    exists i, j :: ClashAt(blocks, i, j)
  }

  ghost predicate ClashAt(blocks: seq<Block>, i: int, j: int)
    requires AllFormed(blocks)
  {
    && 0 <= i < j < |blocks| && Touch(blocks[i], blocks[j])
    && forall k :: i < k < j ==> Vanishes(blocks[k])
  }

  // ----- What the repair makes of the blocks

  function Left(b: Block): seq<Message>
    requires WellFormed(b)
  {
    match b
    case Asked(users) => [MergeUsers(users)]
    case Turn(_, results) => Reconcile(Speaker(b), results)
  }

  function AllLeft(blocks: seq<Block>): seq<Message>
    requires forall b :: b in blocks ==> WellFormed(b)
  {
    if blocks == [] then [] else Left(blocks[0]) + AllLeft(blocks[1..])
  }

  lemma {:induction false} BlocksAreFormed(conv: seq<Message>)
    ensures AllFormed(Blocks(conv))
    decreases |conv|
  {
    hide Vanishes, StandsBare, WellFormed, Blocks, RunLen;
    BlocksUnfold(conv);
    if conv != [] {
      var n := RunLen(conv, conv[0].role);
      match conv[0].role
      case User =>
        BlocksAreFormed(conv[n..]);
        UsersAreFormed(conv, n);
      case Assistant =>
        var m := RunLen(conv[n..], Tool);
        BlocksAreFormed(conv[n + m..]);
        TurnIsFormed(conv, n, m);
      case Tool => BlocksAreFormed(conv[n..]);
      case _ => BlocksAreFormed(conv[1..]);
    }
  }

  lemma UsersAreFormed(conv: seq<Message>, n: nat)
    requires 0 < n <= |conv| && forall i :: 0 <= i < n ==> conv[i].role == User
    ensures WellFormed(Asked(conv[..n]))
  {
  }

  lemma TurnIsFormed(conv: seq<Message>, n: nat, m: nat)
    requires 0 < n <= n + m <= |conv| && forall i :: 0 <= i < n ==> conv[i].role == Assistant
    requires forall i :: 0 <= i < m ==> conv[n..][i].role == Tool
    ensures WellFormed(Turn(conv[..n], conv[n..n + m]))
  {
    forall i | n <= i < n + m ensures conv[i].role == Tool {
      assert conv[i] == conv[n..][i - n];
    }
  }

  lemma BlocksUnfold(conv: seq<Message>)
    ensures conv == [] ==> Blocks(conv) == []
    ensures conv != [] ==> RunLen(conv, conv[0].role) > 0 && Blocks(conv) == BlocksAt(conv, RunLen(conv, conv[0].role))
  {
    hide BlocksAt;
  }

  /** Matching finds something exactly when some call fits. */
  lemma MatchesWhenFits(calls: seq<ToolCall>, tools: seq<Message>)
    ensures Matched(calls, tools).calls != [] <==> SomeCallFits(calls, tools)
  {
    hide CallId, ResultId, Match;
    var m := Matched(calls, tools);
    MatchIsSound(calls, tools, Unused(tools), 0);
    MatchIsComplete(calls, tools, Unused(tools), 0);
    if m.calls != [] {
      assert m.calls[0] in multiset(m.calls) && m.calls[0] in calls;
      assert tools[m.picks[0]] in tools;
    } else {
      forall c, t | c in calls && t in tools ensures CallId(c).Some? && ResultId(t) != CallId(c) {
        var k :| 0 <= k < |tools| && tools[k] == t;
        assert c in Dropped(calls, m) && NoneFits(c, m, tools);
        assert !m.used[k];
      }
    }
  }

  /** What is left of a turn: nothing, the assistant alone, or the assistant with results. */
  lemma TurnShape(b: Block)
    requires WellFormed(b) && b.Turn?
    ensures Vanishes(b) <==> Left(b) == []
    ensures StandsBare(b) <==> |Left(b)| == 1
    ensures Left(b) != [] ==> Left(b)[0].role == Assistant && forall k :: 1 <= k < |Left(b)| ==> Left(b)[k].role == Tool
  {
    var a := Speaker(b);
    var calls := CallsOf(a);
    assert a in b.assistants;
    hide CallId, ResultId, Match, Strip, Survivor;
    MatchesWhenFits(calls, b.results);
    MatchedFits(calls, b.results);
    ReconcileAnswers(a, b.results);
    hide SomeCallFits, Answered;
    if calls == [] {
      NothingFits(b.results);
    }
  }

  lemma NothingFits(results: seq<Message>)
    ensures !SomeCallFits([], results)
  {
  }

  lemma {:induction false} SequenceStart(conv: seq<Message>, last: Option<Role>)
    requires !Begins(conv, Tool) && (Begins(conv, Assistant) ==> last == Some(User) || last == Some(Tool))
    requires forall m :: m in conv ==> Spoken(m)
    ensures !Begins(Sequence(conv, last), Tool)
  {
    hide Sequence, MergeUsers, Survivor, RunLen;
    if conv == [] {
      EmptyIsNormal(last);
    } else {
      assert conv[0] in conv;
      if conv[0].role == User {
        UsersUnfold(conv, last);
      } else {
        AssistantsUnfold(conv, last);
        SurvivorIn(conv, RunLen(conv, Assistant), Begins(conv[RunLen(conv, Assistant)..], Tool));
      }
    }
  }

  lemma SurvivorIn(conv: seq<Message>, n: nat, prefer: bool)
    requires 0 < n <= |conv| && forall i :: 0 <= i < n ==> conv[i].role == Assistant
    ensures Survivor(conv[..n], prefer).role == Assistant
  {
  }

  /** The parity step takes an assistant with the results behind it, and goes on behind them. */
  lemma ParityOfTurn(a: Message, tools: seq<Message>, rest: seq<Message>)
    requires a.role == Assistant && (forall t :: t in tools ==> t.role == Tool) && !Begins(rest, Tool)
    ensures Parity([a] + tools + rest) == Reconcile(a, tools) + Parity(rest)
  {
    hide Parity, Reconcile, RunLen;
    var conv := [a] + tools + rest;
    assert conv[0..] == conv && conv[1..] == tools + rest;
    ParityUnfold(conv, 0);
    RunLenIs(tools, rest, Tool);
    assert conv[1..1 + |tools|] == tools && conv[1 + |tools|..] == rest;
  }

  lemma ParityOfUser(u: Message, rest: seq<Message>)
    requires u.role == User
    ensures Parity([u] + rest) == [u] + Parity(rest)
  {
    assert ([u] + rest)[1..] == rest;
  }

  lemma AllLeftCons(b: Block, rest: seq<Block>)
    requires WellFormed(b) && AllFormed(rest)
    ensures AllFormed([b] + rest) && AllLeft([b] + rest) == Left(b) + AllLeft(rest)
  {
    hide WellFormed, Left;
    assert ([b] + rest)[1..] == rest;
  }

  /** A role behind which nothing but results of its own can be dropped. */
  predicate Ready(conv: seq<Message>, last: Option<Role>) {
    && (Begins(conv, Assistant) ==> last == Some(User) || last == Some(Tool))
    && (Begins(conv, Tool) ==> last == Some(User))
  }

  /** The repair keeps block after block what each leaves. */
  lemma {:induction false} RepairIsAllLeft(conv: seq<Message>, last: Option<Role>)
    requires (forall m :: m in conv ==> Spoken(m)) && Ready(conv, last)
    ensures AllFormed(Blocks(conv)) && Parity(Sequence(conv, last)) == AllLeft(Blocks(conv))
    decreases |conv|
  {
    hide Sequence, Parity, MergeUsers, Survivor, RunLen, Reconcile, Blocks, AllLeft, CallsOf, WellFormed, AllFormed,
         Left;
    BlocksAreFormed(conv);
    if conv == [] {
      NoBlocks(last);
    } else {
      assert conv[0] in conv;
      BlocksUnfold(conv);
      var n := RunLen(conv, conv[0].role);
      var rest := conv[n..];
      match conv[0].role
      case User =>
        RunsLeft(conv, Asked(conv[..n]));
        UsersUnfold(conv, last);
        RepairIsAllLeft(rest, Some(User));
        ParityOfUser(MergeUsers(conv[..n]), Sequence(rest, Some(User)));
        AllLeftCons(Asked(conv[..n]), Blocks(rest));
      case Tool =>
        ToolsUnfold(conv, last);
        RepairIsAllLeft(rest, last);
      case Assistant =>
        TurnIsLeft(conv, last);
    }
  }

  lemma NoBlocks(last: Option<Role>)
    ensures Parity(Sequence([], last)) == AllLeft(Blocks([]))
  {
  }

  lemma RunsLeft(conv: seq<Message>, b: Block)
    requires conv != [] && conv[0].role == User && b == Asked(conv[..RunLen(conv, User)])
    ensures WellFormed(b) && Left(b) == [MergeUsers(b.users)]
  {
    RunLenTail(conv, User);
  }

  lemma {:induction false} TurnIsLeft(conv: seq<Message>, last: Option<Role>)
    requires (forall m :: m in conv ==> Spoken(m)) && Ready(conv, last) && Begins(conv, Assistant)
    ensures AllFormed(Blocks(conv)) && Parity(Sequence(conv, last)) == AllLeft(Blocks(conv))
    decreases |conv|, 0
  {
    hide Sequence, Parity, MergeUsers, Survivor, RunLen, Reconcile, Blocks, AllLeft, CallsOf, AllFormed;
    var n := RunLen(conv, Assistant);
    BlocksAreFormed(conv);
    BlocksUnfold(conv);
    var m := RunLen(conv[n..], Tool);
    var tools, rest := conv[n..n + m], conv[n + m..];
    var next := if m == 0 then Some(Assistant) else Some(Tool);
    assert forall x :: x in tools ==> x in conv[n..][..m];
    assert rest == conv[n..][m..];
    assert m == 0 ==> rest == conv[n..];
    RepairIsAllLeft(rest, next);
    SequenceStart(rest, next);
    SurvivorIn(conv, n, m > 0);
    TurnUnfolds(conv, last, n, m);
    var b := Turn(conv[..n], tools);
    AllLeftCons(b, Blocks(rest));
    ParityOfTurn(Speaker(b), tools, Sequence(rest, next));
  }

  // ----- Alternation of what is left

  /** The first block that leaves something. */
  function FirstLeft(blocks: seq<Block>): (f: nat)
    requires AllFormed(blocks)
    ensures f <= |blocks| && (f < |blocks| ==> !Vanishes(blocks[f]))
    ensures forall k :: 0 <= k < f ==> Vanishes(blocks[k])
  {
    if blocks == [] || !Vanishes(blocks[0]) then 0
    else
      assert forall b :: b in blocks[1..] ==> b in blocks;
      1 + FirstLeft(blocks[1..])
  }

  lemma {:induction false} FirstRole(blocks: seq<Block>)
    requires AllFormed(blocks)
    ensures var f := FirstLeft(blocks);
      && (f == |blocks| <==> AllLeft(blocks) == [])
      && (f < |blocks| ==> AllLeft(blocks)[0].role == if blocks[f].Asked? then User else Assistant)
  {
    hide Vanishes, StandsBare, WellFormed, Left;
    if blocks != [] {
      assert blocks[0] in blocks && forall b :: b in blocks[1..] ==> b in blocks;
      FirstRole(blocks[1..]);
      BlockShape(blocks[0]);
    }
  }

  function LastRole(b: Block): Role
    requires WellFormed(b)
  {
    if b.Asked? then User else if StandsBare(b) then Assistant else Tool
  }

  /** The ends of what one block leaves. */
  lemma BlockShape(b: Block)
    requires WellFormed(b)
    ensures (Vanishes(b) <==> Left(b) == []) && (b.Asked? ==> Left(b) != [])
    ensures Left(b) != [] ==> Left(b)[0].role == if b.Asked? then User else Assistant
    ensures Left(b) != [] ==> Left(b)[|Left(b)| - 1].role == LastRole(b)
    ensures Alternating(Left(b))
    ensures StandsBare(b) ==> b.Turn? && Left(b) != []
  {
    if b.Turn? {
      TurnShape(b);
    }
    hide Vanishes, StandsBare, Left;
  }

  lemma ClashStep(b: Block, rest: seq<Block>)
    requires WellFormed(b) && AllFormed(rest)
    ensures AllFormed([b] + rest)
    ensures Clash([b] + rest) <==> (Clash(rest) || TouchesFirst(b, rest))
  {
    hide Vanishes, StandsBare, WellFormed, FirstLeft, Touch, ClashAt, TouchesFirst;
    var all := [b] + rest;
    if Clash(all) {
      var i, j :| ClashAt(all, i, j);
      ClashGoesDown(b, rest, i, j);
    }
    if Clash(rest) {
      var i, j :| ClashAt(rest, i, j);
      ClashGoesUp(b, rest, i, j);
    }
    if TouchesFirst(b, rest) {
      TouchIsClash(b, rest);
    }
  }

  /** The block in front may not meet the first one that leaves something. */
  ghost predicate TouchesFirst(b: Block, rest: seq<Block>)
    requires WellFormed(b) && AllFormed(rest)
  {
    var f := FirstLeft(rest);
    f < |rest| && Touch(b, rest[f])
  }

  lemma FirstIs(blocks: seq<Block>, f: nat)
    requires AllFormed(blocks) && f < |blocks| && WellFormed(blocks[f]) && !Vanishes(blocks[f])
    requires forall k :: 0 <= k < f ==> WellFormed(blocks[k]) && Vanishes(blocks[k])
    ensures FirstLeft(blocks) == f
  {
    hide FirstLeft, Vanishes, WellFormed;
    assert blocks[f] in blocks;
  }

  lemma ClashGoesDown(b: Block, rest: seq<Block>, i: int, j: int)
    requires WellFormed(b) && AllFormed(rest) && AllFormed([b] + rest) && ClashAt([b] + rest, i, j)
    ensures Clash(rest) || TouchesFirst(b, rest)
  {
    hide Vanishes, StandsBare, WellFormed, FirstLeft, Touch;
    var all := [b] + rest;
    forall k | i < k + 1 < j && 0 <= k ensures Vanishes(rest[k]) {
      assert all[k + 1] == rest[k] && Vanishes(all[k + 1]);
    }
    assert all[j] == rest[j - 1];
    if i > 0 {
      assert all[i] == rest[i - 1];
      assert ClashAt(rest, i - 1, j - 1);
    } else {
      TouchStays(b, rest[j - 1]);
      FirstIs(rest, j - 1);
    }
  }

  lemma ClashGoesUp(b: Block, rest: seq<Block>, i: int, j: int)
    requires WellFormed(b) && AllFormed(rest) && AllFormed([b] + rest) && ClashAt(rest, i, j)
    ensures Clash([b] + rest)
  {
    hide Vanishes, StandsBare, WellFormed, Touch;
    var all := [b] + rest;
    forall k | i + 1 < k < j + 1 ensures Vanishes(all[k]) {
      assert all[k] == rest[k - 1];
    }
    assert ClashAt(all, i + 1, j + 1);
  }

  lemma TouchIsClash(b: Block, rest: seq<Block>)
    requires WellFormed(b) && AllFormed(rest) && AllFormed([b] + rest) && TouchesFirst(b, rest)
    ensures Clash([b] + rest)
  {
    hide Vanishes, StandsBare, WellFormed, FirstLeft, Touch;
    var all, f := [b] + rest, FirstLeft(rest);
    forall k | 0 < k < f + 1 ensures Vanishes(all[k]) {
      assert all[k] == rest[k - 1];
    }
    assert ClashAt(all, 0, f + 1);
  }

  /** Only a block that stays can be touched. */
  lemma TouchStays(a: Block, b: Block)
    requires WellFormed(a) && WellFormed(b) && Touch(a, b)
    ensures !Vanishes(b)
  {
  }

  lemma AlternatingParts(a: seq<Message>, b: seq<Message>)
    ensures Alternating(a + b) <==>
      (Alternating(a) && Alternating(b) && (a != [] && b != [] ==> MayMeet(a[|a| - 1].role, b[0].role)))
  {
    hide MayMeet;
    if Alternating(a + b) {
      PrefixAlternates(a, b);
      SuffixAlternates(a + b, |a|);
      assert (a + b)[|a|..] == b;
      if a != [] && b != [] {
        assert MayMeet((a + b)[|a| - 1].role, (a + b)[|a|].role);
      }
    }
    if Alternating(a) && Alternating(b) && (a != [] && b != [] ==> MayMeet(a[|a| - 1].role, b[0].role)) {
      JoinAlternating(a, b);
    }
  }

  lemma {:induction false} AlternatesUnlessClash(blocks: seq<Block>)
    requires AllFormed(blocks)
    ensures Alternating(AllLeft(blocks)) <==> !Clash(blocks)
  {
    hide Vanishes, StandsBare, WellFormed, Left, FirstLeft, Alternating, Clash, AllFormed;
    if blocks == [] {
      NoClash();
    } else {
      var b, rest := blocks[0], blocks[1..];
      FormedParts(blocks);
      AlternatesUnlessClash(rest);
      assert blocks == [b] + rest;
      ClashStep(b, rest);
      AllLeftCons(b, rest);
      BlockShape(b);
      FirstRole(rest);
      AlternatingParts(Left(b), AllLeft(rest));
      MeetUnlessTouch(b, rest);
    }
  }

  lemma NoClash()
    ensures AllLeft([]) == [] && Alternating([]) && !Clash([])
  {
  }

  lemma FormedParts(blocks: seq<Block>)
    requires AllFormed(blocks) && blocks != []
    ensures WellFormed(blocks[0]) && AllFormed(blocks[1..])
  {
    assert blocks[0] in blocks && forall b :: b in blocks[1..] ==> b in blocks;
  }

  lemma MeetUnlessTouch(b: Block, rest: seq<Block>)
    requires WellFormed(b) && AllFormed(rest)
    ensures (Left(b) != [] && AllLeft(rest) != [] ==> MayMeet(Left(b)[|Left(b)| - 1].role, AllLeft(rest)[0].role))
      <==> !TouchesFirst(b, rest)
  {
    hide Vanishes, StandsBare, WellFormed, Left, FirstLeft, AllLeft, Alternating;
    BlockShape(b);
    FirstRole(rest);
    var f := FirstLeft(rest);
    if f < |rest| {
      assert rest[f] in rest;
      BlockShape(rest[f]);
    }
  }

  // ----- The condition

  /** The guards fire somewhere: read off the runs of the conversation that goes into the repair. */
  ghost predicate Clashes(conv: seq<Message>) {
    BlocksAreFormed(FromFirstUser(conv));
    Clash(Blocks(FromFirstUser(conv)))
  }

  lemma {:induction false} BeforeFirstUser(conv: seq<Message>)
    requires forall m :: m in conv ==> Spoken(m)
    ensures Sequence(conv, None) == Sequence(FromFirstUser(conv), None)
    ensures forall m :: m in FromFirstUser(conv) ==> Spoken(m)
    decreases |conv|
  {
    hide Sequence, MergeUsers, Survivor, RunLen;
    if conv != [] && conv[0].role != User {
      assert conv[0] in conv;
      var n := RunLen(conv, conv[0].role);
      RunLenTail(conv, conv[0].role);
      if conv[0].role == Tool {
        ToolsUnfold(conv, None);
      } else {
        AssistantsUnfold(conv, None);
      }
      BeforeFirstUser(conv[n..]);
      SkipRun(conv, n);
    }
  }

  lemma {:induction false} SkipRun(conv: seq<Message>, n: nat)
    requires n <= |conv| && forall i :: 0 <= i < n ==> conv[i].role != User
    ensures FromFirstUser(conv) == FromFirstUser(conv[n..])
  {
    if n > 0 {
      SkipRun(conv[1..], n - 1);
      assert conv[1..][n - 1..] == conv[n..];
    } else {
      assert conv[0..] == conv;
    }
  }

  /** One repair leaves alternating roles exactly when no guard fires on its input. */
  lemma RepairAlternatesUnlessClash(conv: seq<Message>)
    requires forall m :: m in conv ==> Spoken(m)
    ensures Alternating(RepairedConversation(conv)) <==> !Clashes(conv)
  {
    hide Sequence, Parity, Blocks, AllLeft, Alternating, Clash;
    var body := FromFirstUser(conv);
    BlocksAreFormed(body);
    BeforeFirstUser(conv);
    RepairIsAllLeft(body, None);
    AlternatesUnlessClash(Blocks(body));
  }

  /**
   * One pass is enough exactly when, in the messages that go in, no two users and no two assistants clash: nothing
   * between two user runs but results and turns that vanish, and no turn that stands bare in front of another.
   */
  lemma OnePassIsEnough(messages: seq<Message>)
    ensures Repair(Repair(messages)) == Repair(messages) <==> !Clashes(Conversation(messages))
  {
    hide RepairedConversation, Conversation, Alternating, Clashes, Repair;
    RepairReads(messages);
    SecondPassMerges(messages);
    RepairAlternatesUnlessClash(Conversation(messages));
  }

  // ----- What the conversation ends in

  /** The last block that leaves something is a user run, or a turn that keeps results. */
  ghost predicate EndsOpen(blocks: seq<Block>)
    requires AllFormed(blocks)
  {
    exists i :: OpenAt(blocks, i)
  }

  ghost predicate OpenAt(blocks: seq<Block>, i: int)
    requires AllFormed(blocks)
  {
    && 0 <= i < |blocks| && !Vanishes(blocks[i]) && !StandsBare(blocks[i])
    && forall k :: i < k < |blocks| ==> Vanishes(blocks[k])
  }

  /** Read off the conversation that goes into the repair. */
  ghost predicate StaysOpen(conv: seq<Message>) {
    BlocksAreFormed(FromFirstUser(conv));
    EndsOpen(Blocks(FromFirstUser(conv)))
  }

  lemma OpenStep(b: Block, rest: seq<Block>)
    requires WellFormed(b) && AllFormed(rest)
    ensures AllFormed([b] + rest)
    ensures EndsOpen([b] + rest) <==>
      if FirstLeft(rest) == |rest| then !Vanishes(b) && !StandsBare(b) else EndsOpen(rest)
  {
    hide Vanishes, StandsBare, WellFormed, FirstLeft, OpenAt;
    var all := [b] + rest;
    if EndsOpen(all) {
      var i :| OpenAt(all, i);
      OpenSplits(b, rest, i);
    }
    if EndsOpen(rest) {
      var i :| OpenAt(rest, i);
      OpenGoesUp(b, rest, i);
    }
    if FirstLeft(rest) == |rest| && !Vanishes(b) && !StandsBare(b) {
      OpenInFront(b, rest);
    }
  }

  lemma OpenSplits(b: Block, rest: seq<Block>, i: int)
    requires WellFormed(b) && AllFormed(rest) && AllFormed([b] + rest) && OpenAt([b] + rest, i)
    ensures i > 0 ==> OpenAt(rest, i - 1) && FirstLeft(rest) < |rest|
    ensures i <= 0 ==> FirstLeft(rest) == |rest| && !Vanishes(b) && !StandsBare(b)
  {
    hide Vanishes, StandsBare, WellFormed, FirstLeft;
    if i > 0 {
      OpenGoesDown(b, rest, i);
    } else {
      AllGone(b, rest);
    }
  }

  lemma AllGone(b: Block, rest: seq<Block>)
    requires AllFormed(rest) && AllFormed([b] + rest) && OpenAt([b] + rest, 0)
    ensures FirstLeft(rest) == |rest|
  {
    hide Vanishes, StandsBare, WellFormed, FirstLeft;
    forall k | 0 <= k < |rest| ensures WellFormed(rest[k]) && Vanishes(rest[k]) {
      GoesDown(b, rest, k);
    }
  }

  lemma OpenGoesUp(b: Block, rest: seq<Block>, i: int)
    requires WellFormed(b) && AllFormed(rest) && AllFormed([b] + rest) && OpenAt(rest, i)
    ensures OpenAt([b] + rest, i + 1) && FirstLeft(rest) < |rest|
  {
    hide Vanishes, StandsBare, WellFormed, FirstLeft;
    NotAllGone(rest, i);
    var all := [b] + rest;
    forall k | i + 1 < k < |all| ensures Vanishes(all[k]) {
      GoesDown(b, rest, k - 1);
    }
    GoesDown(b, rest, i);
  }

  lemma OpenInFront(b: Block, rest: seq<Block>)
    requires WellFormed(b) && AllFormed(rest) && AllFormed([b] + rest)
    requires FirstLeft(rest) == |rest| && !Vanishes(b) && !StandsBare(b)
    ensures OpenAt([b] + rest, 0)
  {
    hide Vanishes, StandsBare, WellFormed, FirstLeft;
    var all := [b] + rest;
    forall k | 0 < k < |all| ensures Vanishes(all[k]) {
      GoesDown(b, rest, k - 1);
    }
  }

  lemma GoesDown(b: Block, rest: seq<Block>, k: nat)
    requires AllFormed(rest) && k < |rest|
    ensures ([b] + rest)[k + 1] == rest[k] && WellFormed(rest[k])
  {
    hide WellFormed;
    assert rest[k] in rest;
  }

  lemma NotAllGone(rest: seq<Block>, k: nat)
    requires AllFormed(rest) && k < |rest| && WellFormed(rest[k]) && !Vanishes(rest[k])
    ensures FirstLeft(rest) < |rest|
  {
    hide FirstLeft, Vanishes, WellFormed;
  }

  lemma OpenGoesDown(b: Block, rest: seq<Block>, i: int)
    requires AllFormed(rest) && AllFormed([b] + rest) && i > 0 && OpenAt([b] + rest, i)
    ensures OpenAt(rest, i - 1)
    ensures FirstLeft(rest) < |rest|
  {
    hide Vanishes, StandsBare, WellFormed, FirstLeft;
    var all := [b] + rest;
    forall k | i - 1 < k < |rest| ensures WellFormed(rest[k]) && Vanishes(rest[k]) {
      GoesDown(b, rest, k);
    }
    GoesDown(b, rest, i - 1);
    NotAllGone(rest, i - 1);
  }

  lemma {:induction false} OpenIsLastRole(blocks: seq<Block>)
    requires AllFormed(blocks)
    ensures EndsOpen(blocks) <==> AllLeft(blocks) != [] && AllLeft(blocks)[|AllLeft(blocks)| - 1].role != Assistant
  {
    hide Vanishes, StandsBare, WellFormed, Left, FirstLeft, EndsOpen, AllFormed;
    if blocks == [] {
      NothingOpen();
    } else {
      var b, rest := blocks[0], blocks[1..];
      FormedParts(blocks);
      OpenIsLastRole(rest);
      assert blocks == [b] + rest;
      OpenStep(b, rest);
      AllLeftCons(b, rest);
      BlockShape(b);
      FirstRole(rest);
    }
  }

  lemma NothingOpen()
    ensures AllLeft([]) == [] && !EndsOpen([])
  {
  }

  /** What comes out of one repair ends in a user or a result exactly when the conversation stays open. */
  lemma RepairEndsOpen(conv: seq<Message>)
    requires forall m :: m in conv ==> Spoken(m)
    ensures var r := RepairedConversation(conv); StaysOpen(conv) <==> r != [] && r[|r| - 1].role != Assistant
  {
    hide Sequence, Parity, Blocks, AllLeft, EndsOpen;
    var body := FromFirstUser(conv);
    BlocksAreFormed(body);
    BeforeFirstUser(conv);
    RepairIsAllLeft(body, None);
    OpenIsLastRole(Blocks(body));
  }

  // ----- Where no user stands behind a result

  /** A turn with calls or results of which nothing can be matched. */
  predicate Unmatched(b: Block)
    requires WellFormed(b)
  {
    b.Turn? && !SomeCallFits(CallsOf(Speaker(b)), b.results) && (CallsOf(Speaker(b)) != [] || b.results != [])
  }

  predicate MayNeighbour(a: Block, b: Block) {
    !(a.Asked? && b.Asked?) && (a.Turn? && b.Turn? ==> a.results != [])
  }

  ghost predicate Separated(blocks: seq<Block>) {
    forall i :: 0 < i < |blocks| ==> MayNeighbour(blocks[i - 1], blocks[i])
  }

  lemma SeparatedCons(b: Block, rest: seq<Block>)
    requires Separated(rest) && (rest != [] ==> MayNeighbour(b, rest[0]))
    ensures Separated([b] + rest)
  {
    var all := [b] + rest;
    forall i | 0 < i < |all| ensures MayNeighbour(all[i - 1], all[i]) {
      assert i > 1 ==> MayNeighbour(rest[i - 2], rest[i - 1]);
    }
  }

  /** When no user stands behind a result, two user runs always have a turn between them. */
  lemma {:induction false} BlocksAreSeparated(conv: seq<Message>)
    requires (forall m :: m in conv ==> Spoken(m)) && NoUserAfterTool(conv)
    ensures Separated(Blocks(conv))
    ensures Blocks(conv) != [] ==> (Begins(conv, User) <==> Blocks(conv)[0].Asked?)
    decreases |conv|
  {
    hide Blocks, RunLen, NoUserAfterTool, MayNeighbour, Separated;
    BlocksUnfold(conv);
    if conv == [] {
      NothingSeparated();
    } else {
      assert conv[0] in conv;
      var n := RunLen(conv, conv[0].role);
      var rest := conv[n..];
      SuffixNoUserAfterTool(conv, n);
      BlocksAreSeparated(rest);
      match conv[0].role
      case User =>
        NeighbourOfUsers(conv[..n], Blocks(rest));
        SeparatedCons(Asked(conv[..n]), Blocks(rest));
      case Tool =>
        ToolsBeforeTurn(conv, n);
      case Assistant =>
        var m := RunLen(rest, Tool);
        SuffixNoUserAfterTool(conv, n + m);
        BlocksAreSeparated(conv[n + m..]);
        assert m == 0 ==> conv[n + m..] == rest;
        NeighbourOfTurn(conv, n, m);
        SeparatedCons(Turn(conv[..n], conv[n..n + m]), Blocks(conv[n + m..]));
    }
  }

  lemma NothingSeparated()
    ensures Separated([])
  {
  }

  lemma NeighbourOfUsers(users: seq<Message>, rest: seq<Block>)
    requires rest != [] ==> !rest[0].Asked?
    ensures rest != [] ==> MayNeighbour(Asked(users), rest[0])
  {
  }

  lemma ToolsBeforeTurn(conv: seq<Message>, n: nat)
    requires Begins(conv, Tool) && n == RunLen(conv, Tool) && n > 0
    requires n < |conv| ==> UserMayFollow(conv[n - 1].role, conv[n..][0].role)
    ensures !Begins(conv[n..], User)
  {
  }

  lemma NeighbourOfTurn(conv: seq<Message>, n: nat, m: nat)
    requires Begins(conv, Assistant) && n == RunLen(conv, Assistant) && m == RunLen(conv[n..], Tool)
    requires Blocks(conv[n + m..]) != [] ==> (Begins(conv[n + m..], User) <==> Blocks(conv[n + m..])[0].Asked?)
    requires forall x :: x in conv ==> Spoken(x)
    ensures Blocks(conv[n + m..]) != [] ==>
      MayNeighbour(Turn(conv[..n], conv[n..n + m]), Blocks(conv[n + m..])[0])
  {
    hide Blocks, RunLen;
    var rest := conv[n + m..];
    if m == 0 {
      assert rest == conv[n..];
      if rest == [] {
        BlocksUnfold(rest);
      } else {
        assert rest[0] in conv;
      }
    }
  }

  lemma {:induction false} FirstUserSuffix(conv: seq<Message>)
    requires NoUserAfterTool(conv)
    ensures NoUserAfterTool(FromFirstUser(conv))
  {
    hide NoUserAfterTool;
    if conv != [] && conv[0].role != User {
      SuffixNoUserAfterTool(conv, 1);
      FirstUserSuffix(conv[1..]);
    }
  }

  /** Then only the second guard can fire: every clash goes back to a turn of which nothing could be matched. */
  lemma ClashNeedsUnmatched(conv: seq<Message>)
    requires (forall m :: m in conv ==> Spoken(m)) && NoUserAfterTool(conv) && Clashes(conv)
    ensures AllFormed(Blocks(FromFirstUser(conv)))
    ensures exists b :: b in Blocks(FromFirstUser(conv)) && Unmatched(b)
  {
    hide Blocks, CallsOf, Survivor, SomeCallFits, NoUserAfterTool, Strip;
    var blocks := Blocks(FromFirstUser(conv));
    BlocksAreFormed(FromFirstUser(conv));
    BeforeFirstUser(conv);
    FirstUserSuffix(conv);
    BlocksAreSeparated(FromFirstUser(conv));
    var i, j :| ClashAt(blocks, i, j);
    assert MayNeighbour(blocks[i + 1 - 1], blocks[i + 1]);
    assert blocks[i] in blocks && blocks[i + 1] in blocks;
    if !Unmatched(blocks[i]) {
      assert j > i + 1;
      assert Unmatched(blocks[i + 1]);
    }
  }
}
