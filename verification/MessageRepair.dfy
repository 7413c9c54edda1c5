/**
 * Repairing a chat into the shape the provider accepts
 * (deploy/litellm/klai_context.py, `_repair_mistral_message_sequence` and `_repair_mistral_tool_call_parity`).
 */
module MessageRepair {
  import opened Sequences
  import opened Strings
  import opened ToolBlocks

  /** `SYSTEM_BLOCK_SEPARATOR`. */
  const SEPARATOR := "\n\n"

  // ----- The repair as a function

  /** The length of the run of one role at the front. */
  function RunLen(conv: seq<Message>, role: Role): (n: nat)
    ensures n <= |conv| && forall i :: 0 <= i < n ==> conv[i].role == role
    ensures n < |conv| ==> conv[n].role != role
  {
    if conv == [] || conv[0].role != role then 0 else 1 + RunLen(conv[1..], role)
  }

  function TextOf(m: Message): string {
    if m.content.Some? then m.content.value else ""
  }

  /** The stripped texts of these messages, without the blank ones. */
  function Texts(messages: seq<Message>): (texts: seq<string>)
    ensures forall t :: t in texts ==> Strip(t) == t && t != ""
  {
    if messages == [] then []
    else
      var text := Strip(TextOf(messages[0]));
      StripFacts(TextOf(messages[0]));
      if text != "" then [text] + Texts(messages[1..]) else Texts(messages[1..])
  }

  function OfRole(messages: seq<Message>, role: Role): (r: seq<Message>)
    ensures forall m :: m in r ==> m.role == role
  {
    if messages == [] then []
    else if messages[0].role == role then [messages[0]] + OfRole(messages[1..], role)
    else OfRole(messages[1..], role)
  }

  predicate Spoken(m: Message) {
    m.role == User || m.role == Assistant || m.role == Tool
  }

  /** Users, assistants and tool results, in order. */
  function Conversation(messages: seq<Message>): (conv: seq<Message>)
    ensures forall m :: m in conv ==> Spoken(m)
  {
    if messages == [] then []
    else if Spoken(messages[0]) then [messages[0]] + Conversation(messages[1..])
    else Conversation(messages[1..])
  }

  /** `_merge_same_role_run` for a run of users. */
  function MergeUsers(run: seq<Message>): (m: Message)
    requires run != [] && forall r :: r in run ==> r.role == User
    ensures m.role == User
  {
    if |run| == 1 then run[0] else run[|run| - 1].(content := Some(Strip(Join(SEPARATOR, Texts(run)))))
  }

  /** `_select_assistant_run_survivor`. */
  function Survivor(run: seq<Message>, preferCalls: bool): (m: Message)
    requires run != []
    ensures m in run
    ensures preferCalls && CallsOf(m) == [] ==> forall r :: r in run ==> CallsOf(r) == []
    ensures !preferCalls ==> m == run[|run| - 1]
  {
    if preferCalls && (exists r :: r in run && CallsOf(r) != []) then LastCaller(run) else run[|run| - 1]
  }

  /** The last message of the run that carries calls. */
  function LastCaller(run: seq<Message>): (m: Message)
    requires exists r :: r in run && CallsOf(r) != []
    ensures m in run && CallsOf(m) != []
  {
    if CallsOf(run[|run| - 1]) != [] then run[|run| - 1] else LastCaller(run[..|run| - 1])
  }

  /** Runs of one role collapse, and runs that cannot follow `last` go. */
  function Sequence(conv: seq<Message>, last: Option<Role>): seq<Message>
    decreases |conv|
  {
    if conv == [] then []
    else
      var role := conv[0].role;
      var n := RunLen(conv, role);
      var rest := conv[n..];
      match role
      case User => [MergeUsers(conv[..n])] + Sequence(rest, Some(User))
      case Tool =>
        if last == Some(Assistant) || last == Some(Tool) then conv[..n] + Sequence(rest, Some(Tool))
        else Sequence(rest, last)
      case Assistant =>
        if last == Some(User) || last == Some(Tool)
        then [Survivor(conv[..n], rest != [] && rest[0].role == Tool)] + Sequence(rest, Some(Assistant))
        else Sequence(rest, last)
      case _ => Sequence(conv[1..], last)
  }

  /** Each assistant is reconciled with the results behind it; other results go. */
  function Parity(conv: seq<Message>): seq<Message>
    decreases |conv|
  {
    if conv == [] then []
    else if conv[0].role == Tool then Parity(conv[1..])
    else if conv[0].role != Assistant then [conv[0]] + Parity(conv[1..])
    else
      var n := RunLen(conv[1..], Tool);
      Reconcile(conv[0], conv[1..1 + n]) + Parity(conv[1 + n..])
  }

  function SystemMessage(text: string): Message {
    Message(System, Some(text), Absent, false, None, None)
  }

  function SystemHead(texts: seq<string>): seq<Message> {
    if texts == [] then [] else [SystemMessage(Join(SEPARATOR, texts))]
  }

  function RepairedConversation(conv: seq<Message>): seq<Message> {
    Parity(Sequence(conv, None))
  }

  function Repair(messages: seq<Message>): seq<Message> {
    SystemHead(Texts(OfRole(messages, System))) + RepairedConversation(Conversation(messages))
  }

  // ----- What the provider asks of a conversation

  /** Every call has exactly one result right behind it, in call order; there are no other results. */
  ghost predicate Paired(conv: seq<Message>)
    decreases |conv|
  {
    conv == [] || match conv[0].role
    case User => Paired(conv[1..])
    case Assistant =>
      var n := RunLen(conv[1..], Tool);
      Answered(conv[0], conv[1..1 + n]) && Paired(conv[1 + n..])
    case _ => false
  }

  predicate StartsWithUser(conv: seq<Message>) {
    conv == [] || conv[0].role == User
  }

  predicate MayMeet(a: Role, b: Role) {
    !(a == User && b == User) && !(a == Assistant && b == Assistant)
  }

  /** No two users and no two assistants are adjacent. */
  ghost predicate Alternating(conv: seq<Message>) {
    forall i :: 0 < i < |conv| ==> MayMeet(conv[i - 1].role, conv[i].role)
  }

  predicate UserMayFollow(a: Role, b: Role) {
    !(a == Tool && b == User)
  }

  ghost predicate NoUserAfterTool(conv: seq<Message>) {
    forall i :: 0 < i < |conv| ==> UserMayFollow(conv[i - 1].role, conv[i].role)
  }

  predicate Begins(conv: seq<Message>, role: Role) {
    conv != [] && conv[0].role == role
  }

  // ----- Pairing

  lemma {:induction false} RunLenIs(run: seq<Message>, rest: seq<Message>, role: Role)
    requires forall m :: m in run ==> m.role == role
    requires !Begins(rest, role)
    ensures RunLen(run + rest, role) == |run|
  {
    var all := run + rest;
    assert forall k :: 0 <= k < |run| ==> all[k] == run[k] && all[k] in run;
    assert rest != [] ==> all[|run|] == rest[0];
  }

  lemma PairedBlock(a: Message, tools: seq<Message>, rest: seq<Message>)
    requires a.role == Assistant && Answered(a, tools)
    requires forall t :: t in tools ==> t.role == Tool
    requires !Begins(rest, Tool) && Paired(rest)
    ensures Paired([a] + tools + rest)
  {
    hide Answered;
    var conv := [a] + tools + rest;
    assert conv[1..] == tools + rest;
    RunLenIs(tools, rest, Tool);
    assert conv[1..1 + |tools|] == tools && conv[1 + |tools|..] == rest;
  }

  lemma {:induction false} ParityStart(conv: seq<Message>)
    ensures !Begins(Parity(conv), Tool)
    decreases |conv|
  {
    hide Reconcile, Answered;
    if conv == [] {
    } else if conv[0].role == Tool {
      ParityStart(conv[1..]);
    } else if conv[0].role == Assistant {
      var n := RunLen(conv[1..], Tool);
      ParityStart(conv[1 + n..]);
      ReconcileAnswers(conv[0], conv[1..1 + n]);
    }
  }

  lemma NothingIsPaired()
    ensures Paired([])
  {
  }

  lemma PairedUser(m: Message, rest: seq<Message>)
    requires m.role == User && Paired(rest)
    ensures Paired([m] + rest)
  {
    assert ([m] + rest)[1..] == rest;
  }

  /** After the parity step every call is paired. */
  lemma {:induction false} ParityPairs(conv: seq<Message>)
    requires forall m :: m in conv ==> Spoken(m)
    ensures Paired(Parity(conv))
    decreases |conv|
  {
    hide Reconcile, Answered, Parity, Paired;
    if conv == [] {
      ParityOfNothing();
      NothingIsPaired();
    } else if conv[0].role == Assistant {
      ParityAtAssistant(conv);
      var n := RunLen(conv[1..], Tool);
      var rest := conv[1 + n..];
      ParityPairs(rest);
      ParityStart(rest);
      var block := Reconcile(conv[0], conv[1..1 + n]);
      ReconcileAnswers(conv[0], conv[1..1 + n]);
      if block == [] {
        assert block + Parity(rest) == Parity(rest);
      } else {
        PairedBlock(block[0], block[1..], Parity(rest));
        HeadAndTail(block);
      }
    } else {
      ParityPairs(conv[1..]);
      ParityElsewhere(conv);
      assert conv[0] in conv;
      if conv[0].role == User {
        PairedUser(conv[0], Parity(conv[1..]));
      }
    }
  }

  /** The parity step leaves a paired conversation alone. */
  lemma {:induction false} PairedIsStable(conv: seq<Message>)
    requires Paired(conv)
    ensures Parity(conv) == conv
    decreases |conv|
  {
    hide Reconcile, Answered;
    if conv != [] && conv[0].role == User {
      PairedIsStable(conv[1..]);
    } else if conv != [] {
      var n := RunLen(conv[1..], Tool);
      PairedIsStable(conv[1 + n..]);
      AnsweredIsStable(conv[0], conv[1..1 + n]);
      assert [conv[0]] + conv[1..1 + n] + conv[1 + n..] == conv;
    }
  }

  lemma {:induction false} PairedIsSpoken(conv: seq<Message>)
    requires Paired(conv)
    ensures forall m :: m in conv ==> Spoken(m)
    decreases |conv|
  {
    hide Answered;
    if conv != [] && conv[0].role == User {
      PairedIsSpoken(conv[1..]);
    } else if conv != [] {
      var n := RunLen(conv[1..], Tool);
      PairedIsSpoken(conv[1 + n..]);
      assert conv == [conv[0]] + conv[1..1 + n] + conv[1 + n..];
    }
  }

  lemma {:induction false} SequenceIsSpoken(conv: seq<Message>, last: Option<Role>)
    requires forall m :: m in conv ==> Spoken(m)
    ensures forall m :: m in Sequence(conv, last) ==> Spoken(m)
    decreases |conv|
  {
    hide MergeUsers, Survivor;
    if conv != [] {
      assert conv[0] in conv;
      var n := RunLen(conv, conv[0].role);
      var next := if conv[0].role == User then Some(User)
                  else if conv[0].role == Tool
                  then (if last == Some(Assistant) || last == Some(Tool) then Some(Tool) else last)
                  else if last == Some(User) || last == Some(Tool) then Some(Assistant) else last;
      SequenceIsSpoken(conv[n..], next);
    }
  }

  lemma {:induction false} SequenceStarts(conv: seq<Message>)
    ensures StartsWithUser(Sequence(conv, None))
    decreases |conv|
  {
    hide MergeUsers, Survivor;
    if conv != [] {
      match conv[0].role
      case User =>
      case Tool => SequenceStarts(conv[RunLen(conv, Tool)..]);
      case Assistant => SequenceStarts(conv[RunLen(conv, Assistant)..]);
      case _ => SequenceStarts(conv[1..]);
    }
  }

  lemma ParityKeepsStart(conv: seq<Message>)
    requires StartsWithUser(conv)
    ensures StartsWithUser(Parity(conv))
  {
  }

  /** One repair pairs every call and drops what precedes the first user. */
  lemma RepairPairs(conv: seq<Message>)
    requires forall m :: m in conv ==> Spoken(m)
    ensures Paired(RepairedConversation(conv)) && StartsWithUser(RepairedConversation(conv))
  {
    hide Sequence, Parity;
    SequenceIsSpoken(conv, None);
    SequenceStarts(conv);
    ParityPairs(Sequence(conv, None));
    ParityKeepsStart(Sequence(conv, None));
  }

  // ----- The second pass reaches the normal form

  /** A paired conversation whose first run is not dropped behind `last`. */
  predicate Fits(conv: seq<Message>, last: Option<Role>) {
    conv == [] || match conv[0].role
    case User => last != Some(User)
    case Assistant => last == Some(User) || last == Some(Tool)
    case _ => false
  }

  lemma JoinAlternating(a: seq<Message>, b: seq<Message>)
    requires Alternating(a) && Alternating(b)
    requires a != [] && b != [] ==> MayMeet(a[|a| - 1].role, b[0].role)
    ensures Alternating(a + b)
  {
    forall i | 0 < i < |a + b| ensures MayMeet((a + b)[i - 1].role, (a + b)[i].role) {
      assert i > |a| ==> MayMeet(b[i - |a| - 1].role, b[i - |a|].role);
    }
  }

  lemma JoinNoUserAfterTool(a: seq<Message>, b: seq<Message>)
    requires NoUserAfterTool(a) && NoUserAfterTool(b)
    requires a != [] && b != [] ==> UserMayFollow(a[|a| - 1].role, b[0].role)
    ensures NoUserAfterTool(a + b)
  {
    forall i | 0 < i < |a + b| ensures UserMayFollow((a + b)[i - 1].role, (a + b)[i].role) {
      assert i > |a| ==> UserMayFollow(b[i - |a| - 1].role, b[i - |a|].role);
    }
  }

  lemma SuffixNoUserAfterTool(conv: seq<Message>, n: nat)
    requires n <= |conv| && NoUserAfterTool(conv)
    ensures NoUserAfterTool(conv[n..])
    ensures 0 < n < |conv| ==> UserMayFollow(conv[n - 1].role, conv[n..][0].role)
  {
    forall i | 0 < i < |conv[n..]| ensures UserMayFollow(conv[n..][i - 1].role, conv[n..][i].role) {
      assert UserMayFollow(conv[n + i - 1].role, conv[n + i].role);
    }
  }

  lemma {:induction false} UserRun(conv: seq<Message>)
    requires Paired(conv)
    ensures var rest := conv[RunLen(conv, User)..]; Paired(rest) && !Begins(rest, User) && !Begins(rest, Tool)
  {
    hide Answered;
    if Begins(conv, User) {
      UserRun(conv[1..]);
      assert conv[RunLen(conv, User)..] == conv[1..][RunLen(conv[1..], User)..];
    }
  }

  /** Behind `k` assistants stand the `m` results that answer the last of them. */
  ghost predicate CallerRun(conv: seq<Message>, k: nat, m: nat) {
    && 0 < k <= k + m <= |conv|
    && RunLen(conv[k..], Tool) == m
    && Answered(conv[k - 1], conv[k..k + m])
    && Paired(conv[k + m..])
    && !Begins(conv[k + m..], Tool)
    && (m == 0 ==> !Begins(conv[k..], Assistant))
  }

  lemma CallerRunCons(conv: seq<Message>, k: nat, m: nat)
    requires conv != [] && CallerRun(conv[1..], k, m)
    ensures CallerRun(conv, k + 1, m)
  {
    hide Answered, RunLen, Paired;
    var tail := conv[1..];
    assert tail[k..] == conv[k + 1..] && tail[k..k + m] == conv[k + 1..k + 1 + m] && tail[k + m..] == conv[k + 1 + m..];
  }

  lemma CallerRunHere(conv: seq<Message>, m: nat)
    requires m < |conv| && m == RunLen(conv[1..], Tool) && (m == 0 ==> !Begins(conv[1..], Assistant))
    requires Answered(conv[0], conv[1..1 + m]) && Paired(conv[1 + m..])
    ensures CallerRun(conv, 1, m)
  {
    hide Answered;
  }

  /** In a paired conversation only the last assistant of a run has calls, and the results behind it answer those. */
  lemma {:induction false} AssistantRun(conv: seq<Message>)
    requires Paired(conv) && Begins(conv, Assistant)
    ensures var k := RunLen(conv, Assistant); CallerRun(conv, k, RunLen(conv[k..], Tool))
  {
    var n := RunLen(conv[1..], Tool);
    PairedAtAssistant(conv);
    hide Answered, CallerRun, Paired, RunLen;
    RunLenTail(conv, Assistant);
    var k := RunLen(conv, Assistant);
    if n == 0 && Begins(conv[1..], Assistant) {
      assert conv[1 + n..] == conv[1..];
      AssistantRun(conv[1..]);
      var m := RunLen(conv[1..][k - 1..], Tool);
      assert conv[1..][k - 1..] == conv[k..];
      CallerRunCons(conv, k - 1, m);
    } else {
      assert k == 1;
      CallerRunHere(conv, n);
    }
  }

  lemma PairedAtAssistant(conv: seq<Message>)
    requires Paired(conv) && Begins(conv, Assistant)
    ensures var n := RunLen(conv[1..], Tool);
      && Answered(conv[0], conv[1..1 + n]) && Paired(conv[1 + n..])
      && (n > 0 ==> !Begins(conv[1..], Assistant))
  {
    hide Answered;
  }

  lemma RunLenTail(conv: seq<Message>, role: Role)
    requires conv != [] && conv[0].role == role
    ensures RunLen(conv, role) == 1 + RunLen(conv[1..], role)
    ensures RunLen(conv[1..], role) > 0 <==> Begins(conv[1..], role)
  {
  }

  lemma SurvivorIsLast(run: seq<Message>, tools: seq<Message>)
    requires run != [] && Answered(run[|run| - 1], tools)
    ensures Survivor(run, tools != []) == run[|run| - 1]
  {
  }

  lemma UsersUnfold(conv: seq<Message>, last: Option<Role>)
    requires Begins(conv, User)
    ensures var n := RunLen(conv, User);
      n > 0 && Sequence(conv, last) == [MergeUsers(conv[..n])] + Sequence(conv[n..], Some(User))
  {
  }

  lemma ToolsUnfold(conv: seq<Message>, last: Option<Role>)
    requires Begins(conv, Tool)
    ensures var n := RunLen(conv, Tool);
      && n > 0
      && Sequence(conv, last) == if last == Some(Assistant) || last == Some(Tool)
                                 then conv[..n] + Sequence(conv[n..], Some(Tool)) else Sequence(conv[n..], last)
  {
    hide MergeUsers, Survivor;
  }

  lemma AssistantsUnfold(conv: seq<Message>, last: Option<Role>)
    requires Begins(conv, Assistant)
    ensures var n := RunLen(conv, Assistant);
      && n > 0
      && Sequence(conv, last)
           == if last == Some(User) || last == Some(Tool)
              then [Survivor(conv[..n], Begins(conv[n..], Tool))] + Sequence(conv[n..], Some(Assistant))
              else Sequence(conv[n..], last)
  {
    hide MergeUsers, Survivor;
  }

  /** What the sequence step makes of a paired conversation: the runs merged, everything else as it was. */
  ghost predicate Normalised(conv: seq<Message>, out: seq<Message>) {
    && Paired(out) && Alternating(out)
    && (NoUserAfterTool(conv) ==> NoUserAfterTool(out))
    && |out| <= |conv| && (out == [] <==> conv == [])
    && (conv != [] ==> out[0].role == conv[0].role && out[|out| - 1].role == conv[|conv| - 1].role)
  }

  /**
   * On a paired conversation the sequence step only merges runs: nothing is dropped, so the calls stay paired, and
   * the roles alternate.
   */
  lemma {:induction false} SequenceNormalises(conv: seq<Message>, last: Option<Role>)
    requires Paired(conv) && Fits(conv, last)
    ensures Normalised(conv, Sequence(conv, last))
    decreases |conv|
  {
    hide Answered, Survivor, MergeUsers, Sequence, RunLen, Alternating, NoUserAfterTool, Normalised;
    if conv == [] {
      EmptyIsNormal(last);
    } else if Begins(conv, User) {
      UserRun(conv);
      UsersUnfold(conv, last);
      var n := RunLen(conv, User);
      SequenceNormalises(conv[n..], Some(User));
      UsersFirst(conv, n, MergeUsers(conv[..n]), Sequence(conv[n..], Some(User)));
    } else if Begins(conv, Assistant) {
      AssistantRun(conv);
      var k := RunLen(conv, Assistant);
      var m := RunLen(conv[k..], Tool);
      var rest := conv[k + m..];
      var next := if m == 0 then Some(Assistant) else Some(Tool);
      SurvivorIsLast(conv[..k], conv[k..k + m]);
      assert conv[k..] == rest || m > 0;
      FitsAfter(rest, m > 0);
      SequenceNormalises(rest, next);
      TurnUnfolds(conv, last, k, m);
      AssistantFirst(conv, k, m, Sequence(rest, next));
    }
  }

  /** What follows an assistant and its results is never dropped. */
  lemma FitsAfter(rest: seq<Message>, answered: bool)
    requires Paired(rest) && !Begins(rest, Tool) && (!answered ==> !Begins(rest, Assistant))
    ensures Fits(rest, if answered then Some(Tool) else Some(Assistant))
  {
    hide Answered;
  }

  lemma EmptyIsNormal(last: Option<Role>)
    ensures Sequence([], last) == [] && Alternating([]) && NoUserAfterTool([]) && Normalised([], [])
  {
  }

  /** An assistant run and the results behind it, in one step. */
  lemma TurnUnfolds(conv: seq<Message>, last: Option<Role>, k: nat, m: nat)
    requires Begins(conv, Assistant) && (last == Some(User) || last == Some(Tool))
    requires k == RunLen(conv, Assistant) && k > 0 && m == RunLen(conv[k..], Tool)
    ensures Sequence(conv, last) == [Survivor(conv[..k], m > 0)] + conv[k..k + m]
                                    + Sequence(conv[k + m..], if m == 0 then Some(Assistant) else Some(Tool))
  {
    hide Survivor, MergeUsers, Sequence, CallsOf, RunLen;
    var rest := conv[k..];
    AssistantsUnfold(conv, last);
    if m > 0 {
      ToolsUnfold(rest, Some(Assistant));
      assert rest[..m] == conv[k..k + m] && rest[m..] == conv[k + m..];
      Regroup([Survivor(conv[..k], true)], rest[..m], Sequence(rest[m..], Some(Tool)));
    } else {
      assert !Begins(rest, Tool);
      assert conv[k..k + m] == [] && conv[k + m..] == rest;
      Regroup([Survivor(conv[..k], false)], [], Sequence(rest, Some(Assistant)));
    }
  }

  lemma Regroup(a: seq<Message>, b: seq<Message>, c: seq<Message>)
    ensures a + (b + c) == a + b + c && a + [] == a
  {
  }

  lemma UsersFirst(conv: seq<Message>, n: nat, merged: Message, tail: seq<Message>)
    requires 0 < n <= |conv| && conv[0].role == User && conv[n - 1].role == User && merged.role == User
    requires Normalised(conv[n..], tail) && !Begins(conv[n..], User)
    ensures Normalised(conv, [merged] + tail)
  {
    hide Answered;
    assert ([merged] + tail)[1..] == tail;
    JoinAlternating([merged], tail);
    if NoUserAfterTool(conv) {
      SuffixNoUserAfterTool(conv, n);
      JoinNoUserAfterTool([merged], tail);
    }
  }

  lemma AssistantFirst(conv: seq<Message>, k: nat, m: nat, tail: seq<Message>)
    requires 0 < k <= k + m <= |conv| && conv[k - 1].role == Assistant
    requires conv[0].role == Assistant && CallerRun(conv, k, m)
    requires Normalised(conv[k + m..], tail)
    ensures Normalised(conv, [conv[k - 1]] + conv[k..k + m] + tail)
  {
    hide Answered, Paired;
    var head := [conv[k - 1]] + conv[k..k + m];
    PairedBlock(conv[k - 1], conv[k..k + m], tail);
    assert head + tail == [conv[k - 1]] + conv[k..k + m] + tail;
    assert forall i :: 0 < i < |head| ==> head[i] == conv[k + i - 1] && head[i].role == Tool;
    assert head[|head| - 1] == conv[k + m - 1];
    JoinAlternating(head, tail);
    if NoUserAfterTool(conv) {
      SuffixNoUserAfterTool(conv, k + m);
      JoinNoUserAfterTool(head, tail);
    }
  }

  /** A paired conversation with alternating roles is left alone by the sequence step. */
  lemma {:induction false} NormalIsStable(conv: seq<Message>, last: Option<Role>)
    requires Paired(conv) && Alternating(conv) && Fits(conv, last)
    ensures Sequence(conv, last) == conv
    decreases |conv|
  {
    hide Answered, Survivor, MergeUsers, Sequence, RunLen, Alternating;
    if conv == [] {
      EmptyIsNormal(last);
    } else if Begins(conv, User) {
      RunOfOne(conv, User);
      UserRun(conv);
      UsersUnfold(conv, last);
      MergeOfOne(conv[0]);
      SuffixAlternates(conv, 1);
      NormalIsStable(conv[1..], Some(User));
      assert conv[..1] == [conv[0]];
    } else if Begins(conv, Assistant) {
      RunOfOne(conv, Assistant);
      AssistantRun(conv);
      var m := RunLen(conv[1..], Tool);
      SurvivorIsLast(conv[..1], conv[1..1 + m]);
      TurnUnfolds(conv, last, 1, m);
      SuffixAlternates(conv, 1 + m);
      NormalIsStable(conv[1 + m..], if m == 0 then Some(Assistant) else Some(Tool));
    }
  }

  lemma MergeOfOne(m: Message)
    requires m.role == User
    ensures MergeUsers([m]) == m
  {
  }

  lemma RunOfOne(conv: seq<Message>, role: Role)
    requires Begins(conv, role) && (role == User || role == Assistant) && Alternating(conv)
    ensures RunLen(conv, role) == 1
  {
    if |conv| > 1 {
      assert MayMeet(conv[0].role, conv[1].role);
    }
  }

  lemma PrefixAlternates(a: seq<Message>, b: seq<Message>)
    requires Alternating(a + b)
    ensures Alternating(a)
  {
    forall i | 0 < i < |a| ensures MayMeet(a[i - 1].role, a[i].role) {
      assert MayMeet((a + b)[i - 1].role, (a + b)[i].role);
    }
  }

  lemma SuffixAlternates(conv: seq<Message>, n: nat)
    requires n <= |conv| && Alternating(conv)
    ensures Alternating(conv[n..])
  {
    forall i | 0 < i < |conv[n..]| ensures MayMeet(conv[n..][i - 1].role, conv[n..][i].role) {
      assert MayMeet(conv[n + i - 1].role, conv[n + i].role);
    }
  }

  // ----- The system head

  lemma {:induction false} JoinIsTrimmed(parts: seq<string>)
    requires parts != [] && forall p :: p in parts ==> Trimmed(p)
    ensures Trimmed(Join(SEPARATOR, parts))
  {
    assert parts[0] in parts;
    if |parts| > 1 {
      assert forall p :: p in parts[1..] ==> p in parts;
      JoinIsTrimmed(parts[1..]);
      var tail := Join(SEPARATOR, parts[1..]);
      var all := parts[0] + SEPARATOR + tail;
      assert all[0] == parts[0][0] && all[|all| - 1] == tail[|tail| - 1];
    }
  }

  lemma {:induction false} PairedHasNoSystem(conv: seq<Message>)
    requires forall m :: m in conv ==> Spoken(m)
    ensures Conversation(conv) == conv && OfRole(conv, System) == []
  {
    if conv != [] {
      assert conv[0] in conv;
      PairedHasNoSystem(conv[1..]);
    }
  }

  lemma TextsAreTrimmed(texts: seq<string>)
    requires forall t :: t in texts ==> Strip(t) == t && t != ""
    ensures forall t :: t in texts ==> Trimmed(t)
  {
    forall t | t in texts ensures Trimmed(t) {
      StripFacts(t);
    }
  }

  /** A system head in front of a conversation is read back as both. */
  lemma HeadIsStable(texts: seq<string>, conv: seq<Message>)
    requires forall t :: t in texts ==> Strip(t) == t && t != ""
    requires forall m :: m in conv ==> Spoken(m)
    ensures var all := SystemHead(texts) + conv;
      Conversation(all) == conv && SystemHead(Texts(OfRole(all, System))) == SystemHead(texts)
  {
    PairedHasNoSystem(conv);
    if texts == [] {
      assert SystemHead(texts) + conv == conv;
    } else {
      var text := Join(SEPARATOR, texts);
      TextsAreTrimmed(texts);
      JoinIsTrimmed(texts);
      TrimmedIsStripped(text);
      var all := SystemHead(texts) + conv;
      assert all[1..] == conv && all[0] == SystemMessage(text);
      assert OfRole(all, System) == [all[0]];
      assert Texts([all[0]]) == [text] + Texts([]);
    }
  }

  lemma RepairReads(messages: seq<Message>)
    ensures var conv := RepairedConversation(Conversation(messages));
      && Conversation(Repair(messages)) == conv
      && SystemHead(Texts(OfRole(Repair(messages), System))) == SystemHead(Texts(OfRole(messages, System)))
      && Paired(conv) && StartsWithUser(conv)
  {
    hide RepairedConversation, Paired, SystemHead, Texts, OfRole, Conversation;
    var conv := RepairedConversation(Conversation(messages));
    RepairPairs(Conversation(messages));
    PairedIsSpoken(conv);
    HeadIsStable(Texts(OfRole(messages, System)), conv);
  }

  // ----- The main results

  /** A repair of a repaired conversation merges what the first pass left adjacent, and changes nothing else. */
  lemma RepairAgain(conv: seq<Message>)
    requires Paired(conv) && StartsWithUser(conv)
    ensures var out := RepairedConversation(conv);
      && out == Sequence(conv, None) && Normalised(conv, out) && StartsWithUser(out)
      && (out == conv <==> Alternating(conv))
  {
    hide Paired, Sequence, Parity, Alternating, NoUserAfterTool;
    assert Fits(conv, None);
    SequenceNormalises(conv, None);
    PairedIsStable(Sequence(conv, None));
    SequenceStarts(conv);
    if Alternating(conv) {
      NormalIsStable(conv, None);
    }
  }

  /** Two passes reach a fixpoint for every list of messages, and the fixpoint alternates and is paired. */
  lemma RepairReachesFixpoint(messages: seq<Message>)
    ensures Repair(Repair(Repair(messages))) == Repair(Repair(messages))
    ensures var conv := Conversation(Repair(Repair(messages)));
      Paired(conv) && StartsWithUser(conv) && Alternating(conv)
  {
    hide RepairedConversation, Paired, SystemHead, Texts, OfRole, Conversation, Alternating, NoUserAfterTool;
    var once, twice := Repair(messages), Repair(Repair(messages));
    RepairReads(messages);
    RepairReads(once);
    RepairReads(twice);
    RepairAgain(Conversation(once));
    RepairAgain(Conversation(twice));
  }

  /** A second pass changes something only by merging what the first one left side by side. */
  lemma SecondPassMerges(messages: seq<Message>)
    ensures Repair(Repair(messages)) == Repair(messages) <==> Alternating(Conversation(Repair(messages)))
  {
    hide RepairedConversation, Paired, SystemHead, Texts, OfRole, Conversation, Alternating, NoUserAfterTool;
    RepairReads(messages);
    RepairReads(Repair(messages));
    RepairAgain(Conversation(Repair(messages)));
  }

  /** A result between two users: the sequence step sees three runs, drops the middle one, and leaves two users. */
  lemma OnePassLeavesTwoUsers(u: string, v: string)
    ensures var x := Message(User, Some(u), Absent, false, None, None);
      var y := Message(User, Some(v), Absent, false, None, None);
      var t := Message(Tool, Some(""), Absent, false, None, None);
      Repair([x, t, y]) == [x, y] && Repair([x, y]) != [x, y]
  {
    var x := Message(User, Some(u), Absent, false, None, None);
    var y := Message(User, Some(v), Absent, false, None, None);
    var t := Message(Tool, Some(""), Absent, false, None, None);
    SplitUsers(x, t, y);
    PairOfUsers(x, y);
  }

  lemma TwoUsers(x: Message, y: Message)
    requires x.role == y.role == User
    ensures Conversation([x, y]) == Parity([x, y]) == [x, y] && OfRole([x, y], System) == []
    ensures RunLen([x, y], User) == 2 && RunLen([y], User) == 1 && Parity([y]) == [y]
  {
    OneUser(y);
    assert [x, y][1..] == [y];
  }

  lemma OneUser(y: Message)
    requires y.role == User
    ensures Conversation([y]) == [y] && OfRole([y], System) == [] && Parity([y]) == [y] && RunLen([y], User) == 1
  {
    assert [y][1..] == [];
    assert RunLen([], User) == 0;
  }

  lemma SplitUsers(x: Message, t: Message, y: Message)
    requires x.role == y.role == User && t.role == Tool
    ensures Repair([x, t, y]) == [x, y]
  {
    hide MergeUsers, Survivor, Texts, Strip, Join;
    var conv := [x, t, y];
    OneUser(y);
    assert conv[1..] == [t, y] && [t, y][1..] == [y] && [y][1..] == [];
    PairedHasNoSystem(conv);
    EmptyTexts();
    MergeOfOne(x);
    MergeOfOne(y);
    TwoUsers(x, y);
    assert RunLen(conv, User) == 1 && RunLen([t, y], Tool) == 1;
    UsersUnfold([y], Some(User));
    ToolsUnfold([t, y], Some(User));
    UsersUnfold(conv, None);
    assert conv[..1] == [x] && [y][..1] == [y];
    assert Sequence(conv, None) == [x, y];
  }

  lemma EmptyTexts()
    ensures Texts([]) == []
  {
  }

  lemma PairOfUsers(x: Message, y: Message)
    requires x.role == y.role == User
    ensures |Repair([x, y])| == 1
  {
    hide MergeUsers, Survivor, Texts, Strip, Join, Conversation, OfRole;
    var conv := [x, y];
    TwoUsers(x, y);
    EmptyTexts();
    UsersUnfold(conv, None);
    assert conv[..2] == conv && conv[2..] == [];
    assert Sequence([], Some(User)) == [];
    var merged := MergeUsers(conv);
    assert Sequence(conv, None) == [merged];
    assert [merged][1..] == [] && Parity([merged]) == [merged];
  }

  // ----- Nothing a user wrote is lost

  /** What the users wrote, in order. */
  function UserWords(messages: seq<Message>): string {
    Join(SEPARATOR, Texts(OfRole(messages, User)))
  }

  /** Two joined texts side by side; a blank one leaves no separator. */
  function Beside(a: string, b: string): string {
    if a == "" then b else if b == "" then a else a + SEPARATOR + b
  }

  lemma {:induction false} JoinBeside(a: seq<string>, b: seq<string>)
    requires forall t :: t in a + b ==> Trimmed(t)
    ensures Join(SEPARATOR, a + b) == Beside(Join(SEPARATOR, a), Join(SEPARATOR, b))
  {
    if a == [] {
      assert a + b == b;
    } else if b == [] {
      assert a + b == a;
      JoinIsTrimmed(a);
    } else {
      forall t | t in a ensures Trimmed(t) { assert t in a + b; }
      forall t | t in b ensures Trimmed(t) { assert t in a + b; }
      JoinIsTrimmed(a);
      JoinIsTrimmed(b);
      assert (a + b)[1..] == a[1..] + b;
      if |a| > 1 {
        forall t | t in a[1..] + b ensures Trimmed(t) { assert t in a + b; }
        JoinBeside(a[1..], b);
        forall t | t in a[1..] ensures Trimmed(t) { assert t in a; }
        JoinIsTrimmed(a[1..]);
      } else {
        assert a[1..] + b == b;
      }
    }
  }

  lemma {:induction false} TextsCat(a: seq<Message>, b: seq<Message>)
    ensures Texts(a + b) == Texts(a) + Texts(b)
  {
    hide Strip;
    if a == [] {
      assert a + b == b;
    } else {
      assert (a + b)[1..] == a[1..] + b;
      TextsCat(a[1..], b);
    }
  }

  lemma {:induction false} OfRoleCat(a: seq<Message>, b: seq<Message>, role: Role)
    ensures OfRole(a + b, role) == OfRole(a, role) + OfRole(b, role)
  {
    if a == [] {
      assert a + b == b;
    } else {
      assert (a + b)[1..] == a[1..] + b;
      OfRoleCat(a[1..], b, role);
    }
  }

  lemma WordsCat(a: seq<Message>, b: seq<Message>)
    ensures UserWords(a + b) == Beside(UserWords(a), UserWords(b))
  {
    hide Join, Texts, OfRole;
    OfRoleCat(a, b, User);
    var x, y := Texts(OfRole(a, User)), Texts(OfRole(b, User));
    TextsCat(OfRole(a, User), OfRole(b, User));
    TextsAreTrimmed(x);
    TextsAreTrimmed(y);
    JoinBeside(x, y);
  }

  lemma {:induction false} WordsOfOthers(messages: seq<Message>)
    requires forall m :: m in messages ==> m.role != User
    ensures UserWords(messages) == ""
  {
    if messages != [] {
      assert messages[0] in messages;
      WordsOfOthers(messages[1..]);
    }
  }

  lemma {:induction false} UsersOfUsers(run: seq<Message>)
    requires forall m :: m in run ==> m.role == User
    ensures OfRole(run, User) == run
  {
    if run != [] {
      assert run[0] in run;
      UsersOfUsers(run[1..]);
    }
  }

  lemma MergedWords(run: seq<Message>)
    requires run != [] && forall m :: m in run ==> m.role == User
    ensures UserWords([MergeUsers(run)]) == UserWords(run)
  {
    hide Strip, Join;
    var merged := MergeUsers(run);
    UsersOfUsers(run);
    UsersOfUsers([merged]);
    if |run| == 1 {
      assert run == [merged];
    } else {
      var texts := Texts(run);
      TextsAreTrimmed(texts);
      if texts == [] {
        BlankJoin();
        OneText(merged, "");
      } else {
        JoinIsTrimmed(texts);
        TrimmedIsStripped(Join(SEPARATOR, texts));
        OneText(merged, Join(SEPARATOR, texts));
      }
    }
  }

  lemma BlankJoin()
    ensures Join(SEPARATOR, []) == "" && Strip("") == ""
  {
  }

  lemma OneText(m: Message, text: string)
    requires m.content == Some(text) && Strip(text) == text
    ensures Join(SEPARATOR, Texts([m])) == text
  {
    assert [m][1..] == [];
    assert Texts([]) == [];
  }

  /** The sequence step keeps every word of every user. */
  lemma {:induction false} SequenceKeepsWords(conv: seq<Message>, last: Option<Role>)
    ensures UserWords(Sequence(conv, last)) == UserWords(conv)
    decreases |conv|
  {
    hide UserWords, Beside, MergeUsers, Survivor, Sequence, RunLen, CallsOf;
    if conv == [] {
      EmptyIsNormal(last);
    } else {
      var role := conv[0].role;
      RunLenTail(conv, role);
      var n := RunLen(conv, role);
      var run, rest := conv[..n], conv[n..];
      assert run + rest == conv;
      WordsCat(run, rest);
      match role
      case User =>
        UsersUnfold(conv, last);
        SequenceKeepsWords(rest, Some(User));
        MergedWords(run);
        WordsCat([MergeUsers(run)], Sequence(rest, Some(User)));
      case Tool =>
        ToolsUnfold(conv, last);
        SequenceKeepsWords(rest, Some(Tool));
        SequenceKeepsWords(rest, last);
        WordsOfOthers(run);
        WordsCat(run, Sequence(rest, Some(Tool)));
        BesideBlank(UserWords(rest));
      case Assistant =>
        AssistantsUnfold(conv, last);
        SequenceKeepsWords(rest, Some(Assistant));
        SequenceKeepsWords(rest, last);
        var kept := [Survivor(run, Begins(rest, Tool))];
        WordsOfOthers(run);
        WordsOfOthers(kept);
        WordsCat(kept, Sequence(rest, Some(Assistant)));
        BesideBlank(UserWords(rest));
      case _ =>
        OthersUnfold(conv, last);
        SequenceKeepsWords(conv[1..], last);
        WordsOfOthers([conv[0]]);
        assert [conv[0]] + conv[1..] == conv;
        WordsCat([conv[0]], conv[1..]);
        BesideBlank(UserWords(conv[1..]));
    }
  }

  lemma BesideBlank(a: string)
    ensures Beside("", a) == a && Beside(a, "") == a
  {
  }

  lemma ParityOfNothing()
    ensures Parity([]) == []
  {
  }

  lemma ParityAtAssistant(conv: seq<Message>)
    requires Begins(conv, Assistant)
    ensures var n := RunLen(conv[1..], Tool);
      Parity(conv) == Reconcile(conv[0], conv[1..1 + n]) + Parity(conv[1 + n..])
  {
    hide Reconcile;
  }

  lemma ParityElsewhere(conv: seq<Message>)
    requires conv != [] && conv[0].role != Assistant
    ensures Parity(conv) == if conv[0].role == Tool then Parity(conv[1..]) else [conv[0]] + Parity(conv[1..])
  {
    hide Reconcile;
  }

  lemma TurnParts(conv: seq<Message>, n: nat)
    requires conv != [] && n == RunLen(conv[1..], Tool)
    ensures conv == ([conv[0]] + conv[1..1 + n]) + conv[1 + n..]
    ensures forall m :: m in conv[1..1 + n] ==> m.role == Tool
  {
    hide RunLen;
    assert conv[1..][..n] == conv[1..1 + n];
  }

  lemma {:induction false} ParityKeepsUsers(conv: seq<Message>)
    ensures OfRole(Parity(conv), User) == OfRole(conv, User)
    decreases |conv|
  {
    hide Reconcile, Answered, Parity, OfRole;
    if conv == [] {
      ParityOfNothing();
    } else if conv[0].role == Assistant {
      var n := RunLen(conv[1..], Tool);
      var block, tools, rest := Reconcile(conv[0], conv[1..1 + n]), conv[1..1 + n], conv[1 + n..];
      ParityAtAssistant(conv);
      ParityKeepsUsers(rest);
      ReconcileAnswers(conv[0], tools);
      TurnParts(conv, n);
      OfRoleCat([conv[0]] + tools, rest, User);
      OfRoleCat(block, Parity(rest), User);
      NoneOfRole([conv[0]] + tools, User);
      NoneOfRole(block, User);
    } else {
      ParityKeepsUsers(conv[1..]);
      ParityElsewhere(conv);
      HeadAndTail(conv);
      OfRoleCat([conv[0]], conv[1..], User);
      OfRoleCat([conv[0]], Parity(conv[1..]), User);
      if conv[0].role == Tool {
        NoneOfRole([conv[0]], User);
      }
    }
  }

  lemma {:induction false} NoneOfRole(messages: seq<Message>, role: Role)
    requires forall m :: m in messages ==> m.role != role
    ensures OfRole(messages, role) == []
  {
    if messages != [] {
      assert messages[0] in messages;
      NoneOfRole(messages[1..], role);
    }
  }

  lemma {:induction false} ConversationKeepsUsers(messages: seq<Message>)
    ensures OfRole(Conversation(messages), User) == OfRole(messages, User)
  {
    if messages != [] {
      ConversationKeepsUsers(messages[1..]);
    }
  }

  lemma RepairedWords(conv: seq<Message>)
    ensures UserWords(RepairedConversation(conv)) == UserWords(conv)
  {
    hide Parity, Sequence;
    ParityKeepsUsers(Sequence(conv, None));
    SequenceKeepsWords(conv, None);
  }

  /** A repair drops and merges messages, but keeps every word the users wrote, in order. */
  lemma RepairKeepsUserWords(messages: seq<Message>)
    ensures UserWords(Repair(messages)) == UserWords(messages)
  {
    hide RepairedConversation, Conversation, OfRole, Join;
    ConversationKeepsUsers(messages);
    RepairedWords(Conversation(messages));
    RepairReads(messages);
    ConversationKeepsUsers(Repair(messages));
  }

  // ----- Reading the pairing predicate

  /** An assistant has its results right behind it, as many as it has calls, with the ids they ask for. */
  ghost predicate OwnResults(conv: seq<Message>, i: nat)
    requires i < |conv|
  {
    var calls := CallsOf(conv[i]);
    && i + |calls| < |conv|
    && (forall j :: 0 <= j < |calls| ==> AnsweredAt(conv, i, j))
    && (i + |calls| + 1 < |conv| ==> conv[i + |calls| + 1].role != Tool)
  }

  ghost predicate AnsweredAt(conv: seq<Message>, i: nat, j: nat)
    requires i + j + 1 < |conv| && j < |CallsOf(conv[i])|
  {
    && conv[i + j + 1].role == Tool
    && (CallId(CallsOf(conv[i])[j]).Some? ==> ResultId(conv[i + j + 1]) == CallId(CallsOf(conv[i])[j]))
  }

  /** The assistant or user in front of the results that end at `i`. */
  function Owner(conv: seq<Message>, i: nat): (o: int)
    requires i < |conv|
    ensures -1 <= o <= i && (o >= 0 ==> conv[o].role != Tool) && forall k :: o < k <= i ==> conv[k].role == Tool
  {
    if conv[i].role != Tool then i else if i == 0 then -1 else Owner(conv, i - 1)
  }

  /** The first user, or the first assistant with its results. */
  lemma FirstBlock(conv: seq<Message>) returns (n: nat)
    requires Paired(conv) && conv != []
    ensures 0 < n <= |conv| && Paired(conv[n..])
    ensures conv[0].role != Tool && forall k :: 0 < k < n ==> conv[k].role == Tool && conv[0].role == Assistant
  {
    hide Answered;
    n := if conv[0].role == User then 1 else 1 + RunLen(conv[1..], Tool);
    if conv[0].role == Assistant {
      assert forall k :: 0 < k < n ==> conv[k] == conv[1..][k - 1];
    }
  }

  lemma {:induction false} AssistantOwns(conv: seq<Message>, i: nat)
    requires Paired(conv) && i < |conv| && conv[i].role == Assistant
    ensures OwnResults(conv, i)
    decreases i
  {
    hide Paired, OwnResults;
    var n := FirstBlock(conv);
    if i >= n {
      AssistantOwns(conv[n..], i - n);
      ResultsShift(conv, n, i);
    } else {
      FirstResults(conv);
    }
  }

  lemma {:induction false} ResultIsOwned(conv: seq<Message>, i: nat)
    requires Paired(conv) && i < |conv| && conv[i].role == Tool
    ensures Owner(conv, i) >= 0 && conv[Owner(conv, i)].role == Assistant
    decreases i
  {
    hide Paired, Owner;
    var n := FirstBlock(conv);
    if i >= n {
      ResultIsOwned(conv[n..], i - n);
      OwnerShift(conv, n, i - n);
    } else {
      OwnerIs(conv, i);
    }
  }

  /** In a paired conversation every assistant has its own results, and every result belongs to an assistant. */
  lemma PairedMeans(conv: seq<Message>)
    requires Paired(conv)
    ensures forall i :: 0 <= i < |conv| && conv[i].role == Assistant ==> OwnResults(conv, i)
    ensures forall i :: 0 <= i < |conv| && conv[i].role == Tool ==>
      Owner(conv, i) >= 0 && conv[Owner(conv, i)].role == Assistant
  {
    hide Paired, OwnResults, Owner;
    forall i: nat | i < |conv| && conv[i].role == Assistant ensures OwnResults(conv, i) {
      AssistantOwns(conv, i);
    }
    forall i: nat | i < |conv| && conv[i].role == Tool
      ensures Owner(conv, i) >= 0 && conv[Owner(conv, i)].role == Assistant
    {
      ResultIsOwned(conv, i);
    }
  }

  lemma FirstResults(conv: seq<Message>)
    requires Paired(conv) && Begins(conv, Assistant)
    ensures OwnResults(conv, 0)
  {
    hide CallId, ResultId, CallsOf;
    var n := RunLen(conv[1..], Tool);
    assert Answered(conv[0], conv[1..1 + n]);
    forall j | 0 <= j < n ensures AnsweredAt(conv, 0, j) {
      assert conv[1..1 + n][j] == conv[j + 1] && conv[1..][j] == conv[j + 1];
    }
  }

  lemma ResultsShift(conv: seq<Message>, n: nat, i: nat)
    requires n <= i < |conv| && OwnResults(conv[n..], i - n)
    ensures OwnResults(conv, i)
  {
    hide CallId, ResultId, CallsOf;
    var rest := conv[n..];
    assert rest[i - n] == conv[i];
    forall j | 0 <= j < |CallsOf(conv[i])| ensures AnsweredAt(conv, i, j) {
      assert AnsweredAt(rest, i - n, j) && rest[i - n + j + 1] == conv[i + j + 1];
    }
  }

  lemma {:induction false} OwnerShift(conv: seq<Message>, n: nat, i: nat)
    requires n + i < |conv| && Owner(conv[n..], i) >= 0
    ensures Owner(conv, n + i) == n + Owner(conv[n..], i)
  {
    if i > 0 && conv[n + i].role == Tool {
      OwnerShift(conv, n, i - 1);
    }
  }

  lemma {:induction false} OwnerIs(conv: seq<Message>, i: nat)
    requires i < |conv| && conv[0].role != Tool && forall k :: 0 < k <= i ==> conv[k].role == Tool
    ensures Owner(conv, i) == 0
  {
    if i > 0 {
      OwnerIs(conv, i - 1);
    }
  }

  // ----- The loops

  method TakeRun(conv: seq<Message>, from: nat, role: Role) returns (end: nat)
    requires from <= |conv|
    ensures end == from + RunLen(conv[from..], role)
  {
    end := from;
    while end < |conv| && conv[end].role == role
      invariant from <= end <= |conv|
      invariant from + RunLen(conv[from..], role) == end + RunLen(conv[end..], role)
    {
      RunLenTail(conv[end..], role);
      assert conv[end..][1..] == conv[end + 1..];
      end := end + 1;
    }
  }

  /** `_repair_mistral_tool_call_parity`. */
  method RepairToolCallParity(conv: seq<Message>) returns (repaired: seq<Message>)
    ensures repaired == Parity(conv)
  {
    hide Parity, RunLen, Reconcile, CallsOf, Match, Matched;
    repaired := [];
    assert conv[0..] == conv;
    var index: nat := 0;
    while index < |conv|
      invariant index <= |conv|
      invariant Parity(conv) == repaired + Parity(conv[index..])
    {
      ParityUnfold(conv, index);
      if conv[index].role == Tool {
        index := index + 1;
      } else if conv[index].role != Assistant {
        repaired := repaired + [conv[index]];
        index := index + 1;
      } else {
        var end := TakeRun(conv, index + 1, Tool);
        var block, _, _ := ReconcileToolBlock(conv[index], conv[index + 1..end]);
        repaired := repaired + block;
        index := end;
      }
    }
    ParityUnfold(conv, index);
  }

  lemma ParityUnfold(conv: seq<Message>, index: nat)
    requires index <= |conv|
    ensures index == |conv| ==> Parity(conv[index..]) == []
    ensures index < |conv| ==>
      Parity(conv[index..]) ==
        if conv[index].role == Tool then Parity(conv[index + 1..])
        else if conv[index].role != Assistant then [conv[index]] + Parity(conv[index + 1..])
        else
          var end := index + 1 + RunLen(conv[index + 1..], Tool);
          Reconcile(conv[index], conv[index + 1..end]) + Parity(conv[end..])
  {
    hide Reconcile, Parity;
    if index == |conv| {
      ParityOfNothing();
    } else {
      var rest := conv[index..];
      SliceOfTail(conv, index, index + 1, |conv|);
      if rest[0].role == Assistant {
        var n := RunLen(rest[1..], Tool);
        SliceOfTail(conv, index, index + 1, index + 1 + n);
        SliceOfTail(conv, index, index + 1 + n, |conv|);
        ParityAtAssistant(rest);
      } else {
        ParityElsewhere(rest);
      }
    }
  }

  lemma {:induction false} ReadingUnfolds(messages: seq<Message>, i: nat)
    requires i < |messages|
    ensures Conversation(messages[i..])
         == (if Spoken(messages[i]) then [messages[i]] else []) + Conversation(messages[i + 1..])
    ensures Texts(OfRole(messages[i..], System))
      == (if messages[i].role == System && Strip(TextOf(messages[i])) != "" then [Strip(TextOf(messages[i]))] else [])
         + Texts(OfRole(messages[i + 1..], System))
  {
    hide Strip;
    assert messages[i..][1..] == messages[i + 1..];
    if messages[i].role == System {
      var rest := OfRole(messages[i + 1..], System);
      assert ([messages[i]] + rest)[1..] == rest;
    }
  }

  /** The first loop of `_repair_mistral_message_sequence`: system texts to one side, the conversation to the other. */
  method ReadMessages(messages: seq<Message>) returns (systemContents: seq<string>, conversation: seq<Message>)
    ensures systemContents == Texts(OfRole(messages, System))
    ensures conversation == Conversation(messages)
  {
    hide Conversation, Texts, OfRole, Strip;
    systemContents, conversation := [], [];
    assert messages[0..] == messages;
    for i := 0 to |messages|
      invariant Texts(OfRole(messages, System)) == systemContents + Texts(OfRole(messages[i..], System))
      invariant Conversation(messages) == conversation + Conversation(messages[i..])
    {
      ReadingUnfolds(messages, i);
      EmptyStrip();
      var m := messages[i];
      if m.role == System {
        if m.content.Some? && Strip(m.content.value) != "" {
          systemContents := systemContents + [Strip(m.content.value)];
        }
      } else if Spoken(m) {
        conversation := conversation + [m];
      }
    }
    NothingRead(messages);
  }

  /** The second loop: run by run. */
  method SequenceRuns(conversation: seq<Message>) returns (repaired: seq<Message>)
    ensures repaired == Sequence(conversation, None)
  {
    hide Sequence, RunLen, MergeUsers, Survivor;
    repaired := [];
    var last: Option<Role> := None;
    var index: nat := 0;
    assert conversation[0..] == conversation;
    while index < |conversation|
      invariant index <= |conversation|
      invariant Sequence(conversation, None) == repaired + Sequence(conversation[index..], last)
    {
      var role := conversation[index].role;
      var end := TakeRun(conversation, index, role);
      SequenceUnfolds(conversation, index, end, last);
      var run := conversation[index..end];
      if role == User {
        Associates(repaired, [MergeUsers(run)], Sequence(conversation[end..], Some(User)));
        repaired := repaired + [MergeUsers(run)];
        last := Some(User);
        index := end;
      } else if role == Tool {
        if last == Some(Assistant) || last == Some(Tool) {
          Associates(repaired, run, Sequence(conversation[end..], Some(Tool)));
          repaired := repaired + run;
          last := Some(Tool);
        }
        index := end;
      } else if role != Assistant {
        index := index + 1;
      } else {
        if last == Some(User) || last == Some(Tool) {
          var nextIsTool := end < |conversation| && conversation[end].role == Tool;
          Associates(repaired, [Survivor(run, nextIsTool)], Sequence(conversation[end..], Some(Assistant)));
          repaired := repaired + [Survivor(run, nextIsTool)];
          last := Some(Assistant);
        }
        index := end;
      }
    }
    SequenceEnds(conversation, last);
  }

  /** `_repair_mistral_message_sequence`. */
  method RepairMessageSequence(messages: seq<Message>) returns (result: seq<Message>)
    ensures result == Repair(messages)
  {
    hide Sequence, Parity, Texts, OfRole, Conversation;
    var systemContents, conversation := ReadMessages(messages);
    var sequenced := SequenceRuns(conversation);
    var repaired := RepairToolCallParity(sequenced);
    result := [];
    if systemContents != [] {
      result := [SystemMessage(Join(SEPARATOR, systemContents))];
    }
    result := result + repaired;
  }

  lemma EmptyStrip()
    ensures Strip("") == ""
  {
  }

  lemma NothingRead(messages: seq<Message>)
    ensures Texts(OfRole(messages[|messages|..], System)) == [] && Conversation(messages[|messages|..]) == []
  {
  }

  lemma SequenceEnds(conv: seq<Message>, last: Option<Role>)
    ensures Sequence(conv[|conv|..], last) == []
  {
  }

  lemma SequenceUnfolds(conv: seq<Message>, index: nat, end: nat, last: Option<Role>)
    requires index < |conv| && end == index + RunLen(conv[index..], conv[index].role)
    ensures index < end && forall m :: m in conv[index..end] ==> m.role == conv[index].role
    ensures Sequence(conv[index..], last) ==
      match conv[index].role
      case User => [MergeUsers(conv[index..end])] + Sequence(conv[end..], Some(User))
      case Tool =>
        if last == Some(Assistant) || last == Some(Tool) then conv[index..end] + Sequence(conv[end..], Some(Tool))
        else Sequence(conv[end..], last)
      case Assistant =>
        if last == Some(User) || last == Some(Tool)
        then [Survivor(conv[index..end], Begins(conv[end..], Tool))] + Sequence(conv[end..], Some(Assistant))
        else Sequence(conv[end..], last)
      case _ => Sequence(conv[index + 1..], last)
  {
    hide MergeUsers, Survivor, Sequence;
    var rest := conv[index..];
    var n := RunLen(rest, rest[0].role);
    assert rest[..n] == conv[index..end] && rest[n..] == conv[end..] && rest[1..] == conv[index + 1..];
    match conv[index].role
    case User => UsersUnfold(rest, last);
    case Tool => ToolsUnfold(rest, last);
    case Assistant => AssistantsUnfold(rest, last);
    case _ => OthersUnfold(rest, last);
  }

  lemma OthersUnfold(conv: seq<Message>, last: Option<Role>)
    requires conv != [] && !Spoken(conv[0])
    ensures Sequence(conv, last) == Sequence(conv[1..], last)
  {
  }
}
