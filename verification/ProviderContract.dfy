/** What the assembled messages always are, and what becomes of the latest question. */
module ProviderContract {
  import opened Sequences
  import opened Strings
  import opened ToolBlocks
  import opened MessageRepair
  import opened ContextAssembly
  import opened RepairBlocks

  /** At most one system message, at the head, and `conv` behind it. */
  ghost predicate Headed(messages: seq<Message>, conv: seq<Message>) {
    messages == conv || (messages != [] && messages[0].role == System && messages[1..] == conv)
  }

  predicate EndsSafely(conv: seq<Message>) {
    conv != [] && (conv[|conv| - 1].role == User || conv[|conv| - 1].role == Tool)
  }

  /** A conversation of paired calls that starts with a user, with no user right behind a result. */
  ghost predicate Orderly(conv: seq<Message>) {
    && conv != []
    && StartsWithUser(conv)
    && Paired(conv)
    && NoUserAfterTool(conv)
  }

  /** What the provider accepts. */
  ghost predicate ProviderSafe(messages: seq<Message>) {
    var conv := Conversation(messages);
    Headed(messages, conv) && Orderly(conv) && EndsSafely(conv) && Alternating(conv)
  }

  // ----- No tool result in front of a user

  ghost predicate NoUsers(conv: seq<Message>) {
    forall m :: m in conv ==> m.role != User
  }

  ghost predicate NoTools(conv: seq<Message>) {
    forall m :: m in conv ==> m.role != Tool
  }

  /** All tool results stand behind all users. */
  ghost predicate Late(conv: seq<Message>) {
    forall i, j :: 0 <= i < j < |conv| && conv[i].role == Tool ==> conv[j].role != User
  }

  lemma LateCat(a: seq<Message>, b: seq<Message>)
    requires NoTools(a) && Late(b)
    ensures Late(a + b)
  {
    var all := a + b;
    forall i, j | 0 <= i < j < |all| && all[i].role == Tool ensures all[j].role != User {
      if i < |a| {
        NotATool(a, i);
      } else {
        assert all[i] == b[i - |a|] && all[j] == b[j - |a|];
      }
    }
  }

  lemma NotATool(a: seq<Message>, i: nat)
    requires NoTools(a) && i < |a|
    ensures a[i].role != Tool
  {
    assert a[i] in a;
  }

  lemma LateTail(conv: seq<Message>, n: nat)
    requires Late(conv) && n <= |conv|
    ensures Late(conv[n..])
    ensures 0 < n && conv[0].role == Tool ==> NoUsers(conv)
  {
    var rest := conv[n..];
    forall i, j | 0 <= i < j < |rest| && rest[i].role == Tool ensures rest[j].role != User {
      assert rest[i] == conv[n + i] && rest[j] == conv[n + j];
    }
  }

  lemma NoUsersIsLate(conv: seq<Message>)
    requires NoUsers(conv)
    ensures Late(conv) && forall n :: 0 <= n <= |conv| ==> NoUsers(conv[n..])
  {
  }

  lemma {:induction false} SequenceNoUsers(conv: seq<Message>, last: Option<Role>)
    requires NoUsers(conv)
    ensures NoUsers(Sequence(conv, last))
    decreases |conv|
  {
    hide Sequence, MergeUsers, Survivor, RunLen, CallsOf;
    if conv == [] {
      EmptyIsNormal(last);
    } else {
      assert conv[0] in conv;
      RunLenTail(conv, conv[0].role);
      var n := RunLen(conv, conv[0].role);
      if conv[0].role == Tool {
        ToolsUnfold(conv, last);
        SequenceNoUsers(conv[n..], Some(Tool));
        SequenceNoUsers(conv[n..], last);
      } else if conv[0].role == Assistant {
        AssistantsUnfold(conv, last);
        SequenceNoUsers(conv[n..], Some(Assistant));
        SequenceNoUsers(conv[n..], last);
      } else {
        OthersUnfold(conv, last);
        SequenceNoUsers(conv[1..], last);
      }
    }
  }

  lemma {:induction false} SequenceIsLate(conv: seq<Message>, last: Option<Role>)
    requires Late(conv)
    ensures Late(Sequence(conv, last))
    decreases |conv|
  {
    hide Sequence, MergeUsers, Survivor, RunLen, CallsOf, Late;
    if conv == [] {
      EmptyIsNormal(last);
      NoUsersIsLate([]);
    } else {
      RunLenTail(conv, conv[0].role);
      var n := RunLen(conv, conv[0].role);
      LateTail(conv, n);
      match conv[0].role
      case Tool =>
        SequenceNoUsers(conv, last);
        NoUsersIsLate(Sequence(conv, last));
      case User =>
        UsersUnfold(conv, last);
        SequenceIsLate(conv[n..], Some(User));
        LateCat([MergeUsers(conv[..n])], Sequence(conv[n..], Some(User)));
      case Assistant =>
        AssistantsUnfold(conv, last);
        SequenceIsLate(conv[n..], Some(Assistant));
        SequenceIsLate(conv[n..], last);
        LateCat([Survivor(conv[..n], Begins(conv[n..], Tool))], Sequence(conv[n..], Some(Assistant)));
      case _ =>
        LateTail(conv, 1);
        OthersUnfold(conv, last);
        SequenceIsLate(conv[1..], last);
    }
  }

  lemma {:induction false} ParityNoUsers(conv: seq<Message>)
    requires NoUsers(conv)
    ensures NoUsers(Parity(conv))
  {
    hide Parity;
    ParityKeepsUsers(conv);
    NoneOfRole(conv, User);
    EmptyHasNone(Parity(conv));
  }

  lemma {:induction false} EmptyHasNone(conv: seq<Message>)
    requires OfRole(conv, User) == []
    ensures NoUsers(conv)
  {
    if conv != [] {
      EmptyHasNone(conv[1..]);
    }
  }

  lemma {:induction false} ParityIsLate(conv: seq<Message>)
    requires Late(conv)
    ensures Late(Parity(conv))
    decreases |conv|
  {
    hide Reconcile, Answered, RunLen, Late, Parity;
    assert conv[0..] == conv;
    ParityUnfold(conv, 0);
    if conv == [] {
      NoUsersIsLate([]);
    } else if conv[0].role == Tool {
      LateTail(conv, 1);
      ParityNoUsers(conv);
      NoUsersIsLate(Parity(conv));
    } else if conv[0].role != Assistant {
      LateTail(conv, 1);
      ParityIsLate(conv[1..]);
      LateCat([conv[0]], Parity(conv[1..]));
    } else {
      var n := RunLen(conv[1..], Tool);
      LateTail(conv, 1);
      if n == 0 {
        assert conv[1 + n..] == conv[1..] && conv[1..1 + n] == [];
        ParityIsLate(conv[1..]);
        ReconcileAnswers(conv[0], []);
        NoToolsAnswered(Reconcile(conv[0], []), conv[0]);
        LateCat(Reconcile(conv[0], []), Parity(conv[1..]));
      } else {
        assert conv[1..][0].role == Tool;
        LateTail(conv[1..], 1);
        assert forall m :: m in conv ==> m == conv[0] || m in conv[1..];
        ParityNoUsers(conv);
        NoUsersIsLate(Parity(conv));
      }
    }
  }

  lemma NoToolsAnswered(block: seq<Message>, assistant: Message)
    requires assistant.role == Assistant
    requires block == [] || (block[0].role == assistant.role && forall k :: 1 <= k < |block| ==> block[k] in [])
    ensures NoTools(block)
  {
    forall m | m in block ensures m.role != Tool {
      var k :| 0 <= k < |block| && block[k] == m;
    }
  }

  lemma LateIsAdjacent(conv: seq<Message>)
    requires Late(conv)
    ensures NoUserAfterTool(conv)
  {
  }

  // ----- Sanitizing and system blocks

  lemma {:induction false} ConversationCat(a: seq<Message>, b: seq<Message>)
    ensures Conversation(a + b) == Conversation(a) + Conversation(b)
  {
    if a == [] {
      assert a + b == b;
    } else {
      assert (a + b)[1..] == a[1..] + b;
      ConversationCat(a[1..], b);
    }
  }

  lemma {:induction false} SanitizedNoUsers(messages: seq<Message>, index: nat, lastUser: int, s: Settings)
    requires index <= |messages| && forall i :: index <= i < |messages| ==> messages[i].role != User
    ensures NoUsers(Sanitized(messages, index, lastUser, s))
    decreases |messages| - index
  {
    hide IsStaleUpload, Truncated, Strip, TextOf;
    if index < |messages| {
      SanitizedNoUsers(messages, index + 1, lastUser, s);
    }
  }

  lemma SanitizedRole(m: Message, index: nat, lastUser: int, s: Settings)
    ensures var out := SanitizedAt(m, index, lastUser, s);
      && |out| <= 1
      && (out != [] && out[0].role == Tool ==> index > lastUser)
      && (m.role == User ==> out != [] && out[0].role == User)
      && (out != [] && out[0].role == User ==> m.role == User)
  {
    hide IsStaleUpload, Truncated, Strip, TextOf;
  }

  lemma {:induction false} ConversationOfNone(messages: seq<Message>)
    ensures NoUsers(messages) ==> NoUsers(Conversation(messages))
    ensures NoTools(messages) ==> NoTools(Conversation(messages))
  {
    if messages != [] {
      ConversationOfNone(messages[1..]);
    }
  }

  /** After sanitizing, all tool results stand behind the last user. */
  lemma {:induction false} SanitizedIsLate(messages: seq<Message>, index: nat, s: Settings)
    requires index <= |messages|
    ensures Late(Conversation(Sanitized(messages, index, LastUser(messages), s)))
    decreases |messages| - index
  {
    hide SanitizedAt, Late, Conversation;
    var last := LastUser(messages);
    var out := Sanitized(messages, index, last, s);
    if index > last {
      SanitizedNoUsers(messages, index, last, s);
      ConversationOfNone(out);
      NoUsersIsLate(Conversation(out));
    } else {
      SanitizedIsLate(messages, index + 1, s);
      var first := SanitizedAt(messages[index], index, last, s);
      SanitizedRole(messages[index], index, last, s);
      ConversationCat(first, Sanitized(messages, index + 1, last, s));
      ConversationOfNone(first);
      LateCat(Conversation(first), Conversation(Sanitized(messages, index + 1, last, s)));
    }
  }

  lemma {:induction false} SystemUpdateKeeps(messages: seq<Message>, i: nat, m: Message)
    requires i < |messages| && messages[i].role == System && m.role == System
    ensures Conversation(messages[i := m]) == Conversation(messages)
  {
    assert messages == messages[..i] + [messages[i]] + messages[i + 1..];
    assert messages[i := m] == messages[..i] + [m] + messages[i + 1..];
    ConversationCat(messages[..i] + [m], messages[i + 1..]);
    ConversationCat(messages[..i], [m]);
    ConversationCat(messages[..i] + [messages[i]], messages[i + 1..]);
    ConversationCat(messages[..i], [messages[i]]);
  }

  /** A system block changes nothing else. */
  lemma SystemBlockKeeps(messages: seq<Message>, block: string)
    ensures Conversation(WithSystemBlock(messages, block)) == Conversation(messages)
  {
    hide Strip, RStrip;
    var i := FirstSystem(messages);
    if i < |messages| {
      var text := Strip(RStrip(TextOf(messages[i])) + SEPARATOR + block);
      SystemUpdateKeeps(messages, i, messages[i].(content := Some(text)));
    } else {
      assert ([SystemMessage(block)] + messages)[1..] == messages;
    }
  }

  lemma BoundaryKeeps(messages: seq<Message>, active: bool)
    ensures Conversation(WithBoundary(messages, active)) == Conversation(messages)
  {
    hide Contains, WithSystemBlock;
    SystemBlockKeeps(messages, TOOL_DATA_BOUNDARY);
  }

  // ----- The first repair

  lemma RepairIsLate(conv: seq<Message>)
    requires Late(conv)
    ensures NoUserAfterTool(RepairedConversation(conv))
  {
    hide Sequence, Parity, Late, NoUserAfterTool;
    SequenceIsLate(conv, None);
    ParityIsLate(Sequence(conv, None));
    LateIsAdjacent(RepairedConversation(conv));
  }

  lemma HeadedRepair(messages: seq<Message>)
    ensures Headed(Repair(messages), Conversation(Repair(messages)))
  {
    hide RepairedConversation, Conversation, Paired;
    RepairReads(messages);
    var conv := RepairedConversation(Conversation(messages));
    assert SystemHead(Texts(OfRole(messages, System))) == [] ==> Repair(messages) == conv;
  }

  // ----- The latest question

  /** The last user message ends with `q`. */
  predicate Asks(messages: seq<Message>, q: string) {
    var last := LastUser(messages);
    last >= 0 && EndsWith(Strip(TextOf(messages[last])), q)
  }

  lemma LastUserCat(a: seq<Message>, b: seq<Message>)
    ensures LastUser(a + b) == if LastUser(b) >= 0 then |a| + LastUser(b) else LastUser(a)
  {
    var l := LastUser(a + b);
    assert LastUser(b) >= 0 ==> (a + b)[|a| + LastUser(b)].role == User;
    assert LastUser(a) >= 0 ==> (a + b)[LastUser(a)].role == User;
    assert l >= |a| ==> (a + b)[l] == b[l - |a|];
    assert 0 <= l < |a| ==> (a + b)[l] == a[l];
  }

  lemma NoLastUser(messages: seq<Message>)
    ensures NoUsers(messages) <==> LastUser(messages) < 0
  {
    var last := LastUser(messages);
    assert last >= 0 ==> messages[last] in messages;
  }

  lemma AsksCat(a: seq<Message>, b: seq<Message>, q: string)
    ensures Asks(a + b, q) <==> if LastUser(b) >= 0 then Asks(b, q) else Asks(a, q)
  {
    hide Strip, EndsWith, LastUser, TextOf;
    LastUserCat(a, b);
    LastUserIs(a);
    LastUserIs(b);
    if LastUser(b) >= 0 {
      assert (a + b)[|a| + LastUser(b)] == b[LastUser(b)];
    } else if LastUser(a) >= 0 {
      assert (a + b)[LastUser(a)] == a[LastUser(a)];
    }
  }

  lemma LastUserIs(a: seq<Message>)
    ensures -1 <= LastUser(a) < |a|
  {
  }

  lemma WordsOfOne(m: Message)
    requires m.role == User
    ensures UserWords([m]) == Strip(TextOf(m))
  {
    hide Strip;
    assert [m][1..] == [];
    assert OfRole([], User) == [] && OfRole([m], User) == [m];
    assert Texts([]) == [];
    assert Join(SEPARATOR, []) == "";
  }

  lemma EndsBeside(a: string, b: string, q: string)
    requires EndsWith(b, q)
    ensures EndsWith(Beside(a, b), q)
  {
    if a != "" && b != "" {
      var all := a + SEPARATOR + b;
      assert all[|all| - |q|..] == b[|b| - |q|..];
    } else if b == "" {
      assert q == "";
    }
  }

  lemma AsksMerged(run: seq<Message>, q: string)
    requires run != [] && (forall m :: m in run ==> m.role == User) && Asks(run, q)
    ensures Asks([MergeUsers(run)], q)
  {
    hide Strip, EndsWith, MergeUsers, UserWords, Beside;
    var n := |run|;
    var merged := MergeUsers(run);
    assert run[n - 1] in run;
    assert LastUser(run) == n - 1 && LastUser([merged]) == 0;
    assert run == run[..n - 1] + [run[n - 1]];
    WordsCat(run[..n - 1], [run[n - 1]]);
    WordsOfOne(run[n - 1]);
    WordsOfOne(merged);
    MergedWords(run);
    EndsBeside(UserWords(run[..n - 1]), UserWords([run[n - 1]]), q);
  }

  lemma {:induction false} SequenceAsks(conv: seq<Message>, last: Option<Role>, q: string)
    requires Asks(conv, q)
    ensures Asks(Sequence(conv, last), q)
    decreases |conv|
  {
    hide Asks, Sequence, MergeUsers, Survivor, RunLen, CallsOf, LastUser, NoUsers;
    NotEmpty(conv, q);
    var role := conv[0].role;
    RunLenTail(conv, role);
    var n := RunLen(conv, role);
    var run, rest := conv[..n], conv[n..];
    assert conv == run + rest;
    AsksCat(run, rest, q);
    if LastUser(rest) < 0 {
      SequenceAsksHere(conv, last, q);
    } else {
      match role
      case User =>
        UsersUnfold(conv, last);
        SequenceAsks(rest, Some(User), q);
        AsksBehind([MergeUsers(run)], Sequence(rest, Some(User)), q);
      case Tool =>
        ToolsUnfold(conv, last);
        SequenceAsks(rest, Some(Tool), q);
        SequenceAsks(rest, last, q);
        AsksBehind(run, Sequence(rest, Some(Tool)), q);
      case Assistant =>
        AssistantsUnfold(conv, last);
        SequenceAsks(rest, Some(Assistant), q);
        SequenceAsks(rest, last, q);
        AsksBehind([Survivor(run, Begins(rest, Tool))], Sequence(rest, Some(Assistant)), q);
      case _ =>
        OthersUnfold(conv, last);
        OtherRun(conv, n, q);
        SequenceAsks(conv[1..], last, q);
    }
  }

  lemma NotEmpty(conv: seq<Message>, q: string)
    requires Asks(conv, q)
    ensures conv != []
  {
  }

  lemma AsksBehind(a: seq<Message>, b: seq<Message>, q: string)
    requires Asks(b, q)
    ensures Asks(a + b, q)
  {
    hide Strip, EndsWith;
    AsksCat(a, b, q);
  }

  lemma OtherRun(conv: seq<Message>, n: nat, q: string)
    requires 0 < n <= |conv| && Asks(conv, q) && conv[0].role != User
    ensures Asks(conv[1..], q)
  {
    hide Strip, EndsWith;
    assert conv == [conv[0]] + conv[1..];
    AsksCat([conv[0]], conv[1..], q);
    assert LastUser([conv[0]]) < 0;
  }

  lemma SequenceAsksHere(conv: seq<Message>, last: Option<Role>, q: string)
    requires conv != [] && Asks(conv, q)
    requires LastUser(conv[RunLen(conv, conv[0].role)..]) < 0
    ensures Asks(Sequence(conv, last), q)
  {
    hide Strip, EndsWith, Sequence, MergeUsers, Survivor, RunLen, Asks;
    var n := RunLen(conv, conv[0].role);
    var run, rest := conv[..n], conv[n..];
    assert conv == run + rest;
    AsksCat(run, rest, q);
    NoLastUser(rest);
    UserOfRun(run, conv[0].role, q);
    UsersUnfold(conv, last);
    AsksMerged(run, q);
    SequenceNoUsers(rest, Some(User));
    NoLastUser(Sequence(rest, Some(User)));
    AsksCat([MergeUsers(run)], Sequence(rest, Some(User)), q);
  }

  lemma UserOfRun(run: seq<Message>, role: Role, q: string)
    requires Asks(run, q) && forall m :: m in run ==> m.role == role
    ensures run != [] && role == User
  {
    hide Strip, EndsWith;
    assert run[LastUser(run)] in run;
  }

  lemma {:induction false} ParityAsks(conv: seq<Message>, q: string)
    requires Asks(conv, q)
    ensures Asks(Parity(conv), q)
    decreases |conv|
  {
    hide Asks, Reconcile, RunLen, Parity, LastUser, Answered, NoUsers;
    NotEmpty(conv, q);
    assert conv[0..] == conv;
    ParityUnfold(conv, 0);
    assert conv == [conv[0]] + conv[1..];
    AsksCat([conv[0]], conv[1..], q);
    if conv[0].role == Assistant {
      var n := RunLen(conv[1..], Tool);
      ToolsDoNotAsk(conv, n, q);
      ParityAsks(conv[1 + n..], q);
      AsksBehind(Reconcile(conv[0], conv[1..1 + n]), Parity(conv[1 + n..]), q);
    } else if LastUser(conv[1..]) >= 0 {
      ParityAsks(conv[1..], q);
      AsksBehind([conv[0]], Parity(conv[1..]), q);
    } else {
      UserOfRun([conv[0]], conv[0].role, q);
      NoLastUser(conv[1..]);
      ParityNoUsers(conv[1..]);
      NoLastUser(Parity(conv[1..]));
      AsksCat([conv[0]], Parity(conv[1..]), q);
    }
  }

  lemma ToolsDoNotAsk(conv: seq<Message>, n: nat, q: string)
    requires Asks(conv, q) && n < |conv| && conv[0].role != User && forall k :: 0 < k <= n ==> conv[k].role != User
    ensures Asks(conv[1 + n..], q)
  {
    hide Strip, EndsWith;
    assert conv == conv[..1 + n] + conv[1 + n..];
    AsksCat(conv[..1 + n], conv[1 + n..], q);
    assert LastUser(conv[..1 + n]) < 0;
  }

  lemma {:induction false} ConversationAsks(messages: seq<Message>, q: string)
    ensures Asks(Conversation(messages), q) <==> Asks(messages, q)
  {
    hide Strip, EndsWith, Asks;
    if messages != [] {
      ConversationAsks(messages[1..], q);
      var first := Conversation([messages[0]]);
      assert [messages[0]][1..] == [];
      assert messages == [messages[0]] + messages[1..];
      ConversationCat([messages[0]], messages[1..]);
      AsksCat([messages[0]], messages[1..], q);
      AsksCat(first, Conversation(messages[1..]), q);
      ConversationUser(messages[1..]);
      AsksFirst(messages[0], q);
    } else {
      assert Conversation(messages) == [];
    }
  }

  lemma AsksFirst(m: Message, q: string)
    ensures Asks(Conversation([m]), q) <==> Asks([m], q)
  {
    hide Strip, EndsWith;
    assert [m][1..] == [];
    assert Conversation([]) == [];
    if !Spoken(m) {
      assert LastUser([m]) < 0;
    }
  }

  lemma {:induction false} ConversationUser(messages: seq<Message>)
    ensures LastUser(Conversation(messages)) >= 0 <==> LastUser(messages) >= 0
  {
    hide LastUser, NoUsers;
    ConversationKeepsUsers(messages);
    NoLastUser(messages);
    NoLastUser(Conversation(messages));
    NoneExactly(messages);
    NoneExactly(Conversation(messages));
  }

  lemma NoneExactly(messages: seq<Message>)
    ensures NoUsers(messages) <==> OfRole(messages, User) == []
  {
    if NoUsers(messages) {
      NoneOfRole(messages, User);
    } else if OfRole(messages, User) == [] {
      EmptyHasNone(messages);
    }
  }

  /** A repair keeps the question. */
  lemma RepairAsks(messages: seq<Message>, q: string)
    requires Asks(messages, q)
    ensures Asks(Repair(messages), q)
  {
    hide Asks, Sequence, Parity, Conversation, Paired, SystemHead, Texts, OfRole, StartsWithUser;
    ConversationAsks(messages, q);
    SequenceAsks(Conversation(messages), None, q);
    ParityAsks(Sequence(Conversation(messages), None), q);
    RepairReads(messages);
    ConversationAsks(Repair(messages), q);
  }

  // ----- The provider contract

  /** The conversation with the tail repair behind it, when it ends in an assistant. */
  function WithTail(conv: seq<Message>): seq<Message> {
    if conv != [] && conv[|conv| - 1].role == Assistant then conv + [TAIL_MESSAGE] else conv
  }

  lemma {:induction false} PairedCat(a: seq<Message>, b: seq<Message>)
    requires Paired(a) && Paired(b)
    ensures Paired(a + b)
    decreases |a|
  {
    hide Answered, Paired, RunLen;
    if a == [] {
      assert a + b == b;
    } else if a[0].role == User {
      PairedAtUser(a);
      PairedCat(a[1..], b);
      assert (a + b)[1..] == a[1..] + b;
      PairedAtUser(a + b);
    } else {
      PairedStart(a);
      PairedAtAssistant(a);
      var n := RunLen(a[1..], Tool);
      PairedCat(a[1 + n..], b);
      PairedStart(a[1 + n..] + b);
      PairedBlock(a[0], a[1..1 + n], a[1 + n..] + b);
      assert a + b == [a[0]] + a[1..1 + n] + (a[1 + n..] + b);
    }
  }

  lemma PairedStart(conv: seq<Message>)
    requires Paired(conv)
    ensures !Begins(conv, Tool) && (conv != [] ==> conv[0].role == User || conv[0].role == Assistant)
  {
    hide Answered;
  }

  lemma PairedAtUser(conv: seq<Message>)
    requires Begins(conv, User)
    ensures Paired(conv) <==> Paired(conv[1..])
  {
    hide Answered;
  }

  /** A safe tail on an orderly conversation: still orderly, and it ends safely. */
  lemma TailIsOrderly(messages: seq<Message>, conv: seq<Message>)
    requires Headed(messages, conv) && Orderly(conv)
    ensures Headed(SafeTail(messages), WithTail(conv)) && Orderly(WithTail(conv)) && EndsSafely(WithTail(conv))
    ensures EndsSafely(conv) ==> SafeTail(messages) == messages && WithTail(conv) == conv
    ensures !EndsSafely(conv) ==> SafeTail(messages) == messages + [TAIL_MESSAGE] && conv[|conv| - 1].role == Assistant
    ensures Alternating(conv) ==> Alternating(WithTail(conv))
    ensures Alternating(WithTail(conv)) ==> Alternating(conv)
  {
    hide Paired, Alternating, NoUserAfterTool;
    PairedIsSpoken(conv);
    var m := conv[|conv| - 1];
    assert m in conv && messages[|messages| - 1] == m;
    var tail := [TAIL_MESSAGE];
    assert Paired(tail) && NoUserAfterTool(tail) && Alternating(tail) by { SingleUser(TAIL_MESSAGE); }
    if m.role == Assistant {
      PairedCat(conv, tail);
      JoinNoUserAfterTool(conv, tail);
      assert messages[1..] == conv ==> (messages + tail)[1..] == conv + tail;
      if Alternating(conv) {
        JoinAlternating(conv, tail);
      }
      if Alternating(conv + tail) {
        PrefixAlternates(conv, tail);
      }
    }
  }

  lemma SingleUser(m: Message)
    requires m.role == User
    ensures Paired([m]) && NoUserAfterTool([m]) && Alternating([m])
  {
    assert [m][1..] == [];
    assert Paired([]);
  }

  lemma HeadedReads(messages: seq<Message>, conv: seq<Message>)
    requires Headed(messages, conv) && Paired(conv)
    ensures Conversation(messages) == conv
  {
    hide Paired;
    PairedIsSpoken(conv);
    PairedHasNoSystem(conv);
  }

  /** A repair that amounts to one of an orderly conversation meets the contract, once the tail is safe. */
  lemma RepairOfOrderly(messages: seq<Message>, conv: seq<Message>)
    requires Orderly(conv) && RepairedConversation(Conversation(messages)) == RepairedConversation(conv)
    ensures ProviderSafe(SafeTail(Repair(messages)))
    ensures EndsSafely(conv) ==> SafeTail(Repair(messages)) == Repair(messages)
  {
    hide Paired, Alternating, NoUserAfterTool, RepairedConversation, Conversation, SafeTail, StartsWithUser;
    var out := RepairedConversation(conv);
    RepairAgain(conv);
    RepairReads(messages);
    HeadedRepair(messages);
    TailIsOrderly(Repair(messages), out);
    HeadedReads(SafeTail(Repair(messages)), WithTail(out));
  }

  lemma {:induction false} SanitizedAsks(messages: seq<Message>, index: nat, s: Settings)
    requires index <= LastUser(messages)
    ensures Asks(Sanitized(messages, index, LastUser(messages), s), Strip(TextOf(messages[LastUser(messages)])))
    decreases |messages| - index
  {
    hide SanitizedAt, Asks, Strip, TextOf, NoUsers;
    var last := LastUser(messages);
    var q := Strip(TextOf(messages[last]));
    var rest := Sanitized(messages, index + 1, last, s);
    if index < last {
      SanitizedAsks(messages, index + 1, s);
      AsksBehind(SanitizedAt(messages[index], index, last, s), rest, q);
    } else {
      SanitizedNoUsers(messages, index + 1, last, s);
      NoLastUser(rest);
      LastStays(messages[last], last, s);
      AsksItself(messages[last]);
      AsksCat([messages[last]], rest, q);
    }
  }

  /** The last user message is never rewritten. */
  lemma LastStays(m: Message, last: nat, s: Settings)
    requires m.role == User
    ensures SanitizedAt(m, last, last, s) == [m]
  {
    hide IsStaleUpload;
  }

  lemma AsksItself(m: Message)
    requires m.role == User
    ensures Asks([m], Strip(TextOf(m)))
  {
    hide Strip;
  }

  lemma PreparedAsks(messages: seq<Message>, s: Settings)
    requires LastUser(messages) >= 0
    ensures Asks(Prepared(messages, s), Strip(TextOf(messages[LastUser(messages)])))
  {
    hide Asks, Sanitized, Repair, WithBoundary, HasActiveResult, Strip, TextOf, Conversation;
    var last := LastUser(messages);
    var q := Strip(TextOf(messages[last]));
    var out := Sanitized(messages, 0, last, s);
    var bounded := WithBoundary(out, HasActiveResult(messages, last));
    SanitizedAsks(messages, 0, s);
    BoundaryKeeps(out, HasActiveResult(messages, last));
    ConversationAsks(out, q);
    ConversationAsks(bounded, q);
    RepairAsks(bounded, q);
  }

  /** The first repair of a request with a user: orderly, and still asking the question. */
  lemma PreparedIsOrderly(messages: seq<Message>, s: Settings)
    requires LastUser(messages) >= 0
    ensures var out := Prepared(messages, s);
      && Headed(out, Conversation(out)) && Orderly(Conversation(out))
      && Asks(out, Strip(TextOf(messages[LastUser(messages)])))
  {
    hide Asks, Sanitized, Repair, WithBoundary, HasActiveResult, Strip, TextOf, Conversation, Paired, NoUserAfterTool,
         RepairedConversation, StartsWithUser, Late;
    var last := LastUser(messages);
    var q := Strip(TextOf(messages[last]));
    var out := Sanitized(messages, 0, last, s);
    var bounded := WithBoundary(out, HasActiveResult(messages, last));
    SanitizedIsLate(messages, 0, s);
    BoundaryKeeps(out, HasActiveResult(messages, last));
    RepairIsLate(Conversation(bounded));
    RepairReads(bounded);
    HeadedRepair(bounded);
    PreparedAsks(messages, s);
    ConversationAsks(Prepared(messages, s), q);
    NotEmpty(Conversation(Prepared(messages, s)), q);
  }

  // ----- Dropping history

  lemma {:induction false} PairedSuffix(conv: seq<Message>, n: nat)
    requires Paired(conv) && n < |conv| && conv[n].role == User
    ensures Paired(conv[n..])
    decreases n
  {
    if n > 0 {
      var k := FirstBlock(conv);
      hide Paired;
      assert n >= k;
      PairedSuffix(conv[k..], n - k);
      assert conv[k..][n - k..] == conv[n..];
    }
  }

  lemma {:induction false} ConversationIn(messages: seq<Message>)
    ensures forall m :: m in Conversation(messages) ==> m in messages
  {
    if messages != [] {
      ConversationIn(messages[1..]);
    }
  }

  /** Results in front of the first user do not matter. */
  lemma LeadingToolsGo(tools: seq<Message>, conv: seq<Message>)
    requires (forall m :: m in tools ==> m.role == Tool) && Begins(conv, User)
    ensures RepairedConversation(tools + conv) == RepairedConversation(conv)
  {
    hide Sequence, Parity;
    if tools == [] {
      assert tools + conv == conv;
    } else {
      assert tools[0] in tools;
      RunLenIs(tools, conv, Tool);
      ToolsUnfold(tools + conv, None);
      assert (tools + conv)[|tools|..] == conv;
    }
  }

  /** Dropping history up to a user leaves results without a caller, and an orderly rest. */
  lemma DropIsOrderly(messages: seq<Message>, conv: seq<Message>, from: nat)
    requires Headed(messages, conv) && Orderly(conv) && EndsSafely(conv)
    requires from < |messages| && messages[from].role == User
    ensures var rest := messages[from..];
      && Orderly(rest) && EndsSafely(rest)
      && RepairedConversation(Conversation(DropHistory(messages, from))) == RepairedConversation(rest)
  {
    hide Paired, NoUserAfterTool, RepairedConversation, Conversation, WithoutHistory;
    var rest := messages[from..];
    var n := if messages == conv then from else from - 1;
    assert rest == conv[n..];
    PairedSuffix(conv, n);
    SuffixNoUserAfterTool(conv, n);
    PairedIsSpoken(rest);
    PairedHasNoSystem(rest);
    var left := WithoutHistory(messages[..from]);
    ConversationCat(left, rest);
    ConversationIn(left);
    OnlyTools(Conversation(left), left);
    LeadingToolsGo(Conversation(left), rest);
  }

  lemma OnlyTools(conv: seq<Message>, left: seq<Message>)
    requires (forall m :: m in conv ==> Spoken(m) && m in left) && forall m :: m in left ==> !IsHistory(m)
    ensures forall m :: m in conv ==> m.role == Tool
  {
  }

  lemma HeadedHasUser(messages: seq<Message>, conv: seq<Message>)
    requires Headed(messages, conv) && Orderly(conv)
    ensures LastUser(messages) >= 0
  {
    hide Paired;
    var first := if messages == conv then messages[0] else messages[1];
    assert first.role == User && first in messages;
    NoLastUser(messages);
  }

  lemma NextUserIsUser(messages: seq<Message>, from: nat)
    requires from <= LastUser(messages)
    ensures NextUser(messages, from) <= LastUser(messages) && messages[NextUser(messages, from)].role == User
  {
  }

  /** The budget step on an orderly request, cut or not. */
  lemma BudgetedIsSafe(messages: seq<Message>, conv: seq<Message>, s: Settings)
    requires Headed(messages, conv) && Orderly(conv) && EndsSafely(conv)
    ensures ProviderSafe(Budgeted(messages, s))
    ensures var cut := HistoryCut(messages, s);
      Budgeted(messages, s) ==
        if cut < 0 then Repair(messages)
        else Repair(WithSystemBlock(DropHistory(messages, NextUser(messages, cut + 1)), HISTORY_OMITTED))
  {
    hide ProviderSafe, Orderly, EndsSafely, RepairedConversation, Conversation, Repair, SafeTail, WithSystemBlock,
         DropHistory, Cut;
    HeadedHasUser(messages, conv);
    OrderlyReads(messages, conv);
    var cut := HistoryCut(messages, s);
    if cut < 0 {
      RepairOfOrderly(messages, conv);
    } else {
      NextUserIsUser(messages, cut + 1);
      var from := NextUser(messages, cut + 1);
      DropIsOrderly(messages, conv, from);
      SystemBlockKeeps(DropHistory(messages, from), HISTORY_OMITTED);
      RepairOfOrderly(WithSystemBlock(DropHistory(messages, from), HISTORY_OMITTED), messages[from..]);
    }
  }

  lemma OrderlyReads(messages: seq<Message>, conv: seq<Message>)
    requires Headed(messages, conv) && Orderly(conv)
    ensures Conversation(messages) == conv
  {
    hide Paired, Conversation;
    HeadedReads(messages, conv);
  }

  /**
   * With the budget on, every request with a user is assembled into what the provider accepts: one system head at
   * most, alternating roles from a user on, every call with its own results, and a user or a result at the end.
   */
  lemma AssembledIsProviderSafe(messages: seq<Message>, s: Settings)
    requires LastUser(messages) >= 0 && s.applyHistoryBudget
    ensures ProviderSafe(Assembled(messages, s))
  {
    hide ProviderSafe, Orderly, EndsSafely, Conversation, Prepared, SafeTail, Budgeted, Headed, Asks;
    PreparedIsOrderly(messages, s);
    var first := Prepared(messages, s);
    TailIsOrderly(first, Conversation(first));
    HeadedHasUser(SafeTail(first), WithTail(Conversation(first)));
    BudgetedIsSafe(SafeTail(first), WithTail(Conversation(first)), s);
  }

  /** The conversation of a request as it goes into the repair. */
  function RequestConversation(messages: seq<Message>, s: Settings): seq<Message> {
    Conversation(Sanitized(messages, 0, LastUser(messages), s))
  }

  lemma PreparedIsRepaired(messages: seq<Message>, s: Settings)
    ensures Conversation(Prepared(messages, s)) == RepairedConversation(RequestConversation(messages, s))
  {
    hide Sanitized, Repair, WithBoundary, HasActiveResult, Conversation, Paired, RepairedConversation, StartsWithUser;
    var out := Sanitized(messages, 0, LastUser(messages), s);
    BoundaryKeeps(out, HasActiveResult(messages, LastUser(messages)));
    RepairReads(WithBoundary(out, HasActiveResult(messages, LastUser(messages))));
  }

  /**
   * Without the budget there is no second repair: the contract holds exactly when no guard of the first one fires on
   * the sanitized request - no user run behind another with nothing left in between, no bare turn in front of a turn.
   */
  lemma UnbudgetedIsSafeIff(messages: seq<Message>, s: Settings)
    requires LastUser(messages) >= 0 && !s.applyHistoryBudget
    ensures ProviderSafe(Assembled(messages, s)) <==> !Clashes(RequestConversation(messages, s))
  {
    hide Orderly, EndsSafely, Conversation, Prepared, SafeTail, Headed, Asks, Alternating, Clashes,
         RepairedConversation, RequestConversation;
    PreparedIsOrderly(messages, s);
    var first := Prepared(messages, s);
    TailIsOrderly(first, Conversation(first));
    HeadedHasUser(SafeTail(first), WithTail(Conversation(first)));
    OrderlyReads(SafeTail(first), WithTail(Conversation(first)));
    PreparedIsRepaired(messages, s);
    RequestIsSpoken(messages, s);
    RepairAlternatesUnlessClash(RequestConversation(messages, s));
  }

  lemma RequestIsSpoken(messages: seq<Message>, s: Settings)
    ensures forall m :: m in RequestConversation(messages, s) ==> Spoken(m)
  {
    hide Conversation;
  }

  /** So a failure always goes back to a turn of the request with calls or results of which nothing can be matched. */
  lemma UnbudgetedFailureIsUnmatched(messages: seq<Message>, s: Settings)
    requires LastUser(messages) >= 0 && !s.applyHistoryBudget && !ProviderSafe(Assembled(messages, s))
    ensures var blocks := Blocks(FromFirstUser(RequestConversation(messages, s)));
      AllFormed(blocks) && exists b :: b in blocks && Unmatched(b)
  {
    hide ProviderSafe, Conversation, Sanitized, Blocks, Unmatched, Clashes, NoUserAfterTool, Late;
    UnbudgetedIsSafeIff(messages, s);
    RequestIsSpoken(messages, s);
    SanitizedIsLate(messages, 0, s);
    LateIsAdjacent(RequestConversation(messages, s));
    ClashNeedsUnmatched(RequestConversation(messages, s));
  }

  // ----- The budget

  /** The characters of the history in a stretch. */
  function Chars(messages: seq<Message>, from: nat, to: nat): int
    requires from <= to <= |messages|
    decreases |messages| - from
  {
    if from == to then 0
    else (if Counted(messages[from]) then |messages[from].content.value| else 0) + Chars(messages, from + 1, to)
  }

  /** The tokens of the history in a stretch, as far as the counter knows them. */
  function Tokens(messages: seq<Message>, from: nat, to: nat, s: Settings): int
    requires from <= to <= |messages|
    decreases |messages| - from
  {
    if from == to then 0
    else
      var cost := if s.counter.Some? then s.counter.value(messages[from]) else None;
      var here := if Counted(messages[from]) && cost.Some? then cost.value else 0;
      here + Tokens(messages, from + 1, to, s)
  }

  predicate CounterWorks(messages: seq<Message>, from: nat, to: nat, s: Settings)
    requires from <= to <= |messages|
  {
    && s.counter.Some? && s.historyTokens > 0
    && forall i :: from <= i < to && Counted(messages[i]) ==> s.counter.value(messages[i]).Some?
  }

  /** The history of a stretch fits: in tokens where the counter works throughout, in characters elsewhere. */
  predicate Fits(messages: seq<Message>, from: nat, to: nat, s: Settings)
    requires from <= to <= |messages|
  {
    if CounterWorks(messages, from, to, s) then Tokens(messages, from, to, s) <= s.historyTokens
    else Chars(messages, from, to) <= if s.historyChars > 0 then s.historyChars else 0
  }

  /** What the scan has spent when it stands at `from`. */
  ghost predicate Spent(messages: seq<Message>, from: nat, to: nat, p: Spending, s: Settings)
    requires from <= to <= |messages|
  {
    && p.chars == Chars(messages, from, to)
    && (p.counting <==> CounterWorks(messages, from, to, s))
    && (p.counting ==> p.tokens == Tokens(messages, from, to, s))
  }

  lemma SpendIsSpent(messages: seq<Message>, from: nat, to: nat, p: Spending, s: Settings)
    requires 0 < from <= to <= |messages| && Spent(messages, from, to, p, s)
    ensures Counted(messages[from - 1]) ==>
      var (fits, next) := Spend(p, messages[from - 1], s);
      Spent(messages, from - 1, to, next, s) && (fits <==> Fits(messages, from - 1, to, s))
    ensures !Counted(messages[from - 1]) ==>
      Spent(messages, from - 1, to, p, s) && (Fits(messages, from - 1, to, s) <==> Fits(messages, from, to, s))
  {
    var m := messages[from - 1];
    assert CounterWorks(messages, from - 1, to, s)
      <==> CounterWorks(messages, from, to, s) && (Counted(m) ==> s.Estimate(m).Some?);
  }

  lemma {:induction false} CutIsNewest(messages: seq<Message>, from: nat, to: nat, p: Spending, s: Settings)
    requires from <= to <= |messages| && Spent(messages, from, to, p, s) && Fits(messages, from, to, s)
    ensures var cut := Cut(messages, from, p, s);
      && (cut >= 0 ==> !Fits(messages, cut, to, s))
      && forall j :: cut < j <= from ==> Fits(messages, j, to, s)
    decreases from
  {
    hide Spend, Fits, Spent;
    if from > 0 {
      SpendIsSpent(messages, from, to, p, s);
      if !Counted(messages[from - 1]) {
        CutIsNewest(messages, from - 1, to, p, s);
      } else {
        var (fits, next) := Spend(p, messages[from - 1], s);
        if fits {
          CutIsNewest(messages, from - 1, to, next, s);
        }
      }
    }
  }

  /** The cut is the newest place from which the history up to the latest user no longer fits the budget. */
  lemma CutIsExact(messages: seq<Message>, s: Settings)
    requires LastUser(messages) >= 0
    ensures var cut := HistoryCut(messages, s); var last := LastUser(messages);
      && cut < last
      && (cut >= 0 ==> Counted(messages[cut]) && !Fits(messages, cut, last, s))
      && forall j :: cut < j <= last ==> Fits(messages, j, last, s)
  {
    hide Cut;
    var last := LastUser(messages);
    assert Spent(messages, last, last, Spending(0, 0, s.CountsTokens()), s);
    CutIsNewest(messages, last, last, Spending(0, 0, s.CountsTokens()), s);
  }

  /** The history that is kept is a suffix that starts with a user, and it fits the budget. */
  lemma KeptHistoryFits(messages: seq<Message>, s: Settings)
    requires LastUser(messages) >= 0 && HistoryCut(messages, s) >= 0
    ensures var last := LastUser(messages); var from := NextUser(messages, HistoryCut(messages, s) + 1);
      && from <= last && messages[from].role == User && Fits(messages, from, last, s)
      && DropHistory(messages, from)[|DropHistory(messages, from)| - (|messages| - from)..] == messages[from..]
      && forall m :: m in DropHistory(messages, from)[..|DropHistory(messages, from)| - (|messages| - from)] ==>
           !IsHistory(m)
  {
    hide Fits, Cut, HistoryCut;
    CutIsExact(messages, s);
    NextUserIsUser(messages, HistoryCut(messages, s) + 1);
  }

  /** The first user from which on the history up to the latest user fits, wherever one starts to read it. */
  ghost predicate KeptFrom(messages: seq<Message>, from: int, s: Settings) {
    var last := LastUser(messages);
    && 0 <= from <= last && messages[from].role == User
    && (forall j :: from <= j <= last ==> Fits(messages, j, last, s))
    && forall u :: 0 <= u < from && messages[u].role == User ==> SomeUnfit(messages, u, s)
  }

  ghost predicate SomeUnfit(messages: seq<Message>, u: nat, s: Settings) {
    exists j :: u <= j <= LastUser(messages) && !Fits(messages, j, LastUser(messages), s)
  }

  /** A cut, or none: the next user behind it is where the kept history starts. */
  lemma CutKeepsFrom(messages: seq<Message>, s: Settings)
    requires LastUser(messages) >= 0
    ensures KeptFrom(messages, NextUser(messages, HistoryCut(messages, s) + 1), s)
  {
    hide Fits, Cut, HistoryCut;
    var cut, last := HistoryCut(messages, s), LastUser(messages);
    CutIsExact(messages, s);
    NextUserIsUser(messages, cut + 1);
    forall u: nat | u < NextUser(messages, cut + 1) && messages[u].role == User ensures SomeUnfit(messages, u, s) {
      assert u <= cut <= last && !Fits(messages, cut, last, s);
    }
  }

  lemma HeadBeforeUser(messages: seq<Message>, conv: seq<Message>)
    requires Headed(messages, conv) && Orderly(conv)
    ensures NextUser(messages, 0) < |messages| && messages[NextUser(messages, 0)..] == conv
  {
    hide Paired;
    if messages != conv {
      assert messages[1..] == conv && messages[1].role == User;
    } else {
      assert messages[0..] == conv;
    }
  }

  /**
   * With the budget on, the conversation that is sent is exactly that of the prepared request from the first user on
   * from which all history fits, repaired once more.
   */
  lemma HistoryIsExact(messages: seq<Message>, s: Settings)
    requires LastUser(messages) >= 0 && s.applyHistoryBudget
    ensures var tailed := SafeTail(Prepared(messages, s));
      exists from: nat :: KeptFrom(tailed, from, s) && from < |tailed|
        && Conversation(Assembled(messages, s)) == RepairedConversation(tailed[from..])
  {
    hide *;
    var first := Prepared(messages, s);
    var conv, tailed := WithTail(Conversation(first)), SafeTail(first);
    PreparedIsOrderly(messages, s);
    TailIsOrderly(first, Conversation(first));
    HeadedHasUser(tailed, conv);
    AssembledIs(messages, s);
    BudgetedIsSafe(tailed, conv, s);
    var cut := HistoryCut(tailed, s);
    var from := NextUser(tailed, cut + 1);
    CutIsExact(tailed, s);
    CutKeepsFrom(tailed, s);
    NextUserIsUser(tailed, cut + 1);
    if cut < 0 {
      OrderlyReads(tailed, conv);
      HeadBeforeUser(tailed, conv);
      RepairReads(tailed);
    } else {
      DropIsOrderly(tailed, conv, from);
      SystemBlockKeeps(DropHistory(tailed, from), HISTORY_OMITTED);
      RepairReads(WithSystemBlock(DropHistory(tailed, from), HISTORY_OMITTED));
    }
  }

  lemma AssembledIs(messages: seq<Message>, s: Settings)
    requires LastUser(messages) >= 0
    ensures var tailed := SafeTail(Prepared(messages, s));
      Assembled(messages, s) == if LastUser(tailed) < 0 || !s.applyHistoryBudget then tailed else Budgeted(tailed, s)
  {
  }

  // ----- What becomes of the latest question

  lemma AsksWords(messages: seq<Message>, q: string)
    requires Asks(messages, q)
    ensures EndsWith(UserWords(messages), q)
  {
    hide Strip, EndsWith, UserWords, Beside, TextOf;
    var last := LastUser(messages);
    var m := messages[last];
    var front, behind := messages[..last + 1], messages[last + 1..];
    assert messages == front + behind && front == messages[..last] + [m];
    WordsCat(front, behind);
    WordsCat(messages[..last], [m]);
    WordsOfOthers(behind);
    WordsOfOne(m);
    BesideBlank(UserWords(front));
    EndsBeside(UserWords(messages[..last]), UserWords([m]), q);
  }

  lemma AsksSuffix(messages: seq<Message>, from: nat, q: string)
    requires Asks(messages, q) && from <= LastUser(messages)
    ensures Asks(messages[from..], q)
  {
    hide Strip, EndsWith;
    assert messages == messages[..from] + messages[from..];
    AsksCat(messages[..from], messages[from..], q);
    assert messages[from..][LastUser(messages) - from].role == User;
  }

  lemma SystemBlockAsks(messages: seq<Message>, block: string, q: string)
    requires Asks(messages, q)
    ensures Asks(WithSystemBlock(messages, block), q)
  {
    hide Asks, WithSystemBlock, Conversation;
    SystemBlockKeeps(messages, block);
    ConversationAsks(messages, q);
    ConversationAsks(WithSystemBlock(messages, block), q);
  }

  lemma BudgetedAsks(messages: seq<Message>, conv: seq<Message>, s: Settings, q: string)
    requires Headed(messages, conv) && Orderly(conv) && EndsSafely(conv) && Asks(messages, q)
    ensures Asks(Budgeted(messages, s), q)
  {
    hide ProviderSafe, Orderly, EndsSafely, Headed, Asks, Budgeted, Repair, WithSystemBlock, Cut, HistoryCut, LastUser,
         NextUser, WithoutHistory;
    BudgetedIsSafe(messages, conv, s);
    HeadedHasUser(messages, conv);
    CutIsExact(messages, s);
    var cut := HistoryCut(messages, s);
    if cut < 0 {
      RepairAsks(messages, q);
    } else {
      NextUserIsUser(messages, cut + 1);
      var from := NextUser(messages, cut + 1);
      AsksSuffix(messages, from, q);
      AsksBehind(WithoutHistory(messages[..from]), messages[from..], q);
      SystemBlockAsks(DropHistory(messages, from), HISTORY_OMITTED, q);
      RepairAsks(WithSystemBlock(DropHistory(messages, from), HISTORY_OMITTED), q);
    }
  }

  /** The prepared request ends safely exactly when the conversation that goes into the repair stays open. */
  lemma SafeEndIsOpen(messages: seq<Message>, s: Settings)
    ensures EndsSafely(Conversation(Prepared(messages, s))) <==> StaysOpen(RequestConversation(messages, s))
  {
    hide Conversation, Prepared, RepairedConversation, RequestConversation, StaysOpen;
    PreparedIsRepaired(messages, s);
    RequestIsSpoken(messages, s);
    RepairEndsOpen(RequestConversation(messages, s));
    var conv := Conversation(Prepared(messages, s));
    SpokenConversation(Prepared(messages, s));
    assert conv != [] ==> conv[|conv| - 1] in conv;
  }

  lemma SpokenConversation(messages: seq<Message>)
    ensures forall m :: m in Conversation(messages) ==> Spoken(m)
  {
  }

  /**
   * A request whose last run that leaves something is a user's or keeps a result holds on to its latest question,
   * whatever the budget.
   */
  lemma LatestQuestionSurvives(messages: seq<Message>, s: Settings)
    requires LastUser(messages) >= 0 && StaysOpen(RequestConversation(messages, s))
    ensures Asks(Assembled(messages, s), Strip(TextOf(messages[LastUser(messages)])))
  {
    hide Orderly, EndsSafely, Conversation, Prepared, SafeTail, Budgeted, Headed, Asks, Strip, TextOf, StaysOpen,
         RequestConversation;
    PreparedIsOrderly(messages, s);
    SafeEndIsOpen(messages, s);
    var first := Prepared(messages, s);
    var conv := Conversation(first);
    TailIsOrderly(first, conv);
    HeadedHasUser(first, conv);
    if s.applyHistoryBudget {
      BudgetedAsks(first, conv, s, Strip(TextOf(messages[LastUser(messages)])));
    }
  }

  lemma TailWords()
    ensures UserWords([TAIL_MESSAGE]) == Strip(TAIL_REPAIR) && Strip(TAIL_REPAIR) != ""
  {
    assert TAIL_REPAIR[|TAIL_REPAIR| - 1] == '.' && !IsSpace('.');
    StripFacts(TAIL_REPAIR);
    hide Strip;
    WordsOfOne(TAIL_MESSAGE);
  }

  lemma EndsWithTail(a: string, q: string, tail: string)
    requires EndsWith(a, q) && tail != ""
    ensures EndsWith(Beside(a, tail), Beside(q, tail))
  {
    if q != "" {
      var all := a + SEPARATOR + tail;
      var end := q + SEPARATOR + tail;
      assert a == a[..|a| - |q|] + q;
      assert all == a[..|a| - |q|] + end;
    } else if a != "" {
      assert (a + SEPARATOR + tail)[|a + SEPARATOR|..] == tail;
    }
  }

  lemma DroppedWords(messages: seq<Message>, from: nat)
    requires from <= |messages|
    ensures UserWords(Repair(WithSystemBlock(DropHistory(messages, from), HISTORY_OMITTED)))
         == UserWords(messages[from..])
  {
    hide UserWords, Repair, WithSystemBlock, WithoutHistory, Beside;
    var left := WithoutHistory(messages[..from]);
    var dropped := DropHistory(messages, from);
    var blocked := WithSystemBlock(dropped, HISTORY_OMITTED);
    RepairKeepsUserWords(blocked);
    SameWords(dropped, blocked);
    WordsCat(left, messages[from..]);
    WordsOfOthers(left);
    BesideBlank(UserWords(messages[from..]));
  }

  lemma SameWords(messages: seq<Message>, blocked: seq<Message>)
    requires blocked == WithSystemBlock(messages, HISTORY_OMITTED)
    ensures UserWords(blocked) == UserWords(messages)
  {
    hide WithSystemBlock, Conversation, OfRole, Join;
    SystemBlockKeeps(messages, HISTORY_OMITTED);
    ConversationKeepsUsers(messages);
    ConversationKeepsUsers(blocked);
  }

  /** The question and all that follows it fit the budget, once the tail repair stands behind them. */
  ghost predicate QuestionFits(first: seq<Message>, s: Settings) {
    var tailed := first + [TAIL_MESSAGE];
    LastUser(first) >= 0 && forall j :: LastUser(first) <= j <= |first| ==> Fits(tailed, j, |first|, s)
  }

  /** The words that are left when everything in front of the user `from` is dropped, or nothing is. */
  lemma WordsFrom(messages: seq<Message>, conv: seq<Message>, s: Settings, from: nat)
    requires Headed(messages, conv) && Orderly(conv) && EndsSafely(conv) && LastUser(messages) >= 0
    requires var cut := HistoryCut(messages, s);
      cut < LastUser(messages) && from == if cut < 0 then 0 else NextUser(messages, cut + 1)
    ensures from <= LastUser(messages) && UserWords(Budgeted(messages, s)) == UserWords(messages[from..])
  {
    hide *;
    BudgetedIsSafe(messages, conv, s);
    if HistoryCut(messages, s) < 0 {
      RepairKeepsUserWords(messages);
      WholeTail(messages);
    } else {
      DroppedWords(messages, from);
    }
  }

  lemma KeptWords(first: seq<Message>, from: nat, q: string)
    requires Asks(first, q) && from <= LastUser(first) < |first|
    ensures EndsWith(UserWords((first + [TAIL_MESSAGE])[from..]), Beside(q, Strip(TAIL_REPAIR)))
  {
    hide *;
    AsksSuffix(first, from, q);
    AsksWords(first[from..], q);
    TailOfCat(first, [TAIL_MESSAGE], from);
    WordsCat(first[from..], [TAIL_MESSAGE]);
    TailWords();
    EndsWithTail(UserWords(first[from..]), q, Strip(TAIL_REPAIR));
  }

  /** The cut lies behind the question exactly when it does not fit. */
  lemma QuestionIsCut(first: seq<Message>, s: Settings)
    requires LastUser(first) >= 0
    ensures var cut := HistoryCut(first + [TAIL_MESSAGE], s);
      cut < |first| && (QuestionFits(first, s) <==> cut < LastUser(first))
  {
    hide Fits, HistoryCut, LastUser;
    TailIsLast(first);
    CutIsExact(first + [TAIL_MESSAGE], s);
  }

  /** With the tail repair behind it, the question is kept exactly when it fits; else only the repair prompt is left. */
  lemma TailedWords(first: seq<Message>, conv: seq<Message>, s: Settings, q: string)
    requires Headed(first + [TAIL_MESSAGE], conv) && Orderly(conv) && EndsSafely(conv) && Asks(first, q)
    ensures var words := UserWords(Budgeted(first + [TAIL_MESSAGE], s));
      if QuestionFits(first, s) then EndsWith(words, Beside(q, Strip(TAIL_REPAIR))) else words == Strip(TAIL_REPAIR)
  {
    hide *;
    var tailed := first + [TAIL_MESSAGE];
    var cut := HistoryCut(tailed, s);
    TailIsLast(first);
    AsksHasUser(first, q);
    QuestionIsCut(first, s);
    var from := if cut < 0 then 0 else NextUser(tailed, cut + 1);
    WordsFrom(tailed, conv, s, from);
    if QuestionFits(first, s) {
      NextUserBefore(first, if cut < 0 then 0 else cut + 1);
      KeptWords(first, from, q);
    } else {
      NextUserIsTail(first, cut + 1);
      SecondOfCat(first, [TAIL_MESSAGE]);
      TailWords();
    }
  }

  lemma AsksHasUser(first: seq<Message>, q: string)
    requires Asks(first, q)
    ensures 0 <= LastUser(first) < |first|
  {
    hide Strip, EndsWith;
  }

  lemma TailIsLast(first: seq<Message>)
    ensures LastUser(first + [TAIL_MESSAGE]) == |first|
  {
    LastUserCat(first, [TAIL_MESSAGE]);
  }

  lemma NextUserBefore(first: seq<Message>, from: nat)
    requires from <= LastUser(first)
    ensures NextUser(first + [TAIL_MESSAGE], from) <= LastUser(first)
  {
    assert (first + [TAIL_MESSAGE])[LastUser(first)].role == User;
  }

  lemma NextUserIsTail(first: seq<Message>, from: nat)
    requires LastUser(first) < from <= |first|
    ensures NextUser(first + [TAIL_MESSAGE], from) == |first|
  {
    var tailed := first + [TAIL_MESSAGE];
    assert tailed[|first|].role == User;
    assert forall k :: 0 <= k < |first| ==> tailed[k] == first[k];
  }

  /**
   * A request that still ends in an assistant gets the repair prompt as its last user, so its own question counts as
   * history: it is kept exactly when the question and what follows it fit the budget.
   */
  lemma TrailingAssistantRisksTheQuestion(messages: seq<Message>, s: Settings)
    requires LastUser(messages) >= 0 && s.applyHistoryBudget && !StaysOpen(RequestConversation(messages, s))
    ensures var words := UserWords(Assembled(messages, s));
      var q := Strip(TextOf(messages[LastUser(messages)]));
      if QuestionFits(Prepared(messages, s), s) then EndsWith(words, Beside(q, Strip(TAIL_REPAIR)))
      else words == Strip(TAIL_REPAIR)
  {
    hide Orderly, EndsSafely, Conversation, Prepared, SafeTail, Budgeted, Headed, Asks, Strip, TextOf, QuestionFits,
         UserWords, EndsWith, Beside, StaysOpen, RequestConversation;
    PreparedIsOrderly(messages, s);
    SafeEndIsOpen(messages, s);
    var first := Prepared(messages, s);
    var conv := Conversation(first);
    TailIsOrderly(first, conv);
    TailIsLast(first);
    TailedWords(first, WithTail(conv), s, Strip(TextOf(messages[LastUser(messages)])));
  }

  // ----- Where it fails

  function Plain(role: Role, text: string): Message {
    Message(role, Some(text), Absent, false, None, None)
  }

  lemma QuestionAndAnswer(q: string, a: string, s: Settings)
    ensures Prepared([Plain(User, q), Plain(Assistant, a)], s) == [Plain(User, q), Plain(Assistant, a)]
    ensures LastUser([Plain(User, q), Plain(Assistant, a)]) == 0
    ensures Conversation([Plain(User, q), Plain(Assistant, a)]) == [Plain(User, q), Plain(Assistant, a)]
  {
    hide Paired, Alternating, NoUserAfterTool, RepairedConversation, Conversation, Texts, OfRole, IsStaleUpload,
         LastUser;
    var x := [Plain(User, q), Plain(Assistant, a)];
    TailIsQuestion(x);
    assert Sanitized(x, 2, 0, s) == [];
    assert SanitizedAt(x[1], 1, 0, s) == [x[1]] && SanitizedAt(x[0], 0, 0, s) == [x[0]];
    assert Sanitized(x, 1, 0, s) == [x[1]] && Sanitized(x, 0, 0, s) == x;
    assert !HasActiveResult(x, 0);
    PairIsPaired(x[0], x[1]);
    PairedIsSpoken(x);
    PairedHasNoSystem(x);
    RepairAgain(x);
    EmptyTexts();
  }

  lemma TailIsQuestion(x: seq<Message>)
    requires |x| == 2 && x[0].role == User && x[1].role == Assistant
    ensures LastUser(x) == 0
  {
  }

  lemma PairIsPaired(u: Message, a: Message)
    requires u.role == User && a.role == Assistant && CallsOf(a) == []
    ensures Paired([u, a]) && Alternating([u, a])
  {
    assert [u, a][1..] == [a] && [a][1..] == [] && [u, a][1..][1..] == [];
    assert Answered(a, []);
    assert Paired([]);
    assert [a][1..][..0] == [];
    assert Paired([a]);
  }

  /** A trailing answer longer than the budget: the question it answered is gone. */
  lemma TrailingAnswerLosesTheQuestion(q: string, a: string, s: Settings)
    requires s.applyHistoryBudget && s.counter == None && |a| > s.CharBudget()
    ensures UserWords(Assembled([Plain(User, q), Plain(Assistant, a)], s)) == Strip(TAIL_REPAIR)
  {
    hide Prepared, UserWords, Assembled, Conversation, LastUser, Strip, TextOf, EndsWith, Beside, StaysOpen,
         RequestConversation;
    var x := [Plain(User, q), Plain(Assistant, a)];
    QuestionAndAnswer(q, a, s);
    SafeEndIsOpen(x, s);
    TrailingAssistantRisksTheQuestion(x, s);
    var tailed := x + [TAIL_MESSAGE];
    assert Chars(tailed, 2, 2) == 0 && Chars(tailed, 1, 2) == |a|;
    assert !Fits(tailed, 1, |x|, s);
  }

  /** An assistant with a text whose one call is answered under another id, and a second assistant behind that. */
  predicate Mismatched(x: seq<Message>) {
    && |x| == 4
    && x[0].role == User && x[1].role == Assistant && x[2].role == Tool && x[3].role == Assistant
    && x[1].content.Some? && Strip(x[1].content.value) != "" && CallsOf(x[3]) == [] && !HasToolKeys(x[3])
    && |CallsOf(x[1])| == 1 && CallId(CallsOf(x[1])[0]).Some? && CallId(CallsOf(x[1])[0]) != ResultId(x[2])
  }

  /** One such request: a call with id 1, answered under id 2. */
  lemma MismatchedRequest() returns (x: seq<Message>)
    ensures Mismatched(x)
  {
    var caller := Message(Assistant, Some("a"), Calls([ToolCall(Some("1"), None, "")]), false, None, None);
    var result := Message(Tool, Some("r"), Absent, false, Some("2"), None);
    TrimmedIsStripped("1");
    TrimmedIsStripped("2");
    TrimmedIsStripped("a");
    x := [Plain(User, "q"), caller, result, Plain(Assistant, "b")];
  }

  lemma MismatchIsStripped(assistant: Message, tool: Message)
    requires |CallsOf(assistant)| == 1 && CallId(CallsOf(assistant)[0]).Some?
    requires CallId(CallsOf(assistant)[0]) != ResultId(tool)
    requires assistant.content.Some? && Strip(assistant.content.value) != ""
    ensures Reconcile(assistant, [tool]) == [assistant.(toolCalls := Absent)]
  {
    hide CallId, ResultId, Strip;
    var calls := CallsOf(assistant);
    var c := Choose(calls[0], [tool], Unused([tool]), 0);
    assert c.pick == None;
    assert calls[1..] == [];
    assert Match(calls, [tool], Unused([tool]), 0).calls == [];
  }

  lemma SequenceOfFour(x: seq<Message>)
    requires |x| == 4 && x[0].role == User && x[1].role == Assistant && x[2].role == Tool && x[3].role == Assistant
    requires |CallsOf(x[1])| == 1
    ensures Sequence(x, None) == x
  {
    hide Sequence, MergeUsers, Survivor, CallsOf;
    var two, one := x[2..], x[3..];
    assert x[1..][1..] == two && two[1..] == one && one[1..] == [];
    OneRun(x, User);
    OneRun(x[1..], Assistant);
    OneRun(two, Tool);
    OneRun(one, Assistant);
    UsersUnfold(x, None);
    AssistantsUnfold(x[1..], Some(User));
    ToolsUnfold(two, Some(Assistant));
    AssistantsUnfold(one, Some(Tool));
    EmptyIsNormal(Some(Assistant));
    MergeOfOne(x[0]);
    SurvivorOfOne(x[1]);
    SurvivorOfOne(x[3]);
    assert x[..1] == [x[0]] && x[1..][..1] == [x[1]] && two[..1] == [x[2]] && one[..1] == [x[3]];
  }

  lemma OneRun(conv: seq<Message>, role: Role)
    requires Begins(conv, role) && (|conv| > 1 ==> conv[1].role != role)
    ensures RunLen(conv, role) == 1
  {
    RunLenTail(conv, role);
  }

  lemma SurvivorOfOne(m: Message)
    ensures Survivor([m], true) == Survivor([m], false) == m
  {
    hide CallsOf;
  }

  lemma ParityOfFour(x: seq<Message>)
    requires Mismatched(x)
    ensures Parity(x) == [x[0], x[1].(toolCalls := Absent), x[3]]
  {
    hide Parity, CallId, ResultId, Strip, Reconcile, RunLen, CallsOf;
    assert x[0..] == x;
    ParityUnfold(x, 0);
    ParityUnfold(x, 1);
    assert x[2..] == [x[2]] + x[3..];
    RunLenIs([x[2]], x[3..], Tool);
    assert x[2..3] == [x[2]];
    MismatchIsStripped(x[1], x[2]);
    LastStandsAlone(x);
    var stripped := x[1].(toolCalls := Absent);
    assert [x[0]] + ([stripped] + [x[3]]) == [x[0], stripped, x[3]];
  }

  lemma LastStandsAlone(x: seq<Message>)
    requires |x| == 4 && x[3].role == Assistant && CallsOf(x[3]) == []
    ensures Parity(x[3..]) == [x[3]]
  {
    hide Parity, CallId, ResultId, Reconcile;
    ParityUnfold(x, 3);
    assert x[4..] == [] && x[4..4] == [] && RunLen([], Tool) == 0;
    assert Answered(x[3], []);
    ParityUnfold(x, 4);
    AnsweredIsStable(x[3], []);
  }

  /**
   * Without the budget the contract can fail: the parity step drops a mismatched result after the runs were merged,
   * and two assistants are left side by side.
   */
  lemma UnbudgetedCounterexample(x: seq<Message>, s: Settings)
    requires Mismatched(x) && !s.applyHistoryBudget
    ensures !ProviderSafe(Assembled(x, s))
  {
    hide Alternating, Prepared, Assembled, CallId, ResultId, Strip, Orderly, ProviderSafe, LastUser, Conversation,
         Clashes, RepairedConversation, RequestConversation;
    FourHasUser(x);
    PreparedOfFour(x, s);
    PreparedIsRepaired(x, s);
    RequestIsSpoken(x, s);
    RepairAlternatesUnlessClash(RequestConversation(x, s));
    UnbudgetedIsSafeIff(x, s);
  }

  lemma FourHasUser(x: seq<Message>)
    requires |x| == 4 && x[0].role == User && x[1].role == Assistant && x[2].role == Tool && x[3].role == Assistant
    ensures LastUser(x) == 0
  {
  }

  lemma SanitizedFour(x: seq<Message>, s: Settings)
    requires Mismatched(x)
    ensures var out := Sanitized(x, 0, 0, s); Mismatched(out) && out[1].role == Assistant
  {
    hide Strip, CallId, IsStaleUpload, Truncated;
    assert Sanitized(x, 4, 0, s) == [];
    assert Sanitized(x, 3, 0, s) == [x[3]];
    var t := ActiveToolMessage(x[2], s.ToolResultMax());
    assert Sanitized(x, 2, 0, s) == [t, x[3]];
    assert SanitizedAt(x[1], 1, 0, s) == [x[1]];
    assert Sanitized(x, 1, 0, s) == [x[1], t, x[3]];
    assert SanitizedAt(x[0], 0, 0, s) == [x[0]];
    assert Sanitized(x, 0, 0, s) == [x[0], x[1], t, x[3]];
    EmptyStrip();
    assert ResultId(t) == ResultId(x[2]);
  }

  lemma PreparedOfFour(x: seq<Message>, s: Settings)
    requires Mismatched(x) && LastUser(x) == 0
    ensures !Alternating(Conversation(Prepared(x, s)))
  {
    hide Strip, CallId, ResultId, Sanitized, Conversation, WithBoundary, Repair, HasActiveResult, Sequence, Parity,
         CallsOf, Paired, Texts, OfRole;
    var out := Sanitized(x, 0, 0, s);
    SanitizedFour(x, s);
    BoundaryKeeps(out, HasActiveResult(x, 0));
    PairedHasNoSystem(out);
    RepairReads(WithBoundary(out, HasActiveResult(x, 0)));
    SequenceOfFour(out);
    ParityOfFour(out);
    var conv := Parity(out);
    assert !MayMeet(conv[1].role, conv[2].role);
  }
}
