/**
 * What a repair makes of each message, read off the conversation by position
 * (deploy/litellm/klai_context.py, `_repair_mistral_message_sequence` and `_repair_mistral_tool_call_parity`).
 */
module RepairInPlace {
  import opened Sequences
  import opened Strings
  import opened ToolBlocks
  import opened MessageRepair
  import opened RepairBlocks

  // ----- What is read from the messages

  predicate Says(m: Message, role: Role) {
    m.role == role && m.content.Some? && Strip(m.content.value) != ""
  }

  /** The texts of these messages, stripped. */
  function Words(saying: seq<Message>): seq<string>
    requires forall i :: 0 <= i < |saying| ==> saying[i].content.Some?
  {
    seq(|saying|, i requires 0 <= i < |saying| => Strip(saying[i].content.value))
  }

  /** The texts of a role are those of exactly its messages that say something, in order. */
  lemma {:induction false} TextsAreExact(messages: seq<Message>, role: Role) returns (ps: seq<nat>)
    ensures Picks(ps, messages, (m: Message) => Says(m, role))
    ensures var saying := Image(messages, ps);
      (forall i :: 0 <= i < |saying| ==> saying[i].content.Some?) && Texts(OfRole(messages, role)) == Words(saying)
  {
    hide Strip, Image, Picks, OfRole, Texts;
    ps := [];
    if messages == [] {
      NothingPicked((m: Message) => Says(m, role));
      NoTexts(role);
    } else {
      var later := TextsAreExact(messages[1..], role);
      ps := PicksCons(later, messages, (m: Message) => Says(m, role));
      TextsCons(messages, role);
    }
  }

  lemma NoTexts(role: Role)
    ensures Texts(OfRole([], role)) == []
  {
  }

  lemma TextsCons(messages: seq<Message>, role: Role)
    requires messages != []
    ensures Texts(OfRole(messages, role))
         == (if Says(messages[0], role) then [Strip(messages[0].content.value)] else [])
            + Texts(OfRole(messages[1..], role))
  {
    hide Strip;
    EmptyStrip();
    var rest := OfRole(messages[1..], role);
    assert messages[0].role == role ==> ([messages[0]] + rest)[1..] == rest;
  }

  /** The conversation is exactly the messages of users, assistants and tools, in order. */
  lemma {:induction false} ConversationIsExact(messages: seq<Message>) returns (ps: seq<nat>)
    ensures Picks(ps, messages, (m: Message) => m.role == User || m.role == Assistant || m.role == Tool)
    ensures Conversation(messages) == Image(messages, ps)
  {
    hide Image, Picks;
    ps := [];
    if messages == [] {
      NothingPicked((m: Message) => m.role == User || m.role == Assistant || m.role == Tool);
    } else {
      var later := ConversationIsExact(messages[1..]);
      ps := PicksCons(later, messages, (m: Message) => m.role == User || m.role == Assistant || m.role == Tool);
    }
  }

  // ----- Runs

  /** `[i, j)` is a whole run of one role. */
  ghost predicate RunAt(conv: seq<Message>, i: int, j: int) {
    && 0 <= i < j <= |conv|
    && (forall k :: i <= k < j ==> conv[k].role == conv[i].role)
    && (i > 0 ==> conv[i - 1].role != conv[i].role)
    && (j < |conv| ==> conv[j].role != conv[i].role)
  }

  /** The results that follow `j` end at `k`. */
  ghost predicate ResultsUpTo(conv: seq<Message>, j: nat, k: nat) {
    && j <= k <= |conv|
    && (forall r :: j <= r < k ==> conv[r].role == Tool)
    && (k < |conv| ==> conv[k].role != Tool)
  }

  /** Among the assistants of a run the last one speaks; with results behind them the last one with calls, if any. */
  ghost predicate Speaks(run: seq<Message>, answered: bool, p: int) {
    && 0 <= p < |run|
    && if answered && exists q :: 0 <= q < |run| && CallsOf(run[q]) != []
       then CallsOf(run[p]) != [] && forall q :: p < q < |run| ==> CallsOf(run[q]) == []
       else p == |run| - 1
  }

  /** A run of users becomes its last message: as it is when alone, else with the texts of all. */
  ghost predicate Merged(run: seq<Message>, m: Message)
    requires run != []
  {
    var last := run[|run| - 1];
    if |run| == 1 then m == last else m == last.(content := Some(Join("\n\n", Texts(run))))
  }

  /**
   * What an assistant with these results becomes. Without calls it stays; without a call that fits a result it stays
   * without its calls, or goes if it says nothing; else it keeps the calls that are matched, each with its result.
   */
  ghost predicate Taken(a: Message, results: seq<Message>, out: seq<Message>) {
    if CallsOf(a) == [] then out == [a]
    else if SomeCallFits(CallsOf(a), results) then exists m: Matching :: TakenBy(a, results, out, m)
    else out == if Strip(TextOf(a)) == "" then [] else [a.(toolCalls := Absent)]
  }

  /** Sound and complete: results with their calls' ids, no result twice, and no dropped call that fits a leftover. */
  ghost predicate TakenBy(a: Message, results: seq<Message>, out: seq<Message>, m: Matching) {
    && m.calls != []
    && Subsequence(m.calls, CallsOf(a))
    && Sound(m, results, Unused(results)) && Complete(CallsOf(a), m, results, Unused(results))
    && out == [a.(toolCalls := Calls(m.calls))] + seq(|m.picks|, i requires 0 <= i < |m.picks| => results[m.picks[i]])
  }

  /** All parts but the one at `p` are empty. */
  ghost predicate OnlyAt(parts: seq<seq<Message>>, p: int) {
    forall k :: 0 <= k < |parts| && k != p ==> parts[k] == []
  }

  ghost predicate UserIn(front: seq<Message>) {
    exists u :: 0 <= u < |front| && front[u].role == User
  }

  /** What the run at `[i, j)` becomes, message by message. */
  ghost predicate RunKept(conv: seq<Message>, i: int, j: int, parts: seq<seq<Message>>)
    requires RunAt(conv, i, j)
  {
    && |parts| == j - i
    && match conv[i].role
       case User => OnlyAt(parts, j - i - 1) && exists m :: Merged(conv[i..j], m) && parts[j - i - 1] == [m]
       case Assistant => if UserIn(conv[..i]) then TurnKept(conv, i, j, parts) else OnlyAt(parts, -1)
       case _ => OnlyAt(parts, -1)
  }

  /** One assistant of the run speaks, and its results are put out behind it. */
  ghost predicate TurnKept(conv: seq<Message>, i: int, j: int, parts: seq<seq<Message>>)
    requires 0 <= i < j <= |conv| && |parts| == j - i
  {
    exists p: nat, k: nat :: SpokenBy(conv, i, j, parts, p, k)
  }

  ghost predicate SpokenBy(conv: seq<Message>, i: int, j: int, parts: seq<seq<Message>>, p: nat, k: nat)
    requires 0 <= i < j <= |conv| && |parts| == j - i
  {
    && ResultsUpTo(conv, j, k)
    && Speaks(conv[i..j], j < k, p)
    && OnlyAt(parts, p) && Taken(conv[i + p], conv[j..k], parts[p])
  }

  /** The parts say what each message from `b` on becomes, run by run. */
  ghost predicate InPlaceFrom(conv: seq<Message>, b: nat, parts: seq<seq<Message>>)
    requires b <= |conv|
  {
    && |parts| == |conv| - b
    && forall i, j :: b <= i && RunAt(conv, i, j) ==> RunKept(conv, i, j, parts[i - b..j - b])
  }

  // ----- One run

  function Only(n: nat, p: int, block: seq<Message>): (parts: seq<seq<Message>>)
    ensures |parts| == n
  {
    seq(n, i => if i == p then block else [])
  }

  lemma {:induction false} FlatOnly(n: nat, p: int, block: seq<Message>)
    requires p < n && (p < 0 ==> block == [])
    ensures Flat(Only(n, p, block)) == block
    ensures OnlyAt(Only(n, p, block), p)
    decreases n
  {
    if n > 0 {
      var rest := if p == 0 then [] else block;
      assert Only(n, p, block)[1..] == Only(n - 1, p - 1, rest);
      FlatOnly(n - 1, p - 1, rest);
      hide Only;
    }
  }

  /** The last message with calls. */
  ghost predicate CallsLast(run: seq<Message>, p: int) {
    0 <= p < |run| && CallsOf(run[p]) != [] && forall q :: p < q < |run| ==> CallsOf(run[q]) == []
  }

  lemma {:induction false} LastCallerIsLast(run: seq<Message>) returns (p: nat)
    requires exists r :: r in run && CallsOf(r) != []
    ensures CallsLast(run, p) && run[p] == LastCaller(run)
  {
    hide CallsOf;
    p := |run| - 1;
    if CallsOf(run[p]) == [] {
      var front := run[..p];
      assert run == front + [run[p]];
      p := LastCallerIsLast(front);
      CallsLastSnoc(front, p, run[|run| - 1]);
    }
  }

  lemma CallsLastSnoc(front: seq<Message>, p: nat, m: Message)
    requires CallsLast(front, p) && CallsOf(m) == []
    ensures CallsLast(front + [m], p)
  {
    hide CallsOf;
  }

  lemma SurvivorSpeaks(run: seq<Message>, answered: bool) returns (p: nat)
    requires run != []
    ensures Speaks(run, answered, p) && run[p] == Survivor(run, answered)
  {
    if answered && exists r :: r in run && CallsOf(r) != [] {
      p := LastCallerIsLast(run);
      assert CallsOf(run[p]) != [];
    } else {
      p := |run| - 1;
    }
  }

  lemma ReconcileTakes(a: Message, results: seq<Message>)
    ensures Taken(a, results, Reconcile(a, results))
  {
    var calls := CallsOf(a);
    hide CallId, ResultId, Match;
    if calls != [] {
      var m := Matched(calls, results);
      MatchIsSound(calls, results, Unused(results), 0);
      MatchIsComplete(calls, results, Unused(results), 0);
      MatchKeepsOrder(calls, results, Unused(results), 0);
      MatchesWhenFits(calls, results);
      hide Matched, SomeCallFits, Sound, Complete, Subsequence, CallsOf;
      if m.calls != [] {
        assert TakenBy(a, results, Reconcile(a, results), m);
      }
    }
  }

  lemma MergeIsMerged(run: seq<Message>)
    requires run != [] && forall r :: r in run ==> r.role == User
    ensures Merged(run, MergeUsers(run))
  {
    TextsAreTrimmed(Texts(run));
    BlankJoin();
    hide Strip, Join;
    if Texts(run) != [] {
      JoinIsTrimmed(Texts(run));
      TrimmedIsStripped(Join(SEPARATOR, Texts(run)));
    }
  }

  // ----- Run by run

  lemma RunIsWhole(conv: seq<Message>, b: nat, n: nat)
    requires b < |conv| && n == RunLen(conv[b..], conv[b].role)
    requires b > 0 ==> conv[b - 1].role != conv[b].role
    ensures 0 < n && b + n <= |conv| && RunAt(conv, b, b + n)
    ensures b + n < |conv| ==> conv[b + n - 1].role != conv[b + n].role
    ensures conv[b..][..n] == conv[b..b + n] && conv[b..][n..] == conv[b + n..]
  {
    RunLenTail(conv[b..], conv[b].role);
    forall k | b <= k < b + n ensures conv[k].role == conv[b].role {
      assert conv[k] == conv[b..][k - b];
    }
  }

  /** A run ends before the next message of another role. */
  lemma EndsBefore(conv: seq<Message>, i: int, j: int, f: int)
    requires RunAt(conv, i, j) && i < f <= |conv| && (f < |conv| ==> conv[f].role != conv[i].role)
    ensures j <= f
  {
  }

  lemma RunBounds(conv: seq<Message>, i: int, j: int)
    requires RunAt(conv, i, j)
    ensures 0 <= i < j <= |conv| && (i > 0 ==> conv[i - 1].role != conv[i].role)
  {
  }

  lemma OneRunEach(conv: seq<Message>, b: int, n: int, i: int, j: int)
    requires RunAt(conv, b, n) && RunAt(conv, i, j) && b <= i
    ensures (i == b && j == n) || i >= n
  {
    if i == b {
      EndsBefore(conv, i, j, n);
      EndsBefore(conv, i, n, j);
    }
  }

  lemma InPlaceStep(conv: seq<Message>, b: nat, n: nat, head: seq<seq<Message>>, tail: seq<seq<Message>>)
    requires RunAt(conv, b, n) && RunKept(conv, b, n, head) && InPlaceFrom(conv, n, tail)
    ensures InPlaceFrom(conv, b, head + tail)
  {
    KeptLength(conv, b, n, head);
    RunBounds(conv, b, n);
    hide RunKept, RunAt;
    forall i, j | b <= i && RunAt(conv, i, j)
      ensures 0 <= i - b <= j - b <= |head + tail| && RunKept(conv, i, j, (head + tail)[i - b..j - b])
    {
      RunBounds(conv, i, j);
      OneRunEach(conv, b, n, i, j);
      if i == b {
        FirstRunKept(conv, b, n, head, tail);
      } else {
        LaterRunKept(conv, b, n, head, tail, i, j);
      }
    }
  }

  lemma FirstRunKept(conv: seq<Message>, b: nat, n: nat, head: seq<seq<Message>>, tail: seq<seq<Message>>)
    requires RunAt(conv, b, n) && RunKept(conv, b, n, head) && b <= n && |head| == n - b
    ensures RunKept(conv, b, n, (head + tail)[b - b..n - b])
  {
    hide *;
    assert (head + tail)[b - b..n - b] == head;
  }

  lemma LaterRunKept(conv: seq<Message>, b: nat, n: nat, head: seq<seq<Message>>, tail: seq<seq<Message>>, i: nat,
                     j: nat)
    requires b <= n <= i <= j && |head| == n - b && j - n <= |tail|
    requires RunAt(conv, i, j) && RunKept(conv, i, j, tail[i - n..j - n])
    ensures RunKept(conv, i, j, (head + tail)[i - b..j - b])
  {
    hide *;
    MiddleOfCat(head, tail, i - n, j - n);
  }

  lemma KeptLength(conv: seq<Message>, i: int, j: int, parts: seq<seq<Message>>)
    requires RunAt(conv, i, j) && RunKept(conv, i, j, parts)
    ensures |parts| == j - i
  {
  }

  lemma UsersKept(conv: seq<Message>, i: nat, j: nat, m: Message)
    requires RunAt(conv, i, j) && conv[i].role == User && Merged(conv[i..j], m)
    ensures RunKept(conv, i, j, Only(j - i, j - i - 1, [m]))
  {
    hide Merged;
  }

  lemma AssistantsKept(conv: seq<Message>, i: nat, j: nat, k: nat, p: nat, out: seq<Message>)
    requires RunAt(conv, i, j) && conv[i].role == Assistant && UserIn(conv[..i]) && ResultsUpTo(conv, j, k)
    requires Speaks(conv[i..j], j < k, p) && Taken(conv[i + p], conv[j..k], out)
    ensures RunKept(conv, i, j, Only(j - i, p, out))
  {
    hide Taken, UserIn;
    assert SpokenBy(conv, i, j, Only(j - i, p, out), p, k);
  }

  lemma NothingKept(conv: seq<Message>, i: nat, j: nat)
    requires RunAt(conv, i, j) && conv[i].role != User && (conv[i].role == Assistant ==> !UserIn(conv[..i]))
    ensures RunKept(conv, i, j, Only(j - i, -1, []))
  {
  }

  lemma UserStays(conv: seq<Message>, b: nat, n: nat)
    requires b <= n <= |conv| && (UserIn(conv[..b]) || (b < n && conv[b].role == User))
    ensures UserIn(conv[..n])
  {
    if UserIn(conv[..b]) {
      var u :| 0 <= u < b && conv[..b][u].role == User;
      assert conv[..n][u].role == User;
    } else {
      assert conv[..n][b].role == User;
    }
  }

  lemma ResultsBehind(conv: seq<Message>, j: nat) returns (k: nat)
    requires j <= |conv|
    ensures j <= k <= |conv| && k == j + RunLen(conv[j..], Tool) && ResultsUpTo(conv, j, k)
    ensures j < k <==> Begins(conv[j..], Tool)
    ensures conv[j..][..k - j] == conv[j..k] && conv[j..][k - j..] == conv[k..]
  {
    var n := RunLen(conv[j..], Tool);
    k := j + n;
    forall r | j <= r < k ensures conv[r].role == Tool {
      assert conv[r] == conv[j..][r - j];
    }
  }

  /** Results at the start of a stretch belong to no block of it. */
  lemma LeadingResults(conv: seq<Message>)
    requires forall m :: m in conv ==> Spoken(m)
    ensures Blocks(conv) == Blocks(conv[RunLen(conv, Tool)..])
  {
    hide Blocks;
    BlocksUnfold(conv);
    if !Begins(conv, Tool) {
      assert conv[0..] == conv;
    }
  }

  lemma UserHead(conv: seq<Message>, b: nat, n: nat) returns (head: seq<seq<Message>>)
    requires RunAt(conv, b, b + n) && conv[b].role == User && n == RunLen(conv[b..], User)
    requires AllFormed(Blocks(conv[b + n..]))
    ensures RunKept(conv, b, b + n, head)
    ensures AllFormed(Blocks(conv[b..])) && AllLeft(Blocks(conv[b..])) == Flat(head) + AllLeft(Blocks(conv[b + n..]))
  {
    hide RunLen, Blocks, AllLeft, MergeUsers, Merged, RunKept, WellFormed, AllFormed, Only, Flat;
    var run, suffix := conv[b..b + n], conv[b..];
    RunIsWhole(conv, b, n);
    BlocksUnfold(suffix);
    RunsLeft(suffix, Asked(run));
    AllLeftCons(Asked(run), Blocks(conv[b + n..]));
    MergeIsMerged(run);
    UsersKept(conv, b, b + n, MergeUsers(run));
    head := Only(n, n - 1, [MergeUsers(run)]);
    FlatOnly(n, n - 1, [MergeUsers(run)]);
  }

  lemma SpeakerKept(conv: seq<Message>, i: nat, j: nat, k: nat) returns (head: seq<seq<Message>>)
    requires RunAt(conv, i, j) && conv[i].role == Assistant && UserIn(conv[..i]) && ResultsUpTo(conv, j, k)
    requires j <= k <= |conv|
    ensures RunKept(conv, i, j, head) && Flat(head) == Reconcile(Survivor(conv[i..j], j < k), conv[j..k])
  {
    hide *;
    RunBounds(conv, i, j);
    var run, results := conv[i..j], conv[j..k];
    var p := SurvivorSpeaks(run, j < k);
    SpeaksInside(run, j < k, p);
    ReconcileTakes(run[p], results);
    AssistantsKept(conv, i, j, k, p, Reconcile(run[p], results));
    head := Only(j - i, p, Reconcile(run[p], results));
    FlatOnly(j - i, p, Reconcile(run[p], results));
  }

  lemma AssistantHead(conv: seq<Message>, b: nat, n: nat) returns (head: seq<seq<Message>>)
    requires (forall m :: m in conv ==> Spoken(m))
    requires RunAt(conv, b, n) && conv[b].role == Assistant && n - b == RunLen(conv[b..], Assistant)
    requires UserIn(conv[..b])
    ensures RunKept(conv, b, n, head)
    ensures AllFormed(Blocks(conv[b..])) && AllFormed(Blocks(conv[n..]))
    ensures AllLeft(Blocks(conv[b..])) == Flat(head) + AllLeft(Blocks(conv[n..]))
  {
    hide *;
    RunBounds(conv, b, n);
    var k := ResultsBehind(conv, n);
    head := SpeakerKept(conv, b, n, k);
    LeftOfTurn(conv, b, n, k);
  }

  lemma LeftOfTurn(conv: seq<Message>, b: nat, n: nat, k: nat)
    requires (forall m :: m in conv ==> Spoken(m))
    requires RunAt(conv, b, n) && conv[b].role == Assistant && n - b == RunLen(conv[b..], Assistant)
    requires n <= k <= |conv| && k - n == RunLen(conv[n..], Tool)
    ensures AllFormed(Blocks(conv[b..])) && AllFormed(Blocks(conv[n..]))
    ensures AllLeft(Blocks(conv[b..]))
         == Reconcile(Survivor(conv[b..n], n < k), conv[n..k]) + AllLeft(Blocks(conv[n..]))
  {
    hide *;
    RunBounds(conv, b, n);
    RunIsWhole(conv, b, n - b);
    BlocksAreFormed(conv[b..]);
    TurnInFrontIs(conv, b, n, k);
    BlocksBehindResults(conv, n, k);
    LeftInFront(Turn(conv[b..n], conv[n..k]), Blocks(conv[k..]), Blocks(conv[b..]));
  }

  lemma LeftInFront(turn: Block, rest: seq<Block>, all: seq<Block>)
    requires WellFormed(turn) && AllFormed(rest) && all == [turn] + rest
    ensures AllFormed(all) && AllLeft(all) == Left(turn) + AllLeft(rest)
  {
    hide *;
    AllLeftCons(turn, rest);
  }

  lemma BlocksBehindResults(conv: seq<Message>, n: nat, k: nat)
    requires (forall m :: m in conv ==> Spoken(m)) && n <= k <= |conv| && k - n == RunLen(conv[n..], Tool)
    ensures Blocks(conv[n..]) == Blocks(conv[k..])
  {
    hide *;
    SpokenFrom(conv, n);
    LeadingResults(conv[n..]);
    SliceOfTail(conv, n, k, k);
  }

  lemma SpeaksInside(run: seq<Message>, answered: bool, p: int)
    requires Speaks(run, answered, p)
    ensures 0 <= p < |run|
  {
  }

  lemma TurnInFrontIs(conv: seq<Message>, b: nat, n: nat, k: nat)
    requires b < n <= k <= |conv| && conv[b].role == Assistant && n - b == RunLen(conv[b..], Assistant)
    requires k - n == RunLen(conv[n..], Tool)
    requires conv[b..][..n - b] == conv[b..n] && conv[b..][n - b..] == conv[n..] && AllFormed(Blocks(conv[b..]))
    ensures var turn := Turn(conv[b..n], conv[n..k]);
      && WellFormed(turn) && AllFormed(Blocks(conv[k..]))
      && Blocks(conv[b..]) == [turn] + Blocks(conv[k..])
      && Left(turn) == Reconcile(Survivor(conv[b..n], n < k), conv[n..k])
  {
    hide RunLen, Reconcile, Survivor, WellFormed;
    var suffix := conv[b..];
    SliceOfTail(conv, b, n, k);
    assert suffix[n - b..k - b] == conv[n..k] && suffix[k - b..] == conv[k..];
    var turn, rest := Turn(conv[b..n], conv[n..k]), Blocks(conv[k..]);
    BlocksUnfold(suffix);
    assert Blocks(suffix) == [turn] + rest;
    assert turn in Blocks(suffix) && forall x :: x in rest ==> x in Blocks(suffix);
  }

  lemma SpokenFrom(conv: seq<Message>, b: nat)
    requires (forall m :: m in conv ==> Spoken(m)) && b <= |conv|
    ensures forall m :: m in conv[b..] ==> Spoken(m)
    ensures b < |conv| ==> conv[b].role == User || conv[b].role == Assistant || conv[b].role == Tool
  {
    if b < |conv| {
      assert conv[b] in conv;
    }
  }

  lemma RoleAt(conv: seq<Message>, b: nat)
    requires b < |conv|
    ensures Begins(conv[b..], User) <==> conv[b].role == User
  {
  }

  lemma NothingInPlace(conv: seq<Message>)
    ensures InPlaceFrom(conv, |conv|, []) && AllFormed(Blocks(conv[|conv|..]))
    ensures Flat<Message>([]) == AllLeft(Blocks(conv[|conv|..]))
  {
  }

  lemma {:induction false} RunsInPlace(conv: seq<Message>, b: nat) returns (parts: seq<seq<Message>>)
    requires (forall m :: m in conv ==> Spoken(m)) && b <= |conv|
    requires 0 < b < |conv| ==> conv[b - 1].role != conv[b].role
    requires UserIn(conv[..b]) || Begins(conv[b..], User) || b == |conv|
    ensures InPlaceFrom(conv, b, parts)
    ensures AllFormed(Blocks(conv[b..])) && Flat(parts) == AllLeft(Blocks(conv[b..]))
    decreases |conv| - b
  {
    hide *;
    BlocksAreFormed(conv[b..]);
    if b == |conv| {
      parts := [];
      NothingInPlace(conv);
    } else {
      var role := conv[b].role;
      var n := RunLen(conv[b..], role);
      RunIsWhole(conv, b, n);
      SpokenFrom(conv, b);
      RoleAt(conv, b);
      UserStays(conv, b, b + n);
      var tail := RunsInPlace(conv, b + n);
      var head: seq<seq<Message>>;
      if role == User {
        head := UserHead(conv, b, n);
      } else if role == Assistant {
        head := AssistantHead(conv, b, b + n);
      } else {
        head := Only(n, -1, []);
        NothingKept(conv, b, b + n);
        FlatOnly(n, -1, []);
        LeadingResults(conv[b..]);
      }
      InPlaceStep(conv, b, b + n, head, tail);
      parts := head + tail;
      FlatCat(head, tail);
    }
  }

  // ----- The whole conversation

  lemma {:induction false} FirstUserAt(conv: seq<Message>) returns (f: nat)
    ensures f <= |conv| && FromFirstUser(conv) == conv[f..] && (f < |conv| ==> conv[f].role == User)
    ensures forall k :: 0 <= k < f ==> conv[k].role != User
  {
    if conv == [] || conv[0].role == User {
      f := 0;
    } else {
      var g := FirstUserAt(conv[1..]);
      f := g + 1;
      assert conv[1..][g..] == conv[f..] && (g < |conv[1..]| ==> conv[1..][g] == conv[f]);
      forall k | 0 <= k < f ensures conv[k].role != User {
        assert k > 0 ==> conv[k] == conv[1..][k - 1];
      }
    }
  }

  /** Nothing in front of the first user is kept. */
  lemma NothingInFront(conv: seq<Message>, f: nat, parts: seq<seq<Message>>)
    requires f <= |conv| && (f < |conv| ==> conv[f].role == User) && forall k :: 0 <= k < f ==> conv[k].role != User
    requires InPlaceFrom(conv, f, parts)
    ensures InPlaceFrom(conv, 0, Only(f, -1, []) + parts)
  {
    hide RunKept, UserIn;
    var none := Only(f, -1, []);
    forall i, j | 0 <= i && RunAt(conv, i, j) ensures RunKept(conv, i, j, (none + parts)[i..j]) {
      if i < f {
        EndsBefore(conv, i, j, f);
        NoUserIn(conv, f, i);
        assert (none + parts)[i..j] == Only(j - i, -1, []);
        RunInFront(conv, i, j);
      } else {
        MiddleOfCat(none, parts, i - f, j - f);
      }
    }
  }

  lemma RunInFront(conv: seq<Message>, i: nat, j: nat)
    requires RunAt(conv, i, j) && conv[i].role != User && !UserIn(conv[..i])
    ensures RunKept(conv, i, j, Only(j - i, -1, []))
  {
    hide *;
    NothingKept(conv, i, j);
  }

  lemma NoUserIn(conv: seq<Message>, f: nat, i: nat)
    requires i <= f <= |conv| && forall k :: 0 <= k < f ==> conv[k].role != User
    ensures !UserIn(conv[..i])
  {
    assert forall u :: 0 <= u < i ==> conv[..i][u] == conv[u];
  }

  lemma BeginsAt(conv: seq<Message>, f: nat)
    requires f <= |conv| && (f < |conv| ==> conv[f].role == User)
    ensures f == |conv| || Begins(conv[f..], User)
  {
  }

  lemma SpokenOnly(messages: seq<Message>)
    ensures forall m :: m in Conversation(messages) ==> Spoken(m)
  {
  }

  lemma FromUserOn(conv: seq<Message>, f: nat)
    requires (forall m :: m in conv ==> Spoken(m)) && f <= |conv| && FromFirstUser(conv) == conv[f..]
    ensures AllFormed(Blocks(conv[f..])) && RepairedConversation(conv) == AllLeft(Blocks(conv[f..]))
  {
    hide Sequence, Parity, Blocks, AllLeft, WellFormed;
    BeforeFirstUser(conv);
    RepairIsAllLeft(conv[f..], None);
  }

  /**
   * What becomes of every message of a conversation: each run of users is one message with all their texts; of each run
   * of assistants behind a user one speaks and keeps what the results behind it answer; nothing else is left, and
   * everything stays in its place.
   */
  lemma RepairIsInPlace(messages: seq<Message>)
    ensures exists parts ::
      InPlaceFrom(Conversation(messages), 0, parts) && Conversation(Repair(messages)) == Flat(parts)
  {
    hide *;
    var conv := Conversation(messages);
    RepairReads(messages);
    SpokenOnly(messages);
    var f := FirstUserAt(conv);
    SpokenFrom(conv, f);
    BeginsAt(conv, f);
    var rest := RunsInPlace(conv, f);
    NothingInFront(conv, f, rest);
    FlatOnly(f, -1, []);
    FlatCat(Only(f, -1, []), rest);
    FromUserOn(conv, f);
  }
}
