/**
 * What becomes of the system prompts of a request (deploy/litellm/klai_context.py, lines 811-835, 913-921 and the
 * system blocks of `assemble`).
 */
module SystemText {
  import opened Sequences
  import opened Strings
  import opened ToolBlocks
  import opened MessageRepair
  import opened ContextAssembly
  import opened ProviderContract

  /** What the system messages say, in order. */
  function SystemWords(messages: seq<Message>): string {
    Join(SEPARATOR, Texts(OfRole(messages, System)))
  }

  lemma SystemCat(a: seq<Message>, b: seq<Message>)
    ensures SystemWords(a + b) == Beside(SystemWords(a), SystemWords(b))
  {
    hide *;
    OfRoleCat(a, b, System);
    var x, y := Texts(OfRole(a, System)), Texts(OfRole(b, System));
    TextsCat(OfRole(a, System), OfRole(b, System));
    TextsAreTrimmed(x);
    TextsAreTrimmed(y);
    SystemWordsAre(a);
    SystemWordsAre(b);
    SystemWordsAre(a + b);
    JoinBeside(x, y);
  }

  lemma SystemWordsAre(messages: seq<Message>)
    ensures SystemWords(messages) == Join(SEPARATOR, Texts(OfRole(messages, System)))
  {
  }

  lemma NoSystemWords(messages: seq<Message>)
    requires forall m :: m in messages ==> m.role != System
    ensures SystemWords(messages) == ""
  {
    hide Join;
    NoneOfRole(messages, System);
    NothingJoined();
  }

  lemma NothingJoined()
    ensures Join(SEPARATOR, []) == "" && Texts([]) == []
  {
  }

  /** One system message says its own text. */
  lemma OneSystem(m: Message)
    requires m.role == System
    ensures SystemWords([m]) == Strip(TextOf(m))
  {
    hide Strip;
    assert [m][1..] == [] && OfRole([], System) == [] && OfRole([m], System) == [m];
    NothingJoined();
  }

  /** The texts themselves say the same as the head that holds them. */
  lemma HeadSaysAll(texts: seq<string>)
    requires forall t :: t in texts ==> Strip(t) == t && t != ""
    ensures SystemWords(SystemHead(texts)) == Join(SEPARATOR, texts)
  {
    hide Strip, Join, Trimmed;
    if texts == [] {
      NothingJoined();
      NoSystemWords([]);
    } else {
      var text := Join(SEPARATOR, texts);
      TextsAreTrimmed(texts);
      JoinIsTrimmed(texts);
      TrimmedIsStripped(text);
      OneSystem(SystemMessage(text));
    }
  }

  /** A repair keeps every word of every system prompt, in order, for every list of messages. */
  lemma RepairKeepsSystemWords(messages: seq<Message>)
    ensures SystemWords(Repair(messages)) == SystemWords(messages)
  {
    hide *;
    var texts, conv := Texts(OfRole(messages, System)), RepairedConversation(Conversation(messages));
    RepairIs(messages);
    HeadSaysAll(texts);
    SystemWordsAre(messages);
    RepairReads(messages);
    PairedIsSpoken(conv);
    SpokenHasNoSystem(conv);
    NoSystemWords(conv);
    SystemCat(SystemHead(texts), conv);
    BesideBlank(SystemWords(messages));
  }

  lemma RepairIs(messages: seq<Message>)
    ensures Repair(messages)
         == SystemHead(Texts(OfRole(messages, System))) + RepairedConversation(Conversation(messages))
  {
  }

  lemma SpokenHasNoSystem(conv: seq<Message>)
    requires forall m :: m in conv ==> Spoken(m)
    ensures forall m :: m in conv ==> m.role != System
  {
  }

  /** One system message at the head that says `words`, or none at all when there are no words. */
  ghost predicate OneHead(out: seq<Message>, words: string) {
    && (words != "" ==> out != [] && out[0] == SystemMessage(words))
    && forall i :: 0 <= i < |out| && out[i].role == System ==> i == 0 && words != ""
  }

  /**
   * After a repair the system prompts stand in one message at the head, and there is one exactly when some prompt was
   * not blank.
   */
  lemma RepairHasOneHead(messages: seq<Message>)
    ensures OneHead(Repair(messages), SystemWords(messages))
    ensures SystemWords(messages) != "" <==> exists m :: m in messages && m.role == System && Strip(TextOf(m)) != ""
  {
    hide *;
    var texts, conv := Texts(OfRole(messages, System)), RepairedConversation(Conversation(messages));
    RepairIs(messages);
    RepairReads(messages);
    PairedIsSpoken(conv);
    SpokenHasNoSystem(conv);
    SystemWordsAre(messages);
    HeadOrNone(texts);
    SystemTextIn(messages);
    HeadInFront(SystemHead(texts), conv);
    HeadIsOne(SystemHead(texts), conv, SystemWords(messages));
  }

  lemma HeadIsOne(head: seq<Message>, conv: seq<Message>, words: string)
    requires head == if words == "" then [] else [SystemMessage(words)]
    requires forall i :: |head| <= i < |head + conv| ==> (head + conv)[i].role != System
    ensures OneHead(head + conv, words)
  {
  }

  lemma HeadInFront(head: seq<Message>, conv: seq<Message>)
    requires forall m :: m in conv ==> m.role != System
    ensures forall i :: |head| <= i < |head + conv| ==> (head + conv)[i].role != System
  {
    forall i | |head| <= i < |head + conv| ensures (head + conv)[i].role != System {
      assert (head + conv)[i] == conv[i - |head|];
    }
  }

  lemma HeadOrNone(texts: seq<string>)
    requires forall t :: t in texts ==> Strip(t) == t && t != ""
    ensures Join(SEPARATOR, texts) == "" <==> texts == []
    ensures SystemHead(texts) == if texts == [] then [] else [SystemMessage(Join(SEPARATOR, texts))]
  {
    hide Join, Strip;
    if texts == [] {
      NothingJoined();
    } else {
      TextsAreTrimmed(texts);
      JoinIsTrimmed(texts);
    }
  }

  lemma {:induction false} SystemTextIn(messages: seq<Message>)
    ensures Texts(OfRole(messages, System)) != []
      <==> exists m :: m in messages && m.role == System && Strip(TextOf(m)) != ""
  {
    hide Strip;
    if messages == [] {
      NothingJoined();
    } else {
      var m, rest := messages[0], messages[1..];
      SystemTextIn(rest);
      assert messages == [m] + rest;
      assert OfRole([m], System) == if m.role == System then [m] else [] by {
        assert [m][1..] == [] && OfRole([], System) == [];
      }
      OfRoleCat([m], rest, System);
      TextsCat(OfRole([m], System), OfRole(rest, System));
      NothingJoined();
      assert [m][1..] == [];
      assert Texts([m]) == if Strip(TextOf(m)) != "" then [Strip(TextOf(m))] else [];
    }
  }

  // ----- Blocks

  /** A block behind a text: the text stays as it was, and the block stands in a paragraph of its own. */
  lemma BlockBehind(text: string, block: string)
    requires Trimmed(block)
    ensures Strip(RStrip(text) + SEPARATOR + block) == Beside(Strip(text), block)
  {
    hide Strip, LStrip, RStrip, IsSpace;
    Associates(RStrip(text), SEPARATOR, block);
    Associates(Strip(text), SEPARATOR, block);
    BesideBlank(block);
    if Strip(text) == "" {
      BlockAlone(text, block);
    } else {
      BlockBehindText(text, SEPARATOR + block);
    }
  }

  lemma BlockAlone(text: string, block: string)
    requires Strip(text) == "" && Trimmed(block)
    ensures RStrip(text) == "" && Strip("" + (SEPARATOR + block)) == block
  {
    StripFacts(text);
    RStripBlank(text);
    SeparatorIsBlank();
    hide Strip, LStrip, RStrip, IsSpace;
    LStripBlank(SEPARATOR, block);
    assert "" + (SEPARATOR + block) == SEPARATOR + block;
  }

  lemma SeparatorIsBlank()
    ensures forall i :: 0 <= i < |SEPARATOR| ==> IsSpace(SEPARATOR[i])
  {
  }

  lemma BlockBehindText(text: string, rest: string)
    requires Strip(text) != "" && rest != "" && !IsSpace(rest[|rest| - 1])
    ensures Strip(RStrip(text) + rest) == Strip(text) + rest
  {
    LStripOfCut(text);
    hide LStrip, RStrip, IsSpace;
    LStripKeepsRest(RStrip(text), rest);
    TrimmedStays(Strip(text) + rest);
  }

  lemma {:induction false} RStripBlank(text: string)
    requires forall i :: 0 <= i < |text| ==> IsSpace(text[i])
    ensures RStrip(text) == ""
  {
    hide IsSpace;
    if text != "" {
      RStripBlank(text[..|text| - 1]);
    }
  }

  lemma {:induction false} LStripBlank(blank: string, rest: string)
    requires (forall i :: 0 <= i < |blank| ==> IsSpace(blank[i])) && Trimmed(rest)
    ensures LStrip(blank + rest) == rest && Strip(blank + rest) == rest
  {
    hide IsSpace;
    if blank == "" {
      assert blank + rest == rest;
      TrimmedIsStripped(rest);
    } else {
      assert (blank + rest)[1..] == blank[1..] + rest;
      LStripBlank(blank[1..], rest);
    }
  }

  /** Stripping the right end first makes no difference. */
  lemma {:induction false} LStripOfCut(text: string)
    requires Strip(text) != ""
    ensures LStrip(RStrip(text)) == Strip(text)
  {
    hide IsSpace;
    StripFacts(text);
    if IsSpace(text[0]) {
      RStripKeepsFront(text);
      StripOfTail(text);
      LStripOfCut(text[1..]);
      assert RStrip(text) == [text[0]] + RStrip(text[1..]);
      assert RStrip(text)[1..] == RStrip(text[1..]);
    } else {
      RStripKeepsFront(text);
    }
  }

  lemma StripOfTail(text: string)
    requires text != "" && IsSpace(text[0])
    ensures Strip(text) == Strip(text[1..])
  {
  }

  lemma {:induction false} RStripKeepsFront(text: string)
    requires exists i :: 0 <= i < |text| && !IsSpace(text[i])
    ensures text != ""
    ensures !IsSpace(text[0]) ==> RStrip(text) != "" && RStrip(text)[0] == text[0]
    ensures IsSpace(text[0]) ==> RStrip(text) == [text[0]] + RStrip(text[1..])
  {
    var i :| 0 <= i < |text| && !IsSpace(text[i]);
    hide IsSpace;
    if IsSpace(text[|text| - 1]) {
      var front := text[..|text| - 1];
      assert front[i] == text[i];
      RStripKeepsFront(front);
      assert text[1..] != "" && text[1..][..|text[1..]| - 1] == front[1..];
    }
  }

  lemma {:induction false} LStripKeepsRest(text: string, rest: string)
    requires LStrip(text) != ""
    ensures LStrip(text + rest) == LStrip(text) + rest
  {
    hide IsSpace;
    assert text != "";
    if IsSpace(text[0]) {
      assert (text + rest)[1..] == text[1..] + rest;
      LStripKeepsRest(text[1..], rest);
    }
  }

  lemma TrimmedStays(text: string)
    requires text != "" && !IsSpace(text[|text| - 1])
    ensures RStrip(text) == text
  {
  }

  /** What the first system message says, and what the others say. */
  function FirstWords(messages: seq<Message>): string {
    var systems := OfRole(messages, System);
    if systems == [] then "" else Strip(TextOf(systems[0]))
  }

  function OtherWords(messages: seq<Message>): string {
    var systems := OfRole(messages, System);
    if systems == [] then "" else Join(SEPARATOR, Texts(systems[1..]))
  }

  lemma {:induction false} FirstIsFound(messages: seq<Message>)
    ensures var i := FirstSystem(messages); var systems := OfRole(messages, System);
      && (i < |messages| <==> systems != [])
      && (i < |messages| ==> messages[i] == systems[0] && OfRole(messages[i + 1..], System) == systems[1..])
  {
    if messages != [] && messages[0].role != System {
      FirstIsFound(messages[1..]);
      var i := FirstSystem(messages[1..]);
      assert i < |messages[1..]| ==> messages[1..][i + 1..] == messages[i + 2..];
    }
  }

  lemma SystemsAlone(systems: seq<Message>)
    requires forall m :: m in systems ==> m.role == System
    ensures OfRole(systems, System) == systems
  {
    if systems != [] {
      assert systems[0] in systems;
      SystemsAlone(systems[1..]);
    }
  }

  lemma WordsOfParts(messages: seq<Message>)
    ensures SystemWords(messages) == Beside(FirstWords(messages), OtherWords(messages))
  {
    hide Strip, Join, OfRole, Texts;
    var systems := OfRole(messages, System);
    SystemsAlone(systems);
    if systems == [] {
      NothingJoined();
    } else {
      HeadAndTail(systems);
      assert forall m :: m in systems[1..] ==> m in systems;
      SystemsAlone(systems[1..]);
      OneSystem(systems[0]);
      SystemCat([systems[0]], systems[1..]);
    }
  }

  /** A system block goes behind the first system text and leaves the others where they are. */
  lemma BlockWords(messages: seq<Message>, block: string)
    requires Trimmed(block)
    ensures SystemWords(WithSystemBlock(messages, block))
         == Beside(Beside(FirstWords(messages), block), OtherWords(messages))
  {
    hide Strip, RStrip, Join, OfRole, Texts, SystemWords, Trimmed, Beside;
    FirstIsFound(messages);
    var i := FirstSystem(messages);
    if i == |messages| {
      OneSystem(SystemMessage(block));
      TrimmedIsStripped(block);
      SystemCat([SystemMessage(block)], messages);
      WordsOfParts(messages);
      BesideBlank(block);
      BesideBlank("");
    } else {
      var m := messages[i].(content := Some(Strip(RStrip(TextOf(messages[i])) + SEPARATOR + block)));
      BlockBehind(TextOf(messages[i]), block);
      StripFacts(TextOf(messages[i]));
      BlockIsTrimmed(Strip(TextOf(messages[i])), block);
      NothingInFront(messages[..i]);
      assert messages[i := m] == messages[..i] + ([m] + messages[i + 1..]);
      SystemCat(messages[..i], [m] + messages[i + 1..]);
      SystemCat([m], messages[i + 1..]);
      OneSystem(m);
      SystemWordsAre(messages[i + 1..]);
      BesideBlank(Beside(SystemWords([m]), SystemWords(messages[i + 1..])));
    }
  }

  lemma BlockIsTrimmed(text: string, block: string)
    requires (text == "" || Trimmed(text)) && Trimmed(block)
    ensures Strip(Beside(text, block)) == Beside(text, block)
  {
    TrimmedIsStripped(Beside(text, block));
  }

  lemma NothingInFront(front: seq<Message>)
    requires forall i :: 0 <= i < |front| ==> front[i].role != System
    ensures SystemWords(front) == ""
  {
    hide SystemWords;
    NoSystemWords(front);
  }

  // ----- The whole request

  ghost predicate Holds(text: string, part: string) {
    exists i :: HoldsAt(text, part, i)
  }

  ghost predicate HoldsAt(text: string, part: string, i: int) {
    0 <= i <= |text| - |part| && text[i..i + |part|] == part
  }

  lemma HoldsIs(text: string, part: string)
    ensures Holds(text, part) <==> Contains(text, part)
  {
    assert forall i :: HoldsAt(text, part, i) <==> At(text, part, i);
    hide HoldsAt, At;
    if i :| HoldsAt(text, part, i) {
      Bounds(text, part, i);
      assert At(text, part, i);
    }
    if i :| 0 <= i <= |text| - |part| && At(text, part, i) {
      assert HoldsAt(text, part, i);
    }
  }

  lemma Bounds(text: string, part: string, i: int)
    requires HoldsAt(text, part, i)
    ensures 0 <= i <= |text| - |part|
  {
  }

  /** A tool result of this turn is sent, and the first system prompt does not hold the boundary yet. */
  ghost predicate NeedsBoundary(messages: seq<Message>) {
    && (exists i :: LastUser(messages) < i < |messages| && (messages[i].role == Tool || messages[i].role == Function))
    && !(OfRole(messages, System) != [] && Holds(TextOf(OfRole(messages, System)[0]), TOOL_DATA_BOUNDARY))
  }

  /** Some of the history in front of the last user does not fit the budget. */
  ghost predicate HistoryGoes(messages: seq<Message>, s: Settings) {
    var tailed := SafeTail(Prepared(messages, s));
    var last := LastUser(tailed);
    s.applyHistoryBudget && exists j :: 0 <= j <= last && !ProviderContract.Fits(tailed, j, last, s)
  }

  /** The system text of a request as the model provider gets it. */
  function PromptWords(messages: seq<Message>, boundary: bool, notice: bool): string {
    var first := if boundary then Beside(FirstWords(messages), TOOL_DATA_BOUNDARY) else FirstWords(messages);
    Beside(Beside(first, OtherWords(messages)), if notice then HISTORY_OMITTED else "")
  }

  lemma ConstantsAreTrimmed()
    ensures Trimmed(TOOL_DATA_BOUNDARY) && Trimmed(HISTORY_OMITTED)
  {
    assert TOOL_DATA_BOUNDARY[0] == 'T' && TOOL_DATA_BOUNDARY[|TOOL_DATA_BOUNDARY| - 1] == '.';
    assert HISTORY_OMITTED[0] == '[' && HISTORY_OMITTED[|HISTORY_OMITTED| - 1] == ']';
  }

  /** Sanitizing leaves system messages as they are. */
  lemma {:induction false} SanitizedKeepsSystem(messages: seq<Message>, index: nat, lastUser: int, s: Settings)
    requires index <= |messages|
    ensures OfRole(Sanitized(messages, index, lastUser, s), System) == OfRole(messages[index..], System)
    decreases |messages| - index
  {
    hide SanitizedAt, OfRole;
    if index == |messages| {
      assert messages[index..] == [];
    } else {
      SanitizedKeepsSystem(messages, index + 1, lastUser, s);
      var m := messages[index];
      assert messages[index..] == [m] + messages[index + 1..];
      OfRoleCat([m], messages[index + 1..], System);
      OfRoleCat(SanitizedAt(m, index, lastUser, s), Sanitized(messages, index + 1, lastUser, s), System);
      SystemStays(m, index, lastUser, s);
    }
  }

  lemma SystemStays(m: Message, index: nat, lastUser: int, s: Settings)
    ensures OfRole(SanitizedAt(m, index, lastUser, s), System) == OfRole([m], System)
  {
    hide IsStaleUpload, Truncated, Strip, TextOf;
    var out := SanitizedAt(m, index, lastUser, s);
    assert [m][1..] == [] && (|out| == 1 ==> out[1..] == []);
  }

  lemma BoundaryWords(messages: seq<Message>, active: bool)
    ensures SystemWords(WithBoundary(messages, active)) ==
      PromptWords(messages, active && !(OfRole(messages, System) != []
                                        && Contains(TextOf(OfRole(messages, System)[0]), TOOL_DATA_BOUNDARY)), false)
  {
    hide SystemWords, FirstWords, OtherWords, OfRole, Contains, WithSystemBlock, Beside;
    FirstIsFound(messages);
    ConstantsAreTrimmed();
    BlockWords(messages, TOOL_DATA_BOUNDARY);
    WordsOfParts(messages);
    BesideBlank(Beside(FirstWords(messages), OtherWords(messages)));
    BesideBlank(Beside(Beside(FirstWords(messages), TOOL_DATA_BOUNDARY), OtherWords(messages)));
  }

  lemma NeedsBoundaryIs(messages: seq<Message>)
    ensures NeedsBoundary(messages) <==>
      && HasActiveResult(messages, LastUser(messages))
      && !(OfRole(messages, System) != [] && Contains(TextOf(OfRole(messages, System)[0]), TOOL_DATA_BOUNDARY))
  {
    hide Holds, Contains, LastUser;
    if OfRole(messages, System) != [] {
      HoldsIs(TextOf(OfRole(messages, System)[0]), TOOL_DATA_BOUNDARY);
    }
  }

  lemma PreparedWords(messages: seq<Message>, s: Settings)
    ensures SystemWords(Prepared(messages, s)) == PromptWords(messages, NeedsBoundary(messages), false)
  {
    NeedsBoundaryIs(messages);
    hide SystemWords, Repair, Sanitized, WithBoundary, Beside, Contains, HasActiveResult, OfRole, NeedsBoundary;
    var last := LastUser(messages);
    var out := Sanitized(messages, 0, last, s);
    SanitizedKeepsSystem(messages, 0, last, s);
    WholeTail(messages);
    BoundaryWords(out, HasActiveResult(messages, last));
    RepairKeepsSystemWords(WithBoundary(out, HasActiveResult(messages, last)));
  }

  lemma TailSaysNothing(messages: seq<Message>)
    ensures SystemWords(SafeTail(messages)) == SystemWords(messages)
  {
    hide SystemWords, TailRole;
    NoSystemWords([TAIL_MESSAGE]);
    SystemCat(messages, [TAIL_MESSAGE]);
    BesideBlank(SystemWords(messages));
  }

  lemma DroppedKeepsSystem(messages: seq<Message>, from: nat)
    requires from <= |messages|
    ensures OfRole(DropHistory(messages, from), System) == OfRole(messages, System)
  {
    hide OfRole, WithoutHistory;
    WithoutKeepsSystem(messages[..from]);
    OfRoleCat(WithoutHistory(messages[..from]), messages[from..], System);
    OfRoleCat(messages[..from], messages[from..], System);
    Rejoined(messages, from);
  }

  lemma {:induction false} WithoutKeepsSystem(messages: seq<Message>)
    ensures OfRole(WithoutHistory(messages), System) == OfRole(messages, System)
  {
    if messages != [] {
      WithoutKeepsSystem(messages[1..]);
      var rest := WithoutHistory(messages[1..]);
      if IsHistory(messages[0]) {
        assert WithoutHistory(messages) == [] + rest == rest;
      } else {
        assert ([messages[0]] + rest)[1..] == rest;
      }
    }
  }

  /** With one system message at most, a block goes behind all of the text. */
  lemma BlockAtEnd(messages: seq<Message>, block: string)
    requires Trimmed(block) && OtherWords(messages) == ""
    ensures SystemWords(WithSystemBlock(messages, block)) == Beside(SystemWords(messages), block)
  {
    hide SystemWords, FirstWords, OtherWords, WithSystemBlock, Beside, Trimmed;
    BlockWords(messages, block);
    WordsOfParts(messages);
    BesideBlank(FirstWords(messages));
    BesideBlank(Beside(FirstWords(messages), block));
  }

  lemma RepairedHasNoOthers(messages: seq<Message>)
    ensures OtherWords(Repair(messages)) == "" && OtherWords(SafeTail(Repair(messages))) == ""
  {
    hide Repair, SystemWords, SystemMessage, Join, TailRole;
    RepairHasOneHead(messages);
    OneHeadHasNoOthers(Repair(messages));
    OfRoleCat(Repair(messages), [TAIL_MESSAGE], System);
    NoneOfRole([TAIL_MESSAGE], System);
    assert OfRole(Repair(messages), System) + [] == OfRole(Repair(messages), System);
  }

  lemma OneHeadHasNoOthers(out: seq<Message>)
    requires forall i :: 0 <= i < |out| && out[i].role == System ==> i == 0
    ensures OtherWords(out) == ""
  {
    if out != [] {
      forall m | m in out[1..] ensures m.role != System {
        var i :| 0 <= i < |out[1..]| && out[1..][i] == m;
        assert out[i + 1] == m;
      }
      NoneOfRole(out[1..], System);
    }
    NothingJoined();
  }

  /** The budget step adds the notice exactly when it cuts. */
  lemma BudgetedWords(messages: seq<Message>, s: Settings)
    requires OtherWords(messages) == ""
    ensures SystemWords(Budgeted(messages, s))
         == Beside(SystemWords(messages), if HistoryCut(messages, s) < 0 then "" else HISTORY_OMITTED)
  {
    hide SystemWords, Repair, WithSystemBlock, DropHistory, HistoryCut, SafeTail, Beside, OtherWords, Trimmed;
    var cut := HistoryCut(messages, s);
    BesideBlank(SystemWords(messages));
    if cut < 0 {
      RepairKeepsSystemWords(messages);
      TailSaysNothing(Repair(messages));
    } else {
      var dropped := DropHistory(messages, NextUser(messages, cut + 1));
      DroppedKeepsSystem(messages, NextUser(messages, cut + 1));
      SameSystems(dropped, messages);
      ConstantsAreTrimmed();
      BlockAtEnd(dropped, HISTORY_OMITTED);
      RepairKeepsSystemWords(WithSystemBlock(dropped, HISTORY_OMITTED));
      TailSaysNothing(Repair(WithSystemBlock(dropped, HISTORY_OMITTED)));
    }
  }

  lemma SameSystems(a: seq<Message>, b: seq<Message>)
    requires OfRole(a, System) == OfRole(b, System)
    ensures SystemWords(a) == SystemWords(b) && OtherWords(a) == OtherWords(b) && FirstWords(a) == FirstWords(b)
  {
  }

  /**
   * End to end: the provider gets all system prompts of the request, in order; the tool data boundary stands behind
   * the first one exactly when it is needed, and the notice behind them all exactly when history goes.
   */
  lemma SystemPromptsSurvive(messages: seq<Message>, s: Settings)
    requires LastUser(messages) >= 0
    ensures SystemWords(Assembled(messages, s))
         == PromptWords(messages, NeedsBoundary(messages), HistoryGoes(messages, s))
  {
    hide SystemWords, Prepared, SafeTail, Budgeted, Beside, NeedsBoundary, HistoryCut, FirstWords, OtherWords,
         ProviderContract.Fits;
    var first := Prepared(messages, s);
    var tailed := SafeTail(first);
    PreparedWords(messages, s);
    TailSaysNothing(first);
    PreparedEnds(messages, s);
    BudgetedWords(tailed, s);
    BesideBlank(SystemWords(tailed));
    BesideBlank(PromptWords(messages, NeedsBoundary(messages), false));
    NoNotice(messages, NeedsBoundary(messages), SystemWords(tailed));
    CutMeansGone(tailed, s);
  }

  lemma NoNotice(messages: seq<Message>, boundary: bool, words: string)
    requires words == PromptWords(messages, boundary, false)
    ensures Beside(words, HISTORY_OMITTED) == PromptWords(messages, boundary, true)
    ensures Beside(words, "") == words
  {
    hide FirstWords, OtherWords;
  }

  lemma CutMeansGone(messages: seq<Message>, s: Settings)
    requires LastUser(messages) >= 0
    ensures HistoryCut(messages, s) >= 0
      <==> exists j :: 0 <= j <= LastUser(messages) && !ProviderContract.Fits(messages, j, LastUser(messages), s)
  {
    hide HistoryCut, ProviderContract.Fits;
    CutIsExact(messages, s);
  }

  lemma PreparedEnds(messages: seq<Message>, s: Settings)
    requires LastUser(messages) >= 0
    ensures var tailed := SafeTail(Prepared(messages, s)); LastUser(tailed) >= 0 && OtherWords(tailed) == ""
  {
    hide *;
    var first := Prepared(messages, s);
    PreparedIsOrderly(messages, s);
    TailIsOrderly(first, Conversation(first));
    HeadedHasUser(SafeTail(first), WithTail(Conversation(first)));
    PreparedIs(messages, s);
    RepairedHasNoOthers(WithBoundary(Sanitized(messages, 0, LastUser(messages), s),
                                     HasActiveResult(messages, LastUser(messages))));
  }

  lemma PreparedIs(messages: seq<Message>, s: Settings)
    ensures var last := LastUser(messages);
      Prepared(messages, s) == Repair(WithBoundary(Sanitized(messages, 0, last, s), HasActiveResult(messages, last)))
  {
  }

  lemma TailedHead(messages: seq<Message>, words: string)
    requires OneHead(messages, words)
    ensures OneHead(SafeTail(messages), words)
  {
    hide TailRole;
    assert forall i :: 0 <= i < |messages| ==> (messages + [TAIL_MESSAGE])[i] == messages[i];
  }

  /** All of it stands in one system message at the head. */
  lemma AssembledHasOneHead(messages: seq<Message>, s: Settings)
    requires LastUser(messages) >= 0
    ensures OneHead(Assembled(messages, s), SystemWords(Assembled(messages, s)))
  {
    hide SystemWords, Sanitized, HasActiveResult, WithBoundary, WithSystemBlock, DropHistory, Repair, HistoryCut,
         SafeTail, OneHead;
    var last := LastUser(messages);
    RepairedHead(WithBoundary(Sanitized(messages, 0, last, s), HasActiveResult(messages, last)));
    var tailed := SafeTail(Prepared(messages, s));
    RepairedHead(tailed);
    var cut := HistoryCut(tailed, s);
    if cut >= 0 {
      RepairedHead(WithSystemBlock(DropHistory(tailed, NextUser(tailed, cut + 1)), HISTORY_OMITTED));
    }
  }

  lemma RepairedHead(messages: seq<Message>)
    ensures OneHead(SafeTail(Repair(messages)), SystemWords(SafeTail(Repair(messages))))
  {
    hide SystemWords, Repair, SafeTail, OneHead;
    RepairHasOneHead(messages);
    RepairKeepsSystemWords(messages);
    TailedHead(Repair(messages), SystemWords(messages));
    TailSaysNothing(Repair(messages));
  }

  /** With one system message at most, the text starts with what the request said. */
  lemma PromptComesFirst(messages: seq<Message>, s: Settings)
    requires LastUser(messages) >= 0 && |OfRole(messages, System)| <= 1
    ensures SystemWords(messages) <= SystemWords(Assembled(messages, s))
  {
    SystemPromptsSurvive(messages, s);
    WordsOfParts(messages);
    NoOtherWords(messages);
    hide *;
    OneWithBlocks(messages, NeedsBoundary(messages), HistoryGoes(messages, s));
    BesideBlank(FirstWords(messages));
  }

  lemma NoOtherWords(messages: seq<Message>)
    requires |OfRole(messages, System)| <= 1
    ensures OtherWords(messages) == ""
  {
    hide Join, Texts;
    NothingJoined();
  }

  lemma OneWithBlocks(messages: seq<Message>, boundary: bool, notice: bool)
    requires OtherWords(messages) == ""
    ensures FirstWords(messages) <= PromptWords(messages, boundary, notice)
  {
    hide FirstWords, OtherWords;
  }
}
