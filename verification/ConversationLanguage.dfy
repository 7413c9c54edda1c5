/**
 * Replaying a conversation to decide its language: a hysteresis state machine over the user turns
 * (deploy/litellm/klai_conversation_language.py). The evidence gate and the identifier are an oracle that has
 * already labelled every turn.
 */
module ConversationLanguage {
  import opened Strings

  const OPENING_WINDOW_TURNS := 3
  const FIRST_SWITCH_CONFIRMATIONS := 1
  const SUBSEQUENT_SWITCH_CONFIRMATIONS := 2

  type Lang = string

  datatype Method = ExplicitRequest | FunctionWords | LangId

  /** Why a turn carries no vote. */
  datatype Silence = Empty | NoEvidence | DetectorUnavailable | LowConfidence

  /** One user turn, as the gate, the request table and the identifier see it. */
  datatype Turn =
    | Abstain(why: Silence)
    | Explicit(lang: Lang)
    | Vote(lang: Lang, strong: bool, how: Method)

  datatype LastSet = Nothing | Establish | InWindow | Switch | Request

  /** The state of one replay. */
  datatype State = State(
    language: Option<Lang>,
    votes: nat,
    abstentions: nat,
    switches: nat,
    pending: Option<Lang>,
    pendingRun: nat,
    switchCost: nat,
    lastSet: LastSet,
    lastMethod: Option<Method>)

  const START := State(None, 0, 0, 0, None, 0, FIRST_SWITCH_CONFIRMATIONS, Nothing, None)

  /** What one voting turn does to the state, case by case. */
  function Cast(s: State, lang: Lang, explicit: bool, strong: bool, how: Method): State {
    var s := s.(votes := s.votes + 1);
    if explicit then
      s.(switches := s.switches + (if s.language.Some? && s.language.value != lang then 1 else 0),
         language := Some(lang), lastSet := Request, lastMethod := Some(how),
         pending := None, pendingRun := 0, switchCost := FIRST_SWITCH_CONFIRMATIONS)
    else if s.language == None then
      s.(language := Some(lang), lastSet := Establish, lastMethod := Some(how))
    else if s.language == Some(lang) then
      s.(lastSet := if s.votes <= OPENING_WINDOW_TURNS then InWindow else s.lastSet, pending := None, pendingRun := 0)
    else if !strong then s
    else if s.votes <= OPENING_WINDOW_TURNS then
      s.(switches := s.switches + 1, language := Some(lang), lastSet := InWindow, lastMethod := Some(how))
    else Advanced(s, lang, how)
  }

  /** A vote against the locked language: it extends the streak, and a long enough streak switches. */
  function Advanced(s: State, lang: Lang, how: Method): State {
    var run := if s.pending == Some(lang) then s.pendingRun + 1 else 1;
    if run >= s.switchCost then
      s.(switches := s.switches + 1, language := Some(lang), lastSet := Switch, lastMethod := Some(how),
         switchCost := SUBSEQUENT_SWITCH_CONFIRMATIONS, pending := None, pendingRun := 0)
    else
      s.(pending := Some(lang), pendingRun := run)
  }

  function Step(s: State, t: Turn): State {
    match t
    case Abstain(_) => s.(abstentions := s.abstentions + 1)
    case Explicit(lang) => Cast(s, lang, true, true, ExplicitRequest)
    case Vote(lang, strong, how) => Cast(s, lang, false, strong, how)
  }

  function RunFrom(s: State, turns: seq<Turn>): State {
    if turns == [] then s else Step(RunFrom(s, turns[..|turns| - 1]), turns[|turns| - 1])
  }

  function Run(turns: seq<Turn>): State {
    RunFrom(START, turns)
  }

  lemma RunSnoc(s: State, turns: seq<Turn>, t: Turn)
    ensures RunFrom(s, turns + [t]) == Step(RunFrom(s, turns), t)
  {
    assert (turns + [t])[..|turns|] == turns;
  }

  datatype Reason = Established | Locked | Switched | ByRequest | NothingToJudge | TooUnsure | NoDetector

  datatype Decision = Decision(language: Option<Lang>, reason: Reason, votes: nat, abstentions: nat, switches: nat,
                               locked: bool, how: Option<Method>)

  /** `_decision_reason`. */
  function DecisionReason(s: State, locked: bool, lowConfidence: bool, detectorMissing: bool): Reason {
    if s.language == None then
      if detectorMissing then NoDetector else if lowConfidence then TooUnsure else NothingToJudge
    else if s.lastSet == Request then ByRequest
    else if s.lastSet == Switch then Switched
    else if locked then Locked else Established
  }

  class ReplayState {
    var language: Option<Lang>
    var votes: nat
    var abstentions: nat
    var switches: nat
    var pendingLanguage: Option<Lang>
    var pendingRun: nat
    var switchCost: nat
    var lastSet: LastSet
    var lastMethod: Option<Method>

    function Value(): State
      reads this
    {
      State(language, votes, abstentions, switches, pendingLanguage, pendingRun, switchCost, lastSet, lastMethod)
    }

    constructor ()
      ensures Value() == START
    {
      language, votes, abstentions, switches := None, 0, 0, 0;
      pendingLanguage, pendingRun, switchCost := None, 0, FIRST_SWITCH_CONFIRMATIONS;
      lastSet, lastMethod := Nothing, None;
    }

    method CastVote(lang: Lang, explicit: bool, strong: bool, how: Method)
      modifies this
      ensures Value() == Cast(old(Value()), lang, explicit, strong, how)
    {
      votes := votes + 1;
      if explicit {
        if language.Some? && lang != language.value {
          switches := switches + 1;
        }
        language, lastSet, lastMethod := Some(lang), Request, Some(how);
        pendingLanguage, pendingRun, switchCost := None, 0, FIRST_SWITCH_CONFIRMATIONS;
        return;
      }
      if language == None {
        language, lastSet, lastMethod := Some(lang), Establish, Some(how);
      } else if language == Some(lang) {
        if votes <= OPENING_WINDOW_TURNS {
          lastSet := InWindow;
        }
        pendingLanguage, pendingRun := None, 0;
      } else if !strong {
        return;
      } else if votes <= OPENING_WINDOW_TURNS {
        switches := switches + 1;
        language, lastSet, lastMethod := Some(lang), InWindow, Some(how);
      } else {
        AdvanceStreak(lang, how);
      }
    }

    method AdvanceStreak(lang: Lang, how: Method)
      modifies this
      ensures Value() == Advanced(old(Value()), lang, how)
    {
      if pendingLanguage == Some(lang) {
        pendingRun := pendingRun + 1;
      } else {
        pendingLanguage, pendingRun := Some(lang), 1;
      }
      if pendingRun >= switchCost {
        switches := switches + 1;
        language, lastSet, lastMethod := Some(lang), Switch, Some(how);
        switchCost := SUBSEQUENT_SWITCH_CONFIRMATIONS;
        pendingLanguage, pendingRun := None, 0;
      }
    }
  }

  function Heard(turns: seq<Turn>, why: Silence): bool {
    Abstain(why) in turns
  }

  /** `resolve_conversation_language` over the labelled user turns, oldest first. */
  method Resolve(turns: seq<Turn>) returns (d: Decision)
    ensures var s := Run(turns);
      && d.language == s.language && d.votes == s.votes && d.abstentions == s.abstentions
      && d.switches == s.switches && d.how == s.lastMethod
      && d.locked == (s.language.Some? && s.votes >= OPENING_WINDOW_TURNS)
      && d.reason == DecisionReason(s, d.locked, Heard(turns, LowConfidence), Heard(turns, DetectorUnavailable))
    ensures d.votes + d.abstentions == |turns|
  {
    var state := new ReplayState();
    var lowConfidence, detectorMissing := false, false;
    for i := 0 to |turns|
      invariant state.Value() == Run(turns[..i])
      invariant lowConfidence == Heard(turns[..i], LowConfidence)
      invariant detectorMissing == Heard(turns[..i], DetectorUnavailable)
    {
      assert turns[..i + 1] == turns[..i] + [turns[i]];
      RunSnoc(START, turns[..i], turns[i]);
      match turns[i]
      case Abstain(why) =>
        lowConfidence := lowConfidence || why == LowConfidence;
        detectorMissing := detectorMissing || why == DetectorUnavailable;
        state.abstentions := state.abstentions + 1;
      case Explicit(lang) => state.CastVote(lang, true, true, ExplicitRequest);
      case Vote(lang, strong, how) => state.CastVote(lang, false, strong, how);
    }
    assert turns[..|turns|] == turns;
    EveryTurnCounts(turns);
    var locked := state.language.Some? && state.votes >= OPENING_WINDOW_TURNS;
    d := Decision(state.language, DecisionReason(state.Value(), locked, lowConfidence, detectorMissing),
                  state.votes, state.abstentions, state.switches, locked, state.lastMethod);
  }

  /** Every user turn is a vote or an abstention. */
  lemma {:induction false} EveryTurnCounts(turns: seq<Turn>)
    ensures Run(turns).votes + Run(turns).abstentions == |turns|
  {
    if turns != [] {
      EveryTurnCounts(turns[..|turns| - 1]);
    }
  }

  /** The turns that vote. */
  function Voting(turns: seq<Turn>): seq<Turn> {
    if turns == [] then []
    else
      var t := turns[|turns| - 1];
      Voting(turns[..|turns| - 1]) + (if t.Abstain? then [] else [t])
  }

  /** Deleting the abstaining turns changes nothing but the abstention count. */
  lemma {:induction false} AbstentionsAreInert(s: State, turns: seq<Turn>)
    ensures RunFrom(s, Voting(turns)) == RunFrom(s, turns).(abstentions := s.abstentions)
  {
    hide Step;
    if turns != [] {
      var before, t := turns[..|turns| - 1], turns[|turns| - 1];
      AbstentionsAreInert(s, before);
      StepIgnoresAbstentions(RunFrom(s, before), t, s.abstentions);
      if t.Abstain? {
        assert Voting(turns) == Voting(before);
      } else {
        RunSnoc(s, Voting(before), t);
      }
    }
  }

  /** The number of abstentions is only ever counted. */
  lemma StepIgnoresAbstentions(s: State, t: Turn, n: nat)
    ensures t.Abstain? ==> Step(s, t).(abstentions := n) == s.(abstentions := n)
    ensures !t.Abstain? ==> Step(s.(abstentions := n), t) == Step(s, t).(abstentions := n)
  {
  }

  // ----- How often the language can change

  function Votes(turns: seq<Turn>): nat {
    if turns == [] then 0
    else Votes(turns[..|turns| - 1]) + (if turns[|turns| - 1].Abstain? then 0 else 1)
  }

  function Requests(turns: seq<Turn>): nat {
    if turns == [] then 0
    else Requests(turns[..|turns| - 1]) + (if turns[|turns| - 1].Explicit? then 1 else 0)
  }

  /** What every reachable state satisfies. */
  ghost predicate Reachable(s: State) {
    && 1 <= s.switchCost <= 2
    && s.pendingRun < s.switchCost
    && (s.pending == None <==> s.pendingRun == 0)
    && (s.votes <= OPENING_WINDOW_TURNS ==> s.switchCost == 1)
    && (s.language == None <==> s.votes == 0)
    && (s.pending.Some? ==> s.pending != s.language)
    && (s.votes == 0 ==> s.switches == 0)
  }

  lemma StepReachable(s: State, t: Turn)
    requires Reachable(s)
    ensures Reachable(Step(s, t))
  {
  }

  lemma {:induction false} RunReachable(s: State, turns: seq<Turn>)
    requires Reachable(s)
    ensures Reachable(RunFrom(s, turns))
    ensures RunFrom(s, turns).votes == s.votes + Votes(turns)
  {
    hide Reachable;
    if turns != [] {
      RunReachable(s, turns[..|turns| - 1]);
      StepReachable(RunFrom(s, turns[..|turns| - 1]), turns[|turns| - 1]);
    }
  }

  /**
   * Amortised switching: past the opening window, from every reachable state, `m` votes cause at most ceil(m/2)
   * language changes, plus one for each explicit request.
   */
  lemma {:induction false} SwitchesAreAmortised(s: State, turns: seq<Turn>)
    requires Reachable(s) && s.votes >= OPENING_WINDOW_TURNS
    ensures var e := RunFrom(s, turns);
      2 * (e.switches - s.switches) + e.pendingRun
        <= Votes(turns) + (e.switchCost - 1) + 2 * Requests(turns)
    ensures 2 * (RunFrom(s, turns).switches - s.switches) <= Votes(turns) + 1 + 2 * Requests(turns)
  {
    RunReachable(s, turns);
    if turns != [] {
      SwitchesAreAmortised(s, turns[..|turns| - 1]);
      RunReachable(s, turns[..|turns| - 1]);
    }
  }

  /** A whole conversation: the opening window can cost one more change. */
  lemma {:induction false} ConversationSwitchBound(turns: seq<Turn>)
    ensures 2 * Run(turns).switches <= Run(turns).votes + 2 + 2 * Requests(turns)
  {
    PotentialBound(turns);
    RunReachable(START, turns);
  }

  lemma {:induction false} PotentialBound(turns: seq<Turn>)
    ensures var s := Run(turns);
      && (0 < s.votes <= OPENING_WINDOW_TURNS ==> 2 * s.switches <= 2 * s.votes - 2 + 2 * Requests(turns))
      && (s.votes >= OPENING_WINDOW_TURNS ==>
            2 * s.switches + s.pendingRun <= s.votes + s.switchCost + 2 * Requests(turns))
  {
    if turns != [] {
      var before := turns[..|turns| - 1];
      PotentialBound(before);
      RunReachable(START, before);
    }
  }

  // ----- What a change of language needs

  /**
   * How many of the last voting turns were strong votes for `b`, looking past abstentions and past weak votes
   * against the established language `a`.
   */
  function TrailingStrong(turns: seq<Turn>, a: Lang, b: Lang): nat {
    if turns == [] then 0
    else
      var before := turns[..|turns| - 1];
      match turns[|turns| - 1]
      case Abstain(_) => TrailingStrong(before, a, b)
      case Explicit(_) => 0
      case Vote(lang, strong, _) =>
        if lang == b && strong then 1 + TrailingStrong(before, a, b)
        else if lang != a && !strong then TrailingStrong(before, a, b)
        else 0
  }

  /** The pending streak is exactly what the turns show. */
  lemma {:induction false} StreakIsTrailing(turns: seq<Turn>, a: Lang, b: Lang)
    requires Run(turns).language == Some(a) && b != a
    ensures TrailingStrong(turns, a, b) == if Run(turns).pending == Some(b) then Run(turns).pendingRun else 0
  {
    var before := turns[..|turns| - 1];
    var s := Run(before);
    RunReachable(START, before);
    if s.language == Some(a) {
      StreakIsTrailing(before, a, b);
    }
  }

  /**
   * Past the window a vote changes the language from `a` exactly when it is a strong vote for another language and,
   * looking past abstentions and weak votes against `a`, the last `switchCost` votes were all strong votes for it.
   */
  lemma SwitchNeedsEvidence(turns: seq<Turn>, t: Turn, a: Lang)
    requires Run(turns).language == Some(a) && Run(turns).votes >= OPENING_WINDOW_TURNS
    requires t.Vote?
    ensures Run(turns + [t]).language != Some(a)
      <==> t.lang != a && t.strong && TrailingStrong(turns + [t], a, t.lang) >= Run(turns).switchCost
    ensures Run(turns + [t]).language != Some(a) ==> Run(turns + [t]).language == Some(t.lang)
  {
    RunSnoc(START, turns, t);
    RunReachable(START, turns);
    assert (turns + [t])[..|turns|] == turns;
    if t.lang != a {
      StreakIsTrailing(turns, a, t.lang);
    }
  }

  /** An explicit request always wins at once, whatever came before. */
  lemma RequestWins(turns: seq<Turn>, lang: Lang)
    ensures var s := Run(turns + [Explicit(lang)]);
      s.language == Some(lang) && s.pending == None && s.switchCost == FIRST_SWITCH_CONFIRMATIONS
  {
    RunSnoc(START, turns, Explicit(lang));
  }

  // ----- What single votes do

  /** The first vote sets the language, weak or strong. */
  lemma FirstVoteSets(turns: seq<Turn>, t: Turn)
    requires Run(turns).language == None && t.Vote?
    ensures var s := Run(turns + [t]); s.language == Some(t.lang) && s.switches == Run(turns).switches
  {
    RunSnoc(START, turns, t);
  }

  /**
   * A weak vote never changes an established language, at any point of the conversation: neither what the next switch
   * costs, and a weak vote for another language does not even touch the streak.
   */
  lemma WeakVotesAreInert(turns: seq<Turn>, t: Turn)
    requires Run(turns).language.Some? && t.Vote? && !t.strong
    ensures var s, s' := Run(turns), Run(turns + [t]);
      && s'.language == s.language && s'.switches == s.switches && s'.switchCost == s.switchCost
      && s'.lastMethod == s.lastMethod && s'.votes == s.votes + 1
      && (Some(t.lang) != s.language ==>
            s'.pending == s.pending && s'.pendingRun == s.pendingRun && s'.lastSet == s.lastSet)
      && (Some(t.lang) == s.language ==> s'.pending == None)
  {
    RunSnoc(START, turns, t);
  }

  /**
   * Among the first three votes one strong vote is enough: it changes the language at once, and nothing but a strong
   * vote for another language does.
   */
  lemma WindowSwitchIsExact(turns: seq<Turn>, t: Turn, a: Lang)
    requires Run(turns).language == Some(a) && Run(turns).votes < 3 && t.Vote?
    ensures Run(turns + [t]).language == if t.strong && t.lang != a then Some(t.lang) else Some(a)
    ensures Run(turns + [t]).switches == Run(turns).switches + (if t.strong && t.lang != a then 1 else 0)
    ensures Run(turns + [t]).switchCost == Run(turns).switchCost
  {
    RunSnoc(START, turns, t);
  }

  /** Turn `i` took the conversation from one language to another. */
  predicate ChangesAt(turns: seq<Turn>, i: nat)
    requires i < |turns|
  {
    Run(turns[..i]).language.Some? && Run(turns[..i + 1]).language != Run(turns[..i]).language
  }

  function Changes(turns: seq<Turn>): nat {
    if turns == [] then 0
    else
      var n := |turns| - 1;
      Changes(turns[..n]) + (if ChangesAt(turns, n) then 1 else 0)
  }

  /** The reported number of switches is the number of turns at which the language changed. */
  lemma {:induction false} SwitchesAreChanges(turns: seq<Turn>)
    ensures Run(turns).switches == Changes(turns)
  {
    hide Step, Reachable, RunFrom;
    if turns == [] {
      NothingRun();
    } else {
      var n := |turns| - 1;
      SwitchesAreChanges(turns[..n]);
      assert turns[..n + 1] == turns && turns == turns[..n] + [turns[n]];
      RunSnoc(START, turns[..n], turns[n]);
      StartIsReachable();
      RunReachable(START, turns[..n]);
      SwitchStep(Run(turns[..n]), turns[n]);
    }
  }

  lemma NothingRun()
    ensures Run([]) == START && START.switches == 0
  {
  }

  lemma StartIsReachable()
    ensures Reachable(START)
  {
  }

  lemma SwitchStep(s: State, t: Turn)
    requires Reachable(s)
    ensures Step(s, t).switches
         == s.switches + (if s.language.Some? && Step(s, t).language != s.language then 1 else 0)
  {
  }

  /** Since the last request, a streak of strong votes past the window changed the language. */
  predicate SwitchedSince(turns: seq<Turn>) {
    turns != [] &&
    var n := |turns| - 1;
    if turns[n].Explicit? then false
    else (ChangesAt(turns, n) && Run(turns[..n]).votes >= 3) || SwitchedSince(turns[..n])
  }

  /** A switch costs one strong vote at first and two after such a change, until the next request. */
  lemma {:induction false} CostIsExact(turns: seq<Turn>)
    ensures Run(turns).switchCost == if SwitchedSince(turns) then 2 else 1
    ensures Run(turns).lastSet == Switch <==> SwitchedSince(turns)
    ensures SwitchedSince(turns) ==> Run(turns).votes > 3
  {
    if turns != [] {
      var n := |turns| - 1;
      CostIsExact(turns[..n]);
      assert turns[..n + 1] == turns && turns == turns[..n] + [turns[n]];
      RunSnoc(START, turns[..n], turns[n]);
      RunReachable(START, turns[..n]);
    }
  }

  /** How the language that holds was found: by the turn that set or changed it, or by the last request. */
  function Finder(turns: seq<Turn>): Option<Method> {
    if turns == [] then None
    else
      var n := |turns| - 1;
      match turns[n]
      case Explicit(_) => Some(ExplicitRequest)
      case Vote(_, _, how) =>
        if Run(turns).language != Run(turns[..n]).language then Some(how) else Finder(turns[..n])
      case Abstain(_) => Finder(turns[..n])
  }

  lemma {:induction false} MethodIsExact(turns: seq<Turn>)
    ensures Run(turns).lastMethod == Finder(turns)
  {
    if turns != [] {
      var n := |turns| - 1;
      MethodIsExact(turns[..n]);
      assert turns == turns[..n] + [turns[n]];
      RunSnoc(START, turns[..n], turns[n]);
      RunReachable(START, turns[..n]);
    }
  }

  /**
   * The reported reason, read off the turns: without any vote it is why there is none, the missing detector first;
   * otherwise a request, a switch past the window, or how far the window has run.
   */
  lemma ReasonIsExact(turns: seq<Turn>)
    ensures var s := Run(turns);
      var locked := s.language.Some? && s.votes >= OPENING_WINDOW_TURNS;
      var r := DecisionReason(s, locked, Heard(turns, LowConfidence), Heard(turns, DetectorUnavailable));
      && (r == NoDetector <==> Votes(turns) == 0 && Abstain(DetectorUnavailable) in turns)
      && (r == TooUnsure <==>
            Votes(turns) == 0 && Abstain(DetectorUnavailable) !in turns && Abstain(LowConfidence) in turns)
      && (r == NothingToJudge <==> Votes(turns) == 0 && Abstain(DetectorUnavailable) !in turns
                                   && Abstain(LowConfidence) !in turns)
      && (r == Switched <==> SwitchedSince(turns))
      && (r == ByRequest <==> s.lastSet == Request)
      && (r == Locked <==> Votes(turns) >= 3 && s.lastSet != Request && !SwitchedSince(turns))
      && (r == Established <==> 0 < Votes(turns) < 3 && s.lastSet != Request)
  {
    hide RunFrom;
    RunReachable(START, turns);
    CostIsExact(turns);
    RequestsVote(turns);
  }

  lemma {:induction false} RequestsVote(turns: seq<Turn>)
    ensures Run(turns).lastSet == Request ==> Run(turns).votes > 0
  {
    if turns != [] {
      RequestsVote(turns[..|turns| - 1]);
    }
  }

  // ----- The reported reason

  /** Turn `i` is a vote for the language `s` already has, cast while the opening window is open. */
  ghost predicate ReinforcesAt(s: State, more: seq<Turn>, i: int) {
    && 0 <= i < |more| && more[i].Vote? && Some(more[i].lang) == s.language
    && RunFrom(s, more[..i]).votes < OPENING_WINDOW_TURNS
  }

  ghost predicate ReinforcedInWindow(s: State, more: seq<Turn>) {
    exists i :: ReinforcesAt(s, more, i)
  }

  /** A request, with no such vote behind it. */
  ghost predicate RequestedSince(s: State, more: seq<Turn>) {
    exists i :: 0 <= i < |more| && more[i].Explicit? && NotReinforcedSince(s, more, i)
  }

  ghost predicate NotReinforcedSince(s: State, more: seq<Turn>, i: int) {
    forall j :: ReinforcesAt(s, more, j) ==> j <= i
  }

  /**
   * The reported reason against the documented one. `explicit_request` is documented as "the last language change was
   * an explicit request". While the language stays what it was in `s`, it is reported exactly when a request was made
   * since, even for the language already set, or brought it in, and no reinforcing vote fell into the opening window
   * after that request: such a vote overwrites `last_set`.
   */
  lemma {:induction false} RequestReasonIsExact(s: State, more: seq<Turn>)
    requires Reachable(s) && s.language.Some? && RunFrom(s, more).switches == s.switches
    ensures RunFrom(s, more).language == s.language
    ensures RunFrom(s, more).lastSet == Request
      <==> RequestedSince(s, more) || (s.lastSet == Request && !ReinforcedInWindow(s, more))
  {
    hide Step, Reachable, ReinforcedInWindow, RequestedSince;
    ReasonStep(s, more);
    if more != [] {
      var before, t := more[..|more| - 1], more[|more| - 1];
      RunReachable(s, before);
      SwitchesOnlyGrow(s, before);
      SwitchesOnlyGrow(RunFrom(s, before), [t]);
      OneStep(RunFrom(s, before), t);
      RequestReasonIsExact(s, before);
      RequestStep(RunFrom(s, before), t);
    }
  }

  /** Without a further request, the reason stays that of the request exactly while no such vote was cast. */
  lemma RequestReasonIsForgotten(s: State, more: seq<Turn>)
    requires Reachable(s) && s.lastSet == Request && s.language.Some?
    requires RunFrom(s, more).switches == s.switches && Requests(more) == 0
    ensures RunFrom(s, more).language == s.language
    ensures RunFrom(s, more).lastSet == Request <==> !ReinforcedInWindow(s, more)
  {
    hide Reachable, ReinforcedInWindow, NotReinforcedSince;
    RequestReasonIsExact(s, more);
    NoRequests(more);
  }

  lemma {:induction false} NoRequests(turns: seq<Turn>)
    requires Requests(turns) == 0
    ensures forall i :: 0 <= i < |turns| ==> !turns[i].Explicit?
  {
    if turns != [] {
      NoRequests(turns[..|turns| - 1]);
    }
  }

  lemma OneStep(s: State, t: Turn)
    ensures RunFrom(s, [t]) == Step(s, t)
  {
    assert [t][..0] == [];
    hide Step;
  }

  /** One turn without a switch: a request sets the reason, a reinforcing vote in the window takes it away. */
  lemma RequestStep(s: State, t: Turn)
    requires Reachable(s) && s.language.Some? && Step(s, t).switches == s.switches
    ensures Step(s, t).language == s.language
    ensures Step(s, t).lastSet ==
      if t.Explicit? then Request
      else if t.Vote? && Some(t.lang) == s.language && s.votes < OPENING_WINDOW_TURNS then InWindow else s.lastSet
  {
  }

  lemma ReasonStep(s: State, more: seq<Turn>)
    ensures more == [] ==> !ReinforcedInWindow(s, more) && !RequestedSince(s, more)
    ensures more != [] ==>
      var before, n := more[..|more| - 1], |more| - 1;
      && (ReinforcedInWindow(s, more) <==> ReinforcedInWindow(s, before) || ReinforcesAt(s, more, n))
      && (RequestedSince(s, more) <==> more[n].Explicit? || (RequestedSince(s, before) && !ReinforcesAt(s, more, n)))
  {
    hide RunFrom;
    if more != [] {
      var before, n := more[..|more| - 1], |more| - 1;
      forall i | 0 <= i < n ensures ReinforcesAt(s, before, i) <==> ReinforcesAt(s, more, i) {
        assert before[..i] == more[..i] && before[i] == more[i];
      }
      ReinforcedStep(s, more);
      RequestedStep(s, more);
    }
  }

  lemma ReinforcedStep(s: State, more: seq<Turn>)
    requires more != []
    requires forall i :: 0 <= i < |more| - 1 ==> (ReinforcesAt(s, more[..|more| - 1], i) <==> ReinforcesAt(s, more, i))
    ensures ReinforcedInWindow(s, more)
      <==> ReinforcedInWindow(s, more[..|more| - 1]) || ReinforcesAt(s, more, |more| - 1)
  {
    hide RunFrom;
    var before := more[..|more| - 1];
    if ReinforcedInWindow(s, before) {
      var i :| ReinforcesAt(s, before, i);
      assert ReinforcesAt(s, more, i);
    }
  }

  lemma RequestedStep(s: State, more: seq<Turn>)
    requires more != []
    requires forall i :: 0 <= i < |more| - 1 ==> (ReinforcesAt(s, more[..|more| - 1], i) <==> ReinforcesAt(s, more, i))
    ensures var before, n := more[..|more| - 1], |more| - 1;
      RequestedSince(s, more) <==> more[n].Explicit? || (RequestedSince(s, before) && !ReinforcesAt(s, more, n))
  {
    hide RunFrom;
    var before, n := more[..|more| - 1], |more| - 1;
    forall i | 0 <= i < n
      ensures NotReinforcedSince(s, more, i) <==> NotReinforcedSince(s, before, i) && !ReinforcesAt(s, more, n)
    {
      if NotReinforcedSince(s, more, i) {
        forall j | ReinforcesAt(s, before, j) ensures j <= i {
          assert ReinforcesAt(s, more, j);
        }
      }
    }
    if more[n].Explicit? {
      assert NotReinforcedSince(s, more, n);
    }
    if RequestedSince(s, before) && !ReinforcesAt(s, more, n) {
      var i :| 0 <= i < |before| && before[i].Explicit? && NotReinforcedSince(s, before, i);
      assert more[i].Explicit? && NotReinforcedSince(s, more, i);
    }
    if RequestedSince(s, more) && !more[n].Explicit? {
      var i :| 0 <= i < |more| && more[i].Explicit? && NotReinforcedSince(s, more, i);
      assert before[i].Explicit? && NotReinforcedSince(s, before, i);
    }
  }

  lemma {:induction false} SwitchesOnlyGrow(s: State, turns: seq<Turn>)
    ensures RunFrom(s, turns).switches >= s.switches
  {
    if turns != [] {
      SwitchesOnlyGrow(s, turns[..|turns| - 1]);
    }
  }

  /** So one Dutch request followed by one Dutch sentence is reported as `established`. */
  lemma RequestReasonCounterexample(how: Method)
    ensures var s := Run([Explicit("nl"), Vote("nl", true, how)]);
      && s.language == Some("nl")
      && DecisionReason(s, false, false, false) == Established
  {
    RunSnoc(START, [], Explicit("nl"));
    RunSnoc(START, [Explicit("nl")], Vote("nl", true, how));
    assert [] + [Explicit("nl")] == [Explicit("nl")];
    assert [Explicit("nl")] + [Vote("nl", true, how)] == [Explicit("nl"), Vote("nl", true, how)];
  }

  /** And one Dutch sentence followed by a request for Dutch is reported as a request, though it changed nothing. */
  lemma NeedlessRequestIsReported(how: Method)
    ensures var s := Run([Vote("nl", true, how), Explicit("nl")]);
      && s.language == Run([Vote("nl", true, how)]).language == Some("nl")
      && DecisionReason(s, false, false, false) == ByRequest
  {
    RunSnoc(START, [], Vote("nl", true, how));
    RunSnoc(START, [Vote("nl", true, how)], Explicit("nl"));
    assert [] + [Vote("nl", true, how)] == [Vote("nl", true, how)];
    assert [Vote("nl", true, how)] + [Explicit("nl")] == [Vote("nl", true, how), Explicit("nl")];
  }
}
