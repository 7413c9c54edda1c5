/**
 * Keeping every model alias on the lowest account order that is not FULL (deploy/litellm/klai_mistral_pool.py).
 * The clock and the probe's status file are parameters; fingerprints are an oracle.
 */
module MistralPool {
  import opened Strings

  const STATUS_FILE_RECHECK_SECONDS := 10.0
  const BENCH_SECONDS := 300.0
  const PAYMENT_REQUIRED := 402

  type Account = string

  type Fingerprints = Account -> string

  datatype Bench = Bench(at: real, until: real)

  /** The probe's status file as a read finds it. */
  datatype StatusFile =
    | Missing
    | Unreadable(mtime: real)
    | Readable(mtime: real, states: map<string, string>)

  datatype Deployment = Deployment(id: Option<string>, order: Option<int>, account: Account)

  /** The hook's memory. */
  datatype State = State(
    checkedAt: Option<real>,
    mtime: Option<real>,
    probe: Option<map<string, string>>,
    marks: map<Account, Bench>,
    knownOrders: map<string, map<int, Account>>,
    knownAccounts: map<string, Account>)

  const START := State(None, None, None, map[], map[], map[])

  function Reload(s: State, file: StatusFile): State {
    match file
    case Missing => s.(mtime := None, probe := None)
    case Unreadable(t) => if s.mtime == Some(t) then s else s.(mtime := Some(t), probe := None)
    case Readable(t, states) => if s.mtime == Some(t) then s else s.(mtime := Some(t), probe := Some(states))
  }

  /** The file is looked at again only after the recheck interval. */
  function Rechecked(s: State, now: real, file: StatusFile): State {
    if s.checkedAt.Some? && now - s.checkedAt.value < STATUS_FILE_RECHECK_SECONDS then s
    else Reload(s.(checkedAt := Some(now)), file)
  }

  function ProbeState(s: State, a: Account, fp: Fingerprints): string {
    if s.probe.Some? && fp(a) in s.probe.value then s.probe.value[fp(a)] else ""
  }

  /** A later probe run than the 402 found the key working: the bench no longer counts. */
  predicate Cleared(s: State, a: Account, fp: Fingerprints) {
    && a in s.marks && ProbeState(s, a, fp) == "ok"
    && s.mtime.Some? && s.marks[a].at < s.mtime.value
  }

  /** FULL: the probe says so, or a bench that nothing has cleared still runs. */
  predicate Full(s: State, a: Account, now: real, fp: Fingerprints) {
    || ProbeState(s, a, fp) == "full"
    || (a in s.marks && !Cleared(s, a, fp) && now < s.marks[a].until)
  }

  // ----- Picking

  function PresentOrders(healthy: seq<Deployment>): map<int, Account> {
    if healthy == [] then map[]
    else
      var d := healthy[|healthy| - 1];
      var before := PresentOrders(healthy[..|healthy| - 1]);
      if d.order.Some? then before[d.order.value := d.account] else before
  }

  function SeenAccounts(healthy: seq<Deployment>): map<string, Account> {
    if healthy == [] then map[]
    else
      var d := healthy[|healthy| - 1];
      var before := SeenAccounts(healthy[..|healthy| - 1]);
      if d.order.Some? && d.id.Some? then before[d.id.value := d.account] else before
  }

  function KnownFor(s: State, model: string): map<int, Account> {
    if model in s.knownOrders then s.knownOrders[model] else map[]
  }

  /** The state once the offered deployments are recorded. */
  function Learned(s: State, model: string, healthy: seq<Deployment>): State {
    s.(knownOrders := s.knownOrders[model := KnownFor(s, model) + PresentOrders(healthy)],
       knownAccounts := s.knownAccounts + SeenAccounts(healthy))
  }

  /** `o` is the lowest order whose account is not FULL. */
  predicate IsLowest(orders: map<int, Account>, o: int, s: State, now: real, fp: Fingerprints) {
    && o in orders && !Full(s, orders[o], now, fp)
    && forall lower :: lower in orders && lower < o ==> Full(s, orders[lower], now, fp)
  }

  predicate AllFull(orders: map<int, Account>, s: State, now: real, fp: Fingerprints) {
    forall o :: o in orders ==> Full(s, orders[o], now, fp)
  }

  function AtOrder(healthy: seq<Deployment>, order: int): seq<Deployment> {
    if healthy == [] then []
    else
      var d := healthy[|healthy| - 1];
      AtOrder(healthy[..|healthy| - 1], order) + (if d.order == Some(order) then [d] else [])
  }

  /** Only a mark the probe has cleared goes. */
  function Unmarked(s: State, a: Account, fp: Fingerprints): State {
    if Cleared(s, a, fp) then s.(marks := s.marks - {a}) else s
  }

  /** What one pick may answer and remember; `target` is the router's requested order, when it sent one. */
  ghost predicate Picked(s: State, model: string, healthy: seq<Deployment>, target: Option<int>, now: real,
                         file: StatusFile, fp: Fingerprints, r: seq<Deployment>, target': Option<int>, s': State) {
    var learned := Learned(s, model, healthy);
    var orders := KnownFor(learned, model);
    if orders == map[] then
      s' == learned && r == healthy && target' == target
    else
      var checked := Rechecked(learned, now, file);
      if AllFull(orders, checked, now, fp) then
        s' == checked && r == [] && target' == target
      else
        exists o :: IsLowest(orders, o, checked, now, fp)
          && s' == Unmarked(checked, orders[o], fp)
          && r == AtOrder(healthy, o)
          && target' == (if target.Some? then Some(o) else None)
  }

  // ----- Events

  function Marked(s: State, a: Account, now: real): State {
    if a in s.marks && now < s.marks[a].until then s
    else s.(marks := s.marks[a := Bench(now, now + BENCH_SECONDS)])
  }

  function Failed(s: State, id: string, status: int, now: real): State {
    if status != PAYMENT_REQUIRED || id !in s.knownAccounts then s
    else Marked(s, s.knownAccounts[id], now)
  }

  function Succeeded(s: State, id: string, startTime: real): State {
    if id in s.knownAccounts && s.knownAccounts[id] in s.marks && s.marks[s.knownAccounts[id]].at < startTime
    then s.(marks := s.marks - {s.knownAccounts[id]}) else s
  }

  class KlaiMistralPoolHook {
    const fp: Fingerprints
    var statusCheckedAt: Option<real>
    var statusMtime: Option<real>
    var probeStates: Option<map<string, string>>
    var marks: map<Account, Bench>
    var knownOrders: map<string, map<int, Account>>
    var knownAccounts: map<string, Account>

    function Value(): State
      reads this
    {
      State(statusCheckedAt, statusMtime, probeStates, marks, knownOrders, knownAccounts)
    }

    constructor (fp: Fingerprints)
      ensures Value() == START && this.fp == fp
    {
      this.fp := fp;
      statusCheckedAt, statusMtime, probeStates := None, None, None;
      marks, knownOrders, knownAccounts := map[], map[], map[];
    }

    method ReloadStatus(file: StatusFile)
      modifies this`statusMtime, this`probeStates
      ensures Value() == Reload(old(Value()), file)
    {
      if file == Missing {
        statusMtime, probeStates := None, None;
        return;
      }
      if statusMtime == Some(file.mtime) {
        return;
      }
      statusMtime := Some(file.mtime);
      probeStates := if file.Readable? then Some(file.states) else None;
    }

    method IsFull(a: Account, now: real, file: StatusFile) returns (full: bool)
      modifies this`statusCheckedAt, this`statusMtime, this`probeStates, this`marks
      ensures var s := Rechecked(old(Value()), now, file);
        && full == Full(s, a, now, fp)
        && Value() == Unmarked(s, a, fp)
    {
      if statusCheckedAt == None || now - statusCheckedAt.value >= STATUS_FILE_RECHECK_SECONDS {
        statusCheckedAt := Some(now);
        ReloadStatus(file);
      }
      var state := ProbeState(Value(), a, fp);
      if state == "full" {
        return true;
      }
      if a !in marks {
        return false;
      }
      if state == "ok" && statusMtime.Some? && marks[a].at < statusMtime.value {
        marks := marks - {a};
        return false;
      }
      return now < marks[a].until;
    }

    /** `_lowest_eligible_order`: the known orders in ascending order, until one is not FULL. */
    method LowestEligibleOrder(orders: map<int, Account>, now: real, file: StatusFile) returns (r: Option<int>)
      modifies this`statusCheckedAt, this`statusMtime, this`probeStates, this`marks
      ensures orders == map[] ==> r == None && Value() == old(Value())
      ensures orders != map[] ==> var s := Rechecked(old(Value()), now, file);
        match r
        case None => AllFull(orders, s, now, fp) && Value() == s
        case Some(o) => IsLowest(orders, o, s, now, fp) && Value() == Unmarked(s, orders[o], fp)
    {
      var left := orders.Keys;
      while left != {}
        invariant left <= orders.Keys
        invariant left == orders.Keys ==> Value() == old(Value())
        invariant left != orders.Keys ==> Value() == Rechecked(old(Value()), now, file)
        invariant forall o, p :: o in orders && o !in left && p in left ==> o < p
        invariant forall o :: o in orders && o !in left ==> Full(Rechecked(old(Value()), now, file), orders[o], now, fp)
        decreases |left|
      {
        var o := Smallest(left);
        CheckedTwice(old(Value()), now, file);
        var full := IsFull(orders[o], now, file);
        if !full {
          return Some(o);
        }
        FullKeepsMark(Rechecked(old(Value()), now, file), orders[o], now, fp);
        left := left - {o};
      }
      return None;
    }

    /** The recording loop of `async_filter_deployments`. */
    method Record(healthy: seq<Deployment>) returns (present: map<int, Account>)
      modifies this`knownAccounts
      ensures present == PresentOrders(healthy)
      ensures knownAccounts == old(knownAccounts) + SeenAccounts(healthy)
    {
      present := map[];
      for i := 0 to |healthy|
        invariant present == PresentOrders(healthy[..i])
        invariant knownAccounts == old(knownAccounts) + SeenAccounts(healthy[..i])
      {
        assert healthy[..i + 1][..i] == healthy[..i];
        var d := healthy[i];
        if d.order.Some? {
          present := present[d.order.value := d.account];
          if d.id.Some? {
            knownAccounts := knownAccounts[d.id.value := d.account];
          }
        }
      }
      assert healthy[..|healthy|] == healthy;
    }

    /** `async_filter_deployments` for a list of deployments. */
    method FilterDeployments(model: string, healthy: seq<Deployment>, target: Option<int>, now: real, file: StatusFile)
      returns (r: seq<Deployment>, target': Option<int>)
      modifies this
      ensures Picked(old(Value()), model, healthy, target, now, file, fp, r, target', Value())
    {
      hide Rechecked, IsLowest, AllFull, Unmarked, PresentOrders, SeenAccounts;
      var present := Record(healthy);
      var known := KnownFor(Value(), model);
      NotEmpty(known, present);
      if present == map[] && known == map[] {
        knownOrders := knownOrders[model := known];
        return healthy, target;
      }
      known := known + present;
      knownOrders := knownOrders[model := known];
      ghost var learned := Learned(old(Value()), model, healthy);
      assert Value() == learned && KnownFor(learned, model) == known;
      var eligible := LowestEligibleOrder(known, now, file);
      if eligible == None {
        return [], target;
      }
      NotAllFull(known, eligible.value, Rechecked(learned, now, file), now, fp);
      target' := if target.Some? then eligible else target;
      r := KeepOrder(healthy, eligible.value);
    }

    /** `async_log_failure_event`. */
    method LogFailure(id: string, status: int, now: real)
      modifies this`marks
      ensures Value() == Failed(old(Value()), id, status, now)
    {
      if status != PAYMENT_REQUIRED || id !in knownAccounts {
        return;
      }
      var a := knownAccounts[id];
      if a in marks && now < marks[a].until {
        return;
      }
      marks := marks[a := Bench(now, now + BENCH_SECONDS)];
    }

    /** `async_log_success_event`. */
    method LogSuccess(id: string, startTime: real)
      modifies this`marks
      ensures Value() == Succeeded(old(Value()), id, startTime)
    {
      if id in knownAccounts && knownAccounts[id] in marks && marks[knownAccounts[id]].at < startTime {
        marks := marks - {knownAccounts[id]};
      }
    }
  }

  method KeepOrder(healthy: seq<Deployment>, order: int) returns (r: seq<Deployment>)
    ensures r == AtOrder(healthy, order)
  {
    r := [];
    for i := 0 to |healthy|
      invariant r == AtOrder(healthy[..i], order)
    {
      assert healthy[..i + 1][..i] == healthy[..i];
      if healthy[i].order == Some(order) {
        r := r + [healthy[i]];
      }
    }
    assert healthy[..|healthy|] == healthy;
  }

  method Any<T>(s: set<T>) returns (x: T)
    requires s != {}
    ensures x in s
  {
    x :| x in s;
  }

  method Smallest(s: set<int>) returns (m: int)
    requires s != {}
    ensures m in s && forall x :: x in s ==> m <= x
  {
    m := Any(s);
    var left := s - {m};
    while left != {}
      invariant m in s && left <= s
      invariant forall x :: x in s && x !in left ==> m <= x
      decreases |left|
    {
      var x := Any(left);
      if x < m {
        m := x;
      }
      left := left - {x};
    }
  }

  /** Looking again at the same moment finds the same. */
  lemma CheckedTwice(s: State, now: real, file: StatusFile)
    ensures Rechecked(Rechecked(s, now, file), now, file) == Rechecked(s, now, file)
  {
  }

  lemma FullKeepsMark(s: State, a: Account, now: real, fp: Fingerprints)
    requires Full(s, a, now, fp)
    ensures Unmarked(s, a, fp) == s
  {
    assert ProbeState(s, a, fp) == "full" ==> ProbeState(s, a, fp) != "ok" by {
      assert "full"[0] != "ok"[0];
    }
  }

  lemma NotEmpty(a: map<int, Account>, b: map<int, Account>)
    ensures a + b == map[] <==> a == map[] && b == map[]
  {
    assert (a + b).Keys == a.Keys + b.Keys;
    NoKeysNoMap(a);
    NoKeysNoMap(b);
    NoKeysNoMap(a + b);
  }

  lemma NoKeysNoMap(m: map<int, Account>)
    ensures m == map[] <==> m.Keys == {}
  {
    assert m.Keys == {} ==> forall k :: k in m ==> k in m.Keys;
  }

  lemma NotAllFull(orders: map<int, Account>, o: int, s: State, now: real, fp: Fingerprints)
    requires IsLowest(orders, o, s, now, fp)
    ensures !AllFull(orders, s, now, fp)
  {
  }

  // ----- Whole runs

  datatype Event =
    | Pick(model: string, healthy: seq<Deployment>, target: Option<int>, now: real, file: StatusFile,
           answer: seq<Deployment>)
    | Failure(id: string, status: int, at: real)
    | Success(id: string, startTime: real)

  /** One event leads from `s` to `s'`. */
  ghost predicate Step(s: State, e: Event, s': State, fp: Fingerprints) {
    match e
    case Pick(model, healthy, target, now, file, answer) =>
      exists target' :: Picked(s, model, healthy, target, now, file, fp, answer, target', s')
    case Failure(id, status, at) => s' == Failed(s, id, status, at)
    case Success(id, startTime) => s' == Succeeded(s, id, startTime)
  }

  /** The states of a run: `states[i]` before and `states[i + 1]` after event `i`. */
  ghost predicate IsRun(states: seq<State>, events: seq<Event>, fp: Fingerprints) {
    && |states| == |events| + 1 && states[0] == START
    && forall i :: 0 <= i < |events| ==> Step(states[i], events[i], states[i + 1], fp)
  }

  /** Event `i` was a 402 on account `a`. */
  ghost predicate PaymentRequired(states: seq<State>, events: seq<Event>, i: int, a: Account)
    requires |states| == |events| + 1
  {
    && 0 <= i < |events| && events[i].Failure? && events[i].status == PAYMENT_REQUIRED
    && events[i].id in states[i].knownAccounts && states[i].knownAccounts[events[i].id] == a
  }

  /** Event `i` was a success on `a` of a request that started after `t`. */
  ghost predicate WorkedSince(states: seq<State>, events: seq<Event>, i: int, a: Account, t: real)
    requires |states| == |events| + 1
  {
    && 0 <= i < |events| && events[i].Success? && t < events[i].startTime
    && events[i].id in states[i].knownAccounts && states[i].knownAccounts[events[i].id] == a
  }

  /** The evidence for a bench: a 402 at `t` that no later success of a newer request has disproved. */
  ghost predicate Evidence(states: seq<State>, events: seq<Event>, i: int, a: Account, t: real)
    requires |states| == |events| + 1
  {
    && PaymentRequired(states, events, i, a) && events[i].at == t
    && forall j :: i < j < |events| ==> !WorkedSince(states, events, j, a, t)
  }

  ghost predicate MarkHasEvidence(states: seq<State>, events: seq<Event>, a: Account)
    requires |states| == |events| + 1
  {
    a in states[|events|].marks ==>
      var b := states[|events|].marks[a];
      b.until == b.at + BENCH_SECONDS && exists i :: Evidence(states, events, i, a, b.at)
  }

  lemma ChecksKeepOrders(s: State, now: real, file: StatusFile, fp: Fingerprints)
    ensures Rechecked(s, now, file).knownOrders == s.knownOrders
    ensures forall a :: Unmarked(Rechecked(s, now, file), a, fp).knownOrders == s.knownOrders
  {
  }

  /** A pick's new state: what was learned, perhaps the file read again, and at most one cleared mark gone. */
  lemma PickShape(s: State, e: Event, s': State, fp: Fingerprints)
    requires e.Pick? && Step(s, e, s', fp)
    ensures var learned := Learned(s, e.model, e.healthy);
      var checked := Rechecked(learned, e.now, e.file);
      && KnownFor(s', e.model) == KnownFor(learned, e.model)
      && (s' == learned || s' == checked || exists a :: s' == Unmarked(checked, a, fp))
      && (KnownFor(s', e.model) != map[] && e.answer != [] ==> exists o ::
            IsLowest(KnownFor(s', e.model), o, checked, e.now, fp) && e.answer == AtOrder(e.healthy, o)
            && s' == Unmarked(checked, KnownFor(s', e.model)[o], fp))
  {
    var target' :| Picked(s, e.model, e.healthy, e.target, e.now, e.file, fp, e.answer, target', s');
    hide Full, AtOrder, Learned, Rechecked, Unmarked, AllFull, IsLowest;
    var learned := Learned(s, e.model, e.healthy);
    var checked := Rechecked(learned, e.now, e.file);
    var orders := KnownFor(learned, e.model);
    ChecksKeepOrders(learned, e.now, e.file, fp);
    if orders != map[] && !AllFull(orders, checked, e.now, fp) {
      var o :| IsLowest(orders, o, checked, e.now, fp)
        && s' == Unmarked(checked, orders[o], fp)
        && e.answer == AtOrder(e.healthy, o);
    }
  }

  lemma StepMarks(s: State, e: Event, s': State, fp: Fingerprints, a: Account)
    requires Step(s, e, s', fp) && a in s'.marks
    ensures (a in s.marks && s'.marks[a] == s.marks[a])
      || (e.Failure? && e.status == PAYMENT_REQUIRED && e.id in s.knownAccounts && s.knownAccounts[e.id] == a
          && s'.marks[a] == Bench(e.at, e.at + BENCH_SECONDS))
    ensures e.Success? && e.id in s.knownAccounts && s.knownAccounts[e.id] == a ==> e.startTime <= s'.marks[a].at
  {
    hide Picked, Learned, Cleared;
    if e.Pick? {
      hide Step;
      PickShape(s, e, s', fp);
      LearnedKeeps(s, e.model, e.healthy);
    }
  }

  lemma LearnedKeeps(s: State, model: string, healthy: seq<Deployment>)
    ensures var learned := Learned(s, model, healthy);
      learned.marks == s.marks && learned.probe == s.probe && learned.mtime == s.mtime
  {
  }

  /** Every mark of every reachable state goes back to a 402, and no later success has disproved it. */
  lemma {:induction false} RunMarks(states: seq<State>, events: seq<Event>, fp: Fingerprints, a: Account)
    requires IsRun(states, events, fp)
    ensures MarkHasEvidence(states, events, a)
  {
    hide Step, Evidence;
    if events != [] && a in states[|events|].marks {
      var n := |events| - 1;
      RunMarks(states[..n + 1], events[..n], fp, a);
      StepMarks(states[n], events[n], states[n + 1], fp, a);
      var b := states[n + 1].marks[a];
      if a in states[n].marks && b == states[n].marks[a] {
        var i :| Evidence(states[..n + 1], events[..n], i, a, b.at);
        EvidenceLasts(states, events, i, a, b.at);
      } else {
        NewEvidence(states, events, a);
      }
    }
  }

  lemma NewEvidence(states: seq<State>, events: seq<Event>, a: Account)
    requires |states| == |events| + 1 && events != []
    requires PaymentRequired(states, events, |events| - 1, a)
    ensures Evidence(states, events, |events| - 1, a, events[|events| - 1].at)
  {
  }

  lemma EvidenceLasts(states: seq<State>, events: seq<Event>, i: int, a: Account, t: real)
    requires |states| == |events| + 1 && events != []
    requires Evidence(states[..|events|], events[..|events| - 1], i, a, t)
    requires !WorkedSince(states, events, |events| - 1, a, t)
    ensures Evidence(states, events, i, a, t)
  {
    var n := |events| - 1;
    forall j | i < j < |events| ensures !WorkedSince(states, events, j, a, t) {
      if j < n {
        assert !WorkedSince(states[..n + 1], events[..n], j, a, t);
      }
    }
  }

  /**
   * An account counts as FULL only through a probe verdict, or within 300 seconds of a 402 that neither a later
   * probe run nor a success of a newer request has cleared.
   */
  lemma FullNeedsEvidence(states: seq<State>, events: seq<Event>, fp: Fingerprints, a: Account, now: real)
    requires IsRun(states, events, fp)
    requires Full(states[|events|], a, now, fp)
    ensures ProbeState(states[|events|], a, fp) == "full"
      || (!Cleared(states[|events|], a, fp)
          && exists i :: 0 <= i < |events| && events[i].Failure?
               && Evidence(states, events, i, a, events[i].at) && now < events[i].at + BENCH_SECONDS)
  {
    var s := states[|events|];
    RunMarks(states, events, fp, a);
    if ProbeState(s, a, fp) != "full" {
      var i :| Evidence(states, events, i, a, s.marks[a].at);
    }
  }

  /** From event `i` on the hook remembers the file of that event, and no other one has been read since. */
  ghost predicate RememberedFrom(states: seq<State>, events: seq<Event>, i: int)
    requires |states| == |events| + 1
  {
    && 0 <= i < |events| && events[i].Pick? && events[i].file.Readable?
    && forall j :: i < j <= |events| ==>
         states[j].probe == Some(events[i].file.states) && states[j].mtime == Some(events[i].file.mtime)
  }

  /** The probe's memory is always that of the last file read: its verdicts and its time. */
  lemma {:induction false} ProbeComesFromFile(states: seq<State>, events: seq<Event>, fp: Fingerprints)
    requires IsRun(states, events, fp)
    ensures states[|events|].probe.Some? ==> exists i :: RememberedFrom(states, events, i)
  {
    hide Step;
    if events != [] {
      var n := |events| - 1;
      ProbeComesFromFile(states[..n + 1], events[..n], fp);
      StepProbe(states[n], events[n], states[n + 1], fp);
      if states[n + 1].probe.Some? {
        if states[n + 1].probe == states[n].probe && states[n + 1].mtime == states[n].mtime {
          var i :| RememberedFrom(states[..n + 1], events[..n], i);
          forall j | i < j <= n + 1
            ensures states[j].probe == Some(events[i].file.states) && states[j].mtime == Some(events[i].file.mtime)
          {
            assert j <= n ==> states[..n + 1][j] == states[j];
          }
          assert RememberedFrom(states, events, i);
        } else {
          assert RememberedFrom(states, events, n);
        }
      }
    }
  }

  lemma RecheckedProbe(s: State, now: real, file: StatusFile)
    ensures var s' := Rechecked(s, now, file);
      (s'.probe == s.probe && s'.mtime == s.mtime) || s'.probe == None
      || (file.Readable? && s'.probe == Some(file.states) && s'.mtime == Some(file.mtime))
  {
  }

  lemma StepProbe(s: State, e: Event, s': State, fp: Fingerprints)
    requires Step(s, e, s', fp)
    ensures (s'.probe == s.probe && s'.mtime == s.mtime) || s'.probe == None
      || (e.Pick? && e.file.Readable? && s'.probe == Some(e.file.states) && s'.mtime == Some(e.file.mtime))
  {
    hide Picked, Learned, Cleared, Rechecked;
    if e.Pick? {
      hide Step;
      PickShape(s, e, s', fp);
      LearnedKeeps(s, e.model, e.healthy);
      RecheckedProbe(Learned(s, e.model, e.healthy), e.now, e.file);
    }
  }

  lemma {:induction false} AtOrderFacts(healthy: seq<Deployment>, order: int)
    ensures forall d :: d in AtOrder(healthy, order) <==> d in healthy && d.order == Some(order)
  {
    if healthy != [] {
      AtOrderFacts(healthy[..|healthy| - 1], order);
      assert healthy == healthy[..|healthy| - 1] + [healthy[|healthy| - 1]];
    }
  }

  /**
   * A deployment of a model is returned only at the lowest known order that is not FULL: every lower known order
   * is FULL at that moment, by the state the pick itself leaves behind.
   */
  lemma PickIsLowest(s: State, e: Event, s': State, fp: Fingerprints, d: Deployment)
    requires e.Pick? && Step(s, e, s', fp) && d in e.answer && KnownFor(s', e.model) != map[]
    ensures d in e.healthy && d.order.Some? && d.order.value in KnownFor(s', e.model)
    ensures IsLowest(KnownFor(s', e.model), d.order.value, s', e.now, fp)
  {
    hide Step, Learned, Unmarked, Rechecked, Full, AtOrder;
    PickShape(s, e, s', fp);
    var checked := Rechecked(Learned(s, e.model, e.healthy), e.now, e.file);
    var orders := KnownFor(s', e.model);
    var o :| IsLowest(orders, o, checked, e.now, fp) && e.answer == AtOrder(e.healthy, o)
      && s' == Unmarked(checked, orders[o], fp);
    AtOrderFacts(e.healthy, o);
    forall a ensures Full(s', a, e.now, fp) <==> Full(checked, a, e.now, fp) {
      UnmarkKeepsVerdicts(checked, orders[o], a, e.now, fp);
    }
  }

  lemma UnmarkKeepsVerdicts(s: State, a: Account, b: Account, now: real, fp: Fingerprints)
    ensures Full(Unmarked(s, a, fp), b, now, fp) <==> Full(s, b, now, fp)
  {
  }

  // ----- A 402 benches its account

  /** No status file of the run is newer than `t` and calls the key of `a` working. */
  ghost predicate NoNewerOk(events: seq<Event>, a: Account, t: real, fp: Fingerprints) {
    forall j :: 0 <= j < |events| && events[j].Pick? ==> !SaysOk(events[j].file, a, t, fp)
  }

  predicate SaysOk(file: StatusFile, a: Account, t: real, fp: Fingerprints) {
    file.Readable? && t < file.mtime && fp(a) in file.states && file.states[fp(a)] == "ok"
  }

  /** The bench of `a` began at `t` or later, and runs for the 300 seconds behind `t` at least. */
  predicate BenchedSince(s: State, a: Account, t: real) {
    a in s.marks && t <= s.marks[a].at && t + 300.0 <= s.marks[a].until
  }

  lemma BenchKept(s: State, e: Event, s': State, fp: Fingerprints, a: Account, t: real)
    requires Step(s, e, s', fp) && BenchedSince(s, a, t)
    requires e.Success? && e.id in s.knownAccounts && s.knownAccounts[e.id] == a ==> e.startTime <= t
    requires !(ProbeState(s', a, fp) == "ok" && s'.mtime.Some? && t < s'.mtime.value)
    ensures BenchedSince(s', a, t)
  {
    if e.Pick? {
      hide Step, Rechecked, ProbeState;
      PickShape(s, e, s', fp);
      var learned := Learned(s, e.model, e.healthy);
      LearnedKeeps(s, e.model, e.healthy);
      RecheckKeepsMarks(learned, e.now, e.file);
      SameVerdict(Rechecked(learned, e.now, e.file), s', a, fp);
    }
  }

  lemma RecheckKeepsMarks(s: State, now: real, file: StatusFile)
    ensures Rechecked(s, now, file).marks == s.marks
  {
  }

  lemma SameVerdict(s: State, s': State, a: Account, fp: Fingerprints)
    ensures (exists b :: s' == Unmarked(s, b, fp)) ==>
      ProbeState(s', a, fp) == ProbeState(s, a, fp) && s'.mtime == s.mtime
  {
  }

  /** A verdict that is newer than `t` and calls the key working goes back to such a file. */
  lemma NoOkRemembered(states: seq<State>, events: seq<Event>, fp: Fingerprints, a: Account, t: real)
    requires IsRun(states, events, fp) && NoNewerOk(events, a, t, fp)
    ensures var s := states[|events|]; !(ProbeState(s, a, fp) == "ok" && s.mtime.Some? && t < s.mtime.value)
  {
    hide Step;
    ProbeComesFromFile(states, events, fp);
    if states[|events|].probe.Some? {
      var i :| RememberedFrom(states, events, i);
      assert !SaysOk(events[i].file, a, t, fp);
    }
  }

  lemma {:induction false} BenchRuns(states: seq<State>, events: seq<Event>, i: int, fp: Fingerprints, a: Account)
    requires IsRun(states, events, fp) && PaymentRequired(states, events, i, a)
    requires a !in states[i].marks || states[i].marks[a].until <= events[i].at
    requires forall j :: i < j < |events| ==> !WorkedSince(states, events, j, a, events[i].at)
    requires NoNewerOk(events, a, events[i].at, fp)
    ensures BenchedSince(states[|events|], a, events[i].at)
    decreases |events|
  {
    hide Step;
    var n, t := |events| - 1, events[i].at;
    if i == n {
      NewBench(states[n], events[n], states[n + 1], fp, a);
    } else {
      var before, past := states[..n + 1], events[..n];
      forall j | i < j < n ensures !WorkedSince(before, past, j, a, t) {
        assert !WorkedSince(states, events, j, a, t);
      }
      BenchRuns(before, past, i, fp, a);
      assert !WorkedSince(states, events, n, a, t);
      NoOkRemembered(states, events, fp, a, t);
      BenchKept(states[n], events[n], states[n + 1], fp, a, t);
    }
  }

  lemma NewBench(s: State, e: Event, s': State, fp: Fingerprints, a: Account)
    requires Step(s, e, s', fp) && e.Failure? && e.status == 402
    requires e.id in s.knownAccounts && s.knownAccounts[e.id] == a
    requires a !in s.marks || s.marks[a].until <= e.at
    ensures BenchedSince(s', a, e.at)
  {
  }

  /**
   * A 402 takes its account out for 300 seconds: from then on it is FULL at every moment in between, until a request
   * that was started later succeeds on it or a newer status file calls its key working.
   */
  lemma PaymentRequiredBenches(states: seq<State>, events: seq<Event>, i: int, fp: Fingerprints, a: Account, now: real)
    requires IsRun(states, events, fp) && PaymentRequired(states, events, i, a)
    requires a !in states[i].marks || states[i].marks[a].until <= events[i].at
    requires forall j :: i < j < |events| ==> !WorkedSince(states, events, j, a, events[i].at)
    requires NoNewerOk(events, a, events[i].at, fp)
    requires events[i].at <= now < events[i].at + 300.0
    ensures Full(states[|events|], a, now, fp)
  {
    hide Step;
    BenchRuns(states, events, i, fp, a);
    NoOkRemembered(states, events, fp, a, events[i].at);
  }

  /** And in that time no pick answers at an order that is recorded with the account. */
  lemma BenchedIsNotPicked(states: seq<State>, events: seq<Event>, i: int, fp: Fingerprints, a: Account, d: Deployment)
    requires IsRun(states, events, fp) && PaymentRequired(states, events, i, a)
    requires a !in states[i].marks || states[i].marks[a].until <= events[i].at
    requires forall j :: i < j < |events| ==> !WorkedSince(states, events, j, a, events[i].at)
    requires NoNewerOk(events, a, events[i].at, fp)
    requires var e := events[|events| - 1];
      e.Pick? && events[i].at <= e.now < events[i].at + 300.0 && d in e.answer && d.order.Some?
    ensures var orders := KnownFor(states[|events|], events[|events| - 1].model);
      d.order.value in orders ==> orders[d.order.value] != a
  {
    hide Step, Full;
    var n := |events| - 1;
    PaymentRequiredBenches(states, events, i, fp, a, events[n].now);
    if KnownFor(states[n + 1], events[n].model) != map[] {
      PickIsLowest(states[n], events[n], states[n + 1], fp, d);
    }
  }

  /** Two deployments of one order name one account. */
  ghost predicate OneAccountPerOrder(healthy: seq<Deployment>) {
    forall d, d' :: d in healthy && d' in healthy && d.order == d'.order ==> d.account == d'.account
  }

  lemma {:induction false} PresentOrdersFacts(healthy: seq<Deployment>, d: Deployment)
    requires OneAccountPerOrder(healthy) && d in healthy && d.order.Some?
    ensures d.order.value in PresentOrders(healthy) && PresentOrders(healthy)[d.order.value] == d.account
  {
    var before, last := healthy[..|healthy| - 1], healthy[|healthy| - 1];
    assert healthy == before + [last] && last in healthy;
    if d in before {
      PresentOrdersFacts(before, d);
    }
  }

  /** With one account per order, no returned deployment sits on a FULL account. */
  lemma PickedAccountIsNotFull(s: State, e: Event, s': State, fp: Fingerprints, d: Deployment)
    requires e.Pick? && Step(s, e, s', fp) && d in e.answer && KnownFor(s', e.model) != map[]
    requires OneAccountPerOrder(e.healthy)
    ensures !Full(s', d.account, e.now, fp)
  {
    hide Step, Full, PresentOrders, Unmarked, Rechecked, AtOrder;
    PickIsLowest(s, e, s', fp, d);
    PresentOrdersFacts(e.healthy, d);
    PickShape(s, e, s', fp);
    LearnedOrders(s, e.model, e.healthy);
  }

  lemma LearnedOrders(s: State, model: string, healthy: seq<Deployment>)
    ensures KnownFor(Learned(s, model, healthy), model) == KnownFor(s, model) + PresentOrders(healthy)
  {
  }

  // ----- When a deployment of a FULL account can be returned

  /** A pick that returns an ordered deployment whose account is FULL. */
  ghost predicate Leaks(s: State, e: Event, s': State, fp: Fingerprints, d: Deployment) {
    && e.Pick? && Step(s, e, s', fp)
    && d in e.answer && d.order.Some? && Full(s', d.account, e.now, fp)
  }

  /** In the state `s`, some clock reading and status file make the next pick from this offer leak. */
  ghost predicate MayLeak(s: State, model: string, healthy: seq<Deployment>, fp: Fingerprints) {
    exists e, s', d :: Leaks(s, e, s', fp, d) && e.Pick? && e.model == model && e.healthy == healthy
  }

  /**
   * The guard: an offered deployment sits on another account than the one its order is judged by, and no lower order
   * is judged by that account too - or else the lower order would be picked first.
   */
  predicate Exposed(orders: map<int, Account>, d: Deployment) {
    && d.order.Some? && d.order.value in orders && d.account != orders[d.order.value]
    && forall lower :: lower in orders && lower < d.order.value ==> orders[lower] != orders[d.order.value]
  }

  /** The orders a pick of `model` goes by: those known before, and those of the offer. */
  function OrdersOf(s: State, model: string, healthy: seq<Deployment>): map<int, Account> {
    KnownFor(s, model) + PresentOrders(healthy)
  }

  lemma LeakIsExposed(s: State, e: Event, s': State, fp: Fingerprints, d: Deployment)
    requires Leaks(s, e, s', fp, d)
    ensures d in e.healthy && Exposed(OrdersOf(s, e.model, e.healthy), d)
  {
    hide Step, Learned, Full, PresentOrders, Unmarked, Rechecked, AtOrder;
    PickShape(s, e, s', fp);
    LearnedOrders(s, e.model, e.healthy);
    AnsweredIsOffered(s, e, s', fp, d);
    OfferedIsPresent(e.healthy, d);
    assert d.order.value in OrdersOf(s, e.model, e.healthy);
    PickIsLowest(s, e, s', fp, d);
  }

  lemma AnsweredIsOffered(s: State, e: Event, s': State, fp: Fingerprints, d: Deployment)
    requires e.Pick? && Step(s, e, s', fp) && d in e.answer
    ensures d in e.healthy
  {
    hide Learned, Full, PresentOrders, Unmarked, Rechecked;
    forall o ensures forall x :: x in AtOrder(e.healthy, o) ==> x in e.healthy {
      AtOrderFacts(e.healthy, o);
    }
  }

  lemma {:induction false} OfferedIsPresent(healthy: seq<Deployment>, d: Deployment)
    requires d in healthy && d.order.Some?
    ensures d.order.value in PresentOrders(healthy)
  {
    var before, last := healthy[..|healthy| - 1], healthy[|healthy| - 1];
    assert healthy == before + [last];
    if d in before {
      OfferedIsPresent(before, d);
    }
  }

  /** The file in which exactly the keys of these accounts are called full, newer than what `s` remembers. */
  function FileCalling(full: set<Account>, s: State, fp: Fingerprints): StatusFile {
    var keys := set a | a in full :: fp(a);
    Readable(if s.mtime == Some(0.0) then 1.0 else 0.0, map k | k in keys :: "full")
  }

  /** A moment at which the file is looked at again and no bench of `a` still runs. */
  function LateEnough(s: State, a: Account): real {
    var checked := if s.checkedAt.Some? then s.checkedAt.value + STATUS_FILE_RECHECK_SECONDS else 0.0;
    if a in s.marks && s.marks[a].until > checked then s.marks[a].until else checked
  }

  /** The accounts a pick can meet: those its orders are judged by, and those of the offer. */
  function InPlay(orders: map<int, Account>, healthy: seq<Deployment>): set<Account> {
    orders.Values + set d | d in healthy :: d.account
  }

  ghost predicate ToldApart(accounts: set<Account>, fp: Fingerprints) {
    forall y, z :: y in accounts && z in accounts && fp(y) == fp(z) ==> y == z
  }

  lemma VerdictsOf(full: set<Account>, s: State, fp: Fingerprints, a: Account, x: Account)
    requires forall y :: y in full && fp(y) == fp(a) ==> y == a
    ensures var s' := Rechecked(s, LateEnough(s, a), FileCalling(full, s, fp));
      && s'.knownOrders == s.knownOrders
      && (x in full ==> Full(s', x, LateEnough(s, a), fp))
      && (a !in full ==> !Full(s', a, LateEnough(s, a), fp))
  {
    var now, file := LateEnough(s, a), FileCalling(full, s, fp);
    var s' := Rechecked(s, now, file);
    assert s'.probe == Some(file.states) && s'.marks == s.marks;
    assert fp(a) in file.states ==> a in full;
  }

  lemma ExposedMayLeak(s: State, model: string, healthy: seq<Deployment>, fp: Fingerprints, d: Deployment)
    requires ToldApart(InPlay(OrdersOf(s, model, healthy), healthy), fp)
    requires d in healthy && Exposed(OrdersOf(s, model, healthy), d)
    ensures MayLeak(s, model, healthy, fp)
  {
    hide Full, Rechecked, AtOrder, PresentOrders, FileCalling, LateEnough, Unmarked;
    var orders, o := OrdersOf(s, model, healthy), d.order.value;
    var learned := Learned(s, model, healthy);
    LearnedOrders(s, model, healthy);
    var a := orders[o];
    var full := (set p | p in orders && p < o :: orders[p]) + {d.account};
    assert full + {a} <= InPlay(orders, healthy);
    var now, file := LateEnough(learned, a), FileCalling(full, learned, fp);
    var checked := Rechecked(learned, now, file);
    forall x | x in full ensures Full(checked, x, now, fp) {
      VerdictsOf(full, learned, fp, a, x);
    }
    VerdictsOf(full, learned, fp, a, a);
    assert IsLowest(orders, o, checked, now, fp);
    NotAllFull(orders, o, checked, now, fp);
    var e := Pick(model, healthy, None, now, file, AtOrder(healthy, o));
    var s' := Unmarked(checked, a, fp);
    assert Picked(s, model, healthy, None, now, file, fp, e.answer, None, s');
    assert Step(s, e, s', fp);
    AtOrderFacts(healthy, o);
    UnmarkKeepsVerdicts(checked, a, d.account, now, fp);
    assert Leaks(s, e, s', fp, d);
  }

  /**
   * From any state, and so after any run: the next pick from an offer can return a deployment of a FULL account if and
   * only if the offer exposes one, given that no two of the accounts in play share a fingerprint.
   */
  lemma LeakIsExact(s: State, model: string, healthy: seq<Deployment>, fp: Fingerprints)
    requires ToldApart(InPlay(OrdersOf(s, model, healthy), healthy), fp)
    ensures MayLeak(s, model, healthy, fp) <==> exists d :: d in healthy && Exposed(OrdersOf(s, model, healthy), d)
  {
    hide Leaks, Exposed;
    if MayLeak(s, model, healthy, fp) {
      var e, s', d :| Leaks(s, e, s', fp, d) && e.Pick? && e.model == model && e.healthy == healthy;
      LeakIsExposed(s, e, s', fp, d);
    }
    if exists d :: d in healthy && Exposed(OrdersOf(s, model, healthy), d) {
      var d :| d in healthy && Exposed(OrdersOf(s, model, healthy), d);
      ExposedMayLeak(s, model, healthy, fp, d);
    }
  }

  /**
   * The smallest run that leaks: two accounts on one order, judged by the one listed last, and a status file that
   * calls the first one full.
   */
  lemma SharedOrderLeaks(a: Account, b: Account, at: real, fp: Fingerprints) returns (s': State, e: Event)
    requires fp(a) != fp(b)
    ensures IsRun([START, s'], [e], fp)
    ensures Leaks(START, e, s', fp, Deployment(Some("1"), Some(1), a))
  {
    var first, second := Deployment(Some("1"), Some(1), a), Deployment(Some("2"), Some(1), b);
    var healthy, file := [first, second], Readable(0.0, map[fp(a) := "full"]);
    e := Pick("m", healthy, None, at, file, healthy);
    TwoOnOneOrder(first, second);
    hide PresentOrders, AtOrder;
    var learned := Learned(START, "m", healthy);
    LearnedOrders(START, "m", healthy);
    s' := Rechecked(learned, at, file);
    assert s'.probe == Some(file.states) && s'.marks == map[];
    var orders := KnownFor(learned, "m");
    assert orders == map[1 := b];
    assert Full(s', a, at, fp) && !Full(s', b, at, fp);
    hide Full, Rechecked, Learned;
    assert IsLowest(orders, 1, s', at, fp);
    NotAllFull(orders, 1, s', at, fp);
    assert s' == Unmarked(s', orders[1], fp);
    assert Picked(START, "m", healthy, None, at, file, fp, healthy, None, s');
    assert Step(START, e, s', fp);
  }

  lemma TwoOnOneOrder(first: Deployment, second: Deployment)
    requires first.order == second.order == Some(1)
    ensures PresentOrders([first, second]) == map[1 := second.account] && AtOrder([first, second], 1) == [first, second]
  {
    var healthy := [first, second];
    assert healthy[..1] == [first] && healthy[..0] == [] && [first][..0] == [];
    assert PresentOrders([first]) == map[1 := first.account];
    assert AtOrder([first], 1) == [first];
  }

  // ----- What the status file and the offers teach

  /**
   * A pick over ordered deployments looks at the status file again when the last look is 10 seconds old: a file that is
   * gone or newly unreadable leaves no verdict, a new one its own, and one of the time already known changes nothing.
   */
  lemma FileIsRead(s: State, e: Event, s': State, fp: Fingerprints)
    requires e.Pick? && Step(s, e, s', fp) && OrdersOf(s, e.model, e.healthy) != map[]
    ensures s.checkedAt.Some? && e.now - s.checkedAt.value < 10.0 ==>
      s'.probe == s.probe && s'.mtime == s.mtime && s'.checkedAt == s.checkedAt
    ensures s.checkedAt == None || e.now - s.checkedAt.value >= 10.0 ==>
      && s'.checkedAt == Some(e.now)
      && (e.file.Missing? ==> s'.probe == None && s'.mtime == None)
      && (!e.file.Missing? ==> s'.mtime == Some(e.file.mtime))
      && (!e.file.Missing? && s.mtime == Some(e.file.mtime) ==> s'.probe == s.probe)
      && (e.file.Unreadable? && s.mtime != Some(e.file.mtime) ==> s'.probe == None)
      && (e.file.Readable? && s.mtime != Some(e.file.mtime) ==> s'.probe == Some(e.file.states))
  {
    hide Full, AtOrder, PresentOrders, SeenAccounts, IsLowest, AllFull;
    LearnedOrders(s, e.model, e.healthy);
    LearnedKeeps(s, e.model, e.healthy);
  }

  /** What the last file read says of a key: a full one is FULL, and one that works after its last 402 is not. */
  lemma VerdictCounts(states: seq<State>, events: seq<Event>, j: int, fp: Fingerprints, a: Account, now: real)
    requires IsRun(states, events, fp) && RememberedFrom(states, events, j) && fp(a) in events[j].file.states
    ensures events[j].file.states[fp(a)] == "full" ==> Full(states[|events|], a, now, fp)
    ensures events[j].file.states[fp(a)] == "ok"
      && (forall i :: PaymentRequired(states, events, i, a) ==> events[i].at < events[j].file.mtime)
      ==> !Full(states[|events|], a, now, fp)
  {
    hide Step;
    RunMarks(states, events, fp, a);
    var s := states[|events|];
    assert s.probe == Some(events[j].file.states) && s.mtime == Some(events[j].file.mtime);
    OkIsNotFull();
    if a in s.marks {
      var i :| Evidence(states, events, i, a, s.marks[a].at);
    }
  }

  lemma OkIsNotFull()
    ensures "ok" != "full"
  {
    assert |"ok"| != |"full"|;
  }

  /** The account of an offered deployment is known by its id afterwards: that of the last one offered under it. */
  lemma {:induction false} SeenAccountsFacts(healthy: seq<Deployment>, id: string)
    ensures id in SeenAccounts(healthy) <==> exists d :: d in healthy && d.order.Some? && d.id == Some(id)
    ensures id in SeenAccounts(healthy) ==>
      exists d :: d in healthy && d.order.Some? && d.id == Some(id) && d.account == SeenAccounts(healthy)[id]
  {
    if healthy != [] {
      var before, d := healthy[..|healthy| - 1], healthy[|healthy| - 1];
      assert healthy == before + [d] && d in healthy;
      SeenAccountsFacts(before, id);
    }
  }

  lemma OfferIsKnown(s: State, e: Event, s': State, fp: Fingerprints, d: Deployment)
    requires e.Pick? && Step(s, e, s', fp)
    requires d in e.healthy && d.order.Some? && d.id.Some?
    ensures d.id.value in s'.knownAccounts
    ensures exists d' ::
      d' in e.healthy && d'.order.Some? && d'.id == d.id && d'.account == s'.knownAccounts[d.id.value]
    ensures d.order.value in KnownFor(s', e.model)
    ensures OneAccountPerOrder(e.healthy) ==> KnownFor(s', e.model)[d.order.value] == d.account
  {
    hide Full, AtOrder, PresentOrders, SeenAccounts, IsLowest, AllFull, Rechecked;
    SeenAccountsFacts(e.healthy, d.id.value);
    LearnedOrders(s, e.model, e.healthy);
    OfferedIsPresent(e.healthy, d);
    PickShape(s, e, s', fp);
    if OneAccountPerOrder(e.healthy) {
      PresentOrdersFacts(e.healthy, d);
    }
    PickKeepsAccounts(s, e, s', fp);
  }

  lemma PickKeepsAccounts(s: State, e: Event, s': State, fp: Fingerprints)
    requires e.Pick? && Step(s, e, s', fp)
    ensures s'.knownAccounts == s.knownAccounts + SeenAccounts(e.healthy)
  {
    hide Step, Full, AtOrder, PresentOrders, SeenAccounts, IsLowest, AllFull, Rechecked, Unmarked;
    PickShape(s, e, s', fp);
    ChecksKeepAccounts(Learned(s, e.model, e.healthy), e.now, e.file, fp);
  }

  lemma ChecksKeepAccounts(s: State, now: real, file: StatusFile, fp: Fingerprints)
    ensures Rechecked(s, now, file).knownAccounts == s.knownAccounts
    ensures forall a :: Unmarked(Rechecked(s, now, file), a, fp).knownAccounts == s.knownAccounts
  {
  }

  /**
   * A pick over ordered deployments is decided by the lowest known order whose account is free: it answers with all
   * the deployments offered at that order and only these, and a requested target order becomes that one. When none is
   * free it answers with nothing.
   */
  lemma PickIsExact(s: State, model: string, healthy: seq<Deployment>, target: Option<int>, now: real,
                    file: StatusFile, fp: Fingerprints, r: seq<Deployment>, target': Option<int>, s': State)
    requires Picked(s, model, healthy, target, now, file, fp, r, target', s')
    ensures var orders := KnownFor(s', model);
      && (orders == map[] ==> r == healthy && target' == target)
      && (orders != map[] && AllFull(orders, s', now, fp) ==> r == [] && target' == target)
      && (forall o :: IsLowest(orders, o, s', now, fp) ==>
            (forall d :: d in r <==> d in healthy && d.order == Some(o))
            && target' == (if target.Some? then Some(o) else None))
  {
    hide Full, PresentOrders, SeenAccounts, Rechecked, Unmarked;
    var learned := Learned(s, model, healthy);
    var checked := Rechecked(learned, now, file);
    ChecksKeepOrders(learned, now, file, fp);
    var orders := KnownFor(learned, model);
    if orders != map[] && !AllFull(orders, checked, now, fp) {
      var o :| IsLowest(orders, o, checked, now, fp) && s' == Unmarked(checked, orders[o], fp)
               && r == AtOrder(healthy, o)
        && target' == (if target.Some? then Some(o) else None);
      forall a ensures Full(s', a, now, fp) <==> Full(checked, a, now, fp) {
        UnmarkKeepsVerdicts(checked, orders[o], a, now, fp);
      }
      AtOrderFacts(healthy, o);
    }
  }

  /** In the run so far no 402 hit the account and no status file called its key full. */
  ghost predicate NeverReportedFull(states: seq<State>, events: seq<Event>, a: Account, fp: Fingerprints)
    requires |states| == |events| + 1
  {
    && (forall i :: !PaymentRequired(states, events, i, a))
    && forall i :: 0 <= i < |events| && events[i].Pick? && events[i].file.Readable? && fp(a) in events[i].file.states
         ==> events[i].file.states[fp(a)] != "full"
  }

  /**
   * Being busy never moves traffic up: while an account of a known order was never reported full - whatever 429s,
   * 5xx, cooldowns and fallback requests the run holds - a pick answers at that order or below, or with nothing.
   */
  lemma BusyIsNotFull(states: seq<State>, events: seq<Event>, fp: Fingerprints, o: int, d: Deployment)
    requires IsRun(states, events, fp) && events != [] && events[|events| - 1].Pick?
    requires var orders := KnownFor(states[|events|], events[|events| - 1].model);
      o in orders && NeverReportedFull(states, events, orders[o], fp)
    requires d in events[|events| - 1].answer
    ensures d.order.Some? && d.order.value <= o
  {
    var n := |events| - 1;
    var e := events[n];
    var s' := states[n + 1];
    var a := KnownFor(s', e.model)[o];
    PickIsLowest(states[n], e, s', fp, d);
    if Full(s', a, e.now, fp) {
      FullNeedsEvidence(states, events, fp, a, e.now);
      ProbeComesFromFile(states, events, fp);
    }
  }

  /** Failures that are not a 402 leave no trace at all. */
  lemma OnlyPaymentRequiredMarks(s: State, id: string, status: int, at: real)
    ensures Failed(s, id, status, at) != s ==>
      status == PAYMENT_REQUIRED && id in s.knownAccounts
      && Failed(s, id, status, at) == s.(marks := s.marks[s.knownAccounts[id] := Bench(at, at + BENCH_SECONDS)])
  {
  }
}
