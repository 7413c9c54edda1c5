/**
 * Putting image lines back after a rollback (scripts/renovate-revert-after-rollback.py): the bumps of each
 * repository are recorded newest first without repeats, and undone in that order.
 */
module RenovateRevert {
  import opened Sequences

  /** A replaced line: (old line, new line). */
  type Pair = (string, string)

  /** One image reference a commit replaced, oldest commit first. */
  datatype Change = Change(repo: string, oldTag: string, oldLine: string, newTag: string, newLine: string)

  datatype Bump = Bump(repo: string, oldTag: string, newTag: string, lines: seq<Pair>)

  function PairOf(c: Change): Pair { (c.oldLine, c.newLine) }

  /** Record one step: in front, unless it is already there. */
  function Record(lines: seq<Pair>, step: Pair): seq<Pair> {
    if step in lines then lines else [step] + lines
  }

  /** The steps of one repository, oldest first. */
  function StepsOf(changes: seq<Change>, repo: string): seq<Pair> {
    if changes == [] then []
    else
      var c := changes[|changes| - 1];
      StepsOf(changes[..|changes| - 1], repo) + (if c.repo == repo then [PairOf(c)] else [])
  }

  /** The steps of a repository are the old and new lines of exactly its changes, in order. */
  lemma {:induction false} StepsAreExact(changes: seq<Change>, repo: string) returns (ps: seq<nat>)
    ensures Picks(ps, changes, (c: Change) => c.repo == repo)
    ensures StepsOf(changes, repo) == OldAndNew(Image(changes, ps))
  {
    hide Picks, Image;
    ps := [];
    if changes == [] {
      NothingPicked((c: Change) => c.repo == repo);
    } else {
      var front, last := changes[..|changes| - 1], changes[|changes| - 1];
      assert changes == front + [last];
      var before := StepsAreExact(front, repo);
      ps := PicksSnoc(before, front, last, (c: Change) => c.repo == repo);
      PicksFit(before, front, (c: Change) => c.repo == repo);
      OldAndNewSnoc(Image(front, before), last);
    }
  }

  lemma OldAndNewSnoc(changes: seq<Change>, last: Change)
    ensures OldAndNew(changes + [last]) == OldAndNew(changes) + [(last.oldLine, last.newLine)]
  {
  }

  function OldAndNew(changes: seq<Change>): seq<Pair> {
    seq(|changes|, i requires 0 <= i < |changes| => (changes[i].oldLine, changes[i].newLine))
  }

  /** What is recorded for a sequence of steps. */
  function Recorded(steps: seq<Pair>): seq<Pair> {
    if steps == [] then [] else Record(Recorded(steps[..|steps| - 1]), steps[|steps| - 1])
  }

  /** Bumps of different repositories, each with all its recorded steps; not every repository needs to be there. */
  ghost predicate BumpsOf(bumps: seq<Bump>, changes: seq<Change>) {
    && (forall i, j :: 0 <= i < j < |bumps| ==> bumps[i].repo != bumps[j].repo)
    && forall i :: 0 <= i < |bumps| ==> bumps[i].lines == Recorded(StepsOf(changes, bumps[i].repo))
  }

  ghost predicate OneBumpPerRepo(bumps: seq<Bump>, changes: seq<Change>) {
    && BumpsOf(bumps, changes)
    && (forall c :: c in changes ==> exists i :: 0 <= i < |bumps| && bumps[i].repo == c.repo)
    && (forall i :: 0 <= i < |bumps| ==> StepsOf(changes, bumps[i].repo) != [])
  }

  /** The repositories in the order of their first change. */
  function Firsts(changes: seq<Change>): seq<string> {
    if changes == [] then []
    else
      var before, repo := Firsts(changes[..|changes| - 1]), changes[|changes| - 1].repo;
      if repo in before then before else before + [repo]
  }

  function Repos(bumps: seq<Bump>): seq<string> {
    seq(|bumps|, i requires 0 <= i < |bumps| => bumps[i].repo)
  }

  lemma FirstsStep(before: seq<Bump>, after: seq<Bump>, changes: seq<Change>, c: Change, i: nat)
    requires Repos(before) == Firsts(changes) && i <= |before|
    requires forall k :: 0 <= k < i ==> before[k].repo != c.repo
    requires i < |before| ==> before[i].repo == c.repo
    requires |after| == if i == |before| then |before| + 1 else |before|
    requires forall k :: 0 <= k < |after| && k != i ==> after[k] == before[k]
    requires after[i].repo == c.repo
    ensures Repos(after) == Firsts(changes + [c])
  {
    assert (changes + [c])[..|changes|] == changes;
    if i < |before| {
      assert Repos(before)[i] == c.repo && Repos(after) == Repos(before);
    } else {
      assert Repos(after) == Repos(before) + [c.repo];
    }
  }

  /** The tag a repository had before its oldest change. */
  function OldTag(changes: seq<Change>, repo: string): string {
    if changes == [] then ""
    else
      var before, c := changes[..|changes| - 1], changes[|changes| - 1];
      if StepsOf(before, repo) == [] && c.repo == repo then c.oldTag else OldTag(before, repo)
  }

  /** The tag a repository has after its newest change. */
  function NewTag(changes: seq<Change>, repo: string): string {
    if changes == [] then ""
    else
      var c := changes[|changes| - 1];
      if c.repo == repo then c.newTag else NewTag(changes[..|changes| - 1], repo)
  }

  /** Change `i` is the first of its repository. */
  ghost predicate IsFirst(changes: seq<Change>, i: int) {
    0 <= i < |changes| && forall k :: 0 <= k < i ==> changes[k].repo != changes[i].repo
  }

  /** Change `i` is the last of its repository. */
  ghost predicate IsLast(changes: seq<Change>, i: int) {
    0 <= i < |changes| && forall k :: i < k < |changes| ==> changes[k].repo != changes[i].repo
  }

  /** The tags of a bump come from the first and the last change of its repository. */
  lemma {:induction false} TagsAreExact(changes: seq<Change>, i: int)
    ensures IsFirst(changes, i) ==> OldTag(changes, changes[i].repo) == changes[i].oldTag
    ensures IsLast(changes, i) ==> NewTag(changes, changes[i].repo) == changes[i].newTag
  {
    if 0 <= i < |changes| {
      var n := |changes| - 1;
      var front, repo := changes[..n], changes[i].repo;
      if i < n {
        TagsAreExact(front, i);
        HasSteps(front, i);
      } else if IsFirst(changes, i) {
        NoStepsBefore(front, repo);
      }
    }
  }

  lemma {:induction false} HasSteps(changes: seq<Change>, i: nat)
    requires i < |changes|
    ensures StepsOf(changes, changes[i].repo) != []
  {
    if i < |changes| - 1 {
      HasSteps(changes[..|changes| - 1], i);
    }
  }

  lemma {:induction false} NoStepsBefore(changes: seq<Change>, repo: string)
    requires forall k :: 0 <= k < |changes| ==> changes[k].repo != repo
    ensures StepsOf(changes, repo) == []
  {
    if changes != [] {
      NoStepsBefore(changes[..|changes| - 1], repo);
    }
  }

  /** The bumps come in the order of the first changes of their repositories, one for each. */
  lemma {:induction false} FirstsAreExact(changes: seq<Change>) returns (ps: seq<nat>)
    ensures |ps| == |Firsts(changes)|
    ensures forall i :: 0 <= i < |ps| ==>
      ps[i] < |changes| && IsFirst(changes, ps[i]) && Firsts(changes)[i] == changes[ps[i]].repo
    ensures forall i, j :: 0 <= i < j < |ps| ==> ps[i] < ps[j]
    ensures forall k: nat :: k < |changes| ==> changes[k].repo in Firsts(changes)
  {
    ps := [];
    if changes != [] {
      hide IsFirst;
      var n := |changes| - 1;
      var front, last := changes[..n], changes[n];
      assert changes == front + [last];
      ps := FirstsAreExact(front);
      forall i | 0 <= i < |ps| ensures IsFirst(changes, ps[i]) && changes[ps[i]] == front[ps[i]] {
        StaysFirst(front, last, ps[i]);
      }
      if last.repo !in Firsts(front) {
        ps := ps + [n];
        NowFirst(front, last);
      }
    }
  }

  lemma StaysFirst(front: seq<Change>, last: Change, i: nat)
    requires IsFirst(front, i)
    ensures IsFirst(front + [last], i) && (front + [last])[i] == front[i]
  {
  }

  lemma NowFirst(front: seq<Change>, last: Change)
    requires forall k: nat :: k < |front| ==> front[k].repo != last.repo
    ensures IsFirst(front + [last], |front|)
  {
  }

  /** Oldest old tag, newest new tag. */
  ghost predicate TagsSpan(bumps: seq<Bump>, changes: seq<Change>) {
    forall i :: 0 <= i < |bumps| ==>
      bumps[i].oldTag == OldTag(changes, bumps[i].repo) && bumps[i].newTag == NewTag(changes, bumps[i].repo)
  }

  lemma TagsStep(before: seq<Bump>, after: seq<Bump>, changes: seq<Change>, c: Change, i: nat)
    requires OneBumpPerRepo(before, changes) && TagsSpan(before, changes) && i <= |before|
    requires forall k :: 0 <= k < i ==> before[k].repo != c.repo
    requires |after| == if i == |before| then |before| + 1 else |before|
    requires i < |before| ==> before[i].repo == c.repo && after[i].oldTag == before[i].oldTag
    requires i == |before| ==> after[i].oldTag == c.oldTag
    requires forall k :: 0 <= k < |after| && k != i ==> after[k] == before[k]
    requires after[i].repo == c.repo && after[i].newTag == c.newTag
    ensures TagsSpan(after, changes + [c])
  {
    hide StepsOf, Recorded;
    var all := changes + [c];
    assert all[..|changes|] == changes;
    RepoBumps(before, changes);
    if i == |before| {
      NoStepsYet(changes, c.repo);
    }
    forall k | 0 <= k < |after|
      ensures after[k].oldTag == OldTag(all, after[k].repo) && after[k].newTag == NewTag(all, after[k].repo)
    {
      assert k != i ==> after[k].repo != c.repo;
    }
  }

  /** `renovate_bumps`, from the changes of the Renovate commits in the range. */
  method RenovateBumps(changes: seq<Change>) returns (bumps: seq<Bump>)
    ensures OneBumpPerRepo(bumps, changes) && TagsSpan(bumps, changes)
    ensures Repos(bumps) == Firsts(changes)
  {
    hide OneBumpPerRepo, BumpsOf, TagsSpan, StepsOf, Recorded, Repos, Firsts;
    bumps := [];
    NoBumps();
    assert changes[..0] == [];
    for n := 0 to |changes|
      invariant OneBumpPerRepo(bumps, changes[..n]) && TagsSpan(bumps, changes[..n])
      invariant Repos(bumps) == Firsts(changes[..n])
    {
      var c := changes[n];
      var i := 0;
      while i < |bumps| && bumps[i].repo != c.repo
        invariant 0 <= i <= |bumps|
        invariant forall k :: 0 <= k < i ==> bumps[k].repo != c.repo
      {
        i := i + 1;
      }
      ghost var before := bumps;
      if i == |bumps| {
        bumps := bumps + [Bump(c.repo, c.oldTag, c.newTag, [])];
      }
      var bump := bumps[i].(newTag := c.newTag, lines := Record(bumps[i].lines, PairOf(c)));
      bumps := bumps[i := bump];
      assert changes[..n + 1] == changes[..n] + [c];
      BumpStep(before, bumps, changes[..n], c, i);
      TagsStep(before, bumps, changes[..n], c, i);
      FirstsStep(before, bumps, changes[..n], c, i);
    }
    assert changes[..|changes|] == changes;
  }

  lemma NoBumps()
    ensures OneBumpPerRepo([], []) && TagsSpan([], []) && Repos([]) == Firsts([])
  {
  }

  lemma BumpStep(before: seq<Bump>, after: seq<Bump>, changes: seq<Change>, c: Change, i: nat)
    requires OneBumpPerRepo(before, changes) && i <= |before|
    requires forall k :: 0 <= k < i ==> before[k].repo != c.repo
    requires i < |before| ==> before[i].repo == c.repo
    requires |after| == if i == |before| then |before| + 1 else |before|
    requires forall k :: 0 <= k < |after| && k != i ==> after[k] == before[k]
    requires after[i].repo == c.repo
    requires after[i].lines == Record(if i == |before| then [] else before[i].lines, PairOf(c))
    ensures OneBumpPerRepo(after, changes + [c])
  {
    hide *;
    var all := changes + [c];
    RepoBumps(before, changes);
    if i == |before| {
      NoStepsYet(changes, c.repo);
      RecordedEmpty();
    }
    forall k | 0 <= k < |after|
      ensures after[k].lines == Recorded(StepsOf(all, after[k].repo)) && StepsOf(all, after[k].repo) != []
    {
      StepsSnoc(changes, c, after[k].repo);
      RecordedSnoc(StepsOf(changes, after[k].repo), PairOf(c));
    }
    forall d | d in all ensures exists k :: 0 <= k < |after| && after[k].repo == d.repo {
      if d in changes {
        var k :| 0 <= k < |before| && before[k].repo == d.repo;
        assert after[k].repo == d.repo;
      } else {
        assert after[i].repo == d.repo;
      }
    }
    RepoBumpsMake(after, all);
  }

  lemma RepoBumps(bumps: seq<Bump>, changes: seq<Change>)
    requires OneBumpPerRepo(bumps, changes)
    ensures forall i, j :: 0 <= i < j < |bumps| ==> bumps[i].repo != bumps[j].repo
    ensures forall i :: 0 <= i < |bumps| ==> bumps[i].lines == Recorded(StepsOf(changes, bumps[i].repo))
    ensures forall c :: c in changes ==> exists i :: 0 <= i < |bumps| && bumps[i].repo == c.repo
    ensures forall i :: 0 <= i < |bumps| ==> StepsOf(changes, bumps[i].repo) != []
  {
  }

  lemma RepoBumpsMake(bumps: seq<Bump>, changes: seq<Change>)
    requires forall i, j :: 0 <= i < j < |bumps| ==> bumps[i].repo != bumps[j].repo
    requires forall i :: 0 <= i < |bumps| ==> bumps[i].lines == Recorded(StepsOf(changes, bumps[i].repo))
    requires forall c :: c in changes ==> exists i :: 0 <= i < |bumps| && bumps[i].repo == c.repo
    requires forall i :: 0 <= i < |bumps| ==> StepsOf(changes, bumps[i].repo) != []
    ensures OneBumpPerRepo(bumps, changes)
  {
  }

  lemma StepsSnoc(changes: seq<Change>, c: Change, repo: string)
    ensures StepsOf(changes + [c], repo)
         == if c.repo == repo then StepsOf(changes, repo) + [PairOf(c)] else StepsOf(changes, repo)
  {
    assert (changes + [c])[..|changes|] == changes;
  }

  lemma RecordedSnoc(steps: seq<Pair>, step: Pair)
    ensures Recorded(steps + [step]) == Record(Recorded(steps), step)
  {
    assert (steps + [step])[..|steps|] == steps;
  }

  lemma RecordedEmpty()
    ensures Recorded([]) == []
  {
  }

  lemma {:induction false} NoStepsYet(changes: seq<Change>, repo: string)
    requires forall c :: c in changes ==> c.repo != repo
    ensures StepsOf(changes, repo) == []
  {
    if changes != [] {
      assert changes[|changes| - 1] in changes;
      NoStepsYet(changes[..|changes| - 1], repo);
    }
  }

  /** Undo recorded pairs on one line, in list order. */
  function Undo(line: string, pairs: seq<Pair>): string
    decreases |pairs|
  {
    if pairs == [] then line
    else Undo(if line == pairs[0].1 then pairs[0].0 else line, pairs[1..])
  }

  function UndoAll(line: string, bumps: seq<Bump>): string
    decreases |bumps|
  {
    if bumps == [] then line else UndoAll(Undo(line, bumps[0].lines), bumps[1..])
  }

  lemma {:induction false} UndoSnoc(line: string, pairs: seq<Pair>, p: Pair)
    ensures Undo(line, pairs + [p]) == var x := Undo(line, pairs); if x == p.1 then p.0 else x
    decreases |pairs|
  {
    if pairs == [] {
      assert [] + [p] == [p];
      assert Undo(line, [p]) == Undo(if line == p.1 then p.0 else line, [p][1..]);
    } else {
      assert (pairs + [p])[1..] == pairs[1..] + [p];
      UndoSnoc(if line == pairs[0].1 then pairs[0].0 else line, pairs[1..], p);
    }
  }

  lemma {:induction false} UndoAllSnoc(line: string, bumps: seq<Bump>, b: Bump)
    ensures UndoAll(line, bumps + [b]) == Undo(UndoAll(line, bumps), b.lines)
    decreases |bumps|
  {
    if bumps == [] {
      assert [] + [b] == [b];
      assert UndoAll(line, [b]) == UndoAll(Undo(line, b.lines), [b][1..]);
    } else {
      assert (bumps + [b])[1..] == bumps[1..] + [b];
      UndoAllSnoc(Undo(line, bumps[0].lines), bumps[1..], b);
    }
  }

  /** One replacement over the whole file. */
  method ReplaceLine(lines: seq<string>, oldLine: string, newLine: string) returns (r: seq<string>)
    ensures |r| == |lines|
    ensures forall i :: 0 <= i < |lines| ==> r[i] == if lines[i] == newLine then oldLine else lines[i]
  {
    r := [];
    for i := 0 to |lines|
      invariant |r| == i
      invariant forall k :: 0 <= k < i ==> r[k] == if lines[k] == newLine then oldLine else lines[k]
    {
      r := r + [if lines[i] == newLine then oldLine else lines[i]];
    }
  }

  /** The revert loop of `run`: bump by bump, newest pair first, every line that matches goes back. */
  method RevertLines(compose: seq<string>, todo: seq<Bump>) returns (lines: seq<string>)
    ensures |lines| == |compose|
    ensures forall i :: 0 <= i < |compose| ==> lines[i] == UndoAll(compose[i], todo)
  {
    lines := compose;
    for b := 0 to |todo|
      invariant |lines| == |compose|
      invariant forall i :: 0 <= i < |compose| ==> lines[i] == UndoAll(compose[i], todo[..b])
    {
      var pairs := todo[b].lines;
      ghost var start := lines;
      for p := 0 to |pairs|
        invariant |lines| == |compose|
        invariant forall i :: 0 <= i < |compose| ==> lines[i] == Undo(start[i], pairs[..p])
      {
        assert pairs[..p + 1] == pairs[..p] + [pairs[p]];
        forall i | 0 <= i < |compose| { UndoSnoc(start[i], pairs[..p], pairs[p]); }
        lines := ReplaceLine(lines, pairs[p].0, pairs[p].1);
      }
      assert pairs[..|pairs|] == pairs && todo[..b + 1] == todo[..b] + [todo[b]];
      forall i | 0 <= i < |compose| { UndoAllSnoc(compose[i], todo[..b], todo[b]); }
    }
    assert todo[..|todo|] == todo;
  }

  // ----- Undo over any walk

  function NewLines(steps: seq<Pair>): set<string> {
    set p | p in steps :: p.1
  }

  /** Every step starts from a line that was there at the start of the range or was reached by an earlier step. */
  ghost predicate Traceable(steps: seq<Pair>, starts: set<string>) {
    steps == [] ||
    var before, last := steps[..|steps| - 1], steps[|steps| - 1];
    Traceable(before, starts) && (last.0 in starts || last.0 in NewLines(before))
  }

  /**
   * Undoing the recorded pairs newest first brings any line the steps can have produced back to a line of the start
   * of the range, however often steps repeat or run in cycles.
   */
  lemma {:induction false} UndoReachesStart(steps: seq<Pair>, starts: set<string>, line: string)
    requires Traceable(steps, starts)
    requires line in starts || line in NewLines(steps)
    ensures Undo(line, Recorded(steps)) in starts
  {
    if steps != [] {
      var before, last := steps[..|steps| - 1], steps[|steps| - 1];
      assert steps == before + [last];
      RecordedSteps(before);
      var line' := if last !in before && line == last.1 then last.0 else line;
      UndoReachesStart(before, starts, line');
      if last !in before {
        assert ([last] + Recorded(before))[1..] == Recorded(before);
      }
    }
  }

  lemma {:induction false} RecordedSteps(steps: seq<Pair>)
    ensures forall p :: p in Recorded(steps) <==> p in steps
  {
    if steps != [] {
      RecordedSteps(steps[..|steps| - 1]);
      assert steps == steps[..|steps| - 1] + [steps[|steps| - 1]];
    }
  }

  /** The changes of one line, each step starting where the last one ended. */
  ghost predicate Walk(steps: seq<Pair>, first: string, final: string) {
    if steps == [] then first == final
    else
      var last := steps[|steps| - 1];
      last.1 == final && Walk(steps[..|steps| - 1], first, last.0)
  }

  /** For every walk of a line, repeats and cycles included, the revert restores the line at the start of the range. */
  lemma UndoOverAnyWalk(steps: seq<Pair>, first: string, final: string)
    requires Walk(steps, first, final)
    ensures Undo(final, Recorded(steps)) == first
  {
    WalkIsTraceable(steps, first, final);
    UndoReachesStart(steps, {first}, final);
  }

  lemma {:induction false} WalkIsTraceable(steps: seq<Pair>, first: string, final: string)
    requires Walk(steps, first, final)
    ensures Traceable(steps, {first})
    ensures final == first || final in NewLines(steps)
  {
    if steps != [] {
      var last := steps[|steps| - 1];
      WalkIsTraceable(steps[..|steps| - 1], first, last.0);
      assert last in steps && last.1 in NewLines(steps);
    }
  }

  /** Lines no recorded step produced are left alone. */
  lemma {:induction false} OtherLinesStay(line: string, pairs: seq<Pair>)
    requires forall p :: p in pairs ==> p.1 != line
    ensures Undo(line, pairs) == line
  {
    if pairs != [] {
      assert pairs[0] in pairs && forall p :: p in pairs[1..] ==> p in pairs;
      OtherLinesStay(line, pairs[1..]);
    }
  }

  /** The repository a compose line refers to: the reference pattern, as an oracle. */
  ghost predicate LinesNameTheirRepo(bumps: seq<Bump>, repoOf: string -> string) {
    forall b, p :: b in bumps && p in b.lines ==> repoOf(p.0) == b.repo && repoOf(p.1) == b.repo
  }

  /** Bumps of other repositories never touch a line; the whole revert acts on it as its own bump does. */
  lemma {:induction false} RepositoriesDoNotInterfere(line: string, bumps: seq<Bump>, k: nat, repoOf: string -> string)
    requires LinesNameTheirRepo(bumps, repoOf) && k < |bumps| && repoOf(line) == bumps[k].repo
    requires forall i, j :: 0 <= i < j < |bumps| ==> bumps[i].repo != bumps[j].repo
    ensures UndoAll(line, bumps) == Undo(line, bumps[k].lines)
  {
    assert bumps[0] in bumps && forall b :: b in bumps[1..] ==> b in bumps;
    if k == 0 {
      UndoKeepsRepo(line, bumps[0].lines, bumps[0].repo, repoOf);
      OthersStay(Undo(line, bumps[0].lines), bumps[1..], repoOf);
    } else {
      OtherLinesStay(line, bumps[0].lines);
      RepositoriesDoNotInterfere(line, bumps[1..], k - 1, repoOf);
    }
  }

  lemma {:induction false} UndoKeepsRepo(line: string, pairs: seq<Pair>, repo: string, repoOf: string -> string)
    requires repoOf(line) == repo && forall p :: p in pairs ==> repoOf(p.0) == repo
    ensures repoOf(Undo(line, pairs)) == repo
    decreases |pairs|
  {
    if pairs != [] {
      assert pairs[0] in pairs && forall p :: p in pairs[1..] ==> p in pairs;
      UndoKeepsRepo(if line == pairs[0].1 then pairs[0].0 else line, pairs[1..], repo, repoOf);
    }
  }

  lemma {:induction false} OthersStay(line: string, bumps: seq<Bump>, repoOf: string -> string)
    requires LinesNameTheirRepo(bumps, repoOf) && forall b :: b in bumps ==> b.repo != repoOf(line)
    ensures UndoAll(line, bumps) == line
  {
    if bumps != [] {
      assert bumps[0] in bumps && forall b :: b in bumps[1..] ==> b in bumps;
      OtherLinesStay(line, bumps[0].lines);
      OthersStay(line, bumps[1..], repoOf);
    }
  }

  /**
   * End to end: when every recorded step of its repository goes back to the line's own start - identical lines that
   * are bumped together included - the file that comes out of the revert holds the line of the start of the range.
   */
  lemma RevertRestoresLine(changes: seq<Change>, bumps: seq<Bump>, k: nat, first: string, final: string,
                           repoOf: string -> string)
    requires BumpsOf(bumps, changes) && LinesNameTheirRepo(bumps, repoOf)
    requires k < |bumps| && repoOf(final) == bumps[k].repo
    requires var steps := StepsOf(changes, bumps[k].repo);
      Traceable(steps, {first}) && (final == first || final in NewLines(steps))
    ensures UndoAll(final, bumps) == first
  {
    RepositoriesDoNotInterfere(final, bumps, k, repoOf);
    UndoReachesStart(StepsOf(changes, bumps[k].repo), {first}, final);
  }

  // ----- Which bumps are reverted

  /** There is a version to exclude, and the file on main still runs it. */
  predicate StillRuns(b: Bump, compose: seq<string>) {
    b.newTag != "" && exists p :: p in b.lines && p.1 in compose
  }

  function Running(bumps: seq<Bump>, compose: seq<string>): (r: seq<Bump>)
    ensures forall b :: b in r <==> b in bumps && StillRuns(b, compose)
  {
    if bumps == [] then []
    else
      var b := bumps[|bumps| - 1];
      Running(bumps[..|bumps| - 1], compose) + (if StillRuns(b, compose) then [b] else [])
  }

  /** The running bumps that no open pull request reverts already. */
  function Due(bumps: seq<Bump>, compose: seq<string>, covered: Bump -> bool): (r: seq<Bump>)
    ensures forall b :: b in r <==>
      b in bumps && b.newTag != "" && (exists p :: p in b.lines && p.1 in compose) && !covered(b)
  {
    if bumps == [] then []
    else
      var b := bumps[|bumps| - 1];
      Due(bumps[..|bumps| - 1], compose, covered) + (if StillRuns(b, compose) && !covered(b) then [b] else [])
  }

  /** The two selections of `run`: what main still runs, and of these what no open pull request covers. */
  method DueBumps(bumps: seq<Bump>, compose: seq<string>, covered: Bump -> bool) returns (todo: seq<Bump>)
    ensures todo == Due(bumps, compose, covered)
  {
    hide Due, Running;
    var running: seq<Bump> := [];
    NothingDue(compose, covered);
    for n := 0 to |bumps|
      invariant running == Running(bumps[..n], compose)
    {
      var b := bumps[n];
      DueSnoc(bumps, n, compose, covered);
      var runs := Runs(b, compose);
      if b.newTag != "" && runs {
        running := running + [b];
      }
    }
    assert bumps[..|bumps|] == bumps;
    todo := [];
    for n := 0 to |running|
      invariant todo == Uncovered(running[..n], covered)
    {
      OneMore(running, n);
      if !covered(running[n]) {
        todo := todo + [running[n]];
      }
    }
    assert running[..|running|] == running;
    RunningUncovered(bumps, compose, covered);
  }

  /** `any(new in compose.splitlines() for _, new in b.lines)`. */
  method Runs(b: Bump, compose: seq<string>) returns (runs: bool)
    ensures runs <==> exists p :: p in b.lines && p.1 in compose
  {
    for i := 0 to |b.lines|
      invariant forall p :: p in b.lines[..i] ==> p.1 !in compose
    {
      OneMore(b.lines, i);
      if b.lines[i].1 in compose {
        return true;
      }
    }
    assert b.lines[..|b.lines|] == b.lines;
    return false;
  }

  function Uncovered(bumps: seq<Bump>, covered: Bump -> bool): seq<Bump> {
    if bumps == [] then []
    else
      var b := bumps[|bumps| - 1];
      Uncovered(bumps[..|bumps| - 1], covered) + (if covered(b) then [] else [b])
  }

  lemma NothingDue(compose: seq<string>, covered: Bump -> bool)
    ensures Due([], compose, covered) == [] && Running([], compose) == []
  {
  }

  lemma DueSnoc(bumps: seq<Bump>, n: nat, compose: seq<string>, covered: Bump -> bool)
    requires n < |bumps|
    ensures Running(bumps[..n + 1], compose)
         == Running(bumps[..n], compose) + (if StillRuns(bumps[n], compose) then [bumps[n]] else [])
    ensures Due(bumps[..n + 1], compose, covered)
         == Due(bumps[..n], compose, covered)
              + (if StillRuns(bumps[n], compose) && !covered(bumps[n]) then [bumps[n]] else [])
  {
    hide StillRuns;
    OneMore(bumps, n);
  }

  lemma {:induction false} RunningUncovered(bumps: seq<Bump>, compose: seq<string>, covered: Bump -> bool)
    ensures Uncovered(Running(bumps, compose), covered) == Due(bumps, compose, covered)
  {
    hide Due, Running, StillRuns;
    if bumps == [] {
      NothingDue(compose, covered);
    } else {
      var n, b := |bumps| - 1, bumps[|bumps| - 1];
      var running := Running(bumps[..n], compose);
      RunningUncovered(bumps[..n], compose, covered);
      assert bumps[..n + 1] == bumps;
      DueSnoc(bumps, n, compose, covered);
      assert running + [] == running && Due(bumps[..n], compose, covered) + [] == Due(bumps[..n], compose, covered);
      assert (running + [b])[..|running|] == running;
    }
  }

  lemma FrontIsBumps(bumps: seq<Bump>, changes: seq<Change>)
    requires BumpsOf(bumps, changes) && bumps != []
    ensures BumpsOf(bumps[..|bumps| - 1], changes)
  {
    hide Recorded, StepsOf;
  }

  lemma OneBumpMore(bumps: seq<Bump>, some: seq<Bump>, changes: seq<Change>)
    requires BumpsOf(bumps, changes) && bumps != [] && BumpsOf(some, changes)
    requires forall b :: b in some ==> b in bumps[..|bumps| - 1]
    ensures BumpsOf(some + [bumps[|bumps| - 1]], changes)
  {
    hide Recorded, StepsOf;
    var last := bumps[|bumps| - 1];
    forall i | 0 <= i < |some| ensures some[i].repo != last.repo {
      assert some[i] in some && some[i] in bumps[..|bumps| - 1];
    }
  }

  /** The bumps to revert are still complete, one for each repository that is left. */
  lemma {:induction false} DueAreBumps(bumps: seq<Bump>, changes: seq<Change>, compose: seq<string>,
                                       covered: Bump -> bool)
    requires BumpsOf(bumps, changes)
    ensures BumpsOf(Due(bumps, compose, covered), changes)
  {
    hide Due, StillRuns, BumpsOf;
    if bumps == [] {
      NothingDue(compose, covered);
    } else {
      var n := |bumps| - 1;
      assert bumps[..n + 1] == bumps;
      FrontIsBumps(bumps, changes);
      DueAreBumps(bumps[..n], changes, compose, covered);
      DueSnoc(bumps, n, compose, covered);
      var before := Due(bumps[..n], compose, covered);
      assert before + [] == before;
      assert forall b :: b in before ==> b in bumps[..n];
      OneBumpMore(bumps, before, changes);
    }
  }

  /** A line whose bump is not reverted stays as main has it. */
  lemma DroppedLineStays(line: string, bumps: seq<Bump>, compose: seq<string>, covered: Bump -> bool,
                         repoOf: string -> string)
    requires LinesNameTheirRepo(bumps, repoOf)
    requires forall b :: b in bumps && b.repo == repoOf(line) ==> !StillRuns(b, compose) || covered(b)
    ensures UndoAll(line, Due(bumps, compose, covered)) == line
  {
    OthersStay(line, Due(bumps, compose, covered), repoOf);
  }

  // ----- Several lines of one repository

  /** The texts each line goes through, the first one at the start of the range. */
  type Walks = seq<seq<string>>

  /** How often line `k` has moved on. */
  function Moves(schedule: seq<nat>, k: nat): nat {
    if schedule == [] then 0
    else Moves(schedule[..|schedule| - 1], k) + (if schedule[|schedule| - 1] == k then 1 else 0)
  }

  /** An order in which lines move on, one at a time; the range may end anywhere on the way. */
  ghost predicate IsSchedule(walks: Walks, schedule: seq<nat>) {
    schedule == [] ||
    var before, k := schedule[..|schedule| - 1], schedule[|schedule| - 1];
    IsSchedule(walks, before) && k < |walks| && Moves(before, k) + 1 < |walks[k]|
  }

  lemma {:induction false} MovesFit(walks: Walks, schedule: seq<nat>, k: nat)
    requires IsSchedule(walks, schedule) && k < |walks| && walks[k] != []
    ensures Moves(schedule, k) < |walks[k]|
  {
    if schedule != [] {
      MovesFit(walks, schedule[..|schedule| - 1], k);
    }
  }

  /** The recorded steps, oldest first. */
  ghost function StepsAlong(walks: Walks, schedule: seq<nat>): seq<Pair>
    requires IsSchedule(walks, schedule)
  {
    if schedule == [] then []
    else
      var before, k := schedule[..|schedule| - 1], schedule[|schedule| - 1];
      var n := Moves(before, k);
      StepsAlong(walks, before) + [(walks[k][n], walks[k][n + 1])]
  }

  /** Where line `k` ends. */
  ghost function Final(walks: Walks, schedule: seq<nat>, k: nat): string
    requires IsSchedule(walks, schedule) && k < |walks| && walks[k] != []
  {
    MovesFit(walks, schedule, k);
    walks[k][Moves(schedule, k)]
  }

  ghost predicate Started(walks: Walks) {
    forall k :: 0 <= k < |walks| ==> walks[k] != []
  }

  /** Lines with different starts never go through the same text. */
  ghost predicate Apart(walks: Walks) {
    forall i, j, m, n :: Meet(walks, i, m, j, n) ==> walks[i][0] == walks[j][0]
  }

  /** Line `i` at its text `m` reads like line `j` at its text `n`. */
  predicate Meet(walks: Walks, i: int, m: int, j: int, n: int) {
    && 0 <= i < |walks| && 0 <= j < |walks| && 0 <= m < |walks[i]| && 0 <= n < |walks[j]|
    && walks[i][m] == walks[j][n]
  }

  /** `x` is a text some line with the start `s` has had so far. */
  ghost predicate Had(walks: Walks, schedule: seq<nat>, s: string, x: string) {
    exists j, n: nat :: 0 <= j < |walks| && walks[j] != [] && n < |walks[j]| && n <= Moves(schedule, j)
      && walks[j][0] == s && walks[j][n] == x
  }

  /** A recorded step leads from one text of its line to the next. */
  lemma {:induction false} StepWasTaken(walks: Walks, schedule: seq<nat>, p: Pair) returns (j: nat, n: nat)
    requires IsSchedule(walks, schedule) && p in StepsAlong(walks, schedule)
    ensures j < |walks| && n + 1 < |walks[j]| && n < Moves(schedule, j) && p == (walks[j][n], walks[j][n + 1])
  {
    var before, k := schedule[..|schedule| - 1], schedule[|schedule| - 1];
    if p in StepsAlong(walks, before) {
      j, n := StepWasTaken(walks, before, p);
    } else {
      j, n := k, Moves(before, k);
    }
  }

  lemma {:induction false} HadGoesBack(walks: Walks, schedule: seq<nat>, s: string, x: string)
    requires IsSchedule(walks, schedule) && Apart(walks) && Had(walks, schedule, s, x)
    ensures Undo(x, Recorded(StepsAlong(walks, schedule))) == s
  {
    if schedule != [] {
      var before := schedule[..|schedule| - 1];
      StepsLength(walks, before);
      StepsLength(walks, schedule);
      var steps, last := StepsAlong(walks, before), StepsAlong(walks, schedule)[|schedule| - 1];
      var x' := if last !in steps && x == last.1 then last.0 else x;
      HadBefore(walks, schedule, s, x);
      HadGoesBack(walks, before, s, x');
      RecordedSteps(steps);
      RecordedSnoc(steps, last);
      if last !in steps {
        assert ([last] + Recorded(steps))[1..] == Recorded(steps);
      }
    } else {
      NothingMoved(walks, s, x);
      RecordedEmpty();
    }
  }

  lemma {:induction false} StepsLength(walks: Walks, schedule: seq<nat>)
    requires IsSchedule(walks, schedule)
    ensures |StepsAlong(walks, schedule)| == |schedule|
  {
    if schedule != [] {
      StepsLength(walks, schedule[..|schedule| - 1]);
    }
  }

  lemma NothingMoved(walks: Walks, s: string, x: string)
    requires Had(walks, [], s, x)
    ensures x == s
  {
  }

  /** One step back: a text was there before the last step, or is the one that step wrote. */
  lemma HadBefore(walks: Walks, schedule: seq<nat>, s: string, x: string)
    requires IsSchedule(walks, schedule) && schedule != [] && Apart(walks) && Had(walks, schedule, s, x)
    ensures var before := schedule[..|schedule| - 1]; var steps := StepsAlong(walks, before);
      |StepsAlong(walks, schedule)| == |steps| + 1
      && var last := StepsAlong(walks, schedule)[|steps|];
         Had(walks, before, s, if last !in steps && x == last.1 then last.0 else x)
  {
    var before, k := schedule[..|schedule| - 1], schedule[|schedule| - 1];
    var steps, n := StepsAlong(walks, before), Moves(before, k);
    var last := StepsAlong(walks, schedule)[|steps|];
    assert last == (walks[k][n], walks[k][n + 1]);
    var j, m: nat :| 0 <= j < |walks| && walks[j] != [] && m < |walks[j]| && m <= Moves(schedule, j)
      && walks[j][0] == s && walks[j][m] == x;
    if last !in steps && x == last.1 {
      assert Meet(walks, k, n + 1, j, m);
      assert walks[k][0] == s && walks[k][n] == last.0;
    } else if x == last.1 {
      var j', n' := StepWasTaken(walks, before, last);
      assert Meet(walks, j', n' + 1, j, m);
      assert walks[j'][0] == s;
    } else {
      assert j == k ==> walks[j][m] != walks[k][n + 1];
    }
  }

  ghost predicate Restored(walks: Walks, schedule: seq<nat>, k: nat)
    requires IsSchedule(walks, schedule) && k < |walks| && walks[k] != []
  {
    Undo(Final(walks, schedule, k), Recorded(StepsAlong(walks, schedule))) == walks[k][0]
  }

  /** Whatever the order of the steps and wherever the range ends, every line goes back to its start. */
  ghost predicate AlwaysRestored(walks: Walks)
    requires Started(walks)
  {
    forall schedule, k :: IsSchedule(walks, schedule) && 0 <= k < |walks| ==> Restored(walks, schedule, k)
  }

  /** A schedule that takes line `i` to its text `m` and then line `j` to its text `n`. */
  lemma {:induction false} MeetingSchedule(walks: Walks, i: nat, m: nat, j: nat, n: nat) returns (schedule: seq<nat>)
    requires i < |walks| && j < |walks| && i != j && m < |walks[i]| && n < |walks[j]|
    ensures IsSchedule(walks, schedule) && Moves(schedule, i) == m && Moves(schedule, j) == n
    decreases m + n
  {
    if m == 0 && n == 0 {
      schedule := [];
    } else {
      var k := if n > 0 then j else i;
      var before := MeetingSchedule(walks, i, if n > 0 then m else m - 1, j, if n > 0 then n - 1 else 0);
      schedule := before + [k];
      assert schedule[..|before|] == before;
    }
  }

  /**
   * The revert restores all lines of a repository, for every order of their steps and every end of the range, if and
   * only if lines with different starts never go through the same text.
   */
  lemma TellingApartIsExact(walks: Walks)
    requires Started(walks)
    ensures AlwaysRestored(walks) <==> Apart(walks)
  {
    if Apart(walks) {
      forall schedule, k | IsSchedule(walks, schedule) && 0 <= k < |walks| ensures Restored(walks, schedule, k) {
        MovesFit(walks, schedule, k);
        assert Had(walks, schedule, walks[k][0], Final(walks, schedule, k));
        HadGoesBack(walks, schedule, walks[k][0], Final(walks, schedule, k));
      }
    }
    if AlwaysRestored(walks) {
      forall i, j, m, n | Meet(walks, i, m, j, n) ensures walks[i][0] == walks[j][0] {
        if i != j {
          var schedule := MeetingSchedule(walks, i, m, j, n);
          assert Restored(walks, schedule, i) && Restored(walks, schedule, j);
        }
      }
    }
  }

  /** End to end for a whole repository: every one of its lines comes out of the revert as it was. */
  lemma RevertRestoresRepository(changes: seq<Change>, bumps: seq<Bump>, b: nat, walks: Walks, schedule: seq<nat>,
                                 k: nat, repoOf: string -> string)
    requires BumpsOf(bumps, changes) && LinesNameTheirRepo(bumps, repoOf) && b < |bumps|
    requires Started(walks) && Apart(walks) && IsSchedule(walks, schedule) && k < |walks|
    requires forall t :: t in walks[k] ==> repoOf(t) == bumps[b].repo
    requires StepsOf(changes, bumps[b].repo) == StepsAlong(walks, schedule)
    ensures UndoAll(Final(walks, schedule, k), bumps) == walks[k][0]
  {
    MovesFit(walks, schedule, k);
    var final := Final(walks, schedule, k);
    assert final in walks[k];
    RepositoriesDoNotInterfere(final, bumps, b, repoOf);
    assert Had(walks, schedule, walks[k][0], final);
    HadGoesBack(walks, schedule, walks[k][0], final);
  }

  /** Two lines of one repository bumped to the same text cannot be told apart: both go back to one of them. */
  lemma MergedLinesAreAmbiguous(a: string, b: string, c: string)
    requires a != b && c != b && a != c
    ensures Undo(b, Recorded([(a, b), (c, b)])) == c
  {
    assert [(a, b), (c, b)][..1] == [(a, b)] && [(a, b)][..0] == [];
    assert Recorded([(a, b)]) == [(a, b)];
    assert Recorded([(a, b), (c, b)]) == [(c, b), (a, b)];
    assert [(c, b), (a, b)][1..] == [(a, b)] && [(a, b)][1..] == [];
    assert Undo(c, [(a, b)]) == Undo(c, []);
  }

  /** Three steps and the first one again: it is recorded once. */
  lemma RecordedFour(p: Pair, q: Pair, r: Pair)
    requires p.0 != q.0 && p.0 != r.0 && q.0 != r.0
    ensures Recorded([p, q, r, p]) == [r, q, p]
  {
    hide *;
    RecordedEmpty();
    RecordedMore([], p, [p], [], [p]);
    RecordedMore([p], q, [p, q], [p], [q, p]);
    RecordedMore([p, q], r, [p, q, r], [q, p], [r, q, p]);
    RecordedSnoc([p, q, r], p);
    RecordAgain([r, q, p], p);
    assert [p, q, r] + [p] == [p, q, r, p];
  }

  lemma RecordedMore(steps: seq<Pair>, step: Pair, all: seq<Pair>, lines: seq<Pair>, more: seq<Pair>)
    requires all == steps + [step] && Recorded(steps) == lines && more == [step] + lines
    requires forall p :: p in lines ==> p.0 != step.0
    ensures Recorded(all) == more
  {
    RecordedSnoc(steps, step);
  }

  lemma RecordAgain(lines: seq<Pair>, step: Pair)
    requires step in lines
    ensures Record(lines, step) == lines
  {
  }

  lemma UndoThree(line: string, p: Pair, q: Pair, r: Pair)
    ensures var one := if line == p.1 then p.0 else line;
      var two := if one == q.1 then q.0 else one;
      Undo(line, [p, q, r]) == if two == r.1 then r.0 else two
  {
    hide Undo;
    var one := if line == p.1 then p.0 else line;
    var two := if one == q.1 then q.0 else one;
    assert [p, q, r] == [p] + [q, r] && [q, r] == [q] + [r] && [r] == [r] + [];
    UndoStep(line, p, [q, r]);
    UndoStep(one, q, [r]);
    UndoStep(two, r, []);
    UndoNothing(if two == r.1 then r.0 else two);
  }

  /**
   * Lines need not even be equal at one time: one goes from `a` over `b` to `c`, the other runs ahead of it from `b`
   * over `c` to `d`, and the first one comes back as `b`.
   */
  lemma FollowedLineIsLost(a: string, b: string, c: string, d: string)
    requires a != b && a != c && a != d && b != c && b != d && c != d
    ensures Undo(c, Recorded([(b, c), (a, b), (c, d), (b, c)])) == b
  {
    hide *;
    RecordedFour((b, c), (a, b), (c, d));
    UndoThree(c, (c, d), (a, b), (b, c));
  }

  lemma UndoNothing(line: string)
    ensures Undo(line, []) == line
  {
  }

  lemma UndoStep(line: string, p: Pair, rest: seq<Pair>)
    ensures Undo(line, [p] + rest) == Undo(if line == p.1 then p.0 else line, rest)
  {
    assert ([p] + rest)[1..] == rest;
  }
}
