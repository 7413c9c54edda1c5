/**
 * Purging and recovering login-wall pages by near-duplicate clusters
 * (klai-knowledge-ingest/knowledge_ingest/backfill_tasks.py). Simhash computation and Hamming distance are oracles.
 */
module BackfillTasks {
  import opened Sequences
  import opened Strings
  import opened Sets

  /** The stored content hash: SQL's NULL, the purge placeholder, the empty re-fetch sentinel, or a real hash. */
  datatype ContentHash = Missing | Purged | Cleared | Real(hash: string)

  datatype Page = Page(url: string, markdown: string, content: ContentHash, simhash: Option<int>)

  type Pages = seq<Page>

  datatype Params = Params(clusterMin: int, hammingMax: int, simhashOf: string -> int, distance: (int, int) -> int)

  /** The fingerprint both passes work with: the stored one, or the one computed from the page. */
  function Fingerprint(p: Page, params: Params): int {
    if p.simhash.Some? then p.simhash.value else params.simhashOf(p.markdown)
  }

  predicate UniqueUrls(pages: Pages) {
    forall i, j :: 0 <= i < j < |pages| ==> pages[i].url != pages[j].url
  }

  predicate Near(pages: Pages, i: nat, j: nat, params: Params)
    requires i < |pages| && j < |pages|
  {
    var a, b := Fingerprint(pages[i], params), Fingerprint(pages[j], params);
    a != 0 && b != 0 && params.distance(a, b) <= params.hammingMax
  }

  /** The other pages of `i`'s cluster, among the pages in `among`. */
  function Siblings(pages: Pages, i: nat, among: set<nat>, params: Params): set<nat>
    requires i < |pages|
  {
    set j: nat | j < |pages| && j in among && j != i && Near(pages, i, j, params)
  }

  function Members(rows: seq<nat>): set<nat> { set r | r in rows }

  predicate IsRow(pages: Pages, j: nat) { j < |pages| }

  function All(pages: Pages): set<nat> { set j: nat | j < |pages| && IsRow(pages, j) }

  /** `content_hash <> placeholder`: true of neither the placeholder nor NULL. */
  predicate IsLive(p: Page) { p.content != Purged && p.content != Missing }

  function Live(pages: Pages): set<nat> { set j: nat | j < |pages| && IsLive(pages[j]) }

  function PurgedPages(pages: Pages): set<nat> { set j: nat | j < |pages| && pages[j].content == Purged }

  /** `_count_cluster_siblings` over the fetched rows, given by their positions. */
  method CountClusterSiblings(pages: Pages, i: nat, rows: seq<nat>, params: Params) returns (count: nat)
    requires i < |pages| && UniqueUrls(pages)
    requires forall r :: r in rows ==> r < |pages|
    requires forall a, b :: 0 <= a < b < |rows| ==> rows[a] != rows[b]
    ensures count == |Siblings(pages, i, Members(rows), params)|
  {
    hide Siblings, Members;
    var target := Fingerprint(pages[i], params);
    count := 0;
    NoSiblings(pages, i, rows, params);
    if target == 0 {
      return;
    }
    for n := 0 to |rows|
      invariant count == |Siblings(pages, i, Members(rows[..n]), params)|
    {
      var j := rows[n];
      assert j in rows;
      OneMore(rows, n);
      SiblingsSnoc(pages, i, rows[..n], j, params);
      var other := Fingerprint(pages[j], params);
      assert pages[j].url == pages[i].url ==> j == i;
      if pages[j].url != pages[i].url && other != 0 && params.distance(target, other) <= params.hammingMax {
        count := count + 1;
      }
    }
    assert rows[..|rows|] == rows;
  }

  lemma NoSiblings(pages: Pages, i: nat, rows: seq<nat>, params: Params)
    requires i < |pages|
    ensures Siblings(pages, i, Members(rows[..0]), params) == {}
    ensures Fingerprint(pages[i], params) == 0 ==> Siblings(pages, i, Members(rows), params) == {}
  {
  }

  lemma SiblingsSnoc(pages: Pages, i: nat, rows: seq<nat>, j: nat, params: Params)
    requires i < |pages| && j < |pages| && j !in rows
    ensures |Siblings(pages, i, Members(rows + [j]), params)|
         == |Siblings(pages, i, Members(rows), params)| + (if j != i && Near(pages, i, j, params) then 1 else 0)
  {
    hide Near;
    var before := Siblings(pages, i, Members(rows), params);
    assert Siblings(pages, i, Members(rows + [j]), params)
        == before + (if j != i && Near(pages, i, j, params) then {j} else {});
  }

  /** `_ensure_simhashes` on one page: a missing fingerprint is stored unless it is the empty-content 0. */
  function WithSimhash(p: Page, params: Params): Page {
    if p.simhash == None && params.simhashOf(p.markdown) != 0
    then p.(simhash := Some(params.simhashOf(p.markdown))) else p
  }

  /** `_ensure_simhashes` on the given rows. */
  ghost predicate Hashed(before: Pages, after: Pages, rows: seq<nat>, params: Params) {
    && |after| == |before|
    && forall i :: 0 <= i < |after| ==> after[i] == if i in rows then WithSimhash(before[i], params) else before[i]
  }

  /** One backfill run: every live page with enough live siblings is purged; all decisions use the same snapshot. */
  function AfterBackfill(pages: Pages, params: Params): Pages {
    seq(|pages|, i requires 0 <= i < |pages| =>
      if !IsLive(pages[i]) then pages[i]
      else
        var p := WithSimhash(pages[i], params);
        if |Siblings(pages, i, Live(pages), params)| >= params.clusterMin then p.(content := Purged) else p)
  }

  /** One recover run: every purged page with too few siblings among all pages is cleared for re-fetching. */
  function AfterRecover(pages: Pages, params: Params): Pages {
    seq(|pages|, i requires 0 <= i < |pages| =>
      var p := WithSimhash(pages[i], params);
      if p.content == Purged && |Siblings(pages, i, All(pages), params)| < params.clusterMin
      then p.(content := Cleared) else p)
  }

  class KnowledgeBase {
    var pages: Pages

    /** `SELECT ... WHERE content_hash <> placeholder`, or all rows. */
    method Fetch(livesOnly: bool) returns (rows: seq<nat>)
      ensures forall r :: r in rows ==> r < |pages|
      ensures forall a, b :: 0 <= a < b < |rows| ==> rows[a] != rows[b]
      ensures Members(rows) == if livesOnly then Live(pages) else All(pages)
    {
      rows := [];
      for i := 0 to |pages|
        invariant forall a :: 0 <= a < |rows| ==> rows[a] < i
        invariant forall a, b :: 0 <= a < b < |rows| ==> rows[a] < rows[b]
        invariant forall j: nat :: j < i ==> (j in rows <==> !livesOnly || IsLive(pages[j]))
      {
        if !livesOnly || IsLive(pages[i]) {
          rows := rows + [i];
        }
      }
    }

    /** Pass 1: fill in missing fingerprints of the fetched rows. */
    method EnsureSimhashes(rows: seq<nat>, params: Params)
      requires forall r :: r in rows ==> r < |pages|
      modifies this
      ensures Hashed(old(pages), pages, rows, params)
    {
      for n := 0 to |rows|
        invariant |pages| == |old(pages)|
        invariant forall i :: 0 <= i < |pages| ==>
          pages[i] == if i in rows[..n] then WithSimhash(old(pages)[i], params) else old(pages)[i]
      {
        assert rows[n] in rows;
        pages := pages[rows[n] := WithSimhash(pages[rows[n]], params)];
      }
      assert rows[..|rows|] == rows;
    }

    /** `backfill_detect_login_walls`; the third count, Qdrant deletes, always equals `flagged`. */
    method Backfill(params: Params) returns (processed: nat, flagged: nat)
      requires UniqueUrls(pages)
      modifies this
      ensures pages == AfterBackfill(old(pages), params)
      ensures processed == |Live(old(pages))|
      ensures flagged == |Live(old(pages)) - Live(pages)|
    {
      hide *;
      var rows := Fetch(true);
      ghost var snapshot := pages;
      EnsureSimhashes(rows, params);
      var hashed := pages;
      SameUrls(snapshot, hashed, rows, params);
      RowsAreSet(rows);
      processed, flagged := |rows|, 0;
      PurgingNothing(snapshot, hashed, rows, params);
      for n := 0 to |rows|
        invariant Purging(snapshot, hashed, pages, rows[..n], params)
        invariant flagged == |FlaggedIn(snapshot, rows[..n], params)|
      {
        var i := rows[n];
        OneMore(rows, n);
        RowIsLive(snapshot, rows, i);
        var count := CountClusterSiblings(hashed, i, rows, params);
        SameCluster(snapshot, hashed, rows, i, Members(rows), params);
        FlaggedIs(snapshot, i, params);
        FlaggedSnoc(snapshot, rows[..n], i, params);
        PurgingSnoc(snapshot, hashed, pages, rows[..n], i, params);
        if count < params.clusterMin {
          continue;
        }
        flagged := flagged + 1;
        pages := pages[i := pages[i].(content := Purged)];
      }
      assert rows[..|rows|] == rows;
      BackfillDone(snapshot, hashed, pages, rows, params);
    }

    /** `recover_purged_pages`. */
    method Recover(params: Params) returns (processed: nat, recovered: nat)
      requires UniqueUrls(pages)
      modifies this
      ensures pages == AfterRecover(old(pages), params)
      ensures processed == |PurgedPages(old(pages))|
      ensures recovered == |PurgedPages(old(pages)) - PurgedPages(pages)|
    {
      hide *;
      var rows := Fetch(false);
      ghost var snapshot := pages;
      EnsureSimhashes(rows, params);
      var hashed := pages;
      SameUrls(snapshot, hashed, rows, params);
      processed, recovered := 0, 0;
      ClearingNothing(snapshot, hashed, rows, params);
      for n := 0 to |rows|
        invariant Clearing(snapshot, hashed, pages, rows[..n], params)
        invariant processed == |PurgedIn(snapshot, rows[..n])|
        invariant recovered == |RecoverableIn(snapshot, rows[..n], params)|
      {
        var i := rows[n];
        assert i in rows;
        OneMore(rows, n);
        RecoverableSnoc(snapshot, rows[..n], i, params);
        ClearingSnoc(snapshot, hashed, pages, rows[..n], i, params);
        RecoverableIs(snapshot, i, params);
        SameContent(snapshot, hashed, rows, i, params);
        if hashed[i].content != Purged {
          continue;
        }
        processed := processed + 1;
        var count := CountClusterSiblings(hashed, i, rows, params);
        SameCluster(snapshot, hashed, rows, i, Members(rows), params);
        if count >= params.clusterMin {
          continue;
        }
        pages := pages[i := pages[i].(content := Cleared)];
        recovered := recovered + 1;
      }
      assert rows[..|rows|] == rows;
      RecoverDone(snapshot, hashed, pages, rows, params);
    }
  }

  /** A live page whose live cluster reached the minimum. */
  predicate Flagged(pages: Pages, i: nat, params: Params) {
    i < |pages| && IsLive(pages[i]) && |Siblings(pages, i, Live(pages), params)| >= params.clusterMin
  }

  /** `now` is `hashed` with the flagged pages among `rows` purged. */
  ghost predicate Purging(before: Pages, hashed: Pages, now: Pages, rows: seq<nat>, params: Params) {
    && |now| == |hashed|
    && forall i :: 0 <= i < |now| ==>
         now[i] == if i in rows && Flagged(before, i, params) then hashed[i].(content := Purged) else hashed[i]
  }

  lemma PurgingNothing(before: Pages, hashed: Pages, rows: seq<nat>, params: Params)
    ensures Purging(before, hashed, hashed, rows[..0], params)
    ensures FlaggedIn(before, rows[..0], params) == {}
  {
  }

  lemma PurgingSnoc(before: Pages, hashed: Pages, now: Pages, rows: seq<nat>, i: nat, params: Params)
    requires Purging(before, hashed, now, rows, params) && i < |hashed| && i !in rows
    ensures |now| == |hashed|
    ensures Purging(before, hashed, if Flagged(before, i, params) then now[i := now[i].(content := Purged)] else now,
                    rows + [i], params)
  {
    hide Flagged;
  }

  /** `now` is `hashed` with the recoverable pages among `rows` cleared. */
  ghost predicate Clearing(before: Pages, hashed: Pages, now: Pages, rows: seq<nat>, params: Params) {
    && |now| == |hashed|
    && forall i :: 0 <= i < |now| ==>
         now[i] == if i in rows && Recoverable(before, i, params) then hashed[i].(content := Cleared) else hashed[i]
  }

  lemma ClearingNothing(before: Pages, hashed: Pages, rows: seq<nat>, params: Params)
    ensures Clearing(before, hashed, hashed, rows[..0], params)
    ensures RecoverableIn(before, rows[..0], params) == {} && PurgedIn(before, rows[..0]) == {}
  {
  }

  lemma ClearingSnoc(before: Pages, hashed: Pages, now: Pages, rows: seq<nat>, i: nat, params: Params)
    requires Clearing(before, hashed, now, rows, params) && i < |hashed| && i !in rows
    ensures |now| == |hashed|
    ensures Clearing(before, hashed,
                     if Recoverable(before, i, params) then now[i := now[i].(content := Cleared)] else now,
                     rows + [i], params)
  {
    hide Recoverable;
  }

  lemma RecoverableIs(pages: Pages, i: nat, params: Params)
    requires i < |pages|
    ensures IsPurged(pages, i) <==> pages[i].content == Purged
    ensures Recoverable(pages, i, params) <==>
      pages[i].content == Purged && |Siblings(pages, i, All(pages), params)| < params.clusterMin
  {
  }

  lemma FlaggedIs(pages: Pages, i: nat, params: Params)
    requires i < |pages| && IsLive(pages[i])
    ensures Flagged(pages, i, params) <==> |Siblings(pages, i, Live(pages), params)| >= params.clusterMin
  {
  }

  /** A purged page whose whole cluster is below the minimum. */
  predicate Recoverable(pages: Pages, i: nat, params: Params) {
    i < |pages| && pages[i].content == Purged && |Siblings(pages, i, All(pages), params)| < params.clusterMin
  }

  predicate IsPurged(pages: Pages, i: nat) {
    i < |pages| && pages[i].content == Purged
  }

  ghost function Chosen(rows: seq<nat>, keep: nat -> bool): set<nat> {
    set i | i in rows && keep(i)
  }

  lemma ChosenSnoc(rows: seq<nat>, i: nat, keep: nat -> bool)
    requires i !in rows
    ensures |Chosen(rows + [i], keep)| == |Chosen(rows, keep)| + (if keep(i) then 1 else 0)
  {
    assert Chosen(rows + [i], keep) == Chosen(rows, keep) + (if keep(i) then {i} else {});
  }

  ghost function FlaggedIn(pages: Pages, rows: seq<nat>, params: Params): set<nat> {
    Chosen(rows, (i: nat) => Flagged(pages, i, params))
  }

  ghost function RecoverableIn(pages: Pages, rows: seq<nat>, params: Params): set<nat> {
    Chosen(rows, (i: nat) => Recoverable(pages, i, params))
  }

  ghost function PurgedIn(pages: Pages, rows: seq<nat>): set<nat> {
    Chosen(rows, (i: nat) => IsPurged(pages, i))
  }

  lemma FlaggedSnoc(pages: Pages, rows: seq<nat>, i: nat, params: Params)
    requires i !in rows
    ensures |FlaggedIn(pages, rows + [i], params)|
         == |FlaggedIn(pages, rows, params)| + (if Flagged(pages, i, params) then 1 else 0)
  {
    hide Flagged;
    ChosenSnoc(rows, i, (i: nat) => Flagged(pages, i, params));
  }

  lemma RecoverableSnoc(pages: Pages, rows: seq<nat>, i: nat, params: Params)
    requires i !in rows
    ensures |RecoverableIn(pages, rows + [i], params)|
         == |RecoverableIn(pages, rows, params)| + (if Recoverable(pages, i, params) then 1 else 0)
    ensures |PurgedIn(pages, rows + [i])| == |PurgedIn(pages, rows)| + (if IsPurged(pages, i) then 1 else 0)
  {
    hide Recoverable, IsPurged;
    ChosenSnoc(rows, i, (i: nat) => Recoverable(pages, i, params));
    ChosenSnoc(rows, i, (i: nat) => IsPurged(pages, i));
  }

  lemma RowIsLive(pages: Pages, rows: seq<nat>, i: nat)
    requires Members(rows) == Live(pages) && i in rows
    ensures i < |pages| && IsLive(pages[i])
  {
    assert i in Members(rows);
  }

  lemma BackfillDone(before: Pages, hashed: Pages, after: Pages, rows: seq<nat>, params: Params)
    requires Members(rows) == Live(before)
    requires Hashed(before, hashed, rows, params)
    requires Purging(before, hashed, after, rows, params)
    ensures after == AfterBackfill(before, params)
    ensures FlaggedIn(before, rows, params) == Live(before) - Live(after)
  {
    hide Siblings;
    forall i: nat | i < |before| ensures i in rows <==> IsLive(before[i]) {
      assert i in rows <==> i in Members(rows);
    }
    forall i: nat ensures i in FlaggedIn(before, rows, params) <==> i in Live(before) - Live(after) {
      assert i in rows ==> i in Members(rows);
    }
  }

  lemma RecoverDone(before: Pages, hashed: Pages, after: Pages, rows: seq<nat>, params: Params)
    requires Members(rows) == All(before)
    requires Hashed(before, hashed, rows, params)
    requires Clearing(before, hashed, after, rows, params)
    ensures after == AfterRecover(before, params)
    ensures RecoverableIn(before, rows, params) == PurgedPages(before) - PurgedPages(after)
    ensures PurgedIn(before, rows) == PurgedPages(before)
  {
    hide Siblings;
    forall i: nat ensures i in rows <==> i < |before| {
      assert i in rows <==> i in Members(rows);
      assert i in All(before) <==> i < |before| && IsRow(before, i);
    }
  }

  lemma RowsAreSet(rows: seq<nat>)
    requires forall a, b :: 0 <= a < b < |rows| ==> rows[a] != rows[b]
    ensures |Members(rows)| == |rows|
  {
    if rows != [] {
      var front, last := rows[..|rows| - 1], rows[|rows| - 1];
      RowsAreSet(front);
      assert rows == front + [last];
      assert Members(rows) == Members(front) + {last};
    }
  }

  /** Storing fingerprints changes no cluster. */
  lemma SameCluster(before: Pages, after: Pages, rows: seq<nat>, i: nat, among: set<nat>, params: Params)
    requires Hashed(before, after, rows, params) && i < |before|
    ensures |after| == |before| && Siblings(after, i, among, params) == Siblings(before, i, among, params)
  {
    assert forall j: nat :: j < |before| ==> Fingerprint(after[j], params) == Fingerprint(before[j], params);
  }

  lemma SameUrls(before: Pages, after: Pages, rows: seq<nat>, params: Params)
    requires Hashed(before, after, rows, params) && UniqueUrls(before)
    ensures UniqueUrls(after) && |after| == |before|
  {
  }

  lemma SameContent(before: Pages, after: Pages, rows: seq<nat>, i: nat, params: Params)
    requires Hashed(before, after, rows, params) && i < |before|
    ensures |after| == |before| && after[i].content == before[i].content
  {
  }

  // ----- Whole runs

  datatype Task = Backfill | Recover

  function Apply(pages: Pages, task: Task, params: Params): Pages {
    match task
    case Backfill => AfterBackfill(pages, params)
    case Recover => AfterRecover(pages, params)
  }

  function Run(pages: Pages, tasks: seq<Task>, params: Params): (r: Pages)
    ensures |r| == |pages|
  {
    if tasks == [] then pages else Apply(Run(pages, tasks[..|tasks| - 1], params), tasks[|tasks| - 1], params)
  }

  // ----- What one task does to one page, without its cluster function

  /** `h` is the usable fingerprint of a page: stored, or computed where none is stored, and not 0. */
  predicate Shows(p: Page, h: int, params: Params) {
    h != 0 && (p.simhash == Some(h) || (p.simhash == None && h == params.simhashOf(p.markdown)))
  }

  ghost predicate Alike(p: Page, q: Page, params: Params) {
    exists h, k :: Shows(p, h, params) && Shows(q, k, params) && params.distance(h, k) <= params.hammingMax
  }

  /** Some `clusterMin` other pages are alike to page `i`, all of them live if `live` says so. */
  ghost predicate Crowded(pages: Pages, i: nat, live: bool, params: Params)
    requires i < |pages|
  {
    exists others: set<nat> :: |others| >= params.clusterMin && OtherTwins(pages, i, others, live, params)
  }

  ghost predicate OtherTwins(pages: Pages, i: nat, others: set<nat>, live: bool, params: Params)
    requires i < |pages|
  {
    forall j :: j in others ==>
      && j < |pages| && j != i
      && Alike(pages[i], pages[j], params)
      && (live ==> pages[j].content != Purged && pages[j].content != Missing)
  }

  lemma AlikeIsNear(pages: Pages, i: nat, j: nat, params: Params)
    requires i < |pages| && j < |pages|
    ensures Alike(pages[i], pages[j], params) <==> Near(pages, i, j, params)
  {
    var a, b := Fingerprint(pages[i], params), Fingerprint(pages[j], params);
    assert a != 0 ==> Shows(pages[i], a, params);
    assert b != 0 ==> Shows(pages[j], b, params);
  }

  lemma CrowdedIs(pages: Pages, i: nat, live: bool, params: Params)
    requires i < |pages|
    ensures Crowded(pages, i, live, params)
      <==> |Siblings(pages, i, if live then Live(pages) else All(pages), params)| >= params.clusterMin
  {
    hide Near, Alike;
    var among := if live then Live(pages) else All(pages);
    var siblings := Siblings(pages, i, among, params);
    forall j: nat | j < |pages| ensures Alike(pages[i], pages[j], params) <==> Near(pages, i, j, params) {
      AlikeIsNear(pages, i, j, params);
    }
    forall j: nat | j < |pages| ensures j in All(pages) {
      assert IsRow(pages, j);
    }
    assert OtherTwins(pages, i, siblings, live, params);
    if others: set<nat> :| |others| >= params.clusterMin && OtherTwins(pages, i, others, live, params) {
      assert others <= siblings;
      SubsetSize(others, siblings);
    }
  }

  /**
   * What one task does to each page: backfill purges exactly the live ones with enough live twins, recover clears
   * exactly the purged ones without enough twins of any kind. Nothing else of a page changes, except that a missing
   * fingerprint other than 0 is stored - by backfill for live pages only.
   */
  lemma TaskIsExact(pages: Pages, task: Task, i: nat, params: Params)
    requires i < |pages|
    ensures |Apply(pages, task, params)| == |pages|
    ensures var before, after := pages[i], Apply(pages, task, params)[i];
      var live := before.content != Purged && before.content != Missing;
      && after.url == before.url && after.markdown == before.markdown
      && after.content == (
           if task == Backfill && live && Crowded(pages, i, true, params) then Purged
           else if task == Recover && before.content == Purged && !Crowded(pages, i, false, params) then Cleared
           else before.content)
      && after.simhash == (
           if before.simhash == None && params.simhashOf(before.markdown) != 0 && (task == Recover || live)
           then Some(params.simhashOf(before.markdown)) else before.simhash)
  {
    hide Siblings, Crowded;
    CrowdedIs(pages, i, true, params);
    CrowdedIs(pages, i, false, params);
  }

  /** How often page `i` changed between purged and not purged over a run. */
  function Flips(pages: Pages, tasks: seq<Task>, i: nat, params: Params): nat
    requires i < |pages|
  {
    if tasks == [] then 0
    else
      var before := tasks[..|tasks| - 1];
      Flips(pages, before, i, params)
        + (if Run(pages, before, params)[i].content == Purged <==> Run(pages, tasks, params)[i].content == Purged
           then 0 else 1)
  }

  /** A run keeps pages and clusters; only purge state and stored fingerprints change. */
  lemma {:induction false} RunKeepsClusters(pages: Pages, tasks: seq<Task>, params: Params)
    ensures var after := Run(pages, tasks, params);
      forall i: nat :: i < |pages| ==>
        after[i].url == pages[i].url && Fingerprint(after[i], params) == Fingerprint(pages[i], params)
  {
    if tasks != [] {
      RunKeepsClusters(pages, tasks[..|tasks| - 1], params);
    }
  }

  lemma ClusterIsFixed(pages: Pages, after: Pages, i: nat, params: Params)
    requires |after| == |pages| && i < |pages|
    requires forall j: nat :: j < |pages| ==> Fingerprint(after[j], params) == Fingerprint(pages[j], params)
    ensures Siblings(after, i, All(after), params) == Siblings(pages, i, All(pages), params)
    ensures |Siblings(after, i, Live(after), params)| <= |Siblings(pages, i, All(pages), params)|
  {
    var some, all := Siblings(after, i, Live(after), params), Siblings(pages, i, All(pages), params);
    assert some <= all;
    SubsetSize(some, all);
  }

  /** A page can be purged only while its whole cluster is large, and recovered only while it is small. */
  lemma FlipNeedsCluster(pages: Pages, tasks: seq<Task>, i: nat, params: Params)
    requires tasks != [] && i < |pages|
    ensures var before, after := Run(pages, tasks[..|tasks| - 1], params)[i], Run(pages, tasks, params)[i];
      var cluster := |Siblings(pages, i, All(pages), params)|;
      && (before.content != Purged && after.content == Purged ==> cluster >= params.clusterMin)
      && (before.content == Purged && after.content != Purged ==> cluster < params.clusterMin)
  {
    hide Siblings, Apply, Fingerprint;
    var before := Run(pages, tasks[..|tasks| - 1], params);
    RunKeepsClusters(pages, tasks[..|tasks| - 1], params);
    ClusterIsFixed(pages, before, i, params);
    FlipOfOne(before, tasks[|tasks| - 1], i, params);
  }

  lemma FlipOfOne(pages: Pages, task: Task, i: nat, params: Params)
    requires i < |pages|
    ensures |Apply(pages, task, params)| == |pages|
    ensures var before, after := pages[i].content, Apply(pages, task, params)[i].content;
      && (before != Purged && after == Purged ==> |Siblings(pages, i, Live(pages), params)| >= params.clusterMin)
      && (before == Purged && after != Purged ==> |Siblings(pages, i, All(pages), params)| < params.clusterMin)
  {
    hide Siblings;
  }

  /**
   * No ping-pong: over any interleaving of backfill and recover runs without new crawls, every page changes its purge
   * state at most once; which way it can go is decided by its whole cluster alone.
   */
  lemma {:induction false} NoPingPong(pages: Pages, tasks: seq<Task>, i: nat, params: Params)
    requires i < |pages|
    ensures Flips(pages, tasks, i, params) <= 1
    ensures Flips(pages, tasks, i, params) == 1 ==>
      (Run(pages, tasks, params)[i].content == Purged
       <==> |Siblings(pages, i, All(pages), params)| >= params.clusterMin)
    ensures Flips(pages, tasks, i, params) == 0 ==>
      (Run(pages, tasks, params)[i].content == Purged <==> pages[i].content == Purged)
  {
    hide Apply;
    if tasks != [] {
      NoPingPong(pages, tasks[..|tasks| - 1], i, params);
      FlipNeedsCluster(pages, tasks, i, params);
    }
  }

  /** A second backfill in a row flags nothing and changes nothing. */
  lemma BackfillIsIdempotent(pages: Pages, params: Params)
    ensures AfterBackfill(AfterBackfill(pages, params), params) == AfterBackfill(pages, params)
  {
    var once := AfterBackfill(pages, params);
    forall i | 0 <= i < |pages| ensures AfterBackfill(once, params)[i] == once[i] {
      if IsLive(once[i]) {
        assert forall j: nat :: j < |pages| ==> Fingerprint(once[j], params) == Fingerprint(pages[j], params);
        var later, first := Siblings(once, i, Live(once), params), Siblings(pages, i, Live(pages), params);
        assert later <= first;
        SubsetSize(later, first);
      }
    }
  }
}
