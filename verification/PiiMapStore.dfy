/**
 * The bounded, TTL-swept store of restore maps (deploy/litellm/klai_pii_map_store.py).
 */
module MapStore {
  import opened Sequences
  import opened Strings
  import opened Sets

  type Mapping = map<string, string>

  datatype Entry = Entry(id: string, mapping: Mapping, createdAt: real)

  function Ids(entries: seq<Entry>): set<string> {
    if entries == [] then {} else {entries[0].id} + Ids(entries[1..])
  }

  function Fresh(e: Entry, now: real, ttl: real): seq<Entry> {
    if now - e.createdAt > ttl then [] else [e]
  }

  /** The entries a sweep at `now` leaves, in their order. */
  function Kept(entries: seq<Entry>, now: real, ttl: real): seq<Entry> {
    if entries == [] then []
    else Fresh(entries[0], now, ttl) + Kept(entries[1..], now, ttl)
  }

  function Without(entries: seq<Entry>, id: string): seq<Entry> {
    if entries == [] then []
    else (if entries[0].id == id then [] else [entries[0]]) + Without(entries[1..], id)
  }

  function Lookup(entries: seq<Entry>, id: string): Option<Mapping> {
    if entries == [] then None
    else if entries[0].id == id then Some(entries[0].mapping)
    else Lookup(entries[1..], id)
  }

  /** The newest `n` entries. */
  function Newest(entries: seq<Entry>, n: nat): seq<Entry> {
    if |entries| <= n then entries else entries[|entries| - n..]
  }

  predicate Distinct(entries: seq<Entry>) {
    forall i, j :: 0 <= i < j < |entries| ==> entries[i].id != entries[j].id
  }

  lemma {:induction false} KeptSnoc(entries: seq<Entry>, e: Entry, now: real, ttl: real)
    ensures Kept(entries + [e], now, ttl)
         == Kept(entries, now, ttl) + (if now - e.createdAt > ttl then [] else [e])
  {
    if entries == [] {
      assert (entries + [e])[1..] == [];
    } else {
      assert (entries + [e])[1..] == entries[1..] + [e];
      KeptSnoc(entries[1..], e, now, ttl);
      var head, last := Fresh(entries[0], now, ttl), Fresh(e, now, ttl);
      hide Fresh;
      assert head + (Kept(entries[1..], now, ttl) + last) == head + Kept(entries[1..], now, ttl) + last;
    }
  }

  lemma {:induction false} WithoutAt(entries: seq<Entry>, i: nat)
    requires Distinct(entries) && i < |entries|
    ensures Without(entries, entries[i].id) == entries[..i] + entries[i + 1..]
  {
    if i == 0 {
      WithoutAbsent(entries[1..], entries[0].id);
      assert entries[..0] == [];
    } else {
      var tail, id := entries[1..], entries[i].id;
      assert tail[i - 1] == entries[i];
      WithoutAt(tail, i - 1);
      assert Without(entries, id) == [entries[0]] + Without(tail, id);
      hide Without, Distinct;
      assert entries[..i] == [entries[0]] + tail[..i - 1];
      assert entries[i + 1..] == tail[i..];
      assert [entries[0]] + (tail[..i - 1] + tail[i..]) == ([entries[0]] + tail[..i - 1]) + tail[i..];
    }
  }

  lemma {:induction false} WithoutAbsent(entries: seq<Entry>, id: string)
    requires forall i :: 0 <= i < |entries| ==> entries[i].id != id
    ensures Without(entries, id) == entries
  {
    if entries != [] {
      WithoutAbsent(entries[1..], id);
    }
  }

  lemma {:induction false} KeptFacts(entries: seq<Entry>, now: real, ttl: real)
    ensures |Kept(entries, now, ttl)| <= |entries|
    ensures forall e :: e in Kept(entries, now, ttl) <==> e in entries && now - e.createdAt <= ttl
    ensures Distinct(entries) ==> Distinct(Kept(entries, now, ttl))
  {
    if entries != [] {
      KeptFacts(entries[1..], now, ttl);
      assert entries == [entries[0]] + entries[1..];
    }
  }

  lemma {:induction false} WithoutFacts(entries: seq<Entry>, id: string)
    ensures |Without(entries, id)| <= |entries|
    ensures forall e :: e in Without(entries, id) <==> e in entries && e.id != id
    ensures Distinct(entries) ==> Distinct(Without(entries, id))
  {
    if entries != [] {
      WithoutFacts(entries[1..], id);
      assert entries == [entries[0]] + entries[1..];
      var rest := Without(entries[1..], id);
      hide Without;
      if Distinct(entries) && entries[0].id != id {
        DistinctCons(entries[0], entries[1..], rest);
      }
    }
  }

  lemma DistinctCons(e: Entry, all: seq<Entry>, kept: seq<Entry>)
    requires Distinct([e] + all) && Distinct(kept) && forall x :: x in kept ==> x in all
    ensures Distinct([e] + kept)
  {
    forall j | 0 <= j < |kept| ensures kept[j].id != e.id {
      assert kept[j] in all;
      var k :| 0 <= k < |all| && all[k] == kept[j];
      assert ([e] + all)[0].id != ([e] + all)[k + 1].id;
    }
  }

  lemma NewestIs(room: seq<Entry>, dropped: nat, maxEntries: nat)
    requires 1 <= maxEntries && |room| <= maxEntries && dropped <= |room|
    requires |room[dropped..]| < maxEntries && (dropped == 0 || |room[dropped..]| >= maxEntries - 1)
    ensures room[dropped..] == Newest(room, maxEntries - 1)
  {
  }

  lemma DropOldest(room: seq<Entry>, dropped: nat)
    requires dropped < |room|
    ensures room[dropped..][1..] == room[dropped + 1..] && |room[dropped + 1..]| == |room| - dropped - 1
  {
  }

  predicate NoEntry(entries: seq<Entry>, id: string) {
    forall e :: e in entries ==> e.id != id
  }

  lemma DiscardedIsAbsent(entries: seq<Entry>, id: string)
    ensures NoEntry(Without(entries, id), id) && |Without(entries, id)| <= |entries|
  {
    WithoutFacts(entries, id);
  }

  lemma DistinctEnd(room: seq<Entry>, dropped: nat, e: Entry)
    requires Distinct(room) && dropped <= |room| && NoEntry(room, e.id)
    ensures Distinct(room[dropped..] + [e])
  {
  }

  datatype PutResult = Stored | EmptyCallId

  class PiiMapStore {
    const maxEntries: nat
    const ttl: real
    var entries: seq<Entry>

    ghost predicate Valid()
      reads this
    {
      1 <= maxEntries && ttl > 0.0 && Distinct(entries) && |entries| <= maxEntries
    }

    constructor (maxEntries: nat, ttl: real)
      requires 1 <= maxEntries && ttl > 0.0
      ensures Valid() && entries == []
      ensures this.maxEntries == maxEntries && this.ttl == ttl
    {
      this.maxEntries, this.ttl, entries := maxEntries, ttl, [];
    }

    /** The constructor as callers meet it: bounds that make no sense are refused. */
    static method Create(maxEntries: int, ttl: real) returns (r: Option<PiiMapStore>)
      ensures r.None? <==> maxEntries < 1 || ttl <= 0.0
      ensures r.Some? ==> fresh(r.value) && r.value.Valid() && r.value.entries == []
      ensures r.Some? ==> r.value.maxEntries == maxEntries && r.value.ttl == ttl
    {
      if maxEntries < 1 || ttl <= 0.0 {
        return None;
      }
      var store := new PiiMapStore(maxEntries, ttl);
      return Some(store);
    }

    /** `_sweep_expired`: collect the expired, then delete them. */
    method SweepExpired(now: real)
      requires Valid()
      modifies this`entries
      ensures Valid()
      ensures entries == Kept(old(entries), now, ttl)
    {
      var kept: seq<Entry> := [];
      for i := 0 to |entries|
        invariant entries == old(entries)
        invariant kept == Kept(entries[..i], now, ttl)
      {
        assert entries[..i + 1] == entries[..i] + [entries[i]];
        KeptSnoc(entries[..i], entries[i], now, ttl);
        if !(now - entries[i].createdAt > ttl) {
          kept := kept + [entries[i]];
        }
      }
      assert entries[..|entries|] == entries;
      KeptFacts(entries, now, ttl);
      entries := kept;
    }

    method Find(id: string) returns (index: int)
      ensures -1 <= index < |entries|
      ensures index >= 0 ==> entries[index].id == id
      ensures index < 0 ==> forall i :: 0 <= i < |entries| ==> entries[i].id != id
    {
      for i := 0 to |entries|
        invariant forall k :: 0 <= k < i ==> entries[k].id != id
      {
        if entries[i].id == id {
          return i;
        }
      }
      return -1;
    }

    /** `discard`: safe when absent. */
    method Discard(id: string)
      requires Valid()
      modifies this`entries
      ensures Valid()
      ensures entries == if id == "" then old(entries) else Without(old(entries), id)
    {
      if id == "" {
        return;
      }
      hide Without;
      WithoutFacts(entries, id);
      var i := Find(id);
      if i >= 0 {
        WithoutAt(entries, i);
        entries := entries[..i] + entries[i + 1..];
      } else {
        WithoutAbsent(entries, id);
      }
    }

    /** `put`: sweep, drop the call's own old map, evict oldest-first until there is room, store. */
    method Put(id: string, mapping: Mapping, sweepTime: real, storeTime: real) returns (r: PutResult)
      requires Valid()
      modifies this`entries
      ensures Valid()
      ensures r == if id == "" then EmptyCallId else Stored
      ensures entries == if id == "" then old(entries)
                         else AfterPut(old(entries), id, mapping, sweepTime, storeTime, maxEntries, ttl)
    {
      if id == "" {
        return EmptyCallId;
      }
      hide Kept, Without, Newest, Distinct, NoEntry;
      SweepExpired(sweepTime);
      Discard(id);
      DiscardedIsAbsent(Kept(old(entries), sweepTime, ttl), id);
      ghost var room, dropped := entries, 0;
      while |entries| >= maxEntries
        invariant 0 <= dropped <= |room| && entries == room[dropped..]
        invariant dropped == 0 || |entries| >= maxEntries - 1
      {
        DropOldest(room, dropped);
        entries := entries[1..];
        dropped := dropped + 1;
      }
      NewestIs(room, dropped, maxEntries);
      DistinctEnd(room, dropped, Entry(id, mapping, storeTime));
      entries := entries + [Entry(id, mapping, storeTime)];
      return Stored;
    }

    /** `get`: a read that sweeps first. */
    method Get(id: string, now: real) returns (r: Option<Mapping>)
      requires Valid()
      modifies this`entries
      ensures Valid()
      ensures entries == if id == "" then old(entries) else Kept(old(entries), now, ttl)
      ensures r == if id == "" then None else Lookup(entries, id)
    {
      if id == "" {
        return None;
      }
      SweepExpired(now);
      var i := Find(id);
      LookupIs(entries, id, i);
      return if i >= 0 then Some(entries[i].mapping) else None;
    }
  }

  function AfterPut(entries: seq<Entry>, id: string, mapping: Mapping, sweepTime: real, storeTime: real,
                    maxEntries: nat, ttl: real): seq<Entry>
  {
    Newest(Without(Kept(entries, sweepTime, ttl), id), if maxEntries >= 1 then maxEntries - 1 else 0)
      + [Entry(id, mapping, storeTime)]
  }

  lemma {:induction false} LookupIs(entries: seq<Entry>, id: string, index: int)
    requires -1 <= index < |entries|
    requires index >= 0 ==> entries[index].id == id && Distinct(entries)
    requires index < 0 ==> forall i :: 0 <= i < |entries| ==> entries[i].id != id
    ensures Lookup(entries, id) == if index >= 0 then Some(entries[index].mapping) else None
  {
    if entries != [] && index != 0 {
      assert index > 0 ==> entries[1..][index - 1] == entries[index];
      LookupIs(entries[1..], id, if index > 0 then index - 1 else index);
    }
  }

  // ----- Whole runs

  datatype Op =
    | Put(id: string, mapping: Mapping, sweepTime: real, storeTime: real)
    | Get(id: string, time: real)
    | Discard(id: string)
    | Sweep(time: real)

  function Apply(entries: seq<Entry>, op: Op, maxEntries: nat, ttl: real): seq<Entry> {
    match op
    case Put(id, mapping, sweepTime, storeTime) =>
      if id == "" then entries else AfterPut(entries, id, mapping, sweepTime, storeTime, maxEntries, ttl)
    case Get(id, time) => if id == "" then entries else Kept(entries, time, ttl)
    case Discard(id) => if id == "" then entries else Without(entries, id)
    case Sweep(time) => Kept(entries, time, ttl)
  }

  /** The store after a run of operations on an empty store. */
  function Run(ops: seq<Op>, maxEntries: nat, ttl: real): seq<Entry> {
    if ops == [] then []
    else Apply(Run(ops[..|ops| - 1], maxEntries, ttl), ops[|ops| - 1], maxEntries, ttl)
  }

  /** The latest clock reading of a run that began at `start`. */
  function Clock(ops: seq<Op>, start: real): real {
    if ops == [] then start
    else
      var before := Clock(ops[..|ops| - 1], start);
      match ops[|ops| - 1]
      case Put(_, _, _, storeTime) => storeTime
      case Get(_, time) => time
      case Discard(_) => before
      case Sweep(time) => time
  }

  /** The clock never runs backwards. */
  ghost predicate Monotone(ops: seq<Op>, start: real) {
    if ops == [] then true
    else
      var before := Clock(ops[..|ops| - 1], start);
      && Monotone(ops[..|ops| - 1], start)
      && match ops[|ops| - 1]
         case Put(_, _, sweepTime, storeTime) => before <= sweepTime <= storeTime
         case Get(_, time) => before <= time
         case Discard(_) => true
         case Sweep(time) => before <= time
  }

  /**
   * What the history says about one id: its last map that was not discarded, the other ids that were put since and are
   * not discarded again, and how many of these there ever were at once.
   */
  datatype Record = Absent | Current(mapping: Mapping, createdAt: real, behind: set<string>, most: nat)

  function Crowded(r: Record, put: string): Record
    requires r.Current?
  {
    var behind := r.behind + {put};
    Current(r.mapping, r.createdAt, behind, if |behind| > r.most then |behind| else r.most)
  }

  function Updated(before: Record, op: Op, id: string): Record {
    match op
    case Put(put, mapping, _, storeTime) =>
      if put == "" then before
      else if put == id then Current(mapping, storeTime, {}, 0)
      else if before.Current? then Crowded(before, put) else before
    case Discard(gone) =>
      if gone == "" then before
      else if gone == id then Absent
      else if before.Current? then before.(behind := before.behind - {gone}) else before
    case _ => before
  }

  function History(ops: seq<Op>, id: string): Record {
    if ops == [] then Absent else Updated(History(ops[..|ops| - 1], id), ops[|ops| - 1], id)
  }

  /**
   * `e` is the current map of its id, never crowded out, and `rest` holds all that was put after it, less the ids that
   * are `gone` for the moment.
   */
  ghost predicate Heads(e: Entry, rest: seq<Entry>, ops: seq<Op>, gone: set<string>, maxEntries: nat) {
    var h := History(ops, e.id);
    && e.id != "" && h.Current? && h.mapping == e.mapping && h.createdAt == e.createdAt && h.most < maxEntries
    && e.id !in h.behind && Ids(rest) == h.behind - gone
    && forall x :: x in rest ==> e.createdAt <= x.createdAt
  }

  ghost predicate Tracked(entries: seq<Entry>, ops: seq<Op>, gone: set<string>, maxEntries: nat) {
    entries == [] ||
    (Heads(entries[0], entries[1..], ops, gone, maxEntries) && Tracked(entries[1..], ops, gone, maxEntries))
  }

  /** Why an id with a current map may be missing: too old, or crowded out by others. */
  ghost predicate Explained(entries: seq<Entry>, ops: seq<Op>, start: real, maxEntries: nat, ttl: real) {
    forall id :: History(ops, id).Current? && id !in Ids(entries) ==>
      Clock(ops, start) - History(ops, id).createdAt > ttl || History(ops, id).most >= maxEntries
  }

  /** The entry of an id that is present: its map is the current one, and it was never crowded out. */
  lemma {:induction false} TrackedLookup(entries: seq<Entry>, ops: seq<Op>, maxEntries: nat, id: string)
    requires Tracked(entries, ops, {}, maxEntries)
    ensures id in Ids(entries) ==>
      History(ops, id).Current? && Lookup(entries, id) == Some(History(ops, id).mapping)
      && History(ops, id).most < maxEntries
    ensures id !in Ids(entries) ==> Lookup(entries, id) == None
    ensures id in Ids(entries) ==>
      exists e :: e in entries && e.id == id && e.createdAt == History(ops, id).createdAt
  {
    hide History;
    if entries != [] {
      TrackedLookup(entries[1..], ops, maxEntries, id);
      assert entries[0] in entries;
      assert forall e :: e in entries[1..] ==> e in entries;
    }
  }

  lemma {:induction false} TrackedIsDistinct(entries: seq<Entry>, ops: seq<Op>, gone: set<string>, maxEntries: nat)
    requires Tracked(entries, ops, gone, maxEntries)
    ensures |Ids(entries)| == |entries|
  {
    hide History;
    if entries != [] {
      TrackedIsDistinct(entries[1..], ops, gone, maxEntries);
    }
  }

  lemma TrackedEmpty(ops: seq<Op>, gone: set<string>, maxEntries: nat)
    ensures Tracked([], ops, gone, maxEntries) && Ids([]) == {}
  {
  }

  lemma TrackedParts(entries: seq<Entry>, ops: seq<Op>, gone: set<string>, maxEntries: nat)
    requires Tracked(entries, ops, gone, maxEntries) && entries != []
    ensures Heads(entries[0], entries[1..], ops, gone, maxEntries) && Tracked(entries[1..], ops, gone, maxEntries)
    ensures Ids(entries) == {entries[0].id} + Ids(entries[1..])
    ensures entries == [entries[0]] + entries[1..]
    ensures entries[0].id !in Ids(entries[1..])
    ensures History(ops, entries[0].id).Current? && History(ops, entries[0].id).createdAt == entries[0].createdAt
  {
    hide History;
  }

  lemma TrackedCons(e: Entry, rest: seq<Entry>, ops: seq<Op>, gone: set<string>, maxEntries: nat)
    requires Heads(e, rest, ops, gone, maxEntries) && Tracked(rest, ops, gone, maxEntries)
    ensures Tracked([e] + rest, ops, gone, maxEntries) && Ids([e] + rest) == {e.id} + Ids(rest)
  {
    hide History, Heads;
    assert ([e] + rest)[1..] == rest;
  }

  lemma KeptCons(e: Entry, rest: seq<Entry>, now: real, ttl: real)
    ensures Kept([e] + rest, now, ttl) == (if now - e.createdAt > ttl then [] else [e]) + Kept(rest, now, ttl)
    ensures Kept([], now, ttl) == []
  {
    assert ([e] + rest)[1..] == rest;
  }

  lemma WithoutCons(e: Entry, rest: seq<Entry>, id: string)
    ensures Without([e] + rest, id) == (if e.id == id then [] else [e]) + Without(rest, id)
    ensures Without([], id) == []
  {
    assert ([e] + rest)[1..] == rest;
  }

  lemma {:induction false} AllKept(entries: seq<Entry>, now: real, ttl: real)
    requires forall e :: e in entries ==> now - e.createdAt <= ttl
    ensures Kept(entries, now, ttl) == entries
  {
    if entries != [] {
      assert entries == [entries[0]] + entries[1..];
      assert forall e :: e in entries[1..] ==> e in entries;
      AllKept(entries[1..], now, ttl);
    }
  }

  /** A sweep takes from the old end: what is behind a fresh entry is fresh. */
  lemma {:induction false} KeptTracked(entries: seq<Entry>, ops: seq<Op>, maxEntries: nat, now: real, ttl: real)
    requires Tracked(entries, ops, {}, maxEntries)
    ensures Tracked(Kept(entries, now, ttl), ops, {}, maxEntries)
    ensures Ids(Kept(entries, now, ttl)) <= Ids(entries)
    ensures forall id :: id in Ids(entries) && id !in Ids(Kept(entries, now, ttl)) ==>
      History(ops, id).Current? && now - History(ops, id).createdAt > ttl
    ensures forall e :: e in Kept(entries, now, ttl) ==> e in entries
  {
    hide *;
    if entries == [] {
      KeptCons(Entry("", map[], now), [], now, ttl);
    } else {
      var e, rest := entries[0], entries[1..];
      TrackedParts(entries, ops, {}, maxEntries);
      if now - e.createdAt > ttl {
        KeptTracked(rest, ops, maxEntries, now, ttl);
        KeptCons(e, rest, now, ttl);
        assert [] + Kept(rest, now, ttl) == Kept(rest, now, ttl);
      } else {
        BehindIsFresh(e, rest, ops, maxEntries);
        AllKept(entries, now, ttl);
      }
    }
  }

  lemma BehindIsFresh(e: Entry, rest: seq<Entry>, ops: seq<Op>, maxEntries: nat)
    requires Heads(e, rest, ops, {}, maxEntries)
    ensures forall x :: x in [e] + rest ==> e.createdAt <= x.createdAt
  {
    hide History;
  }

  lemma {:induction false} WithoutTracked(entries: seq<Entry>, ops: seq<Op>, maxEntries: nat, id: string)
    requires Tracked(entries, ops, {}, maxEntries)
    ensures Tracked(Without(entries, id), ops, {id}, maxEntries)
    ensures Ids(Without(entries, id)) == Ids(entries) - {id}
    ensures forall e :: e in Without(entries, id) ==> e in entries
  {
    hide *;
    TrackedEmpty(ops, {id}, maxEntries);
    if entries == [] {
      WithoutCons(Entry("", map[], 0.0), [], id);
    } else {
      var e, rest := entries[0], entries[1..];
      TrackedParts(entries, ops, {}, maxEntries);
      WithoutTracked(rest, ops, maxEntries, id);
      WithoutCons(e, rest, id);
      assert [] + Without(rest, id) == Without(rest, id);
      if e.id != id {
        HeadsWithout(e, rest, Without(rest, id), ops, maxEntries, id);
        TrackedCons(e, Without(rest, id), ops, {id}, maxEntries);
      }
    }
  }

  lemma HeadsWithout(e: Entry, rest: seq<Entry>, part: seq<Entry>, ops: seq<Op>, maxEntries: nat, id: string)
    requires Heads(e, rest, ops, {}, maxEntries)
    requires Ids(part) == Ids(rest) - {id} && forall x :: x in part ==> x in rest
    ensures Heads(e, part, ops, {id}, maxEntries)
  {
    hide History, Ids;
  }

  /** At least `n` others are still behind the current map of `id`. */
  ghost predicate Behind(ops: seq<Op>, id: string, gone: set<string>, n: nat) {
    History(ops, id).Current? && |History(ops, id).behind - gone| >= n
  }

  /** Eviction takes from the old end, and only what `n` others already stand behind. */
  lemma {:induction false} NewestTracked(entries: seq<Entry>, ops: seq<Op>, gone: set<string>, maxEntries: nat, n: nat)
    requires Tracked(entries, ops, gone, maxEntries)
    ensures Tracked(Newest(entries, n), ops, gone, maxEntries)
    ensures Ids(Newest(entries, n)) <= Ids(entries)
    ensures forall e :: e in Newest(entries, n) ==> e in entries
    ensures forall id :: id in Ids(entries) && id !in Ids(Newest(entries, n)) ==> Behind(ops, id, gone, n)
  {
    if |entries| > n {
      var e, rest := entries[0], entries[1..];
      assert Newest(entries, n) == Newest(rest, n);
      hide Newest, Ids, History, Tracked, Behind, Heads;
      TrackedParts(entries, ops, gone, maxEntries);
      NewestTracked(rest, ops, gone, maxEntries, n);
      HeadIsBehind(e, rest, ops, gone, maxEntries, n);
    }
  }

  lemma HeadIsBehind(e: Entry, rest: seq<Entry>, ops: seq<Op>, gone: set<string>, maxEntries: nat, n: nat)
    requires Heads(e, rest, ops, gone, maxEntries) && Tracked(rest, ops, gone, maxEntries) && |rest| >= n
    ensures Behind(ops, e.id, gone, n)
  {
    hide History;
    TrackedIsDistinct(rest, ops, gone, maxEntries);
  }

  /** Another id's `put` puts it behind everything present; while there is room, that crowds nobody out. */
  lemma {:induction false} RivalTracked(entries: seq<Entry>, ops: seq<Op>, maxEntries: nat, op: Op)
    requires op.Put? && op.id != "" && op.id !in Ids(entries) && |entries| < maxEntries
    requires Tracked(entries, ops, {op.id}, maxEntries)
    requires forall e :: e in entries ==> e.createdAt <= op.storeTime
    ensures Tracked(entries + [Entry(op.id, op.mapping, op.storeTime)], ops + [op], {}, maxEntries)
    ensures Ids(entries + [Entry(op.id, op.mapping, op.storeTime)]) == Ids(entries) + {op.id}
  {
    hide *;
    var e := Entry(op.id, op.mapping, op.storeTime);
    if entries == [] {
      NewestEntry(ops, maxEntries, op);
      assert [] + [e] == [e];
    } else {
      var head, rest := entries[0], entries[1..];
      TrackedParts(entries, ops, {op.id}, maxEntries);
      assert head in entries && forall x :: x in rest ==> x in entries;
      RivalTracked(rest, ops, maxEntries, op);
      TrackedIsDistinct(rest, ops, {op.id}, maxEntries);
      HeadsPut(head, rest, rest + [e], ops, maxEntries, op);
      TrackedCons(head, rest + [e], ops + [op], {}, maxEntries);
      Associates([head], rest, [e]);
    }
  }

  lemma NewestEntry(ops: seq<Op>, maxEntries: nat, op: Op)
    requires op.Put? && op.id != "" && maxEntries > 0
    ensures var e := Entry(op.id, op.mapping, op.storeTime);
      Tracked([e], ops + [op], {}, maxEntries) && Ids([e]) == {op.id} && Ids([]) == {}
  {
    HistoryStep(ops, op, op.id);
    hide History;
  }

  lemma HeadsPut(e: Entry, rest: seq<Entry>, after: seq<Entry>, ops: seq<Op>, maxEntries: nat, op: Op)
    requires op.Put? && op.id != "" && e.id != op.id && e.createdAt <= op.storeTime
    requires Heads(e, rest, ops, {op.id}, maxEntries) && |Ids(rest)| + 1 < maxEntries
    requires op.id !in Ids(rest) && Ids(after) == Ids(rest) + {op.id}
    requires after == rest + [Entry(op.id, op.mapping, op.storeTime)]
    ensures Heads(e, after, ops + [op], {}, maxEntries)
  {
    hide History, Ids;
    HistoryStep(ops, op, e.id);
    var h := History(ops, e.id);
    assert h.behind + {op.id} == Ids(rest) + {op.id};
  }

  lemma HistoryStep(ops: seq<Op>, op: Op, id: string)
    ensures History(ops + [op], id) == Updated(History(ops, id), op, id)
  {
    assert (ops + [op])[..|ops|] == ops;
  }

  /** Operations that change no history keep the tracking. */
  lemma {:induction false} QuietTracked(entries: seq<Entry>, ops: seq<Op>, maxEntries: nat, op: Op)
    requires Tracked(entries, ops, {}, maxEntries)
    requires op.Put? || op.Discard? ==> op.id == ""
    ensures Tracked(entries, ops + [op], {}, maxEntries)
  {
    hide History;
    if entries != [] {
      QuietTracked(entries[1..], ops, maxEntries, op);
      HistoryStep(ops, op, entries[0].id);
    }
  }

  /** A discarded id is behind nobody any more. */
  lemma {:induction false} DiscardTracked(entries: seq<Entry>, ops: seq<Op>, maxEntries: nat, id: string)
    requires id != "" && id !in Ids(entries) && Tracked(entries, ops, {id}, maxEntries)
    ensures Tracked(entries, ops + [Discard(id)], {}, maxEntries)
  {
    hide History;
    if entries != [] {
      DiscardTracked(entries[1..], ops, maxEntries, id);
      HistoryStep(ops, Discard(id), entries[0].id);
    }
  }

  ghost predicate NotAfter(entries: seq<Entry>, now: real) {
    forall e :: e in entries ==> e.createdAt <= now
  }

  /** What holds after every run with a clock that does not run backwards. */
  ghost predicate RunInvariant(entries: seq<Entry>, ops: seq<Op>, start: real, maxEntries: nat, ttl: real) {
    && Tracked(entries, ops, {}, maxEntries)
    && |entries| <= maxEntries
    && NotAfter(entries, Clock(ops, start))
    && Explained(entries, ops, start, maxEntries, ttl)
  }

  lemma ClockStep(ops: seq<Op>, op: Op, start: real)
    requires Monotone(ops + [op], start)
    ensures Monotone(ops, start) && Clock(ops, start) <= Clock(ops + [op], start)
    ensures match op
      case Put(_, _, sweepTime, storeTime) =>
        Clock(ops, start) <= sweepTime <= storeTime == Clock(ops + [op], start)
      case Get(_, time) => time == Clock(ops + [op], start)
      case Discard(_) => true
      case Sweep(time) => time == Clock(ops + [op], start)
  {
    assert (ops + [op])[..|ops|] == ops;
  }

  lemma SweepStep(entries: seq<Entry>, ops: seq<Op>, op: Op, time: real, start: real, maxEntries: nat, ttl: real)
    requires RunInvariant(entries, ops, start, maxEntries, ttl) && Monotone(ops + [op], start)
    requires op == Sweep(time) || (op.Get? && op.time == time)
    ensures RunInvariant(Kept(entries, time, ttl), ops + [op], start, maxEntries, ttl)
  {
    hide Kept, Tracked, History, Clock, Monotone;
    ClockStep(ops, op, start);
    KeptTracked(entries, ops, maxEntries, time, ttl);
    KeptFacts(entries, time, ttl);
    QuietTracked(Kept(entries, time, ttl), ops, maxEntries, op);
    forall id { HistoryStep(ops, op, id); }
  }

  lemma DiscardStep(entries: seq<Entry>, ops: seq<Op>, id: string, start: real, maxEntries: nat, ttl: real)
    requires RunInvariant(entries, ops, start, maxEntries, ttl) && Monotone(ops + [Discard(id)], start)
    requires id != ""
    ensures RunInvariant(Without(entries, id), ops + [Discard(id)], start, maxEntries, ttl)
  {
    hide Without, Tracked, History, Clock, Monotone;
    ClockStep(ops, Discard(id), start);
    WithoutTracked(entries, ops, maxEntries, id);
    WithoutFacts(entries, id);
    DiscardTracked(Without(entries, id), ops, maxEntries, id);
    forall other { HistoryStep(ops, Discard(id), other); }
  }

  lemma IdleStep(entries: seq<Entry>, ops: seq<Op>, op: Op, start: real, maxEntries: nat, ttl: real)
    requires RunInvariant(entries, ops, start, maxEntries, ttl) && Monotone(ops + [op], start)
    requires !op.Sweep? && op.id == ""
    ensures RunInvariant(entries, ops + [op], start, maxEntries, ttl)
  {
    EmptyIdAbsent(entries, ops, maxEntries);
    hide Tracked, History, Clock, Monotone;
    ClockStep(ops, op, start);
    QuietTracked(entries, ops, maxEntries, op);
    forall id { HistoryStep(ops, op, id); }
  }

  lemma {:induction false} EmptyIdAbsent(entries: seq<Entry>, ops: seq<Op>, maxEntries: nat)
    requires Tracked(entries, ops, {}, maxEntries)
    ensures "" !in Ids(entries)
  {
    if entries != [] {
      EmptyIdAbsent(entries[1..], ops, maxEntries);
    }
  }

  lemma PutStep(entries: seq<Entry>, ops: seq<Op>, op: Op, start: real, maxEntries: nat, ttl: real)
    requires RunInvariant(entries, ops, start, maxEntries, ttl) && Monotone(ops + [op], start)
    requires op.Put? && op.id != "" && maxEntries >= 1
    ensures RunInvariant(AfterPut(entries, op.id, op.mapping, op.sweepTime, op.storeTime, maxEntries, ttl),
                         ops + [op], start, maxEntries, ttl)
  {
    hide *;
    var kept := Kept(entries, op.sweepTime, ttl);
    var others := Without(kept, op.id);
    var room := Newest(others, maxEntries - 1);
    var e := Entry(op.id, op.mapping, op.storeTime);
    InvariantParts(entries, ops, start, maxEntries, ttl);
    AfterPutIs(entries, kept, others, room, op, maxEntries, ttl);
    ClockStep(ops, op, start);
    KeptTracked(entries, ops, maxEntries, op.sweepTime, ttl);
    WithoutTracked(kept, ops, maxEntries, op.id);
    NewestTracked(others, ops, {op.id}, maxEntries, maxEntries - 1);
    assert forall x :: x in room ==> x in entries;
    RivalTracked(room, ops, maxEntries, op);
    PutExplained(entries, kept, others, room, room + [e], ops, op, start, maxEntries, ttl);
    forall x | x in room + [e] ensures x.createdAt <= op.storeTime {}
    InvariantMake(room + [e], ops + [op], start, maxEntries, ttl);
  }

  lemma InvariantParts(entries: seq<Entry>, ops: seq<Op>, start: real, maxEntries: nat, ttl: real)
    requires RunInvariant(entries, ops, start, maxEntries, ttl)
    ensures Tracked(entries, ops, {}, maxEntries) && Explained(entries, ops, start, maxEntries, ttl)
    ensures forall e :: e in entries ==> e.createdAt <= Clock(ops, start)
  {
  }

  lemma InvariantMake(entries: seq<Entry>, ops: seq<Op>, start: real, maxEntries: nat, ttl: real)
    requires Tracked(entries, ops, {}, maxEntries) && |entries| <= maxEntries
    requires Explained(entries, ops, start, maxEntries, ttl)
    requires forall e :: e in entries ==> e.createdAt <= Clock(ops, start)
    ensures RunInvariant(entries, ops, start, maxEntries, ttl)
  {
  }

  lemma AfterPutIs(entries: seq<Entry>, kept: seq<Entry>, others: seq<Entry>, room: seq<Entry>, op: Op, maxEntries: nat,
                   ttl: real)
    requires op.Put? && maxEntries >= 1
    requires kept == Kept(entries, op.sweepTime, ttl) && others == Without(kept, op.id)
    requires room == Newest(others, maxEntries - 1)
    ensures AfterPut(entries, op.id, op.mapping, op.sweepTime, op.storeTime, maxEntries, ttl)
         == room + [Entry(op.id, op.mapping, op.storeTime)]
    ensures |room| <= maxEntries - 1
  {
  }

  lemma PutExplained(entries: seq<Entry>, kept: seq<Entry>, others: seq<Entry>, room: seq<Entry>, after: seq<Entry>,
                     ops: seq<Op>, op: Op, start: real, maxEntries: nat, ttl: real)
    requires op.Put? && op.id != "" && maxEntries >= 1
    requires Explained(entries, ops, start, maxEntries, ttl)
    requires Clock(ops, start) <= op.sweepTime <= Clock(ops + [op], start)
    requires forall id :: id in Ids(entries) && id !in Ids(kept) ==>
      History(ops, id).Current? && op.sweepTime - History(ops, id).createdAt > ttl
    requires Ids(others) == Ids(kept) - {op.id} && Ids(after) == Ids(room) + {op.id}
    requires forall id :: id in Ids(others) && id !in Ids(room) ==> Behind(ops, id, {op.id}, maxEntries - 1)
    ensures Explained(after, ops + [op], start, maxEntries, ttl)
  {
    hide History, Clock, Ids, Behind;
    forall id | History(ops + [op], id).Current? && id !in Ids(after)
      ensures Clock(ops + [op], start) - History(ops + [op], id).createdAt > ttl
           || History(ops + [op], id).most >= maxEntries
    {
      PutExplains(ops, op, id, id in Ids(others), maxEntries);
    }
  }

  /** Why an id other than the one put is missing afterwards. */
  lemma PutExplains(ops: seq<Op>, op: Op, id: string, wasThere: bool, maxEntries: nat)
    requires op.Put? && op.id != "" && maxEntries >= 1 && id != op.id
    requires wasThere ==> Behind(ops, id, {op.id}, maxEntries - 1)
    ensures var before, after := History(ops, id), History(ops + [op], id);
      after.Current? ==>
        && before.Current? && after.createdAt == before.createdAt && after.most >= before.most
        && (wasThere ==> after.most >= maxEntries)
  {
    hide History;
    HistoryStep(ops, op, id);
    if wasThere {
      var behind := History(ops, id).behind;
      assert behind + {op.id} == (behind - {op.id}) + {op.id};
    }
  }

  lemma {:induction false} RunKeepsInvariant(ops: seq<Op>, start: real, maxEntries: nat, ttl: real)
    requires Monotone(ops, start) && maxEntries >= 1
    ensures RunInvariant(Run(ops, maxEntries, ttl), ops, start, maxEntries, ttl)
  {
    if ops == [] {
      assert Run(ops, maxEntries, ttl) == [];
    } else {
      var before, op := ops[..|ops| - 1], ops[|ops| - 1];
      var entries := Run(before, maxEntries, ttl);
      assert ops == before + [op];
      RunKeepsInvariant(before, start, maxEntries, ttl);
      hide RunInvariant, Kept, Without, AfterPut;
      match op
      case Put(id, _, _, _) =>
        if id == "" { IdleStep(entries, before, op, start, maxEntries, ttl); }
        else { PutStep(entries, before, op, start, maxEntries, ttl); }
      case Get(id, time) =>
        if id == "" { IdleStep(entries, before, op, start, maxEntries, ttl); }
        else { SweepStep(entries, before, op, time, start, maxEntries, ttl); }
      case Discard(id) =>
        if id == "" { IdleStep(entries, before, op, start, maxEntries, ttl); }
        else { DiscardStep(entries, before, id, start, maxEntries, ttl); }
      case Sweep(time) =>
        SweepStep(entries, before, op, time, start, maxEntries, ttl);
    }
  }

  /** What a `get` at the end of a run answers. */
  function Answer(ops: seq<Op>, id: string, now: real, maxEntries: nat, ttl: real): Option<Mapping> {
    Lookup(Run(ops + [Get(id, now)], maxEntries, ttl), id)
  }

  /**
   * For every run: `get` answers only with the very map last put under this id, never after it was discarded or
   * once it is older than the TTL; and then it does answer, if and only if there were never `maxEntries` other ids at
   * once that had been put since and not discarded again.
   */
  lemma GetAnswersLastPut(ops: seq<Op>, id: string, now: real, start: real, maxEntries: nat, ttl: real)
    requires Monotone(ops + [Get(id, now)], start) && maxEntries >= 1 && id != ""
    ensures var h, r := History(ops, id), Answer(ops, id, now, maxEntries, ttl);
      && (r.Some? ==> h.Current? && r.value == h.mapping)
      && (r.Some? <==> h.Current? && now - h.createdAt <= ttl && h.most < maxEntries)
  {
    var op := Get(id, now);
    var all := ops + [op];
    RunKeepsInvariant(all, start, maxEntries, ttl);
    var entries := Run(all, maxEntries, ttl);
    ClockStep(ops, op, start);
    HistoryStep(ops, op, id);
    TrackedLookup(entries, all, maxEntries, id);
    assert all[..|ops|] == ops;
    KeptFacts(Run(ops, maxEntries, ttl), now, ttl);
  }

  /** For every run: bounded size, no id twice, and creation order. */
  lemma StoreStaysBounded(ops: seq<Op>, start: real, maxEntries: nat, ttl: real)
    requires Monotone(ops, start) && maxEntries >= 1
    ensures var entries := Run(ops, maxEntries, ttl);
      && |entries| <= maxEntries
      && |Ids(entries)| == |entries|
      && forall i, j :: 0 <= i < j < |entries| ==> entries[i].createdAt <= entries[j].createdAt
  {
    RunKeepsInvariant(ops, start, maxEntries, ttl);
    var entries := Run(ops, maxEntries, ttl);
    TrackedIsDistinct(entries, ops, {}, maxEntries);
    TrackedIsOrdered(entries, ops, maxEntries);
  }

  lemma {:induction false} TrackedIsOrdered(entries: seq<Entry>, ops: seq<Op>, maxEntries: nat)
    requires Tracked(entries, ops, {}, maxEntries)
    ensures forall i, j :: 0 <= i < j < |entries| ==> entries[i].createdAt <= entries[j].createdAt
  {
    hide History;
    if entries != [] {
      TrackedIsOrdered(entries[1..], ops, maxEntries);
      forall i, j | 0 <= i < j < |entries| ensures entries[i].createdAt <= entries[j].createdAt {
        assert entries[j] == entries[1..][j - 1];
        assert i > 0 ==> entries[i] == entries[1..][i - 1];
      }
    }
  }
}
