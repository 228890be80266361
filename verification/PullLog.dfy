/**
 * The state database: watermark texts, and the pull history with its
 * retention of the newest hundred entries per target.
 */
module PullLog {
  import opened Util
  import opened Ordering

  const RETENTION := 100
  const FAILURE_WINDOW := 20

  datatype Status = Success | Failure | SkippedOverlap

  datatype Entry = Entry(id: nat, target: string, started: int, status: Status, rows: Option<nat>)

  /** ORDER BY started_at DESC. */
  function Newest(e: Entry): Rank { Rank(-e.started, 0) }

  function Of(target: string): Entry -> bool { (e: Entry) => e.target == target }

  /** One target's entries, newest first. */
  function History(log: seq<Entry>, target: string): seq<Entry> {
    Sort(Filter(log, Of(target)), Newest)
  }

  /** The ids the retention subquery selects. */
  function Retained(log: seq<Entry>, target: string): set<nat> {
    set e | e in Take(History(log, target), RETENTION) :: e.id
  }

  function Survives(target: string, kept: set<nat>): Entry -> bool {
    (e: Entry) => e.target != target || e.id in kept
  }

  /** DELETE the target's entries outside the newest hundred. */
  function Prune(log: seq<Entry>, target: string): seq<Entry> {
    Filter(log, Survives(target, Retained(log, target)))
  }

  /** The table after a list of inserts, pruned after each. */
  function Table(entries: seq<Entry>): seq<Entry> {
    if entries == [] then []
    else
      var last := entries[|entries| - 1];
      Prune(Table(entries[..|entries| - 1]) + [last], last.target)
  }

  ghost predicate UniqueIds(log: seq<Entry>) {
    forall i, j | 0 <= i < j < |log| :: log[i].id != log[j].id
  }

  /** Ids are assigned once; pulls of one target start at different times. */
  ghost predicate WellTimed(entries: seq<Entry>) {
    && UniqueIds(entries)
    && (forall i, j | 0 <= i < j < |entries| && entries[i].target == entries[j].target ::
          entries[i].started != entries[j].started)
  }

  lemma HistoryAppend(log: seq<Entry>, e: Entry, target: string)
    ensures History(log + [e], target)
         == if e.target == target then Insert(e, History(log, target), Newest) else History(log, target)
  {
    FilterAppend(log, [e], Of(target));
    if e.target == target {
      assert Filter([e], Of(target)) == [e];
      var s := Filter(log, Of(target)) + [e];
      assert s[..|s| - 1] == Filter(log, Of(target));
    } else {
      assert Filter([e], Of(target)) == [];
      assert Filter(log + [e], Of(target)) == Filter(log, Of(target));
    }
  }

  lemma {:induction false} FilterToPrefix(s: seq<Entry>, k: nat, keep: Entry -> bool)
    requires k <= |s|
    requires forall i | 0 <= i < |s| :: keep(s[i]) <==> i < k
    ensures Filter(s, keep) == s[..k]
  {
    assert s == s[..k] + s[k..];
    FilterAppend(s[..k], s[k..], keep);
    FilterAll(s[..k], keep);
    FilterNone(s[k..], keep);
  }

  lemma HistoryMembers(log: seq<Entry>, target: string)
    ensures forall e | e in History(log, target) :: e in log && e.target == target
  {
    SortSorted(Filter(log, Of(target)), Newest);
    FilterIn(log, Of(target));
    forall e | e in History(log, target) ensures e in log && e.target == target {
      assert e in multiset(History(log, target));
      assert e in Filter(log, Of(target));
    }
  }

  /** Of a target's own history, the retention keeps exactly the first hundred. */
  lemma RetentionCut(log: seq<Entry>, target: string, i: nat)
    requires UniqueIds(log) && i < |History(log, target)|
    ensures Survives(target, Retained(log, target))(History(log, target)[i]) <==> i < RETENTION
  {
    var h := History(log, target);
    HistoryMembers(log, target);
    HistoryIds(log, target);
    assert h[i] in h;
    if i < RETENTION {
      assert Take(h, RETENTION)[i] == h[i];
    }
  }

  /** Pruning leaves the target its newest hundred and the other targets everything. */
  lemma PruneHistory(log: seq<Entry>, pruned: string, target: string)
    requires UniqueIds(log)
    ensures History(Prune(log, pruned), target)
         == if target == pruned then Take(History(log, target), RETENTION) else History(log, target)
  {
    var keep := Survives(pruned, Retained(log, pruned));
    var h := History(log, target);
    FilterSwap(log, keep, Of(target));
    SortFilter(Filter(log, Of(target)), keep, Newest);
    assert History(Prune(log, pruned), target) == Filter(h, keep);
    HistoryMembers(log, target);
    if target == pruned {
      forall i | 0 <= i < |h| ensures keep(h[i]) <==> i < RETENTION {
        RetentionCut(log, target, i);
      }
      FilterToPrefix(h, if RETENTION < |h| then RETENTION else |h|, keep);
    } else {
      FilterAll(h, keep);
    }
  }

  lemma {:induction false} FilterSwap(s: seq<Entry>, p: Entry -> bool, q: Entry -> bool)
    ensures Filter(Filter(s, p), q) == Filter(Filter(s, q), p)
  {
    if s != [] {
      FilterSwap(s[1..], p, q);
    }
  }

  lemma HistoryIds(log: seq<Entry>, target: string)
    requires UniqueIds(log)
    ensures UniqueIds(History(log, target))
  {
    var h := History(log, target);
    SortSorted(Filter(log, Of(target)), Newest);
    FilterIn(log, Of(target));
    forall i, j | 0 <= i < j < |h| ensures h[i].id != h[j].id {
      if h[i].id == h[j].id {
        assert h[i] in multiset(h) && h[j] in multiset(h);
        assert h[i] in log && h[j] in log;
        assert h[i] == h[j];
        FilterCount(log, Of(target), h[i]);
        OnceInLog(log, h[i]);
        Twice(h, i, j);
      }
    }
  }

  lemma {:induction false} OnceInLog(log: seq<Entry>, e: Entry)
    requires UniqueIds(log)
    ensures multiset(log)[e] <= 1
  {
    if log != [] {
      assert log == [log[0]] + log[1..];
      OnceInLog(log[1..], e);
    }
  }

  /**
   * The pruned table answers as the full log would: after any interleaving of
   * inserts for any targets, each target's history is the newest hundred of
   * its unpruned history.
   */
  lemma {:induction false} PrunedLogRefinesFullLog(entries: seq<Entry>, target: string)
    requires WellTimed(entries)
    ensures History(Table(entries), target) == Take(History(entries, target), RETENTION)
    ensures forall e | e in Table(entries) :: e in entries
    ensures UniqueIds(Table(entries))
  {
    if entries != [] {
      var front, last := entries[..|entries| - 1], entries[|entries| - 1];
      assert entries == front + [last];
      PrunedLogRefinesFullLog(front, target);
      var log := Table(front) + [last];
      assert forall i | 0 <= i < |Table(front)| :: Table(front)[i] in front;
      PruneHistory(log, last.target, target);
      HistoryAppend(Table(front), last, target);
      HistoryAppend(front, last, target);
      if target == last.target {
        InsertTake(last, History(front, target), RETENTION, Newest);
      }
      FilterIn(log, Survives(last.target, Retained(log, last.target)));
      FilterKeepsIds(log, Survives(last.target, Retained(log, last.target)));
    }
  }

  lemma {:induction false} FilterKeepsIds(log: seq<Entry>, keep: Entry -> bool)
    requires UniqueIds(log)
    ensures UniqueIds(Filter(log, keep))
  {
    if log != [] {
      FilterKeepsIds(log[1..], keep);
      FilterIn(log[1..], keep);
      var rest := Filter(log[1..], keep);
      forall j | 0 <= j < |rest| ensures rest[j].id != log[0].id {
        assert rest[j] in rest;
        var i :| 0 <= i < |log[1..]| && log[1..][i] == rest[j];
        assert log[i + 1] == rest[j];
      }
    }
  }

  // ---- the two readers ---------------------------------------------------

  function Recent(log: seq<Entry>, target: string, limit: nat): seq<Entry> {
    Take(History(log, target), limit)
  }

  predicate Failed(e: Entry) { e.status.Failure? }

  /** The entries newer than the newest success. */
  function SinceSuccess(newestFirst: seq<Entry>): (s: seq<Entry>)
    ensures s <= newestFirst
    ensures forall e | e in s :: !e.status.Success?
    ensures |s| < |newestFirst| ==> newestFirst[|s|].status.Success?
  {
    if newestFirst == [] || newestFirst[0].status.Success? then []
    else [newestFirst[0]] + SinceSuccess(newestFirst[1..])
  }

  /** Failures since the newest success, among the newest twenty; skipped pulls neither count nor stop the count. */
  function Streak(log: seq<Entry>, target: string): nat {
    |Filter(SinceSuccess(Recent(log, target, FAILURE_WINDOW)), Failed)|
  }

  /** Both readers see the full log through the pruned table. */
  lemma ReadersSeeFullLog(entries: seq<Entry>, target: string, limit: nat)
    requires WellTimed(entries) && limit <= RETENTION
    ensures Recent(Table(entries), target, limit) == Recent(entries, target, limit)
    ensures Streak(Table(entries), target) == Streak(entries, target)
  {
    PrunedLogRefinesFullLog(entries, target);
    assert Recent(Table(entries), target, FAILURE_WINDOW) == Recent(entries, target, FAILURE_WINDOW);
  }

  // ---- what newest means -------------------------------------------------

  /** The target's entries that started after a time. */
  function Later(log: seq<Entry>, target: string, time: int): set<Entry> {
    set e | e in log && e.target == target && e.started > time
  }

  /** Fewer than n of its target's entries started after it. */
  predicate AmongNewest(log: seq<Entry>, e: Entry, n: nat) {
    e in log && |Later(log, e.target, e.started)| < n
  }

  /** The failures among the target's newest twenty that no success started after. */
  function Unbroken(log: seq<Entry>, target: string): set<Entry> {
    set e | e in log && e.target == target && e.status.Failure? && AmongNewest(log, e, 20)
      && forall s | s in Later(log, target, e.started) :: !s.status.Success?
  }

  lemma {:induction false} DistinctCount<T>(s: seq<T>, members: set<T>)
    requires (forall i, j | 0 <= i < j < |s| :: s[i] != s[j]) && forall x :: x in members <==> x in s
    ensures |members| == |s|
  {
    if s == [] {
      assert members == {};
    } else {
      var last := s[|s| - 1];
      DistinctCount(s[..|s| - 1], members - {last});
      assert forall x :: x in s <==> x in s[..|s| - 1] || x == last;
    }
  }

  /** A target's history has its entries, each once, each started after the next one. */
  lemma HistoryDescends(log: seq<Entry>, target: string)
    requires WellTimed(log)
    ensures var h := History(log, target);
            && (forall e :: e in h <==> e in log && e.target == target)
            && (forall i, j | 0 <= i < j < |h| :: h[i].started > h[j].started)
  {
    var h := History(log, target);
    SortSorted(Filter(log, Of(target)), Newest);
    FilterIn(log, Of(target));
    forall e ensures e in h <==> e in log && e.target == target {
      assert e in h <==> e in multiset(h);
      assert e in Filter(log, Of(target)) <==> e in multiset(Filter(log, Of(target)));
    }
    HistoryIds(log, target);
    forall i, j | 0 <= i < j < |h| ensures h[i].started > h[j].started {
      assert !Less(Newest(h[j]), Newest(h[i]));
      assert h[i] in h && h[j] in h;
      var a :| 0 <= a < |log| && log[a] == h[i];
      var b :| 0 <= b < |log| && log[b] == h[j];
      assert a != b;
    }
  }

  /** The i-th newest has i that started after it. */
  lemma RankedAt(log: seq<Entry>, target: string, i: nat)
    requires WellTimed(log) && i < |History(log, target)|
    ensures var h := History(log, target);
            && |Later(log, target, h[i].started)| == i
            && forall e :: e in Later(log, target, h[i].started) <==> e in h[..i]
  {
    var h := History(log, target);
    HistoryDescends(log, target);
    forall e ensures e in Later(log, target, h[i].started) <==> e in h[..i] {
      if e in h && e.started > h[i].started {
        var k :| 0 <= k < |h| && h[k] == e;
        assert k < i && h[..i][k] == e;
      }
      if e in h[..i] {
        var k :| 0 <= k < i && h[..i][k] == e;
        assert h[k] == e;
      }
    }
    forall a, b | 0 <= a < b < i ensures h[..i][a] != h[..i][b] {
    }
    DistinctCount(h[..i], Later(log, target, h[i].started));
  }

  lemma NewestExactly(log: seq<Entry>, target: string, n: nat, e: Entry)
    requires WellTimed(log)
    ensures e in Take(History(log, target), n) <==> e.target == target && AmongNewest(log, e, n)
  {
    var h := History(log, target);
    HistoryDescends(log, target);
    if e in h {
      var i :| 0 <= i < |h| && h[i] == e;
      RankedAt(log, target, i);
      if i < n {
        assert Take(h, n)[i] == e;
      }
      if e in Take(h, n) {
        var k :| 0 <= k < |Take(h, n)| && Take(h, n)[k] == e;
        assert h[k].started == h[i].started;
      }
    } else {
      assert forall k | 0 <= k < |Take(h, n)| :: Take(h, n)[k] == h[k];
    }
  }

  lemma HistoryOfTable(entries: seq<Entry>, e: Entry)
    requires WellTimed(entries)
    ensures e in Table(entries) <==> e in History(Table(entries), e.target)
  {
    PrunedLogRefinesFullLog(entries, e.target);
    SortSorted(Filter(Table(entries), Of(e.target)), Newest);
    FilterIn(Table(entries), Of(e.target));
    var h := History(Table(entries), e.target);
    assert e in h <==> e in multiset(h);
    assert e in Filter(Table(entries), Of(e.target)) <==> e in multiset(Filter(Table(entries), Of(e.target)));
  }

  /** Retention, exactly: an entry is kept if and only if fewer than a hundred of its target started after it. */
  lemma KeptExactly(entries: seq<Entry>, e: Entry)
    requires WellTimed(entries)
    ensures e in Table(entries) <==> AmongNewest(entries, e, 100)
  {
    HistoryOfTable(entries, e);
    PrunedLogRefinesFullLog(entries, e.target);
    NewestExactly(entries, e.target, RETENTION, e);
  }

  lemma TableKeepsNewest(entries: seq<Entry>)
    ensures WellTimed(entries) ==> forall e :: e in Table(entries) <==> AmongNewest(entries, e, 100)
  {
    if WellTimed(entries) {
      forall e ensures e in Table(entries) <==> AmongNewest(entries, e, 100) {
        KeptExactly(entries, e);
      }
    }
  }

  /** The streak is the number of failures that no success started after, among the newest twenty. */
  lemma StreakExactly(log: seq<Entry>, target: string)
    requires WellTimed(log)
    ensures Streak(log, target) == |Unbroken(log, target)|
  {
    var h := History(log, target);
    var recent := Recent(log, target, FAILURE_WINDOW);
    var since := SinceSuccess(recent);
    HistoryDescends(log, target);
    FilterIn(since, Failed);
    forall e ensures e in Unbroken(log, target) <==> e in Filter(since, Failed) {
      UnbrokenExactly(log, target, e);
    }
    forall i, j | 0 <= i < j < |since| ensures since[i] != since[j] {
      assert since[i] == h[i] && since[j] == h[j];
    }
    FilterKeepsDistinct(since, Failed);
    DistinctCount(Filter(since, Failed), Unbroken(log, target));
  }

  lemma UnbrokenExactly(log: seq<Entry>, target: string, e: Entry)
    requires WellTimed(log)
    ensures e in Unbroken(log, target)
       <==> e in SinceSuccess(Recent(log, target, FAILURE_WINDOW)) && e.status.Failure?
  {
    var h := History(log, target);
    HistoryDescends(log, target);
    if e in h {
      var i :| 0 <= i < |h| && h[i] == e;
      UnbrokenAt(log, target, i);
      var since := SinceSuccess(Recent(log, target, FAILURE_WINDOW));
      if i < |since| {
        assert since[i] == e;
      }
      if e in since {
        var k :| 0 <= k < |since| && since[k] == e;
        assert h[k].started == h[i].started;
      }
    } else {
      var since := SinceSuccess(Recent(log, target, FAILURE_WINDOW));
      assert forall k | 0 <= k < |since| :: since[k] == h[k];
    }
  }

  lemma UnbrokenAt(log: seq<Entry>, target: string, i: nat)
    requires WellTimed(log) && i < |History(log, target)|
    ensures History(log, target)[i] in Unbroken(log, target)
       <==> i < |SinceSuccess(Recent(log, target, FAILURE_WINDOW))| && History(log, target)[i].status.Failure?
  {
    var h := History(log, target);
    var since := SinceSuccess(Recent(log, target, FAILURE_WINDOW));
    HistoryDescends(log, target);
    RankedAt(log, target, i);
    assert h[i] in h;
    if i < |since| {
      forall s | s in Later(log, target, h[i].started) ensures !s.status.Success? {
        var k :| 0 <= k < i && h[..i][k] == s;
        assert since[k] == s && s in since;
      }
    } else if |since| < i && i < FAILURE_WINDOW {
      assert h[..i][|since|] == h[|since|] && h[|since|].status.Success?;
    }
  }

  lemma {:induction false} FilterKeepsDistinct(s: seq<Entry>, keep: Entry -> bool)
    requires forall i, j | 0 <= i < j < |s| :: s[i] != s[j]
    ensures forall i, j | 0 <= i < j < |Filter(s, keep)| :: Filter(s, keep)[i] != Filter(s, keep)[j]
  {
    if s != [] {
      FilterKeepsDistinct(s[1..], keep);
      FilterIn(s[1..], keep);
      var rest := Filter(s[1..], keep);
      forall j | 0 <= j < |rest| ensures rest[j] != s[0] {
        assert rest[j] in rest;
        var i :| 0 <= i < |s[1..]| && s[1..][i] == rest[j];
        assert s[i + 1] == rest[j];
      }
      assert Filter(s, keep) == if keep(s[0]) then [s[0]] + rest else rest;
    }
  }

  // ---- schema baselines --------------------------------------------------

  /** A published frame's columns: name to dtype. */
  type Schema = map<string, string>

  datatype Diff = Diff(added: set<string>, removed: set<string>, changed: set<string>)

  /** Against no baseline nothing is reported. */
  function CompareSchemas(previous: Option<Schema>, current: Schema): Diff {
    match previous
    case None => Diff({}, {}, {})
    case Some(p) =>
      Diff(current.Keys - p.Keys, p.Keys - current.Keys, set n | n in current && n in p && current[n] != p[n])
  }

  predicate Differs(previous: Option<Schema>, current: Schema) { previous.Some? && previous.value != current }

  /** Drift is reported exactly when there is a baseline and the columns are not the baseline's. */
  method SchemaDrift(previous: Option<Schema>, current: Schema) returns (drift: bool)
    ensures drift == Differs(previous, current)
  {
    var d := CompareSchemas(previous, current);
    drift := d.added != {} || d.removed != {} || d.changed != {};
    if previous.Some? && !drift {
      var p := previous.value;
      assert p.Keys == current.Keys;
      forall n | n in current ensures current[n] == p[n] {
        assert n !in d.changed;
      }
      assert p == current;
    }
  }

  // ---- the store ---------------------------------------------------------

  class StateStore {
    var watermarks: map<string, string>
    var schemas: map<string, Schema>
    var pullHistory: seq<Entry>
    var nextId: nat
    /** Every entry ever inserted, pruned or not. */
    ghost var everRecorded: seq<Entry>

    ghost predicate Valid()
      reads this`pullHistory, this`nextId, this`everRecorded
    {
      && pullHistory == Table(everRecorded)
      && nextId == |everRecorded|
      && forall i | 0 <= i < |everRecorded| :: everRecorded[i].id == i
    }

    /** The state database a missing or corrupt file is replaced by. */
    constructor ()
      ensures Valid() && watermarks == map[] && schemas == map[] && everRecorded == []
    {
      watermarks, schemas, pullHistory, nextId, everRecorded := map[], map[], [], 0, [];
    }

    function Watermark(target: string): Option<string>
      reads this
    {
      if target in watermarks then Some(watermarks[target]) else None
    }

    function Baseline(target: string): Option<Schema>
      reads this
    {
      if target in schemas then Some(schemas[target]) else None
    }

    method SetSchema(target: string, columns: Schema)
      modifies this`schemas
      ensures schemas == old(schemas)[target := columns]
    {
      schemas := schemas[target := columns];
    }

    /** Insert, or update on conflict. */
    method SetWatermark(target: string, value: string)
      modifies this`watermarks
      ensures watermarks == old(watermarks)[target := value]
    {
      watermarks := watermarks[target := value];
    }

    method RecordPull(target: string, started: int, status: Status, rows: Option<nat>)
      requires Valid()
      modifies this`pullHistory, this`nextId, this`everRecorded
      ensures Valid()
      ensures everRecorded == old(everRecorded) + [Entry(|old(everRecorded)|, target, started, status, rows)]
      ensures KeepsNewest()
    {
      var e := Entry(nextId, target, started, status, rows);
      pullHistory := pullHistory + [e];
      nextId := nextId + 1;
      pullHistory := Filter(pullHistory, Survives(target, Retained(pullHistory, target)));
      everRecorded := everRecorded + [e];
      assert everRecorded[..|everRecorded| - 1] == old(everRecorded);
      TableKeepsNewest(everRecorded);
    }

    /** Of all that was ever recorded, the table has each target's newest hundred. */
    ghost predicate KeepsNewest()
      reads this`pullHistory, this`everRecorded
    {
      WellTimed(everRecorded) ==> forall e :: e in pullHistory <==> AmongNewest(everRecorded, e, 100)
    }

    /** The target's newest entries of all ever recorded, newest first. */
    method RecentHistory(target: string, limit: nat) returns (rows: seq<Entry>)
      requires Valid()
      ensures rows == Recent(pullHistory, target, limit)
      ensures limit <= 100 && WellTimed(everRecorded) ==>
        && (forall e :: e in rows <==> e.target == target && AmongNewest(everRecorded, e, limit))
        && (forall i, j | 0 <= i < j < |rows| :: rows[i].started > rows[j].started)
        && rows == Recent(everRecorded, target, limit)
    {
      rows := Take(History(pullHistory, target), limit);
      if limit <= RETENTION && WellTimed(everRecorded) {
        ReadersSeeFullLog(everRecorded, target, limit);
        HistoryDescends(everRecorded, target);
        forall e ensures e in rows <==> e.target == target && AmongNewest(everRecorded, e, limit) {
          NewestExactly(everRecorded, target, limit, e);
        }
      }
    }

    /** Failures among the target's newest twenty, of all ever recorded, with no success after them. */
    method ConsecutiveFailures(target: string) returns (n: nat)
      requires Valid()
      ensures WellTimed(everRecorded) ==> n == |Unbroken(everRecorded, target)| == Streak(everRecorded, target)
      ensures n == Streak(pullHistory, target)
    {
      var rows := RecentHistory(target, FAILURE_WINDOW);
      n := CountFailures(rows);
      if WellTimed(everRecorded) {
        ReadersSeeFullLog(everRecorded, target, FAILURE_WINDOW);
        StreakExactly(everRecorded, target);
      }
    }
  }

  /** The counting loop, which stops at the first success. */
  method CountFailures(rows: seq<Entry>) returns (n: nat)
    ensures n == |Filter(SinceSuccess(rows), Failed)|
  {
    n := 0;
    var i := 0;
    ghost var s := SinceSuccess(rows);
    while i < |rows| && !rows[i].status.Success?
      invariant i <= |s| <= |rows|
      invariant n == |Filter(s[..i], Failed)|
    {
      assert i < |s| && s[i] == rows[i];
      assert s[..i + 1] == s[..i] + [s[i]];
      FilterAppend(s[..i], [s[i]], Failed);
      if rows[i].status.Failure? {
        n := n + 1;
      }
      i := i + 1;
    }
    assert s[..i] == s;
  }
}
