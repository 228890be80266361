/**
 * A lane is one target table: the source rows, the published output, the stored cursor
 * text, and a history variable for the rows published without a cursor commit.
 */
module Lanes {
  import opened Util
  import opened Ordering
  import opened Cursor
  import opened Incremental

  datatype Lane = Lane(
    source: seq<Row>,
    output: Option<seq<Row>>,
    stored: Option<string>,
    orphans: multiset<Row>)

  /** The stored mark; the state file only ever holds what a commit wrote. */
  function MarkOf(stored: Option<string>): Option<Mark> {
    match ReadMark(stored, true) case Ok(m) => m case Err(_) => None
  }

  /**
   * The frame handed to the sink. A pull that started with no cursor replaces
   * the output; otherwise the batch is appended to the output read back, or
   * stands alone when there is none or it cannot be read.
   */
  function Merged(previous: Option<seq<Row>>, batch: seq<Row>, reset: bool, readable: bool): seq<Row> {
    if !reset && previous.Some? && readable then previous.value + batch else batch
  }

  /** The output file is replaced; the cursor is not yet moved. */
  function Published(l: Lane, batch: seq<Row>, reset: bool, readable: bool): Lane {
    l.(output := Some(Merged(l.output, batch, reset, readable)),
       orphans := (if !reset && l.output.Some? && readable then l.orphans else multiset{}) + multiset(batch))
  }

  /** The new mark is stored, if there is one. */
  function Committed(l: Lane, batch: seq<Row>, to: Option<Mark>): Lane {
    if to.None? then l else l.(stored := Some(MarkText(to.value)), orphans := l.orphans - multiset(batch))
  }

  function Arrived(l: Lane, r: Row): Lane { l.(source := l.source + [r]) }

  predicate FreshKey(source: seq<Row>, r: Row) {
    forall i | 0 <= i < |source| :: source[i].pk != r.pk
  }

  /** The database side of the contract: fresh primary key, and above the mark. */
  predicate MayArrive(l: Lane, r: Row) { FreshKey(l.source, r) && Passes(MarkOf(l.stored), r) }

  /** No source row is at or below the stored cursor. */
  predicate NothingHeld(l: Lane) {
    MarkOf(l.stored).Some? ==> Filter(l.source, UpTo(MarkOf(l.stored).value)) == []
  }

  /**
   * Conservation: with a cursor stored, the output holds each source row up to
   * the cursor once, plus the uncommitted publishes, and nothing else.
   */
  ghost predicate Conserved(l: Lane) {
    && KeyedTable(l.source)
    && match MarkOf(l.stored)
       case None => l.stored.None?
       case Some(m) =>
         && l.stored == Some(MarkText(m))
         && l.output.Some?
         && multiset(l.output.value) == multiset(Filter(l.source, UpTo(m))) + l.orphans
  }

  /** No source row at or below the stored cursor is missing from the output. */
  ghost predicate NothingLost(l: Lane) {
    match MarkOf(l.stored)
    case None => true
    case Some(m) => l.output.Some? && forall r | r in l.source && !Above(m, r) :: r in l.output.value
  }

  lemma ConservedLosesNothing(l: Lane)
    requires Conserved(l)
    ensures NothingLost(l)
    ensures MarkOf(l.stored).Some? ==> forall r | r in l.output.value && r !in l.orphans ::
      r in l.source && !Above(MarkOf(l.stored).value, r)
    ensures MarkOf(l.stored).Some? ==> forall r | r in l.output.value && r !in l.orphans ::
      multiset(l.output.value)[r] == 1
  {
    if MarkOf(l.stored).Some? {
      var m := MarkOf(l.stored).value;
      forall r ensures multiset(Filter(l.source, UpTo(m)))[r] == if !Above(m, r) then multiset(l.source)[r] else 0 {
        FilterCount(l.source, UpTo(m), r);
      }
      forall r | r in l.source && !Above(m, r) ensures r in l.output.value {
        assert r in multiset(l.output.value);
      }
      forall r | r in l.output.value && r !in l.orphans
        ensures r in l.source && !Above(m, r) && multiset(l.output.value)[r] == 1
      {
        OccursOnce(l.source, r);
        assert r in multiset(l.output.value);
      }
    }
  }

  lemma AddsNothing(held: seq<Row>, batch: seq<Row>)
    ensures multiset(batch) == multiset(held) + multiset(batch) <==> held == []
  {
    if held != [] {
      var r := held[0];
      assert r in multiset(held);
      assert (multiset(held) + multiset(batch))[r] > multiset(batch)[r];
    }
  }

  /** A publish, committed later or never, keeps what the old cursor promises unless it drops rows it cannot read back. */
  lemma PublishConserves(l: Lane, batch: seq<Row>, readable: bool)
    requires Conserved(l)
    ensures Conserved(Published(l, batch, l.stored.None?, readable)) <==> readable || NothingHeld(l)
  {
    if MarkOf(l.stored).Some? && !readable {
      AddsNothing(Filter(l.source, UpTo(MarkOf(l.stored).value)), batch);
    }
  }

  /** Publish then commit moves the promise to the new cursor, under the same condition. */
  lemma PullConserves(l: Lane, batch: seq<Row>, to: Option<Mark>, readable: bool)
    requires Conserved(l) && IsCut(l.source, MarkOf(l.stored), batch, to)
    ensures Conserved(Committed(Published(l, batch, l.stored.None?, readable), batch, to))
       <==> readable || NothingHeld(l)
    ensures l.stored.None? && to.Some? ==>
      Committed(Published(l, batch, l.stored.None?, readable), batch, to).orphans == multiset{}
  {
    PublishConserves(l, batch, readable);
    if to.Some? {
      StoredMarkRoundTrip(to.value, true);
      CutSplits(l.source, MarkOf(l.stored), batch, to.value);
      CommitConserves(Published(l, batch, l.stored.None?, readable), MarkOf(l.stored), batch, to.value);
    }
  }

  /** Committing a published batch that completes the rows up to the mark. */
  lemma CommitConserves(l: Lane, from: Option<Mark>, batch: seq<Row>, m: Mark)
    requires KeyedTable(l.source) && l.output.Some? && multiset(batch) <= l.orphans
    requires from.Some? ==>
      multiset(Filter(l.source, UpTo(m))) == multiset(Filter(l.source, UpTo(from.value))) + multiset(batch)
    requires from.None? ==>
      multiset(Filter(l.source, UpTo(m))) == multiset(batch) && multiset(l.output.value) == l.orphans
    ensures from.None? ==> Conserved(Committed(l, batch, Some(m)))
    ensures from.Some? ==>
      (Conserved(Committed(l, batch, Some(m)))
       <==> multiset(l.output.value) == multiset(Filter(l.source, UpTo(from.value))) + l.orphans)
  {
    StoredMarkRoundTrip(m, true);
    var rest := l.orphans - multiset(batch);
    assert l.orphans == rest + multiset(batch);
  }

  lemma CutSplits(source: seq<Row>, from: Option<Mark>, batch: seq<Row>, m: Mark)
    requires IsCut(source, from, batch, Some(m))
    ensures from.None? ==> multiset(Filter(source, UpTo(m))) == multiset(batch)
    ensures from.Some? ==>
      multiset(Filter(source, UpTo(m))) == multiset(Filter(source, UpTo(from.value))) + multiset(batch)
  {
    if from.None? {
      FilterAgree(source, UpTo(m), Between(from, m));
    } else {
      FilterSplit(source, UpTo(m), UpTo(from.value), Between(from, m));
    }
  }

  lemma ArrivalConserves(l: Lane, r: Row)
    requires Conserved(l) && MayArrive(l, r)
    ensures Conserved(Arrived(l, r))
  {
    if MarkOf(l.stored).Some? {
      var m := MarkOf(l.stored).value;
      FilterAppend(l.source, [r], UpTo(m));
      assert Filter([r], UpTo(m)) == [];
    }
  }

  /**
   * The read-back fallback: over a lane with an output and a cursor, a pull
   * whose read-back may fail loses nothing, committed or not, if and only if
   * the read-back works or there was no row at or below the old cursor.
   */
  lemma ReadBackMatters(l: Lane, batch: seq<Row>, to: Mark, readable: bool)
    requires Conserved(l) && l.stored.Some? && IsCut(l.source, MarkOf(l.stored), batch, Some(to))
    ensures NothingLost(Published(l, batch, false, readable)) <==> readable || NothingHeld(l)
    ensures NothingLost(Committed(Published(l, batch, false, readable), batch, Some(to)))
       <==> readable || NothingHeld(l)
  {
    var m := MarkOf(l.stored).value;
    PublishConserves(l, batch, readable);
    PullConserves(l, batch, Some(to), readable);
    StoredMarkRoundTrip(to, true);
    if readable || NothingHeld(l) {
      ConservedLosesNothing(Published(l, batch, false, readable));
      ConservedLosesNothing(Committed(Published(l, batch, false, readable), batch, Some(to)));
    } else {
      HeldIsNotInCut(l.source, m, batch, to, Filter(l.source, UpTo(m))[0]);
    }
  }

  /** A row at or below a mark is in no cut that starts at the mark, and at or below every later mark. */
  lemma HeldIsNotInCut(source: seq<Row>, from: Mark, batch: seq<Row>, to: Mark, r: Row)
    requires IsCut(source, Some(from), batch, Some(to)) && r in Filter(source, UpTo(from))
    ensures r in source && !Above(from, r) && !Above(to, r) && r !in batch
  {
    FilterIn(source, UpTo(from));
    CutMembers(source, Some(from), batch, to);
  }

  lemma CutMembers(source: seq<Row>, from: Option<Mark>, batch: seq<Row>, to: Mark)
    requires IsCut(source, from, batch, Some(to))
    ensures forall r :: r in batch <==> r in source && Passes(from, r) && !Above(to, r)
  {
    FilterIn(source, Between(from, to));
    SameMembers(batch, Filter(source, Between(from, to)));
    assert forall r :: r in batch <==> r in Filter(source, Between(from, to));
    assert forall r :: Between(from, to)(r) <==> Passes(from, r) && !Above(to, r);
  }

  // ---- rows that are missed ----------------------------------------------

  /** A source row at or below the cursor that is not in the output. */
  predicate Missed(l: Lane, r: Row) {
    && MarkOf(l.stored).Some? && r in l.source && !Above(MarkOf(l.stored).value, r)
    && (l.output.Some? ==> r !in l.output.value)
  }

  /**
   * A row that lands while a pull is in hand, above the old cursor, costs the
   * promise of the new one exactly when it is not above it.
   */
  lemma LateRowLostExactly(l: Lane, batch: seq<Row>, to: Mark, r: Row)
    requires Conserved(l) && MayArrive(l, r) && IsCut(l.source, MarkOf(l.stored), batch, Some(to))
    requires r !in batch && (l.output.Some? ==> r !in l.output.value)
    ensures var l' := Committed(Published(Arrived(l, r), batch, l.stored.None?, true), batch, Some(to));
            && (NothingLost(l') <==> Above(to, r))
            && (Missed(l', r) <==> !Above(to, r))
  {
    var l' := Committed(Published(Arrived(l, r), batch, l.stored.None?, true), batch, Some(to));
    StoredMarkRoundTrip(to, true);
    assert r in l'.source;
    if Above(to, r) {
      PullConserves(l, batch, Some(to), true);
      ConservedLosesNothing(Committed(Published(l, batch, l.stored.None?, true), batch, Some(to)));
    }
  }

  /** A missed row is missed by every later pull too, of whatever size. */
  lemma MissedStaysMissed(l: Lane, n: nat, r: Row)
    requires KeyedTable(l.source) && Missed(l, r)
    ensures Missed(PullNext(l, n), r)
  {
    var from := MarkOf(l.stored);
    var batch := NextRows(l.source, from, n);
    NextRowsPass(l.source, from, n);
    if batch != [] {
      NewMarkAdvances(from, batch, true);
    }
    StoredMarkRoundTrip(NewMark(from, batch, true).value, true);
  }

  lemma NextRowsPass(source: seq<Row>, from: Option<Mark>, n: nat)
    ensures forall r | r in NextRows(source, from, n) :: r in source && Passes(from, r)
  {
    var hits := Filter(source, Where(from));
    SortSorted(hits, RowRank);
    SameMembers(Sort(hits, RowRank), hits);
    FilterIn(source, Where(from));
    forall r | r in NextRows(source, from, n) ensures r in source && Passes(from, r) {
      assert r in Sort(hits, RowRank) && Where(from)(r);
    }
  }

  // ---- sequential bounded pulls -----------------------------------------

  /** One uninterrupted pull of the next rows, with nothing failing, against the table as it stands. */
  function PullNext(l: Lane, limit: nat): Lane {
    var from := MarkOf(l.stored);
    var batch := NextRows(l.source, from, limit);
    Committed(Published(l, batch, l.stored.None?, true), batch, NewMark(from, batch, true))
  }

  /** WHERE, ORDER BY and LIMIT of a bounded pull. */
  function NextRows(source: seq<Row>, from: Option<Mark>, limit: nat): seq<Row> {
    Take(Sort(Filter(source, Where(from)), RowRank), limit)
  }

  function PullAll(l: Lane, limits: seq<Positive>): Lane {
    if limits == [] then l else PullNext(PullAll(l, limits[..|limits| - 1]), limits[|limits| - 1])
  }

  function Sum(ns: seq<Positive>): nat {
    if ns == [] then 0 else Sum(ns[..|ns| - 1]) + ns[|ns| - 1]
  }

  /** The mark once the first k of the ordered rows are in. */
  function MarkAt(sorted: seq<Row>, k: nat): Option<Mark>
    requires k <= |sorted|
  {
    if k == 0 then None else Some(Pair(sorted[k - 1].key, sorted[k - 1].pk))
  }

  function TextOf(m: Option<Mark>): Option<string> {
    match m case None => None case Some(mark) => Some(MarkText(mark))
  }

  lemma TextRoundTrip(m: Option<Mark>)
    ensures MarkOf(TextOf(m)) == m
  {
    if m.Some? {
      StoredMarkRoundTrip(m.value, true);
    }
  }

  /** The lane has pulled exactly the first k rows in (key, pk) order. */
  ghost predicate PulledTo(l: Lane, k: nat) {
    var sorted := Sort(l.source, RowRank);
    && k <= |sorted|
    && KeyedTable(l.source)
    && l.orphans == multiset{}
    && l.stored == TextOf(MarkAt(sorted, k))
    && (k > 0 ==> l.output == Some(sorted[..k]))
  }

  lemma TableOrder(source: seq<Row>)
    requires KeyedTable(source)
    ensures var sorted := Sort(source, RowRank);
            Sorted(sorted, RowRank) && Distinct(sorted, RowRank) && |sorted| == |source|
  {
    SortSorted(source, RowRank);
    FilterAll(source, Where(None));
    RowsInTable(source, None, Sort(source, RowRank));
  }

  lemma FirstRowsBelow(sorted: seq<Row>, k: nat, i: nat)
    requires Sorted(sorted, RowRank) && i < k <= |sorted|
    ensures !Passes(MarkAt(sorted, k), sorted[i])
  {
    assert i == k - 1 || !Less(RowRank(sorted[k - 1]), RowRank(sorted[i]));
  }

  lemma LaterRowsAbove(sorted: seq<Row>, k: nat, i: nat)
    requires Sorted(sorted, RowRank) && Distinct(sorted, RowRank) && k <= i < |sorted|
    ensures Passes(MarkAt(sorted, k), sorted[i])
  {
    if k > 0 {
      assert RowRank(sorted[i]) != RowRank(sorted[k - 1]);
      assert !Less(RowRank(sorted[i]), RowRank(sorted[k - 1]));
    }
  }

  lemma NoneOfFirst(sorted: seq<Row>, k: nat)
    requires Sorted(sorted, RowRank) && k <= |sorted|
    ensures Filter(sorted[..k], Where(MarkAt(sorted, k))) == []
  {
    forall r | r in sorted[..k] ensures !Where(MarkAt(sorted, k))(r) {
      var i :| 0 <= i < k && sorted[i] == r;
      FirstRowsBelow(sorted, k, i);
    }
    FilterNone(sorted[..k], Where(MarkAt(sorted, k)));
  }

  lemma AllOfLater(sorted: seq<Row>, k: nat)
    requires Sorted(sorted, RowRank) && Distinct(sorted, RowRank) && k <= |sorted|
    ensures Filter(sorted[k..], Where(MarkAt(sorted, k))) == sorted[k..]
  {
    forall r | r in sorted[k..] ensures Where(MarkAt(sorted, k))(r) {
      var i :| 0 <= i < |sorted[k..]| && sorted[k..][i] == r;
      LaterRowsAbove(sorted, k, k + i);
    }
    FilterAll(sorted[k..], Where(MarkAt(sorted, k)));
  }

  /** In ordered rows, those past the k-th are the tail. */
  lemma TailAbove(sorted: seq<Row>, k: nat)
    requires Sorted(sorted, RowRank) && Distinct(sorted, RowRank) && k <= |sorted|
    ensures Filter(sorted, Where(MarkAt(sorted, k))) == sorted[k..]
  {
    NoneOfFirst(sorted, k);
    AllOfLater(sorted, k);
    FilterAt(sorted, k, Where(MarkAt(sorted, k)));
  }

  /** The mark of a nonempty stretch of ordered rows is that of its last row. */
  lemma MarkOfStretch(from: Option<Mark>, batch: seq<Row>)
    requires Sorted(batch, RowRank) && batch != []
    ensures NewMark(from, batch, true) == Some(Pair(batch[|batch| - 1].key, batch[|batch| - 1].pk))
  {
    NewMarkIsGreatest(from, batch, true);
    var r :| r in batch && NewMark(from, batch, true) == Some(Pair(r.key, r.pk));
    var last := batch[|batch| - 1];
    assert last in batch && !Less(RowRank(r), RowRank(last));
    var i :| 0 <= i < |batch| && batch[i] == r;
  }

  lemma OrderedRemainder(source: seq<Row>, sorted: seq<Row>, k: nat)
    requires KeyedTable(source) && sorted == Sort(source, RowRank) && k <= |sorted|
    ensures Sort(Filter(source, Where(MarkAt(sorted, k))), RowRank) == sorted[k..]
  {
    TableOrder(source);
    SortFilter(source, Where(MarkAt(sorted, k)), RowRank);
    TailAbove(sorted, k);
  }

  /** Position reached from k by one bounded pull over n rows. */
  function Reach(k: nat, limit: nat, n: nat): nat { if k + limit < n then k + limit else n }

  lemma StretchMark(from: Option<Mark>, sorted: seq<Row>, k: nat, k': nat)
    requires Sorted(sorted, RowRank) && k < k' <= |sorted|
    ensures NewMark(from, sorted[k..k'], true) == MarkAt(sorted, k')
  {
    var batch := sorted[k..k'];
    assert batch[|batch| - 1] == sorted[k' - 1];
    SliceSorted(sorted, k, k');
    MarkOfStretch(from, batch);
  }

  lemma SliceSorted(sorted: seq<Row>, k: nat, k': nat)
    requires Sorted(sorted, RowRank) && k <= k' <= |sorted|
    ensures Sorted(sorted[k..k'], RowRank)
  {
    var s := sorted[k..k'];
    forall i, j | 0 <= i < j < |s| ensures !Less(RowRank(s[j]), RowRank(s[i])) {
      assert s[i] == sorted[k + i] && s[j] == sorted[k + j];
    }
  }

  lemma NextRowsAreNext(source: seq<Row>, sorted: seq<Row>, k: nat, limit: Positive)
    requires KeyedTable(source) && sorted == Sort(source, RowRank) && k <= |sorted|
    ensures NextRows(source, MarkAt(sorted, k), limit) == sorted[k..Reach(k, limit, |sorted|)]
  {
    OrderedRemainder(source, sorted, k);
    assert Take(sorted[k..], limit) == sorted[k..Reach(k, limit, |sorted|)];
  }

  function LaneAt(source: seq<Row>, sorted: seq<Row>, k: nat): Lane
    requires k <= |sorted|
  {
    Lane(source, Some(sorted[..k]), TextOf(MarkAt(sorted, k)), multiset{})
  }

  lemma PullFetches(l: Lane, sorted: seq<Row>, k: nat, k': nat, limit: Positive)
    requires PulledTo(l, k) && sorted == Sort(l.source, RowRank)
    requires k <= k' <= |sorted| && k' == Reach(k, limit, |sorted|)
    ensures MarkOf(l.stored) == MarkAt(sorted, k) && (l.stored.None? <==> k == 0)
    ensures NextRows(l.source, MarkAt(sorted, k), limit) == sorted[k..k']
  {
    TextRoundTrip(MarkAt(sorted, k));
    NextRowsAreNext(l.source, sorted, k, limit);
  }

  lemma StretchMerges(output: Option<seq<Row>>, sorted: seq<Row>, k: nat, k': nat)
    requires k <= k' <= |sorted| && (k > 0 ==> output == Some(sorted[..k]))
    ensures Merged(output, sorted[k..k'], k == 0, true) == sorted[..k']
  {
    assert sorted[..k] + sorted[k..k'] == sorted[..k'];
  }

  lemma StretchMoves(source: seq<Row>, sorted: seq<Row>, k: nat, k': nat)
    requires sorted == Sort(source, RowRank) && k <= k' <= |sorted|
    ensures NewMark(MarkAt(sorted, k), sorted[k..k'], true) == MarkAt(sorted, k')
  {
    if k < k' {
      SortSorted(source, RowRank);
      StretchMark(MarkAt(sorted, k), sorted, k, k');
    }
  }

  /** From the first k rows, one bounded pull leads to the lane at the position it reaches. */
  lemma PullAdvances(l: Lane, sorted: seq<Row>, k: nat, k': nat, limit: Positive)
    requires PulledTo(l, k) && sorted == Sort(l.source, RowRank)
    requires k <= k' <= |sorted| && k' == Reach(k, limit, |sorted|)
    ensures PullNext(l, limit) == LaneAt(l.source, sorted, k')
  {
    PullFetches(l, sorted, k, k', limit);
    StretchMerges(l.output, sorted, k, k');
    StretchMoves(l.source, sorted, k, k');
    PullEffect(l, MarkAt(sorted, k), sorted[k..k'], MarkAt(sorted, k'), sorted[..k']);
  }

  /** What publish and commit leave, when the frame is known. */
  lemma PullEffect(l: Lane, from: Option<Mark>, batch: seq<Row>, to: Option<Mark>, frame: seq<Row>)
    requires l.orphans == multiset{} && l.stored == TextOf(from)
    requires Merged(l.output, batch, from.None?, true) == frame
    requires to.None? ==> batch == [] && from.None?
    ensures Committed(Published(l, batch, from.None?, true), batch, to)
         == Lane(l.source, Some(frame), TextOf(to), multiset{})
  {
  }

  function Start(source: seq<Row>, stale: Option<seq<Row>>): Lane { Lane(source, stale, None, multiset{}) }

  lemma {:induction false} PullsReach(
      source: seq<Row>, sorted: seq<Row>, stale: Option<seq<Row>>, limits: seq<Positive>, k': nat)
    requires KeyedTable(source) && sorted == Sort(source, RowRank) && limits != []
    requires k' == Reach(0, Sum(limits), |sorted|) && k' <= |sorted|
    ensures PullAll(Start(source, stale), limits) == LaneAt(source, sorted, k')
  {
    var front, last := limits[..|limits| - 1], limits[|limits| - 1];
    if front == [] {
      PullAdvances(Start(source, stale), sorted, 0, k', last);
    } else {
      var k := Reach(0, Sum(front), |sorted|);
      PullsReach(source, sorted, stale, front, k);
      PullAdvances(LaneAt(source, sorted, k), sorted, k, k', last);
    }
  }

  /**
   * Batch sizes do not matter: over a fixed table, any sequence of bounded
   * pulls leaves the first Sum(limits) rows in order, so enough pulls leave
   * the whole ordered table, and further pulls change nothing.
   */
  lemma BatchSizesDoNotMatter(source: seq<Row>, stale: Option<seq<Row>>, limits: seq<Positive>)
    requires KeyedTable(source) && limits != []
    ensures PullAll(Start(source, stale), limits).output == Some(Take(Sort(source, RowRank), Sum(limits)))
    ensures Sum(limits) >= |source| ==> forall n: Positive ::
      PullNext(PullAll(Start(source, stale), limits), n) == PullAll(Start(source, stale), limits)
  {
    var sorted := Sort(source, RowRank);
    TableOrder(source);
    PullsReach(source, sorted, stale, limits, Reach(0, Sum(limits), |sorted|));
    assert sorted[..|sorted|] == sorted;
    if Sum(limits) >= |source| {
      forall n: Positive ensures PullNext(LaneAt(source, sorted, |sorted|), n) == LaneAt(source, sorted, |sorted|) {
        PullAdvances(LaneAt(source, sorted, |sorted|), sorted, |sorted|, |sorted|, n);
      }
    }
  }

  // ---- bounded batches and order ------------------------------------------

  /** A bounded query has one answer, whatever the database does. */
  lemma OneAnswer(source: seq<Row>, from: Option<Mark>, limit: Positive, full: seq<Row>)
    requires KeyedTable(source) && Arranged(QueryFor(Increment, from, limit), source, full)
    ensures Limited(QueryFor(Increment, from, limit), full) == NextRows(source, from, limit)
  {
    var hits := Filter(source, Where(from));
    SortSorted(hits, RowRank);
    RowsInTable(source, from, full);
    SortedUnique(full, Sort(hits, RowRank), RowRank);
  }

  /** A bounded batch in hand: in order, closed by its own last row. */
  ghost predicate BoundedBatch(from: Option<Mark>, batch: seq<Row>, to: Option<Mark>) {
    Sorted(batch, RowRank) && to == NewMark(from, batch, true)
  }

  lemma NextRowsAreBounded(source: seq<Row>, from: Option<Mark>, limit: Positive)
    ensures BoundedBatch(from, NextRows(source, from, limit), NewMark(from, NextRows(source, from, limit), true))
  {
    SortSorted(Filter(source, Where(from)), RowRank);
  }

  lemma SameMembers(a: seq<Row>, b: seq<Row>)
    requires multiset(a) == multiset(b)
    ensures forall r :: r in a <==> r in b
  {
    forall r ensures r in a <==> r in b {
      assert r in a <==> r in multiset(a);
      assert r in b <==> r in multiset(b);
    }
  }

  lemma CutHasDistinctRanks(source: seq<Row>, from: Option<Mark>, batch: seq<Row>, m: Mark)
    requires KeyedTable(source) && IsCut(source, from, batch, Some(m))
    ensures Distinct(batch, RowRank)
    ensures forall r | r in batch :: Passes(from, r) && !Above(m, r)
  {
    CutMembers(source, from, batch, m);
    forall i, j | 0 <= i < j < |batch| ensures RowRank(batch[i]) != RowRank(batch[j]) {
      if batch[i].pk == batch[j].pk {
        SamePkSameRow(source, Between(from, m), batch, i, j);
        FilterCount(source, Between(from, m), batch[i]);
        OccursOnce(source, batch[i]);
        Twice(batch, i, j);
      }
    }
  }

  lemma SamePkSameRow(source: seq<Row>, keep: Row -> bool, batch: seq<Row>, i: nat, j: nat)
    requires KeyedTable(source) && multiset(batch) == multiset(Filter(source, keep))
    requires i < j < |batch| && batch[i].pk == batch[j].pk
    ensures batch[i] == batch[j]
  {
    FilterIn(source, keep);
    SameMembers(batch, Filter(source, keep));
    assert batch[i] in source && batch[j] in source;
  }

  /** A bounded cut is what one pull would bring now, with the batch's own size as its limit. */
  lemma CutIsNextRows(source: seq<Row>, from: Option<Mark>, batch: seq<Row>, m: Mark)
    requires KeyedTable(source) && m.Pair?
    requires IsCut(source, from, batch, Some(m)) && Sorted(batch, RowRank)
    ensures batch == NextRows(source, from, |batch|)
  {
    var hits := Filter(source, Where(from));
    var sorted := Sort(hits, RowRank);
    SortSorted(hits, RowRank);
    SortFilter(hits, UpTo(m), RowRank);
    FilterTwice(source, Where(from), UpTo(m), Between(from, m));
    SortSorted(Filter(source, Between(from, m)), RowRank);
    CutHasDistinctRanks(source, from, batch, m);
    SortedUnique(batch, Filter(sorted, UpTo(m)), RowRank);
    FilterPrefix(sorted, UpTo(m), RowRank);
  }

  /** The output is exactly the source rows up to the cursor, each once, in (key, pk) order. */
  ghost predicate InOrder(l: Lane) {
    match MarkOf(l.stored)
    case None => true
    case Some(m) => l.output == Some(Sort(Filter(l.source, UpTo(m)), RowRank))
  }

  lemma ArrivalKeepsOrder(l: Lane, r: Row)
    requires InOrder(l) && MayArrive(l, r)
    ensures InOrder(Arrived(l, r))
  {
    if MarkOf(l.stored).Some? {
      var m := MarkOf(l.stored).value;
      FilterAppend(l.source, [r], UpTo(m));
      assert Filter([r], UpTo(m)) == [];
      assert Filter(l.source + [r], UpTo(m)) == Filter(l.source, UpTo(m));
    }
  }

  lemma AppendSorted(a: seq<Row>, b: seq<Row>)
    requires Sorted(a, RowRank) && Sorted(b, RowRank)
    requires forall x, y | x in a && y in b :: Less(RowRank(x), RowRank(y))
    ensures Sorted(a + b, RowRank)
  {
    var s := a + b;
    forall i, j | 0 <= i < j < |s| ensures !Less(RowRank(s[j]), RowRank(s[i])) {
      if i < |a| <= j {
        assert s[i] in a && s[j] in b;
      }
    }
  }

  lemma OutputBelowBatch(source: seq<Row>, from: Mark, output: seq<Row>, batch: seq<Row>, m: Mark)
    requires KeyedTable(source) && IsCut(source, Some(from), batch, Some(m))
    requires from.Pair? && output == Sort(Filter(source, UpTo(from)), RowRank)
    ensures Sorted(output, RowRank) && multiset(output) == multiset(Filter(source, UpTo(from)))
    ensures forall x, y | x in output && y in batch :: Less(RowRank(x), RowRank(y))
  {
    SortSorted(Filter(source, UpTo(from)), RowRank);
    CutHasDistinctRanks(source, Some(from), batch, m);
    SameMembers(output, Filter(source, UpTo(from)));
    FilterIn(source, UpTo(from));
    forall x, y | x in output && y in batch ensures Less(RowRank(x), RowRank(y)) {
      assert UpTo(from)(x) && Passes(Some(from), y);
    }
  }

  /** Appending a bounded batch to ordered output gives the ordered rows up to the new mark. */
  lemma BatchKeepsOrder(source: seq<Row>, from: Mark, output: seq<Row>, batch: seq<Row>, m: Mark)
    requires KeyedTable(source) && IsCut(source, Some(from), batch, Some(m)) && Sorted(batch, RowRank)
    requires from.Pair? && output == Sort(Filter(source, UpTo(from)), RowRank)
    ensures output + batch == Sort(Filter(source, UpTo(m)), RowRank)
  {
    var target := Filter(source, UpTo(m));
    OutputBelowBatch(source, from, output, batch, m);
    AppendSorted(output, batch);
    CutSplits(source, Some(from), batch, m);
    FilterHasDistinctRanks(source, UpTo(m));
    SortSorted(target, RowRank);
    SortDistinct(target);
    SortedUnique(Sort(target, RowRank), output + batch, RowRank);
  }

  lemma FilterHasDistinctRanks(source: seq<Row>, keep: Row -> bool)
    requires KeyedTable(source)
    ensures KeyedTable(Filter(source, keep))
  {
    var kept := Filter(source, keep);
    FilterIn(source, keep);
    forall i, j | 0 <= i < j < |kept| ensures kept[i].pk != kept[j].pk {
      if kept[i].pk == kept[j].pk {
        SamePkSameRow(source, keep, kept, i, j);
        FilterCount(source, keep, kept[i]);
        OccursOnce(source, kept[i]);
        Twice(kept, i, j);
      }
    }
  }

  lemma SortDistinct(rows: seq<Row>)
    requires KeyedTable(rows)
    ensures Distinct(Sort(rows, RowRank), RowRank)
  {
    TableOrder(rows);
  }
}
