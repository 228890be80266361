/**
 * One table's incremental pull: the query a stored cursor asks for, the next cursor,
 * and the cut of the source table between the two.
 */
module Incremental {
  import opened Util
  import opened Ordering
  import opened Cursor

  datatype Row = Row(key: int, pk: int, payload: int)

  function RowRank(r: Row): Rank { Rank(r.key, r.pk) }

  /** SQL's (key, pk) > (w, t), or key > w. */
  predicate Above(m: Mark, r: Row) {
    match m
    case Plain(w) => r.key > w
    case Pair(w, t) => Less(Rank(w, t), RowRank(r))
  }

  predicate Passes(from: Option<Mark>, r: Row) { from.Some? ==> Above(from.value, r) }

  function Where(from: Option<Mark>): Row -> bool { r => Passes(from, r) }

  function UpTo(m: Mark): Row -> bool { r => !Above(m, r) }

  function Between(from: Option<Mark>, to: Mark): Row -> bool { r => Passes(from, r) && !Above(to, r) }

  // ---- the driver's query ------------------------------------------------

  datatype Mode = FullRefresh | Increment

  datatype Order = Unordered | ByKey | ByKeyAndTie

  datatype Query = Query(where: Option<Mark>, order: Order, limit: nat)

  function OrderRank(o: Order): Row -> Rank {
    match o
    case Unordered => (r: Row) => Rank(0, 0)
    case ByKey => (r: Row) => Rank(r.key, 0)
    case ByKeyAndTie => RowRank
  }

  /** full is one arrangement the database may use for the rows the query selects. */
  ghost predicate Arranged(q: Query, table: seq<Row>, full: seq<Row>) {
    multiset(full) == multiset(Filter(table, Where(q.where))) && Sorted(full, OrderRank(q.order))
  }

  /** Where a query asks for no order, or only for keys in order, the database may arrange the rest as it likes. */
  lemma FreelyArranged(table: seq<Row>, from: Option<Mark>, limit: nat, full: seq<Row>)
    requires multiset(full) == multiset(Filter(table, Where(from)))
    ensures Arranged(Query(from, Unordered, limit), table, full)
    ensures (forall i, j | 0 <= i < j < |full| :: full[i].key <= full[j].key) ==>
      Arranged(Query(from, ByKey, limit), table, full)
  {
  }

  /** LIMIT; a limit of zero is no limit. */
  function Limited(q: Query, full: seq<Row>): (batch: seq<Row>)
    ensures batch <= full && (q.limit > 0 ==> |batch| <= q.limit)
    ensures batch == full || |batch| == q.limit > 0
  {
    if q.limit == 0 then full else Take(full, q.limit)
  }

  /** Only a bounded incremental pull (limit above zero) has a tie-breaker. */
  function QueryFor(mode: Mode, from: Option<Mark>, limit: nat): Query {
    match mode
    case FullRefresh => Query(None, Unordered, limit)
    case Increment =>
      Query(from, if limit > 0 then ByKeyAndTie else if from.Some? then ByKey else Unordered, limit)
  }

  /** The query is grown clause by clause from a bare SELECT. */
  method BuildQuery(mode: Mode, previous: Option<string>, limit: nat) returns (r: Result<Query, ()>)
    ensures mode.FullRefresh? ==> r == Ok(QueryFor(mode, None, limit))
    ensures mode.Increment? ==>
      r == match ReadMark(previous, limit > 0)
           case Ok(from) => Ok(QueryFor(mode, from, limit))
           case Err(_) => Err(())
  {
    var tieBreaker := mode.Increment? && limit > 0;
    var query := Query(None, Unordered, 0);
    if mode.Increment? && previous.Some? {
      var cursor := ReadMark(previous, tieBreaker);
      if cursor.Err? {
        return Err(());
      }
      query := query.(where := cursor.value);
    }
    if mode.Increment? {
      if tieBreaker {
        query := query.(order := ByKeyAndTie);
      } else if previous.Some? {
        query := query.(order := ByKey);
      }
    }
    if limit > 0 {
      query := query.(limit := limit);
    }
    return Ok(query);
  }

  // ---- the next watermark ------------------------------------------------

  function MaxKey(rows: seq<Row>): (k: int)
    requires rows != []
    ensures forall r | r in rows :: r.key <= k
    ensures exists r | r in rows :: r.key == k
  {
    var first := rows[0].key;
    if |rows| == 1 then first
    else
      var rest := MaxKey(rows[1..]);
      assert rows == [rows[0]] + rows[1..];
      if first < rest then
        (var r :| r in rows[1..] && r.key == rest; assert r in rows; rest)
      else (assert rows[0] in rows; first)
  }

  /** Unchanged on an empty batch; otherwise the greatest key, with the last row's primary key when bounded. */
  function NewMark(from: Option<Mark>, batch: seq<Row>, bounded: bool): Option<Mark> {
    if batch == [] then from
    else if !bounded then Some(Plain(MaxKey(batch)))
    else
      var sorted := Sort(batch, RowRank);
      SortSorted(batch, RowRank);
      Some(Pair(MaxKey(batch), sorted[|sorted| - 1].pk))
  }

  /** The new mark is the batch's greatest (key, pk), whatever order the batch came in. */
  lemma NewMarkIsGreatest(from: Option<Mark>, batch: seq<Row>, bounded: bool)
    requires batch != []
    ensures NewMark(from, batch, bounded).Some?
    ensures forall r | r in batch :: !Above(NewMark(from, batch, bounded).value, r)
    ensures bounded ==> exists r | r in batch :: NewMark(from, batch, bounded) == Some(Pair(r.key, r.pk))
  {
    if bounded {
      var sorted := Sort(batch, RowRank);
      SortSorted(batch, RowRank);
      var last := sorted[|sorted| - 1];
      assert last in multiset(sorted);
      forall r | r in batch ensures !Less(RowRank(last), RowRank(r)) {
        assert r in multiset(sorted);
        var i :| 0 <= i < |sorted| && sorted[i] == r;
      }
      assert last.key == MaxKey(batch);
    }
  }

  // ---- cuts --------------------------------------------------------------

  /** Primary keys are unique, so no two rows share (key, pk). */
  ghost predicate KeyedTable(source: seq<Row>) {
    forall i, j | 0 <= i < j < |source| :: source[i].pk != source[j].pk
  }

  /** The batch is exactly the source rows after from and up to to; no mark means nothing was there. */
  ghost predicate IsCut(source: seq<Row>, from: Option<Mark>, batch: seq<Row>, to: Option<Mark>) {
    match to
    case None => from.None? && batch == []
    case Some(m) =>
      && (forall r :: Above(m, r) ==> Passes(from, r))
      && multiset(batch) == multiset(Filter(source, Between(from, m)))
  }

  lemma RowsInTable(source: seq<Row>, from: Option<Mark>, full: seq<Row>)
    requires multiset(full) == multiset(Filter(source, Where(from)))
    ensures forall r | r in full :: r in source && Passes(from, r)
    ensures KeyedTable(source) ==>
      forall i, j | 0 <= i < j < |full| :: RowRank(full[i]) != RowRank(full[j])
  {
    FilterIn(source, Where(from));
    forall r | r in full ensures r in source && Passes(from, r) {
      assert r in multiset(full);
    }
    if KeyedTable(source) {
      forall i, j | 0 <= i < j < |full| ensures RowRank(full[i]) != RowRank(full[j]) {
        if full[i].pk == full[j].pk {
          FilterCount(source, Where(from), full[i]);
          assert full[i] in source && full[j] in source;
          assert full[i] == full[j];
          OccursOnce(source, full[i]);
          Twice(full, i, j);
        }
      }
    }
  }

  lemma {:induction false} OccursOnce(source: seq<Row>, r: Row)
    requires KeyedTable(source)
    ensures multiset(source)[r] <= 1
  {
    if source != [] {
      assert source == [source[0]] + source[1..];
      OccursOnce(source[1..], r);
    }
  }

  /**
   * What a pull brings back, in either mode and under any arrangement the
   * database picks, is exactly the rows between the old mark and the new one.
   */
  lemma QueryCuts(source: seq<Row>, from: Option<Mark>, limit: nat, full: seq<Row>)
    requires KeyedTable(source)
    requires limit == 0 ==> !(from.Some? && from.value.Pair?)
    requires Arranged(QueryFor(Increment, from, limit), source, full)
    ensures var batch := Limited(QueryFor(Increment, from, limit), full);
            IsCut(source, from, batch, NewMark(from, batch, limit > 0))
  {
    var batch := Limited(QueryFor(Increment, from, limit), full);
    if batch == [] {
      assert full == [];
      if from.Some? {
        NothingLeft(source, from, from.value);
      }
    } else {
      RowsInTable(source, from, full);
      BatchIsCut(source, from, limit, full, batch);
    }
  }

  lemma BatchIsCut(source: seq<Row>, from: Option<Mark>, limit: nat, full: seq<Row>, batch: seq<Row>)
    requires multiset(full) == multiset(Filter(source, Where(from)))
    requires batch == (if limit == 0 then full else Take(full, limit)) && batch != []
    requires limit == 0 ==> !(from.Some? && from.value.Pair?)
    requires limit > 0 ==> Sorted(full, RowRank)
    requires forall r | r in full :: Passes(from, r)
    requires forall i, j | 0 <= i < j < |full| :: RowRank(full[i]) != RowRank(full[j])
    ensures IsCut(source, from, batch, NewMark(from, batch, limit > 0))
  {
    NewMarkIsGreatest(from, batch, limit > 0);
    NewMarkAdvances(from, batch, limit > 0);
    var m := NewMark(from, batch, limit > 0).value;
    assert batch == full[..|batch|];
    if limit > 0 {
      LimitIsPrefix(full, |batch|, m);
    } else {
      FilterAll(full, UpTo(m));
    }
    FilterTwice(source, Where(from), UpTo(m), Between(from, m));
    FilterRearranged(full, Filter(source, Where(from)), UpTo(m));
  }

  lemma NothingLeft(source: seq<Row>, from: Option<Mark>, m: Mark)
    requires multiset(Filter(source, Where(from))) == multiset{}
    ensures Filter(source, Between(from, m)) == []
  {
    forall r | r in source ensures !Between(from, m)(r) {
      FilterCount(source, Where(from), r);
    }
    FilterNone(source, Between(from, m));
  }

  /** Rows above the new mark are above the old one. */
  lemma NewMarkAdvances(from: Option<Mark>, batch: seq<Row>, bounded: bool)
    requires batch != [] && (!bounded ==> !(from.Some? && from.value.Pair?))
    requires forall r | r in batch :: Passes(from, r)
    ensures NewMark(from, batch, bounded).Some?
    ensures forall r :: Above(NewMark(from, batch, bounded).value, r) ==> Passes(from, r)
  {
    NewMarkIsGreatest(from, batch, bounded);
    var m := NewMark(from, batch, bounded).value;
    if !bounded {
      var r :| r in batch && r.key == MaxKey(batch);
    } else {
      var r :| r in batch && m == Pair(r.key, r.pk);
      assert Passes(from, r);
    }
  }

  lemma PastLimit(full: seq<Row>, i: nat, n: nat)
    requires Sorted(full, RowRank) && i < n <= |full|
    requires forall i, j | 0 <= i < j < |full| :: RowRank(full[i]) != RowRank(full[j])
    ensures forall x | x in full[n..] :: Above(Pair(full[i].key, full[i].pk), x)
  {
    forall x | x in full[n..] ensures Above(Pair(full[i].key, full[i].pk), x) {
      var j :| 0 <= j < |full[n..]| && full[n..][j] == x;
      assert full[n + j] == x && !Less(RowRank(full[n + j]), RowRank(full[i]));
    }
  }

  /** Of sorted rows with distinct ranks, those up to the n-th are the first n. */
  lemma LimitIsPrefix(full: seq<Row>, n: nat, m: Mark)
    requires Sorted(full, RowRank) && 0 < n <= |full|
    requires forall i, j | 0 <= i < j < |full| :: RowRank(full[i]) != RowRank(full[j])
    requires m.Pair? && (exists r | r in full[..n] :: m == Pair(r.key, r.pk))
    requires forall r | r in full[..n] :: !Above(m, r)
    ensures Filter(full, UpTo(m)) == full[..n]
  {
    assert full == full[..n] + full[n..];
    FilterAppend(full[..n], full[n..], UpTo(m));
    FilterAll(full[..n], UpTo(m));
    var r :| r in full[..n] && m == Pair(r.key, r.pk);
    var i :| 0 <= i < n && full[i] == r;
    PastLimit(full, i, n);
    FilterNone(full[n..], UpTo(m));
  }

  /** A row that lands above the new mark leaves a cut a cut. */
  lemma CutSurvivesArrival(source: seq<Row>, from: Option<Mark>, batch: seq<Row>, to: Option<Mark>, r: Row)
    requires IsCut(source, from, batch, to) && (to.Some? ==> Above(to.value, r))
    ensures IsCut(source + [r], from, batch, to)
  {
    if to.Some? {
      FilterAppend(source, [r], Between(from, to.value));
      assert Filter([r], Between(from, to.value)) == [];
    }
  }
}
