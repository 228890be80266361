/**
 * What a run of the event loop costs when nothing is assumed of it: rows land
 * anywhere with a fresh primary key, and any read-back may fail.
 */
module Promises {
  import opened Util
  import opened Ordering
  import opened Cursor
  import opened Incremental
  import opened Lanes
  import opened Schedule

  // ---- what every step keeps ---------------------------------------------

  /** Under a stored cursor there is an output, and its rows are source rows. */
  ghost predicate Sound(l: Lane) {
    && KeyedTable(l.source)
    && match MarkOf(l.stored)
       case None => l.stored.None?
       case Some(m) =>
         && l.stored == Some(MarkText(m)) && l.output.Some?
         && forall r | r in l.output.value :: r in l.source
  }

  /** Rows in hand are source rows between the marks; what the output already has between them is in hand too. */
  ghost predicate InHand(l: Lane, from: Option<Mark>, batch: seq<Row>, to: Option<Mark>) {
    && (forall r | r in batch :: r in l.source && Passes(from, r))
    && match to
       case None => from.None? && batch == []
       case Some(m) =>
         && (forall r :: Above(m, r) ==> Passes(from, r))
         && (forall r | r in batch :: !Above(m, r))
         && (from.Some? && l.output.Some? ==>
               forall r | r in l.output.value && Passes(from, r) && !Above(m, r) :: r in batch)
  }

  ghost function Holds(): (Lane, Task) -> bool {
    (l: Lane, t: Task) => t.Fetched? ==> InHand(l, MarkOf(t.prev), t.batch, t.to)
  }

  ghost predicate Weak(pool: nat, s: Sys) {
    Scheduled(pool, s) && EachLane(s.lanes, Sound) && EachFetched(s.lanes, s.tasks, Holds())
  }

  lemma CutIsInHand(l: Lane, from: Option<Mark>, batch: seq<Row>, to: Option<Mark>)
    requires Sound(l) && from == MarkOf(l.stored) && IsCut(l.source, from, batch, to)
    ensures InHand(l, from, batch, to)
  {
    if to.Some? {
      CutMembers(l.source, from, batch, to.value);
    }
  }

  lemma FreshStaysSound(l: Lane, r: Row)
    requires Sound(l) && FreshKey(l.source, r)
    ensures Sound(Arrived(l, r)) && r !in l.source
  {
  }

  lemma LandingIsSound(l: Lane, t: Task, outcome: Outcome, readable: bool)
    requires Sound(l) && t.Fetched? && t.prev == l.stored && InHand(l, MarkOf(t.prev), t.batch, t.to)
    ensures Sound(Landed(l, t, outcome, readable))
  {
    if t.to.Some? {
      StoredMarkRoundTrip(t.to.value, true);
    }
  }

  lemma LanesStaySound(pool: nat, s: Sys, step: Step)
    requires Weak(pool, s) && Enabled(s, step)
    ensures EachLane(Apply(pool, s, step).lanes, Sound)
  {
    match step
    case Finish(id, outcome, readable) =>
      var t := s.tasks[id];
      assert Placed(s.lanes, s.inFlight, t) && Sound(s.lanes[t.target]) && Holds()(s.lanes[t.target], t);
      LandingIsSound(s.lanes[t.target], t, outcome, readable);
      LanesFollow(pool, s, step, Sound);
    case Arrive(target, row) =>
      FreshStaysSound(s.lanes[target], row);
      LanesFollow(pool, s, step, Sound);
    case _ => LanesFollow(pool, s, step, Sound);
  }

  lemma FetchedStayInHand(pool: nat, s: Sys, step: Step)
    requires Weak(pool, s) && Enabled(s, step)
    ensures EachFetched(Apply(pool, s, step).lanes, Apply(pool, s, step).tasks, Holds())
  {
    match step
    case Answer(id, limit, full) =>
      var t := s.tasks[id];
      var l := s.lanes[t.target];
      assert Placed(s.lanes, s.inFlight, t) && Sound(l);
      AnswerIsGood(l.source, t.prev, limit, full);
      var a := Answered(t, limit, full);
      CutIsInHand(l, MarkOf(t.prev), a.batch, a.to);
      FetchedFollow(pool, s, step, Holds());
    case Arrive(target, row) =>
      forall id | id in s.tasks && s.tasks[id].Fetched? && s.tasks[id].target == target
        ensures Holds()(Arrived(s.lanes[target], row), s.tasks[id])
      {
        assert Holds()(s.lanes[target], s.tasks[id]);
      }
      FetchedFollow(pool, s, step, Holds());
    case _ => FetchedFollow(pool, s, step, Holds());
  }

  lemma WeakStep(pool: nat, s: Sys, step: Step)
    requires Weak(pool, s) && Enabled(s, step)
    ensures Weak(pool, Apply(pool, s, step))
  {
    StepSchedules(pool, s, step);
    LanesStaySound(pool, s, step);
    FetchedStayInHand(pool, s, step);
  }

  // ---- lossy steps -------------------------------------------------------

  /** The table has come to hold a row between the marks that is not in hand: it landed after the query. */
  ghost predicate Overtaken(source: seq<Row>, from: Option<Mark>, batch: seq<Row>, to: Option<Mark>) {
    to.Some? && exists r | r in source :: Passes(from, r) && !Above(to.value, r) && r !in batch
  }

  /**
   * A publish whose read-back fails over held rows, a commit past a row that
   * landed after the query, and a row that lands at or below the cursor.
   */
  ghost predicate Lossy(s: Sys, step: Step)
    requires Enabled(s, step)
  {
    match step
    case Finish(id, outcome, readable) => LossyLanding(s.lanes[s.tasks[id].target], s.tasks[id], outcome, readable)
    case Arrive(target, row) => !Passes(MarkOf(s.lanes[target].stored), row)
    case _ => false
  }

  ghost predicate LossyLanding(l: Lane, t: Task, outcome: Outcome, readable: bool)
    requires t.Fetched?
  {
    || (!outcome.WriteRefused? && !readable && !NothingHeld(l))
    || (outcome.Stored? && Overtaken(l.source, MarkOf(t.prev), t.batch, t.to))
  }

  lemma NothingHeldMembers(l: Lane)
    ensures NothingHeld(l) <==>
      (MarkOf(l.stored).Some? ==> forall r | r in l.source :: Above(MarkOf(l.stored).value, r))
  {
    if MarkOf(l.stored).Some? {
      var m := MarkOf(l.stored).value;
      FilterIn(l.source, UpTo(m));
      var held := Filter(l.source, UpTo(m));
      if held != [] {
        assert held[0] in held && UpTo(m)(held[0]);
      } else {
        assert forall r | r in l.source :: UpTo(m)(r) ==> r in held;
      }
    }
  }

  /** Losing a row and missing one are the same. */
  lemma LossIsMissing(l: Lane)
    requires Sound(l)
    ensures NothingLost(l) <==> forall r :: !Missed(l, r)
  {
    if MarkOf(l.stored).Some? && !NothingLost(l) {
      var r :| r in l.source && !Above(MarkOf(l.stored).value, r) && r !in l.output.value;
      assert Missed(l, r);
    }
    if NothingLost(l) {
      forall r ensures !Missed(l, r) {
      }
    }
  }

  lemma ArrivalLosesExactly(l: Lane, r: Row)
    requires Sound(l) && NothingLost(l) && FreshKey(l.source, r)
    ensures NothingLost(Arrived(l, r)) <==> Passes(MarkOf(l.stored), r)
  {
    FreshStaysSound(l, r);
    assert r in Arrived(l, r).source;
  }

  /** A publish that is never committed. */
  lemma PublishLosesExactly(l: Lane, t: Task, readable: bool)
    requires Sound(l) && NothingLost(l) && t.Fetched? && t.prev == l.stored
    requires InHand(l, MarkOf(t.prev), t.batch, t.to)
    ensures NothingLost(Landed(l, t, CommitRefused, readable)) <==> readable || NothingHeld(l)
  {
    NothingHeldMembers(l);
  }

  /** A committed one. */
  lemma CommitLosesExactly(l: Lane, t: Task, readable: bool)
    requires Sound(l) && NothingLost(l) && t.Fetched? && t.prev == l.stored
    requires InHand(l, MarkOf(t.prev), t.batch, t.to)
    ensures NothingLost(Landed(l, t, Stored, readable)) <==> !LossyLanding(l, t, Stored, readable)
  {
    NothingHeldMembers(l);
    if t.to.Some? {
      StoredMarkRoundTrip(t.to.value, true);
    }
  }

  lemma LandingLosesExactly(l: Lane, t: Task, outcome: Outcome, readable: bool)
    requires Sound(l) && NothingLost(l) && t.Fetched? && t.prev == l.stored
    requires InHand(l, MarkOf(t.prev), t.batch, t.to)
    ensures NothingLost(Landed(l, t, outcome, readable)) <==> !LossyLanding(l, t, outcome, readable)
  {
    match outcome
    case WriteRefused =>
    case CommitRefused => PublishLosesExactly(l, t, readable);
    case Stored => CommitLosesExactly(l, t, readable);
  }

  // ---- a missed row stays missed -----------------------------------------

  lemma LandingKeepsMissed(l: Lane, t: Task, outcome: Outcome, readable: bool, r: Row)
    requires Sound(l) && Missed(l, r) && t.Fetched? && t.prev == l.stored
    requires InHand(l, MarkOf(t.prev), t.batch, t.to)
    ensures Missed(Landed(l, t, outcome, readable), r)
  {
    if t.to.Some? {
      StoredMarkRoundTrip(t.to.value, true);
    }
  }

  lemma StepKeepsMissed(pool: nat, s: Sys, step: Step, target: string, r: Row)
    requires Weak(pool, s) && Enabled(s, step) && target in s.lanes && Missed(s.lanes[target], r)
    ensures target in Apply(pool, s, step).lanes && Missed(Apply(pool, s, step).lanes[target], r)
  {
    match step
    case Finish(id, outcome, readable) =>
      var t := s.tasks[id];
      assert Placed(s.lanes, s.inFlight, t) && Sound(s.lanes[t.target]) && Holds()(s.lanes[t.target], t);
      if t.target == target {
        LandingKeepsMissed(s.lanes[target], t, outcome, readable, r);
      }
    case _ =>
  }

  /** Whatever happens later, crashes and restarts included, no run brings a missed row back. */
  lemma {:induction false} MissedForGood(pool: nat, s: Sys, steps: seq<Step>, s': Sys, target: string, r: Row)
    requires Weak(pool, s) && Run(pool, s, steps, s') && target in s.lanes && Missed(s.lanes[target], r)
    ensures target in s'.lanes && Missed(s'.lanes[target], r)
    decreases |steps|
  {
    if steps != [] {
      WeakStep(pool, s, steps[0]);
      StepKeepsMissed(pool, s, steps[0], target, r);
      MissedForGood(pool, Apply(pool, s, steps[0]), steps[1..], s', target, r);
    }
  }

  // ---- whole runs --------------------------------------------------------

  /** No step of the run is lossy when it is taken. */
  ghost predicate Lossless(pool: nat, s: Sys, steps: seq<Step>)
    decreases |steps|
  {
    steps == []
    || (Enabled(s, steps[0]) && !Lossy(s, steps[0]) && Lossless(pool, Apply(pool, s, steps[0]), steps[1..]))
  }

  lemma QuietStepLosesNothing(pool: nat, s: Sys, step: Step)
    requires Weak(pool, s) && Enabled(s, step) && EachLane(s.lanes, NothingLost) && !Lossy(s, step)
    ensures EachLane(Apply(pool, s, step).lanes, NothingLost)
  {
    match step
    case Finish(id, outcome, readable) =>
      var t := s.tasks[id];
      var l := s.lanes[t.target];
      assert Placed(s.lanes, s.inFlight, t) && Sound(l) && Holds()(l, t) && NothingLost(l);
      LandingLosesExactly(l, t, outcome, readable);
      LanesFollow(pool, s, step, NothingLost);
    case Arrive(target, row) =>
      assert Sound(s.lanes[target]) && NothingLost(s.lanes[target]);
      ArrivalLosesExactly(s.lanes[target], row);
      LanesFollow(pool, s, step, NothingLost);
    case _ => LanesFollow(pool, s, step, NothingLost);
  }

  lemma LossyStepMisses(pool: nat, s: Sys, step: Step) returns (target: string, r: Row)
    requires Weak(pool, s) && Enabled(s, step) && EachLane(s.lanes, NothingLost) && Lossy(s, step)
    ensures target in Apply(pool, s, step).lanes && Missed(Apply(pool, s, step).lanes[target], r)
  {
    var s' := Apply(pool, s, step);
    WeakStep(pool, s, step);
    match step
    case Finish(id, outcome, readable) =>
      var t := s.tasks[id];
      var l := s.lanes[t.target];
      assert Placed(s.lanes, s.inFlight, t) && Sound(l) && Holds()(l, t) && NothingLost(l);
      LandingLosesExactly(l, t, outcome, readable);
      target := t.target;
      assert Sound(s'.lanes[target]);
      LossIsMissing(s'.lanes[target]);
      r :| Missed(s'.lanes[target], r);
    case Arrive(at, row) =>
      var l := s.lanes[at];
      assert Sound(l) && NothingLost(l);
      target, r := at, row;
      FreshStaysSound(l, row);
  }

  /**
   * The promise, exactly: after any run, no lane misses a row at or below its
   * cursor if and only if no step of the run was lossy.
   */
  lemma {:induction false} PromiseKeptExactly(pool: nat, s: Sys, steps: seq<Step>, s': Sys)
    requires Weak(pool, s) && EachLane(s.lanes, NothingLost) && Run(pool, s, steps, s')
    ensures EachLane(s'.lanes, NothingLost) <==> Lossless(pool, s, steps)
    decreases |steps|
  {
    if steps != [] {
      var mid := Apply(pool, s, steps[0]);
      WeakStep(pool, s, steps[0]);
      if Lossy(s, steps[0]) {
        var target, r := LossyStepMisses(pool, s, steps[0]);
        MissedForGood(pool, mid, steps[1..], s', target, r);
        MissedIsLost(s'.lanes[target], r);
      } else {
        QuietStepLosesNothing(pool, s, steps[0]);
        PromiseKeptExactly(pool, mid, steps[1..], s');
      }
    }
  }

  lemma MissedIsLost(l: Lane, r: Row)
    requires Missed(l, r)
    ensures !NothingLost(l)
  {
  }

  /** A daemon started over sound lanes may start any run. */
  lemma IdleIsWeak(pool: nat, s: Sys)
    requires Idle(pool, s) && EachLane(s.lanes, Sound)
    ensures Weak(pool, s)
  {
    IdleIsScheduled(pool, s);
  }

  // ---- one such run ------------------------------------------------------

  /** A row of key three lands while a pull holds the row of key five: after the commit it is missed. */
  lemma LateRowIsLost()
    ensures var first, late := Row(5, 1, 0), Row(3, 2, 0);
            var l := Lane([first], None, None, multiset{});
            var batch := NextRows(l.source, None, 1);
            && MayArrive(l, late)
            && Missed(Committed(Published(Arrived(l, late), batch, true, true), batch, NewMark(None, batch, true)), late)
  {
    var first, late := Row(5, 1, 0), Row(3, 2, 0);
    assert Filter([first], Where(None)) == [first];
    assert Sort([first], RowRank) == [first];
    assert NextRows([first], None, 1) == [first];
    assert NewMark(None, [first], true) == Some(Pair(5, 1));
    StoredMarkRoundTrip(Pair(5, 1), true);
    assert late in [first, late] && late !in [first];
  }
}
