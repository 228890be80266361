/**
 * The daemon's event loop: pulls interleaved at their await points over one semaphore,
 * with failures, refused writes and commits, crashes, and rows arriving at any moment.
 */
module Schedule {
  import opened Util
  import opened Ordering
  import opened Cursor
  import opened Incremental
  import opened Lanes

  /** Delays before the second, third and fourth attempt. */
  const RETRY_DELAYS := [1, 4, 16]

  datatype Task =
    | Queued(target: string, prev: Option<string>)
    | Trying(target: string, prev: Option<string>, failures: nat)
    | Fetched(target: string, prev: Option<string>, failures: nat,
              bounded: bool, batch: seq<Row>, to: Option<Mark>)

  datatype Sys = Sys(lanes: map<string, Lane>, tasks: map<nat, Task>, inFlight: set<string>, free: nat)

  datatype Outcome = Stored | WriteRefused | CommitRefused

  datatype Step =
    | Begin(id: nat, target: string, recalls: bool)
    | Acquire(id: nat)
    | Answer(id: nat, limit: nat, full: seq<Row>)
    | Fail(id: nat, permanent: bool)
    | Finish(id: nat, outcome: Outcome, readable: bool)
    | Crash
    | Arrive(target: string, row: Row)

  /** What the event loop, the database and the environment may do next. */
  ghost predicate Enabled(s: Sys, step: Step) {
    match step
    case Begin(id, target, _) => id !in s.tasks && target in s.lanes
    case Acquire(id) => id in s.tasks && s.tasks[id].Queued? && s.free > 0
    case Answer(id, limit, full) =>
      && id in s.tasks && s.tasks[id].Trying? && s.tasks[id].target in s.lanes
      && ReadMark(s.tasks[id].prev, limit > 0).Ok?
      && Arranged(QueryFor(Increment, MarkOf(s.tasks[id].prev), limit), s.lanes[s.tasks[id].target].source, full)
    case Fail(id, _) => id in s.tasks && !s.tasks[id].Queued?
    case Finish(id, _, _) => id in s.tasks && s.tasks[id].Fetched? && s.tasks[id].target in s.lanes
    case Crash => true
    case Arrive(target, row) => target in s.lanes && FreshKey(s.lanes[target].source, row)
  }

  /** The task ends: its flag is cleared and its permit, if it holds one, is given back. */
  function Ended(s: Sys, id: nat): Sys
    requires id in s.tasks
  {
    s.(tasks := s.tasks - {id},
       inFlight := s.inFlight - {s.tasks[id].target},
       free := if s.tasks[id].Queued? then s.free else s.free + 1)
  }

  /** The lane after the frame is merged and published and the cursor committed, as far as that gets. */
  function Landed(l: Lane, t: Task, outcome: Outcome, readable: bool): Lane
    requires t.Fetched?
  {
    match outcome
    case WriteRefused => l
    case CommitRefused => Published(l, t.batch, t.prev.None?, readable)
    case Stored => Committed(Published(l, t.batch, t.prev.None?, readable), t.batch, t.to)
  }

  /** The task with its rows in hand. */
  function Answered(t: Task, limit: nat, full: seq<Row>): Task
    requires t.Trying?
  {
    var from := MarkOf(t.prev);
    var batch := Limited(QueryFor(Increment, from, limit), full);
    Fetched(t.target, t.prev, t.failures, limit > 0, batch, NewMark(from, batch, limit > 0))
  }

  function Apply(pool: nat, s: Sys, step: Step): Sys
    requires Enabled(s, step)
  {
    match step
    case Begin(id, target, recalls) =>
      if target in s.inFlight then s   // skipped_overlap
      else if !recalls then s.(inFlight := s.inFlight + {target})
      else s.(tasks := s.tasks[id := Queued(target, s.lanes[target].stored)], inFlight := s.inFlight + {target})
    case Acquire(id) =>
      var t := s.tasks[id];
      s.(tasks := s.tasks[id := Trying(t.target, t.prev, 0)], free := s.free - 1)
    case Answer(id, limit, full) => s.(tasks := s.tasks[id := Answered(s.tasks[id], limit, full)])
    case Fail(id, permanent) =>
      var t := s.tasks[id];
      if permanent || t.failures == |RETRY_DELAYS| then Ended(s, id)
      else s.(tasks := s.tasks[id := Trying(t.target, t.prev, t.failures + 1)])
    case Finish(id, outcome, readable) =>
      var t := s.tasks[id];
      Ended(s, id).(lanes := s.lanes[t.target := Landed(s.lanes[t.target], t, outcome, readable)])
    case Crash => Sys(s.lanes, map[], {}, pool)
    case Arrive(target, row) => s.(lanes := s.lanes[target := Arrived(s.lanes[target], row)])
  }

  // ---- scheduling --------------------------------------------------------

  /** The tasks inside the semaphore. */
  function Holders(tasks: map<nat, Task>): set<nat> {
    set id | id in tasks && !tasks[id].Queued?
  }

  ghost predicate Placed(lanes: map<string, Lane>, inFlight: set<string>, t: Task) {
    && t.target in lanes
    && t.target in inFlight
    && t.prev == lanes[t.target].stored
    && (!t.Queued? ==> t.failures <= |RETRY_DELAYS|)
  }

  ghost predicate AllPlaced(lanes: map<string, Lane>, inFlight: set<string>, tasks: map<nat, Task>) {
    forall id | id in tasks :: Placed(lanes, inFlight, tasks[id])
  }

  /** One task per target; a target with a task has its flag up, but a flag may be up without a task. */
  ghost predicate OneEach(tasks: map<nat, Task>) {
    forall a, b | a in tasks && b in tasks && a != b :: tasks[a].target != tasks[b].target
  }

  /** What scheduling alone keeps, whatever the rows and the files do. */
  ghost predicate Scheduled(pool: nat, s: Sys) {
    && AllPlaced(s.lanes, s.inFlight, s.tasks)
    && OneEach(s.tasks)
    && |Holders(s.tasks)| + s.free == pool
  }

  lemma NewTaskPlaced(lanes: map<string, Lane>, inFlight: set<string>, tasks: map<nat, Task>, id: nat, t: Task)
    requires AllPlaced(lanes, inFlight, tasks)
    requires id !in tasks && t.target !in inFlight && Placed(lanes, inFlight + {t.target}, t)
    ensures AllPlaced(lanes, inFlight + {t.target}, tasks[id := t])
    ensures forall i | i in tasks :: tasks[i].target != t.target
  {
    forall i | i in tasks ensures Placed(lanes, inFlight + {t.target}, tasks[i]) && tasks[i].target != t.target {
      assert Placed(lanes, inFlight, tasks[i]);
    }
  }

  /** A new queued task for a target nobody is pulling, or a flag raised for nothing. */
  lemma BeginSchedules(pool: nat, s: Sys, id: nat, target: string, recalls: bool)
    requires Scheduled(pool, s) && Enabled(s, Begin(id, target, recalls))
    ensures Scheduled(pool, Apply(pool, s, Begin(id, target, recalls)))
  {
    if target !in s.inFlight {
      var t := Queued(target, s.lanes[target].stored);
      NewTaskPlaced(s.lanes, s.inFlight, s.tasks, id, t);
      assert Holders(s.tasks[id := t]) == Holders(s.tasks);
      forall i | i in s.tasks ensures Placed(s.lanes, s.inFlight + {target}, s.tasks[i]) {
        assert Placed(s.lanes, s.inFlight, s.tasks[i]);
      }
    }
  }

  /** A task may be replaced by another well-placed one for the same target. */
  lemma ReplaceOne(s: Sys, id: nat, t': Task)
    requires AllPlaced(s.lanes, s.inFlight, s.tasks) && OneEach(s.tasks) && id in s.tasks
    requires t'.target == s.tasks[id].target && Placed(s.lanes, s.inFlight, t')
    ensures AllPlaced(s.lanes, s.inFlight, s.tasks[id := t']) && OneEach(s.tasks[id := t'])
  {
  }

  lemma AcquireSchedules(pool: nat, s: Sys, id: nat)
    requires Scheduled(pool, s) && Enabled(s, Acquire(id))
    ensures Scheduled(pool, Apply(pool, s, Acquire(id)))
  {
    var t := s.tasks[id];
    assert Placed(s.lanes, s.inFlight, t);
    assert Holders(s.tasks[id := Trying(t.target, t.prev, 0)]) == Holders(s.tasks) + {id};
    ReplaceOne(s, id, Trying(t.target, t.prev, 0));
  }

  lemma HolderReplaced(pool: nat, s: Sys, id: nat, t': Task)
    requires Scheduled(pool, s) && id in s.tasks && !s.tasks[id].Queued? && !t'.Queued?
    requires t'.target == s.tasks[id].target && t'.prev == s.tasks[id].prev && t'.failures <= |RETRY_DELAYS|
    ensures Scheduled(pool, s.(tasks := s.tasks[id := t']))
  {
    assert Placed(s.lanes, s.inFlight, s.tasks[id]);
    assert Holders(s.tasks[id := t']) == Holders(s.tasks);
    ReplaceOne(s, id, t');
  }

  lemma AnswerSchedules(pool: nat, s: Sys, id: nat, limit: nat, full: seq<Row>)
    requires Scheduled(pool, s) && Enabled(s, Answer(id, limit, full))
    ensures Scheduled(pool, Apply(pool, s, Answer(id, limit, full)))
  {
    assert Placed(s.lanes, s.inFlight, s.tasks[id]);
    HolderReplaced(pool, s, id, Answered(s.tasks[id], limit, full));
  }

  lemma EndedSchedules(pool: nat, s: Sys, id: nat)
    requires Scheduled(pool, s) && id in s.tasks
    ensures Scheduled(pool, Ended(s, id))
  {
    var s' := Ended(s, id);
    assert Holders(s'.tasks) == Holders(s.tasks) - {id};
    assert id in Holders(s.tasks) <==> !s.tasks[id].Queued?;
  }

  lemma RetrySchedules(pool: nat, s: Sys, id: nat, t: Task, t': Task)
    requires Scheduled(pool, s) && id in s.tasks && s.tasks[id] == t && !t.Queued? && t.failures != |RETRY_DELAYS|
    requires t' == Trying(t.target, t.prev, t.failures + 1)
    ensures Scheduled(pool, s.(tasks := s.tasks[id := t']))
  {
    assert Placed(s.lanes, s.inFlight, t);
    HolderReplaced(pool, s, id, t');
  }

  lemma FailSchedules(pool: nat, s: Sys, id: nat, permanent: bool)
    requires Scheduled(pool, s) && Enabled(s, Fail(id, permanent))
    ensures Scheduled(pool, Apply(pool, s, Fail(id, permanent)))
  {
    var t := s.tasks[id];
    if permanent || t.failures == |RETRY_DELAYS| {
      EndedSchedules(pool, s, id);
    } else {
      RetrySchedules(pool, s, id, t, Trying(t.target, t.prev, t.failures + 1));
    }
  }

  /** A lane nobody is pulling may move its cursor; any lane may change otherwise. */
  lemma LaneReplaced(pool: nat, s: Sys, target: string, l: Lane)
    requires Scheduled(pool, s) && target in s.lanes
    requires l.stored == s.lanes[target].stored || target !in s.inFlight
    ensures Scheduled(pool, s.(lanes := s.lanes[target := l]))
  {
    forall i | i in s.tasks ensures Placed(s.lanes[target := l], s.inFlight, s.tasks[i]) {
      assert Placed(s.lanes, s.inFlight, s.tasks[i]);
    }
  }

  lemma FinishSchedules(pool: nat, s: Sys, id: nat, outcome: Outcome, readable: bool)
    requires Scheduled(pool, s) && Enabled(s, Finish(id, outcome, readable))
    ensures Scheduled(pool, Apply(pool, s, Finish(id, outcome, readable)))
  {
    var t := s.tasks[id];
    EndedSchedules(pool, s, id);
    LaneReplaced(pool, Ended(s, id), t.target, Landed(s.lanes[t.target], t, outcome, readable));
  }

  lemma StepSchedules(pool: nat, s: Sys, step: Step)
    requires Scheduled(pool, s) && Enabled(s, step)
    ensures Scheduled(pool, Apply(pool, s, step))
  {
    match step
    case Begin(id, target, recalls) => BeginSchedules(pool, s, id, target, recalls);
    case Acquire(id) => AcquireSchedules(pool, s, id);
    case Answer(id, limit, full) => AnswerSchedules(pool, s, id, limit, full);
    case Fail(id, permanent) => FailSchedules(pool, s, id, permanent);
    case Finish(id, outcome, readable) => FinishSchedules(pool, s, id, outcome, readable);
    case Crash =>
      assert Holders(map[]) == {};
    case Arrive(target, row) => LaneReplaced(pool, s, target, Arrived(s.lanes[target], row));
  }

  // ---- what follows the lanes and the rows in hand -----------------------

  ghost predicate EachLane(lanes: map<string, Lane>, good: Lane -> bool) {
    forall target | target in lanes :: good(lanes[target])
  }

  /** Every task with rows in hand stands in the given relation to its lane. */
  ghost predicate EachFetched(lanes: map<string, Lane>, tasks: map<nat, Task>, fits: (Lane, Task) -> bool) {
    forall id | id in tasks && tasks[id].Fetched? && tasks[id].target in lanes :: fits(lanes[tasks[id].target], tasks[id])
  }

  /** Only a finishing pull and an arriving row change a lane. */
  lemma LanesFollow(pool: nat, s: Sys, step: Step, good: Lane -> bool)
    requires Enabled(s, step) && EachLane(s.lanes, good)
    requires step.Finish? ==>
      good(Landed(s.lanes[s.tasks[step.id].target], s.tasks[step.id], step.outcome, step.readable))
    requires step.Arrive? ==> good(Arrived(s.lanes[step.target], step.row))
    ensures EachLane(Apply(pool, s, step).lanes, good)
  {
  }

  /** Only an answer puts rows in hand, and only an arrival changes the lane under rows in hand. */
  lemma FetchedFollow(pool: nat, s: Sys, step: Step, fits: (Lane, Task) -> bool)
    requires Scheduled(pool, s) && Enabled(s, step) && EachFetched(s.lanes, s.tasks, fits)
    requires step.Answer? ==>
      fits(s.lanes[s.tasks[step.id].target], Answered(s.tasks[step.id], step.limit, step.full))
    requires step.Arrive? ==>
      forall id | id in s.tasks && s.tasks[id].Fetched? && s.tasks[id].target == step.target ::
        fits(Arrived(s.lanes[step.target], step.row), s.tasks[id])
    ensures EachFetched(Apply(pool, s, step).lanes, Apply(pool, s, step).tasks, fits)
  {
    match step
    case Finish(id, outcome, readable) =>
      forall i | i in s.tasks && i != id ensures s.tasks[i].target != s.tasks[id].target {
      }
    case _ =>
  }

  // ---- the invariant of orderly runs -------------------------------------

  /** A batch in hand is still the whole cut, closed by its own last row when bounded. */
  ghost predicate CutFits(l: Lane, t: Task)
    requires t.Fetched?
  {
    && IsCut(l.source, MarkOf(t.prev), t.batch, t.to)
    && (t.bounded ==> BoundedBatch(MarkOf(t.prev), t.batch, t.to))
  }

  ghost function Fits(): (Lane, Task) -> bool { (l: Lane, t: Task) => t.Fetched? ==> CutFits(l, t) }

  ghost predicate Inv(pool: nat, s: Sys) {
    Scheduled(pool, s) && EachLane(s.lanes, Conserved) && EachFetched(s.lanes, s.tasks, Fits())
  }

  /**
   * Rows arrive above every mark in use, and the output is read back, unless
   * the pull is a first one or nothing is held under its cursor.
   */
  ghost predicate Orderly(s: Sys, step: Step)
    requires Enabled(s, step)
  {
    match step
    case Arrive(target, row) =>
      && Passes(MarkOf(s.lanes[target].stored), row)
      && forall id | id in s.tasks && s.tasks[id].Fetched? && s.tasks[id].target == target ::
           Passes(s.tasks[id].to, row)
    case Finish(id, outcome, readable) =>
      readable || outcome.WriteRefused? || NothingHeld(s.lanes[s.tasks[id].target])
    case _ => true
  }

  lemma AnswerIsGood(source: seq<Row>, prev: Option<string>, limit: nat, full: seq<Row>)
    requires KeyedTable(source) && ReadMark(prev, limit > 0).Ok?
    requires prev.Some? ==> MarkOf(prev).Some? && prev == Some(MarkText(MarkOf(prev).value))
    requires Arranged(QueryFor(Increment, MarkOf(prev), limit), source, full)
    ensures var from := MarkOf(prev);
            var batch := Limited(QueryFor(Increment, from, limit), full);
            && IsCut(source, from, batch, NewMark(from, batch, limit > 0))
            && (limit > 0 ==> BoundedBatch(from, batch, NewMark(from, batch, true)))
  {
    var from := MarkOf(prev);
    if prev.Some? {
      StoredMarkRoundTrip(from.value, limit > 0);
    }
    QueryCuts(source, from, limit, full);
    if limit > 0 {
      OneAnswer(source, from, limit, full);
      NextRowsAreBounded(source, from, limit);
    }
  }

  lemma LandingConserves(l: Lane, t: Task, outcome: Outcome, readable: bool)
    requires Conserved(l) && t.Fetched? && t.prev == l.stored
    requires IsCut(l.source, MarkOf(t.prev), t.batch, t.to)
    requires readable || outcome.WriteRefused? || NothingHeld(l)
    ensures Conserved(Landed(l, t, outcome, readable)) && Landed(l, t, outcome, readable).source == l.source
  {
    match outcome
    case WriteRefused =>
    case CommitRefused => PublishConserves(l, t.batch, readable);
    case Stored => PullConserves(l, t.batch, t.to, readable);
  }

  lemma OrderlyLanes(pool: nat, s: Sys, step: Step)
    requires Inv(pool, s) && Enabled(s, step) && Orderly(s, step)
    ensures EachLane(Apply(pool, s, step).lanes, Conserved)
  {
    match step
    case Finish(id, outcome, readable) =>
      var t := s.tasks[id];
      assert Placed(s.lanes, s.inFlight, t) && Conserved(s.lanes[t.target]) && Fits()(s.lanes[t.target], t);
      LandingConserves(s.lanes[t.target], t, outcome, readable);
      LanesFollow(pool, s, step, Conserved);
    case Arrive(target, row) =>
      ArrivalConserves(s.lanes[target], row);
      LanesFollow(pool, s, step, Conserved);
    case _ => LanesFollow(pool, s, step, Conserved);
  }

  lemma OrderlyFetched(pool: nat, s: Sys, step: Step)
    requires Inv(pool, s) && Enabled(s, step) && Orderly(s, step)
    ensures EachFetched(Apply(pool, s, step).lanes, Apply(pool, s, step).tasks, Fits())
  {
    match step
    case Answer(id, limit, full) =>
      var t := s.tasks[id];
      assert Placed(s.lanes, s.inFlight, t) && Conserved(s.lanes[t.target]);
      AnswerIsGood(s.lanes[t.target].source, t.prev, limit, full);
      FetchedFollow(pool, s, step, Fits());
    case Arrive(target, row) =>
      forall id | id in s.tasks && s.tasks[id].Fetched? && s.tasks[id].target == target
        ensures Fits()(Arrived(s.lanes[target], row), s.tasks[id])
      {
        var t := s.tasks[id];
        assert Fits()(s.lanes[target], t);
        CutSurvivesArrival(s.lanes[target].source, MarkOf(t.prev), t.batch, t.to, row);
      }
      FetchedFollow(pool, s, step, Fits());
    case _ => FetchedFollow(pool, s, step, Fits());
  }

  /** Every orderly step of the event loop keeps the invariant. */
  lemma StepKeeps(pool: nat, s: Sys, step: Step)
    requires Inv(pool, s) && Enabled(s, step) && Orderly(s, step)
    ensures Inv(pool, Apply(pool, s, step))
  {
    StepSchedules(pool, s, step);
    OrderlyLanes(pool, s, step);
    OrderlyFetched(pool, s, step);
  }

  // ---- whole runs --------------------------------------------------------

  /** s' is reached from s by the given steps, each enabled when taken. */
  ghost predicate Run(pool: nat, s: Sys, steps: seq<Step>, s': Sys)
    decreases |steps|
  {
    if steps == [] then s == s'
    else Enabled(s, steps[0]) && Run(pool, Apply(pool, s, steps[0]), steps[1..], s')
  }

  /** The same, each step orderly when taken. */
  ghost predicate OrderlyRun(pool: nat, s: Sys, steps: seq<Step>, s': Sys)
    decreases |steps|
  {
    if steps == [] then s == s'
    else
      && Enabled(s, steps[0]) && Orderly(s, steps[0])
      && OrderlyRun(pool, Apply(pool, s, steps[0]), steps[1..], s')
  }

  ghost predicate Idle(pool: nat, s: Sys) { s.tasks == map[] && s.inFlight == {} && s.free == pool }

  /** A daemon just started over lanes that promise nothing false. */
  ghost predicate Started(pool: nat, s: Sys) { Idle(pool, s) && EachLane(s.lanes, Conserved) }

  lemma IdleIsScheduled(pool: nat, s: Sys)
    requires Idle(pool, s)
    ensures Scheduled(pool, s)
  {
    assert Holders(s.tasks) == {};
  }

  lemma {:induction false} RunSchedules(pool: nat, s: Sys, steps: seq<Step>, s': Sys)
    requires Scheduled(pool, s) && Run(pool, s, steps, s')
    ensures Scheduled(pool, s')
    decreases |steps|
  {
    if steps != [] {
      StepSchedules(pool, s, steps[0]);
      RunSchedules(pool, Apply(pool, s, steps[0]), steps[1..], s');
    }
  }

  /**
   * Scheduling, for every run whatsoever: no two active pulls share a target,
   * at most pool tasks are in the semaphore, none is past its fourth attempt,
   * and each still starts from the stored cursor.
   */
  lemma EveryRunIsSerial(pool: nat, s: Sys, steps: seq<Step>, s': Sys)
    requires Idle(pool, s) && Run(pool, s, steps, s')
    ensures forall a, b | a in s'.tasks && b in s'.tasks && s'.tasks[a].target == s'.tasks[b].target :: a == b
    ensures |Holders(s'.tasks)| <= pool
    ensures forall id | id in s'.tasks && !s'.tasks[id].Queued? :: s'.tasks[id].failures + 1 <= 4
    ensures forall id | id in s'.tasks ::
      s'.tasks[id].target in s'.lanes && s'.tasks[id].prev == s'.lanes[s'.tasks[id].target].stored
  {
    IdleIsScheduled(pool, s);
    RunSchedules(pool, s, steps, s');
    forall id | id in s'.tasks ensures Placed(s'.lanes, s'.inFlight, s'.tasks[id]) {
    }
  }

  // ---- a flag that stays up ----------------------------------------------

  /** The flag is up and nothing is left that would lower it. */
  ghost predicate Stuck(s: Sys, target: string) {
    target in s.inFlight && forall id | id in s.tasks :: s.tasks[id].target != target
  }

  /** A call over a lowered flag whose stored state cannot be read. */
  predicate Misreads(s: Sys, step: Step, target: string) {
    step.Begin? && step.target == target && !step.recalls && target !in s.inFlight
  }

  ghost predicate EverMisreads(pool: nat, s: Sys, steps: seq<Step>, target: string)
    decreases |steps|
  {
    steps != [] && Enabled(s, steps[0])
    && (Misreads(s, steps[0], target) || EverMisreads(pool, Apply(pool, s, steps[0]), steps[1..], target))
  }

  lemma StepSticksExactly(pool: nat, s: Sys, step: Step, target: string)
    requires Scheduled(pool, s) && Enabled(s, step)
    ensures Stuck(Apply(pool, s, step), target) <==> !step.Crash? && (Stuck(s, target) || Misreads(s, step, target))
  {
    var s' := Apply(pool, s, step);
    forall i | i in s.tasks ensures Placed(s.lanes, s.inFlight, s.tasks[i]) {
    }
    match step
    case Begin(id, x, recalls) =>
      if x !in s.inFlight && recalls {
        assert s'.tasks[id].target == x;
        assert forall i | i in s.tasks :: i in s'.tasks && s'.tasks[i] == s.tasks[i];
      }
    case Acquire(id) => SameTargets(s, s', id, target);
    case Answer(id, _, _) => SameTargets(s, s', id, target);
    case Fail(id, _) =>
      if id in s'.tasks {
        SameTargets(s, s', id, target);
      } else {
        EndedSticks(s, s', id, target);
      }
    case Finish(id, _, _) => EndedSticks(s, s', id, target);
    case Crash =>
    case Arrive(_, _) =>
  }

  lemma SameTargets(s: Sys, s': Sys, id: nat, target: string)
    requires id in s.tasks && s'.tasks.Keys == s.tasks.Keys && s'.inFlight == s.inFlight
    requires forall i | i in s.tasks :: s'.tasks[i].target == s.tasks[i].target
    ensures Stuck(s', target) <==> Stuck(s, target)
  {
    assert forall i | i in s'.tasks :: i in s.tasks;
  }

  lemma EndedSticks(s: Sys, s': Sys, id: nat, target: string)
    requires OneEach(s.tasks) && id in s.tasks
    requires s'.tasks == s.tasks - {id} && s'.inFlight == s.inFlight - {s.tasks[id].target}
    ensures Stuck(s', target) <==> Stuck(s, target)
  {
    if Stuck(s', target) {
      forall i | i in s.tasks ensures s.tasks[i].target != target {
        assert i != id ==> i in s'.tasks;
      }
    }
  }

  lemma StuckLaneIsLeft(pool: nat, s: Sys, step: Step, target: string)
    requires Enabled(s, step) && Stuck(s, target) && target in s.lanes
    ensures var s' := Apply(pool, s, step);
            && target in s'.lanes
            && s'.lanes[target].output == s.lanes[target].output && s'.lanes[target].stored == s.lanes[target].stored
  {
  }

  /**
   * Until the process restarts: a target's flag is up with nobody to lower it
   * exactly when it was, or when a call over a lowered flag could not read the
   * stored state. From then on no pull of the target begins, and its output
   * and cursor stay as they are.
   */
  lemma {:induction false} StuckExactly(pool: nat, s: Sys, steps: seq<Step>, s': Sys, target: string)
    requires Scheduled(pool, s) && Run(pool, s, steps, s') && forall i | 0 <= i < |steps| :: !steps[i].Crash?
    ensures Stuck(s', target) <==> Stuck(s, target) || EverMisreads(pool, s, steps, target)
    ensures Stuck(s, target) && target in s.lanes ==>
      && target in s'.lanes
      && s'.lanes[target].output == s.lanes[target].output && s'.lanes[target].stored == s.lanes[target].stored
    decreases |steps|
  {
    if steps != [] {
      var mid := Apply(pool, s, steps[0]);
      StepSchedules(pool, s, steps[0]);
      StepSticksExactly(pool, s, steps[0], target);
      if Stuck(s, target) && target in s.lanes {
        StuckLaneIsLeft(pool, s, steps[0], target);
      }
      StuckExactly(pool, mid, steps[1..], s', target);
    }
  }

  lemma {:induction false} RunKeeps(pool: nat, s: Sys, steps: seq<Step>, s': Sys)
    requires Inv(pool, s) && OrderlyRun(pool, s, steps, s')
    ensures Inv(pool, s')
    decreases |steps|
  {
    if steps != [] {
      StepKeeps(pool, s, steps[0]);
      RunKeeps(pool, Apply(pool, s, steps[0]), steps[1..], s');
    }
  }

  /** Conservation, for every orderly run: each output is the rows up to its cursor, plus uncommitted publishes. */
  lemma OrderlyRunConserves(pool: nat, s: Sys, steps: seq<Step>, s': Sys)
    requires Started(pool, s) && OrderlyRun(pool, s, steps, s')
    ensures forall target | target in s'.lanes :: Conserved(s'.lanes[target]) && NothingLost(s'.lanes[target])
  {
    IdleIsScheduled(pool, s);
    RunKeeps(pool, s, steps, s');
    forall target | target in s'.lanes ensures Conserved(s'.lanes[target]) && NothingLost(s'.lanes[target]) {
      ConservedLosesNothing(s'.lanes[target]);
    }
  }

  /**
   * Serialisability: whatever was interleaved with it, a pull that lands lands
   * exactly the rows between the stored cursor and its own mark as they are at
   * its commit. A bounded one is one uninterrupted pull of its own size made
   * at that instant. Every other lane is untouched.
   */
  lemma CommitIsAtomicPull(pool: nat, s: Sys, id: nat)
    requires Inv(pool, s) && Enabled(s, Finish(id, Stored, true))
    ensures var t := s.tasks[id];
            var l := s.lanes[t.target];
            var s' := Apply(pool, s, Finish(id, Stored, true));
            && IsCut(l.source, MarkOf(l.stored), t.batch, t.to)
            && s'.lanes[t.target] == Committed(Published(l, t.batch, l.stored.None?, true), t.batch, t.to)
            && (t.bounded ==> s'.lanes[t.target] == PullNext(l, |t.batch|))
            && forall other | other in s.lanes && other != t.target ::
                 other in s'.lanes && s'.lanes[other] == s.lanes[other]
  {
    var t := s.tasks[id];
    var l := s.lanes[t.target];
    assert Placed(s.lanes, s.inFlight, t) && Conserved(l) && Fits()(l, t);
    if t.bounded {
      BoundedIsPullNext(l, t);
    }
  }

  lemma BoundedIsPullNext(l: Lane, t: Task)
    requires Conserved(l) && t.Fetched? && t.bounded && t.prev == l.stored && CutFits(l, t)
    ensures Committed(Published(l, t.batch, l.stored.None?, true), t.batch, t.to) == PullNext(l, |t.batch|)
  {
    if t.batch == [] {
      assert NextRows(l.source, MarkOf(l.stored), 0) == [];
    } else {
      NewMarkIsGreatest(MarkOf(t.prev), t.batch, true);
      CutIsNextRows(l.source, MarkOf(t.prev), t.batch, t.to.value);
    }
  }

  // ---- exactly once, in order --------------------------------------------

  /** Only bounded pulls, and every published batch is committed. */
  predicate Tidy(step: Step) {
    match step
    case Answer(_, limit, _) => limit > 0
    case Finish(_, outcome, _) => !outcome.CommitRefused?
    case _ => true
  }

  ghost predicate ExactlyOnce(l: Lane) {
    && InOrder(l)
    && (MarkOf(l.stored).Some? ==> MarkOf(l.stored).value.Pair? && l.orphans == multiset{})
  }

  ghost predicate AllBounded(tasks: map<nat, Task>) {
    forall id | id in tasks && tasks[id].Fetched? :: tasks[id].bounded
  }

  ghost predicate AllExact(s: Sys) { EachLane(s.lanes, ExactlyOnce) && AllBounded(s.tasks) }

  /** Where nothing is held there is nothing to read back, so reading it back makes no difference. */
  lemma NothingToReadBack(l: Lane, t: Task, outcome: Outcome)
    requires ExactlyOnce(l) && NothingHeld(l) && t.Fetched? && t.prev == l.stored
    requires MarkOf(l.stored).None? ==> l.stored.None?
    ensures Landed(l, t, outcome, false) == Landed(l, t, outcome, true)
  {
    if MarkOf(l.stored).Some? {
      assert l.output == Some([]);
      assert [] + t.batch == t.batch;
    }
  }

  lemma LandingIsExact(l: Lane, t: Task, outcome: Outcome)
    requires Conserved(l) && ExactlyOnce(l) && t.Fetched? && t.bounded && t.prev == l.stored && CutFits(l, t)
    requires !outcome.CommitRefused?
    ensures ExactlyOnce(Landed(l, t, outcome, true))
  {
    if outcome.Stored? && t.to.Some? {
      var from, m := MarkOf(t.prev), t.to.value;
      StoredMarkRoundTrip(m, true);
      if t.batch != [] {
        NewMarkIsGreatest(from, t.batch, true);
      }
      if from.Some? {
        BatchKeepsOrder(l.source, from.value, l.output.value, t.batch, m);
      } else {
        FirstBatchIsOrdered(l.source, t.batch, m);
      }
      PullConserves(l, t.batch, t.to, true);
    }
  }

  lemma FirstBatchIsOrdered(source: seq<Row>, batch: seq<Row>, m: Mark)
    requires KeyedTable(source) && IsCut(source, None, batch, Some(m)) && Sorted(batch, RowRank)
    ensures batch == Sort(Filter(source, UpTo(m)), RowRank)
  {
    CutSplits(source, None, batch, m);
    CutHasDistinctRanks(source, None, batch, m);
    SortSorted(Filter(source, UpTo(m)), RowRank);
    SortedUnique(batch, Sort(Filter(source, UpTo(m)), RowRank), RowRank);
  }

  lemma TidyStepIsBounded(pool: nat, s: Sys, step: Step)
    requires AllBounded(s.tasks) && Enabled(s, step) && Tidy(step)
    ensures AllBounded(Apply(pool, s, step).tasks)
  {
  }

  lemma TidyLanesStayExact(pool: nat, s: Sys, step: Step)
    requires Inv(pool, s) && AllExact(s) && Enabled(s, step) && Orderly(s, step) && Tidy(step)
    ensures EachLane(Apply(pool, s, step).lanes, ExactlyOnce)
  {
    match step
    case Finish(id, outcome, readable) =>
      var t := s.tasks[id];
      var l := s.lanes[t.target];
      assert Placed(s.lanes, s.inFlight, t) && Conserved(l) && Fits()(l, t) && ExactlyOnce(l);
      LandingIsExact(l, t, outcome);
      if !readable && !outcome.WriteRefused? {
        NothingToReadBack(l, t, outcome);
      }
      LanesFollow(pool, s, step, ExactlyOnce);
    case Arrive(target, row) =>
      assert ExactlyOnce(s.lanes[target]);
      ArrivalKeepsOrder(s.lanes[target], row);
      LanesFollow(pool, s, step, ExactlyOnce);
    case _ => LanesFollow(pool, s, step, ExactlyOnce);
  }

  /**
   * Exactly once: in every orderly run of bounded pulls whose publishes are
   * all committed, however interleaved, each output is exactly the source rows
   * at or below its stored cursor, each once, in (key, pk) order.
   */
  lemma {:induction false} ExactlyOnceInOrder(pool: nat, s: Sys, steps: seq<Step>, s': Sys)
    requires Inv(pool, s) && AllExact(s) && OrderlyRun(pool, s, steps, s')
    requires forall i | 0 <= i < |steps| :: Tidy(steps[i])
    ensures AllExact(s')
    decreases |steps|
  {
    if steps != [] {
      StepKeeps(pool, s, steps[0]);
      TidyStepIsBounded(pool, s, steps[0]);
      TidyLanesStayExact(pool, s, steps[0]);
      ExactlyOnceInOrder(pool, Apply(pool, s, steps[0]), steps[1..], s');
    }
  }

  /** A composite cursor makes every unbounded pull fail: no answer is ever enabled. */
  lemma UnboundedOverCompositeIsStuck(s: Sys, id: nat, full: seq<Row>, m: Mark)
    requires id in s.tasks && s.tasks[id].prev == Some(MarkText(m))
    ensures m.Pair? ==> !Enabled(s, Answer(id, 0, full))
    ensures m.Plain? ==> ReadMark(s.tasks[id].prev, false).Ok?
  {
    StoredMarkRoundTrip(m, false);
  }
}
