/**
 * The daemon over time: any sequence of pulls of any targets, with rows landing in
 * between. The lanes follow what the object holds, so what is proved of them holds of it.
 */
module Service {
  import opened Util
  import opened Cursor
  import opened Incremental
  import opened Lanes
  import opened PullLog
  import opened Daemon
  import opened Promises
  import Schedule

  datatype Job = Pull(target: string, started: int, world: World) | Arrive(target: string, row: Row)

  // ---- one job on the lanes ----------------------------------------------

  /** The rows in hand, as a task of the event loop. */
  function TaskOf(l: Lane, r: PullResult): Schedule.Task {
    Schedule.Fetched("", l.stored, 0, true, r.batch, MarkOf(r.watermark))
  }

  function OutcomeOf(r: PullResult, world: World): Schedule.Outcome {
    match Lands(r, world)
    case Refused => Schedule.WriteRefused
    case Uncommitted => Schedule.CommitRefused
    case Unbaselined => Schedule.Stored
    case Unlogged => Schedule.Stored
    case Recorded => Schedule.Stored
  }

  /** The lane after the pull, as far as it gets; what is not landed changes nothing. */
  function Pulled(l: Lane, world: World): Lane {
    match LastWord(world)
    case Returns(r) => Schedule.Landed(l, TaskOf(l, r), OutcomeOf(r, world), world.readable)
    case Raises(_, _) => l
  }

  function After(lanes: map<string, Lane>, job: Job): (lanes': map<string, Lane>)
    ensures lanes'.Keys == lanes.Keys
  {
    if job.target !in lanes then lanes
    else match job
         case Pull(target, _, world) => lanes[target := Pulled(lanes[target], world)]
         case Arrive(target, row) => lanes[target := Arrived(lanes[target], row)]
  }

  function AfterAll(lanes: map<string, Lane>, jobs: seq<Job>): (lanes': map<string, Lane>)
    ensures lanes'.Keys == lanes.Keys
  {
    if jobs == [] then lanes else After(AfterAll(lanes, jobs[..|jobs| - 1]), jobs[|jobs| - 1])
  }

  function Brought(l: Lane, limit: nat, full: seq<Row>): PullResult {
    var batch := Limited(QueryFor(Increment, MarkOf(l.stored), limit), full);
    PullResult(batch, TextOf(NewMark(MarkOf(l.stored), batch, limit > 0)))
  }

  /** The driver's rows and watermark come from its query on the source as it stands. */
  ghost predicate FromQuery(l: Lane, r: PullResult) {
    exists limit: nat, full :: r == Brought(l, limit, full)
      && ReadMark(l.stored, limit > 0).Ok?
      && Arranged(QueryFor(Increment, MarkOf(l.stored), limit), l.source, full)
  }

  /** A driver that answers from its query, and a source that never reuses a primary key. */
  ghost predicate Honest(lanes: map<string, Lane>, job: Job) {
    job.target in lanes ==>
      match job
      case Pull(target, _, world) => LastWord(world).Returns? ==> FromQuery(lanes[target], LastWord(world).result)
      case Arrive(target, row) => FreshKey(lanes[target].source, row)
  }

  ghost predicate AllHonest(lanes: map<string, Lane>, jobs: seq<Job>) {
    jobs == []
    || (AllHonest(lanes, jobs[..|jobs| - 1]) && Honest(AfterAll(lanes, jobs[..|jobs| - 1]), jobs[|jobs| - 1]))
  }

  lemma WatermarkIsText(l: Lane, r: PullResult)
    requires FromQuery(l, r)
    ensures r.watermark == TextOf(MarkOf(r.watermark))
  {
    var limit: nat, full :| r == Brought(l, limit, full);
    TextRoundTrip(NewMark(MarkOf(l.stored), r.batch, limit > 0));
  }

  lemma AnswerIsCut(l: Lane, r: PullResult)
    requires Sound(l) && FromQuery(l, r)
    ensures IsCut(l.source, MarkOf(l.stored), r.batch, MarkOf(r.watermark))
  {
    var limit: nat, full :| r == Brought(l, limit, full)
      && ReadMark(l.stored, limit > 0).Ok?
      && Arranged(QueryFor(Increment, MarkOf(l.stored), limit), l.source, full);
    Schedule.AnswerIsGood(l.source, l.stored, limit, full);
    TextRoundTrip(NewMark(MarkOf(l.stored), r.batch, limit > 0));
  }

  lemma SettleIsLanding(l: Lane, k: Kept, r: PullResult, world: World)
    requires k.output == l.output && k.cursor == l.stored && r.watermark == TextOf(MarkOf(r.watermark))
    ensures var k' := Settle(k, r, k.cursor.Some?, world);
            var l' := Schedule.Landed(l, TaskOf(l, r), OutcomeOf(r, world), world.readable);
            k'.output == l'.output && k'.cursor == l'.stored && l'.source == l.source
  {
  }

  /** What the daemon keeps of a target moves as the lane's publish and commit do. */
  lemma MoveIsLanding(l: Lane, k: Kept, world: World)
    requires k.output == l.output && k.cursor == l.stored
    requires LastWord(world).Returns? ==> FromQuery(l, LastWord(world).result)
    ensures var (k', l') := (AfterPull(k, true, LastWord(world), world), Pulled(l, world));
            k'.output == l'.output && k'.cursor == l'.stored && l'.source == l.source
  {
    if LastWord(world).Returns? {
      WatermarkIsText(l, LastWord(world).result);
      SettleIsLanding(l, k, LastWord(world).result, world);
    }
  }

  // ---- the promise, over any sequence of jobs ----------------------------

  /** A pull that writes over held rows it could not read back, or a row that lands at or below the cursor. */
  predicate Loses(lanes: map<string, Lane>, job: Job) {
    && job.target in lanes
    && match job
       case Pull(target, _, world) =>
         LastWord(world).Returns? && world.writes && !world.readable && !NothingHeld(lanes[target])
       case Arrive(target, row) => !Passes(MarkOf(lanes[target].stored), row)
  }

  /** No job loses rows when its turn comes. */
  predicate NoneLoses(lanes: map<string, Lane>, jobs: seq<Job>) {
    jobs == []
    || (NoneLoses(lanes, jobs[..|jobs| - 1]) && !Loses(AfterAll(lanes, jobs[..|jobs| - 1]), jobs[|jobs| - 1]))
  }

  lemma PullIsSound(l: Lane, world: World)
    requires Sound(l)
    requires LastWord(world).Returns? ==> FromQuery(l, LastWord(world).result)
    ensures Sound(Pulled(l, world))
  {
    if LastWord(world).Returns? {
      var r := LastWord(world).result;
      AnswerIsCut(l, r);
      CutIsInHand(l, MarkOf(l.stored), r.batch, MarkOf(r.watermark));
      LandingIsSound(l, TaskOf(l, r), OutcomeOf(r, world), world.readable);
    }
  }

  /** Nothing overtakes a pull made in one go. */
  lemma CutIsNotOvertaken(source: seq<Row>, from: Option<Mark>, batch: seq<Row>, to: Option<Mark>)
    requires IsCut(source, from, batch, to)
    ensures !Overtaken(source, from, batch, to)
  {
    if to.Some? {
      CutMembers(source, from, batch, to.value);
    }
  }

  lemma PullLosesExactly(l: Lane, world: World)
    requires Sound(l) && NothingLost(l)
    requires LastWord(world).Returns? ==> FromQuery(l, LastWord(world).result)
    ensures NothingLost(Pulled(l, world))
       <==> !(LastWord(world).Returns? && world.writes && !world.readable && !NothingHeld(l))
  {
    if LastWord(world).Returns? {
      var r := LastWord(world).result;
      AnswerIsCut(l, r);
      CutIsInHand(l, MarkOf(l.stored), r.batch, MarkOf(r.watermark));
      CutIsNotOvertaken(l.source, MarkOf(l.stored), r.batch, MarkOf(r.watermark));
      LandingLosesExactly(l, TaskOf(l, r), OutcomeOf(r, world), world.readable);
    }
  }

  lemma PullKeepsMissed(l: Lane, world: World, row: Row)
    requires Sound(l) && Missed(l, row)
    requires LastWord(world).Returns? ==> FromQuery(l, LastWord(world).result)
    ensures Missed(Pulled(l, world), row)
  {
    if LastWord(world).Returns? {
      var r := LastWord(world).result;
      AnswerIsCut(l, r);
      CutIsInHand(l, MarkOf(l.stored), r.batch, MarkOf(r.watermark));
      LandingKeepsMissed(l, TaskOf(l, r), OutcomeOf(r, world), world.readable, row);
    }
  }

  lemma PullConservesLane(l: Lane, world: World)
    requires Conserved(l) && Sound(l)
    requires LastWord(world).Returns? ==> FromQuery(l, LastWord(world).result)
    requires LastWord(world).Returns? && world.writes ==> world.readable || NothingHeld(l)
    ensures Conserved(Pulled(l, world))
  {
    if LastWord(world).Returns? {
      var r := LastWord(world).result;
      AnswerIsCut(l, r);
      Schedule.LandingConserves(l, TaskOf(l, r), OutcomeOf(r, world), world.readable);
    }
  }

  ghost predicate AllSound(lanes: map<string, Lane>) { forall t | t in lanes :: Sound(lanes[t]) }

  ghost predicate AllKept(lanes: map<string, Lane>) { forall t | t in lanes :: NothingLost(lanes[t]) }

  ghost predicate AllConserved(lanes: map<string, Lane>) { forall t | t in lanes :: Conserved(lanes[t]) }

  lemma JobIsSound(lanes: map<string, Lane>, job: Job)
    requires AllSound(lanes) && Honest(lanes, job)
    ensures AllSound(After(lanes, job))
  {
    if job.target in lanes {
      assert Sound(lanes[job.target]);
      match job
      case Pull(target, _, world) => PullIsSound(lanes[target], world);
      case Arrive(target, row) => FreshStaysSound(lanes[target], row);
    }
  }

  lemma OneChanged(lanes: map<string, Lane>, target: string, l: Lane)
    requires AllKept(lanes)
    ensures AllKept(lanes[target := l]) <==> NothingLost(l)
  {
    assert AllKept(lanes[target := l]) ==> NothingLost(lanes[target := l][target]);
  }

  lemma JobLosesExactly(lanes: map<string, Lane>, job: Job)
    requires AllSound(lanes) && AllKept(lanes) && Honest(lanes, job)
    ensures AllKept(After(lanes, job)) <==> !Loses(lanes, job)
  {
    if job.target in lanes {
      var l := lanes[job.target];
      assert Sound(l) && NothingLost(l);
      match job
      case Pull(target, _, world) =>
        PullLosesExactly(l, world);
        OneChanged(lanes, target, Pulled(l, world));
      case Arrive(target, row) =>
        ArrivalLosesExactly(l, row);
        OneChanged(lanes, target, Arrived(l, row));
    }
  }

  lemma JobKeepsMissed(lanes: map<string, Lane>, job: Job, target: string, row: Row)
    requires AllSound(lanes) && Honest(lanes, job) && target in lanes && Missed(lanes[target], row)
    ensures target in After(lanes, job) && Missed(After(lanes, job)[target], row)
  {
    if job.target == target {
      assert Sound(lanes[target]);
      match job
      case Pull(_, _, world) => PullKeepsMissed(lanes[target], world, row);
      case Arrive(_, _) =>
    }
  }

  lemma JobConserves(lanes: map<string, Lane>, job: Job)
    requires AllSound(lanes) && AllConserved(lanes) && Honest(lanes, job) && !Loses(lanes, job)
    ensures AllConserved(After(lanes, job))
  {
    if job.target in lanes {
      var l := lanes[job.target];
      assert Sound(l) && Conserved(l);
      match job
      case Pull(target, _, world) => PullConservesLane(l, world);
      case Arrive(target, row) => ArrivalConserves(l, row);
    }
  }

  lemma LostIsMissed(lanes: map<string, Lane>) returns (target: string, row: Row)
    requires AllSound(lanes) && !AllKept(lanes)
    ensures target in lanes && Missed(lanes[target], row)
  {
    target :| target in lanes && !NothingLost(lanes[target]);
    LossIsMissing(lanes[target]);
    row :| Missed(lanes[target], row);
  }

  lemma {:induction false} StaysSound(lanes: map<string, Lane>, jobs: seq<Job>)
    requires AllSound(lanes) && AllHonest(lanes, jobs)
    ensures AllSound(AfterAll(lanes, jobs))
  {
    if jobs != [] {
      StaysSound(lanes, jobs[..|jobs| - 1]);
      JobIsSound(AfterAll(lanes, jobs[..|jobs| - 1]), jobs[|jobs| - 1]);
    }
  }

  /**
   * Over any sequence of pulls and arrivals, no target misses a row at or below
   * its cursor if and only if no job loses one, and then each output is the
   * rows up to the cursor once each, plus what was published uncommitted.
   */
  lemma {:induction false} PromiseKeptExactly(lanes: map<string, Lane>, jobs: seq<Job>)
    requires AllSound(lanes) && AllKept(lanes) && AllHonest(lanes, jobs)
    ensures AllKept(AfterAll(lanes, jobs)) <==> NoneLoses(lanes, jobs)
    ensures AllConserved(lanes) && NoneLoses(lanes, jobs) ==> AllConserved(AfterAll(lanes, jobs))
  {
    if jobs != [] {
      var front, last := jobs[..|jobs| - 1], jobs[|jobs| - 1];
      var before := AfterAll(lanes, front);
      StaysSound(lanes, front);
      PromiseKeptExactly(lanes, front);
      if AllKept(before) {
        JobLosesExactly(before, last);
        if AllConserved(before) && !Loses(before, last) {
          JobConserves(before, last);
        }
      } else {
        var target, row := LostIsMissed(before);
        JobKeepsMissed(before, last, target, row);
        MissedIsLost(After(before, last)[target], row);
      }
    }
  }

  // ---- flags, and the jobs that run --------------------------------------

  /** A pull runs over a lowered flag, if the stored state can be read. */
  predicate Runs(up: set<string>, job: Job) { job.Pull? ==> job.target !in up && job.world.recalls }

  function FlagsNext(up: set<string>, job: Job): set<string> {
    if job.Pull? && !job.world.recalls then up + {job.target} else up
  }

  /** The flags that are up between jobs. */
  function Flags(up: set<string>, jobs: seq<Job>): set<string> {
    if jobs == [] then up else FlagsNext(Flags(up, jobs[..|jobs| - 1]), jobs[|jobs| - 1])
  }

  /** The jobs that come to anything but a skip or a raised flag. */
  function Ran(up: set<string>, jobs: seq<Job>): seq<Job> {
    if jobs == [] then []
    else
      var front, last := jobs[..|jobs| - 1], jobs[|jobs| - 1];
      Ran(up, front) + if Runs(Flags(up, front), last) then [last] else []
  }

  predicate Unanswered(job: Job, target: string) { job.Pull? && job.target == target && !job.world.recalls }

  /** A flag is up after a run exactly when it was before, or some call for the target could not read its state. */
  lemma {:induction false} FlagsExactly(up: set<string>, jobs: seq<Job>, target: string)
    ensures target in Flags(up, jobs) <==> target in up || exists i | 0 <= i < |jobs| :: Unanswered(jobs[i], target)
  {
    if jobs != [] {
      var front := jobs[..|jobs| - 1];
      FlagsExactly(up, front, target);
      if target in Flags(up, front) && target !in up {
        var i :| 0 <= i < |front| && Unanswered(front[i], target);
        assert Unanswered(jobs[i], target);
      }
      if i :| 0 <= i < |jobs| && Unanswered(jobs[i], target) {
        assert i < |front| ==> front[i] == jobs[i];
      }
    }
  }

  lemma {:induction false} RanInTwo(up: set<string>, jobs: seq<Job>, later: seq<Job>)
    ensures Flags(up, jobs + later) == Flags(Flags(up, jobs), later)
    ensures Ran(up, jobs + later) == Ran(up, jobs) + Ran(Flags(up, jobs), later)
  {
    if later == [] {
      assert jobs + later == jobs;
    } else {
      var front := later[..|later| - 1];
      RanInTwo(up, jobs, front);
      assert (jobs + later)[..|jobs + later| - 1] == jobs + front;
    }
  }

  lemma {:induction false} StuckNeverRuns(up: set<string>, jobs: seq<Job>, target: string)
    requires target in up
    ensures target in Flags(up, jobs)
    ensures forall j | j in Ran(up, jobs) && j.Pull? :: j.target != target
  {
    if jobs != [] {
      StuckNeverRuns(up, jobs[..|jobs| - 1], target);
    }
  }

  lemma {:induction false} WithoutPulls(lanes: map<string, Lane>, jobs: seq<Job>, target: string, before: bool)
    requires forall j | j in jobs && j.Pull? :: j.target != target
    ensures HealthyAfter(target, jobs, before) == before
    ensures target in lanes ==>
      && AfterAll(lanes, jobs)[target].output == lanes[target].output
      && AfterAll(lanes, jobs)[target].stored == lanes[target].stored
  {
    if jobs != [] {
      WithoutPulls(lanes, jobs[..|jobs| - 1], target, before);
    }
  }

  lemma FirstDoesNotRun(up: set<string>, jobs: seq<Job>, first: Job, target: string)
    requires Unanswered(first, target)
    ensures Ran(up, jobs + [first]) == Ran(up, jobs) && target in Flags(up, jobs + [first])
  {
    assert (jobs + [first])[..|jobs + [first]| - 1] == jobs;
  }

  /**
   * After the first call that could not read a target's stored state, whatever
   * is called later, no pull of the target runs: its output, its cursor and
   * what its status says stay as they are, while rows go on landing.
   */
  lemma UnansweredIsForGood(
      lanes: map<string, Lane>, up: set<string>, jobs: seq<Job>, first: Job, later: seq<Job>, target: string, before: bool)
    requires Unanswered(first, target)
    ensures var (now, then_) := (Ran(up, jobs), Ran(up, jobs + [first] + later));
            && target in Flags(up, jobs + [first] + later)
            && (HealthyAfter(target, then_, before) <==> HealthyAfter(target, now, before))
            && (target in lanes ==>
                  && AfterAll(lanes, then_)[target].output == AfterAll(lanes, now)[target].output
                  && AfterAll(lanes, then_)[target].stored == AfterAll(lanes, now)[target].stored)
  {
    var up' := Flags(up, jobs + [first]);
    var more := Ran(up', later);
    FirstDoesNotRun(up, jobs, first, target);
    RanInTwo(up, jobs + [first], later);
    StuckNeverRuns(up', later, target);
    WithoutPulls(AfterAll(lanes, Ran(up, jobs)), more, target, HealthyAfter(target, Ran(up, jobs), before));
    FoldsInTwo(lanes, Ran(up, jobs), more, target, before);
  }

  lemma {:induction false} FoldsInTwo(
      lanes: map<string, Lane>, a: seq<Job>, b: seq<Job>, target: string, before: bool)
    ensures AfterAll(lanes, a + b) == AfterAll(AfterAll(lanes, a), b)
    ensures HealthyAfter(target, a + b, before) <==> HealthyAfter(target, b, HealthyAfter(target, a, before))
  {
    if b == [] {
      assert a + b == a;
    } else {
      FoldsInTwo(lanes, a, b[..|b| - 1], target, before);
      assert (a + b)[..|a + b| - 1] == a + b[..|b| - 1];
    }
  }

  // ---- the object, over any sequence of jobs -----------------------------

  /** The job loses the connection. */
  predicate LosesConnection(job: Job) { job.Pull? && Drops(job.world) }

  predicate SomeDrops(jobs: seq<Job>) {
    jobs != [] && (SomeDrops(jobs[..|jobs| - 1]) || LosesConnection(jobs[|jobs| - 1]))
  }

  /** A call leaves a skip over a raised flag, nothing if the stored state cannot be read, or what its pull leaves. */
  function Entries(id: nat, up: set<string>, job: Job): seq<Entry> {
    match job
    case Pull(target, started, world) =>
      if target in up then (if world.logs then [Entry(id, target, started, SkippedOverlap, None)] else [])
      else if !world.recalls then []
      else Noticed(id, target, started, LastWord(world), world)
    case Arrive(_, _) => []
  }

  /** The history after the calls: what each leaves, appended. */
  function Logged(log: seq<Entry>, up: set<string>, jobs: seq<Job>): (log': seq<Entry>)
    ensures log <= log'
  {
    if jobs == [] then log
    else
      var front := jobs[..|jobs| - 1];
      var before := Logged(log, up, front);
      before + Entries(|before|, Flags(up, front), jobs[|jobs| - 1])
  }

  /** Healthy after a job that ran: by its pull of the table, or as before. */
  predicate HealthyNext(target: string, job: Job, before: bool) {
    if job.Pull? && job.target == target then HealthyBy(LastWord(job.world), job.world, before) else before
  }

  predicate HealthyAfter(target: string, jobs: seq<Job>, before: bool) {
    if jobs == [] then before
    else HealthyNext(target, jobs[|jobs| - 1], HealthyAfter(target, jobs[..|jobs| - 1], before))
  }

  /** What the status says after a pull that ran, given the history it is counted in. */
  function StatusBy(target: string, world: World, log: seq<Entry>, before: Health): Health {
    if Succeeds(LastWord(world), world) then Healthy
    else if !world.notes.Counted? then before
    else if (LastWord(world).Raises? && LastWord(world).permanent) || |Unbroken(log, target)| >= 3 then Broken
    else Degraded
  }

  /** What the status says after the calls: by the target's last pull that ran and whose outcome was noted. */
  function StatusAfter(target: string, log: seq<Entry>, up: set<string>, jobs: seq<Job>, before: Health): Health {
    if jobs == [] then before
    else
      var front, last := jobs[..|jobs| - 1], jobs[|jobs| - 1];
      var prev := StatusAfter(target, log, up, front, before);
      if last.Pull? && last.target == target && Runs(Flags(up, front), last)
      then StatusBy(target, last.world, Logged(log, up, jobs), prev) else prev
  }

  /** A permanent error that ends a target's last pull makes its table broken, whatever came before. */
  lemma PermanentBreaks(target: string, log: seq<Entry>, up: set<string>, jobs: seq<Job>, before: Health)
    requires jobs != [] && jobs[|jobs| - 1].Pull? && jobs[|jobs| - 1].target == target
    requires Runs(Flags(up, jobs[..|jobs| - 1]), jobs[|jobs| - 1])
    requires var world := jobs[|jobs| - 1].world;
             LastWord(world).Raises? && LastWord(world).permanent && world.notes.Counted?
    ensures StatusAfter(target, log, up, jobs, before) == Broken
  {
  }

  /** What the books keep of each lane's target is the lane's output and cursor. */
  ghost predicate Mirrors(b: Books, lanes: map<string, Lane>) {
    forall t | t in lanes :: KeptIn(b, t).output == lanes[t].output && KeptIn(b, t).cursor == lanes[t].stored
  }

  lemma PullMirrors(b: Books, b': Books, lanes: map<string, Lane>, target: string, started: int, world: World)
    requires Mirrors(b, lanes) && Honest(lanes, Pull(target, started, world))
    requires OnlyAt(target, b, b')
    requires target in lanes ==> KeptIn(b', target) == AfterPull(KeptIn(b, target), true, LastWord(world), world)
    ensures Mirrors(b', After(lanes, Pull(target, started, world)))
  {
    if target in lanes {
      MoveIsLanding(lanes[target], KeptIn(b, target), world);
    }
    forall t | t in lanes && t != target ensures KeptIn(b', t) == KeptIn(b, t) {
      OthersKept(target, b, b', t);
    }
  }

  /** What is to be seen of the daemon. */
  datatype Sight = Sight(books: Books, connected: bool, recorded: seq<Entry>, tables: map<string, TableState>)

  ghost function Seen(d: Daemon): Sight
    reads d, d.state
  {
    Sight(d.All(), d.connected, d.state.everRecorded, d.tables)
  }

  /** The flags that are up. */
  function UpIn(tables: map<string, TableState>): set<string> { set t | t in tables && tables[t].inFlight }

  ghost predicate FollowsOne(s: Sight, lanes: map<string, Lane>, job: Job, s': Sight) {
    var up := UpIn(s.tables);
    && Mirrors(s'.books, if Runs(up, job) then After(lanes, job) else lanes)
    && (s'.connected <==> s.connected && !(Runs(up, job) && LosesConnection(job)))
    && s'.recorded == s.recorded + Entries(|s.recorded|, up, job)
    && s'.tables.Keys == s.tables.Keys && UpIn(s'.tables) == FlagsNext(up, job)
    && forall t | t in s.tables :: t in s'.tables && TableFollows(s, Runs(up, job), job, s', t)
  }

  /** A table's runtime state moves by a pull of it that runs, and otherwise only by its flag. */
  ghost predicate TableFollows(s: Sight, runs: bool, job: Job, s': Sight, t: string)
    requires t in s.tables && t in s'.tables
  {
    if job.Pull? && job.target == t && runs
    then Concludes(s.tables[t], s'.tables[t], t, s'.recorded, LastWord(job.world), KeptIn(s.books, t).baseline, job.world)
    else s'.tables[t] == s.tables[t].(inFlight := s'.tables[t].inFlight)
  }

  /** What a table's status says after the calls. */
  ghost predicate Tells(s: Sight, jobs: seq<Job>, s': Sight, t: string)
    requires t in s.tables && t in s'.tables
  {
    var (up, before, after) := (UpIn(s.tables), s.tables[t].status, s'.tables[t].status);
    && (after.Healthy? <==> HealthyAfter(t, Ran(up, jobs), before.Healthy?))
    && (WellTimed(s'.recorded) ==> after == StatusAfter(t, s.recorded, up, jobs, before))
  }

  /**
   * From one sight to the next by a sequence of calls: a flag is up if it was
   * or some call could not read its target's state; the calls that ran move
   * the outputs and cursors as they move the lanes, decide what each status
   * says, and cost the connection if one of them dropped it; and the log has
   * what each call leaves.
   */
  ghost predicate Follows(s: Sight, lanes: map<string, Lane>, jobs: seq<Job>, s': Sight) {
    var up := UpIn(s.tables);
    && Mirrors(s'.books, AfterAll(lanes, Ran(up, jobs)))
    && (s'.connected <==> s.connected && !SomeDrops(Ran(up, jobs)))
    && s'.recorded == Logged(s.recorded, up, jobs)
    && s'.tables.Keys == s.tables.Keys && UpIn(s'.tables) == Flags(up, jobs)
    && forall t | t in s.tables :: t in s'.tables && Tells(s, jobs, s', t)
  }

  lemma FoldsOfMore(lanes: map<string, Lane>, jobs: seq<Job>, job: Job)
    ensures AfterAll(lanes, jobs + [job]) == After(AfterAll(lanes, jobs), job)
    ensures SomeDrops(jobs + [job]) <==> SomeDrops(jobs) || LosesConnection(job)
    ensures AllHonest(lanes, jobs + [job]) <==> AllHonest(lanes, jobs) && Honest(AfterAll(lanes, jobs), job)
  {
    assert (jobs + [job])[..|jobs + [job]| - 1] == jobs;
  }

  lemma FollowsMore(s: Sight, lanes: map<string, Lane>, jobs: seq<Job>, between: Sight, s': Sight)
    requires jobs != [] && Follows(s, lanes, jobs[..|jobs| - 1], between)
    requires FollowsOne(between, AfterAll(lanes, Ran(UpIn(s.tables), jobs[..|jobs| - 1])), jobs[|jobs| - 1], s')
    ensures Follows(s, lanes, jobs, s')
  {
    var up, front, last := UpIn(s.tables), jobs[..|jobs| - 1], jobs[|jobs| - 1];
    FoldsOfMore(lanes, Ran(up, front), last);
    RanNext(up, front, last, jobs);
    forall t | t in s.tables ensures Tells(s, jobs, s', t) {
      TellsMore(s, jobs, between, s', t);
    }
  }

  lemma HealthyMore(jobs: seq<Job>, job: Job, t: string, before: bool)
    ensures HealthyAfter(t, jobs + [job], before) <==> HealthyNext(t, job, HealthyAfter(t, jobs, before))
  {
    assert (jobs + [job])[..|jobs + [job]| - 1] == jobs;
  }

  /** What a pull that ran makes of the status. */
  lemma StatusConcluded(
      rt: TableState, rt': TableState, target: string, log: seq<Entry>, baseline: Option<Schema>, world: World)
    requires Concludes(rt, rt', target, log, LastWord(world), baseline, world)
    ensures rt'.status.Healthy? <==> HealthyBy(LastWord(world), world, rt.status.Healthy?)
    ensures WellTimed(log) ==> rt'.status == StatusBy(target, world, log, rt.status)
  {
  }

  /** One more call, for a table it may concern. */
  lemma StatusFollows(s: Sight, runs: bool, job: Job, s': Sight, t: string)
    requires t in s.tables && t in s'.tables && TableFollows(s, runs, job, s', t)
    ensures var (before, after) := (s.tables[t].status, s'.tables[t].status);
            if job.Pull? && job.target == t && runs
            then && (after.Healthy? <==> HealthyNext(t, job, before.Healthy?))
                 && (WellTimed(s'.recorded) ==> after == StatusBy(t, job.world, s'.recorded, before))
            else after == before
  {
    if job.Pull? && job.target == t && runs {
      StatusConcluded(s.tables[t], s'.tables[t], t, s'.recorded, KeptIn(s.books, t).baseline, job.world);
    }
  }

  lemma TellsMore(s: Sight, jobs: seq<Job>, between: Sight, s': Sight, t: string)
    requires jobs != [] && t in s.tables && t in between.tables && t in s'.tables
    requires var up, front := UpIn(s.tables), jobs[..|jobs| - 1];
             && s'.recorded == Logged(s.recorded, up, jobs) && between.recorded == Logged(s.recorded, up, front)
             && Tells(s, front, between, t)
             && TableFollows(between, Runs(Flags(up, front), jobs[|jobs| - 1]), jobs[|jobs| - 1], s', t)
    ensures Tells(s, jobs, s', t)
  {
    var up, front, last := UpIn(s.tables), jobs[..|jobs| - 1], jobs[|jobs| - 1];
    StatusFollows(between, Runs(Flags(up, front), last), last, s', t);
    RanNext(up, front, last, jobs);
    HealthyMore(Ran(up, front), last, t, s.tables[t].status.Healthy?);
    TimedBefore(between.recorded, s'.recorded);
  }

  lemma TimedBefore(log: seq<Entry>, log': seq<Entry>)
    requires log <= log'
    ensures WellTimed(log') ==> WellTimed(log)
  {
    assert forall i | 0 <= i < |log| :: log[i] == log'[i];
  }

  lemma RanNext(up: set<string>, front: seq<Job>, last: Job, jobs: seq<Job>)
    requires jobs != [] && front == jobs[..|jobs| - 1] && last == jobs[|jobs| - 1]
    ensures Ran(up, jobs) == if Runs(Flags(up, front), last) then Ran(up, front) + [last] else Ran(up, front)
    ensures Flags(up, jobs) == FlagsNext(Flags(up, front), last)
  {
    assert Ran(up, front) + [] == Ran(up, front);
  }

  lemma FlagsFollow(before: map<string, TableState>, after: map<string, TableState>, job: Job)
    requires job.Pull? && job.target in before && after.Keys == before.Keys && OnlyMoved(job.target, before, after)
    requires after[job.target].inFlight <==> before[job.target].inFlight || !job.world.recalls
    ensures UpIn(after) == FlagsNext(UpIn(before), job)
    ensures forall t | t in before && t != job.target :: after[t] == before[t]
  {
    forall t | t in before && t != job.target ensures after[t] == before[t] {
      Elsewhere(job.target, before, after, t);
    }
  }

  /** One call for a pull, or a row landing where the daemon does not see it. */
  method Step(d: Daemon, job: Job, ghost lanes: map<string, Lane>)
    requires d.state.Valid() && Mirrors(d.All(), lanes) && lanes.Keys <= d.incremental
    requires job.Pull? ==> job.target in d.tables
    requires Runs(UpIn(d.tables), job) ==> Honest(lanes, job)
    modifies d, d.state
    ensures d.state.Valid() && FollowsOne(old(Seen(d)), lanes, job, Seen(d))
  {
    match job {
      case Pull(target, started, world) =>
        ghost var before := Seen(d);
        var _ := d.PullOnce(target, started, world);
        FlagsFollow(before.tables, d.tables, job);
        if Runs(UpIn(before.tables), job) {
          PullMirrors(before.books, d.All(), lanes, target, started, world);
        }
      case Arrive(_, _) =>
    }
  }

  /**
   * Any sequence of calls, with rows landing in between. One dropped connection
   * in any pull that runs leaves the overall status an error, whatever lands later.
   */
  method Serve(d: Daemon, jobs: seq<Job>, ghost lanes: map<string, Lane>)
    requires d.state.Valid() && Mirrors(d.All(), lanes) && lanes.Keys <= d.incremental
    requires forall j | j in jobs && j.Pull? :: j.target in d.tables
    requires AllHonest(lanes, Ran(UpIn(d.tables), jobs))
    modifies d, d.state
    ensures d.state.Valid() && Follows(old(Seen(d)), lanes, jobs, Seen(d))
    ensures SomeDrops(Ran(UpIn(old(d.tables)), jobs)) ==> d.Overall().Broken?
    ensures WellTimed(d.state.everRecorded) ==> forall t | t in d.tables ::
      StatusAfter(t, old(d.state.everRecorded), UpIn(old(d.tables)), jobs, old(d.tables)[t].status).Broken?
      ==> d.Overall().Broken?
    decreases |jobs|
  {
    if jobs != [] {
      var front, last := jobs[..|jobs| - 1], jobs[|jobs| - 1];
      ghost var ran := Ran(UpIn(d.tables), front);
      FoldsOfMore(lanes, ran, last);
      assert ran + [] == ran;
      Serve(d, front, lanes);
      ghost var between := Seen(d);
      Step(d, last, AfterAll(lanes, ran));
      FollowsMore(old(Seen(d)), lanes, jobs, between, Seen(d));
    }
  }

  // ---- a drop outlasts every success -------------------------------------

  /** A pull whose first attempt loses the connection and whose second brings the rows. */
  function DropThenRows(r: PullResult, columns: Schema): World {
    World(true, [Raises(false, true), Returns(r), Returns(r), Returns(r)], true, true, true, true, true, Counted, columns)
  }

  /**
   * Such a pull lands whatever it brings, so its table is healthy, and stays so
   * while later ones land; every run it is in has dropped the connection.
   */
  lemma {:induction false} DropOutlastsSuccess(
      target: string, started: int, r: PullResult, columns: Schema, jobs: seq<Job>, later: seq<Job>)
    requires forall j | j in later && j.Pull? && j.target == target :: RowsLogged(LastWord(j.world), j.world).Some?
    ensures var run := jobs + [Pull(target, started, DropThenRows(r, columns))] + later;
            SomeDrops(run) && forall before :: HealthyAfter(target, run, before)
    ensures forall up: set<string> | target !in up :: Runs(up, Pull(target, started, DropThenRows(r, columns)))
  {
    var drop := Pull(target, started, DropThenRows(r, columns));
    var run := jobs + [drop] + later;
    if later == [] {
      assert run == jobs + [drop];
      assert drop.world.answers[0] == Raises(false, true);
    } else {
      DropOutlastsSuccess(target, started, r, columns, jobs, later[..|later| - 1]);
      assert run[..|run| - 1] == jobs + [drop] + later[..|later| - 1];
      assert run[|run| - 1] == later[|later| - 1];
    }
  }
}
