/**
 * One call of the daemon, taken apart into steps of the event loop: both models
 * of a pull agree on how often it is attempted, what it leaves, and what it
 * gives back.
 */
module Refinement {
  import opened Util
  import opened Ordering
  import opened Cursor
  import opened Incremental
  import opened Lanes
  import opened PullLog
  import opened Daemon
  import opened Service
  import opened Schedule

  function Retries(id: nat, n: nat): (steps: seq<Step>)
    ensures |steps| == n && forall i | 0 <= i < n :: steps[i] == Fail(id, false)
  {
    if n == 0 then [] else [Fail(id, false)] + Retries(id, n - 1)
  }

  /** The steps after the failed attempts: the rows and their landing, or the failure that is final. */
  function Ending(id: nat, limit: nat, full: seq<Row>, world: World): seq<Step> {
    match LastWord(world)
    case Returns(r) => [Answer(id, limit, full), Finish(id, OutcomeOf(r, world), world.readable)]
    case Raises(permanent, _) => [Fail(id, permanent)]
  }

  /** Everything one call does, in order. */
  function PullSteps(id: nat, target: string, limit: nat, full: seq<Row>, world: World): seq<Step> {
    if !world.recalls then [Begin(id, target, false)]
    else [Begin(id, target, true), Acquire(id)] + (Retries(id, Settling(world.answers)) + Ending(id, limit, full, world))
  }

  /** What the driver brings comes from its query on the lane as it stands. */
  ghost predicate Answers(l: Lane, limit: nat, full: seq<Row>, world: World) {
    LastWord(world).Returns? ==>
      && LastWord(world).result == Brought(l, limit, full) && ReadMark(l.stored, limit > 0).Ok?
      && Arranged(QueryFor(Increment, MarkOf(l.stored), limit), l.source, full)
  }

  lemma TakeOne(pool: nat, s: Sys, step: Step, rest: seq<Step>, s': Sys)
    requires Enabled(s, step) && Run(pool, Apply(pool, s, step), rest, s')
    ensures Run(pool, s, [step] + rest, s')
  {
    assert ([step] + rest)[1..] == rest;
  }

  function With(s: Sys, id: nat, t: Task): Sys { s.(tasks := s.tasks[id := t]) }

  /** One more transient failure. */
  lemma RetryRun(pool: nat, s: Sys, id: nat, t: Task)
    requires id in s.tasks && s.tasks[id] == t && t.Trying? && t.failures < 3
    ensures Enabled(s, Fail(id, false))
    ensures Apply(pool, s, Fail(id, false)) == With(s, id, Trying(t.target, t.prev, t.failures + 1))
  {
  }

  /** Transient failures keep the task trying, up to the last attempt. */
  lemma {:induction false} RetriesRun(
      pool: nat, s: Sys, id: nat, target: string, prev: Option<string>, f: nat, n: nat, rest: seq<Step>, s': Sys)
    requires id in s.tasks && s.tasks[id] == Trying(target, prev, f) && f + n < 4
    requires Run(pool, With(s, id, Trying(target, prev, f + n)), rest, s')
    ensures Run(pool, s, Retries(id, n) + rest, s')
    decreases n
  {
    if n == 0 {
      assert With(s, id, Trying(target, prev, f)) == s && Retries(id, 0) + rest == rest;
    } else {
      var next := With(s, id, Trying(target, prev, f + 1));
      RetryRun(pool, s, id, Trying(target, prev, f));
      assert With(next, id, Trying(target, prev, f + n)) == With(s, id, Trying(target, prev, f + n));
      RetriesRun(pool, next, id, target, prev, f + 1, n - 1, rest, s');
      TakeOne(pool, s, Fail(id, false), Retries(id, n - 1) + rest, s');
      assert Retries(id, n) + rest == [Fail(id, false)] + (Retries(id, n - 1) + rest);
    }
  }

  /** The state while the one pull tries: its flag up, a permit taken. */
  function Held(s: Sys, id: nat, target: string, t: Task): Sys
    requires s.free > 0
  {
    Sys(s.lanes, s.tasks[id := t], s.inFlight + {target}, s.free - 1)
  }

  lemma EndedGivesBack(s: Sys, id: nat, target: string, t: Task)
    requires id !in s.tasks && target !in s.inFlight && s.free > 0 && !t.Queued? && t.target == target
    ensures Ended(Held(s, id, target, t), id) == s
  {
    var held := Held(s, id, target, t);
    assert held.tasks - {id} == s.tasks;
    assert held.inFlight - {target} == s.inFlight;
  }

  /** The same rows land in the same way. */
  lemma SameLanding(l: Lane, target: string, n: nat, limit: nat, full: seq<Row>, outcome: Schedule.Outcome, readable: bool)
    ensures Landed(l, Answered(Trying(target, l.stored, n), limit, full), outcome, readable)
         == Landed(l, TaskOf(l, Brought(l, limit, full)), outcome, readable)
  {
    var batch := Limited(QueryFor(Increment, MarkOf(l.stored), limit), full);
    TextRoundTrip(NewMark(MarkOf(l.stored), batch, limit > 0));
  }

  lemma EndingRun(pool: nat, s: Sys, id: nat, target: string, limit: nat, full: seq<Row>, world: World)
    requires target in s.lanes && id !in s.tasks && target !in s.inFlight && s.free > 0
    requires Answers(s.lanes[target], limit, full, world)
    ensures Run(pool, Held(s, id, target, Trying(target, s.lanes[target].stored, Settling(world.answers))),
                Ending(id, limit, full, world),
                s.(lanes := s.lanes[target := Pulled(s.lanes[target], world)]))
  {
    var l, n := s.lanes[target], Settling(world.answers);
    var t := Trying(target, l.stored, n);
    var held, end := Held(s, id, target, t), s.(lanes := s.lanes[target := Pulled(l, world)]);
    match LastWord(world)
    case Raises(permanent, _) =>
      EndedGivesBack(s, id, target, t);
      assert s.lanes[target := l] == s.lanes;
      TakeOne(pool, held, Fail(id, permanent), [], end);
    case Returns(r) =>
      var t' := Answered(t, limit, full);
      var answered := Held(s, id, target, t');
      var finish := Finish(id, OutcomeOf(r, world), world.readable);
      assert Apply(pool, held, Answer(id, limit, full)) == answered;
      EndedGivesBack(s, id, target, t');
      SameLanding(l, target, n, limit, full, OutcomeOf(r, world), world.readable);
      TakeOne(pool, answered, finish, [], end);
      TakeOne(pool, held, Answer(id, limit, full), [finish], end);
  }

  /**
   * A call of the daemon over a lowered flag, with a permit free, is a run of
   * the event loop from whatever state it is in: it is attempted as often, its
   * lane moves as the daemon's call moves it, its permit and its flag are given
   * back, and nothing else changes. One that cannot read its stored state
   * leaves its flag up and no more.
   */
  lemma PullIsRun(pool: nat, s: Sys, id: nat, target: string, limit: nat, full: seq<Row>, world: World)
    requires target in s.lanes && id !in s.tasks && target !in s.inFlight && s.free > 0
    requires Answers(s.lanes[target], limit, full, world)
    ensures Run(pool, s, PullSteps(id, target, limit, full, world),
                if world.recalls then s.(lanes := s.lanes[target := Pulled(s.lanes[target], world)])
                else s.(inFlight := s.inFlight + {target}))
  {
    if !world.recalls {
      TakeOne(pool, s, Begin(id, target, false), [], s.(inFlight := s.inFlight + {target}));
    } else {
      CallRun(pool, s, id, target, limit, full, world);
    }
  }

  lemma CallRun(pool: nat, s: Sys, id: nat, target: string, limit: nat, full: seq<Row>, world: World)
    requires target in s.lanes && id !in s.tasks && target !in s.inFlight && s.free > 0 && world.recalls
    requires Answers(s.lanes[target], limit, full, world)
    ensures Run(pool, s, PullSteps(id, target, limit, full, world),
                s.(lanes := s.lanes[target := Pulled(s.lanes[target], world)]))
  {
    var prev, n, ending := s.lanes[target].stored, Settling(world.answers), Ending(id, limit, full, world);
    var end := s.(lanes := s.lanes[target := Pulled(s.lanes[target], world)]);
    EndingRun(pool, s, id, target, limit, full, world);
    TryingRun(pool, s, id, target, prev, n, ending, end);
    OpeningRun(pool, s, id, target, Retries(id, n) + ending, end);
  }

  lemma TryingRun(
      pool: nat, s: Sys, id: nat, target: string, prev: Option<string>, n: nat, rest: seq<Step>, s': Sys)
    requires s.free > 0 && n < 4 && Run(pool, Held(s, id, target, Trying(target, prev, n)), rest, s')
    ensures Run(pool, Held(s, id, target, Trying(target, prev, 0)), Retries(id, n) + rest, s')
  {
    var trying := Held(s, id, target, Trying(target, prev, 0));
    assert With(trying, id, Trying(target, prev, n)) == Held(s, id, target, Trying(target, prev, n));
    RetriesRun(pool, trying, id, target, prev, 0, n, rest, s');
  }

  lemma OpeningRun(pool: nat, s: Sys, id: nat, target: string, rest: seq<Step>, s': Sys)
    requires target in s.lanes && id !in s.tasks && target !in s.inFlight && s.free > 0
    requires Run(pool, Held(s, id, target, Trying(target, s.lanes[target].stored, 0)), rest, s')
    ensures Run(pool, s, [Begin(id, target, true), Acquire(id)] + rest, s')
  {
    var queued := Apply(pool, s, Begin(id, target, true));
    assert Apply(pool, queued, Acquire(id)) == Held(s, id, target, Trying(target, s.lanes[target].stored, 0));
    TakeOne(pool, queued, Acquire(id), rest, s');
    TakeOne(pool, s, Begin(id, target, true), [Acquire(id)] + rest, s');
    assert [Begin(id, target, true)] + ([Acquire(id)] + rest) == [Begin(id, target, true), Acquire(id)] + rest;
  }

  /** A crash may come at any moment, and so may any row under a new primary key. */
  lemma AnyMoment(s: Sys, target: string, row: Row)
    requires target in s.lanes && forall r | r in s.lanes[target].source :: r.pk != row.pk
    ensures Enabled(s, Crash) && Enabled(s, Step.Arrive(target, row))
  {
  }
}
