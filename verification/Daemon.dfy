/**
 * The daemon as one object: a pull of one target from the overlap check to the
 * cleared in-flight flag, over the state store, the published files and the
 * per-table runtime state.
 */
module Daemon {
  import opened Util
  import opened Incremental
  import opened Lanes
  import opened PullLog

  datatype Health = Pending | Healthy | Degraded | Broken

  datatype TableState = TableState(
    status: Health,
    watermark: Option<string>,
    rowsLast: nat,
    rowsTotal: nat,
    consecutiveFailures: nat,
    drift: bool,
    inFlight: bool)

  const FRESH := TableState(Pending, None, 0, 0, 0, false, false)

  /** Rows and the text of the new watermark, if there is one. */
  datatype PullResult = PullResult(batch: seq<Row>, watermark: Option<string>)

  /** What one driver attempt does: return rows, or raise by SQLSTATE class. */
  datatype Attempt = Returns(result: PullResult) | Raises(permanent: bool, disconnected: bool)

  const ATTEMPTS := 4

  /** An answer to every attempt. */
  type Answers = a: seq<Attempt> | |a| == ATTEMPTS
    witness [Raises(true, false), Raises(true, false), Raises(true, false), Raises(true, false)]

  /** How far the failure path's own calls get: the entry's insert, then the count of failures. */
  datatype Noting = Unstored | Uncounted | Counted

  /**
   * What the world does to one pull: whether the stored cursor and baseline can
   * be read, four attempts' worth of answers, whether the read-back and each
   * later call works, and the columns of the frame published.
   */
  datatype World = World(
    recalls: bool, answers: Answers, readable: bool, writes: bool, commits: bool, baselines: bool, logs: bool,
    notes: Noting, columns: Schema)

  /** The attempt that settles a pull: the first that returns or raises permanently, else the last. */
  function Settling(answers: seq<Attempt>): (i: nat)
    requires answers != []
    ensures i < |answers|
    ensures forall j | 0 <= j < i :: answers[j].Raises? && !answers[j].permanent
    ensures i + 1 < |answers| ==> answers[i].Returns? || answers[i].permanent
  {
    if |answers| == 1 || answers[0].Returns? || answers[0].permanent then 0 else 1 + Settling(answers[1..])
  }

  /** One of the first made attempts failed transiently by losing its connection. */
  predicate DropsConnection(answers: seq<Attempt>, made: nat)
    requires made <= |answers|
  {
    exists i | 0 <= i < made :: answers[i].Raises? && !answers[i].permanent && answers[i].disconnected
  }

  // ---- what a pull with rows in hand does --------------------------------

  /** What of a target outlives the process. */
  datatype Kept = Kept(output: Option<seq<Row>>, cursor: Option<string>, baseline: Option<Schema>)

  /** How far it gets: output, then cursor, then schema baseline, then history entry. */
  datatype Landing = Refused | Uncommitted | Unbaselined | Unlogged | Recorded

  function Lands(r: PullResult, world: World): Landing {
    if !world.writes then Refused
    else if !world.commits && r.watermark.Some? then Uncommitted
    else if !world.baselines then Unbaselined
    else if !world.logs then Unlogged
    else Recorded
  }

  function Settle(k: Kept, r: PullResult, appends: bool, world: World): Kept {
    var output := Some(Merged(k.output, r.batch, !appends, world.readable));
    var cursor := if r.watermark.Some? then r.watermark else k.cursor;
    match Lands(r, world)
    case Refused => k
    case Uncommitted => k.(output := output)
    case Unbaselined => k.(output := output, cursor := cursor)
    case Unlogged => Kept(output, cursor, Some(world.columns))
    case Recorded => Kept(output, cursor, Some(world.columns))
  }

  /** The output is published and the cursor, if there is a new one, is stored. */
  predicate Commits(answer: Attempt, world: World) {
    answer.Returns? && world.writes && (world.commits || answer.result.watermark.None?)
  }

  /** Every call of the success path works, its history entry included. */
  predicate Succeeds(answer: Attempt, world: World) { Commits(answer, world) && world.baselines && world.logs }

  /** The watermark and the drift flag, as far as the pull gets; drift stays up once it is. */
  predicate Noted(rt: TableState, rt': TableState, answer: Attempt, baseline: Option<Schema>, world: World) {
    && rt'.watermark == (if Commits(answer, world) && answer.result.watermark.Some? then answer.result.watermark
                         else rt.watermark)
    && (rt'.drift <==> rt.drift || (Commits(answer, world) && Differs(baseline, world.columns)))
  }

  /** The counters and the status after a success. */
  predicate Prospers(rt: TableState, rt': TableState, rows: nat) {
    rt'.status.Healthy? && rt'.consecutiveFailures == 0 && rt'.rowsLast == rows && rt'.rowsTotal == rt.rowsTotal + rows
  }

  /**
   * The counters and the status after a failure, given the history it is
   * counted in. Three failures with no success after them, or a permanent one,
   * make the table broken; where the failure path fails too, nothing changes.
   */
  ghost predicate Faulted(
      rt: TableState, rt': TableState, target: string, log: seq<Entry>, permanent: bool, notes: Noting)
  {
    && rt'.rowsLast == rt.rowsLast && rt'.rowsTotal == rt.rowsTotal
    && if notes.Counted? then
         && rt'.status == (if permanent || rt'.consecutiveFailures >= 3 then Broken else Degraded)
         && (WellTimed(log) ==> rt'.consecutiveFailures == |Unbroken(log, target)|)
       else rt'.status == rt.status && rt'.consecutiveFailures == rt.consecutiveFailures
  }

  /** A table's runtime state after a pull that ran. */
  ghost predicate Concludes(
      rt: TableState, rt': TableState, target: string, log: seq<Entry>, answer: Attempt, baseline: Option<Schema>, world: World)
  {
    && Noted(rt, rt', answer, baseline, world)
    && if Succeeds(answer, world) then Prospers(rt, rt', |answer.result.batch|)
       else Faulted(rt, rt', target, log, answer.Raises? && answer.permanent, world.notes)
  }

  /** The driver's last word. */
  function LastWord(world: World): Attempt {
    world.answers[Settling(world.answers)]
  }

  /** The row count a pull logs, when it is logged as a success. */
  function RowsLogged(answer: Attempt, world: World): (rows: Option<nat>)
    ensures rows.Some? <==> Succeeds(answer, world)
    ensures rows.Some? ==> rows.value == |answer.result.batch|
  {
    match answer
    case Returns(r) => if Lands(r, world).Recorded? then Some(|r.batch|) else None
    case Raises(_, _) => None
  }

  function AfterPull(k: Kept, incremental: bool, answer: Attempt, world: World): Kept {
    match answer
    case Returns(r) => Settle(k, r, incremental && k.cursor.Some?, world)
    case Raises(_, _) => k
  }

  /** A pull's history entry: a success with its row count, or a failure without one. */
  function LogEntry(id: nat, target: string, started: int, rows: Option<nat>): Entry {
    Entry(id, target, started, if rows.Some? then Success else Failure, rows)
  }

  /** What a pull leaves in the history: one entry, unless the failure path cannot store its own. */
  function Noticed(id: nat, target: string, started: int, answer: Attempt, world: World): seq<Entry> {
    if RowsLogged(answer, world).None? && world.notes.Unstored? then []
    else [LogEntry(id, target, started, RowsLogged(answer, world))]
  }

  /** The failure path raises in its turn. */
  predicate Escapes(answer: Attempt, world: World) { RowsLogged(answer, world).None? && !world.notes.Counted? }

  /** The status says healthy: the pull succeeded, or it failed unnoticed over a healthy one. */
  predicate HealthyBy(answer: Attempt, world: World, before: bool) {
    RowsLogged(answer, world).Some? || (Escapes(answer, world) && before)
  }

  /** A call for a pull ends in an exception. */
  predicate Raised(inFlight: bool, world: World) {
    if inFlight then !world.logs else !world.recalls || Escapes(LastWord(world), world)
  }

  /** Two maps that agree everywhere but at the target. */
  ghost predicate OnlyMoved<V>(target: string, before: map<string, V>, after: map<string, V>) {
    before - {target} == after - {target}
  }

  lemma UpdateMovesOnly<V>(target: string, m: map<string, V>, v: V, v': V)
    ensures OnlyMoved(target, m, m[target := v]) && OnlyMoved(target, m, m[target := v][target := v'])
  {
  }

  lemma Elsewhere<V>(target: string, before: map<string, V>, after: map<string, V>, t: string)
    requires OnlyMoved(target, before, after) && t != target
    ensures (t in before <==> t in after) && (t in before ==> before[t] == after[t])
  {
    assert (t in before <==> t in before - {target}) && (t in after <==> t in after - {target});
    assert t in before ==> (before - {target})[t] == before[t];
    assert t in after ==> (after - {target})[t] == after[t];
  }

  /** The outputs and the state database, by target. */
  datatype Books = Books(
    outputs: map<string, seq<Row>>, watermarks: map<string, string>, schemas: map<string, Schema>)

  function KeptIn(b: Books, target: string): Kept {
    Kept(if target in b.outputs then Some(b.outputs[target]) else None,
         if target in b.watermarks then Some(b.watermarks[target]) else None,
         if target in b.schemas then Some(b.schemas[target]) else None)
  }

  /** No book differs at another target. */
  ghost predicate OnlyAt(target: string, b: Books, b': Books) {
    && OnlyMoved(target, b.outputs, b'.outputs)
    && OnlyMoved(target, b.watermarks, b'.watermarks)
    && OnlyMoved(target, b.schemas, b'.schemas)
  }

  lemma OthersKept(target: string, b: Books, b': Books, t: string)
    requires OnlyAt(target, b, b') && t != target
    ensures KeptIn(b', t) == KeptIn(b, t)
  {
    Elsewhere(target, b.outputs, b'.outputs, t);
    Elsewhere(target, b.watermarks, b'.watermarks, t);
    Elsewhere(target, b.schemas, b'.schemas, t);
  }

  /** The books once the target's rows have got as far as they get. */
  function Entered(b: Books, target: string, r: PullResult, appends: bool, world: World): Books {
    var outputs := b.outputs[target := Merged(KeptIn(b, target).output, r.batch, !appends, world.readable)];
    var watermarks := if r.watermark.Some? then b.watermarks[target := r.watermark.value] else b.watermarks;
    match Lands(r, world)
    case Refused => b
    case Uncommitted => b.(outputs := outputs)
    case Unbaselined => b.(outputs := outputs, watermarks := watermarks)
    case Unlogged => Books(outputs, watermarks, b.schemas[target := world.columns])
    case Recorded => Books(outputs, watermarks, b.schemas[target := world.columns])
  }

  lemma EnteredSettles(b: Books, target: string, r: PullResult, appends: bool, world: World)
    ensures var b' := Entered(b, target, r, appends, world);
            OnlyAt(target, b, b') && KeptIn(b', target) == Settle(KeptIn(b, target), r, appends, world)
  {
  }

  // ---- connecting --------------------------------------------------------

  const RECONNECT_INITIAL := 5
  const RECONNECT_MAX := 60

  /** What one attempt to connect meets; stopping says a shutdown was asked for by then. */
  datatype Connection = Accepts | Rejects(permanent: bool, stopping: bool)

  datatype Outcome = Up | GivenUp | Stopped | StillTrying

  /** Attempts before the one that ends the loop; all of them when none does. */
  function Waits(answers: seq<Connection>): (n: nat)
    ensures n <= |answers|
    ensures forall i | 0 <= i < n :: answers[i] == Rejects(false, false)
    ensures n < |answers| ==> answers[n] != Rejects(false, false)
  {
    if answers == [] || answers[0] != Rejects(false, false) then 0 else 1 + Waits(answers[1..])
  }

  /** The i-th wait between attempts. */
  function Backoff(i: nat): (d: nat)
    ensures RECONNECT_INITIAL <= d <= RECONNECT_MAX
  {
    if i == 0 then RECONNECT_INITIAL
    else if Backoff(i - 1) * 2 < RECONNECT_MAX then Backoff(i - 1) * 2 else RECONNECT_MAX
  }

  /** The waits double from the first to the cap, which the fifth reaches, and stay there. */
  lemma {:induction false} BackoffReachesCap(i: nat)
    ensures i < 4 ==> Backoff(i) == [5, 10, 20, 40][i]
    ensures i >= 4 ==> Backoff(i) == 60
  {
    if i > 0 {
      BackoffReachesCap(i - 1);
    }
  }

  class Daemon {
    const state: StateStore
    /** The targets in incremental mode; the others are refreshed in full. */
    const incremental: set<string>
    var outputs: map<string, seq<Row>>
    var tables: map<string, TableState>
    var connected: bool

    /** A process starts on the state and the output files it finds, not yet connected. */
    constructor (state: StateStore, published: map<string, seq<Row>>, targets: set<string>, incremental: set<string>)
      ensures this.state == state && this.incremental == incremental && outputs == published && !connected
      ensures tables == map t | t in targets :: FRESH
    {
      this.state, this.incremental, outputs, connected := state, incremental, published, false;
      tables := map t | t in targets :: FRESH;
    }

    function Output(target: string): Option<seq<Row>>
      reads this
    {
      if target in outputs then Some(outputs[target]) else None
    }

    function Durable(target: string): Kept
      reads this, state
    {
      KeptIn(All(), target)
    }

    function All(): Books
      reads this, state
    {
      Books(outputs, state.watermarks, state.schemas)
    }

    /**
     * Attempts until one is accepted, refused for good, or a shutdown is asked
     * for; this is the only place that sets the connected flag.
     */
    method Connect(answers: seq<Connection>) returns (outcome: Outcome, waits: seq<nat>)
      modifies this`connected
      ensures |waits| == Waits(answers) && forall i | 0 <= i < |waits| :: waits[i] == Backoff(i)
      ensures outcome == if |waits| == |answers| then StillTrying
                         else match answers[|waits|]
                              case Accepts => Up
                              case Rejects(permanent, _) => if permanent then GivenUp else Stopped
      ensures answers != [] ==> (connected <==> outcome.Up?)
    {
      var delay := RECONNECT_INITIAL;
      waits := [];
      for k := 0 to |answers|
        invariant |waits| == k <= Waits(answers) && delay == Backoff(k)
        invariant forall i | 0 <= i < k :: waits[i] == Backoff(i)
        invariant k > 0 ==> !connected
      {
        if answers[k].Accepts? {
          connected := true;
          return Up, waits;
        }
        connected := false;
        if answers[k].permanent {
          return GivenUp, waits;
        }
        if answers[k].stopping {
          return Stopped, waits;
        }
        waits := waits + [delay];
        delay := if delay * 2 < RECONNECT_MAX then delay * 2 else RECONNECT_MAX;
      }
      return StillTrying, waits;
    }

    /**
     * At most four attempts; a permanent error ends them at once. A connection
     * error clears the connected flag, and nothing here sets it again.
     */
    method RunWithRetries(answers: Answers) returns (r: Attempt, made: nat)
      modifies this`connected
      ensures made == Settling(answers) + 1 && r == answers[Settling(answers)]
      ensures connected == (old(connected) && !DropsConnection(answers, made))
    {
      made := 0;
      while true
        invariant made < ATTEMPTS
        invariant forall j | 0 <= j < made :: answers[j].Raises? && !answers[j].permanent
        invariant connected == (old(connected) && forall i | 0 <= i < made :: !answers[i].disconnected)
        decreases ATTEMPTS - made
      {
        r := answers[made];
        made := made + 1;
        if r.Returns? || r.permanent {
          SettlesAt(answers, made - 1);
          return;
        }
        if r.disconnected {
          connected := false;
        }
        if made == ATTEMPTS {
          SettlesAt(answers, made - 1);
          return;
        }
      }
    }

    /** Read the previous output back and append to it, or fall back to the new rows alone. */
    method MergeIncremental(target: string, batch: seq<Row>, readable: bool) returns (frame: seq<Row>)
      ensures frame == Merged(Output(target), batch, false, readable)
    {
      if target !in outputs {
        return batch;
      }
      if readable {
        return outputs[target] + batch;
      }
      return batch;
    }

    /** Merge if the pull appends, then write. */
    method Publish(target: string, batch: seq<Row>, appends: bool, world: World) returns (ok: bool)
      modifies this`outputs
      ensures ok == world.writes
      ensures outputs == if ok then old(outputs)[target := Merged(old(Output(target)), batch, !appends, world.readable)]
                         else old(outputs)
    {
      var frame := batch;
      if appends {
        frame := MergeIncremental(target, batch, world.readable);
      }
      if world.writes {
        outputs := outputs[target := frame];
      }
      return world.writes;
    }

    /** Publish, then commit the cursor, then compare and store the columns; the answer says whether each call worked. */
    method Land(target: string, rt: TableState, r: PullResult, baseline: Option<Schema>, appends: bool, world: World)
      returns (ok: bool, rt': TableState)
      modifies this`outputs, state`watermarks, state`schemas
      ensures ok <==> Lands(r, world).Unlogged? || Lands(r, world).Recorded?
      ensures All() == Entered(old(All()), target, r, appends, world)
      ensures Noted(rt, rt', Returns(r), baseline, world)
      ensures rt' == rt.(watermark := rt'.watermark, drift := rt'.drift)
    {
      rt' := rt;
      ok := Publish(target, r.batch, appends, world);
      if ok {
        ok, rt' := Advance(target, rt', r.watermark, world);
      }
      if ok {
        ok, rt' := Rebaseline(target, rt', baseline, world);
      }
    }

    /** Store the new watermark, if there is one. */
    method Advance(target: string, rt: TableState, watermark: Option<string>, world: World)
      returns (ok: bool, rt': TableState)
      modifies state`watermarks
      ensures ok == (world.commits || watermark.None?)
      ensures state.watermarks == if ok && watermark.Some? then old(state.watermarks)[target := watermark.value]
                                  else old(state.watermarks)
      ensures rt' == if ok && watermark.Some? then rt.(watermark := watermark) else rt
    {
      if watermark.None? {
        return true, rt;
      }
      if world.commits {
        state.SetWatermark(target, watermark.value);
        return true, rt.(watermark := watermark);
      }
      return false, rt;
    }

    /** Compare the columns with the last ones, then store them. */
    method Rebaseline(target: string, rt: TableState, baseline: Option<Schema>, world: World)
      returns (ok: bool, rt': TableState)
      modifies state`schemas
      ensures ok == world.baselines
      ensures state.schemas == if ok then old(state.schemas)[target := world.columns] else old(state.schemas)
      ensures rt' == rt.(drift := rt.drift || Differs(baseline, world.columns))
    {
      rt' := rt;
      var drift := SchemaDrift(baseline, world.columns);
      if drift {
        rt' := rt'.(drift := true);
      }
      if world.baselines {
        state.SetSchema(target, world.columns);
      }
      return world.baselines, rt';
    }

    /** The success path: land, then log, then note the success. */
    method HandleSuccess(
        target: string, rt: TableState, r: PullResult, started: int, baseline: Option<Schema>, reset: bool, world: World)
      returns (ok: bool, rt': TableState)
      requires state.Valid()
      modifies this`outputs, state
      ensures state.Valid() && (ok <==> Lands(r, world).Recorded?)
      ensures OnlyAt(target, old(All()), All())
      ensures Durable(target) == Settle(old(Durable(target)), r, target in incremental && !reset, world)
      ensures Noted(rt, rt', Returns(r), baseline, world)
      ensures if ok then Prospers(rt, rt', |r.batch|) else rt' == rt.(watermark := rt'.watermark, drift := rt'.drift)
      ensures state.everRecorded == old(state.everRecorded)
        + if ok then [LogEntry(|old(state.everRecorded)|, target, started, Some(|r.batch|))] else []
    {
      EnteredSettles(All(), target, r, target in incremental && !reset, world);
      ok, rt' := Land(target, rt, r, baseline, target in incremental && !reset, world);
      ok := ok && world.logs;
      if ok {
        state.RecordPull(target, started, Success, Some(|r.batch|));
        rt' := rt'.(status := Healthy, rowsLast := |r.batch|, rowsTotal := rt'.rowsTotal + |r.batch|,
                    consecutiveFailures := 0);
      }
    }

    /** Log, count, then set the status; when the log or the count fails, the status stays. */
    method HandleFailure(target: string, rt: TableState, started: int, permanent: bool, notes: Noting)
      returns (raised: bool, rt': TableState)
      requires state.Valid()
      modifies state`pullHistory, state`nextId, state`everRecorded
      ensures state.Valid() && (raised <==> !notes.Counted?)
      ensures state.everRecorded == old(state.everRecorded)
        + if notes.Unstored? then [] else [LogEntry(|old(state.everRecorded)|, target, started, None)]
      ensures Faulted(rt, rt', target, state.everRecorded, permanent, notes)
      ensures rt' == rt.(status := rt'.status, consecutiveFailures := rt'.consecutiveFailures)
    {
      if notes.Unstored? {
        return true, rt;
      }
      state.RecordPull(target, started, Failure, None);
      if notes.Uncounted? {
        return true, rt;
      }
      var n := state.ConsecutiveFailures(target);
      return false, rt.(consecutiveFailures := n, status := if n >= 3 || permanent then Broken else Degraded);
    }

    /** The driver's last word leads to the success path, and to the failure path when any call on it raises. */
    method Settled(target: string, rt: TableState, answer: Attempt, started: int, world: World)
      returns (raised: bool, rt': TableState)
      requires state.Valid()
      modifies this`outputs, state
      ensures state.Valid() && OnlyAt(target, old(All()), All())
      ensures Durable(target) == AfterPull(old(Durable(target)), target in incremental, answer, world)
      ensures raised <==> Escapes(answer, world)
      ensures Concludes(rt, rt', target, state.everRecorded, answer, old(Durable(target)).baseline, world)
      ensures state.everRecorded == old(state.everRecorded)
        + Noticed(|old(state.everRecorded)|, target, started, answer, world)
    {
      match answer {
        case Returns(r) => raised, rt' := Concluded(target, rt, r, started, world);
        case Raises(permanent, _) => raised, rt' := HandleFailure(target, rt, started, permanent, world.notes);
      }
    }

    /** The success path, and the failure path when any call on it raises. */
    method Concluded(target: string, rt: TableState, r: PullResult, started: int, world: World)
      returns (raised: bool, rt': TableState)
      requires state.Valid()
      modifies this`outputs, state
      ensures state.Valid() && OnlyAt(target, old(All()), All())
      ensures Durable(target)
        == Settle(old(Durable(target)), r, target in incremental && old(Durable(target)).cursor.Some?, world)
      ensures raised <==> Escapes(Returns(r), world)
      ensures Concludes(rt, rt', target, state.everRecorded, Returns(r), old(Durable(target)).baseline, world)
      ensures state.everRecorded == old(state.everRecorded)
        + Noticed(|old(state.everRecorded)|, target, started, Returns(r), world)
    {
      var prev := state.Watermark(target);
      var ok;
      raised := false;
      ok, rt' := HandleSuccess(target, rt, r, started, state.Baseline(target), prev.None?, world);
      if !ok {
        raised, rt' := HandleFailure(target, rt', started, false, world.notes);
      }
    }

    /** Retries, and what they settle on. */
    method Attempted(target: string, rt: TableState, started: int, world: World)
      returns (raised: bool, rt': TableState)
      requires state.Valid()
      modifies this`outputs, this`connected, state
      ensures state.Valid() && OnlyAt(target, old(All()), All())
      ensures Durable(target) == AfterPull(old(Durable(target)), target in incremental, LastWord(world), world)
      ensures raised <==> Escapes(LastWord(world), world)
      ensures Concludes(rt, rt', target, state.everRecorded, LastWord(world), old(Durable(target)).baseline, world)
      ensures state.everRecorded == old(state.everRecorded)
        + Noticed(|old(state.everRecorded)|, target, started, LastWord(world), world)
      ensures connected <==> old(connected) && !Drops(world)
    {
      var answer, _ := RunWithRetries(world.answers);
      raised, rt' := Settled(target, rt, answer, started, world);
    }

    /**
     * One call for a pull of one target. Over a flag that is up it only logs a
     * skip. Otherwise it raises the flag, and lowers it again however the pull
     * ends, but not when the stored cursor or baseline cannot be read: they are
     * read before the block that lowers it.
     */
    method PullOnce(target: string, started: int, world: World) returns (raised: bool)
      requires state.Valid() && target in tables
      modifies this, state
      ensures state.Valid() && OnlyAt(target, old(All()), All())
      ensures tables.Keys == old(tables.Keys) && OnlyMoved(target, old(tables), tables)
      ensures raised <==> Raised(old(tables)[target].inFlight, world)
      ensures tables[target].inFlight <==> old(tables)[target].inFlight || !world.recalls
      ensures old(tables)[target].inFlight ==>
        && All() == old(All()) && tables == old(tables) && connected == old(connected)
        && state.everRecorded == old(state.everRecorded)
             + if world.logs then [Entry(|old(state.everRecorded)|, target, started, SkippedOverlap, None)] else []
      ensures !old(tables)[target].inFlight && !world.recalls ==>
        && All() == old(All()) && connected == old(connected) && state.everRecorded == old(state.everRecorded)
        && tables[target] == old(tables)[target].(inFlight := true)
      ensures !old(tables)[target].inFlight && world.recalls ==>
        && Durable(target) == AfterPull(old(Durable(target)), target in incremental, LastWord(world), world)
        && Concludes(old(tables)[target], tables[target], target, state.everRecorded, LastWord(world),
                     old(Durable(target)).baseline, world)
        && state.everRecorded == old(state.everRecorded)
             + Noticed(|old(state.everRecorded)|, target, started, LastWord(world), world)
        && (connected <==> old(connected) && !Drops(world))
    {
      if tables[target].inFlight {
        if world.logs {
          state.RecordPull(target, started, SkippedOverlap, None);
        }
        return !world.logs;
      }
      raised := PullOwned(target, started, world);
    }

    /** The pull that raised the flag; it is lowered only once there is something to try. */
    method PullOwned(target: string, started: int, world: World) returns (raised: bool)
      requires state.Valid() && target in tables && !tables[target].inFlight
      modifies this, state
      ensures state.Valid() && OnlyAt(target, old(All()), All())
      ensures raised <==> Raised(false, world)
      ensures !world.recalls ==>
        && All() == old(All()) && connected == old(connected) && state.everRecorded == old(state.everRecorded)
        && tables == old(tables)[target := old(tables)[target].(inFlight := true)]
      ensures world.recalls ==>
        && Durable(target) == AfterPull(old(Durable(target)), target in incremental, LastWord(world), world)
        && tables.Keys == old(tables.Keys) && OnlyMoved(target, old(tables), tables) && !tables[target].inFlight
        && Concludes(old(tables)[target], tables[target], target, state.everRecorded, LastWord(world),
                     old(Durable(target)).baseline, world)
        && state.everRecorded == old(state.everRecorded)
             + Noticed(|old(state.everRecorded)|, target, started, LastWord(world), world)
        && (connected <==> old(connected) && !Drops(world))
    {
      var rt := tables[target].(inFlight := true);
      tables := tables[target := rt];
      if !world.recalls {
        return true;
      }
      raised, rt := Attempted(target, rt, started, world);
      UpdateMovesOnly(target, old(tables), old(tables)[target].(inFlight := true), rt.(inFlight := false));
      tables := tables[target := rt.(inFlight := false)];
    }

    /** A call from the target's own loop, whose call before this one is over. */
    method PullInTurn(target: string, started: int, world: World) returns (raised: bool)
      requires state.Valid() && target in tables && !tables[target].inFlight
      modifies this, state
      ensures state.Valid() && OnlyAt(target, old(All()), All())
      ensures tables.Keys == old(tables.Keys) && OnlyMoved(target, old(tables), tables)
      ensures raised <==> Raised(false, world)
      ensures tables[target].inFlight <==> !world.recalls
      ensures tables[target].status.Healthy? <==>
        if raised then old(tables)[target].status.Healthy? else RowsLogged(LastWord(world), world).Some?
    {
      raised := PullOnce(target, started, world);
    }

    /** One target's loop: pull after pull, until one raises or the worlds run out (a shutdown). */
    method TableLoop(target: string, clock: nat -> int, worlds: seq<World>) returns (made: nat)
      requires state.Valid() && target in tables && !tables[target].inFlight
      modifies this, state
      ensures state.Valid() && OnlyAt(target, old(All()), All())
      ensures tables.Keys == old(tables.Keys) && OnlyMoved(target, old(tables), tables)
      ensures Looped(made, tables[target].status.Healthy?, tables[target].inFlight)
           == Loop(worlds, old(tables)[target].status.Healthy?)
    {
      made := 0;
      while made < |worlds|
        invariant made <= |worlds|
        invariant state.Valid() && OnlyAt(target, old(All()), All())
        invariant tables.Keys == old(tables.Keys) && OnlyMoved(target, old(tables), tables)
        invariant !tables[target].inFlight
        invariant Loop(worlds, old(tables)[target].status.Healthy?)
               == Longer(made, Loop(worlds[made..], tables[target].status.Healthy?))
      {
        assert worlds[made..][0] == worlds[made] && worlds[made..][1..] == worlds[made + 1..];
        var raised := PullInTurn(target, clock(made), worlds[made]);
        made := made + 1;
        if raised {
          return;
        }
      }
    }

    /** One table broken or the source disconnected is an error; failing or drifted tables degrade the whole. */
    function Overall(): (s: Health)
      reads this
      ensures s.Broken? <==> !connected || exists t | t in tables :: tables[t].status.Broken?
      ensures s.Healthy? <==>
        && connected
        && forall t | t in tables :: (tables[t].status.Healthy? || tables[t].status.Pending?) && !tables[t].drift
      ensures !s.Pending?
    {
      if (exists t | t in tables :: tables[t].status.Broken?) || !connected then Broken
      else if exists t | t in tables :: tables[t].status.Degraded? || tables[t].drift then Degraded
      else Healthy
    }
  }

  // ---- one target's loop -------------------------------------------------

  /** What a loop comes to: the pulls it made, what the status says, and whether the flag is still up. */
  datatype Looped = Looped(made: nat, healthy: bool, inFlight: bool)

  function Longer(n: nat, l: Looped): Looped { l.(made := n + l.made) }

  function Loop(worlds: seq<World>, before: bool): Looped {
    if worlds == [] then Looped(0, before, false)
    else if Raised(false, worlds[0]) then Looped(1, before, !worlds[0].recalls)
    else Longer(1, Loop(worlds[1..], RowsLogged(LastWord(worlds[0]), worlds[0]).Some?))
  }

  /**
   * A loop goes on to the end exactly when no pull of it raises. Otherwise it
   * ends for good at the first that does, with the status the pull before that
   * one left, and with the flag up if the stored state was what could not be
   * read.
   */
  lemma {:induction false} LoopEndsExactly(worlds: seq<World>, before: bool, n: nat)
    requires n <= |worlds| && (forall i | 0 <= i < n :: !Raised(false, worlds[i]))
    requires n < |worlds| ==> Raised(false, worlds[n])
    ensures Loop(worlds, before).made == (if n < |worlds| then n + 1 else n)
    ensures Loop(worlds, before).healthy
         <==> if n == 0 then before else RowsLogged(LastWord(worlds[n - 1]), worlds[n - 1]).Some?
    ensures Loop(worlds, before).inFlight <==> n < |worlds| && !worlds[n].recalls
  {
    if n > 0 {
      var rest := worlds[1..];
      assert forall i | 0 <= i < |rest| :: rest[i] == worlds[i + 1];
      LoopEndsExactly(rest, RowsLogged(LastWord(worlds[0]), worlds[0]).Some?, n - 1);
    }
  }

  lemma {:induction false} SettlesAt(answers: seq<Attempt>, i: nat)
    requires i < |answers|
    requires forall j | 0 <= j < i :: answers[j].Raises? && !answers[j].permanent
    requires i + 1 == |answers| || answers[i].Returns? || answers[i].permanent
    ensures Settling(answers) == i
  {
    var s := Settling(answers);
    assert !(s < i);
    assert !(i < s);
  }

  /** The pull loses the connection on the way to its settling attempt, or at it. */
  predicate Drops(world: World) {
    DropsConnection(world.answers, Settling(world.answers) + 1)
  }
}
