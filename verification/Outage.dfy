/**
 * A power loss over a lane: the state database has committed the cursor, the
 * output is whatever file the disk still has. The promise of the cursor is
 * only as durable as the file.
 */
module Outage {
  import opened Util
  import opened Incremental
  import opened Ordering
  import opened Lanes
  import opened Disk
  import opened Publish

  /** The published format: every frame written reads back. */
  ghost predicate Format(write: seq<Row> -> Bytes, read: Bytes -> Option<seq<Row>>) {
    forall rows :: read(write(rows)) == Some(rows)
  }

  /** The lane as a daemon restarted over these files finds it: an output that is gone or unreadable is none. */
  function Restarted(l: Lane, read: Bytes -> Option<seq<Row>>, files: Fs<string>, path: string): Lane {
    l.(output := if path in files then read(files[path].data) else None)
  }

  /** Everything a power loss may take is gone. */
  ghost function Worst(fs: Fs<string>): (left: Fs<string>)
    ensures PowerLoss(fs, left)
    ensures forall p | p in left :: p in fs && fs[p].synced && fs[p].linked
  {
    map p | p in fs && fs[p].synced && fs[p].linked :: fs[p]
  }

  /**
   * A lane that misses no row, with its output on disk, misses none after any
   * power loss if and only if the file is durable or nothing is held at or
   * below the cursor.
   */
  lemma OutageLosesExactly(
      l: Lane, write: seq<Row> -> Bytes, read: Bytes -> Option<seq<Row>>, fs: Fs<string>, path: string)
    requires Format(write, read) && NothingLost(l) && MarkOf(l.stored).Some?
    requires Holds(fs, path, write(l.output.value))
    ensures (forall left, r | PowerLoss(fs, left) :: !Missed(Restarted(l, read, left, path), r))
       <==> Durable(fs, path, write(l.output.value)) || NothingHeld(l)
  {
    var m := MarkOf(l.stored).value;
    FilterIn(l.source, UpTo(m));
    if Durable(fs, path, write(l.output.value)) {
      forall left, r | PowerLoss(fs, left) ensures !Missed(Restarted(l, read, left, path), r) {
        assert Restarted(l, read, left, path) == l;
      }
    } else if NothingHeld(l) {
      forall left, r | PowerLoss(fs, left) ensures !Missed(Restarted(l, read, left, path), r) {
        assert r in l.source && !Above(m, r) ==> r in Filter(l.source, UpTo(m));
      }
    } else {
      var held := Filter(l.source, UpTo(m));
      assert held[0] in held && path !in Worst(fs);
      assert Missed(Restarted(l, read, Worst(fs), path), held[0]);
    }
  }

  /**
   * So a ramdb publish can be outlived by its cursor: after one and its commit
   * a power loss can leave every row at or below the cursor missing, and no
   * later pull brings one back.
   */
  lemma RamdbCursorOutlivesOutput(
      l: Lane, write: seq<Row> -> Bytes, read: Bytes -> Option<seq<Row>>, fs: Fs<string>, tmp: string, path: string)
    requires Conserved(l) && MarkOf(l.stored).Some? && tmp != path
    ensures var end := Final(fs, RamdbTrace(fs, tmp, path, write(l.output.value)));
            exists left | PowerLoss(end, left) ::
              var l' := Restarted(l, read, left, path);
              && !NothingLost(l')
              && forall r, n: nat | r in l.source && !Above(MarkOf(l.stored).value, r) :: Missed(PullNext(l', n), r)
  {
    var data := write(l.output.value);
    var end := Final(fs, RamdbTrace(fs, tmp, path, data));
    assert end == Renamed(Written(fs, tmp, data), tmp, path);
    var left := Worst(end);
    assert path !in left;
    var l' := Restarted(l, read, left, path);
    forall r, n: nat | r in l.source && !Above(MarkOf(l.stored).value, r) ensures Missed(PullNext(l', n), r) {
      MissedStaysMissed(l', n, r);
    }
    assert PowerLoss(end, left) && !NothingLost(l');
  }

  /** A publish with both fsyncs is not: its promise survives every power loss. */
  lemma SyncedOutputKeepsPromise(
      l: Lane, write: seq<Row> -> Bytes, read: Bytes -> Option<seq<Row>>, fs: Fs<string>, tmp: string, path: string)
    requires Format(write, read) && NothingLost(l) && MarkOf(l.stored).Some? && tmp != path
    ensures var end := Final(fs, AtomicTrace(fs, tmp, path, write(l.output.value)));
            forall left | PowerLoss(end, left) :: NothingLost(Restarted(l, read, left, path))
  {
    AtomicFinal(fs, tmp, path, write(l.output.value));
    var end := Final(fs, AtomicTrace(fs, tmp, path, write(l.output.value)));
    forall left | PowerLoss(end, left) ensures NothingLost(Restarted(l, read, left, path)) {
      assert Restarted(l, read, left, path) == l;
    }
  }
}
