/**
 * The content-addressed artifact store: verify on reuse, preserve corrupt
 * bytes before a repair overwrites them, and what killed processes and power
 * losses can and cannot destroy.
 */
module Evidence {
  import opened Util
  import opened Disk

  /** An ideal hash: the digest determines the bytes. */
  datatype Digest = Sha(content: Bytes)

  /** Names under artifacts/; distinct shapes are distinct names. */
  datatype Path =
    | Stored(digest: Digest, suffix: string)
    | Preserved(digest: Digest, actual: Digest)
    | Manifest(digest: Digest)
    | Tmp(of: Path, pid: nat)

  const COPY_LIMIT := 8 * 1024 * 1024

  /** One call of the recorder: the produced bytes, its suffix, the repair flag and the process id. */
  datatype Call = Call(produced: Bytes, suffix: string, repair: bool, pid: nat)

  datatype PreservedState = AlreadyComplete | Fresh | Completed

  datatype Record =
    | Copied(digest: Digest, repaired: Option<(Digest, PreservedState)>)
    | Described(digest: Digest, manifest: Digest)

  datatype Refusal = CorruptStored(expected: Digest, actual: Digest)

  function Target(c: Call): Path { Stored(Sha(c.produced), c.suffix) }

  /** The manifest text names the artifact's content address. */
  function ManifestText(c: Call): Bytes { [|c.produced|] + c.produced }

  /** The corrupt bytes this call finds under its own name, if any. */
  function Corrupt(fs: Fs<Path>, c: Call): Option<Bytes> {
    if |c.produced| <= COPY_LIMIT && Target(c) in fs && Sha(fs[Target(c)].data) != Sha(c.produced)
    then Some(fs[Target(c)].data) else None
  }

  function Aside(c: Call, x: Bytes): Path { Preserved(Sha(c.produced), Sha(x)) }

  /** Every file-system state the call passes through, in order. */
  function RecordTrace(fs: Fs<Path>, c: Call): seq<Fs<Path>> {
    if |c.produced| > COPY_LIMIT then
      AtomicTrace(fs, Tmp(Manifest(Sha(c.produced)), c.pid), Manifest(Sha(c.produced)), ManifestText(c))
    else
      match Corrupt(fs, c)
      case Some(x) =>
        if !c.repair then []
        else
          var aside := PreserveTrace(fs, c, x);
          aside + WriteTrace(Final(fs, aside), Target(c), c.produced)
      case None => if Target(c) in fs then [] else WriteTrace(fs, Target(c), c.produced)
  }

  lemma {:induction false} TmpIsOther(p: Path, pid: nat)
    ensures Tmp(p, pid) != p
  {
    match p
    case Tmp(of, n) => TmpIsOther(of, n);
    case _ =>
  }

  /** Nothing when a preserved file already hashes to the corrupt bytes; an atomic copy otherwise. */
  function PreserveTrace(fs: Fs<Path>, c: Call, x: Bytes): seq<Fs<Path>> {
    var dst := Aside(c, x);
    if dst in fs && Sha(fs[dst].data) == Sha(x) then [] else AtomicTrace(fs, Tmp(dst, c.pid), dst, x)
  }

  /** What a repair puts on record: the hash found in the entry, and what stood under the name the corrupt bytes go to. */
  predicate RecordsRepair(fs: Fs<Path>, digest: Digest, suffix: string, repair: (Digest, PreservedState)) {
    var aside := Preserved(digest, repair.0);
    && Holds(fs, Stored(digest, suffix), repair.0.content)
    && (repair.1.Fresh? <==> aside !in fs)
    && (repair.1.AlreadyComplete? <==> Holds(fs, aside, repair.0.content))
  }

  /** A manifest is of one content. */
  lemma ManifestsDiffer(c: Call, other: Call)
    ensures ManifestText(c) == ManifestText(other) <==> Sha(c.produced) == Sha(other.produced)
  {
    assert ManifestText(c)[1..] == c.produced && ManifestText(other)[1..] == other.produced;
  }

  class Store {
    const drive: Drive<Path>

    constructor (drive: Drive<Path>)
      ensures this.drive == drive
    {
      this.drive := drive;
    }

    function Sha256(p: Path): Digest
      requires p in drive.fs
      reads drive
    {
      Sha(drive.fs[p].data)
    }

    method AtomicCopyVerified(src: Path, dst: Path, pid: nat, expected: Digest) returns (ok: bool)
      requires src in drive.fs
      modifies drive
      ensures ok == (Sha(old(drive.fs)[src].data) == expected)
      ensures drive.journal == old(drive.journal)
        + AtomicTrace(old(drive.fs), Tmp(dst, pid), dst, old(drive.fs)[src].data)
      ensures drive.fs == Final(old(drive.fs),
        AtomicTrace(old(drive.fs), Tmp(dst, pid), dst, old(drive.fs)[src].data))
      ensures Durable(drive.fs, dst, old(drive.fs)[src].data)
    {
      TmpIsOther(dst, pid);
      drive.Replace(Tmp(dst, pid), dst, drive.fs[src].data);
      ok := Sha256(dst) == expected;
    }

    /**
     * A refusal changes nothing and happens exactly when a corrupt entry is
     * found and no repair was asked for; a normal return leaves the entry (or
     * the manifest) with the bytes it claims; a repair is on record with the
     * hash of the corrupt bytes and how their copy was found; and the call
     * passes through exactly the states of RecordTrace.
     */
    method RecordArtifact(c: Call) returns (r: Result<Record, Refusal>)
      modifies drive
      ensures drive.journal == old(drive.journal) + RecordTrace(old(drive.fs), c)
      ensures drive.fs == Final(old(drive.fs), RecordTrace(old(drive.fs), c))
      ensures r.Err? <==> Corrupt(old(drive.fs), c).Some? && !c.repair
      ensures r.Err? ==>
        && drive.fs == old(drive.fs)
        && r.error == CorruptStored(Sha(c.produced), Sha(Corrupt(old(drive.fs), c).value))
      ensures r.Ok? && |c.produced| <= 8_388_608 ==>
        && Holds(drive.fs, Stored(Sha(c.produced), c.suffix), c.produced)
        && r.value.Copied? && r.value.digest == Sha(c.produced)
        && (r.value.repaired.Some? <==> Corrupt(old(drive.fs), c).Some?)
        && (r.value.repaired.Some? ==>
              RecordsRepair(old(drive.fs), Sha(c.produced), c.suffix, r.value.repaired.value))
      ensures r.Ok? && |c.produced| > 8_388_608 ==>
        && Durable(drive.fs, Manifest(Sha(c.produced)), ManifestText(c))
        && r.value == Described(Sha(c.produced), Sha(ManifestText(c)))
    {
      var digest := Sha(c.produced);
      if |c.produced| > COPY_LIMIT {
        drive.Replace(Tmp(Manifest(digest), c.pid), Manifest(digest), ManifestText(c));
        return Ok(Described(digest, Sha256(Manifest(digest))));
      }
      var stored := Target(c);
      var repaired: Option<(Digest, PreservedState)> := None;
      if stored in drive.fs {
        var actual := Sha256(stored);
        if actual != digest {
          if !c.repair {
            return Err(CorruptStored(digest, actual));
          }
          var how := Preserve(c, stored, actual);
          drive.Write(stored, c.produced);
          repaired := Some((actual, how));
        }
      } else {
        drive.Write(stored, c.produced);
      }
      return Ok(Copied(Sha256(stored), repaired));
    }

    /** The corrupt bytes are copied aside unless a complete copy is already there. */
    method Preserve(c: Call, stored: Path, actual: Digest) returns (how: PreservedState)
      requires stored in drive.fs && actual == Sha(drive.fs[stored].data) && Aside(c, actual.content) != stored
      modifies drive
      ensures var x := old(drive.fs)[stored].data;
              && drive.journal == old(drive.journal) + PreserveTrace(old(drive.fs), c, x)
              && drive.fs == Final(old(drive.fs), PreserveTrace(old(drive.fs), c, x))
              && Holds(drive.fs, Aside(c, x), x)
      ensures how == if Aside(c, actual.content) !in old(drive.fs) then Fresh
                     else if Sha(old(drive.fs)[Aside(c, actual.content)].data) == actual then AlreadyComplete
                     else Completed
    {
      var aside := Preserved(Sha(c.produced), actual);
      if aside in drive.fs && Sha256(aside) == actual {
        return AlreadyComplete;
      }
      how := if aside in drive.fs then Completed else Fresh;
      var ok := AtomicCopyVerified(stored, aside, c.pid, actual);
      assert ok;
    }
  }

  // ---- corrupt bytes outlive every call ----------------------------------

  /** Bytes x that do not belong under digest d are in the entry or whole in the preserved copy. */
  predicate Kept(fs: Fs<Path>, d: Digest, suffix: string, x: Bytes) {
    Holds(fs, Stored(d, suffix), x) || Holds(fs, Preserved(d, Sha(x)), x)
  }

  /** The same, out of reach of a power loss. */
  predicate KeptDurably(fs: Fs<Path>, d: Digest, suffix: string, x: Bytes) {
    Durable(fs, Stored(d, suffix), x) || Durable(fs, Preserved(d, Sha(x)), x)
  }

  /** A complete preserved copy that the recorder will trust is durable. */
  predicate TrustIsDurable(fs: Fs<Path>, d: Digest, x: Bytes) {
    Holds(fs, Preserved(d, Sha(x)), x) ==> Durable(fs, Preserved(d, Sha(x)), x)
  }

  /** The files a call may change. */
  predicate MayTouch(fs: Fs<Path>, c: Call, p: Path) {
    || (p == Target(c) && |c.produced| <= COPY_LIMIT) || p.Tmp? || p.Manifest?
    || (Corrupt(fs, c).Some? && p == Aside(c, Corrupt(fs, c).value) && !Holds(fs, p, Corrupt(fs, c).value))
  }

  lemma PreserveTouchesOnly(fs: Fs<Path>, c: Call, x: Bytes, s: Fs<Path>)
    requires s in PreserveTrace(fs, c, x) || s == Final(fs, PreserveTrace(fs, c, x))
    ensures forall p: Path | !p.Tmp? && (p != Aside(c, x) || Holds(fs, p, x)) :: Untouched(fs, s, p)
    ensures s == Final(fs, PreserveTrace(fs, c, x)) ==>
      Holds(s, Aside(c, x), x) && (TrustIsDurable(fs, Sha(c.produced), x) ==> Durable(s, Aside(c, x), x))
  {
    var dst := Aside(c, x);
    if !(dst in fs && Sha(fs[dst].data) == Sha(x)) {
      AtomicFinal(fs, Tmp(dst, c.pid), dst, x);
      AtomicTouchesOnly(fs, Tmp(dst, c.pid), dst, x, s);
    }
  }

  /** A call stopped anywhere has touched only what it may. */
  lemma CallTouchesOnly(fs: Fs<Path>, c: Call, s: Fs<Path>)
    requires s in RecordTrace(fs, c)
    ensures forall p | !MayTouch(fs, c, p) :: Untouched(fs, s, p)
  {
    if |c.produced| > COPY_LIMIT {
      AtomicTouchesOnly(fs, Tmp(Manifest(Sha(c.produced)), c.pid), Manifest(Sha(c.produced)), ManifestText(c), s);
    } else if Corrupt(fs, c).Some? {
      var x := Corrupt(fs, c).value;
      var aside := PreserveTrace(fs, c, x);
      PreserveTouchesOnly(fs, c, x, if s in aside then s else Final(fs, aside));
      if s !in aside {
        WriteTouchesOnly(Final(fs, aside), Target(c), c.produced, s);
      }
    } else {
      WriteTouchesOnly(fs, Target(c), c.produced, s);
    }
  }

  /** While a repair runs, the corrupt bytes stay in the entry until the preserved copy is whole. */
  lemma RepairKeeps(fs: Fs<Path>, c: Call, s: Fs<Path>)
    requires Corrupt(fs, c).Some? && s in RecordTrace(fs, c)
    ensures var x := Corrupt(fs, c).value;
            && Kept(s, Sha(c.produced), c.suffix, x)
            && (Durable(fs, Target(c), x) && TrustIsDurable(fs, Sha(c.produced), x) ==>
                  KeptDurably(s, Sha(c.produced), c.suffix, x))
  {
    var x := Corrupt(fs, c).value;
    var aside := PreserveTrace(fs, c, x);
    PreserveTouchesOnly(fs, c, x, if s in aside then s else Final(fs, aside));
    if s !in aside {
      WriteTouchesOnly(Final(fs, aside), Target(c), c.produced, s);
    }
  }

  /** A complete preserved copy is never rewritten. */
  lemma PreservedStays(fs: Fs<Path>, c: Call, s: Fs<Path>, d: Digest, x: Bytes)
    requires s in RecordTrace(fs, c) && Holds(fs, Preserved(d, Sha(x)), x)
    ensures Untouched(fs, s, Preserved(d, Sha(x)))
  {
    CallTouchesOnly(fs, c, s);
    assert !MayTouch(fs, c, Preserved(d, Sha(x)));
  }

  /** Corrupt bytes in an entry: either the call is about that entry, or it leaves it alone. */
  lemma EntryKept(fs: Fs<Path>, c: Call, s: Fs<Path>, d: Digest, suffix: string, x: Bytes)
    requires Sha(x) != d && s in RecordTrace(fs, c) && Holds(fs, Stored(d, suffix), x)
    ensures Kept(s, d, suffix, x)
    ensures Durable(fs, Stored(d, suffix), x) && TrustIsDurable(fs, d, x) ==> KeptDurably(s, d, suffix, x)
  {
    if Target(c) == Stored(d, suffix) && |c.produced| <= COPY_LIMIT {
      assert Corrupt(fs, c) == Some(x);
      RepairKeeps(fs, c, s);
    } else {
      CallTouchesOnly(fs, c, s);
      assert !MayTouch(fs, c, Stored(d, suffix));
    }
  }

  /** One call, complete or killed at any state, keeps corrupt bytes wherever they were kept. */
  lemma CallKeeps(fs: Fs<Path>, c: Call, s: Fs<Path>, d: Digest, suffix: string, x: Bytes)
    requires Sha(x) != d && Kept(fs, d, suffix, x)
    requires s == fs || s in RecordTrace(fs, c)
    ensures Kept(s, d, suffix, x)
    ensures KeptDurably(fs, d, suffix, x) && TrustIsDurable(fs, d, x) ==> KeptDurably(s, d, suffix, x)
  {
    if s in RecordTrace(fs, c) {
      if Holds(fs, Preserved(d, Sha(x)), x) {
        PreservedStays(fs, c, s, d, x);
      } else {
        EntryKept(fs, c, s, d, suffix, x);
      }
    }
  }

  // ---- whole histories ---------------------------------------------------

  datatype Event =
    | Finished(call: Call)
    | Killed(call: Call, at: nat)
    | PowerLost(call: Call, at: nat, left: Fs<Path>)

  /** The disk after an event: the call's last state, or the one it was stopped in, or what the power loss left. */
  ghost predicate Happens(fs: Fs<Path>, e: Event, fs': Fs<Path>) {
    match e
    case Finished(c) => fs' == Final(fs, RecordTrace(fs, c))
    case Killed(c, at) => at < |RecordTrace(fs, c)| && fs' == RecordTrace(fs, c)[at]
    case PowerLost(c, at, left) => at < |RecordTrace(fs, c)| && PowerLoss(RecordTrace(fs, c)[at], left) && fs' == left
  }

  ghost predicate History(fs: Fs<Path>, events: seq<Event>, fs': Fs<Path>)
    decreases |events|
  {
    if events == [] then fs == fs'
    else exists mid :: Happens(fs, events[0], mid) && History(mid, events[1..], fs')
  }

  /**
   * Corruption is never destroyed: over any sequence of calls, each complete
   * or killed at any point, corrupt bytes that were in a store entry are still
   * there or whole in the preserved copy named after them.
   */
  lemma {:induction false} CorruptionOutlivesCalls(fs: Fs<Path>, events: seq<Event>, fs': Fs<Path>,
                                                   d: Digest, suffix: string, x: Bytes)
    requires History(fs, events, fs') && forall i | 0 <= i < |events| :: !events[i].PowerLost?
    requires Sha(x) != d && Kept(fs, d, suffix, x)
    ensures Kept(fs', d, suffix, x)
    decreases |events|
  {
    if events != [] {
      var mid :| Happens(fs, events[0], mid) && History(mid, events[1..], fs');
      CallKeeps(fs, events[0].call, mid, d, suffix, x);
      CorruptionOutlivesCalls(mid, events[1..], fs', d, suffix, x);
    }
  }

  lemma PowerKeeps(s: Fs<Path>, left: Fs<Path>, d: Digest, suffix: string, x: Bytes)
    requires KeptDurably(s, d, suffix, x) && PowerLoss(s, left)
    ensures KeptDurably(left, d, suffix, x) && TrustIsDurable(left, d, x)
  {
  }

  /**
   * With power losses too, provided no process is killed: corrupt bytes that
   * were durable stay durable.
   */
  lemma {:induction false} CorruptionOutlivesPowerLoss(fs: Fs<Path>, events: seq<Event>, fs': Fs<Path>,
                                                       d: Digest, suffix: string, x: Bytes)
    requires History(fs, events, fs') && forall i | 0 <= i < |events| :: !events[i].Killed?
    requires Sha(x) != d && KeptDurably(fs, d, suffix, x) && TrustIsDurable(fs, d, x)
    ensures KeptDurably(fs', d, suffix, x) && TrustIsDurable(fs', d, x)
    decreases |events|
  {
    if events != [] {
      var mid :| Happens(fs, events[0], mid) && History(mid, events[1..], fs');
      var c := events[0].call;
      if events[0].PowerLost? {
        var s := RecordTrace(fs, c)[events[0].at];
        assert s in RecordTrace(fs, c);
        CallKeeps(fs, c, s, d, suffix, x);
        PowerKeeps(s, mid, d, suffix, x);
      } else {
        CallKeeps(fs, c, mid, d, suffix, x);
        FinishedCallEarnsTrust(fs, c, d, x);
      }
      CorruptionOutlivesPowerLoss(mid, events[1..], fs', d, suffix, x);
    }
  }

  /** A call that runs to its end leaves no preserved copy it would trust undurable. */
  lemma FinishedCallEarnsTrust(fs: Fs<Path>, c: Call, d: Digest, x: Bytes)
    requires TrustIsDurable(fs, d, x)
    ensures TrustIsDurable(Final(fs, RecordTrace(fs, c)), d, x)
  {
    var trace := RecordTrace(fs, c);
    if trace != [] {
      var end := Final(fs, trace);
      assert end in trace;
      CallTouchesOnly(fs, c, end);
      var p := Preserved(d, Sha(x));
      if MayTouch(fs, c, p) {
        var y := Corrupt(fs, c).value;
        assert y == x;
        var aside := PreserveTrace(fs, c, x);
        PreserveTouchesOnly(fs, c, x, Final(fs, aside));
        WriteTouchesOnly(Final(fs, aside), Target(c), c.produced, end);
      }
    }
  }

  /**
   * Exactly when one repair is safe from a power loss at any instant: when a
   * preserved copy it would reuse is durable. Reuse checks the copy's hash,
   * which reads the live file, and does not fsync it.
   */
  lemma RepairPowerSafeExactly(fs: Fs<Path>, c: Call)
    requires Corrupt(fs, c).Some? && c.repair && Durable(fs, Target(c), Corrupt(fs, c).value)
    ensures TrustIsDurable(fs, Sha(c.produced), Corrupt(fs, c).value)
       <==> forall s, left | s in RecordTrace(fs, c) && PowerLoss(s, left) ::
              Kept(left, Sha(c.produced), c.suffix, Corrupt(fs, c).value)
  {
    var x := Corrupt(fs, c).value;
    var d := Sha(c.produced);
    if TrustIsDurable(fs, d, x) {
      forall s, left | s in RecordTrace(fs, c) && PowerLoss(s, left) ensures Kept(left, d, c.suffix, x) {
        RepairKeeps(fs, c, s);
        PowerKeeps(s, left, d, c.suffix, x);
      }
    } else {
      var trace := WriteTrace(fs, Target(c), c.produced);
      assert RecordTrace(fs, c) == trace;
      var s := trace[|trace| - 1];
      var left := map p | p in s && s[p].synced && s[p].linked :: s[p];
      assert s in trace && PowerLoss(s, left);
      assert !Kept(left, d, c.suffix, x);
    }
  }

  /**
   * That state is reached: kill the first repair between its rename and its
   * directory fsync, run the repair again, then lose power.
   */
  lemma KillThenPowerLossCanDestroy(c: Call, x: Bytes)
    requires |c.produced| <= COPY_LIMIT && x != c.produced && c.repair
    ensures var fs: Fs<Path> := map[Target(c) := File(x, true, true)];
            exists killed, s, left ::
              && killed in RecordTrace(fs, c)
              && s in RecordTrace(killed, c)
              && PowerLoss(s, left)
              && !Kept(left, Sha(c.produced), c.suffix, x)
  {
    var fs: Fs<Path> := map[Target(c) := File(x, true, true)];
    var dst := Aside(c, x);
    var tmp := Tmp(dst, c.pid);
    var aside := AtomicTrace(fs, tmp, dst, x);
    var killed := Renamed(Fsynced(Written(fs, tmp, x), tmp), tmp, dst);
    assert aside[|aside| - 2] == killed && killed in aside;
    assert killed in RecordTrace(fs, c);
    assert Holds(killed, dst, x) && !Durable(killed, dst, x) && Durable(killed, Target(c), x);
    RepairPowerSafeExactly(killed, c);
  }
}
