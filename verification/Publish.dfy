/**
 * The sinks: what a reader of a published path can see while writers, crashes
 * and start-up cleanup interleave, what fsync adds, and which cells the ramdb
 * format can hold.
 */
module Publish {
  import opened Disk
  import opened Text

  /** A file extension as the sinks use it: a dot, then letters. */
  predicate Extension(ext: string) { 2 <= |ext| <= 6 && ext[0] == '.' && '.' !in ext[1..] }

  /** uuid4().hex: thirty-two characters, none of them a dot. */
  predicate Uuid(u: string) { |u| == 32 && '.' !in u }

  function FinalName(ext: string, target: string): string { target + ext }

  function Mark(ext: string): string { ext + ".tmp." }

  function TmpName(ext: string, target: string, uuid: string): string { "." + target + Mark(ext) + uuid }

  /** What start-up cleanup removes. */
  predicate Swept(ext: string, name: string) { name != [] && name[0] == '.' && Occurs(Mark(ext), name) }

  lemma SinkExtensions()
    ensures Extension(".ramdb") && Extension(".arrow")
    ensures Mark(".ramdb") == ".ramdb.tmp." && Mark(".arrow") == ".arrow.tmp."
  {
  }

  // ---- names -------------------------------------------------------------

  /** Every tempfile is swept. */
  lemma TmpIsSwept(ext: string, target: string, uuid: string)
    ensures Swept(ext, TmpName(ext, target, uuid))
  {
    assert At(Mark(ext), 0, Mark(ext));
    OccursInside(Mark(ext), "." + target, Mark(ext), uuid);
  }

  lemma FinalIsNotTmp(ext: string, target: string, other: string, uuid: string)
    requires Extension(ext) && Uuid(uuid)
    ensures FinalName(ext, target) != TmpName(ext, other, uuid)
  {
    assert FinalName(ext, target)[|target|] == '.';
  }

  lemma FinalInjective(ext: string, a: string, b: string)
    requires FinalName(ext, a) == FinalName(ext, b)
    ensures a == b
  {
    assert FinalName(ext, a)[..|a|] == a && FinalName(ext, b)[..|b|] == b;
  }

  /**
   * A published file is swept exactly when its target opens with a dot and,
   * with one dot added, contains the tempfile mark.
   */
  lemma PublishedSweptExactly(ext: string, target: string)
    requires Extension(ext)
    ensures Swept(ext, FinalName(ext, target))
       <==> target != [] && target[0] == '.' && Occurs(Mark(ext), target + ".")
  {
    var name, m := FinalName(ext, target), Mark(ext);
    assert |m| == |ext| + 5 && m[|m| - 1] == '.';
    if Occurs(m, name) {
      var i :| 0 <= i <= |name| && At(name, i, m);
      assert name[i..i + |m|][|m| - 1] == '.' && name[i + |m| - 1] == '.';
      assert (target + ".")[i..i + |m|] == name[i..i + |m|];
      assert At(target + ".", i, m);
    }
    if Occurs(m, target + ".") {
      assert name == [] + (target + ".") + ext[1..];
      OccursInside(m, [], target + ".", ext[1..]);
    }
  }

  // ---- one write on a drive ----------------------------------------------

  /** The ramdb writer: no fsync of the file or of the directory. */
  function RamdbTrace(fs: Fs<string>, tmp: string, final: string, data: Bytes): seq<Fs<string>> {
    WriteTrace(fs, tmp, data) + [Renamed(Written(fs, tmp, data), tmp, final)]
  }

  /** RamdbWriter.write after the guard: the frame's bytes to a tempfile, then rename. */
  method WriteRamdb(drive: Drive<string>, target: string, uuid: string, data: Bytes)
    requires Uuid(uuid)
    modifies drive
    ensures drive.journal == old(drive.journal)
      + RamdbTrace(old(drive.fs), TmpName(".ramdb", target, uuid), FinalName(".ramdb", target), data)
    ensures Holds(drive.fs, target + ".ramdb", data)
    ensures "." + target + ".ramdb.tmp." + uuid !in drive.fs
  {
    var tmp, final := TmpName(".ramdb", target, uuid), FinalName(".ramdb", target);
    FinalIsNotTmp(".ramdb", target, target, uuid);
    SinkExtensions();
    drive.Write(tmp, data);
    drive.Rename(tmp, final);
  }

  /** ArrowIpcSink.write: the same with both fsyncs. */
  method WriteArrow(drive: Drive<string>, target: string, uuid: string, data: Bytes)
    requires Uuid(uuid)
    modifies drive
    ensures drive.journal == old(drive.journal)
      + AtomicTrace(old(drive.fs), TmpName(".arrow", target, uuid), FinalName(".arrow", target), data)
    ensures Durable(drive.fs, target + ".arrow", data)
    ensures "." + target + ".arrow.tmp." + uuid !in drive.fs
  {
    FinalIsNotTmp(".arrow", target, target, uuid);
    SinkExtensions();
    drive.Replace(TmpName(".arrow", target, uuid), FinalName(".arrow", target), data);
  }

  /** Stopped anywhere, a ramdb write has left the final path as it was or holding the whole new frame. */
  lemma RamdbNeverPartial(fs: Fs<string>, tmp: string, final: string, data: Bytes, s: Fs<string>)
    requires tmp != final && s in RamdbTrace(fs, tmp, final, data)
    ensures Untouched(fs, s, final) || Holds(s, final, data)
    ensures forall p | p != tmp && p != final :: Untouched(fs, s, p)
  {
    if s in WriteTrace(fs, tmp, data) {
      WriteTouchesOnly(fs, tmp, data, s);
    }
  }

  /**
   * What the directory fsync is for: after an arrow write returns, no power
   * loss takes the output; after a ramdb write, one can take it and whatever
   * it replaced.
   */
  lemma OnlyArrowSurvivesPower(fs: Fs<string>, tmp: string, final: string, data: Bytes)
    requires tmp != final
    ensures forall left | PowerLoss(Final(fs, AtomicTrace(fs, tmp, final, data)), left) :: Holds(left, final, data)
    ensures exists left | PowerLoss(Final(fs, RamdbTrace(fs, tmp, final, data)), left) :: final !in left
  {
    AtomicFinal(fs, tmp, final, data);
    var end := Final(fs, RamdbTrace(fs, tmp, final, data));
    assert end == Renamed(Written(fs, tmp, data), tmp, final);
    var left := map p | p in end && end[p].synced && end[p].linked :: end[p];
    assert PowerLoss(end, left) && final !in left;
  }

  // ---- writers, readers, crashes and cleanup interleaved ------------------

  datatype Writer = Writer(target: string, uuid: string, data: Bytes, done: nat)

  /** given records every frame ever handed to a writer, by target. */
  datatype Pub = Pub(files: map<string, Bytes>, writers: map<nat, Writer>, given: set<(string, Bytes)>)

  datatype Step =
    | Open(id: nat, target: string, uuid: string, data: Bytes)
    | Extend(id: nat, to: nat)
    | Flip(id: nat)
    | Abort(id: nat)
    | Kill
    | Clean

  function TmpOf(ext: string, w: Writer): string { TmpName(ext, w.target, w.uuid) }

  predicate Enabled(ext: string, s: Pub, step: Step) {
    match step
    case Open(id, target, uuid, _) => id !in s.writers && Uuid(uuid) && TmpName(ext, target, uuid) !in s.files
    case Extend(id, to) => id in s.writers && s.writers[id].done < to <= |s.writers[id].data|
    case Flip(id) => id in s.writers && s.writers[id].done == |s.writers[id].data|
    case Abort(id) => id in s.writers
    case Kill => true
    case Clean => s.writers == map[]
  }

  function Apply(ext: string, s: Pub, step: Step): Pub
    requires Enabled(ext, s, step)
  {
    match step
    case Open(id, target, uuid, data) =>
      Pub(s.files[TmpName(ext, target, uuid) := []],
          s.writers[id := Writer(target, uuid, data, 0)],
          s.given + {(target, data)})
    case Extend(id, to) =>
      var w := s.writers[id];
      s.(files := s.files[TmpOf(ext, w) := w.data[..to]], writers := s.writers[id := w.(done := to)])
    case Flip(id) =>
      var w := s.writers[id];
      s.(files := (s.files - {TmpOf(ext, w)})
                  [FinalName(ext, w.target) := if TmpOf(ext, w) in s.files then s.files[TmpOf(ext, w)] else []],
         writers := s.writers - {id})
    case Abort(id) =>
      s.(files := s.files - {TmpOf(ext, s.writers[id])}, writers := s.writers - {id})
    case Kill => s.(writers := map[])
    case Clean => s.(files := map n | n in s.files && !Swept(ext, n) :: s.files[n])
  }

  /** A published path holding a whole frame some writer was given for it. */
  ghost predicate Whole(ext: string, s: Pub, name: string)
    requires name in s.files
  {
    exists g | g in s.given :: name == FinalName(ext, g.0) && s.files[name] == g.1
  }

  ghost predicate IsTmp(ext: string, name: string) {
    exists target, uuid :: Uuid(uuid) && name == TmpName(ext, target, uuid)
  }

  ghost predicate Inv(ext: string, s: Pub) {
    && (forall name | name in s.files :: Whole(ext, s, name) || IsTmp(ext, name))
    && (forall id | id in s.writers ::
          var w := s.writers[id];
          && Uuid(w.uuid) && w.done <= |w.data| && (w.target, w.data) in s.given
          && TmpOf(ext, w) in s.files && s.files[TmpOf(ext, w)] == w.data[..w.done])
    && (forall a, b | a in s.writers && b in s.writers && a != b ::
          TmpOf(ext, s.writers[a]) != TmpOf(ext, s.writers[b]))
  }

  lemma NamesStay(ext: string, s: Pub, s': Pub, changed: set<string>)
    requires Inv(ext, s) && s.given <= s'.given
    requires forall name | name in s'.files && name !in changed :: name in s.files && s'.files[name] == s.files[name]
    requires forall name | name in changed && name in s'.files :: Whole(ext, s', name) || IsTmp(ext, name)
    ensures forall name | name in s'.files :: Whole(ext, s', name) || IsTmp(ext, name)
  {
    forall name | name in s'.files ensures Whole(ext, s', name) || IsTmp(ext, name) {
      if name !in changed && !IsTmp(ext, name) {
        assert Whole(ext, s, name);
        var g :| g in s.given && name == FinalName(ext, g.0) && s.files[name] == g.1;
        assert g in s'.given;
      }
    }
  }

  lemma OpenKeeps(ext: string, s: Pub, step: Step)
    requires Extension(ext) && Inv(ext, s) && Enabled(ext, s, step) && (step.Open? || step.Extend?)
    ensures Inv(ext, Apply(ext, s, step))
  {
    var s' := Apply(ext, s, step);
    match step
    case Open(id, target, uuid, data) =>
      assert IsTmp(ext, TmpName(ext, target, uuid));
      NamesStay(ext, s, s', {TmpName(ext, target, uuid)});
    case Extend(id, to) =>
      var w := s.writers[id];
      assert IsTmp(ext, TmpOf(ext, w));
      NamesStay(ext, s, s', {TmpOf(ext, w)});
  }

  lemma FlipKeeps(ext: string, s: Pub, id: nat)
    requires Extension(ext) && Inv(ext, s) && Enabled(ext, s, Flip(id))
    ensures Inv(ext, Apply(ext, s, Flip(id)))
  {
    var s' := Apply(ext, s, Flip(id));
    var w := s.writers[id];
    assert s.files[TmpOf(ext, w)] == w.data;
    assert (w.target, w.data) in s'.given;
    NamesStay(ext, s, s', {FinalName(ext, w.target)});
    forall other | other in s'.writers ensures TmpOf(ext, s.writers[other]) != FinalName(ext, w.target) {
      FinalIsNotTmp(ext, w.target, s.writers[other].target, s.writers[other].uuid);
    }
  }

  lemma StepKeeps(ext: string, s: Pub, step: Step)
    requires Extension(ext) && Inv(ext, s) && Enabled(ext, s, step)
    ensures Inv(ext, Apply(ext, s, step))
  {
    match step
    case Open(_, _, _, _) => OpenKeeps(ext, s, step);
    case Extend(_, _) => OpenKeeps(ext, s, step);
    case Flip(id) => FlipKeeps(ext, s, id);
    case Abort(id) => NamesStay(ext, s, Apply(ext, s, step), {});
    case Kill => NamesStay(ext, s, Apply(ext, s, step), {});
    case Clean => NamesStay(ext, s, Apply(ext, s, step), {});
  }

  ghost predicate Run(ext: string, s: Pub, steps: seq<Step>, s': Pub)
    decreases |steps|
  {
    if steps == [] then s == s'
    else Enabled(ext, s, steps[0]) && Run(ext, Apply(ext, s, steps[0]), steps[1..], s')
  }

  lemma {:induction false} RunKeeps(ext: string, s: Pub, steps: seq<Step>, s': Pub)
    requires Extension(ext) && Inv(ext, s) && Run(ext, s, steps, s')
    ensures Inv(ext, s')
    decreases |steps|
  {
    if steps != [] {
      StepKeeps(ext, s, steps[0]);
      RunKeeps(ext, Apply(ext, s, steps[0]), steps[1..], s');
    }
  }

  /**
   * Atomic publish: in every interleaving of writers, kills and cleanups, a
   * reader of a published path finds nothing or one whole frame that was
   * written for that target.
   */
  lemma ReaderSeesWholeFrames(ext: string, steps: seq<Step>, s: Pub, target: string)
    requires Extension(ext) && Run(ext, Pub(map[], map[], {}), steps, s)
    ensures FinalName(ext, target) in s.files ==> (target, s.files[FinalName(ext, target)]) in s.given
  {
    RunKeeps(ext, Pub(map[], map[], {}), steps, s);
    var name := FinalName(ext, target);
    if name in s.files {
      if IsTmp(ext, name) {
        var other, uuid :| Uuid(uuid) && name == TmpName(ext, other, uuid);
        FinalIsNotTmp(ext, target, other, uuid);
      }
      assert Whole(ext, s, name);
      var g :| g in s.given && name == FinalName(ext, g.0) && s.files[name] == g.1;
      FinalInjective(ext, g.0, target);
      assert g == (target, s.files[name]);
    }
  }

  /** A path is as it was in both, or missing from both. */
  predicate SameFile(a: map<string, Bytes>, b: map<string, Bytes>, name: string) {
    (name in a <==> name in b) && (name in a ==> a[name] == b[name])
  }

  /**
   * What is published changes by a flip alone, which puts the writer's whole
   * frame in place of what was there; what a killed writer leaves stays until
   * the sweep.
   */
  lemma FlipPublishes(ext: string, s: Pub, step: Step, target: string)
    requires Extension(ext) && Inv(ext, s) && Enabled(ext, s, step)
    ensures var s', name := Apply(ext, s, step), target + ext;
            if step.Flip? && s.writers[step.id].target == target
            then name in s'.files && s'.files[name] == s.writers[step.id].data
            else !step.Clean? ==> SameFile(s.files, s'.files, name)
    ensures forall id | id in s.writers :: Enabled(ext, s, Abort(id))
    ensures Enabled(ext, s, Kill) && (step.Kill? ==> Apply(ext, s, step).files == s.files)
    ensures step.Flip? || step.Abort? ==> TmpOf(ext, s.writers[step.id]) !in Apply(ext, s, step).files
  {
    match step
    case Open(_, other, uuid, _) => FinalIsNotTmp(ext, target, other, uuid);
    case Extend(id, _) => FinalIsNotTmp(ext, target, s.writers[id].target, s.writers[id].uuid);
    case Flip(id) =>
      var w := s.writers[id];
      FinalIsNotTmp(ext, target, w.target, w.uuid);
      FinalIsNotTmp(ext, w.target, w.target, w.uuid);
      if w.target != target && FinalName(ext, w.target) == FinalName(ext, target) {
        FinalInjective(ext, w.target, target);
      }
    case Abort(id) => FinalIsNotTmp(ext, target, s.writers[id].target, s.writers[id].uuid);
    case Kill =>
    case Clean =>
  }

  /**
   * Cleanup: afterwards no tempfile is left, every file left is as it was, and
   * a published file is gone exactly when its target's name is one the sweep
   * takes for a tempfile.
   */
  lemma CleanupIsExact(ext: string, s: Pub)
    requires Extension(ext) && Inv(ext, s) && Enabled(ext, s, Clean)
    ensures var s' := Apply(ext, s, Clean);
            && (forall name | name in s'.files :: !IsTmp(ext, name) && s'.files[name] == s.files[name])
            && forall target | FinalName(ext, target) in s.files ::
                 FinalName(ext, target) in s'.files
                 <==> !(target != [] && target[0] == '.' && Occurs(Mark(ext), target + "."))
  {
    var s' := Apply(ext, s, Clean);
    forall name | name in s'.files ensures !IsTmp(ext, name) {
      if IsTmp(ext, name) {
        var target, uuid :| Uuid(uuid) && name == TmpName(ext, target, uuid);
        TmpIsSwept(ext, target, uuid);
      }
    }
    forall target | FinalName(ext, target) in s.files
      ensures FinalName(ext, target) in s'.files
              <==> !(target != [] && target[0] == '.' && Occurs(Mark(ext), target + "."))
    {
      PublishedSweptExactly(ext, target);
    }
  }
}
