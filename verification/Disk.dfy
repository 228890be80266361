/**
 * A file system in which each file knows whether its bytes and its directory
 * entry have been fsynced, with a journal of every state a crash could find.
 */
module Disk {
  type Bytes = seq<int>

  datatype File = File(data: Bytes, synced: bool, linked: bool)

  type Fs<P> = map<P, File>

  function Linked<P>(fs: Fs<P>, p: P): bool { p in fs && fs[p].linked }

  /** An open-truncate-write that got as far as the first k bytes. */
  function Partial<P>(fs: Fs<P>, dst: P, data: Bytes, k: nat): Fs<P>
    requires k <= |data|
  {
    fs[dst := File(data[..k], false, Linked(fs, dst))]
  }

  function Written<P>(fs: Fs<P>, dst: P, data: Bytes): Fs<P> { Partial(fs, dst, data, |data|) }

  function Fsynced<P>(fs: Fs<P>, p: P): Fs<P>
    requires p in fs
  {
    fs[p := fs[p].(synced := true)]
  }

  /** rename(2): the target entry flips from old to new in one step. */
  function Renamed<P>(fs: Fs<P>, from: P, to: P): (fs': Fs<P>)
    requires from in fs
    ensures to in fs' && fs'[to] == File(fs[from].data, fs[from].synced, false)
  {
    (fs - {from})[to := fs[from].(linked := false)]
  }

  function DirSynced<P>(fs: Fs<P>): Fs<P> { map p | p in fs :: fs[p].(linked := true) }

  // ---- the states a crash can find ---------------------------------------

  function WriteTrace<P(!new)>(fs: Fs<P>, dst: P, data: Bytes): (t: seq<Fs<P>>)
    ensures t != [] && t[|t| - 1] == Written(fs, dst, data)
  {
    seq(|data| + 1, k requires 0 <= k <= |data| => Partial(fs, dst, data, k))
  }

  /** Write a temporary, fsync it, rename it into place, fsync the directory. */
  function AtomicTrace<P(!new)>(fs: Fs<P>, tmp: P, dst: P, data: Bytes): seq<Fs<P>> {
    var written := Written(fs, tmp, data);
    var synced := Fsynced(written, tmp);
    var renamed := Renamed(synced, tmp, dst);
    WriteTrace(fs, tmp, data) + [synced, renamed, DirSynced(renamed)]
  }

  function Final<P>(fs: Fs<P>, trace: seq<Fs<P>>): Fs<P> {
    if trace == [] then fs else trace[|trace| - 1]
  }

  // ---- what survives -----------------------------------------------------

  predicate Holds<P>(fs: Fs<P>, p: P, x: Bytes) { p in fs && fs[p].data == x }

  /** Bytes that no power loss can take. */
  predicate Durable<P>(fs: Fs<P>, p: P, x: Bytes) { p in fs && fs[p] == File(x, true, true) }

  /** After a power loss and reboot: durable files are intact; anything may be at the other paths. */
  ghost predicate PowerLoss<P(!new)>(fs: Fs<P>, fs': Fs<P>) {
    && (forall p | p in fs && fs[p].synced && fs[p].linked :: p in fs' && fs'[p] == fs[p])
    && (forall p | p in fs' :: fs'[p].synced && fs'[p].linked)
  }

  /** p is as it was, and at least as durable. */
  predicate Untouched<P>(fs: Fs<P>, fs': Fs<P>, p: P) {
    && (p in fs' <==> p in fs)
    && (p in fs ==> fs'[p].data == fs[p].data && (fs[p].synced ==> fs'[p].synced) && (fs[p].linked ==> fs'[p].linked))
  }

  lemma WriteTouchesOnly<P(!new)>(fs: Fs<P>, dst: P, data: Bytes, s: Fs<P>)
    requires s in WriteTrace(fs, dst, data)
    ensures forall p | p != dst :: Untouched(fs, s, p)
    ensures dst in s && s[dst].data <= data && !s[dst].synced
  {
    var k :| 0 <= k <= |data| && s == Partial(fs, dst, data, k);
  }

  /**
   * An atomic replacement, stopped anywhere, has left the destination as it
   * was or complete and fsynced, and touched nothing else but its temporary.
   */
  lemma AtomicTouchesOnly<P(!new)>(fs: Fs<P>, tmp: P, dst: P, data: Bytes, s: Fs<P>)
    requires s in AtomicTrace(fs, tmp, dst, data) && tmp != dst
    ensures forall p | p != dst && p != tmp :: Untouched(fs, s, p)
    ensures Untouched(fs, s, dst) || (Holds(s, dst, data) && s[dst].synced)
  {
    if s in WriteTrace(fs, tmp, data) {
      WriteTouchesOnly(fs, tmp, data, s);
    } else {
      var synced := Fsynced(Written(fs, tmp, data), tmp);
      var renamed := Renamed(synced, tmp, dst);
      assert s in [synced, renamed, DirSynced(renamed)];
    }
  }

  lemma AtomicFinal<P(!new)>(fs: Fs<P>, tmp: P, dst: P, data: Bytes)
    requires tmp != dst
    ensures var end := Final(fs, AtomicTrace(fs, tmp, dst, data));
            && Durable(end, dst, data)
            && tmp !in end
            && forall p | p != dst && p != tmp :: Untouched(fs, end, p)
  {
    AtomicTouchesOnly(fs, tmp, dst, data, Final(fs, AtomicTrace(fs, tmp, dst, data)));
  }

  // ---- the disk as an object ---------------------------------------------

  class Drive<P(==, !new)> {
    var fs: Fs<P>
    /** Every state since the drive was mounted, one per system call. */
    ghost var journal: seq<Fs<P>>

    constructor (initial: Fs<P>)
      ensures fs == initial && journal == []
    {
      fs, journal := initial, [];
    }

    /** open(dst, "w"), then the bytes: each prefix is a state a crash can find. */
    method Write(dst: P, data: Bytes)
      modifies this
      ensures fs == Written(old(fs), dst, data)
      ensures journal == old(journal) + WriteTrace(old(fs), dst, data)
    {
      ghost var before, trace := fs, WriteTrace(fs, dst, data);
      var linked := Linked(fs, dst);
      fs := fs[dst := File([], false, linked)];
      journal := journal + [fs];
      assert trace[0] == fs;
      for k := 0 to |data|
        invariant fs == Partial(before, dst, data, k)
        invariant journal == old(journal) + trace[..k + 1]
      {
        fs := fs[dst := File(data[..k + 1], false, linked)];
        journal := journal + [fs];
        assert fs == Partial(before, dst, data, k + 1) == trace[k + 1];
        assert trace[..k + 2] == trace[..k + 1] + [trace[k + 1]];
      }
      assert trace[..|data| + 1] == trace;
    }

    method Fsync(p: P)
      requires p in fs
      modifies this
      ensures fs == Fsynced(old(fs), p) && journal == old(journal) + [fs]
    {
      fs := Fsynced(fs, p);
      journal := journal + [fs];
    }

    method Rename(from: P, to: P)
      requires from in fs
      modifies this
      ensures fs == Renamed(old(fs), from, to) && journal == old(journal) + [fs]
    {
      fs := Renamed(fs, from, to);
      journal := journal + [fs];
    }

    method FsyncDir()
      modifies this
      ensures fs == DirSynced(old(fs)) && journal == old(journal) + [fs]
    {
      fs := DirSynced(fs);
      journal := journal + [fs];
    }

    /** The shared replace idiom; the closing unlink of the temporary finds it already renamed away. */
    method Replace(tmp: P, dst: P, data: Bytes)
      requires tmp != dst
      modifies this
      ensures journal == old(journal) + AtomicTrace(old(fs), tmp, dst, data)
      ensures fs == Final(old(fs), AtomicTrace(old(fs), tmp, dst, data))
      ensures Durable(fs, dst, data) && tmp !in fs
    {
      Write(tmp, data);
      Fsync(tmp);
      Rename(tmp, dst);
      FsyncDir();
      AtomicFinal(old(fs), tmp, dst, data);
    }
  }
}
