/** The single-instance guard of main.py: a lock file holding the owner's
    process id, judged by its modification time. The file system is the value
    `Option<LockFile>`, the clock is the `now` parameter, and the file
    operations that can raise are given as fault flags. */
module ProcessLock {
  import opened Common

  /** A lock younger than this many seconds is taken to belong to a running
      instance; its recorded pid is never consulted. */
  const StaleAfter: real := 120.0

  /** The lock file: the pid written into it (`None` when the write broke
      off and left the file empty) and its modification time. */
  datatype LockFile = LockFile(owner: Option<int>, mtime: Timestamp)

  /** Which file operations of one `acquire_lock` raise: reading the existing
      lock's mtime, removing a stale lock, and writing the new one. The bare
      `except` turns each into the answer `False`. */
  datatype LockFaults = LockFaults(statRaises: bool, unlinkRaises: bool, write: WriteOutcome)

  /** Every file operation succeeds. */
  const NoFaults: LockFaults := LockFaults(false, false, Written)

  /** What `acquire_lock` answers and the lock file it leaves behind. */
  datatype Acquisition = Acquisition(acquired: bool, lock: Option<LockFile>)

  /** Another instance holds the lock at time `now`: a lock file exists and
      its age is strictly below the staleness threshold. */
  predicate Held(lock: Option<LockFile>, now: Timestamp) {
    lock.Some? && now - lock.value.mtime < StaleAfter
  }

  /** The lock file as `write_text(str(os.getpid()))` leaves it, starting
      from no file. */
  function Create(now: Timestamp, pid: int, write: WriteOutcome): Acquisition {
    match write
    case Written => Acquisition(true, Some(LockFile(Some(pid), now)))
    case CannotOpen => Acquisition(false, None)
    case FailsAfterOpen => Acquisition(false, Some(LockFile(None, now)))
  }

  /** `acquire_lock`: refuse while the lock is held; otherwise replace any
      stale lock by a fresh one carrying our pid and the current time. Any
      file operation that raises makes the answer `False`. */
  function Acquire(lock: Option<LockFile>, now: Timestamp, pid: int, faults: LockFaults): (r: Acquisition)
    ensures r.acquired <==>
      !Held(lock, now) && faults.write == Written && (lock.Some? ==> !faults.statRaises && !faults.unlinkRaises)
    ensures r.acquired ==> r.lock == Some(LockFile(Some(pid), now))
    ensures Held(lock, now) ==> r.lock == lock
    ensures !r.acquired && r.lock != lock ==>
      !Held(lock, now) && faults.write != Written && (r.lock.None? || r.lock == Some(LockFile(None, now)))
  {
    match lock
    case Some(existing) =>
      if faults.statRaises then Acquisition(false, lock)
      else if now - existing.mtime < StaleAfter then Acquisition(false, lock)
      else if faults.unlinkRaises then Acquisition(false, lock)
      else Create(now, pid, faults.write)
    case None =>
      Create(now, pid, faults.write)
  }

  /** `release_lock`: the lock file is removed unless removing it raises,
      which is swallowed and leaves the file in place. */
  function Release(lock: Option<LockFile>, unlinkRaises: bool): (r: Option<LockFile>)
    ensures r.None? <==> lock.None? || !unlinkRaises
    ensures r.Some? ==> r == lock
  {
    if lock.Some? && unlinkRaises then lock else None
  }

  /** Once a release has removed the lock, releasing again changes nothing,
      whether or not that second removal would raise. */
  lemma ReleaseIdempotent(lock: Option<LockFile>, unlinkRaises: bool)
    ensures Release(Release(lock, false), unlinkRaises) == Release(lock, false)
  {
  }

  /** Mutual exclusion: once a process holds the lock, a second process that
      asks before the lock turns stale is refused and the lock stays ours,
      whatever faults the second process meets. */
  lemma SecondAcquireRefused(lock: Option<LockFile>, t0: Timestamp, t1: Timestamp, p0: int, p1: int,
                             f0: LockFaults, f1: LockFaults)
    requires Acquire(lock, t0, p0, f0).acquired
    requires t0 <= t1 < t0 + StaleAfter
    ensures !Acquire(Acquire(lock, t0, p0, f0).lock, t1, p1, f1).acquired
    ensures Acquire(Acquire(lock, t0, p0, f0).lock, t1, p1, f1).lock == Some(LockFile(Some(p0), t0))
  {
  }

  /** Self-healing: a lock left behind by a crashed process is reclaimed once
      it is at least 120 seconds old (exactly 120 already counts as stale). */
  lemma StaleLockReclaimed(lock: Option<LockFile>, t0: Timestamp, t1: Timestamp, p0: int, p1: int, f0: LockFaults)
    requires Acquire(lock, t0, p0, f0).acquired
    requires t1 >= t0 + StaleAfter
    ensures Acquire(Acquire(lock, t0, p0, f0).lock, t1, p1, NoFaults) == Acquisition(true, Some(LockFile(Some(p1), t1)))
  {
  }

  /** After a successful release the next process gets the lock unless its
      own write fails. */
  lemma AcquireAfterRelease(lock: Option<LockFile>, now: Timestamp, pid: int, faults: LockFaults)
    ensures Acquire(Release(lock, false), now, pid, faults).acquired <==> faults.write == Written
  {
  }

  /** A release whose removal raises keeps the owner's lock, so every other
      instance is refused until the lock turns stale. */
  lemma FailedReleaseBlocks(own: LockFile, now: Timestamp, pid: int, faults: LockFaults)
    requires own.mtime <= now < own.mtime + StaleAfter
    ensures !Acquire(Release(Some(own), true), now, pid, faults).acquired
  {
  }

  /** A lock write that breaks off after creating the file leaves an empty
      lock file, which refuses every instance, the writer included, for the
      next 120 seconds. */
  lemma HalfWrittenLockBlocks(now: Timestamp, t1: Timestamp, pid: int, p1: int, faults: LockFaults, f1: LockFaults)
    requires faults.write == FailsAfterOpen
    requires now <= t1 < now + StaleAfter
    ensures !Acquire(None, now, pid, faults).acquired
    ensures Acquire(None, now, pid, faults).lock == Some(LockFile(None, now))
    ensures !Acquire(Acquire(None, now, pid, faults).lock, t1, p1, f1).acquired
  {
  }
}
