/** The lock directory and its backup: taking the lock over from another
    directory (`_move_lockdir`), giving it up (`release_deploy_lock`) and
    taking it back from the backup (`relock`).

    The lock for a deploy is the directory named by LOCKDIR; releasing with
    a backup renames it to LOCKDIR + ".last", and relocking renames the
    backup to the original name again. */
module LockDir {
  import opened Outcomes
  import opened Text
  import opened Disk
  import opened PropertyStore

  const BackupSuffix := ".last"

  /** What a lock operation leaves behind: the in-memory record (which
      the Python code mutates in place), the disk, and the exception it
      raised, if any. A raise does not undo what happened before it. */
  datatype Effect = Effect(props: Record, disk: Disk, raised: Option<Failure>)

  /** The backup directory of a lock directory. */
  function BackupOf(lockdir: string): (b: string)
    ensures |b| == |lockdir| + 5 && b[..|lockdir|] == lockdir
    ensures EndsWith(b, BackupSuffix)
    ensures b != lockdir
  {
    lockdir + BackupSuffix
  }

  /** `old_lockdir[:-len('.last')]` for a path that ends in ".last". */
  function PrimaryOf(backup: string): (p: string)
    requires EndsWith(backup, BackupSuffix)
    ensures BackupOf(p) == backup
  {
    var p := backup[..|backup| - 5];
    assert backup == p + backup[|backup| - 5..];
    p
  }

  /** Stripping the suffix undoes adding it. */
  lemma PrimaryOfBackup(lockdir: string)
    ensures PrimaryOf(BackupOf(lockdir)) == lockdir
  {
    assert BackupOf(lockdir)[..|lockdir|] == lockdir;
  }

  /** `_move_lockdir`: refuse when the target exists, rename, point LOCKDIR
      at the target (which re-stamps LOCK_ACQUIRE_TIME) and write the
      record there. */
  function MoveLockdir(props: Record, d: Disk, from: string, to: string, env: Env): (e: Effect)
    ensures e.raised.None? <==> from in d.dirs && to !in d.dirs
    ensures to in d.dirs ==> e.raised == Some(LockHeld(to))
    ensures to !in d.dirs && from !in d.dirs ==> e.raised == Some(NoSuchFile(from))
    ensures e.raised.Some? ==> e.props == props && e.disk == d
    ensures e.raised.None? ==>
      && e.disk.dirs == d.dirs - {from} + {to}
      && e.disk.files == (d.files - {from})[to := Serialize(e.props)]
      && e.props.Keys == props.Keys + {KeyLockDir, KeyLockAcquireTime}
      && e.props[KeyLockDir] == to
      && e.props[KeyLockAcquireTime] == IntToString(env.now)
      && (forall k :: k in props && k != KeyLockDir && k != KeyLockAcquireTime ==> e.props[k] == props[k])
    ensures d.Valid() ==> e.disk.Valid()
  {
    if to in d.dirs then Effect(props, d, Some(LockHeld(to)))
    else
      match Rename(d, from, to)
      case Err(f) => Effect(props, d, Some(f))
      case Ok(moved) =>
        MovedRecord(props, to, env);
        var props' := Update(props, map[KeyLockDir := to], env).value;
        RenameThenWrite(d, from, to, Serialize(props'));
        Effect(props', WriteProperties(moved, props').value, None)
  }

  /** The record after LOCKDIR moved to `to`; that update never needs the
      namer, so it cannot fail. */
  lemma MovedRecord(props: Record, to: string, env: Env)
    ensures Update(props, map[KeyLockDir := to], env).Ok?
    ensures var r := Update(props, map[KeyLockDir := to], env).value;
      && r.Keys == props.Keys + {KeyLockDir, KeyLockAcquireTime}
      && r[KeyLockDir] == to
      && r[KeyLockAcquireTime] == IntToString(env.now)
      && (forall k :: k in props && k != KeyLockDir && k != KeyLockAcquireTime ==> r[k] == props[k])
  {
    var changes := map[KeyLockDir := to];
    assert KeyGitSha1 !in changes && KeyDeployerEmail !in changes && KeyDeployerUsername !in changes;
    assert KeyLockAcquireTime !in changes;
    assert Touched(changes) == {KeyLockDir, KeyLockAcquireTime};
    UpdateDerivedFields(props, changes, env);
  }

  /** `shutil.rmtree(stale)` with any OSError swallowed. */
  function ClearStale(d: Disk, stale: string): (c: Disk)
    ensures c.dirs == d.dirs - {stale}
    ensures stale in d.dirs ==> c.files == d.files - {stale}
    ensures stale !in d.dirs ==> c == d
    ensures d.Valid() ==> c.Valid()
  {
    if stale in d.dirs then RemoveTree(d, stale).value else d
  }

  /** `release_deploy_lock`: drop any stale backup (ignoring failure), then
      either move the lock to the backup or delete it. Failures of the
      second step are reported as ReleaseFailed; the stale backup stays
      deleted. */
  function Release(props: Record, d: Disk, backup: bool, env: Env): (e: Effect)
    ensures KeyLockDir !in props ==> e == Effect(props, d, Some(MissingKey(KeyLockDir)))
    ensures KeyLockDir in props ==> (e.raised.None? <==> props[KeyLockDir] in d.dirs)
    ensures d.Valid() ==> e.disk.Valid()
  {
    if KeyLockDir !in props then Effect(props, d, Some(MissingKey(KeyLockDir)))
    else
      var lockdir := props[KeyLockDir];
      var cleared := ClearStale(d, BackupOf(lockdir));
      if backup then ReleaseToBackup(props, cleared, lockdir, env)
      else ReleaseByRemoval(props, cleared, lockdir)
  }

  /** A release that keeps a backup: on success the lock directory has
      become its backup and the record there names the backup; on failure
      the record is untouched and only the stale backup is gone. */
  lemma ReleaseKeepsBackup(props: Record, d: Disk, env: Env)
    requires KeyLockDir in props
    ensures var e := Release(props, d, true, env);
      var lockdir := props[KeyLockDir];
      var stale := BackupOf(lockdir);
      && (e.raised.Some? ==> e.props == props && e.disk.dirs == d.dirs - {stale} && e.raised.value.ReleaseFailed?)
      && (e.raised.None? ==>
            && e.disk.dirs == d.dirs - {lockdir} + {stale}
            && KeyLockDir in e.props && e.props[KeyLockDir] == stale
            && stale in e.disk.files && e.disk.files[stale] == Serialize(e.props)
            && Restamped(props, e.props, env))
  {
  }

  /** `after` is `before` with LOCKDIR moved and LOCK_ACQUIRE_TIME set to the
      clock; nothing else differs. */
  predicate Restamped(before: Record, after: Record, env: Env)
  {
    && after.Keys == before.Keys + {KeyLockDir, KeyLockAcquireTime}
    && after[KeyLockAcquireTime] == IntToString(env.now)
    && (forall k :: k in before && k != KeyLockDir && k != KeyLockAcquireTime ==> after[k] == before[k])
  }

  /** A release without backup deletes the lock directory and any stale
      backup, and leaves the record as it was. */
  lemma ReleaseDropsLock(props: Record, d: Disk, env: Env)
    requires KeyLockDir in props
    ensures var e := Release(props, d, false, env);
      var lockdir := props[KeyLockDir];
      var stale := BackupOf(lockdir);
      && e.props == props
      && (e.raised.Some? ==> e.disk.dirs == d.dirs - {stale} && e.raised.value.ReleaseFailed?)
      && (e.raised.None? ==> e.disk.dirs == d.dirs - {lockdir, stale} && lockdir !in e.disk.files)
  {
  }

  /** The backup branch of `release_deploy_lock`, once the stale backup is
      gone. */
  function ReleaseToBackup(props: Record, d: Disk, lockdir: string, env: Env): (e: Effect)
    requires BackupOf(lockdir) !in d.dirs
    ensures e.raised.None? <==> lockdir in d.dirs
    ensures e.raised.Some? ==> e.props == props && e.disk == d && e.raised.value.ReleaseFailed?
    ensures e.raised.None? ==>
      && e.disk.dirs == d.dirs - {lockdir} + {BackupOf(lockdir)}
      && KeyLockDir in e.props && e.props[KeyLockDir] == BackupOf(lockdir)
      && BackupOf(lockdir) in e.disk.files && e.disk.files[BackupOf(lockdir)] == Serialize(e.props)
      && Restamped(props, e.props, env)
    ensures d.Valid() ==> e.disk.Valid()
  {
    var moved := MoveLockdir(props, d, lockdir, BackupOf(lockdir), env);
    if moved.raised.Some? then Effect(moved.props, moved.disk, Some(ReleaseFailed(moved.raised.value)))
    else moved
  }

  /** The no-backup branch of `release_deploy_lock`. */
  function ReleaseByRemoval(props: Record, d: Disk, lockdir: string): (e: Effect)
    ensures e.props == props
    ensures e.raised.None? <==> lockdir in d.dirs
    ensures e.raised.Some? ==> e.disk == d && e.raised.value.ReleaseFailed?
    ensures e.raised.None? ==> e.disk.dirs == d.dirs - {lockdir} && lockdir !in e.disk.files
    ensures d.Valid() ==> e.disk.Valid()
  {
    match RemoveTree(d, lockdir)
    case Ok(removed) => Effect(props, removed, None)
    case Err(f) => Effect(props, d, Some(ReleaseFailed(f)))
  }

  /** `relock`: the record must name a backup directory, and its primary
      must be free; then the backup becomes the lock again. In both refusals
      nothing is renamed. */
  function Relock(props: Record, d: Disk, env: Env): (e: Effect)
    ensures KeyLockDir !in props ==> e == Effect(props, d, Some(MissingKey(KeyLockDir)))
    ensures KeyLockDir in props && !EndsWith(props[KeyLockDir], BackupSuffix) ==>
      e == Effect(props, d, Some(NotBackupPath(props[KeyLockDir])))
    ensures KeyLockDir in props && EndsWith(props[KeyLockDir], BackupSuffix) ==>
      var primary := PrimaryOf(props[KeyLockDir]);
      && (primary in d.dirs ==> e == Effect(props, d, Some(PathExists(primary))))
      && (e.raised.None? <==> props[KeyLockDir] in d.dirs && primary !in d.dirs)
      && (e.raised.None? ==>
            e.disk.dirs == d.dirs - {props[KeyLockDir]} + {primary} && KeyLockDir in e.props && e.props[KeyLockDir] == primary)
    ensures e.raised.Some? ==> e.props == props && e.disk == d
    ensures d.Valid() ==> e.disk.Valid()
  {
    if KeyLockDir !in props then Effect(props, d, Some(MissingKey(KeyLockDir)))
    else
      var backup := props[KeyLockDir];
      if !EndsWith(backup, BackupSuffix) then Effect(props, d, Some(NotBackupPath(backup)))
      else
        var primary := PrimaryOf(backup);
        if primary in d.dirs then Effect(props, d, Some(PathExists(primary)))
        else MoveLockdir(props, d, backup, primary, env)
  }

  /** A successful relock moves LOCKDIR to the primary path and re-stamps
      the acquisition time; the rest of the record is kept. */
  lemma RelockRecord(props: Record, d: Disk, env: Env)
    requires KeyLockDir in props
    ensures var e := Relock(props, d, env);
      e.raised.None? ==> Restamped(props, e.props, env)
  {
  }

  /** Relocking right after a release with backup gives the lock back under
      its old name: the directories are as before except that any stale
      backup is gone, and the record is the old one with only the
      acquisition time re-stamped. */
  lemma RelockUndoesRelease(props: Record, d: Disk, env1: Env, env2: Env)
    requires KeyLockDir in props && KeyLockAcquireTime in props
    requires props[KeyLockDir] in d.dirs
    ensures var released := Release(props, d, true, env1);
      var back := Relock(released.props, released.disk, env2);
      var lockdir := props[KeyLockDir];
      && released.raised.None?
      && back.raised.None?
      && back.disk.dirs == d.dirs - {BackupOf(lockdir)}
      && back.props.Keys == props.Keys
      && KeyLockDir in back.props && KeyLockAcquireTime in back.props
      && back.props[KeyLockDir] == lockdir
      && back.props[KeyLockAcquireTime] == IntToString(env2.now)
      && (forall k :: k in props && k != KeyLockAcquireTime ==> back.props[k] == props[k])
  {
    var lockdir := props[KeyLockDir];
    var stale := BackupOf(lockdir);
    var released := Release(props, d, true, env1);
    ReleaseKeepsBackup(props, d, env1);
    PrimaryOfBackup(lockdir);
    assert released.props[KeyLockDir] == stale;
    assert lockdir !in released.disk.dirs && stale in released.disk.dirs;
    var back := Relock(released.props, released.disk, env2);
    RelockRecord(released.props, released.disk, env2);
    assert PrimaryOf(released.props[KeyLockDir]) == lockdir;
    assert back.raised.None?;
    var mid := released.disk.dirs;
    assert mid == d.dirs - {lockdir} + {stale};
    assert back.disk.dirs == mid - {stale} + {lockdir};
    SwapBack(d.dirs, lockdir, stale);
    assert Restamped(props, released.props, env1);
    assert Restamped(released.props, back.props, env2);
    RestampedTwice(props, released.props, back.props, env1, env2);
  }

  lemma RestampedTwice(a: Record, b: Record, c: Record, env1: Env, env2: Env)
    requires KeyLockDir in a && KeyLockAcquireTime in a
    requires Restamped(a, b, env1) && Restamped(b, c, env2)
    ensures c.Keys == a.Keys
    ensures forall k :: k in a && k != KeyLockDir && k != KeyLockAcquireTime ==> c[k] == a[k]
  {
    assert b.Keys == a.Keys;
  }

  lemma SwapBack(s: set<string>, a: string, b: string)
    requires a in s && a != b
    ensures s - {a} + {b} - {b} + {a} == s - {b}
  {
  }

  /** A release without backup cannot be undone by relock: the backup path
      it would need is gone. */
  lemma NoRelockAfterPlainRelease(props: Record, d: Disk, env1: Env, env2: Env)
    requires KeyLockDir in props && props[KeyLockDir] in d.dirs
    ensures var released := Release(props, d, false, env1);
      var stale := BackupOf(props[KeyLockDir]);
      && released.raised.None?
      && Relock(released.props[KeyLockDir := stale], released.disk, env2).raised == Some(NoSuchFile(stale))
  {
    var lockdir := props[KeyLockDir];
    var stale := BackupOf(lockdir);
    PrimaryOfBackup(lockdir);
    var released := Release(props, d, false, env1);
    assert lockdir !in released.disk.dirs && stale !in released.disk.dirs;
  }
}
