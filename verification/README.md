# Deploy pipeline bookkeeping, in Dafny

`deploy_pipeline.py` drives a Jenkins deploy as a series of separate script
invocations, one per step: acquire-lock, merge-from-master, manual-test,
set-default, and one of the finishing steps. The lock is a directory. The
properties file `deploy.prop` inside it carries the deploy's state from one
invocation to the next.

This project models the bookkeeping that ties those invocations together:

- the `key=value` record format and the reader's LOCKDIR check;
- `_update_properties` with its derived fields and the normalised
  POSSIBLE_NEXT_STEPS list, which always keeps its four escape hatches;
- the fresh record `_create_properties` builds;
- the acquire busy-wait, with its alerts and its timeout advice;
- the lock directory and its `.last` backup: release, move and relock;
- idempotent tagging, and the rollback decision;
- `main`'s guards, its per-step handlers, the successor table and the
  LAST_ERROR bookkeeping.

## Modelling choices

- **Records.** A record is a `map<string, string>`.
- **Disk.** The disk is a set of existing directories plus the
  `deploy.prop` text of some of them. Paths are opaque strings.
- **Tags.** The repository's tags are a set of names.
- **Collaborators.** Every collaborator is a value passed in: git, the
  deploy tools, the live-version fetch, the hipchat user directory, the
  version namer `_gae_version` and the clock.
  - A fallible collaborator is a `Result`: `Ok` when it succeeds, `Err`
    with the exception it raises.
  - The `mkdir` race is an oracle `nat -> MkdirResult`, one outcome per
    attempt.
- **Exceptions.** Python exceptions are the constructors of
  `Outcomes.Failure`.
- **Partial effects.** A handler that raises keeps whatever it had
  already done. The `Step` and `Effect` datatypes carry the state reached
  together with the raised failure.
- **Python built-ins.** These are written out in `Text`:
  - `split`, `join`, `strip` (Python 2's whitespace set);
  - sorting by code point;
  - `int()` and `str()` on integers.

Modules follow the program's parts:

| module | file |
|---|---|
| `Outcomes` | `outcomes.dfy` |
| `Text` | `text.dfy` |
| `Disk` | `disk.dfy` |
| `PropertyStore` (record, format, update) | `properties.dfy` |
| `LockDir` | `lockdir.dfy` |
| `Acquire` | `acquire.dfy` |
| `Tagging` (tags and rollback) | `tagging.dfy` |
| `Pipeline` (handlers and `main`) | `pipeline.dfy` |
| `Formatting` (`_list_with_links`, the major version) | `formatting.dfy` |

## Model

| member | source | states |
|---|---|---|
| `PropertyStore.WriteOrder` | deploy_pipeline.py:293 | The keys `_write_properties` visits: every key of the record exactly once, in strictly ascending code-point order. |
| `PropertyStore.WrittenInKeyOrder` | deploy_pipeline.py:289-294 | The file holds one line per key. Line i is `k=v` for the i-th key in ascending order. |
| `PropertyStore.WriteProperties` | deploy_pipeline.py:289-294 | A write succeeds exactly when LOCKDIR is in the record and names an existing directory. It then replaces that directory's file with the serialized record and changes nothing else on disk. |
| `PropertyStore.Deserialize` | deploy_pipeline.py:274-286 | A successful read returns a record whose LOCKDIR is the directory read from. A failure is one of three: a line without `=`, a missing LOCKDIR, or a LOCKDIR mismatch. |
| `PropertyStore.ReadProperties` | deploy_pipeline.py:274-286 | A directory without a record raises the IOError kind (`NoSuchFile`). A successful read found a file, and its LOCKDIR is the directory read. |
| `PropertyStore.ParseEntryLine` | deploy_pipeline.py:278-281 | A written line, once stripped and split at its first `=`, gives back its key and value, provided both are safe for the format. |
| `PropertyStore.ReadLinesOfTerminated` | deploy_pipeline.py:278 | Reading lines from text printed line by line (as line 294 prints them) gives each line back with its newline. |
| `PropertyStore.ReadAfterWrite` | deploy_pipeline.py:274-294 | Round trip: reading the text written for a record gives the same record. Keys must hold no `=` or newline and must not start with whitespace; values must hold no newline and must not end with whitespace. |
| `PropertyStore.ReadRejectsForeignRecord` | deploy_pipeline.py:283 | A record read from a directory other than its LOCKDIR is refused with the mismatch failure. |
| `PropertyStore.DiskRoundTrip` | deploy_pipeline.py:274-294 | Writing a storable record into an existing directory succeeds. Reading it back returns the record, and writing the same record again changes nothing. |
| `PropertyStore.NormalizeSteps` | deploy_pipeline.py:325-334 | The stored POSSIBLE_NEXT_STEPS splits at commas into the caller's steps plus the four escape hatches: sorted, without duplicates, nothing else. |
| `PropertyStore.NormalizeIdempotent` | deploy_pipeline.py:325-334 | Normalising an already normalised list changes nothing. |
| `PropertyStore.EscapeHatchesSurvive` | deploy_pipeline.py:325-336 | After any update that passes POSSIBLE_NEXT_STEPS and does not raise, the stored list contains finish-with-failure, finish-with-rollback, finish-with-unlock and relock. Its step set is exactly the caller's steps plus those four, in strictly ascending order. |
| `PropertyStore.UpdateStepsIdempotent` | deploy_pipeline.py:325-336 | Feeding a successful update's stored step list back through the update leaves the whole record unchanged. |
| `PropertyStore.FallbackMention` | deploy_pipeline.py:119-121 | An address missing from the hipchat directory becomes `@` plus the text before its first `@`. |
| `PropertyStore.CreateProperties` | deploy_pipeline.py:208-271 | Making a fresh record raises exactly when the namer fails for the revision (line 257), with the namer's exception. Otherwise the record holds LOCKDIR, TOKEN and GIT_SHA1 as given, and VERSION_NAME is the namer's value. AUTO_DEPLOY is `"true"` exactly for an automatic deploy. LAST_ERROR is empty. The steps are `acquire-lock,finish-with-unlock,relock`. |
| `PropertyStore.FreshRecordKeys` | deploy_pipeline.py:241-265 | When the namer succeeds, a fresh record has exactly the eleven request fields and six derived fields. It has no LOCK_ACQUIRE_TIME. |
| `PropertyStore.InitialStepList` | deploy_pipeline.py:265 | The first step list splits into exactly acquire-lock, finish-with-unlock and relock. |
| `PropertyStore.InitialLacksFailureHatches` | deploy_pipeline.py:265 | finish-with-failure and finish-with-rollback are not among the first steps. |
| `PropertyStore.SetDefault` | deploy_pipeline.py:309-310 | `setdefault`: the key is present afterwards, an existing value wins, and a new key gets the default. |
| `PropertyStore.DeriveFrom` | deploy_pipeline.py:308-322 | A derivation adds its key only when the trigger is among the changes. It never overrides a value already there, and without the trigger it changes nothing. |
| `PropertyStore.DeriveFacts` | deploy_pipeline.py:307-334 | The derivations raise exactly when GIT_SHA1 is among the changes and the namer fails for it, with the namer's exception. Otherwise the derived changes cover exactly the touched keys and keep every caller value except the step list, which they normalise. Each untaken derived field is computed from its trigger. The hipchat name follows the username, including a username derived in the same call. |
| `PropertyStore.Update` | deploy_pipeline.py:297-336 | An update raises exactly when GIT_SHA1 is among the changes and naming its version fails, even when the caller passes VERSION_NAME (line 310). Otherwise the record has the old keys plus the touched ones. Keys outside the touched set keep their old values, and every key the caller passed (except the step list) has the caller's value. |
| `PropertyStore.UpdateDerivedFields` | deploy_pipeline.py:307-336 | After an update that does not raise, each derived field the caller did not set is computed from its trigger: VERSION_NAME from GIT_SHA1, DEPLOYER_USERNAME from DEPLOYER_EMAIL, the hipchat name from the username, LOCK_ACQUIRE_TIME from the clock. The stored step list is normalised. |
| `PropertyStore.UpdateOnlySteps` | deploy_pipeline.py:325-336 | An update passing only POSSIBLE_NEXT_STEPS replaces that entry by its normal form and touches nothing else. |
| `PropertyStore.UpdatePlain` | deploy_pipeline.py:307-336 | An update of one key that triggers nothing, and is not the step list, is a plain assignment. |
| `PropertyStore.EmailFeedsUsernameAndMention` | deploy_pipeline.py:311-318 | In an update that does not raise, one change of DEPLOYER_EMAIL sets the username to the text before its first `@`. In the same call it sets the hipchat name from that username, unless the caller set either. |
| `PropertyStore.MentionFromUsernameIgnoresDirectory` | deploy_pipeline.py:315-318 | The mention is looked up by username in a directory keyed by email address. So when every known address holds an `@`, an update that does not raise leaves the mention as just `@` and the username. |
| `PropertyStore.LockDirStampsTime` | deploy_pipeline.py:320-322 | An update that changes LOCKDIR and does not raise stamps LOCK_ACQUIRE_TIME with the clock, and `int()` of the stamp gives that time back. |
| `Text.SplitOfJoin` | deploy_pipeline.py:331-334 | Joining comma-free parts with a separator and splitting at it again gives the parts back. |
| `Text.JoinOfSplit` | deploy_pipeline.py:1092 | Splitting a text at a character and joining the parts with it gives the text back. |
| `Text.SortedSet` | deploy_pipeline.py:334 | `sorted(set)`: every element once, strictly ascending. |
| `Text.TrimLeftDropsSpace` | deploy_pipeline.py:279 | The leading part `strip` drops is whitespace. What it keeps is a suffix that does not start with whitespace. |
| `Text.TrimRightDropsSpace` | deploy_pipeline.py:279 | The trailing part `strip` drops is whitespace. What it keeps is a prefix that does not end with whitespace. |
| `Text.BeforeFirst` | deploy_pipeline.py:259 | `split('@')[0]`: a prefix of the text with no `@`, ending at the first `@` or at the end. |
| `Text.ParseIntOfIntToString` | deploy_pipeline.py:371 | `int(str(n)) == n` for every integer, so the stored acquisition time reads back as written. |
| `Acquire.HolderOf` | deploy_pipeline.py:366-373 | With no record in the lock directory, the holder is unknown and has waited zero seconds. Otherwise `now` minus the waited time parses back from the holder's LOCK_ACQUIRE_TIME. |
| `Acquire.Advise` | deploy_pipeline.py:433-446 | Timeout advice: cancel when merge-from-master, manual-test or set-default is pending. Otherwise finish or roll back when finish-with-success is pending, and otherwise release the lock. |
| `Acquire.FirstMissing` | deploy_pipeline.py:442-457 | It reports no key exactly when every key is present. Otherwise it reports the first listed key that is missing: every key before it is present, as the KeyError of the reads in that order. |
| `Acquire.TimedOut` | deploy_pipeline.py:433-461 | A timeout always raises. A holder record without a step list raises KeyError. The stuck-lock alert is sent only with the timeout error, and it carries the advice drawn from the holder's steps. |
| `Acquire.AcquireDeployLock` | deploy_pipeline.py:375-461 | The loop agrees with the recursive definition. When it takes the lock, its last `mkdir` created the directory. It never makes more attempts than ten-second polls fit before `wait_sec`. |
| `Acquire.CreatedLast` | deploy_pipeline.py:377-399 | The lock is taken exactly when the last attempt created it and every earlier attempt found it there. The acquisition time is the clock at that attempt. |
| `Acquire.AttemptsBounded` | deploy_pipeline.py:377-429 | At most ⌈(wait_sec − waited)/10⌉ attempts. None when the holder's time is already up, and exactly that many before a timeout. |
| `Acquire.AlertsWellFormed` | deploy_pipeline.py:389-427 | "Next in line" is only ever the first alert. A reminder comes only at a multiple of `notify_sec`. "Starting" is last, and it thanks the deployer exactly when there was an earlier alert. |
| `Acquire.TimeoutAdvice` | deploy_pipeline.py:433-461 | On a timeout, the last alert names a wait of at least `wait_sec` and the advice drawn from the holder's steps. |
| `Acquire.AcquireTakesLockIff` | deploy_pipeline.py:340-461 | A whole acquisition returns normally exactly when some `mkdir` attempt created the directory: the last one, after only "exists" outcomes. |
| `Acquire.AcquireAttempts` | deploy_pipeline.py:366-429 | A whole acquisition makes no attempt when reading the holder fails, or when the holder's time is up. Otherwise its attempts are bounded by the polls left. |
| `Acquire.AcquireAlerts` | deploy_pipeline.py:375-461 | Every acquisition's alerts are well formed, as above. |
| `LockDir.BackupOf` | deploy_pipeline.py:487 | The backup path extends the lock path, ends in `.last` and differs from it. |
| `LockDir.PrimaryOf` | deploy_pipeline.py:992 | Stripping `.last` gives the path whose backup is the given path. |
| `LockDir.PrimaryOfBackup` | deploy_pipeline.py:992 | Stripping `.last` (line 992) undoes adding it (line 487). |
| `LockDir.MoveLockdir` | deploy_pipeline.py:464-480 | A move succeeds exactly when the source exists and the target does not; an existing target raises first. On success, the directory is renamed and the file at the target holds the updated record. LOCKDIR is the target, LOCK_ACQUIRE_TIME is re-stamped, and every other field is kept. A failed move changes nothing. |
| `LockDir.ClearStale` | deploy_pipeline.py:490-494 | Any stale backup is gone afterwards; if there was none, nothing changed. |
| `LockDir.Release` | deploy_pipeline.py:483-508 | Without LOCKDIR a release raises KeyError and changes nothing. With it, the release succeeds exactly when the lock directory exists. |
| `LockDir.ReleaseKeepsBackup` | deploy_pipeline.py:483-508 | On success, a release with backup has turned the lock directory into its backup, and the record there names the backup. On failure, the record is untouched, only the stale backup is gone, and the error is the release failure. |
| `LockDir.ReleaseDropsLock` | deploy_pipeline.py:483-508 | A release without backup deletes the lock directory and any stale backup, and keeps the record. |
| `LockDir.ReleaseToBackup` | deploy_pipeline.py:496-507 | The move to the backup succeeds exactly when the lock directory exists. A failure is reported as the release failure and changes nothing. |
| `LockDir.ReleaseByRemoval` | deploy_pipeline.py:496-507 | Deletion succeeds exactly when the lock directory exists; the directory and its file are then gone. |
| `LockDir.Relock` | deploy_pipeline.py:982-1007 | A path not ending in `.last` raises ValueError, and an existing primary raises OSError; both change nothing. Otherwise relock succeeds exactly when the backup exists, and it moves the backup to the primary path. |
| `LockDir.RelockRecord` | deploy_pipeline.py:982-1007 | A successful relock points LOCKDIR at the primary, re-stamps the acquisition time and keeps every other field. |
| `LockDir.RelockUndoesRelease` | deploy_pipeline.py:982-1007 | A relock right after a release with backup (lines 483-508) succeeds. It restores the lock under its old name with the directories as before, except that any stale backup is gone. The record is the old one with only the acquisition time re-stamped. |
| `LockDir.NoRelockAfterPlainRelease` | deploy_pipeline.py:982-1007 | After a release without backup, a relock from the backup path fails: the backup does not exist. |
| `Disk.RenameBackAndForth` | deploy_pipeline.py:478 | Renaming a directory away and back restores the disk. |
| `Tagging.CreateTag` | deploy_pipeline.py:610-632 | An existing tag short-cuts everything. Otherwise tagging succeeds exactly when git succeeds and the fields the command reads are present, and success adds just the new tag. A failure is git's or the KeyError of a missing field. |
| `Tagging.TagRelease` | deploy_pipeline.py:610-620 | Without VERSION_NAME it raises KeyError. Success adds `gae-<VERSION_NAME>`. An existing tag means no change. A new tag is created exactly when git succeeds and GIT_REVISION and GIT_SHA1 are present. |
| `Tagging.TagAsBad` | deploy_pipeline.py:623-632 | As for release tags, with `gae-<VERSION_NAME>-bad`, needing GIT_SHA1. |
| `Tagging.TagReleaseIdempotent` | deploy_pipeline.py:613-614 | Tagging a release twice equals tagging it once. |
| `Tagging.TagAsBadIdempotent` | deploy_pipeline.py:626-627 | Tagging a version bad twice equals tagging it once. |
| `Tagging.RollbackDeploy` | deploy_pipeline.py:689-740 | A failed live-version fetch raises. When the live version is not VERSION_NAME, the rollback returns True with no tag and no switch. Otherwise only the bad tag may be added, and the default is switched back exactly when the rollback returns True. |
| `Tagging.RollbackSucceedsIff` | deploy_pipeline.py:689-740 | Past the fetch, a rollback never raises. It returns True exactly when the deploy never went live, or when tagging, pushing and the set-default call (with every field it reads) all worked. |
| `Pipeline.UpdateProperties` | deploy_pipeline.py:297-337 | When naming a new GIT_SHA1 fails it raises with the record and the disk untouched. Otherwise the in-memory record is updated even when the write fails. The write succeeds exactly when the updated LOCKDIR exists, and it replaces only that file. |
| `Pipeline.HandleAcquireLock` | deploy_pipeline.py:1104-1109 | A failed acquire leaves the disk as it was. A successful one leaves the lock directory holding a record whose steps are the normal form of merge-from-master. |
| `Pipeline.TakeLock` | deploy_pipeline.py:1104-1109 | Once `mkdir` succeeded, the record is stamped and written into the new directory, and the steps are set. Nothing else changes, and nothing fails. |
| `Pipeline.HandleMergeFromMaster` | deploy_pipeline.py:1110-1125 | A GIT_REVISION of `master` is refused before anything runs (line 535). When naming the merged commit fails after the merge, that failure is raised and nothing is recorded. On success, the record gets the merged sha1, with VERSION_NAME re-derived. The steps are the normal form of set-default (automatic) or manual-test (otherwise), each with finish-with-success. |
| `Pipeline.HandleManualTest` | deploy_pipeline.py:1127-1130 | On success the only change is the step list, set to set-default plus the hatches. |
| `Pipeline.HandleSetDefault` | deploy_pipeline.py:1132-1141 | A manual deploy then waits for finish-with-success. An automatic one finishes at once and deletes the lock directory. |
| `Pipeline.FinishWithSuccess` | deploy_pipeline.py:919-950 | The record is kept. Success needs the merge into master and the live-version fetch, and it deletes the lock directory. A release that is live gets its `gae-` tag. |
| `Pipeline.FinishWithFailure` | deploy_pipeline.py:953-963 | The first missing field it reads raises KeyError. Otherwise it releases with backup. |
| `Pipeline.ReleaseWithBackup` | deploy_pipeline.py:483-508 | A release succeeds exactly when the lock directory exists. The backup then holds the record, which differs only in LOCKDIR and the re-stamped time. |
| `Pipeline.FinishWithRollback` | deploy_pipeline.py:966-979 | The lock is released only after a rollback that returned True. A rollback that returned False raises RollbackFailed. |
| `Pipeline.HandleRelock` | deploy_pipeline.py:1155-1160 | After a successful relock any step may come next: the list is the normal form of `<all>`. |
| `Pipeline.Load` | deploy_pipeline.py:1047-1071 | acquire-lock works on a fresh record, which fails exactly when naming the version fails; every other action reads the record in the lock directory. |
| `Pipeline.ClearLastError` | deploy_pipeline.py:1165-1166 | LAST_ERROR is cleared only when the record file still exists where LOCKDIR points; otherwise nothing happens. |
| `Pipeline.ClearOutcome` | deploy_pipeline.py:1165-1166 | On a valid disk the clean-up fails only for a record without LOCKDIR. When the file is there, it rewrites the record with only LAST_ERROR cleared, and the file matches the record. |
| `Pipeline.Conclude` | deploy_pipeline.py:1164-1175 | True exactly when neither the handler nor the clean-up raised. A raise is kept as the exit. A failed acquire-lock returns False. |
| `Pipeline.Main` | deploy_pipeline.py:1010-1175 | A record that cannot be loaded returns False only for a missing stored file. A failure to make acquire-lock's fresh record, or any other read error, escapes. The guard exits change nothing on disk, and the token and step guards return True. Past them, True means the handler did not raise. |
| `Pipeline.ForeignTokenTurnedAway` | deploy_pipeline.py:1076-1088 | The ownership exit is taken exactly for two non-empty tokens that differ. It returns True and changes neither disk nor tags. |
| `Pipeline.UnexpectedStepIgnored` | deploy_pipeline.py:1092-1101 | The exit for an unexpected step is taken exactly when neither the action nor `<all>` is among the listed steps. It returns True and changes nothing. |
| `Pipeline.GuardsPassed` | deploy_pipeline.py:1103-1175 | Past both guards, `main` is the handler followed by the LAST_ERROR bookkeeping. |
| `Pipeline.ClearTouchesOnlyLastError` | deploy_pipeline.py:1165-1166 | Clearing LAST_ERROR writes that one field. |
| `Pipeline.CleanRunClearsLastError` | deploy_pipeline.py:1165-1167 | After a clean handler, the result is True exactly when the record names its directory. If the file is still there, LAST_ERROR is cleared and the file matches the record. If the file is gone, nothing more happens. |
| `Pipeline.RaisedRunRecordsLastError` | deploy_pipeline.py:1168-1175 | A failed acquire-lock writes nothing and returns False. Any other failure stores the exception text in LAST_ERROR and returns False; if that write fails, its error escapes. |
| `Pipeline.TrueIffHandlerSucceeded` | deploy_pipeline.py:1103-1175 | Past the guards, `main` returns True exactly when the handler did not raise and the record still names its directory. |
| `Pipeline.FailedAcquireLeavesDisk` | deploy_pipeline.py:1046-1175 | An acquire-lock that does not return True leaves the disk exactly as it was. It crashes exactly when naming the version fails (line 1047, outside the `try`), with that exception, and otherwise returns False. |
| `Pipeline.FreshRecordReachesHandler` | deploy_pipeline.py:1072-1101 | For acquire-lock with an empty token or the request's own token, `main` reaches the handler exactly when the fresh record could be made: that record passes the token guard and lists acquire-lock. |
| `Pipeline.NamerFailureAfterMerge` | deploy_pipeline.py:1110-1125 | When naming the merged commit fails, merge-from-master does not return True. The exception text goes into LAST_ERROR (lines 1168-1175), and the record keeps its old GIT_SHA1, VERSION_NAME and steps. |
| `Pipeline.HandlerSetsSuccessor` | deploy_pipeline.py:1104-1160 | A handler that did not raise stores the normal form of its successor steps. A handler without a successor leaves the step list alone. |
| `Pipeline.ConcludeKeepsSteps` | deploy_pipeline.py:1165-1166 | The LAST_ERROR clean-up keeps the step list. |
| `Pipeline.SuccessorTable` | deploy_pipeline.py:1104-1167 | After a handled run of `main` that returned True, the stored steps are the normal form of the action's successor: merge-from-master; set-default or manual-test with finish-with-success; set-default; finish-with-success; `<all>`. |
| `Formatting.RowsShape` | deploy_pipeline.py:127-131 | The rows, end to end, are the input. Each row holds one to five items, and all but the last hold exactly five. |
| `Formatting.RowCount` | deploy_pipeline.py:129 | There are ⌈n/5⌉ rows for n pairs. |
| `Formatting.ChunkRows` | deploy_pipeline.py:127-131 | The stepping loop yields the same rows as the recursive definition. |
| `Formatting.ListWithLinks` | deploy_pipeline.py:124-132 | No pairs give the empty string, and up to five give one row. Beyond that, the first five form a row followed by `<br>\n` and the rest. |
| `Formatting.MajorVersion` | deploy_pipeline.py:205 | The major version is the first dot-separated part: a prefix without a dot. |
| `Formatting.MajorOfVersionId` | deploy_pipeline.py:204-205 | The major part of `<major>.<minor>` is `<major>` whatever the minor part holds. |
| `Tagging.AsWrittenMissesBadTarget` | deploy_pipeline.py:722-724 | The warning check as written does not fire for a version that the pipeline's own tagging marked bad. |
| `Tagging.WarningSeesPipelineBadTags` | deploy_pipeline.py:722-724 | With the check corrected, rolling back to a version just tagged bad always warns. |
| `Tagging.AsWrittenNeedsPrefixedVersion` | deploy_pipeline.py:722-724 | When every tag was made by the pipeline, the check as written can fire only for a version name that itself starts with `gae-`. |

## Where the code and its comments differ

The model follows the code.

- **First step list.** The comment in `_update_properties`
  (deploy_pipeline.py:325-329) says finish-with-failure is "always
  possible", and finish-with-rollback too.
  - A fresh record's POSSIBLE_NEXT_STEPS is only
    `acquire-lock,finish-with-unlock,relock` (deploy_pipeline.py:265).
    It does not pass through `_update_properties`, so it lacks
    finish-with-failure and finish-with-rollback.
  - The hatches are guaranteed only after an update
    (`PropertyStore.InitialLacksFailureHatches`,
    `PropertyStore.EscapeHatchesSurvive`).
- **Exceptions escape `main`.** `main`'s docstring
  (deploy_pipeline.py:1036-1045) says a command that raises makes `main`
  return False. Four kinds of exception escape instead:
  - a failure of `_gae_version` while `_create_properties` builds the
    fresh record for acquire-lock. This happens at line 257, before the
    guarded block (`Pipeline.FailedAcquireLeavesDisk`);
  - a stored record that cannot be parsed, or whose LOCKDIR is missing
    or wrong. Only IOError is caught (lines 1050-1071);
  - a record without POSSIBLE_NEXT_STEPS (line 1092);
  - a failure of the LAST_ERROR write itself (line 1174).

  `Pipeline.Main` returns `Crashed` for these.
- **The namer runs even when its value is not used.** The docstring of
  `_update_properties` (deploy_pipeline.py:300-302) describes derived
  values following their triggers.
  - Python evaluates `_gae_version(new_values['GIT_SHA1'])` before
    `setdefault` looks for VERSION_NAME (line 310). So a GIT_SHA1 change
    can raise even when the caller passes VERSION_NAME.
  - After a merge, such a failure leaves GIT_SHA1, VERSION_NAME and the
    steps as they were, with the exception in LAST_ERROR
    (`Pipeline.NamerFailureAfterMerge`).
- **A caller's VERSION_NAME wins.** The same docstring says that
  changing DEPLOYER_USERNAME also changes DEPLOYER_HIPCHAT_NAME. The
  derivations use `setdefault`, though. When the caller passes a derived
  field together with its trigger, the caller's value wins.
- **Username and hipchat lookup.** `_email_to_hipchat_name` takes an
  email address (deploy_pipeline.py:104). The derivation at lines
  315-318 passes it the username instead. The username is not a key of
  the email-keyed map, so the result falls back to `@username`
  (`PropertyStore.MentionFromUsernameIgnoresDirectory`). This is
  recorded, not corrected.
- **Release re-stamps the time.** `_move_lockdir`'s docstring
  (deploy_pipeline.py:465) says the lock is re-acquired "with the values
  in old_lockdir". Release with backup and relock both go through it,
  and its LOCKDIR update re-stamps LOCK_ACQUIRE_TIME.
- **The stale backup is removed even without a backup.** A release
  removes any stale `.last` directory even when it does not keep a
  backup (deploy_pipeline.py:490-494).
- **Python `%` is modelled as written.** `waited_sec % notify_sec` is
  Python's floored `%`.
  - The waited time can be negative when the holder's stamp lies in the
    future.
  - For a non-zero `notify_sec`, floored and Euclidean remainders agree
    on whether the result is zero, which is all the code tests.
  - A zero `notify_sec` raises ZeroDivisionError (`ZeroModulo`).

## Left out

- **Hipchat and logging.** `_alert`, `_safe_urlopen`, the URL builders
  and the message text are left out. The acquire busy-wait keeps its
  alerts as an abstract list.
  - A record read that only fills message text is modelled where its
    KeyError would stop the step before it acts. These reads are the
    timeout message and the reads at the head of `finish_with_failure`,
    `finish_with_rollback`, `finish_with_unlock` and
    `finish_with_success`.
  - Other such reads are left out, and so is the exception they would
    raise:
    - the keys `_alert` reads: DEPLOYER_HIPCHAT_NAME, HIPCHAT_ROOM and
      HIPCHAT_SENDER;
    - the reads in the acquire alerts (a fresh record always holds
      them);
    - the reads in the alerts of the release and rollback failure
      paths.
- **Alerts that raise.** An exception raised by a hipchat alert is not
  modelled.
- **Network fetches.** The hipchat user list and the live version are
  values passed in (`Env.directory`, `World.live`).
- **Git plumbing.** `_run_command`, `_pipe_command`, `merge_from_master`
  and `merge_to_master` are succeed-or-raise oracles.
  - `_gae_version` is the namer `Env.versionOf`, which gives a version
    name or the exception it raises. Its branch lookup and fetch
    (deploy_pipeline.py:186-197) are inside the namer.
  - Only the refusal to deploy `master` is modelled in full.
  - The `git tag -l` lookups are replaced by membership in the tag set.
  - A failure of those lookups, including the one in the bad-target
    warning check, is not modelled.
- **Deploy tools.** `manual_test`, `set_default` and the
  `deploy.set_default` calls are oracles. Their own branching is left
  out: monitoring, priming, and the alert-only failure paths.
- **`_password_on_stdin`.** Its file read is part of the set-default
  oracle.
- **Time.** `time.time()` is `Env.now`. `time.sleep(10)` is the fixed
  ten-second step of the busy-wait clock.
- **File system.** Paths are opaque strings.
  - `abspath` is the identity.
  - Nesting between directories and `mkdir` atomicity are not modelled.
  - Mutual exclusion between concurrent processes is not modelled.
- **Argument parsing.** The argparse command line and exit code
  (deploy_pipeline.py:1178-1269) are left out. `main`'s `token=None`
  is the empty string.
- **Unused `main` arguments.** `jenkins_build_url`, `monitoring_time`
  and `caller_email` only feed messages or the set-default oracle. The
  fake record built for the "running without the lock" alert is left
  out.
- **AUTO_DEPLOY.** `_create_properties` stores `str(auto_deploy).lower()`.
  The model takes a boolean, so the stored text is `"true"` or `"false"`.
- Tagging.RollbackDeploy: when the rollback switched back, the warning
  flag uses the corrected bad-target check (see Findings). The code as
  written is `Tagging.BadTargetWarningAsWritten`.
- Acquire.AcquireDeployLock: the alert texts and the `jenkins_build_url`
  suffix are not modelled. The alerts' kinds, order and waited times
  are.

## Findings

| source | as written | input that shows it | evidently intended | confidence | as-written member | corrected member |
|---|---|---|---|---|---|---|
| deploy_pipeline.py:722-724 | After rolling back, the warning that the target version is itself bad looks for the tag `<ROLLBACK_TO>-bad`. | ROLLBACK_TO = `v1`, and `_tag_as_bad_version` earlier created `gae-v1-bad` (line 625). The check asks for `v1-bad`, finds nothing, and stays silent. | Look for `gae-<ROLLBACK_TO>-bad`, the name `_tag_as_bad_version` gives bad versions. | medium, not executed | `Tagging.AsWrittenMissesBadTarget` | `Tagging.WarningSeesPipelineBadTags` |
