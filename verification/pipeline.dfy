/** `main`: one invocation of the deploy pipeline. It loads the record
    (a fresh one for acquire-lock, otherwise the one in the lock
    directory), refuses callers whose token does not match, ignores steps
    the record does not expect, runs the step's handler, and turns the
    handler's outcome into the boolean it returns and into LAST_ERROR.

    Collaborators (git, the deploy tools, the live-version fetch, the
    `mkdir` race) are oracles in `World`; each either succeeds, possibly
    with a value, or raises. Hipchat messages are left out, and so are
    the record reads that only feed their text. */
module Pipeline {
  import opened Outcomes
  import opened Text
  import opened Disk
  import opened PropertyStore
  import opened LockDir
  import opened Acquire
  import opened Tagging

  // ---------------------------------------------------------------------
  // steps

  const StepAcquireLock := "acquire-lock"
  const StepMergeFromMaster := "merge-from-master"
  const StepManualTest := "manual-test"
  const StepSetDefault := "set-default"
  const StepFinishWithUnlock := "finish-with-unlock"
  const StepFinishWithSuccess := "finish-with-success"
  const StepFinishWithFailure := "finish-with-failure"
  const StepFinishWithRollback := "finish-with-rollback"
  const StepRelock := "relock"

  /** The wildcard a relock leaves behind: any step may come next. */
  const AnyStep := "<all>"

  /** The limits `main` passes to `acquire_deploy_lock`. */
  const WaitSec := 3600
  const NotifySec := 600

  // ---------------------------------------------------------------------
  // the world, the invocation, the state

  /** What the collaborators of one invocation do. */
  datatype World = World(
    env: Env,                       // version namer, hipchat directory, clock
    mkdir: nat -> MkdirResult,      // the successive `mkdir(lockdir)` outcomes
    mergeFromMaster: Result<()>,    // the git work of `merge_from_master`
    revParse: Result<string>,       // `git rev-parse GIT_REVISION`
    manualTest: Result<()>,         // `manual_test`
    setDefault: Result<()>,         // `set_default`
    mergeToMaster: Result<()>,      // `merge_to_master`
    live: Result<string>,           // `_current_gae_version()`
    gitTag: Result<()>,             // `git tag`
    pushTags: Result<()>,           // `git push --tags`
    setDefaultBack: Result<()>)     // the set-default call back to ROLLBACK_TO

  /** The arguments of `main` that matter here. An absent token is the
      empty string, which Python treats the same way. */
  datatype Invocation = Invocation(action: string, lockdir: string, create: DeployRequest, token: string)

  /** The in-memory record, the disk and the repository's tags. */
  datatype State = State(props: Record, disk: Disk, tags: set<string>)

  /** A state reached by part of a handler, and what it raised, if
      anything. A raise does not undo what happened before it. */
  datatype Step = Step(state: State, raised: Option<Failure>)

  function Raise(s: State, f: Failure): Step
  {
    Step(s, Some(f))
  }

  function FromEffect(s: State, e: Effect): Step
  {
    Step(State(e.props, e.disk, s.tags), e.raised)
  }

  /** `_update_properties(props, changes)`: the record is updated in
      memory, then written to the directory its LOCKDIR names. When naming
      a new GIT_SHA1 fails it raises before doing either. */
  function UpdateProperties(s: State, changes: Record, env: Env): (st: Step)
    ensures st.state.tags == s.tags
    ensures Update(s.props, changes, env).Err? ==> st == Raise(s, Update(s.props, changes, env).failure)
    ensures Update(s.props, changes, env).Ok? ==> st.state.props == Update(s.props, changes, env).value
    ensures st.raised.None? <==>
      Update(s.props, changes, env).Ok? && KeyLockDir in st.state.props && st.state.props[KeyLockDir] in s.disk.dirs
    ensures st.raised.None? ==>
      && st.state.disk.dirs == s.disk.dirs
      && st.state.disk.files == s.disk.files[st.state.props[KeyLockDir] := Serialize(st.state.props)]
    ensures st.raised.Some? ==> st.state.disk == s.disk
    ensures s.disk.Valid() ==> st.state.disk.Valid()
  {
    match Update(s.props, changes, env)
    case Err(f) => Raise(s, f)
    case Ok(props) =>
      match WriteProperties(s.disk, props)
      case Ok(d) => Step(State(props, d, s.tags), None)
      case Err(f) => Raise(State(props, s.disk, s.tags), f)
  }

  // ---------------------------------------------------------------------
  // handlers

  /** acquire-lock: wait for the lock, stamp the acquisition time, write
      the record into the new lock directory, then expect
      merge-from-master. */
  function HandleAcquireLock(s: State, w: World): (st: Step)
    ensures st.raised.Some? ==> st.state.disk == s.disk
    ensures st.raised.None? ==>
      && KeyNextSteps in st.state.props
      && st.state.props[KeyNextSteps] == NormalizeSteps(StepMergeFromMaster)
    ensures st.raised.None? ==>
      && KeyLockDir in st.state.props
      && st.state.props[KeyLockDir] in st.state.disk.dirs
      && st.state.props[KeyLockDir] in st.state.disk.files
    ensures s.disk.Valid() ==> st.state.disk.Valid()
  {
    match Field(s.props, KeyLockDir)
    case Err(f) => Raise(s, f)
    case Ok(lockdir) =>
      var out := Acquire.Acquire(Params(lockdir, WaitSec, NotifySec, w.env.now, w.mkdir), s.disk);
      match out.result
      case Err(f) => Raise(s, f)
      case Ok(t) => TakeLock(s, lockdir, t, StepMergeFromMaster, w.env)
  }

  /** What acquire-lock does once `mkdir` succeeded at time `t`: the
      record, stamped with `t`, goes into the new lock directory, and
      `next` becomes the step list. None of it can fail. */
  function TakeLock(s: State, lockdir: string, t: int, next: string, env: Env): (st: Step)
    requires KeyLockDir in s.props && s.props[KeyLockDir] == lockdir
    ensures st.raised.None?
    ensures st.state.props == s.props[KeyLockAcquireTime := IntToString(t)][KeyNextSteps := NormalizeSteps(next)]
    ensures st.state.disk.dirs == s.disk.dirs + {lockdir} && lockdir in st.state.disk.files
    ensures s.disk.Valid() ==> st.state.disk.Valid()
  {
    var stamped := Stamp(s, lockdir, t);
    UpdateOnlySteps(stamped.props, next, env);
    UpdateProperties(stamped, map[KeyNextSteps := next], env)
  }

  /** The lock directory made, the acquisition time stamped in memory, and
      the record written into the directory. */
  function Stamp(s: State, lockdir: string, t: int): (st: State)
    requires KeyLockDir in s.props && s.props[KeyLockDir] == lockdir
    ensures st.props == s.props[KeyLockAcquireTime := IntToString(t)]
    ensures st.props[KeyLockDir] == lockdir
    ensures st.disk.dirs == s.disk.dirs + {lockdir} && lockdir in st.disk.files
    ensures st.tags == s.tags
    ensures s.disk.Valid() ==> st.disk.Valid()
  {
    var props := s.props[KeyLockAcquireTime := IntToString(t)];
    DistinctKeys();
    var held := MakeDir(s.disk, lockdir);
    State(props, WriteProperties(held, props).value, s.tags)
  }

  /** The steps after merge-from-master: straight to set-default for an
      automatic deploy, otherwise to manual testing; finishing is always
      allowed. */
  function AfterMerge(autoDeploy: string): string
  {
    (if autoDeploy == "true" then StepSetDefault else StepManualTest) + "," + StepFinishWithSuccess
  }

  /** merge-from-master: refuse to deploy master itself, merge, record the
      merged commit (which re-derives VERSION_NAME) and the next steps.
      Naming the merged commit can fail after the merge is done; then
      nothing is recorded. */
  function HandleMergeFromMaster(s: State, w: World): (st: Step)
    ensures st.raised.None? ==>
      && KeyGitRevision in s.props && s.props[KeyGitRevision] != "master"
      && KeyAutoDeploy in s.props && w.revParse.Ok?
      && Update(s.props, map[KeyGitSha1 := w.revParse.value,
                             KeyNextSteps := AfterMerge(s.props[KeyAutoDeploy])], w.env) == Ok(st.state.props)
    ensures st.raised.None? ==>
      && KeyNextSteps in st.state.props
      && st.state.props[KeyNextSteps] == NormalizeSteps(AfterMerge(s.props[KeyAutoDeploy]))
    ensures KeyGitRevision in s.props && s.props[KeyGitRevision] == "master" ==> st == Raise(s, DeployFromMaster)
    ensures && KeyGitRevision in s.props && s.props[KeyGitRevision] != "master"
            && w.mergeFromMaster.Ok? && w.revParse.Ok? && KeyAutoDeploy in s.props
            && w.env.versionOf(w.revParse.value).Err? ==>
              st == Raise(s, w.env.versionOf(w.revParse.value).failure)
    ensures s.disk.Valid() ==> st.state.disk.Valid()
  {
    match Field(s.props, KeyGitRevision)
    case Err(f) => Raise(s, f)
    case Ok(revision) =>
      if revision == "master" then Raise(s, DeployFromMaster)
      else if w.mergeFromMaster.Err? then Raise(s, w.mergeFromMaster.failure)
      else match w.revParse
      case Err(f) => Raise(s, f)
      case Ok(sha1) =>
        match Field(s.props, KeyAutoDeploy)
        case Err(f) => Raise(s, f)
        case Ok(auto) =>
          var changes := map[KeyGitSha1 := sha1, KeyNextSteps := AfterMerge(auto)];
          assert KeyGitSha1 in changes && changes[KeyGitSha1] == sha1;
          UpdateDerivedFields(s.props, changes, w.env);
          UpdateProperties(s, changes, w.env)
  }

  /** manual-test: ask for manual testing, then expect set-default. */
  function HandleManualTest(s: State, w: World): (st: Step)
    ensures st.raised.None? ==> st.state.props == s.props[KeyNextSteps := NormalizeSteps(StepSetDefault)]
    ensures w.manualTest.Err? ==> st == Raise(s, w.manualTest.failure)
    ensures s.disk.Valid() ==> st.state.disk.Valid()
  {
    if w.manualTest.Err? then Raise(s, w.manualTest.failure)
    else
      UpdateOnlySteps(s.props, StepSetDefault, w.env);
      UpdateProperties(s, map[KeyNextSteps := StepSetDefault], w.env)
  }

  /** `finish_with_success`: tag the release when it is live, merge into
      master, then delete the lock without a backup. */
  function FinishWithSuccess(s: State, w: World): (st: Step)
    ensures st.state.props == s.props
    ensures st.raised.None? ==> w.mergeToMaster.Ok? && w.live.Ok? && KeyLockDir in s.props
    ensures st.raised.None? ==> s.props[KeyLockDir] !in st.state.disk.dirs
    ensures st.raised.None? && KeyVersionName in s.props && w.live.value == s.props[KeyVersionName] ==>
      ReleaseTag(s.props[KeyVersionName]) in st.state.tags
    ensures s.disk.Valid() ==> st.state.disk.Valid()
  {
    match w.live
    case Err(f) => Raise(s, f)
    case Ok(live) =>
      match Field(s.props, KeyVersionName)
      case Err(f) => Raise(s, f)
      case Ok(version) =>
        var tagged := if live == version then TagRelease(s.props, s.tags, w.gitTag) else Ok(s.tags);
        match tagged
        case Err(f) => Raise(s, f)
        case Ok(tags) =>
          var s1 := s.(tags := tags);
          if KeyGitRevision !in s.props then Raise(s1, MissingKey(KeyGitRevision))
          else if w.mergeToMaster.Err? then Raise(s1, w.mergeToMaster.failure)
          else
            var e := LockDir.Release(s.props, s.disk, false, w.env);
            if KeyLockDir !in s.props then FromEffect(s1, e)
            else
              ReleaseDropsLock(s.props, s.disk, w.env);
              FromEffect(s1, e)
  }

  /** set-default: switch the default; an automatic deploy then finishes
      at once, a manual one waits for finish-with-success. */
  function HandleSetDefault(s: State, w: World): (st: Step)
    ensures st.raised.None? ==> KeyAutoDeploy in s.props
    ensures st.raised.None? && s.props[KeyAutoDeploy] != "true" ==>
      st.state.props == s.props[KeyNextSteps := NormalizeSteps(StepFinishWithSuccess)]
    ensures st.raised.None? && s.props[KeyAutoDeploy] == "true" ==>
      st.state.props == s.props && KeyLockDir in s.props && s.props[KeyLockDir] !in st.state.disk.dirs
    ensures s.disk.Valid() ==> st.state.disk.Valid()
  {
    if w.setDefault.Err? then Raise(s, w.setDefault.failure)
    else match Field(s.props, KeyAutoDeploy)
    case Err(f) => Raise(s, f)
    case Ok(auto) =>
      if auto == "true" then FinishWithSuccess(s, w)
      else
        UpdateOnlySteps(s.props, StepFinishWithSuccess, w.env);
        UpdateProperties(s, map[KeyNextSteps := StepFinishWithSuccess], w.env)
  }

  /** The record fields `finish_with_failure` reads before releasing. */
  const FailureKeys := [KeyLastError, KeyVersionName, KeyGitRevision]

  /** `finish_with_failure`: release the lock, keeping a backup. */
  function FinishWithFailure(s: State, w: World): (st: Step)
    ensures FirstMissing(s.props, FailureKeys).Some? ==>
      st == Raise(s, MissingKey(FirstMissing(s.props, FailureKeys).value))
    ensures FirstMissing(s.props, FailureKeys).None? ==> st == ReleaseWithBackup(s, w.env)
    ensures s.disk.Valid() ==> st.state.disk.Valid()
  {
    match FirstMissing(s.props, FailureKeys)
    case Some(k) => Raise(s, MissingKey(k))
    case None => ReleaseWithBackup(s, w.env)
  }

  /** `release_deploy_lock(props)` as the finishing steps call it: on
      success the lock directory has moved to its backup, which holds the
      record, and the record differs from before only in LOCKDIR and the
      re-stamped LOCK_ACQUIRE_TIME. */
  function ReleaseWithBackup(s: State, env: Env): (st: Step)
    ensures st.state.tags == s.tags
    ensures KeyLockDir !in s.props ==> st == Raise(s, MissingKey(KeyLockDir))
    ensures KeyLockDir in s.props ==> (st.raised.None? <==> s.props[KeyLockDir] in s.disk.dirs)
    ensures st.raised.None? ==>
      && KeyLockDir in s.props
      && s.props[KeyLockDir] !in st.state.disk.dirs
      && BackupOf(s.props[KeyLockDir]) in st.state.disk.files
      && Restamped(s.props, st.state.props, env)
    ensures s.disk.Valid() ==> st.state.disk.Valid()
  {
    var e := LockDir.Release(s.props, s.disk, true, env);
    if KeyLockDir !in s.props then FromEffect(s, e)
    else
      ReleaseKeepsBackup(s.props, s.disk, env);
      FromEffect(s, e)
  }

  /** `finish_with_rollback`: roll back, and release the lock only when
      the rollback worked. */
  function FinishWithRollback(s: State, w: World): (st: Step)
    ensures st.raised.None? ==>
      && KeyLastError in s.props && KeyVersionName in s.props && KeyRollbackTo in s.props
      && RollbackDeploy(s.props, s.tags, RollbackOf(w)).Ok?
      && RollbackDeploy(s.props, s.tags, RollbackOf(w)).value.succeeded
      && st.state.tags == RollbackDeploy(s.props, s.tags, RollbackOf(w)).value.tags
      && Restamped(s.props, st.state.props, w.env)
    ensures var rb := RollbackDeploy(s.props, s.tags, RollbackOf(w));
      KeyLastError in s.props && KeyVersionName in s.props && rb.Ok? && !rb.value.succeeded ==>
        st.raised == Some(RollbackFailed)
    ensures s.disk.Valid() ==> st.state.disk.Valid()
  {
    match Field(s.props, KeyLastError)
    case Err(f) => Raise(s, f)
    case Ok(lastError) =>
      if lastError != "" && KeyVersionName !in s.props then Raise(s, MissingKey(KeyVersionName))
      else match RollbackDeploy(s.props, s.tags, RollbackOf(w))
      case Err(f) => Raise(s, f)
      case Ok(rb) =>
        var s1 := s.(tags := rb.tags);
        if !rb.succeeded then Raise(s1, RollbackFailed)
        else FinishWithFailure(s1, w)
  }

  function RollbackOf(w: World): RollbackWorld
  {
    RollbackWorld(w.live, w.gitTag, w.pushTags, w.setDefaultBack)
  }

  /** relock: take the lock back from the backup; then any step may come
      next. */
  function HandleRelock(s: State, w: World): (st: Step)
    ensures st.raised.None? ==>
      && KeyNextSteps in st.state.props
      && st.state.props[KeyNextSteps] == NormalizeSteps(AnyStep)
    ensures s.disk.Valid() ==> st.state.disk.Valid()
  {
    var e := LockDir.Relock(s.props, s.disk, w.env);
    if e.raised.Some? then FromEffect(s, e)
    else
      var st := UpdateProperties(State(e.props, e.disk, s.tags), map[KeyNextSteps := AnyStep], w.env);
      UpdateDerivedFields(e.props, map[KeyNextSteps := AnyStep], w.env);
      st
  }

  /** The handler of `action`; an unknown action raises. */
  function Handle(action: string, s: State, w: World): (st: Step)
    ensures action == StepFinishWithUnlock && KeyHipchatName in s.props ==> st == ReleaseWithBackup(s, w.env)
    ensures s.disk.Valid() ==> st.state.disk.Valid()
  {
    if action == StepAcquireLock then HandleAcquireLock(s, w)
    else if action == StepMergeFromMaster then HandleMergeFromMaster(s, w)
    else if action == StepManualTest then HandleManualTest(s, w)
    else if action == StepSetDefault then HandleSetDefault(s, w)
    else if action == StepFinishWithUnlock then
      if KeyHipchatName !in s.props then Raise(s, MissingKey(KeyHipchatName))
      else ReleaseWithBackup(s, w.env)
    else if action == StepFinishWithSuccess then FinishWithSuccess(s, w)
    else if action == StepFinishWithFailure then FinishWithFailure(s, w)
    else if action == StepFinishWithRollback then FinishWithRollback(s, w)
    else if action == StepRelock then HandleRelock(s, w)
    else Raise(s, UnknownAction(action))
  }

  // ---------------------------------------------------------------------
  // main

  /** Where `main` stopped: the record could not be loaded, the caller does
      not own the lock, the record has no step list, the step is not
      expected, or the handler ran (and raised, or not). */
  datatype Exit = Unreadable | NotOwner | NoStepList | NotNextStep | Handled(raised: Option<Failure>)

  /** `main` either returns a boolean or lets an exception escape. */
  datatype Verdict = Returned(ok: bool) | Crashed(failure: Failure)

  datatype Run = Run(verdict: Verdict, exit: Exit, state: State)

  /** The token guard: both tokens are non-empty and they differ. */
  predicate ForeignToken(token: string, props: Record)
  {
    token != "" && KeyToken in props && props[KeyToken] != "" && token != props[KeyToken]
  }

  /** The next-step guard: the action is listed, or the wildcard is. */
  predicate Expected(action: string, steps: string)
  {
    action in Split(steps, ',') || AnyStep in Split(steps, ',')
  }

  /** The record `main` works on: a fresh one for acquire-lock, which
      fails exactly when naming the version fails, otherwise the one
      stored in the lock directory, which the disk alone decides. */
  function Load(inv: Invocation, d: Disk, env: Env): (r: Result<Record>)
    ensures inv.action == StepAcquireLock ==> r == CreateProperties(inv.create, env)
    ensures inv.action == StepAcquireLock ==>
      (r.Err? <==> env.versionOf(inv.create.gitRevision).Err?)
    ensures inv.action != StepAcquireLock ==> r == ReadProperties(d, inv.lockdir)
  {
    if inv.action == StepAcquireLock then CreateProperties(inv.create, env)
    else ReadProperties(d, inv.lockdir)
  }

  /** After a handler that did not raise: when the record file still
      exists where LOCKDIR points, LAST_ERROR is cleared there. */
  function ClearLastError(s: State, env: Env): (st: Step)
    ensures KeyLockDir in s.props && s.props[KeyLockDir] !in s.disk.files ==> st == Step(s, None)
    ensures KeyLockDir in s.props && s.props[KeyLockDir] in s.disk.files ==>
      st == UpdateProperties(s, map[KeyLastError := ""], env)
    ensures s.disk.Valid() ==> st.state.disk.Valid()
  {
    match Field(s.props, KeyLockDir)
    case Err(f) => Raise(s, f)
    case Ok(dir) =>
      if dir in s.disk.files then UpdateProperties(s, map[KeyLastError := ""], env) else Step(s, None)
  }

  /** The end of the guarded block: a handler that raised, or a clean-up
      that raised, is logged to LAST_ERROR, except for acquire-lock, which
      must not write a record it does not own. A failure of that write
      escapes `main`. */
  function Conclude(action: string, handled: Step, env: Env): (run: Run)
    ensures run.exit.Handled?
    ensures run.verdict == Returned(true) <==> run.exit.raised.None?
    ensures handled.raised.Some? ==> run.exit.raised == handled.raised
    ensures run.exit.raised.Some? && action == StepAcquireLock ==> run.verdict == Returned(false)
    ensures run.verdict == Returned(true) ==>
      handled.raised.None? && run.state == ClearLastError(handled.state, env).state
    ensures handled.state.disk.Valid() ==> run.state.disk.Valid()
  {
    var finished := if handled.raised.Some? then handled else ClearLastError(handled.state, env);
    match finished.raised
    case None => Run(Returned(true), Handled(None), finished.state)
    case Some(f) =>
      if action == StepAcquireLock then Run(Returned(false), Handled(Some(f)), finished.state)
      else
        var logged := UpdateProperties(finished.state, map[KeyLastError := Message(f)], env);
        match logged.raised
        case None => Run(Returned(false), Handled(Some(f)), logged.state)
        case Some(g) => Run(Crashed(g), Handled(Some(f)), logged.state)
  }

  /** `main(action, lockdir, ...)`. Only the read of a stored record is
      guarded: a missing file returns False, while a fresh record that
      cannot be made, or a stored one that cannot be parsed, lets the
      exception escape. */
  function Main(inv: Invocation, d: Disk, tags: set<string>, w: World): (run: Run)
    ensures run.exit == Unreadable <==> Load(inv, d, w.env).Err?
    ensures run.exit == Unreadable ==>
      run.verdict == (if inv.action != StepAcquireLock && Load(inv, d, w.env).failure.NoSuchFile?
                      then Returned(false) else Crashed(Load(inv, d, w.env).failure))
    ensures run.exit in {Unreadable, NotOwner, NoStepList, NotNextStep} ==> run.state.disk == d && run.state.tags == tags
    ensures run.exit in {NotOwner, NotNextStep} ==> run.verdict == Returned(true)
    ensures run.exit.Handled? ==> (run.verdict == Returned(true) <==> run.exit.raised.None?)
    ensures d.Valid() ==> run.state.disk.Valid()
  {
    match Load(inv, d, w.env)
    case Err(f) =>
      Run(if inv.action != StepAcquireLock && f.NoSuchFile? then Returned(false) else Crashed(f),
          Unreadable, State(map[], d, tags))
    case Ok(props) =>
      var s := State(props, d, tags);
      if ForeignToken(inv.token, props) then Run(Returned(true), NotOwner, s)
      else if KeyNextSteps !in props then Run(Crashed(MissingKey(KeyNextSteps)), NoStepList, s)
      else if !Expected(inv.action, props[KeyNextSteps]) then Run(Returned(true), NotNextStep, s)
      else Conclude(inv.action, Handle(inv.action, s, w), w.env)
  }

  // ---------------------------------------------------------------------
  // properties of main

  /** A caller with a foreign token is turned away before anything runs:
      `main` returns True (so Jenkins keeps its hands off a lock it does
      not own) and neither the disk nor the tags change. Conversely that
      exit is taken only for a foreign token. */
  lemma ForeignTokenTurnedAway(inv: Invocation, d: Disk, tags: set<string>, w: World)
    ensures var run := Main(inv, d, tags, w);
      run.exit == NotOwner <==> Load(inv, d, w.env).Ok? && ForeignToken(inv.token, Load(inv, d, w.env).value)
    ensures var run := Main(inv, d, tags, w);
      run.exit == NotOwner ==> run == Run(Returned(true), NotOwner, State(Load(inv, d, w.env).value, d, tags))
  {
  }

  /** A step the record does not expect (and no wildcard) is ignored:
      True, and nothing changes. */
  lemma UnexpectedStepIgnored(inv: Invocation, d: Disk, tags: set<string>, w: World)
    ensures var run := Main(inv, d, tags, w);
      var loaded := Load(inv, d, w.env);
      run.exit == NotNextStep <==>
        && loaded.Ok? && !ForeignToken(inv.token, loaded.value)
        && KeyNextSteps in loaded.value && !Expected(inv.action, loaded.value[KeyNextSteps])
    ensures var run := Main(inv, d, tags, w);
      run.exit == NotNextStep ==> run == Run(Returned(true), NotNextStep, State(Load(inv, d, w.env).value, d, tags))
  {
  }

  /** Past both guards, `main` is its handler followed by the LAST_ERROR
      bookkeeping. */
  lemma GuardsPassed(inv: Invocation, d: Disk, tags: set<string>, w: World)
    requires Load(inv, d, w.env).Ok?
    requires !ForeignToken(inv.token, Load(inv, d, w.env).value)
    requires KeyNextSteps in Load(inv, d, w.env).value
    requires Expected(inv.action, Load(inv, d, w.env).value[KeyNextSteps])
    ensures Main(inv, d, tags, w) ==
      Conclude(inv.action, Handle(inv.action, State(Load(inv, d, w.env).value, d, tags), w), w.env)
  {
  }

  /** Clearing LAST_ERROR writes that one field and nothing else. */
  lemma ClearTouchesOnlyLastError(s: State, env: Env)
    requires KeyLockDir in s.props && s.props[KeyLockDir] in s.disk.files
    ensures ClearLastError(s, env).state.props == s.props[KeyLastError := ""]
  {
    UpdatePlain(s.props, KeyLastError, "", env);
  }

  /** After a handler that did not raise, `main` returns True exactly when
      the record names its directory and, if the record file is still
      there, LAST_ERROR can be cleared in it; when the file is there it is
      cleared and the file matches the record, when it is gone (the lock
      was deleted) nothing more happens. */
  lemma CleanRunClearsLastError(action: string, handled: Step, env: Env)
    requires handled.raised.None? && handled.state.disk.Valid()
    ensures var run := Conclude(action, handled, env);
      run.verdict == Returned(true) <==> KeyLockDir in handled.state.props
    ensures var run := Conclude(action, handled, env);
      var s := handled.state;
      run.verdict == Returned(true) && s.props[KeyLockDir] in s.disk.files ==>
        && run.state.props == s.props[KeyLastError := ""]
        && run.state.props[KeyLockDir] in run.state.disk.files
        && run.state.disk.files[run.state.props[KeyLockDir]] == Serialize(run.state.props)
    ensures var run := Conclude(action, handled, env);
      var s := handled.state;
      run.verdict == Returned(true) && s.props[KeyLockDir] !in s.disk.files ==> run.state == s
  {
    var s := handled.state;
    ClearOutcome(s, env);
    var cleared := ClearLastError(s, env);
    assert Conclude(action, handled, env).verdict == Returned(true) <==> cleared.raised.None?;
  }

  /** What the clean-up after a clean handler does on its own: it fails
      only for a record without LOCKDIR; it rewrites the record with
      LAST_ERROR cleared when the file is there, and does nothing when it
      is gone. */
  lemma ClearOutcome(s: State, env: Env)
    requires s.disk.Valid()
    ensures var c := ClearLastError(s, env);
      c.raised.None? <==> KeyLockDir in s.props
    ensures var c := ClearLastError(s, env);
      KeyLockDir in s.props && s.props[KeyLockDir] in s.disk.files ==>
        && c.state.props == s.props[KeyLastError := ""]
        && c.state.props[KeyLockDir] in c.state.disk.files
        && c.state.disk.files[c.state.props[KeyLockDir]] == Serialize(c.state.props)
  {
    DistinctKeys();
    if KeyLockDir in s.props && s.props[KeyLockDir] in s.disk.files {
      UpdatePlain(s.props, KeyLastError, "", env);
    }
  }

  /** A handler that raised: acquire-lock returns False and writes
      nothing; any other action records the exception's text in
      LAST_ERROR and returns False, unless that write fails, which lets
      the write's own exception escape. */
  lemma RaisedRunRecordsLastError(action: string, handled: Step, env: Env)
    requires handled.raised.Some?
    ensures var run := Conclude(action, handled, env);
      action == StepAcquireLock ==> run == Run(Returned(false), Handled(handled.raised), handled.state)
    ensures var run := Conclude(action, handled, env);
      var s := handled.state;
      action != StepAcquireLock ==>
        && run.exit == Handled(handled.raised)
        && run.state.props == s.props[KeyLastError := Message(handled.raised.value)]
        && (run.verdict == Returned(false) <==> KeyLockDir in s.props && s.props[KeyLockDir] in s.disk.dirs)
        && (run.verdict == Returned(false) ==>
              run.state.disk.files == s.disk.files[s.props[KeyLockDir] := Serialize(run.state.props)])
        && (run.verdict != Returned(false) ==> run.verdict.Crashed? && run.state.disk == s.disk)
  {
    UpdatePlain(handled.state.props, KeyLastError, Message(handled.raised.value), env);
    DistinctKeys();
  }

  /** Past the guards, `main` returns True exactly when the handler did
      not raise (given that the record still names its directory, which a
      loaded record always does); otherwise it returns False or crashes
      while recording LAST_ERROR. */
  lemma TrueIffHandlerSucceeded(inv: Invocation, d: Disk, tags: set<string>, w: World)
    requires d.Valid() && Load(inv, d, w.env).Ok?
    requires !ForeignToken(inv.token, Load(inv, d, w.env).value)
    requires KeyNextSteps in Load(inv, d, w.env).value
    requires Expected(inv.action, Load(inv, d, w.env).value[KeyNextSteps])
    ensures var handled := Handle(inv.action, State(Load(inv, d, w.env).value, d, tags), w);
      Main(inv, d, tags, w).verdict == Returned(true) <==>
        handled.raised.None? && KeyLockDir in handled.state.props
  {
    var handled := Handle(inv.action, State(Load(inv, d, w.env).value, d, tags), w);
    GuardsPassed(inv, d, tags, w);
    if handled.raised.None? {
      CleanRunClearsLastError(inv.action, handled, w.env);
    }
  }

  /** acquire-lock fails only while naming the version or waiting for the
      lock, so a failed acquire-lock leaves the disk exactly as it found
      it: no lock directory, no record, no LAST_ERROR. A naming failure
      happens before the guarded block and escapes `main`; any other
      failure returns False. */
  lemma FailedAcquireLeavesDisk(inv: Invocation, d: Disk, tags: set<string>, w: World)
    requires inv.action == StepAcquireLock && d.Valid()
    ensures var run := Main(inv, d, tags, w);
      run.verdict != Returned(true) ==> run.state.disk == d
    ensures var run := Main(inv, d, tags, w);
      run.verdict.Crashed? <==> w.env.versionOf(inv.create.gitRevision).Err?
    ensures var run := Main(inv, d, tags, w);
      run.verdict.Crashed? ==> run.verdict == Crashed(w.env.versionOf(inv.create.gitRevision).failure)
  {
    var run := Main(inv, d, tags, w);
    if run.exit.Handled? {
      var props := CreateProperties(inv.create, w.env).value;
      var s := State(props, d, tags);
      var handled := Handle(inv.action, s, w);
      assert handled == HandleAcquireLock(s, w);
      if handled.raised.Some? {
        RaisedRunRecordsLastError(inv.action, handled, w.env);
      } else {
        CleanRunClearsLastError(inv.action, handled, w.env);
      }
    }
  }

  /** A fresh record expects acquire-lock and carries the request's
      token, so an acquire-lock whose token is empty or the request's
      passes both guards and reaches its handler, unless naming the
      version already failed. */
  lemma FreshRecordReachesHandler(inv: Invocation, d: Disk, tags: set<string>, w: World)
    requires inv.action == StepAcquireLock
    requires inv.token == "" || inv.token == inv.create.token
    ensures Main(inv, d, tags, w).exit.Handled? <==> w.env.versionOf(inv.create.gitRevision).Ok?
  {
    if w.env.versionOf(inv.create.gitRevision).Ok? {
      var props := CreateProperties(inv.create, w.env).value;
      InitialStepList();
      assert Split(props[KeyNextSteps], ',')[0] == StepAcquireLock;
      assert Expected(inv.action, props[KeyNextSteps]);
      assert !ForeignToken(inv.token, props);
    }
  }

  /** Naming the merged commit can fail once the merge is done. Then
      merge-from-master raises: `main` records the exception in
      LAST_ERROR and does not return True, and the record keeps its old
      GIT_SHA1, VERSION_NAME and step list. */
  lemma NamerFailureAfterMerge(s: State, w: World)
    requires KeyGitRevision in s.props && s.props[KeyGitRevision] != "master"
    requires w.mergeFromMaster.Ok? && w.revParse.Ok? && KeyAutoDeploy in s.props
    requires w.env.versionOf(w.revParse.value).Err?
    ensures var f := w.env.versionOf(w.revParse.value).failure;
      var run := Conclude(StepMergeFromMaster, Handle(StepMergeFromMaster, s, w), w.env);
      && run.exit == Handled(Some(f))
      && run.verdict != Returned(true)
      && run.state.props == s.props[KeyLastError := Message(f)]
  {
    var handled := Handle(StepMergeFromMaster, s, w);
    assert handled == HandleMergeFromMaster(s, w);
    RaisedRunRecordsLastError(StepMergeFromMaster, handled, w.env);
  }

  /** The successor table: the step list each handler leaves behind when
      it succeeds, before the escape hatches are added. The finishing
      steps, an automatic set-default and unknown actions leave none. */
  function Successor(action: string, props: Record): Option<string>
  {
    if action == StepAcquireLock then Some(StepMergeFromMaster)
    else if action == StepMergeFromMaster then
      if KeyAutoDeploy in props then Some(AfterMerge(props[KeyAutoDeploy])) else None
    else if action == StepManualTest then Some(StepSetDefault)
    else if action == StepSetDefault then
      if KeyAutoDeploy in props && props[KeyAutoDeploy] != "true" then Some(StepFinishWithSuccess) else None
    else if action == StepRelock then Some(AnyStep)
    else None
  }

  /** A handler that did not raise stores the normal form of its
      successor steps; one without a successor leaves the step list
      alone. */
  lemma HandlerSetsSuccessor(action: string, s: State, w: World)
    requires Handle(action, s, w).raised.None?
    ensures var after := Handle(action, s, w).state.props;
      Successor(action, s.props).Some? ==>
        KeyNextSteps in after && after[KeyNextSteps] == NormalizeSteps(Successor(action, s.props).value)
    ensures var after := Handle(action, s, w).state.props;
      Successor(action, s.props).None? && KeyNextSteps in s.props ==>
        KeyNextSteps in after && after[KeyNextSteps] == s.props[KeyNextSteps]
  {
    if Successor(action, s.props).Some? {
      SuccessorStored(action, s, w);
    } else if KeyNextSteps in s.props {
      OtherHandlersKeepSteps(action, s, w);
    }
  }

  lemma SuccessorStored(action: string, s: State, w: World)
    requires Handle(action, s, w).raised.None? && Successor(action, s.props).Some?
    ensures var after := Handle(action, s, w).state.props;
      KeyNextSteps in after && after[KeyNextSteps] == NormalizeSteps(Successor(action, s.props).value)
  {
    if action == StepAcquireLock || action == StepRelock {
      StoredByLockSteps(action, s, w);
    } else if action == StepMergeFromMaster {
      StoredByMerge(action, s, w);
    } else {
      StoredByApproval(action, s, w);
    }
  }

  lemma StoredByLockSteps(action: string, s: State, w: World)
    requires action == StepAcquireLock || action == StepRelock
    requires Handle(action, s, w).raised.None?
    ensures var after := Handle(action, s, w).state.props;
      KeyNextSteps in after && after[KeyNextSteps] == NormalizeSteps(Successor(action, s.props).value)
  {
    if action == StepAcquireLock {
      assert Handle(action, s, w) == HandleAcquireLock(s, w);
    } else {
      assert Handle(action, s, w) == HandleRelock(s, w);
    }
  }

  lemma StoredByMerge(action: string, s: State, w: World)
    requires action == StepMergeFromMaster
    requires Handle(action, s, w).raised.None?
    ensures var after := Handle(action, s, w).state.props;
      KeyAutoDeploy in s.props && KeyNextSteps in after
      && after[KeyNextSteps] == NormalizeSteps(Successor(action, s.props).value)
  {
    assert Handle(action, s, w) == HandleMergeFromMaster(s, w);
  }

  lemma StoredByApproval(action: string, s: State, w: World)
    requires action == StepManualTest || action == StepSetDefault
    requires Handle(action, s, w).raised.None? && Successor(action, s.props).Some?
    ensures var after := Handle(action, s, w).state.props;
      KeyNextSteps in after && after[KeyNextSteps] == NormalizeSteps(Successor(action, s.props).value)
  {
    if action == StepManualTest {
      assert Handle(action, s, w) == HandleManualTest(s, w);
    } else {
      assert Handle(action, s, w) == HandleSetDefault(s, w);
    }
  }

  /** The handlers that end a deploy leave the step list alone. */
  lemma OtherHandlersKeepSteps(action: string, s: State, w: World)
    requires Handle(action, s, w).raised.None? && Successor(action, s.props).None? && KeyNextSteps in s.props
    ensures var after := Handle(action, s, w).state.props;
      KeyNextSteps in after && after[KeyNextSteps] == s.props[KeyNextSteps]
  {
  }

  /** The LAST_ERROR bookkeeping after a clean handler leaves the step
      list as the handler left it. */
  lemma ConcludeKeepsSteps(action: string, handled: Step, env: Env)
    requires handled.raised.None? && KeyNextSteps in handled.state.props
    ensures var run := Conclude(action, handled, env);
      run.verdict == Returned(true) ==>
        KeyNextSteps in run.state.props && run.state.props[KeyNextSteps] == handled.state.props[KeyNextSteps]
  {
    var s := handled.state;
    var cleared := ClearLastError(s, env);
    DistinctKeys();
    if KeyLockDir in s.props && s.props[KeyLockDir] in s.disk.files {
      ClearTouchesOnlyLastError(s, env);
      assert cleared.state.props == s.props[KeyLastError := ""];
    } else if KeyLockDir in s.props {
      assert cleared == Step(s, None);
    }
  }

  /** The successor table as `main` leaves it: after a run that returned
      True from its handler, the stored steps are the normal form of the
      action's successor, or unchanged when it has none. */
  lemma SuccessorTable(inv: Invocation, d: Disk, tags: set<string>, w: World)
    requires d.Valid() && Load(inv, d, w.env).Ok?
    ensures var run := Main(inv, d, tags, w);
      var next := Successor(inv.action, Load(inv, d, w.env).value);
      run.verdict == Returned(true) && run.exit.Handled? && next.Some? ==>
        KeyNextSteps in run.state.props && run.state.props[KeyNextSteps] == NormalizeSteps(next.value)
  {
    var run := Main(inv, d, tags, w);
    var props := Load(inv, d, w.env).value;
    if run.verdict == Returned(true) && run.exit.Handled? && Successor(inv.action, props).Some? {
      var s := State(props, d, tags);
      var handled := Handle(inv.action, s, w);
      GuardsPassed(inv, d, tags, w);
      HandlerSetsSuccessor(inv.action, s, w);
      ConcludeKeepsSteps(inv.action, handled, w.env);
    }
  }
}
