/** `acquire_deploy_lock`: find out who holds the lock and for how long,
    then try `mkdir(lockdir)` every ten seconds until it succeeds, fails
    for another reason, or the holder has held the lock for `wait_sec`.

    The outcomes of the successive `mkdir` calls are an oracle (other
    processes create and remove the directory between attempts); the
    clock starts at `start` and advances ten seconds per attempt. Hipchat
    messages are kept as an abstract list of alerts. */
module Acquire {
  import opened Outcomes
  import opened Text
  import opened Disk
  import opened PropertyStore

  /** How one `os.mkdir(lockdir)` ends. */
  datatype MkdirResult = Created | AlreadyExists | MkdirFailed

  /** The way out the timeout message suggests to the waiting deployer. */
  datatype Advice = CancelTheirDeploy | FinishOrRollBack | ReleaseTheLock

  /** The hipchat messages of the busy-wait, without their text. */
  datatype Alert =
    | NextInLine(waited: int)
    | StillInLine(waited: int)
    | Starting(thankYou: bool)
    | StuckLock(waited: int, advice: Advice)

  /** The fixed inputs of one acquisition. */
  datatype Params = Params(
    lockdir: string,
    waitSec: int,
    notifySec: int,
    start: int,
    mkdir: nat -> MkdirResult)

  /** How the busy-wait ended: the number of `mkdir` calls made, the alerts
      sent, and either the acquisition time or the exception. */
  datatype Outcome = Outcome(attempts: nat, alerts: seq<Alert>, result: Result<int>)

  const PollSec := 10

  /** The current holder's record and how long it has held the lock. A
      missing record means nobody is known to hold it (empty record, zero
      seconds); any other read failure, a missing LOCK_ACQUIRE_TIME or a
      non-numeric one is raised. */
  function HolderOf(d: Disk, lockdir: string, now: int): (h: Result<(Record, int)>)
    ensures lockdir !in d.files ==> h == Ok((map[], 0))
    ensures h.Ok? && lockdir in d.files ==>
      var (holder, waited) := h.value;
      && KeyLockAcquireTime in holder
      && ParseInt(holder[KeyLockAcquireTime]) == Some(now - waited)
  {
    match ReadProperties(d, lockdir)
    case Err(f) => if f.NoSuchFile? then Ok((map[], 0)) else Err(f)
    case Ok(holder) =>
      var stamp :- Field(holder, KeyLockAcquireTime);
      match ParseInt(stamp)
      case None => Err(BadInteger(stamp))
      case Some(t) => Ok((holder, now - t))
  }

  /** The tie-break of the timeout message: a deploy that has not reached
      set-default yet can be cancelled; one waiting for its finish can be
      finished or rolled back; otherwise the lock is just released. */
  function Advise(steps: seq<string>): (a: Advice)
    ensures a == CancelTheirDeploy <==>
      "merge-from-master" in steps || "manual-test" in steps || "set-default" in steps
    ensures a == FinishOrRollBack <==>
      a != CancelTheirDeploy && "finish-with-success" in steps
  {
    if "merge-from-master" in steps || "manual-test" in steps || "set-default" in steps then CancelTheirDeploy
    else if "finish-with-success" in steps then FinishOrRollBack
    else ReleaseTheLock
  }

  /** The first of `keys` that `r` lacks, as the KeyError the lookups in
      that order would raise. */
  function FirstMissing(r: Record, keys: seq<string>): (m: Option<string>)
    ensures m.None? <==> forall i :: 0 <= i < |keys| ==> keys[i] in r
    ensures m.Some? ==> m.value in keys && m.value !in r
    ensures m.Some? ==> exists i :: 0 <= i < |keys| && keys[i] == m.value && forall j :: 0 <= j < i ==> keys[j] in r
  {
    if |keys| == 0 then None
    else if keys[0] !in r then Some(keys[0])
    else
      var m := FirstMissing(r, keys[1..]);
      assert m.Some? ==> exists i :: 1 <= i < |keys| && keys[i] == m.value && forall j :: 0 <= j < i ==> keys[j] in r by {
        if m.Some? {
          var i :| 0 <= i < |keys[1..]| && keys[1..][i] == m.value && forall j :: 0 <= j < i ==> keys[1..][j] in r;
          assert keys[i + 1] == m.value;
          assert forall j :: 0 <= j < i + 1 ==> keys[j] in r by {
            forall j | 0 <= j < i + 1 ensures keys[j] in r {
              if j > 0 { assert keys[j] == keys[1..][j - 1]; }
            }
          }
        }
      }
      m
  }

  /** The fields of the holder's record the timeout message reads, in the
      order it reads them. */
  function TimeoutKeys(advice: Advice): seq<string>
  {
    [KeyJenkinsUrl, KeyToken]
    + (if advice == FinishOrRollBack then [KeyRollbackTo] else [])
    + [KeyDeployerUsername]
  }

  /** The end of a busy-wait that ran out of time. */
  function TimedOut(holder: Record, waited: int, attempts: nat, alerts: seq<Alert>): (o: Outcome)
    ensures o.attempts == attempts && o.result.Err?
    ensures KeyNextSteps !in holder ==> o == Outcome(attempts, alerts, Err(MissingKey(KeyNextSteps)))
    ensures o.result == Err(LockTimeout) ==>
      KeyNextSteps in holder && o.alerts == alerts + [StuckLock(waited, Advise(Split(holder[KeyNextSteps], ',')))]
    ensures o.result != Err(LockTimeout) ==> o.alerts == alerts
  {
    if KeyNextSteps !in holder then Outcome(attempts, alerts, Err(MissingKey(KeyNextSteps)))
    else
      var advice := Advise(Split(holder[KeyNextSteps], ','));
      match FirstMissing(holder, TimeoutKeys(advice))
      case Some(k) => Outcome(attempts, alerts, Err(MissingKey(k)))
      case None => Outcome(attempts, alerts + [StuckLock(waited, advice)], Err(LockTimeout))
  }

  /** The number of ten-second polls that fit before `waited` reaches the
      limit: the ceiling of `gap / 10`, and zero when there is no gap. */
  function Polls(gap: int): nat
  {
    if gap <= 0 then 0 else (gap + PollSec - 1) / PollSec
  }

  lemma PollsStep(gap: int)
    requires gap > 0
    ensures Polls(gap - PollSec) + 1 == Polls(gap)
  {
  }

  /** The busy-wait from attempt `k` on, having waited `waited` seconds
      and having sent the alerts `alerts` (`alerted` says whether the first
      one has been sent). */
  function Poll(p: Params, holder: Record, waited: int, k: nat, alerted: bool, alerts: seq<Alert>): Outcome
    decreases if waited < p.waitSec then p.waitSec - waited else 0
  {
    if waited >= p.waitSec then TimedOut(holder, waited, k, alerts)
    else
      match p.mkdir(k)
      case Created => Outcome(k + 1, alerts + [Starting(alerted)], Ok(p.start + PollSec * k))
      case MkdirFailed => Outcome(k + 1, alerts, Err(MkdirError(p.lockdir)))
      case AlreadyExists =>
        if !alerted then
          Poll(p, holder, waited + PollSec, k + 1, true, alerts + [NextInLine(waited)])
        else if p.notifySec == 0 then
          Outcome(k + 1, alerts, Err(ZeroModulo))
        else if waited % p.notifySec == 0 then
          Poll(p, holder, waited + PollSec, k + 1, true, alerts + [StillInLine(waited)])
        else
          Poll(p, holder, waited + PollSec, k + 1, true, alerts)
  }

  /** The whole of `acquire_deploy_lock` against the disk it finds. */
  function Acquire(p: Params, d: Disk): Outcome
  {
    match HolderOf(d, p.lockdir, p.start)
    case Err(f) => Outcome(0, [], Err(f))
    case Ok((holder, waited)) => Poll(p, holder, waited, 0, false, [])
  }

  /** The busy-wait as the Python loop runs it. */
  method AcquireDeployLock(p: Params, holder: Record, waited0: int) returns (out: Outcome)
    ensures out == Poll(p, holder, waited0, 0, false, [])
    ensures out.result.Ok? ==> out.attempts >= 1 && p.mkdir(out.attempts - 1) == Created
    ensures out.attempts <= Polls(p.waitSec - waited0)
  {
    var waited := waited0;
    var k: nat := 0;
    var alerted := false;
    var alerts: seq<Alert> := [];
    AttemptsBounded(p, holder, waited0, 0, false, []);
    CreatedLast(p, holder, waited0, 0, false, []);
    while waited < p.waitSec
      invariant Poll(p, holder, waited, k, alerted, alerts) == Poll(p, holder, waited0, 0, false, [])
      decreases p.waitSec - waited
    {
      var r := p.mkdir(k);
      if r == Created {
        out := Outcome(k + 1, alerts + [Starting(alerted)], Ok(p.start + PollSec * k));
        return;
      } else if r == MkdirFailed {
        out := Outcome(k + 1, alerts, Err(MkdirError(p.lockdir)));
        return;
      }
      if !alerted {
        alerts := alerts + [NextInLine(waited)];
        alerted := true;
      } else if p.notifySec == 0 {
        out := Outcome(k + 1, alerts, Err(ZeroModulo));
        return;
      } else if waited % p.notifySec == 0 {
        alerts := alerts + [StillInLine(waited)];
      }
      waited := waited + PollSec;
      k := k + 1;
    }
    out := TimedOut(holder, waited, k, alerts);
  }

  // ---------------------------------------------------------------------
  // properties of the busy-wait

  /** The lock is taken exactly when the last `mkdir` created it, every
      earlier one found it there, and the acquisition time is the clock at
      that attempt. */
  lemma {:induction false} CreatedLast(p: Params, holder: Record, waited: int, k: nat, alerted: bool, alerts: seq<Alert>)
    ensures var o := Poll(p, holder, waited, k, alerted, alerts);
      && o.attempts >= k
      && (o.result.Ok? <==> o.attempts > k && p.mkdir(o.attempts - 1) == Created)
      && (forall i :: k <= i < o.attempts - 1 ==> p.mkdir(i) == AlreadyExists)
      && (o.result.Ok? ==> o.result.value == p.start + PollSec * (o.attempts - 1))
    decreases if waited < p.waitSec then p.waitSec - waited else 0
  {
    if waited < p.waitSec && p.mkdir(k) == AlreadyExists {
      if !alerted {
        CreatedLast(p, holder, waited + PollSec, k + 1, true, alerts + [NextInLine(waited)]);
      } else if p.notifySec != 0 {
        if waited % p.notifySec == 0 {
          CreatedLast(p, holder, waited + PollSec, k + 1, true, alerts + [StillInLine(waited)]);
        } else {
          CreatedLast(p, holder, waited + PollSec, k + 1, true, alerts);
        }
      }
    }
  }

  /** At most one attempt per ten seconds left; none when the holder has
      already held the lock for `wait_sec`; and a timeout comes only after
      every one of those attempts was made. */
  lemma {:induction false} AttemptsBounded(p: Params, holder: Record, waited: int, k: nat, alerted: bool, alerts: seq<Alert>)
    ensures var o := Poll(p, holder, waited, k, alerted, alerts);
      && k <= o.attempts <= k + Polls(p.waitSec - waited)
      && (waited >= p.waitSec ==> o.attempts == k && o.result.Err?)
      && (o.result == Err(LockTimeout) ==> o.attempts == k + Polls(p.waitSec - waited))
    decreases if waited < p.waitSec then p.waitSec - waited else 0
  {
    if waited < p.waitSec && p.mkdir(k) == AlreadyExists {
      PollsStep(p.waitSec - waited);
      if !alerted {
        AttemptsBounded(p, holder, waited + PollSec, k + 1, true, alerts + [NextInLine(waited)]);
      } else if p.notifySec != 0 {
        if waited % p.notifySec == 0 {
          AttemptsBounded(p, holder, waited + PollSec, k + 1, true, alerts + [StillInLine(waited)]);
        } else {
          AttemptsBounded(p, holder, waited + PollSec, k + 1, true, alerts);
        }
      }
    }
  }

  /** The alerts of a busy-wait extend the ones already sent; "next in
      line" is only ever the first, a reminder only comes at a multiple of
      `notify_sec`, and "starting" thanks the deployer exactly when it had
      to wait. */
  predicate WellFormedAlerts(alerts: seq<Alert>, notifySec: int)
  {
    && (forall i :: 0 <= i < |alerts| && alerts[i].NextInLine? ==> i == 0)
    && (forall i :: 0 <= i < |alerts| && alerts[i].StillInLine? ==>
          notifySec != 0 && alerts[i].waited % notifySec == 0)
    && (forall i :: 0 <= i < |alerts| && alerts[i].Starting? ==>
          i == |alerts| - 1 && (alerts[i].thankYou <==> i > 0))
  }

  lemma {:induction false} AlertsWellFormed(p: Params, holder: Record, waited: int, k: nat, alerted: bool, alerts: seq<Alert>)
    requires alerted <==> alerts != []
    requires WellFormedAlerts(alerts, p.notifySec)
    requires forall i :: 0 <= i < |alerts| ==> !alerts[i].Starting? && !alerts[i].StuckLock?
    ensures var o := Poll(p, holder, waited, k, alerted, alerts);
      && alerts <= o.alerts
      && WellFormedAlerts(o.alerts, p.notifySec)
    decreases if waited < p.waitSec then p.waitSec - waited else 0
  {
    if waited < p.waitSec && p.mkdir(k) == AlreadyExists {
      if !alerted {
        AlertsWellFormed(p, holder, waited + PollSec, k + 1, true, alerts + [NextInLine(waited)]);
      } else if p.notifySec != 0 {
        if waited % p.notifySec == 0 {
          AlertsWellFormed(p, holder, waited + PollSec, k + 1, true, alerts + [StillInLine(waited)]);
        } else {
          AlertsWellFormed(p, holder, waited + PollSec, k + 1, true, alerts);
        }
      }
    }
  }

  /** On a timeout the last alert names how long the holder has held the
      lock, at least `wait_sec`, and the advice drawn from the holder's
      next steps. */
  lemma {:induction false} TimeoutAdvice(p: Params, holder: Record, waited: int, k: nat, alerted: bool, alerts: seq<Alert>)
    ensures var o := Poll(p, holder, waited, k, alerted, alerts);
      o.result == Err(LockTimeout) ==>
        && KeyNextSteps in holder
        && |o.alerts| > 0
        && var last := o.alerts[|o.alerts| - 1];
          last.StuckLock? && last.waited >= p.waitSec
          && last.advice == Advise(Split(holder[KeyNextSteps], ','))
    decreases if waited < p.waitSec then p.waitSec - waited else 0
  {
    if waited < p.waitSec && p.mkdir(k) == AlreadyExists {
      if !alerted {
        TimeoutAdvice(p, holder, waited + PollSec, k + 1, true, alerts + [NextInLine(waited)]);
      } else if p.notifySec != 0 {
        if waited % p.notifySec == 0 {
          TimeoutAdvice(p, holder, waited + PollSec, k + 1, true, alerts + [StillInLine(waited)]);
        } else {
          TimeoutAdvice(p, holder, waited + PollSec, k + 1, true, alerts);
        }
      }
    }
  }

  /** A whole acquisition takes the lock exactly when its last `mkdir`
      created the directory after every earlier one found it there. */
  lemma AcquireTakesLockIff(p: Params, d: Disk)
    ensures var o := Acquire(p, d);
      && (o.result.Ok? <==> o.attempts >= 1 && p.mkdir(o.attempts - 1) == Created)
      && (forall i :: 0 <= i < o.attempts - 1 ==> p.mkdir(i) == AlreadyExists)
  {
    match HolderOf(d, p.lockdir, p.start)
    case Err(f) =>
    case Ok((holder, waited)) =>
      CreatedLast(p, holder, waited, 0, false, []);
  }

  /** A whole acquisition makes no attempt when the holder's time is
      already up, and never more than one per remaining ten seconds. */
  lemma AcquireAttempts(p: Params, d: Disk)
    ensures var h := HolderOf(d, p.lockdir, p.start);
      var o := Acquire(p, d);
      && (h.Err? ==> o.attempts == 0 && o.result == Err(h.failure))
      && (h.Ok? ==> o.attempts <= Polls(p.waitSec - h.value.1))
      && (h.Ok? && h.value.1 >= p.waitSec ==> o.attempts == 0 && o.result.Err?)
  {
    match HolderOf(d, p.lockdir, p.start)
    case Err(f) =>
    case Ok((holder, waited)) =>
      AttemptsBounded(p, holder, waited, 0, false, []);
  }

  /** Every acquisition's alerts are well formed. */
  lemma AcquireAlerts(p: Params, d: Disk)
    ensures WellFormedAlerts(Acquire(p, d).alerts, p.notifySec)
  {
    match HolderOf(d, p.lockdir, p.start)
    case Err(f) =>
    case Ok((holder, waited)) =>
      AlertsWellFormed(p, holder, waited, 0, false, []);
  }
}
