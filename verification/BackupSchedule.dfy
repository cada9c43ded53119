/**
 One-time and scheduled backups: Reconcile, handleScheduledBackup, handleOneTimeBackup and
 updateBackupStatus of controllers/mcpserverbackup_controller.go.  A reconcile works on a copy
 of the stored status and writes it back; the API server may refuse a write, and then the next
 reconcile starts from what was stored before.
 */
module BackupSchedule {
  import opened Clock
  import opened Conditions
  import opened Retention
  import opened Wrappers

  datatype Kind = Progressing | Ready | Failure

  datatype BackupStatus = BackupStatus(phase: Phase, lastSchedule: Option<int>, nextSchedule: Option<int>,
                                       started: Option<int>, completed: Option<int>,
                                       conditions: seq<Condition<Kind>>)

  /** Spec.Schedule: empty, not a cron expression, or one with a next-time function. */
  datatype Schedule = OneTime | Malformed | Cron(next: int -> int)

  datatype Lookup = Found | Missing | Unavailable

  /** What one reconcile meets: the clock, Spec.Suspend, the MCPServer, the outcomes of createBackup and
      of the cleanup of a deleted backup, whether the retention run of a firing deletes this backup
      itself, whether the API server would accept the first (Running) and the last write, and, if the
      watch-fed client lags behind, after which reconcile the version read was stored. */
  datatype Env = Env(now: int, suspended: bool, server: Lookup, createOk: bool, cleanupOk: bool, retires: bool,
                     firstWrite: bool, lastWrite: bool, version: Option<nat>)

  /** Without the operator's finalizer, with it, marked for deletion, and deleted. */
  datatype Life = Unheld | Held | Marked | Gone

  datatype Object = Object(life: Life, status: BackupStatus)

  /** The status that is stored if the object read was the latest, and whether the object was marked. */
  datatype Outcome = Outcome(stored: BackupStatus, creations: nat, failed: bool, retired: bool)

  datatype Result = Result(stored: Object, creations: nat, failed: bool)

  function ConditionKind(phase: Phase): Kind {
    match phase
    case Completed => Ready
    case Failed => Failure
    case _ => Progressing
  }

  function ConditionStatus(phase: Phase): Status {
    match phase
    case Completed => True
    case Failed => False
    case _ => Unknown
  }

  /** The status that updateBackupStatus sends to the API server. */
  function Written(s: BackupStatus, phase: Phase, reason: string, now: int): BackupStatus {
    var c := Condition(ConditionKind(phase), ConditionStatus(phase), now, reason, "");
    s.(phase := phase,
       started := if phase == Running && s.started.None? then Some(now) else s.started,
       completed := if phase == Completed || phase == Failed then Some(now) else s.completed,
       conditions := Upsert(s.conditions, c))
  }

  function Write(stored: BackupStatus, written: BackupStatus, accepted: bool, creations: nat): Outcome {
    Outcome(if accepted then written else stored, creations, !accepted, false)
  }

  predicate Due(next: int -> int, last: Option<int>, now: int) {
    last.None? || next(last.value) <= now
  }

  function Scheduled(next: int -> int, s: BackupStatus, env: Env): Outcome {
    var s' := s.(nextSchedule := Some(next(env.now)));
    if !Due(next, s.lastSchedule, env.now) then
      Write(s, Written(s', Completed, "ScheduleProcessed", env.now), env.lastWrite, 0)
    else if !env.createOk then
      Write(s, Written(s', Failed, "BackupCreationFailed", env.now), env.lastWrite, 0)
    else if env.retires then
      // The mark makes the version that the status is written to an old one.
      Outcome(s, 1, true, true)
    else
      Write(s, Written(s'.(lastSchedule := Some(env.now)), Completed, "ScheduleProcessed", env.now), env.lastWrite, 1)
  }

  function OnceOnly(s: BackupStatus, env: Env): Outcome {
    if s.phase == Completed then Outcome(s, 0, false, false)
    else if !env.firstWrite then Outcome(s, 0, true, false)
    else
      var s' := Written(s, Running, "BackupInProgress", env.now);
      if env.createOk
      then Write(s', Written(s', Completed, "BackupCompleted", env.now), env.lastWrite, 1)
      else Write(s', Written(s', Failed, "BackupCreationFailed", env.now), env.lastWrite, 0)
  }

  /** What a reconcile does with a backup that has its finalizer and is not being deleted. */
  function Processed(schedule: Schedule, s: BackupStatus, env: Env): Outcome {
    if env.suspended then Write(s, Written(s, Pending, "Suspended", env.now), env.lastWrite, 0)
    else if env.server == Missing then Write(s, Written(s, Failed, "MCPServerNotFound", env.now), env.lastWrite, 0)
    else if env.server == Unavailable then Outcome(s, 0, true, false)
    else
      match schedule
      case OneTime => OnceOnly(s, env)
      case Malformed => Write(s, Written(s, Failed, "InvalidSchedule", env.now), env.lastWrite, 0)
      case Cron(next) => Scheduled(next, s, env)
  }

  /** A write to an object that has changed since it was read is refused as a conflict. */
  function Seen(env: Env, latest: bool): Env {
    if latest then env else env.(firstWrite := false, lastWrite := false)
  }

  function OnceDeleted(life: Life): Life {
    match life
    case Held => Marked
    case Unheld => Gone
    case _ => life
  }

  /** What an outcome makes of the stored object. */
  function Onto(o: Object, r: Outcome, latest: bool): Object {
    Object(if r.retired then OnceDeleted(o.life) else o.life, if latest then r.stored else o.status)
  }

  /** What a reconcile does before the finalizer is there and after the object was marked. */
  function Finalized(o: Object, life: Life, e: Env): Result
    requires life != Held
  {
    match life
    case Gone => Result(o, 0, false)
    case Marked => if e.cleanupOk && e.lastWrite then Result(o.(life := Gone), 0, false) else Result(o, 0, true)
    case Unheld => if e.lastWrite then Result(o.(life := Held), 0, false) else Result(o, 0, true)
  }

  /** One reconcile over the stored object `o`, of which it reads the version `read`. */
  function Reconciled(schedule: Schedule, o: Object, read: Object, env: Env): Result {
    var latest := env.version.None?;
    if read.life != Held then Finalized(o, read.life, Seen(env, latest))
    else
      var r := Processed(schedule, read.status, Seen(env, latest));
      Result(Onto(o, r, latest), r.creations, r.failed)
  }

  /** The reconciler with its working copy of the object; `stored` is the API server's copy, and
      `latest` says whether the working copy has its resource version. */
  class BackupReconciler {
    var stored: Object
    var copy: Object
    var latest: bool
    var creations: nat

    constructor (stored: Object)
      ensures this.stored == stored && creations == 0
    {
      this.stored, copy, latest, creations := stored, stored, true, 0;
    }

    method UpdateBackupStatus(phase: Phase, reason: string, now: int, accepted: bool) returns (failed: bool)
      modifies this`copy, this`stored
      ensures copy == old(copy).(status := Written(old(copy).status, phase, reason, now))
      ensures stored == if accepted && latest then old(stored).(status := copy.status) else old(stored)
      ensures failed == !(accepted && latest)
    {
      var status := copy.status.(phase := phase);
      if phase == Running && status.started.None? {
        status := status.(started := Some(now));
      }
      if phase == Completed || phase == Failed {
        status := status.(completed := Some(now));
      }
      var slice := new Resource<Kind>(status.conditions);
      slice.UpdateConditions(Condition(ConditionKind(phase), ConditionStatus(phase), now, reason, ""));
      copy := copy.(status := status.(conditions := slice.conditions));
      if accepted && latest {
        stored := stored.(status := copy.status);
      }
      failed := !(accepted && latest);
    }

    /** The part of a retention run that concerns this backup itself. */
    method EnforceRetentionPolicy(retires: bool)
      modifies this`stored, this`latest
      ensures stored == if retires then old(stored).(life := OnceDeleted(old(stored).life)) else old(stored)
      ensures latest == (old(latest) && !retires)
    {
      if retires {
        stored, latest := stored.(life := OnceDeleted(stored.life)), false;
      }
    }

    /** Creates a backup if the schedule says so and lets the retention policy run. */
    method FireIfDue(next: int -> int, env: Env) returns (due: bool, created: bool)
      modifies this
      ensures due == Due(next, old(copy).status.lastSchedule, env.now) && created == (due && env.createOk)
      ensures var s := old(copy).status.(nextSchedule := Some(next(env.now)));
              copy == old(copy).(status := if created then s.(lastSchedule := Some(env.now)) else s)
      ensures creations == old(creations) + if created then 1 else 0
      ensures stored == if created && env.retires then old(stored).(life := OnceDeleted(old(stored).life))
                        else old(stored)
      ensures latest == (old(latest) && !(created && env.retires))
    {
      var last := copy.status.lastSchedule;
      copy := copy.(status := copy.status.(nextSchedule := Some(next(env.now))));
      due, created := last.None? || next(last.value) < env.now || next(last.value) == env.now, false;
      if due {
        if env.createOk {
          created, creations := true, creations + 1;
          copy := copy.(status := copy.status.(lastSchedule := Some(env.now)));
          EnforceRetentionPolicy(env.retires);
        }
      }
    }

    method HandleScheduledBackup(schedule: Schedule, env: Env) returns (failed: bool)
      requires schedule != OneTime && copy.life == Held && (latest ==> copy == stored)
      modifies this
      ensures var e := Seen(env, old(latest));
              var r := if schedule.Cron? then Scheduled(schedule.next, old(copy).status, e)
                       else Write(old(copy).status, Written(old(copy).status, Failed, "InvalidSchedule", e.now),
                                   e.lastWrite, 0);
              stored == Onto(old(stored), r, old(latest)) &&
              creations == old(creations) + r.creations && failed == r.failed
    {
      if schedule.Malformed? {
        failed := UpdateBackupStatus(Failed, "InvalidSchedule", env.now, env.lastWrite);
        return;
      }
      var due, created := FireIfDue(schedule.next, env);
      if due && !created {
        failed := UpdateBackupStatus(Failed, "BackupCreationFailed", env.now, env.lastWrite);
      } else {
        failed := UpdateBackupStatus(Completed, "ScheduleProcessed", env.now, env.lastWrite);
      }
    }

    method HandleOneTimeBackup(env: Env) returns (failed: bool)
      requires copy.life == Held && (latest ==> copy == stored)
      modifies this
      ensures var r := OnceOnly(old(copy).status, Seen(env, old(latest)));
              stored == Onto(old(stored), r, old(latest)) &&
              creations == old(creations) + r.creations && failed == r.failed
    {
      if copy.status.phase == Completed {
        return false;
      }
      failed := UpdateBackupStatus(Running, "BackupInProgress", env.now, env.firstWrite);
      if failed {
        return;
      }
      if !env.createOk {
        failed := UpdateBackupStatus(Failed, "BackupCreationFailed", env.now, env.lastWrite);
        return;
      }
      creations := creations + 1;
      failed := UpdateBackupStatus(Completed, "BackupCompleted", env.now, env.lastWrite);
    }

    /** Suspend, the MCPServer, and the kind of schedule. */
    method Process(schedule: Schedule, env: Env) returns (failed: bool)
      requires copy.life == Held && (latest ==> copy == stored)
      modifies this
      ensures var r := Processed(schedule, old(copy).status, Seen(env, old(latest)));
              stored == Onto(old(stored), r, old(latest)) &&
              creations == old(creations) + r.creations && failed == r.failed
    {
      if env.suspended {
        failed := UpdateBackupStatus(Pending, "Suspended", env.now, env.lastWrite);
        return;
      }
      match env.server
      case Missing =>
        failed := UpdateBackupStatus(Failed, "MCPServerNotFound", env.now, env.lastWrite);
      case Unavailable =>
        failed := true;
      case Found =>
        if schedule != OneTime {
          failed := HandleScheduledBackup(schedule, env);
        } else {
          failed := HandleOneTimeBackup(env);
        }
    }

    /** An update of the object itself, which sets or removes the finalizer. */
    method UpdateFinalizer(life: Life, accepted: bool) returns (failed: bool)
      modifies this`stored
      ensures stored == if accepted && latest then old(stored).(life := life) else old(stored)
      ensures failed == !(accepted && latest)
    {
      if accepted && latest {
        stored := stored.(life := life);
      }
      failed := !(accepted && latest);
    }

    /** An object that is gone, deletion, and adding the finalizer. */
    method HandleFinalizer(env: Env) returns (failed: bool)
      requires copy.life != Held
      modifies this`stored
      ensures var r := Finalized(old(stored), copy.life, Seen(env, latest));
              stored == r.stored && failed == r.failed
    {
      match copy.life
      case Gone =>
        failed := false;
      case Marked =>
        if !env.cleanupOk {
          return true;
        }
        failed := UpdateFinalizer(Gone, env.lastWrite);
      case Unheld =>
        failed := UpdateFinalizer(Held, env.lastWrite);
    }

    method Reconcile(schedule: Schedule, read: Object, env: Env) returns (failed: bool)
      requires env.version.None? ==> read == stored
      modifies this
      ensures var r := Reconciled(schedule, old(stored), read, env);
              stored == r.stored && creations == old(creations) + r.creations && failed == r.failed
    {
      copy, latest := read, env.version.None?;
      if copy.life != Held {
        failed := HandleFinalizer(env);
      } else {
        failed := Process(schedule, env);
      }
    }
  }

  // ---- Runs of reconciles -----------------------------------------------------------------

  /** How many reconciles had gone by when the version that the last one reads was stored. */
  function ReadAt(envs: seq<Env>): (n: nat)
    requires envs != []
    ensures n < |envs| && (envs[|envs| - 1].version.None? ==> n == |envs| - 1)
  {
    var n, version := |envs| - 1, envs[|envs| - 1].version;
    if version.Some? && version.value < n then version.value else n
  }

  function After(schedule: Schedule, o: Object, envs: seq<Env>): Object {
    if envs == [] then o
    else
      Reconciled(schedule, After(schedule, o, envs[..|envs| - 1]), After(schedule, o, envs[..ReadAt(envs)]),
                 envs[|envs| - 1]).stored
  }

  function Creations(schedule: Schedule, o: Object, envs: seq<Env>): nat {
    if envs == [] then 0
    else
      Creations(schedule, o, envs[..|envs| - 1]) +
      Reconciled(schedule, After(schedule, o, envs[..|envs| - 1]), After(schedule, o, envs[..ReadAt(envs)]),
                 envs[|envs| - 1]).creations
  }

  // ---- The finalizer ----------------------------------------------------------------------

  /** A deleted backup goes with its finalizer, and that is removed if the cleanup worked and the update was
      accepted; in every other case the reconcile fails and changes nothing. */
  lemma DeletionEndsIff(schedule: Schedule, o: Object, read: Object, env: Env)
    requires read.life == Marked && (env.version.None? ==> read == o)
    ensures var r := Reconciled(schedule, o, read, env);
            && (r.failed <==> !(env.cleanupOk && env.lastWrite && env.version.None?))
            && r.stored == (if r.failed then o else o.(life := Gone)) && r.creations == 0
  {
  }

  /** A backup without the finalizer gets it, or the reconcile fails; nothing else is done for it. */
  lemma FinalizerComesFirst(schedule: Schedule, o: Object, read: Object, env: Env)
    requires read.life == Unheld && (env.version.None? ==> read == o)
    ensures var r := Reconciled(schedule, o, read, env);
            && (r.failed <==> !(env.lastWrite && env.version.None?))
            && r.stored == (if r.failed then o else o.(life := Held)) && r.creations == 0
  {
  }

  /** A backup is deleted by nothing but a firing whose retention run does it; that marks the backup if it has
      the finalizer. */
  lemma OnlyRetentionMarks(schedule: Schedule, o: Object, read: Object, env: Env)
    requires read.life == Held && (env.version.None? ==> read == o)
    ensures var r := Reconciled(schedule, o, read, env);
            var deleted := schedule.Cron? && r.creations == 1 && env.retires;
            && (deleted && o.life == Held ==> r.stored.life == Marked)
            && (deleted && o.life == Unheld ==> r.stored.life == Gone)
            && (!deleted || o.life in {Marked, Gone} ==> r.stored.life == o.life)
            && (env.version.Some? ==> r.stored.status == o.status)
  {
  }

  lemma GoneIsLeftAlone(schedule: Schedule, o: Object, read: Object, env: Env)
    requires read.life == Gone && (env.version.None? ==> read == o)
    ensures Reconciled(schedule, o, read, env) == Result(o, 0, false)
  {
  }

  /** Reconcile `n` of the run reads the mark on the latest version, cleans up and has its update accepted. */
  ghost predicate CleansUp(schedule: Schedule, o: Object, envs: seq<Env>, n: nat)
    requires n < |envs|
  {
    && After(schedule, o, envs[..n]).life == Marked
    && envs[n].version.None? && envs[n].cleanupOk && envs[n].lastWrite
  }

  lemma {:induction false} StaysFinalized(schedule: Schedule, o: Object, envs: seq<Env>)
    requires o.life in {Held, Marked}
    ensures After(schedule, o, envs).life in {Held, Marked, Gone}
    decreases |envs|
  {
    if envs == [] {
    } else {
      var n := |envs| - 1;
      StaysFinalized(schedule, o, envs[..n]);
      StaysFinalized(schedule, o, envs[..ReadAt(envs)]);
    }
  }

  lemma GoneStep(schedule: Schedule, o: Object, envs: seq<Env>)
    requires o.life in {Held, Marked} && envs != []
    ensures var n := |envs| - 1;
            After(schedule, o, envs).life == Gone <==>
              After(schedule, o, envs[..n]).life == Gone || CleansUp(schedule, o, envs, n)
  {
    var n := |envs| - 1;
    var before, read := After(schedule, o, envs[..n]), After(schedule, o, envs[..ReadAt(envs)]);
    StaysFinalized(schedule, o, envs[..n]);
    StaysFinalized(schedule, o, envs[..ReadAt(envs)]);
    if read.life == Marked {
      DeletionEndsIff(schedule, before, read, envs[n]);
    } else if read.life == Held {
      OnlyRetentionMarks(schedule, before, read, envs[n]);
    }
  }

  /** Over any run, a backup that has its finalizer is gone at the end exactly if some reconcile of its mark
      cleaned up and had its update of the latest version accepted. */
  lemma {:induction false} GoneIffCleanedUp(schedule: Schedule, o: Object, envs: seq<Env>)
    requires o.life in {Held, Marked}
    ensures After(schedule, o, envs).life == Gone <==>
              exists n :: 0 <= n < |envs| && CleansUp(schedule, o, envs, n)
  {
    if envs == [] {
    } else {
      var before := envs[..|envs| - 1];
      GoneIffCleanedUp(schedule, o, before);
      GoneStep(schedule, o, envs);
      forall n | 0 <= n < |before|
        ensures CleansUp(schedule, o, before, n) <==> CleansUp(schedule, o, envs, n)
      {
        assert before[..n] == envs[..n];
      }
    }
  }

  lemma NeverUnheldAgain(schedule: Schedule, o: Object, read: Object, env: Env)
    requires o.life != Unheld && (env.version.None? ==> read == o)
    ensures Reconciled(schedule, o, read, env).stored.life != Unheld
  {
  }

  /** A reconcile that may add the finalizer. */
  predicate Accepted(e: Env) {
    e.version.None? && e.lastWrite
  }

  lemma UnheldStep(schedule: Schedule, o: Object, envs: seq<Env>)
    requires envs != []
    requires After(schedule, o, envs[..|envs| - 1]).life == Unheld ==>
               After(schedule, o, envs[..ReadAt(envs)]).life == Unheld
    ensures var before := After(schedule, o, envs[..|envs| - 1]);
            && (After(schedule, o, envs).life == Unheld <==> before.life == Unheld && !Accepted(envs[|envs| - 1]))
            && (After(schedule, o, envs).life == Unheld ==>
                  && After(schedule, o, envs) == before
                  && Creations(schedule, o, envs) == Creations(schedule, o, envs[..|envs| - 1]))
  {
    var n := |envs| - 1;
    var before, read := After(schedule, o, envs[..n]), After(schedule, o, envs[..ReadAt(envs)]);
    if before.life == Unheld {
      FinalizerComesFirst(schedule, before, read, envs[n]);
    } else {
      NeverUnheldAgain(schedule, before, read, envs[n]);
    }
  }

  ghost predicate NoneAccepted(envs: seq<Env>) {
    forall n :: 0 <= n < |envs| ==> !Accepted(envs[n])
  }

  lemma NoneAcceptedSoFar(envs: seq<Env>)
    requires envs != []
    ensures NoneAccepted(envs) <==> NoneAccepted(envs[..|envs| - 1]) && !Accepted(envs[|envs| - 1])
    ensures NoneAccepted(envs[..|envs| - 1]) ==> NoneAccepted(envs[..ReadAt(envs)])
  {
  }

  /** Until some reconcile of the latest version has its update accepted, a new backup stays as it is and
      creates nothing. */
  lemma {:induction false} UntouchedUntilHeld(schedule: Schedule, o: Object, envs: seq<Env>)
    requires o.life == Unheld
    ensures After(schedule, o, envs).life == Unheld <==> NoneAccepted(envs)
    ensures After(schedule, o, envs).life == Unheld ==>
              After(schedule, o, envs) == o && Creations(schedule, o, envs) == 0
    decreases |envs|
  {
    if envs == [] {
    } else {
      UntouchedUntilHeld(schedule, o, envs[..|envs| - 1]);
      UntouchedUntilHeld(schedule, o, envs[..ReadAt(envs)]);
      NoneAcceptedSoFar(envs);
      UnheldStep(schedule, o, envs);
    }
  }

  // ---- What a reconcile reports -----------------------------------------------------------

  /** A phase with the condition that goes with it. */
  predicate Shows(s: BackupStatus, phase: Phase, kind: Kind, status: Status, reason: string, now: int) {
    s.phase == phase && Find(s.conditions, kind) == Some(Condition(kind, status, now, reason, ""))
  }

  predicate SameTimes(s: BackupStatus, t: BackupStatus) {
    (s.lastSchedule, s.nextSchedule, s.started, s.completed) == (t.lastSchedule, t.nextSchedule, t.started, t.completed)
  }

  lemma WrittenShows(s: BackupStatus, phase: Phase, kind: Kind, status: Status, reason: string, now: int)
    requires kind == ConditionKind(phase) && status == ConditionStatus(phase)
    ensures Shows(Written(s, phase, reason, now), phase, kind, status, reason, now)
    ensures forall other :: other != kind ==>
              Find(Written(s, phase, reason, now).conditions, other) == Find(s.conditions, other)
  {
    var c := Condition(kind, status, now, reason, "");
    forall other
      ensures Find(Upsert(s.conditions, c), other) == if other == kind then Some(c) else Find(s.conditions, other)
    {
      UpsertRefinesMapUpdate(s.conditions, c, other);
    }
  }

  /** Suspend is looked at first and leaves the backup pending; a missing MCPServer fails it, and one that
      cannot be read leaves it alone. */
  lemma UnservedReport(schedule: Schedule, o: Object, env: Env)
    requires o.life == Held && env.version.None? && (env.suspended || env.server != Found)
    ensures var r := Reconciled(schedule, o, o, env);
            var s := r.stored.status;
            && r.creations == 0 && r.stored.life == Held
            && (r.failed <==> !env.lastWrite || (!env.suspended && env.server == Unavailable))
            && (r.failed ==> s == o.status)
            && (!r.failed && env.suspended ==>
                  Shows(s, Pending, Progressing, Unknown, "Suspended", env.now) && SameTimes(s, o.status))
            && (!r.failed && !env.suspended ==>
                  && Shows(s, Failed, Failure, False, "MCPServerNotFound", env.now)
                  && SameTimes(s, o.status.(completed := Some(env.now))))
  {
    WrittenShows(o.status, Pending, Progressing, Unknown, "Suspended", env.now);
    WrittenShows(o.status, Failed, Failure, False, "MCPServerNotFound", env.now);
  }

  lemma MalformedReport(o: Object, env: Env)
    requires o.life == Held && env.version.None? && !env.suspended && env.server == Found
    ensures var r := Reconciled(Malformed, o, o, env);
            var s := r.stored.status;
            && r.creations == 0 && r.stored.life == Held && (r.failed <==> !env.lastWrite)
            && (r.failed ==> s == o.status)
            && (!r.failed ==> Shows(s, Failed, Failure, False, "InvalidSchedule", env.now) &&
                              SameTimes(s, o.status.(completed := Some(env.now))))
  {
    WrittenShows(o.status, Failed, Failure, False, "InvalidSchedule", env.now);
  }

  /** A served schedule reports when it comes next; it is Completed unless a due backup could not be created,
      and it records its last time exactly if it created one. */
  lemma ScheduledReport(next: int -> int, o: Object, env: Env)
    requires o.life == Held && env.version.None? && !env.suspended && env.server == Found
    ensures var r := Reconciled(Cron(next), o, o, env);
            var s := r.stored.status;
            var due := o.status.lastSchedule.None? || next(o.status.lastSchedule.value) <= env.now;
            && r.creations == (if due && env.createOk then 1 else 0)
            && (r.failed <==> !env.lastWrite || (r.creations == 1 && env.retires))
            && (r.failed ==> s == o.status)
            && (!r.failed ==>
                  && (due && !env.createOk ==> Shows(s, Failed, Failure, False, "BackupCreationFailed", env.now))
                  && (!due || env.createOk ==> Shows(s, Completed, Ready, True, "ScheduleProcessed", env.now))
                  && SameTimes(s, o.status.(nextSchedule := Some(next(env.now)), completed := Some(env.now),
                                            lastSchedule := if r.creations == 1 then Some(env.now)
                                                            else o.status.lastSchedule)))
  {
    var s := o.status.(nextSchedule := Some(next(env.now)));
    WrittenShows(s, Completed, Ready, True, "ScheduleProcessed", env.now);
    WrittenShows(s, Failed, Failure, False, "BackupCreationFailed", env.now);
    WrittenShows(s.(lastSchedule := Some(env.now)), Completed, Ready, True, "ScheduleProcessed", env.now);
  }

  /** A completed one-time backup is left alone, and so is one that cannot be shown as running. */
  lemma OneTimeIsLeftAlone(o: Object, env: Env)
    requires o.life == Held && env.version.None? && !env.suspended && env.server == Found
    requires o.status.phase == Completed || !env.firstWrite
    ensures Reconciled(OneTime, o, o, env) == Result(o, 0, o.status.phase != Completed)
  {
  }

  /** The status with the two conditions and times that running leaves behind. */
  lemma RunLeaves(s: BackupStatus, created: bool, now: int)
    ensures var s' := if created then Written(Written(s, Running, "BackupInProgress", now), Completed,
                                              "BackupCompleted", now)
                      else Written(Written(s, Running, "BackupInProgress", now), Failed, "BackupCreationFailed", now);
            && (created ==> Shows(s', Completed, Ready, True, "BackupCompleted", now))
            && (!created ==> Shows(s', Failed, Failure, False, "BackupCreationFailed", now))
            && Find(s'.conditions, Progressing) == Some(Condition(Progressing, Unknown, now, "BackupInProgress", ""))
            && SameTimes(s', s.(started := Some(s.started.GetOr(now)), completed := Some(now)))
  {
    var running := Written(s, Running, "BackupInProgress", now);
    WrittenShows(s, Running, Progressing, Unknown, "BackupInProgress", now);
    if created {
      WrittenShows(running, Completed, Ready, True, "BackupCompleted", now);
    } else {
      WrittenShows(running, Failed, Failure, False, "BackupCreationFailed", now);
    }
  }

  /** Any other one shows Running if nothing more is accepted. */
  lemma OneTimeIsRunning(o: Object, env: Env)
    requires o.life == Held && env.version.None? && !env.suspended && env.server == Found
    requires o.status.phase != Completed && env.firstWrite && !env.lastWrite
    ensures var r := Reconciled(OneTime, o, o, env);
            var s := r.stored.status;
            && r.failed && r.creations == (if env.createOk then 1 else 0) && r.stored.life == Held
            && Shows(s, Running, Progressing, Unknown, "BackupInProgress", env.now)
            && SameTimes(s, o.status.(started := Some(o.status.started.GetOr(env.now))))
  {
    WrittenShows(o.status, Running, Progressing, Unknown, "BackupInProgress", env.now);
  }

  /** Otherwise it shows how the creation went, and since when it ran. */
  lemma OneTimeReport(o: Object, env: Env)
    requires o.life == Held && env.version.None? && !env.suspended && env.server == Found
    requires o.status.phase != Completed && env.firstWrite && env.lastWrite
    ensures var r := Reconciled(OneTime, o, o, env);
            var s := r.stored.status;
            && !r.failed && r.creations == (if env.createOk then 1 else 0) && r.stored.life == Held
            && (env.createOk ==> Shows(s, Completed, Ready, True, "BackupCompleted", env.now))
            && (!env.createOk ==> Shows(s, Failed, Failure, False, "BackupCreationFailed", env.now))
            && Find(s.conditions, Progressing) ==
               Some(Condition(Progressing, Unknown, env.now, "BackupInProgress", ""))
            && SameTimes(s, o.status.(started := Some(o.status.started.GetOr(env.now)), completed := Some(env.now)))
  {
    RunLeaves(o.status, env.createOk, env.now);
  }

  // ---- Scheduled backups ------------------------------------------------------------------

  /** What a reconcile needs, apart from a due slot, to create a scheduled backup. */
  predicate CanServe(e: Env) {
    !e.suspended && e.server == Found && e.createOk
  }

  /** The status that this reconcile writes last reaches the API server. */
  predicate Lands(e: Env) {
    e.lastWrite && e.version.None? && !e.retires
  }

  /** Whether a reconcile records a firing: it creates a backup and its status lands. */
  predicate Fires(next: int -> int, o: Object, e: Env) {
    o.life == Held && Due(next, o.status.lastSchedule, e.now) && CanServe(e) && Lands(e)
  }

  /** A reconcile that did not fail leaves no slot due exactly if none was due before, or it could
      create the backup and the schedule has a later instant.  Suspend, a missing MCPServer and a
      failed creation all leave the slot due without failing. */
  lemma NoSlotStaysDueIff(next: int -> int, o: Object, read: Object, env: Env)
    requires (env.version.None? ==> read == o) && (read.life == Gone ==> o.life == Gone)
    requires !Reconciled(Cron(next), o, read, env).failed
    ensures !Due(next, Reconciled(Cron(next), o, read, env).stored.status.lastSchedule, env.now) <==>
              || !Due(next, o.status.lastSchedule, env.now)
              || (o.life == Held && CanServe(env) && env.now < next(env.now))
  {
  }

  /** A first backup that cannot be created: the reconcile succeeds and the slot is still due. */
  lemma FailedCreationLeavesSlotDue(next: int -> int, s: BackupStatus, now: int)
    requires s.lastSchedule.None?
    ensures var o := Object(Held, s);
            var r := Reconciled(Cron(next), o, o, Env(now, false, Found, false, true, false, true, true, None));
            !r.failed && r.creations == 0 && r.stored.status.phase == Failed &&
            Due(next, r.stored.status.lastSchedule, now)
  {
  }

  /** `next` yields the first of a fixed set of instants strictly after a time, as it does for the five
      fields of a cron expression. */
  ghost predicate Enumerates(next: int -> int, instant: int -> bool) {
    && (forall t :: t < next(t) && instant(next(t)))
    && (forall t, u :: t < u < next(t) ==> !instant(u))
  }

  /** A reconcile creates a backup exactly if it can and, in the version it reads, some instant has come
      since the last recorded firing. */
  lemma FiresExactlyWhenAnInstantPassed(next: int -> int, instant: int -> bool, o: Object, read: Object, env: Env)
    requires Enumerates(next, instant)
    ensures Reconciled(Cron(next), o, read, env).creations == 1 <==>
              read.life == Held && CanServe(env) &&
              var last := read.status.lastSchedule;
              last.None? || exists u :: last.value < u <= env.now && instant(u)
  {
    if read.status.lastSchedule.Some? {
      var first := next(read.status.lastSchedule.value);
      assert read.status.lastSchedule.value < first && instant(first);
    }
  }

  /** The schedule "@every d" has no fixed instants: the next one is d after the last whole second. */
  function Every(d: int): int -> int {
    t => Whole(t) + d
  }

  /** With such a schedule a reconcile creates a backup exactly if it can and d has passed, counted in
      whole seconds, since the last firing in the version it reads. */
  lemma FiresExactlyWhenDelayPassed(d: int, o: Object, read: Object, env: Env)
    requires d % SECOND == 0
    ensures Reconciled(Cron(Every(d)), o, read, env).creations == 1 <==>
              read.life == Held && CanServe(env) &&
              var last := read.status.lastSchedule;
              last.None? || Whole(env.now) - Whole(last.value) >= d
  {
  }

  /** The API server keeps the time of the last firing in whole seconds.  That changes nothing, since all
      instants are whole seconds and delays are counted from them. */
  lemma CutTimesAreEnough(next: int -> int, instant: int -> bool, d: int, last: int, now: int)
    requires Enumerates(next, instant) && forall t :: instant(t) ==> t % SECOND == 0
    ensures Due(next, Some(last), now) <==> Due(next, Some(Whole(last)), now)
    ensures Due(Every(d), Some(last), now) <==> Due(Every(d), Some(Whole(last)), now)
  {
    var first := next(Whole(last));
    assert instant(first) && Whole(last) < first;
    assert last < first;
    assert !(last < next(last) < first) by {
      assert instant(next(last));
    }
    assert !(last < first < next(last));
  }

  /** The times of the firings of a run. */
  function Firings(next: int -> int, o: Object, envs: seq<Env>): seq<int> {
    if envs == [] then []
    else
      var n := |envs| - 1;
      Firings(next, o, envs[..n]) +
      if Fires(next, After(Cron(next), o, envs[..n]), envs[n]) then [envs[n].now] else []
  }

  /** The same, after the last one that was recorded before the run. */
  function Recorded(next: int -> int, o: Object, envs: seq<Env>): seq<int> {
    (if o.status.lastSchedule.Some? then [o.status.lastSchedule.value] else []) + Firings(next, o, envs)
  }

  /** Whatever version a reconcile reads, only a firing moves the recorded time, and it creates by the
      version it reads. */
  lemma ScheduledStep(next: int -> int, o: Object, read: Object, e: Env)
    requires e.version.None? ==> read == o
    ensures var r := Reconciled(Cron(next), o, read, e);
            && r.stored.status.lastSchedule == (if Fires(next, o, e) then Some(e.now) else o.status.lastSchedule)
            && r.creations == (if read.life == Held && Due(next, read.status.lastSchedule, e.now) && CanServe(e)
                               then 1 else 0)
  {
  }

  lemma LastStep(next: int -> int, o: Object, envs: seq<Env>)
    requires envs != []
    ensures var n := |envs| - 1;
            var before := After(Cron(next), o, envs[..n]);
            && After(Cron(next), o, envs).status.lastSchedule ==
               (if Fires(next, before, envs[n]) then Some(envs[n].now) else before.status.lastSchedule)
            && Creations(Cron(next), o, envs) <= Creations(Cron(next), o, envs[..n]) + 1
            && (Lands(envs[n]) || Fires(next, before, envs[n]) ==>
                  Creations(Cron(next), o, envs) ==
                  Creations(Cron(next), o, envs[..n]) + if Fires(next, before, envs[n]) then 1 else 0)
  {
    var n := |envs| - 1;
    ScheduledStep(next, After(Cron(next), o, envs[..n]), After(Cron(next), o, envs[..ReadAt(envs)]), envs[n]);
  }

  lemma {:induction false} LastScheduleIsLastRecorded(next: int -> int, o: Object, envs: seq<Env>)
    ensures var r := Recorded(next, o, envs);
            After(Cron(next), o, envs).status.lastSchedule == if r == [] then None else Some(r[|r| - 1])
  {
    if envs == [] {
    } else {
      LastScheduleIsLastRecorded(next, o, envs[..|envs| - 1]);
      LastStep(next, o, envs);
    }
  }

  ghost predicate InstantBetween(next: int -> int, f: seq<int>) {
    forall i, j :: 0 <= i < |f| && j == i + 1 && j < |f| ==> f[i] < next(f[i]) <= f[j]
  }

  lemma RecordedGrows(next: int -> int, o: Object, envs: seq<Env>)
    requires envs != []
    ensures var n := |envs| - 1;
            Recorded(next, o, envs) == Recorded(next, o, envs[..n]) +
            if Fires(next, After(Cron(next), o, envs[..n]), envs[n]) then [envs[n].now] else []
  {
  }

  /** Between two firings in a row there is a schedule instant, however the run went, whichever versions
      its reconciles read, and whatever was recorded before it. */
  lemma {:induction false} FiringsAreSeparated(next: int -> int, o: Object, envs: seq<Env>)
    requires forall t :: t < next(t)
    ensures InstantBetween(next, Recorded(next, o, envs))
  {
    if envs == [] {
    } else {
      var n := |envs| - 1;
      FiringsAreSeparated(next, o, envs[..n]);
      LastScheduleIsLastRecorded(next, o, envs[..n]);
      RecordedGrows(next, o, envs);
    }
  }

  /** The number of schedule instants in the half-open interval (lo, hi]. */
  function InstantsIn(instant: int -> bool, lo: int, hi: int): (n: nat)
    decreases if lo < hi then hi - lo else 0
  {
    if hi <= lo then 0 else InstantsIn(instant, lo, hi - 1) + if instant(hi) then 1 else 0
  }

  lemma {:induction false} InstantsAreCounted(instant: int -> bool, lo: int, hi: int)
    ensures InstantsIn(instant, lo, hi) == |set t: int | lo < t <= hi && instant(t)|
    decreases if lo < hi then hi - lo else 0
  {
    var all := set t: int | lo < t <= hi && instant(t);
    if hi <= lo {
      assert all == {};
    } else {
      InstantsAreCounted(instant, lo, hi - 1);
      var earlier := set t: int | lo < t <= hi - 1 && instant(t);
      assert all == earlier + if instant(hi) then {hi} else {};
    }
  }

  lemma {:induction false} InstantsAddUp(instant: int -> bool, lo: int, mid: int, hi: int)
    requires lo <= mid <= hi
    ensures InstantsIn(instant, lo, hi) == InstantsIn(instant, lo, mid) + InstantsIn(instant, mid, hi)
    decreases hi - mid
  {
    if mid == hi {
    } else {
      InstantsAddUp(instant, lo, mid, hi - 1);
    }
  }

  lemma OneInstantCounts(instant: int -> bool, lo: int, at: int, hi: int)
    requires lo < at <= hi && instant(at)
    ensures InstantsIn(instant, lo, hi) >= 1
  {
    InstantsAddUp(instant, lo, at, hi);
  }

  lemma {:induction false} SeparatedFitInstants(next: int -> int, instant: int -> bool, f: seq<int>)
    requires Enumerates(next, instant) && InstantBetween(next, f) && f != []
    ensures f[0] <= f[|f| - 1]
    ensures |f| - 1 <= InstantsIn(instant, f[0], f[|f| - 1])
  {
    if |f| == 1 {
    } else {
      var n := |f| - 1;
      SeparatedFitInstants(next, instant, f[..n]);
      assert InstantBetween(next, f) && f[n - 1] < next(f[n - 1]) <= f[n];
      OneInstantCounts(instant, f[n - 1], next(f[n - 1]), f[n]);
      InstantsAddUp(instant, f[0], f[n - 1], f[n]);
    }
  }

  /** Over any run, no more firings than instants since the first recorded one: missed slots
      coalesce. */
  lemma FiringsAreBounded(next: int -> int, instant: int -> bool, o: Object, envs: seq<Env>)
    requires Enumerates(next, instant) && Recorded(next, o, envs) != []
    ensures var r := Recorded(next, o, envs);
            |r| - 1 <= InstantsIn(instant, r[0], r[|r| - 1])
  {
    FiringsAreSeparated(next, o, envs);
    SeparatedFitInstants(next, instant, Recorded(next, o, envs));
  }

  ghost predicate Apart(f: seq<int>, d: int) {
    forall i, j :: 0 <= i < |f| && j == i + 1 && j < |f| ==> f[j] - f[i] >= d
  }

  lemma {:induction false} GapsAddUp(f: seq<int>, d: int)
    requires Apart(f, d) && f != []
    ensures (|f| - 1) * d <= f[|f| - 1] - f[0]
  {
    if |f| == 1 {
    } else {
      var g := f[..|f| - 1];
      GapsAddUp(g, d);
      assert (|g| - 1) * d + d == (|f| - 1) * d;
    }
  }

  function WholeSecondsOf(f: seq<int>): seq<int> {
    seq(|f|, i requires 0 <= i < |f| => Whole(f[i]))
  }

  lemma WholeKeepsOrder(t: int, now: int)
    requires t % SECOND == 0 && t <= now
    ensures t <= Whole(now)
  {
  }

  lemma DelaysKeepApart(d: int, f: seq<int>)
    requires d % SECOND == 0 && InstantBetween(Every(d), f)
    ensures Apart(WholeSecondsOf(f), d)
  {
    forall i, j | 0 <= i < |f| && j == i + 1 && j < |f|
      ensures Whole(f[j]) - Whole(f[i]) >= d
    {
      assert Every(d)(f[i]) <= f[j];
      WholeKeepsOrder(Whole(f[i]) + d, f[j]);
    }
  }

  /** With "@every d" the firings of any run fit the elapsed time at one per d. */
  lemma DelayedFiringsAreBounded(d: int, o: Object, envs: seq<Env>)
    requires d >= SECOND && d % SECOND == 0 && Recorded(Every(d), o, envs) != []
    ensures var r := Recorded(Every(d), o, envs);
            (|r| - 1) * d <= Whole(r[|r| - 1]) - Whole(r[0])
  {
    FiringsAreSeparated(Every(d), o, envs);
    var r := Recorded(Every(d), o, envs);
    DelaysKeepApart(d, r);
    GapsAddUp(WholeSecondsOf(r), d);
  }

  /** How many reconciles of the run leave no status behind. */
  function Unlanded(envs: seq<Env>): nat {
    if envs == [] then 0
    else Unlanded(envs[..|envs| - 1]) + if Lands(envs[|envs| - 1]) then 0 else 1
  }

  ghost function UnlandedAt(envs: seq<Env>): set<nat> {
    set i: nat | i < |envs| && !(envs[i].lastWrite && envs[i].version.None? && !envs[i].retires)
  }

  lemma UnlandedGrow(envs: seq<Env>, e: Env)
    ensures |UnlandedAt(envs + [e])| == |UnlandedAt(envs)| + if Lands(e) then 0 else 1
  {
    var more := envs + [e];
    assert forall i :: 0 <= i < |envs| ==> more[i] == envs[i];
    assert UnlandedAt(more) == UnlandedAt(envs) + if Lands(e) then {} else {|envs|};
  }

  lemma {:induction false} UnlandedAreCounted(envs: seq<Env>)
    ensures Unlanded(envs) == |UnlandedAt(envs)|
  {
    if envs == [] {
    } else {
      var n := |envs| - 1;
      UnlandedAreCounted(envs[..n]);
      UnlandedGrow(envs[..n], envs[n]);
      assert envs[..n] + [envs[n]] == envs;
    }
  }

  lemma {:induction false} UnrecordedCreations(next: int -> int, o: Object, envs: seq<Env>)
    ensures |Firings(next, o, envs)| <= Creations(Cron(next), o, envs)
            <= |Firings(next, o, envs)| + Unlanded(envs)
  {
    if envs == [] {
    } else {
      var n := |envs| - 1;
      UnrecordedCreations(next, o, envs[..n]);
      LastStep(next, o, envs);
    }
  }

  /** Backups may be created that no status records, but only one for each status that does not land: it
      is refused, or written over a lagging read, or the firing deletes its own backup.  Otherwise the
      run creates no more than there were instants, and one if none was recorded. */
  lemma CreationsAreBounded(next: int -> int, instant: int -> bool, o: Object, envs: seq<Env>)
    requires Enumerates(next, instant)
    ensures var r := Recorded(next, o, envs);
            var instants := if r == [] then 0 else InstantsIn(instant, r[0], r[|r| - 1]);
            Creations(Cron(next), o, envs) <=
            instants + Unlanded(envs) + if o.status.lastSchedule.None? then 1 else 0
  {
    UnrecordedCreations(next, o, envs);
    if Recorded(next, o, envs) != [] {
      FiringsAreBounded(next, instant, o, envs);
    }
  }

  /** The reconciles that could create a backup and record it. */
  function Chances(envs: seq<Env>): seq<int> {
    if envs == [] then []
    else
      var e := envs[|envs| - 1];
      Chances(envs[..|envs| - 1]) + if CanServe(e) && Lands(e) then [e.now] else []
  }

  lemma HeldStep(next: int -> int, o: Object, read: Object, e: Env)
    requires o.life == Held && !e.retires && (e.version.None? ==> read == o)
    ensures Reconciled(Cron(next), o, read, e).stored.life == Held
  {
  }

  lemma {:induction false} StaysUnlessRetired(next: int -> int, o: Object, envs: seq<Env>)
    requires o.life == Held && forall e :: e in envs ==> !e.retires
    ensures After(Cron(next), o, envs).life == Held
  {
    if envs == [] {
    } else {
      var n := |envs| - 1;
      StaysUnlessRetired(next, o, envs[..n]);
      HeldStep(next, After(Cron(next), o, envs[..n]), After(Cron(next), o, envs[..ReadAt(envs)]), envs[n]);
    }
  }

  /** An expression that never matches, such as the 30th of February, is not an error: the library's
      zero time is in the past, so every reconcile that can creates a backup. */
  lemma {:induction false} NeverMatchingAlwaysFires(next: int -> int, zero: int, o: Object, envs: seq<Env>)
    requires forall t :: next(t) == zero
    requires o.life == Held && forall e :: e in envs ==> zero <= e.now && !e.retires
    ensures Firings(next, o, envs) == Chances(envs)
  {
    if envs == [] {
    } else {
      var n := |envs| - 1;
      NeverMatchingAlwaysFires(next, zero, o, envs[..n]);
      StaysUnlessRetired(next, o, envs[..n]);
      assert envs[n] in envs;
    }
  }

  lemma {:induction false} NothingFiresOnceMarked(next: int -> int, o: Object, envs: seq<Env>)
    requires o.life in {Marked, Gone}
    ensures After(Cron(next), o, envs).life in {Marked, Gone}
    ensures Firings(next, o, envs) == [] && Creations(Cron(next), o, envs) == 0
    decreases |envs|
  {
    if envs == [] {
    } else {
      var n := |envs| - 1;
      NothingFiresOnceMarked(next, o, envs[..n]);
      NothingFiresOnceMarked(next, o, envs[..ReadAt(envs)]);
    }
  }

  /** A firing whose retention run deletes its own backup, which `Retention.OwnBackupGoesIff` says when,
      is the last one and is not recorded: the mark makes its status write a conflict, and whoever reads
      the mark creates nothing any more. */
  lemma RetiringFiringIsTheLast(next: int -> int, o: Object, e: Env, envs: seq<Env>)
    requires o.life == Held && Due(next, o.status.lastSchedule, e.now) && CanServe(e)
    requires e.retires && e.version.None?
    ensures var r := Reconciled(Cron(next), o, o, e);
            && r.creations == 1 && r.failed && r.stored == Object(Marked, o.status)
            && Firings(next, r.stored, envs) == [] && Creations(Cron(next), r.stored, envs) == 0
  {
    NothingFiresOnceMarked(next, Reconciled(Cron(next), o, o, e).stored, envs);
  }

  /** A reconcile at once after a firing that still reads the version before it: a second backup for the
      same slot, of which nothing is recorded. */
  lemma LaggingReadCreatesAgain(next: int -> int, s: BackupStatus, t: int)
    requires s.lastSchedule.None?
    ensures var envs := [Env(t, false, Found, true, true, false, true, true, None),
                         Env(t, false, Found, true, true, false, true, true, Some(0))];
            Creations(Cron(next), Object(Held, s), envs) == 2 && Firings(next, Object(Held, s), envs) == [t]
  {
    var first, lagging := Env(t, false, Found, true, true, false, true, true, None),
                          Env(t, false, Found, true, true, false, true, true, Some(0));
    var o := Object(Held, s);
    assert [first, lagging][..1] == [first] && [first][..0] == [] == [first, lagging][..0];
    assert Creations(Cron(next), o, [first]) == 1 && Firings(next, o, [first]) == [t];
    assert ReadAt([first, lagging]) == 0;
    ScheduledStep(next, After(Cron(next), o, [first]), o, lagging);
  }

  // ---- One-time backups -------------------------------------------------------------------

  /** A reconcile that takes a completed one-time backup out of phase Completed. */
  predicate Demotes(env: Env) {
    env.lastWrite && env.version.None? && (env.suspended || env.server == Missing)
  }

  /** A reconcile that creates a one-time backup if the backup is not completed. */
  predicate CanCreate(env: Env) {
    !env.suspended && env.server == Found && env.firstWrite && env.version.None? && env.createOk
  }

  ghost predicate DemotedThenCreated(envs: seq<Env>) {
    exists i, j :: 0 <= i < j < |envs| && Demotes(envs[i]) && CanCreate(envs[j])
  }

  ghost predicate SomeDemotion(envs: seq<Env>) {
    exists i :: 0 <= i < |envs| && Demotes(envs[i])
  }

  lemma OneTimeStep(o: Object, read: Object, env: Env)
    requires o.life == Held && read.life == Held && (env.version.None? ==> read == o)
    ensures var r := Reconciled(OneTime, o, read, env);
            && r.stored.life == Held
            && (r.creations > 0 <==> o.status.phase != Completed && CanCreate(env))
            && (o.status.phase == Completed ==> (r.stored.status.phase == Completed <==> !Demotes(env)))
            && (o.status.phase != Completed && r.creations == 0 ==> r.stored.status.phase != Completed)
  {
  }

  lemma OneMoreStep(envs: seq<Env>)
    requires envs != []
    ensures var before, last := envs[..|envs| - 1], envs[|envs| - 1];
            && (SomeDemotion(envs) <==> SomeDemotion(before) || Demotes(last))
            && (DemotedThenCreated(envs) <==> DemotedThenCreated(before) || (SomeDemotion(before) && CanCreate(last)))
  {
  }

  lemma {:induction false} StaysHeld(o: Object, envs: seq<Env>)
    requires o.life == Held
    ensures After(OneTime, o, envs).life == Held
    decreases |envs|
  {
    if envs == [] {
    } else {
      var n := |envs| - 1;
      StaysHeld(o, envs[..n]);
      StaysHeld(o, envs[..ReadAt(envs)]);
      OneTimeStep(After(OneTime, o, envs[..n]), After(OneTime, o, envs[..ReadAt(envs)]), envs[n]);
    }
  }

  /** A completed one-time backup is created again along a run if and only if some reconcile
      first demotes it (Suspend, or the MCPServer is missing) and a later one can create; reconciles
      that read an older version do neither. */
  lemma {:induction false} CompletedIsRecreatedIff(o: Object, envs: seq<Env>)
    requires o.life == Held && o.status.phase == Completed
    ensures Creations(OneTime, o, envs) > 0 <==> DemotedThenCreated(envs)
    ensures Creations(OneTime, o, envs) == 0 ==>
              (After(OneTime, o, envs).status.phase != Completed <==> SomeDemotion(envs))
  {
    if envs == [] {
    } else {
      var n := |envs| - 1;
      CompletedIsRecreatedIff(o, envs[..n]);
      StaysHeld(o, envs[..n]);
      StaysHeld(o, envs[..ReadAt(envs)]);
      OneTimeStep(After(OneTime, o, envs[..n]), After(OneTime, o, envs[..ReadAt(envs)]), envs[n]);
      OneMoreStep(envs);
    }
  }

  /** A completed backup is created twice if its MCPServer disappears and comes back. */
  lemma RecreatedAfterServerReturns(o: Object, t: int)
    requires o.life == Held && o.status.phase == Completed
    ensures Creations(OneTime, o, [Env(t, false, Missing, true, true, false, true, true, None),
                                   Env(t + 1, false, Found, true, true, false, true, true, None)]) > 0
  {
    var gone, back := Env(t, false, Missing, true, true, false, true, true, None),
                      Env(t + 1, false, Found, true, true, false, true, true, None);
    var envs := [gone, back];
    assert Demotes(envs[0]) && CanCreate(envs[1]);
    assert DemotedThenCreated(envs);
    CompletedIsRecreatedIff(o, envs);
  }
}
