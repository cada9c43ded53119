/**
 The failure tracker of pkg/services/auto_update_service.go: 64-bit backoff arithmetic, the
 tracker map, and CheckForUpdates over any listing and any outcomes.  The specification is the
 log of what happened to each server.
 */
module FailureTracker {
  import opened Int64
  import opened Wrappers

  // ---- 64-bit arithmetic ------------------------------------------------------------------

  const MINUTE := 60_000_000_000

  function Pow2(n: nat): nat {
    if n == 0 then 1 else 2 * Pow2(n - 1)
  }

  /** 1 << uint(k): a negative count becomes a huge unsigned one, and a count of 64 or more
      shifts everything out. */
  function ShiftOne(k: int): int {
    if 0 <= k < 64 then Wrap(Pow2(k)) else 0
  }

  /** calculateBackoffDuration, in nanoseconds. */
  function BackoffDuration(failureCount: int): int {
    var minutes := ShiftOne(failureCount - 1);
    Wrap((if minutes > 1440 then 1440 else minutes) * MINUTE)
  }

  lemma {:induction false} Pow2Adds(a: nat, b: nat)
    ensures Pow2(a + b) == Pow2(a) * Pow2(b)
  {
    if a == 0 {
    } else {
      Pow2Adds(a - 1, b);
      assert Pow2(a + b) == 2 * Pow2(a - 1 + b);
    }
  }

  lemma {:induction false} Pow2Grows(a: nat, b: nat)
    requires a <= b
    ensures 1 <= Pow2(a) <= Pow2(b)
  {
    if a < b {
      Pow2Grows(a, b - 1);
    } else if a > 0 {
      Pow2Grows(a - 1, b - 1);
    }
  }

  lemma Pow2Of63()
    ensures Pow2(11) == 2048 && Pow2(62) == 0x4000_0000_0000_0000 && Pow2(63) == TWO_TO_63
  {
    assert Pow2(4) == 16 && Pow2(7) == 128;
    Pow2Adds(4, 7);
    Pow2Adds(7, 7);
    Pow2Adds(14, 14);
    Pow2Adds(28, 28);
    assert Pow2(6) == 64;
    Pow2Adds(56, 6);
  }

  /** Doubling up to a day for 63 failures, and then no backoff at all: from the 64th failure on
      the shifted bit has left the register. */
  lemma BackoffByCount(n: int)
    ensures 1 <= n <= 63 ==>
              BackoffDuration(n) == (if Pow2(n - 1) > 1440 then 1440 else Pow2(n - 1)) * MINUTE > 0
    ensures BackoffDuration(n) == 0 <==> n < 1 || n >= 64
  {
    Pow2Of63();
    if 1 <= n <= 63 {
      Pow2Grows(n - 1, 62);
    } else if n == 64 {
      assert ShiftOne(63) == -TWO_TO_63;
      assert -TWO_TO_63 * MINUTE + TWO_TO_63 == -30_000_000_000 * TWO_TO_64 + TWO_TO_63;
    }
  }

  lemma BackoffNeverShrinksBefore64(m: int, n: int)
    requires 1 <= m <= n <= 63
    ensures BackoffDuration(m) <= BackoffDuration(n)
  {
    BackoffByCount(m);
    BackoffByCount(n);
    Pow2Grows(m - 1, n - 1);
  }

  // ---- The tracker ------------------------------------------------------------------------

  datatype FailureInfo = FailureInfo(count: int, last: int, nextRetry: int)

  datatype Event = Attempted(key: string, at: int) | FetchFailed(key: string)
                 | Failed(key: string, at: int) | Updated(key: string)

  datatype Log = Start | Then(earlier: Log, event: Event)

  /** Failed updates of a server since its last successful one. */
  function Failures(log: Log, key: string): nat {
    match log
    case Start => 0
    case Then(earlier, Failed(k, _)) => Failures(earlier, key) + if k == key then 1 else 0
    case Then(earlier, Updated(k)) => if k == key then 0 else Failures(earlier, key)
    case Then(earlier, _) => Failures(earlier, key)
  }

  /** The times of the first and the last failure in the current row of failures. */
  function Row(log: Log, key: string): Option<(int, int)> {
    match log
    case Start => None
    case Then(earlier, Failed(k, at)) =>
      if k != key then Row(earlier, key)
      else Some((if Row(earlier, key).Some? then Row(earlier, key).value.0 else at, at))
    case Then(earlier, Updated(k)) => if k == key then None else Row(earlier, key)
    case Then(earlier, _) => Row(earlier, key)
  }

  /** A server is left alone until its backoff after the last failure is over. */
  predicate BackedOff(log: Log, key: string, now: int) {
    var row := Row(log, key);
    row.Some? && now < row.value.1 + BackoffDuration(Failures(log, key))
  }

  /** No attempt of the log came before its time, and failures belong to attempts. */
  ghost predicate Disciplined(log: Log) {
    match log
    case Start => true
    case Then(earlier, Attempted(key, at)) => !BackedOff(earlier, key, at) && Disciplined(earlier)
    case Then(earlier, Failed(key, at)) =>
      Disciplined(earlier) && earlier.Then? && earlier.event.Attempted? &&
      earlier.event.key == key && earlier.event.at <= at
    case Then(earlier, _) => Disciplined(earlier)
  }

  function Updates(log: Log): nat {
    if log.Start? then 0 else Updates(log.earlier) + if log.event.Updated? then 1 else 0
  }

  function Errors(log: Log): nat {
    if log.Start? then 0
    else Errors(log.earlier) + if log.event.Failed? || log.event.FetchFailed? then 1 else 0
  }

  ghost predicate Tracked(tracker: map<string, FailureInfo>, log: Log, key: string) {
    var row, n := Row(log, key), Failures(log, key);
    && (row.Some? <==> n > 0)
    && (key in tracker <==> row.Some?)
    && (key in tracker ==> tracker[key] == FailureInfo(n, row.value.1, row.value.1 + BackoffDuration(n)))
  }

  datatype Need = CannotTell | NotNeeded | Needed

  datatype Update = UpdateFailed | NoChange | UpdateDone

  /** One listed MCPServer and what happens to it: when it is looked at, whether an update is
      needed, what the update does, and when a failure is recorded. */
  datatype Server = Server(key: string, hasRegistry: bool, lookedAt: int, need: Need, update: Update, failedAt: int)

  function Visit(log: Log, s: Server): Log {
    if !s.hasRegistry || BackedOff(log, s.key, s.lookedAt) then log
    else
      var log := Then(log, Attempted(s.key, s.lookedAt));
      if s.need == CannotTell then Then(log, FetchFailed(s.key))
      else if s.need == NotNeeded || s.update == NoChange then log
      else if s.update == UpdateFailed then Then(log, Failed(s.key, s.failedAt))
      else Then(log, Updated(s.key))
  }

  function VisitAll(log: Log, servers: seq<Server>): Log {
    if servers == [] then log else Visit(VisitAll(log, servers[..|servers| - 1]), servers[|servers| - 1])
  }

  class AutoUpdateService {
    var failureTracker: map<string, FailureInfo>
    ghost var log: Log

    ghost predicate Valid()
      reads this
    {
      Disciplined(log) && forall key: string :: Tracked(failureTracker, log, key)
    }

    constructor ()
      ensures Valid() && log == Start && failureTracker == map[]
    {
      failureTracker, log := map[], Start;
    }

    ghost method Note(e: Event)
      requires Valid() && (e.FetchFailed? || (e.Attempted? && !BackedOff(log, e.key, e.at)))
      modifies this`log
      ensures Valid() && log == Then(old(log), e)
    {
      assert forall key: string :: Tracked(failureTracker, Then(log, e), key) == Tracked(failureTracker, log, key);
      log := Then(log, e);
    }

    method IsInBackoffPeriod(key: string, now: int) returns (waiting: bool)
      requires Valid()
      ensures waiting == BackedOff(log, key, now)
    {
      assert Tracked(failureTracker, log, key);
      if key !in failureTracker {
        return false;
      }
      waiting := now < failureTracker[key].nextRetry;
    }

    method RecordFailure(key: string, now: int)
      requires Valid() && log.Then? && log.event.Attempted? && log.event.key == key && log.event.at <= now
      modifies this
      ensures Valid() && log == Then(old(log), Failed(key, now))
    {
      ghost var before := failureTracker;
      assert Tracked(before, log, key);
      if key in failureTracker {
        var info := failureTracker[key];
        info := info.(count := info.count + 1);
        info := info.(last := now);
        info := info.(nextRetry := now + BackoffDuration(info.count));
        failureTracker := failureTracker[key := info];
      } else {
        failureTracker := failureTracker[key := FailureInfo(1, now, now + BackoffDuration(1))];
      }
      forall k: string
        ensures Tracked(failureTracker, Then(log, Failed(key, now)), k)
      {
        assert Tracked(before, log, k);
      }
      log := Then(log, Failed(key, now));
    }

    method RecordSuccess(key: string)
      requires Valid()
      modifies this
      ensures Valid() && log == Then(old(log), Updated(key))
    {
      ghost var before := failureTracker;
      failureTracker := failureTracker - {key};
      forall k: string
        ensures Tracked(failureTracker, Then(log, Updated(key)), k)
      {
        assert Tracked(before, log, k);
      }
      log := Then(log, Updated(key));
    }

    /** Every tick keeps FailureCount, LastFailureTime and NextRetryTime of every server equal to
        what the log says, and attempts nobody before NextRetryTime. */
    method CheckForUpdates(servers: seq<Server>) returns (updated: nat, errors: nat)
      requires Valid()
      requires forall i :: 0 <= i < |servers| ==> servers[i].lookedAt <= servers[i].failedAt
      modifies this
      ensures Valid()
      ensures log == VisitAll(old(log), servers)
      ensures Updates(log) == Updates(old(log)) + updated
      ensures Errors(log) == Errors(old(log)) + errors
    {
      updated, errors := 0, 0;
      for i := 0 to |servers|
        invariant Valid()
        invariant log == VisitAll(old(log), servers[..i])
        invariant Updates(log) == Updates(old(log)) + updated
        invariant Errors(log) == Errors(old(log)) + errors
      {
        assert servers[..i + 1][..i] == servers[..i];
        var s := servers[i];
        if !s.hasRegistry {
          continue;
        }
        var waiting := IsInBackoffPeriod(s.key, s.lookedAt);
        if waiting {
          continue;
        }
        Note(Attempted(s.key, s.lookedAt));
        if s.need == CannotTell {
          Note(FetchFailed(s.key));
          errors := errors + 1;
          continue;
        }
        if s.need == NotNeeded {
          continue;
        }
        match s.update
        case UpdateFailed =>
          RecordFailure(s.key, s.failedAt);
          errors := errors + 1;
        case UpdateDone =>
          RecordSuccess(s.key);
          updated := updated + 1;
        case NoChange =>
      }
      assert servers[..|servers|] == servers;
    }
  }

  // ---- What the discipline means over a run ----------------------------------------------

  /** The backoff that n failures in a row have waited out before the last of them. */
  function WaitedOut(n: nat): int {
    if n <= 1 then 0 else WaitedOut(n - 1) + BackoffDuration(n - 1)
  }

  lemma {:induction false} RowsAndCounts(log: Log, key: string)
    ensures Row(log, key).Some? <==> Failures(log, key) > 0
  {
    if log.Start? {
    } else {
      RowsAndCounts(log.earlier, key);
    }
  }

  /** Failures in a row are spread out over at least the sum of their backoffs. */
  lemma {:induction false} FailuresAreSpreadOut(log: Log, key: string)
    requires Disciplined(log) && Row(log, key).Some?
    ensures var (first, last) := Row(log, key).value;
            last - first >= WaitedOut(Failures(log, key))
  {
    var earlier := log.earlier;
    RowsAndCounts(earlier, key);
    if log.event.Failed? && log.event.key == key && Row(earlier, key).Some? {
      FailuresAreSpreadOut(earlier, key);
      assert !BackedOff(earlier.earlier, key, earlier.event.at);
      assert Row(earlier, key) == Row(earlier.earlier, key) && Failures(earlier, key) == Failures(earlier.earlier, key);
    } else if Row(earlier, key).Some? {
      FailuresAreSpreadOut(earlier, key);
    }
  }

  /** The backoff in minutes, with its three regimes. */
  function BackoffMinutes(n: nat): nat {
    if n == 0 || n >= 64 then 0 else if n >= 12 then 1440 else Pow2(n - 1)
  }

  lemma BackoffInMinutes(n: nat)
    ensures BackoffDuration(n) == BackoffMinutes(n) * MINUTE
  {
    BackoffByCount(n);
    Pow2Of63();
    if 1 <= n <= 11 {
      Pow2Grows(n - 1, 10);
      assert Pow2(11) == 2 * Pow2(10);
    } else if 12 <= n <= 63 {
      Pow2Grows(11, n - 1);
    }
  }

  function MinutesWaited(n: nat): nat {
    if n <= 1 then 0 else MinutesWaited(n - 1) + BackoffMinutes(n - 1)
  }

  lemma {:induction false} MinutesAddUp(n: nat)
    ensures WaitedOut(n) == MinutesWaited(n) * MINUTE
  {
    if n <= 1 {
    } else {
      MinutesAddUp(n - 1);
      BackoffInMinutes(n - 1);
    }
  }

  lemma {:induction false} MinutesInClosedForm(n: nat)
    requires n >= 1
    ensures n <= 12 ==> MinutesWaited(n) == Pow2(n - 1) - 1
    ensures 12 <= n <= 64 ==> MinutesWaited(n) == 2047 + (n - 12) * 1440
    ensures n >= 64 ==> MinutesWaited(n) == 2047 + 52 * 1440
  {
    if n == 1 {
    } else {
      MinutesInClosedForm(n - 1);
      if n == 12 {
        Pow2Of63();
      }
    }
  }

  /** That sum, in minutes: 2^(n-1) - 1 for up to twelve failures, then a day for each further one,
      and nothing more from the 64th on. */
  lemma WaitedOutInMinutes(n: nat)
    requires n >= 1
    ensures n <= 12 ==> WaitedOut(n) == (Pow2(n - 1) - 1) * MINUTE
    ensures 12 <= n <= 64 ==> WaitedOut(n) == (2047 + (n - 12) * 1440) * MINUTE
    ensures n >= 64 ==> WaitedOut(n) == (2047 + 52 * 1440) * MINUTE
  {
    MinutesAddUp(n);
    MinutesInClosedForm(n);
  }

  /** The waiting that is due at a time, in the tracker's own terms. */
  predicate Waits(log: Log, key: string, now: int) {
    var row := Row(log, key);
    row.Some? && now < row.value.1 + BackoffMinutes(Failures(log, key)) * MINUTE
  }

  /** A failed update is recorded: one more failure in the row, which ends at this moment. */
  lemma FailedUpdateIsRecorded(log: Log, s: Server)
    requires s.hasRegistry && !Waits(log, s.key, s.lookedAt) && s.need == Needed && s.update == UpdateFailed
    ensures var after, row := Visit(log, s), Row(log, s.key);
            && after == Then(Then(log, Attempted(s.key, s.lookedAt)), Failed(s.key, s.failedAt))
            && Failures(after, s.key) == Failures(log, s.key) + 1
            && Row(after, s.key) == Some((if row.Some? then row.value.0 else s.failedAt, s.failedAt))
            && Errors(after) == Errors(log) + 1 && Updates(after) == Updates(log)
  {
    BackoffInMinutes(Failures(log, s.key));
  }

  /** A done update ends the row. */
  lemma DoneUpdateEndsTheRow(log: Log, s: Server)
    requires s.hasRegistry && !Waits(log, s.key, s.lookedAt) && s.need == Needed && s.update == UpdateDone
    ensures var after := Visit(log, s);
            && Failures(after, s.key) == 0 && Row(after, s.key) == None
            && Errors(after) == Errors(log) && Updates(after) == Updates(log) + 1
  {
    BackoffInMinutes(Failures(log, s.key));
  }

  /** Every other visit leaves the row alone; only a need that cannot be told counts as an error. */
  lemma OtherVisitsRecordNothing(log: Log, s: Server)
    requires !s.hasRegistry || Waits(log, s.key, s.lookedAt) || s.need != Needed || s.update == NoChange
    ensures var after := Visit(log, s);
            && Failures(after, s.key) == Failures(log, s.key) && Row(after, s.key) == Row(log, s.key)
            && Updates(after) == Updates(log)
            && Errors(after) == Errors(log) + if s.hasRegistry && !Waits(log, s.key, s.lookedAt) && s.need == CannotTell
                                              then 1 else 0
  {
    BackoffInMinutes(Failures(log, s.key));
  }

  /** A tick visits the listed servers one after the other. */
  lemma ServersAreVisitedInOrder(log: Log, before: seq<Server>, s: Server)
    ensures VisitAll(log, []) == log
    ensures VisitAll(log, before + [s]) == Visit(VisitAll(log, before), s)
  {
    assert (before + [s])[..|before|] == before;
  }

  /** A visit says nothing about any other server. */
  lemma VisitsAreSeparate(log: Log, s: Server, other: string)
    requires other != s.key
    ensures Failures(Visit(log, s), other) == Failures(log, other) && Row(Visit(log, s), other) == Row(log, other)
  {
  }

  /** From the 64th failure on nothing holds the service back: the next tick tries again. */
  lemma NoBackoffAfter64(log: Log, key: string, now: int)
    requires Failures(log, key) >= 64 && Row(log, key).Some? && Row(log, key).value.1 <= now
    ensures !BackedOff(log, key, now)
  {
    BackoffByCount(Failures(log, key));
  }
}
