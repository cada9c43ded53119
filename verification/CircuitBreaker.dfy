/**
 The circuit breaker of pkg/circuitbreaker.  The class follows the source: three states,
 a failure counter, a request counter and the time of the last failure, with `Call` holding
 the lock while the protected function runs.  The specification is smaller: because nothing
 can be observed while the lock is held, a breaker at rest is a two-state machine (`Rest`),
 and that machine is in turn determined by the list of recent failure times (`Failures`).
 */
module CircuitBreaker {

  datatype State = Closed | Open | HalfOpen

  datatype Config = Config(maxFailures: int, timeout: int, maxRequests: int) {
    function WithDefaults(): Config {
      Config(if maxFailures == 0 then 5 else maxFailures,
             if timeout == 0 then 60_000_000_000 else timeout,
             if maxRequests == 0 then 1 else maxRequests)
    }

    // The number of consecutive failures that opens the breaker.
    function Threshold(): (n: int)
      ensures n >= 1
    {
      if maxFailures < 1 then 1 else maxFailures
    }
  }

  datatype Error = BreakerOpen | TooManyRequests

  datatype Admission = Admitted | Refused(error: Error)

  datatype Reply = Rejected(error: Error) | Executed(ok: bool)

  datatype StateChange = StateChange(from: State, to: State)

  /** What a breaker is between two calls. */
  datatype Rest = Accepting(streak: nat) | Tripped(streak: nat, since: int)

  /** One use of the breaker; a call reads the clock when it starts and when it fails. */
  datatype Event = Call(start: int, ok: bool, finish: int) | Reset

  const FRESH := Accepting(0)

  predicate CoolingDown(c: Config, r: Rest, now: int) {
    r.Tripped? && now - r.since <= c.timeout
  }

  function ReplyTo(c: Config, r: Rest, start: int, ok: bool): Reply {
    if CoolingDown(c, r, start) then Rejected(BreakerOpen) else Executed(ok)
  }

  function AfterCall(c: Config, r: Rest, start: int, ok: bool, finish: int): Rest {
    if CoolingDown(c, r, start) then r
    else if ok then Accepting(0)
    else if r.streak + 1 >= c.Threshold() then Tripped(r.streak + 1, finish)
    else Accepting(r.streak + 1)
  }

  function Step(c: Config, r: Rest, e: Event): Rest {
    match e
    case Call(start, ok, finish) => AfterCall(c, r, start, ok, finish)
    case Reset => FRESH
  }

  /** The OnStateChange notifications of one call, read off its two ends. */
  function Notifications(before: Rest, reply: Reply, after: Rest): seq<StateChange> {
    if reply.Rejected? || (before.Accepting? && after.Accepting?) then []
    else if before.Accepting? then [StateChange(Closed, Open)]
    else [StateChange(Open, HalfOpen), StateChange(HalfOpen, if after.Tripped? then Open else Closed)]
  }

  predicate LegalEdge(ch: StateChange) {
    ch in {StateChange(Closed, Open), StateChange(Open, HalfOpen),
           StateChange(HalfOpen, Open), StateChange(HalfOpen, Closed),
           StateChange(Open, Closed)}
  }

  /** Notifications join up: each is a legal edge from where the previous one ended, the first
      one starts at Closed, and the last one ends at `last`. */
  ghost predicate Chain(changes: seq<StateChange>, last: State) {
    if changes == [] then last == Closed
    else
      var ch := changes[|changes| - 1];
      LegalEdge(ch) && ch.to == last && Chain(changes[..|changes| - 1], ch.from)
  }

  lemma ChainGrows(changes: seq<StateChange>, from: State, to: State)
    requires Chain(changes, from)
    requires LegalEdge(StateChange(from, to))
    ensures Chain(changes + [StateChange(from, to)], to)
  {
  }

  class CircuitBreaker {
    const config: Config
    var state: State
    var failures: int
    var requests: int
    var lastFailureTime: int
    ghost var changes: seq<StateChange>

    ghost predicate Valid()
      reads this
    {
      && state != HalfOpen
      && requests == 0
      && 0 <= failures
      && (state == Closed <==> failures < config.Threshold())
      && Chain(changes, state)
    }

    ghost function AtRest(): Rest
      reads this
      requires Valid()
    {
      if state == Closed then Accepting(failures) else Tripped(failures, lastFailureTime)
    }

    constructor (config: Config)
      ensures Valid() && AtRest() == FRESH && changes == []
      ensures this.config.maxFailures == if config.maxFailures == 0 then 5 else config.maxFailures
      ensures this.config.timeout == if config.timeout == 0 then 60 * 1_000_000_000 else config.timeout
      ensures this.config.maxRequests == if config.maxRequests == 0 then 1 else config.maxRequests
    {
      this.config := config.WithDefaults();
      state, failures, requests, lastFailureTime := Closed, 0, 0, 0;
      changes := [];
    }

    method SetState(newState: State)
      modifies this`state, this`changes
      ensures old(Chain(changes, state)) && (newState == old(state) || LegalEdge(StateChange(old(state), newState))) ==>
                Chain(changes, state)
      ensures state == newState
      ensures changes == old(changes) +
                         if newState == old(state) then [] else [StateChange(old(state), newState)]
    {
      if state == newState {
        return;
      }
      if Chain(changes, state) && LegalEdge(StateChange(state, newState)) {
        ChainGrows(changes, state, newState);
      }
      changes := changes + [StateChange(state, newState)];
      state := newState;
    }

    method BeforeRequest(now: int) returns (a: Admission)
      modifies this
      ensures old(Chain(changes, state)) ==> Chain(changes, state)
      ensures failures == old(failures) && lastFailureTime == old(lastFailureTime)
      ensures old(state) == Closed ==> a == Admitted && unchanged(this)
      ensures old(state) == Open && now - lastFailureTime > config.timeout ==>
                a == Admitted && state == HalfOpen && requests == 0 &&
                changes == old(changes) + [StateChange(Open, HalfOpen)]
      ensures old(state) == Open && now - lastFailureTime <= config.timeout ==>
                a == Refused(BreakerOpen) && unchanged(this)
      ensures old(state) == HalfOpen ==>
                state == HalfOpen && changes == old(changes) &&
                if old(requests) >= config.maxRequests
                then a == Refused(TooManyRequests) && requests == old(requests)
                else a == Admitted && requests == old(requests) + 1
    {
      match state
      case Closed =>
        a := Admitted;
      case Open =>
        if now - lastFailureTime > config.timeout {
          SetState(HalfOpen);
          requests := 0;
          a := Admitted;
        } else {
          a := Refused(BreakerOpen);
        }
      case HalfOpen =>
        if requests >= config.maxRequests {
          a := Refused(TooManyRequests);
        } else {
          requests := requests + 1;
          a := Admitted;
        }
    }

    method OnFailure(now: int)
      requires state != Open
      modifies this
      ensures old(Chain(changes, state)) ==> Chain(changes, state)
      ensures failures == old(failures) + 1 && lastFailureTime == now && requests == old(requests)
      ensures state == if old(state) == HalfOpen || failures >= config.maxFailures then Open else Closed
      ensures changes == old(changes) +
                         if state == old(state) then [] else [StateChange(old(state), state)]
    {
      failures := failures + 1;
      lastFailureTime := now;
      match state
      case Closed =>
        if failures >= config.maxFailures {
          SetState(Open);
        }
      case HalfOpen =>
        SetState(Open);
      case Open =>
    }

    method OnSuccess()
      requires state != Open
      modifies this
      ensures old(Chain(changes, state)) ==> Chain(changes, state)
      ensures failures == 0 && state == Closed && lastFailureTime == old(lastFailureTime)
      ensures requests == if old(state) == HalfOpen then 0 else old(requests)
      ensures changes == old(changes) +
                         if state == old(state) then [] else [StateChange(old(state), state)]
    {
      match state
      case Closed =>
        failures := 0;
      case HalfOpen =>
        SetState(Closed);
        failures := 0;
        requests := 0;
      case Open =>
    }

    method AfterRequest(ok: bool, now: int)
      requires state != Open
      modifies this
      ensures old(Chain(changes, state)) ==> Chain(changes, state)
      ensures !ok ==> failures == old(failures) + 1 && lastFailureTime == now && requests == old(requests)
      ensures ok ==> failures == 0 && lastFailureTime == old(lastFailureTime) &&
                     requests == if old(state) == HalfOpen then 0 else old(requests)
      ensures state == if !ok && (old(state) == HalfOpen || failures >= config.maxFailures) then Open else Closed
      ensures changes == old(changes) +
                         if state == old(state) then [] else [StateChange(old(state), state)]
    {
      if ok {
        OnSuccess();
      } else {
        OnFailure(now);
      }
    }

    method Call(start: int, ok: bool, finish: int) returns (reply: Reply)
      requires Valid()
      modifies this
      ensures Valid()
      ensures reply == ReplyTo(config, old(AtRest()), start, ok)
      ensures reply != Rejected(TooManyRequests)
      ensures AtRest() == AfterCall(config, old(AtRest()), start, ok, finish)
      ensures changes == old(changes) + Notifications(old(AtRest()), reply, AtRest())
      ensures reply.Rejected? ==>
                state == old(state) && failures == old(failures) && lastFailureTime == old(lastFailureTime)
    {
      var admission := BeforeRequest(start);
      if admission.Refused? {
        return Rejected(admission.error);
      }
      AfterRequest(ok, finish);
      reply := Executed(ok);
    }

    method Reset()
      requires Valid()
      modifies this
      ensures Valid() && AtRest() == FRESH
      ensures changes == old(changes) +
                         if old(state) == Closed then [] else [StateChange(Open, Closed)]
    {
      SetState(Closed);
      failures := 0;
      requests := 0;
    }
  }

  // ---- One call ---------------------------------------------------------------------------

  /** A breaker at rest is open exactly if it has as many failures in a row as it takes, and one at least. */
  predicate Sound(c: Config, r: Rest) {
    r.Tripped? <==> r.streak >= 1 && r.streak >= c.maxFailures
  }

  /** A call is rejected exactly while the breaker is open and cools down; otherwise a success makes it
      fresh and a failure adds to the row, which opens it as soon as that is long enough. */
  lemma CallIff(c: Config, r: Rest, start: int, ok: bool, finish: int)
    requires Sound(c, r)
    ensures var r', reply := AfterCall(c, r, start, ok, finish), ReplyTo(c, r, start, ok);
            var rejected := r.Tripped? && start <= r.since + c.timeout;
            && (rejected ==> reply == Rejected(BreakerOpen) && r' == r)
            && (!rejected ==> reply == Executed(ok))
            && (!rejected && ok ==> r' == Accepting(0))
            && (!rejected && !ok ==> r'.streak == r.streak + 1 && (r'.Tripped? ==> r'.since == finish))
            && Sound(c, r')
  {
  }

  /** What is notified: nothing while the breaker stays closed or rejects, that it opens, and for a probe that
      it is half-open and where the probe takes it. */
  lemma NotificationsOfCall(c: Config, r: Rest, start: int, ok: bool, finish: int)
    requires Sound(c, r)
    ensures var r', reply := AfterCall(c, r, start, ok, finish), ReplyTo(c, r, start, ok);
            var told := Notifications(r, reply, r');
            && (r.Accepting? && (ok || r.streak + 1 < c.maxFailures) ==> told == [])
            && (r.Accepting? && !ok && r.streak + 1 >= c.maxFailures ==> told == [StateChange(Closed, Open)])
            && (r.Tripped? && start - r.since <= c.timeout ==> told == [])
            && (r.Tripped? && start - r.since > c.timeout ==>
                  told == if ok then [StateChange(Open, HalfOpen), StateChange(HalfOpen, Closed)]
                          else [StateChange(Open, HalfOpen), StateChange(HalfOpen, Open)])
  {
  }

  // ---- Whole runs ------------------------------------------------------------------------

  function Run(c: Config, es: seq<Event>): Rest {
    if es == [] then FRESH else Step(c, Run(c, es[..|es| - 1]), es[|es| - 1])
  }

  /** Reference: a call is let through unless the last `Threshold` or more calls failed and
      the latest of those failures is at most `timeout` old. */
  predicate LetThrough(c: Config, failures: seq<int>, start: int) {
    |failures| < c.Threshold() || start - failures[|failures| - 1] > c.timeout
  }

  /** Reference: finish times of the calls that ran and failed since the last success or Reset. */
  function Failures(c: Config, es: seq<Event>): seq<int> {
    if es == [] then []
    else
      var before := Failures(c, es[..|es| - 1]);
      match es[|es| - 1]
      case Reset => []
      case Call(start, ok, finish) =>
        if !LetThrough(c, before, start) then before else if ok then [] else before + [finish]
  }

  /** How many calls of the run were executed. */
  function Executions(c: Config, es: seq<Event>): nat {
    if es == [] then 0
    else
      var e := es[|es| - 1];
      Executions(c, es[..|es| - 1]) +
      if e.Call? && ReplyTo(c, Run(c, es[..|es| - 1]), e.start, e.ok).Executed? then 1 else 0
  }

  ghost predicate Timed(es: seq<Event>) {
    forall i :: 0 <= i < |es| && es[i].Call? ==> es[i].start <= es[i].finish
  }

  ghost predicate NeverRecovers(es: seq<Event>) {
    forall i :: 0 <= i < |es| ==> es[i].Call? && !es[i].ok
  }

  /** The state at rest is a function of the recent failures alone, whatever the run. */
  lemma {:induction false} StateIsFailureHistory(c: Config, es: seq<Event>)
    ensures var f := Failures(c, es);
            Run(c, es) == if |f| < c.Threshold() then Accepting(|f|) else Tripped(|f|, f[|f| - 1])
  {
    if es == [] {
    } else {
      StateIsFailureHistory(c, es[..|es| - 1]);
    }
  }

  lemma {:induction false} RunsAreSound(c: Config, es: seq<Event>)
    ensures Sound(c, Run(c, es))
  {
    if es == [] {
    } else {
      RunsAreSound(c, es[..|es| - 1]);
    }
  }

  /** From position `lo` on, each element is more than `gap` above the one before it. */
  ghost predicate Spaced(f: seq<int>, lo: nat, gap: int) {
    forall i, j :: lo <= i < |f| && j == i + 1 && j < |f| ==> f[j] - f[i] > gap
  }

  /** Once the breaker has opened, two failures in a row are more than one timeout apart. */
  lemma {:induction false} ProbesAreSpaced(c: Config, es: seq<Event>)
    requires Timed(es)
    ensures Spaced(Failures(c, es), c.Threshold() - 1, c.timeout)
  {
    if es == [] {
    } else {
      var n := |es| - 1;
      assert forall i :: 0 <= i < n ==> es[..n][i] == es[i];
      ProbesAreSpaced(c, es[..n]);
      if es[n].Call? {
        assert es[n].start <= es[n].finish;
      }
    }
  }

  lemma {:induction false} SpacingAddsUp(f: seq<int>, lo: nat, gap: int)
    requires lo < |f| && Spaced(f, lo, gap)
    ensures (|f| - 1 - lo) * gap <= f[|f| - 1] - f[lo]
  {
    if lo + 1 == |f| {
    } else {
      var g := f[..|f| - 1];
      SpacingAddsUp(g, lo, gap);
      assert (|g| - 1 - lo) * gap + gap == (|f| - 1 - lo) * gap;
    }
  }

  lemma {:induction false} WithoutRecoveryEveryExecutionFails(c: Config, before: seq<Event>, tail: seq<Event>)
    requires NeverRecovers(tail)
    ensures Executions(c, before + tail) - Executions(c, before) ==
            |Failures(c, before + tail)| - |Failures(c, before)|
    ensures Failures(c, before) <= Failures(c, before + tail)
  {
    if tail == [] {
      assert before + tail == before;
    } else {
      var n := |tail| - 1;
      assert (before + tail)[..|before + tail| - 1] == before + tail[..n];
      WithoutRecoveryEveryExecutionFails(c, before, tail[..n]);
      StateIsFailureHistory(c, before + tail[..n]);
    }
  }

  lemma {:induction false} FailuresAreFinishTimes(c: Config, es: seq<Event>)
    ensures forall x :: x in Failures(c, es) ==>
              exists i :: 0 <= i < |es| && es[i].Call? && !es[i].ok && es[i].finish == x
  {
    if es == [] {
    } else {
      var n := |es| - 1;
      FailuresAreFinishTimes(c, es[..n]);
      forall x | x in Failures(c, es)
        ensures exists i :: 0 <= i < |es| && es[i].Call? && !es[i].ok && es[i].finish == x
      {
        if x in Failures(c, es[..n]) {
          var i :| 0 <= i < n && es[..n][i].Call? && !es[..n][i].ok && es[..n][i].finish == x;
          assert es[i] == es[..n][i];
        } else {
          assert es[n].Call? && !es[n].ok && es[n].finish == x;
        }
      }
    }
  }

  ghost predicate FinishedBy(es: seq<Event>, t: int) {
    forall i :: 0 <= i < |es| && es[i].Call? ==> es[i].finish <= t
  }

  /** Failures in a row, from any one on at which the breaker is open, fit the elapsed time at one per
      timeout, in every run. */
  lemma FailuresFitTheTime(c: Config, es: seq<Event>, from: nat, t: int)
    requires Timed(es) && FinishedBy(es, t)
    requires c.Threshold() - 1 <= from < |Failures(c, es)|
    ensures (|Failures(c, es)| - 1 - from) * c.timeout <= t - Failures(c, es)[from]
  {
    var f := Failures(c, es);
    ProbesAreSpaced(c, es);
    SpacingAddsUp(f, from, c.timeout);
    FailuresAreFinishTimes(c, es);
    assert f[|f| - 1] in f;
  }

  /** Where the clock of an outage starts: at the failure that opens the breaker or, if it is open
      already, at the last failure before. */
  function ClockStart(c: Config, before: seq<int>): nat {
    if |before| < c.Threshold() then c.Threshold() - 1 else |before| - 1
  }

  /** Rate bound: after any history, while nothing succeeds, the executions from the start of the
      clock on fit in the elapsed time at one per timeout; if the breaker was open at the start of
      the outage, these are all of them. */
  lemma RateBound(c: Config, before: seq<Event>, outage: seq<Event>, t: int)
    requires Timed(before + outage) && FinishedBy(before + outage, t) && NeverRecovers(outage)
    ensures var f0, f := Failures(c, before), Failures(c, before + outage);
            var executed, start := Executions(c, before + outage) - Executions(c, before), ClockStart(c, f0);
            && executed == |f| - |f0| >= 0 && f0 <= f
            && (start < |f| ==> (|f0| + executed - 1 - start) * c.timeout <= t - f[start])
  {
    var f0, f := Failures(c, before), Failures(c, before + outage);
    WithoutRecoveryEveryExecutionFails(c, before, outage);
    if ClockStart(c, f0) < |f| {
      FailuresFitTheTime(c, before + outage, ClockStart(c, f0), t);
    }
  }

  /** A probe is possible as soon as the cool-down is over, and one success closes the breaker. */
  lemma RecoversAfterCoolDown(c: Config, es: seq<Event>, start: int, finish: int)
    requires Failures(c, es) != [] ==> start - Failures(c, es)[|Failures(c, es)| - 1] > c.timeout
    ensures Run(c, es + [Call(start, true, finish)]) == FRESH
    ensures Executions(c, es + [Call(start, true, finish)]) == Executions(c, es) + 1
  {
    StateIsFailureHistory(c, es);
    assert (es + [Call(start, true, finish)])[..|es|] == es;
  }
}
