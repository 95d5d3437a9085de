/** The circuit breaker under interleaved calls. Grain: allowRequest, recordSuccess, recordFailure,
    Reset and ForceOpen each happen at once; the protected function runs between them, so a call
    admitted in one state may finish in another. Time is in nanoseconds and never runs backwards. */
module CircuitBreaker {
  import opened Lists

  datatype Config = Config(failureThreshold: int, successThreshold: int, timeout: int, maxRequests: int)

  datatype Mode = Closed | Open | HalfOpen

  /** The breaker's own fields; lastFailure is in milliseconds. */
  datatype Core = Core(mode: Mode, failures: int, successes: int, lastFailure: int, halfOpenCount: int)

  datatype Verdict = Allowed | CircuitOpen | TooManyRequests

  const MILLI: int := 1_000_000
  const SECOND: int := 1000 * MILLI

  /** A Unix time in milliseconds, as the breaker stores it. */
  function Millis(t: nat): nat { t / MILLI }

  function WithDefaults(cfg: Config): Config {
    Config(if cfg.failureThreshold == 0 then 5 else cfg.failureThreshold,
           if cfg.successThreshold == 0 then 2 else cfg.successThreshold,
           if cfg.timeout == 0 then 30 * SECOND else cfg.timeout,
           cfg.maxRequests)
  }

  // ----- The steps as functions -----

  function Reserve(cfg: Config, c: Core): (Core, Verdict) {
    if cfg.maxRequests <= 0 then (c, Allowed)
    else if c.halfOpenCount >= cfg.maxRequests then (c, TooManyRequests)
    else (c.(halfOpenCount := c.halfOpenCount + 1), Allowed)
  }

  function Allow(cfg: Config, c: Core, now: nat): (Core, Verdict) {
    match c.mode
    case Closed => (c, Allowed)
    case Open =>
      if now - c.lastFailure * MILLI > cfg.timeout
      then Reserve(cfg, c.(mode := HalfOpen, successes := 0, halfOpenCount := 0))
      else (c, CircuitOpen)
    case HalfOpen => Reserve(cfg, c)
  }

  function Succeed(cfg: Config, c: Core): Core {
    match c.mode
    case Closed => c.(failures := 0)
    case Open => c
    case HalfOpen =>
      if c.successes + 1 >= cfg.successThreshold
      then c.(mode := Closed, successes := c.successes + 1, failures := 0, halfOpenCount := 0)
      else c.(successes := c.successes + 1)
  }

  function Fail(cfg: Config, c: Core, now: nat): Core {
    var d := c.(lastFailure := Millis(now));
    match c.mode
    case Closed =>
      if c.failures + 1 >= cfg.failureThreshold then d.(mode := Open, failures := c.failures + 1)
      else d.(failures := c.failures + 1)
    case Open => d
    case HalfOpen => d.(mode := Open, halfOpenCount := 0)
  }

  function Reset(c: Core): Core {
    c.(mode := Closed, failures := 0, successes := 0, halfOpenCount := 0)
  }

  function ForceOpen(c: Core, now: nat): Core {
    c.(mode := Open, lastFailure := Millis(now), halfOpenCount := 0)
  }

  class Breaker {
    const config: Config
    var mode: Mode
    var failures: int
    var successes: int
    var lastFailure: int
    var halfOpenCount: int

    ghost function View(): Core
      reads this
    {
      Core(mode, failures, successes, lastFailure, halfOpenCount)
    }

    constructor (cfg: Config)
      ensures config == WithDefaults(cfg) && View() == Core(Closed, 0, 0, 0, 0)
      ensures config.failureThreshold == (if cfg.failureThreshold != 0 then cfg.failureThreshold else 5)
      ensures config.successThreshold == (if cfg.successThreshold != 0 then cfg.successThreshold else 2)
      ensures config.timeout == (if cfg.timeout != 0 then cfg.timeout else 30_000_000_000)
      ensures config.maxRequests == cfg.maxRequests
    {
      var c := cfg;
      if c.failureThreshold == 0 {
        c := c.(failureThreshold := 5);
      }
      if c.successThreshold == 0 {
        c := c.(successThreshold := 2);
      }
      if c.timeout == 0 {
        c := c.(timeout := 30 * SECOND);
      }
      config := c;
      mode, failures, successes, lastFailure, halfOpenCount := Closed, 0, 0, 0, 0;
    }

    method AllowRequest(now: nat) returns (v: Verdict)
      modifies this
      ensures (View(), v) == Allow(config, old(View()), now)
    {
      match mode
      case Closed => v := Allowed;
      case Open =>
        if now - lastFailure * MILLI > config.timeout {
          mode := HalfOpen;
          successes := 0;
          halfOpenCount := 0;
          v := ReserveHalfOpen();
        } else {
          v := CircuitOpen;
        }
      case HalfOpen => v := ReserveHalfOpen();
    }

    /** The compare-and-swap loop: at this grain its first attempt succeeds. */
    method ReserveHalfOpen() returns (v: Verdict)
      modifies this
      ensures (View(), v) == Reserve(config, old(View()))
    {
      if config.maxRequests <= 0 {
        return Allowed;
      }
      var cur := halfOpenCount;
      if cur >= config.maxRequests {
        return TooManyRequests;
      }
      halfOpenCount := cur + 1;
      return Allowed;
    }

    method RecordSuccess()
      modifies this
      ensures View() == Succeed(config, old(View()))
    {
      match mode
      case Closed => failures := 0;
      case Open =>
      case HalfOpen =>
        successes := successes + 1;
        if successes >= config.successThreshold {
          mode := Closed;
          failures := 0;
          halfOpenCount := 0;
        }
    }

    method RecordFailure(now: nat)
      modifies this
      ensures View() == Fail(config, old(View()), now)
    {
      lastFailure := Millis(now);
      match mode
      case Closed =>
        failures := failures + 1;
        if failures >= config.failureThreshold {
          mode := Open;
        }
      case Open =>
      case HalfOpen =>
        mode := Open;
        halfOpenCount := 0;
    }

    method ResetBreaker()
      modifies this
      ensures View() == Reset(old(View()))
      ensures mode == Closed && failures == successes == halfOpenCount == 0 && lastFailure == old(lastFailure)
    {
      mode := Closed;
      failures := 0;
      successes := 0;
      halfOpenCount := 0;
    }

    method ForceBreakerOpen(now: nat)
      modifies this
      ensures View() == ForceOpen(old(View()), now)
      ensures mode == Open && lastFailure == now / MILLI && halfOpenCount == 0
      ensures failures == old(failures) && successes == old(successes)
    {
      lastFailure := Millis(now);
      halfOpenCount := 0;
      mode := Open;
    }
  }

  // ----- Interleaved calls -----

  /** A call that was admitted; probe is the half-open episode it was admitted in, if any. */
  datatype Call = Call(probe: Option<nat>, running: bool) {
    function ProbesOf(e: nat): nat {
      if running && probe == Some(e) then 1 else 0
    }
  }

  datatype Event =
    | Admitted(at: nat, probe: Option<nat>)
    | Failed(at: nat)
    | Succeeded
    | Opened(at: nat)
    | ClosedAgain
    | WasReset

  /** episode numbers the half-open episodes; log is the history. */
  datatype System = System(core: Core, now: nat, episode: nat, calls: seq<Call>, log: seq<Event>)

  datatype Step = Tick(d: nat) | Request | Finish(id: nat, ok: bool) | ResetStep | ForceOpenStep

  predicate Enabled(s: System, step: Step) {
    step.Finish? ==> step.id < |s.calls| && s.calls[step.id].running
  }

  function Requested(cfg: Config, s: System): System {
    var (c, v) := Allow(cfg, s.core, s.now);
    var e := if s.core.mode == Open && c.mode == HalfOpen then s.episode + 1 else s.episode;
    var probe := if c.mode == HalfOpen then Some(e) else None;
    if v == Allowed
    then s.(core := c, episode := e, calls := s.calls + [Call(probe, true)], log := s.log + [Admitted(s.now, probe)])
    else s.(core := c, episode := e)
  }

  function Stopped(calls: seq<Call>, id: nat): seq<Call>
    requires id < |calls|
  {
    calls[id := calls[id].(running := false)]
  }

  function FinishedWell(cfg: Config, s: System, id: nat): System
    requires id < |s.calls|
  {
    var c := Succeed(cfg, s.core);
    s.(core := c, calls := Stopped(s.calls, id),
       log := if s.core.mode == HalfOpen && c.mode == Closed then s.log + [Succeeded] + [ClosedAgain]
              else s.log + [Succeeded])
  }

  function FinishedBadly(cfg: Config, s: System, id: nat): System
    requires id < |s.calls|
  {
    var c := Fail(cfg, s.core, s.now);
    s.(core := c, calls := Stopped(s.calls, id),
       log := if s.core.mode != Open && c.mode == Open then s.log + [Failed(s.now)] + [Opened(s.now)]
              else s.log + [Failed(s.now)])
  }

  function Apply(cfg: Config, s: System, step: Step): System
    requires Enabled(s, step)
  {
    match step
    case Tick(d) => s.(now := s.now + d)
    case Request => Requested(cfg, s)
    case Finish(id, ok) => if ok then FinishedWell(cfg, s, id) else FinishedBadly(cfg, s, id)
    case ResetStep => s.(core := Reset(s.core), log := s.log + [WasReset])
    case ForceOpenStep => s.(core := ForceOpen(s.core, s.now), log := s.log + [Opened(s.now)])
  }

  function Initial(start: nat): System {
    System(Core(Closed, 0, 0, 0, 0), start, 0, [], [])
  }

  // ----- Reading the history -----

  /** Failures recorded since the breaker last entered the closed state or recorded a success. */
  function Streak(log: seq<Event>): nat {
    if log == [] then 0
    else
      var rest := log[..|log| - 1];
      match log[|log| - 1]
      case Admitted(_, _) => Streak(rest)
      case Failed(_) => 1 + Streak(rest)
      case _ => 0
  }

  /** The latest opening since the last Reset. */
  function LastOpening(log: seq<Event>): Option<nat> {
    if log == [] then None
    else
      match log[|log| - 1]
      case Opened(at) => Some(at)
      case WasReset => None
      case _ => LastOpening(log[..|log| - 1])
  }

  /** What the history says about the state: an opening opens; the first probe after it makes the breaker
      half-open; closing again and Reset close. */
  function LogMode(log: seq<Event>): Mode {
    if log == [] then Closed
    else
      match log[|log| - 1]
      case Opened(_) => Open
      case Admitted(_, Some(_)) => HalfOpen
      case ClosedAgain => Closed
      case WasReset => Closed
      case _ => LogMode(log[..|log| - 1])
  }

  /** The latest failure or opening. */
  function LatestMark(log: seq<Event>): Option<nat> {
    if log == [] then None
    else
      match log[|log| - 1]
      case Opened(at) => Some(at)
      case Failed(at) => Some(at)
      case _ => LatestMark(log[..|log| - 1])
  }

  /** Requests admitted since the latest opening. */
  function SinceOpening(log: seq<Event>): nat {
    if log == [] then 0
    else
      match log[|log| - 1]
      case Opened(_) => 0
      case Admitted(_, _) => SinceOpening(log[..|log| - 1]) + 1
      case _ => SinceOpening(log[..|log| - 1])
  }

  /** Probes admitted in half-open episode e. */
  function Probes(log: seq<Event>, e: nat): nat {
    if log == [] then 0
    else
      var last := log[|log| - 1];
      Probes(log[..|log| - 1], e) + (if last.Admitted? && last.probe == Some(e) then 1 else 0)
  }

  /** Successes recorded since the first probe of episode e. */
  function Good(log: seq<Event>, e: nat): nat {
    if log == [] then 0
    else
      var rest := log[..|log| - 1];
      Good(rest, e) + (if log[|log| - 1].Succeeded? && Probes(rest, e) > 0 then 1 else 0)
  }

  /** Probes of episode e still running. */
  function InFlight(calls: seq<Call>, e: nat): nat {
    if calls == [] then 0 else InFlight(calls[..|calls| - 1], e) + calls[|calls| - 1].ProbesOf(e)
  }

  function AtLeastOne(n: int): int { if n < 1 then 1 else n }

  /** A time rounded down to the millisecond. */
  function Floor(t: nat): nat { t - t % MILLI }

  // ----- Invariants -----

  ghost predicate Counting(cfg: Config, s: System) {
    && (s.core.mode == Closed ==> s.core.failures == Streak(s.log) < AtLeastOne(cfg.failureThreshold))
    && (s.core.mode == HalfOpen ==> 0 <= s.core.successes < AtLeastOne(cfg.successThreshold))
  }

  ghost predicate Probing(cfg: Config, s: System) {
    && (forall e :: e > s.episode ==> Probes(s.log, e) == 0)
    && (cfg.maxRequests > 0 ==> forall e: nat :: Probes(s.log, e) <= cfg.maxRequests)
    && (s.core.mode == HalfOpen ==> s.core.halfOpenCount <= s.core.successes + InFlight(s.calls, s.episode))
    && (s.core.mode == HalfOpen && cfg.maxRequests > 0 ==> s.core.halfOpenCount == Probes(s.log, s.episode))
    && (forall c :: c in s.calls && c.probe.Some? ==> c.probe.value <= s.episode)
  }

  /** A half-open breaker counts the successes of its episode. */
  ghost predicate Tallied(s: System) {
    && (forall e :: e > s.episode ==> Probes(s.log, e) == 0)
    && (s.core.mode == HalfOpen ==> Probes(s.log, s.episode) > 0 && s.core.successes == Good(s.log, s.episode))
  }

  /** Not before the opening o, and more than the timeout after its millisecond. */
  predicate InTime(cfg: Config, o: nat, at: nat) {
    at >= o && at - Floor(o) > cfg.timeout
  }

  /** Every admission respects the timeout of the latest opening, counted from the millisecond in
      which it happened. */
  ghost predicate TimedLog(cfg: Config, log: seq<Event>) {
    forall j :: 0 <= j < |log| && log[j].Admitted? ==>
      var o := LastOpening(log[..j]);
      o.Some? ==> InTime(cfg, o.value, log[j].at)
  }

  /** An open breaker has a failure on record since the opening o; one that is not open has waited. */
  ghost predicate Dated(cfg: Config, c: Core, now: nat, o: Option<nat>) {
    && (o.Some? ==> o.value <= now)
    && (c.mode == Open ==> o.Some? && c.lastFailure >= Millis(o.value))
    && (c.mode != Open && o.Some? ==> InTime(cfg, o.value, now))
  }

  ghost predicate Timed(cfg: Config, s: System) {
    TimedLog(cfg, s.log) && Dated(cfg, s.core, s.now, LastOpening(s.log))
  }

  lemma LogAppend(log: seq<Event>, ev: Event)
    ensures (log + [ev])[..|log|] == log
    ensures Streak(log + [ev])
         == match ev case Admitted(_, _) => Streak(log) case Failed(_) => 1 + Streak(log) case _ => 0
    ensures LastOpening(log + [ev])
         == match ev case Opened(at) => Some(at) case WasReset => None case _ => LastOpening(log)
    ensures forall e: nat ::
              Probes(log + [ev], e) == Probes(log, e) + (if ev.Admitted? && ev.probe == Some(e) then 1 else 0)
  {
    assert (log + [ev])[..|log|] == log;
  }

  lemma {:induction false} InFlightUpdate(calls: seq<Call>, id: nat, c: Call, e: nat)
    requires id < |calls|
    ensures InFlight(calls[id := c], e) == InFlight(calls, e) - calls[id].ProbesOf(e) + c.ProbesOf(e)
  {
    var l := |calls| - 1;
    if id == l {
      assert calls[id := c][..l] == calls[..l];
    } else {
      assert calls[id := c][..l] == calls[..l][id := c];
      InFlightUpdate(calls[..l], id, c, e);
    }
  }

  lemma InFlightAppend(calls: seq<Call>, c: Call, e: nat)
    ensures InFlight(calls + [c], e) == InFlight(calls, e) + c.ProbesOf(e)
  {
    assert (calls + [c])[..|calls|] == calls;
  }

  lemma {:induction false} InFlightNone(calls: seq<Call>, e: nat)
    requires forall c :: c in calls && c.probe.Some? ==> c.probe.value < e
    ensures InFlight(calls, e) == 0
  {
    if calls == [] {
    } else {
      InFlightNone(calls[..|calls| - 1], e);
      assert calls[|calls| - 1] in calls;
    }
  }

  // ----- Every step keeps them -----

  lemma RequestKeepsCounting(cfg: Config, s: System)
    requires Counting(cfg, s)
    ensures Counting(cfg, Requested(cfg, s))
  {
    var r := Requested(cfg, s);
    if |r.log| > |s.log| { LogAppend(s.log, r.log[|s.log|]); }
  }

  lemma FinishKeepsCounting(cfg: Config, s: System, id: nat)
    requires Counting(cfg, s) && id < |s.calls|
    ensures Counting(cfg, FinishedWell(cfg, s, id)) && Counting(cfg, FinishedBadly(cfg, s, id))
  {
    LogAppend(s.log, Succeeded);
    LogAppend(s.log + [Succeeded], ClosedAgain);
    LogAppend(s.log, Failed(s.now));
    LogAppend(s.log + [Failed(s.now)], Opened(s.now));
  }

  lemma AllowKeepsDate(cfg: Config, c: Core, now: nat, o: Option<nat>)
    requires Dated(cfg, c, now, o)
    ensures Dated(cfg, Allow(cfg, c, now).0, now, o)
    ensures Allow(cfg, c, now).1 == Allowed ==> Allow(cfg, c, now).0.mode != Open
  {
    if c.mode == Open {
      LateEnough(c.lastFailure, o.value);
    }
  }

  lemma RequestKeepsTimed(cfg: Config, s: System)
    requires Timed(cfg, s)
    ensures Timed(cfg, Requested(cfg, s))
  {
    var r := Requested(cfg, s);
    AllowKeepsDate(cfg, s.core, s.now, LastOpening(s.log));
    if Allow(cfg, s.core, s.now).1 == Allowed {
      var ev := r.log[|s.log|];
      LogAppend(s.log, ev);
      TimedAppend(cfg, s.log, ev);
    }
  }

  lemma LateEnough(lastFailure: int, o: nat)
    requires lastFailure >= Millis(o)
    ensures lastFailure * MILLI >= Floor(o)
  {
    FloorIsMillis(o);
  }

  lemma FloorIsMillis(t: nat)
    ensures Floor(t) == Millis(t) * MILLI
  {}

  lemma TimedAppend(cfg: Config, log: seq<Event>, ev: Event)
    requires TimedLog(cfg, log)
    requires ev.Admitted? ==> var o := LastOpening(log); o.Some? ==> InTime(cfg, o.value, ev.at)
    ensures TimedLog(cfg, log + [ev])
  {
    var l := log + [ev];
    forall j | 0 <= j < |l| && l[j].Admitted?
      ensures var o := LastOpening(l[..j]); o.Some? ==> InTime(cfg, o.value, l[j].at)
    {
      if j < |log| {
        assert l[..j] == log[..j] && l[j] == log[j];
      } else {
        assert l[..j] == log;
      }
    }
  }

  lemma FinishKeepsTimed(cfg: Config, s: System, id: nat)
    requires Timed(cfg, s) && id < |s.calls|
    ensures Timed(cfg, FinishedWell(cfg, s, id)) && Timed(cfg, FinishedBadly(cfg, s, id))
  {
    LogAppend(s.log, Succeeded);
    LogAppend(s.log + [Succeeded], ClosedAgain);
    LogAppend(s.log, Failed(s.now));
    LogAppend(s.log + [Failed(s.now)], Opened(s.now));
    TimedAppend(cfg, s.log, Succeeded);
    TimedAppend(cfg, s.log + [Succeeded], ClosedAgain);
    TimedAppend(cfg, s.log, Failed(s.now));
    TimedAppend(cfg, s.log + [Failed(s.now)], Opened(s.now));
    if s.core.mode == Open {
      MillisMonotone(LastOpening(s.log).value, s.now);
    }
  }

  lemma MillisMonotone(a: nat, b: nat)
    requires a <= b
    ensures Millis(a) <= Millis(b)
  {}

  /** A new half-open episode starts with all counts at zero. */
  function Reopened(s: System): System {
    s.(core := s.core.(mode := HalfOpen, successes := 0, halfOpenCount := 0), episode := s.episode + 1)
  }

  lemma ReopenedProbing(cfg: Config, s: System)
    requires Probing(cfg, s)
    ensures Probing(cfg, Reopened(s))
  {
    InFlightNone(s.calls, s.episode + 1);
  }

  /** Admission of one probe in the current episode. */
  function ProbeAdmitted(cfg: Config, s: System): System {
    s.(core := Reserve(cfg, s.core).0, calls := s.calls + [Call(Some(s.episode), true)],
       log := s.log + [Admitted(s.now, Some(s.episode))])
  }

  lemma AdmittedProbing(cfg: Config, s: System)
    requires Probing(cfg, s) && s.core.mode == HalfOpen && Reserve(cfg, s.core).1 == Allowed
    ensures Probing(cfg, ProbeAdmitted(cfg, s))
  {
    var r, c, ev := ProbeAdmitted(cfg, s), Call(Some(s.episode), true), Admitted(s.now, Some(s.episode));
    InFlightAppend(s.calls, c, s.episode);
    assert r.calls == s.calls + [c] && r.log == s.log + [ev];
    forall e: nat ensures Probes(r.log, e) == Probes(s.log, e) + (if e == s.episode then 1 else 0) {
      ProbesAppend(s.log, ev, e);
    }
    forall x | x in r.calls && x.probe.Some? ensures x.probe.value <= s.episode {
      assert x in s.calls || x == c;
    }
  }

  lemma ProbesAppend(log: seq<Event>, ev: Event, e: nat)
    ensures Probes(log + [ev], e) == Probes(log, e) + (if ev.Admitted? && ev.probe == Some(e) then 1 else 0)
  {
    assert (log + [ev])[..|log|] == log;
  }

  lemma GoodAppend(log: seq<Event>, ev: Event, e: nat)
    ensures Good(log + [ev], e) == Good(log, e) + (if ev.Succeeded? && Probes(log, e) > 0 then 1 else 0)
  {
    assert (log + [ev])[..|log|] == log;
  }

  lemma {:induction false} GoodStartsAtZero(log: seq<Event>, e: nat)
    requires Probes(log, e) == 0
    ensures Good(log, e) == 0
  {
    if log == [] {
    } else {
      GoodStartsAtZero(log[..|log| - 1], e);
    }
  }

  /** A request that leaves the breaker half-open reserved a probe, or was turned away, in the episode
      then current. */
  lemma RequestIsProbe(cfg: Config, s: System)
    requires Requested(cfg, s).core.mode == HalfOpen
    ensures var u := if s.core.mode == Open then Reopened(s) else s;
            && u.core.mode == HalfOpen
            && Requested(cfg, s) == if Reserve(cfg, u.core).1 == Allowed then ProbeAdmitted(cfg, u) else u
  {}

  lemma PlainAdmissionProbing(cfg: Config, s: System)
    requires Probing(cfg, s) && s.core.mode == Closed
    ensures Probing(cfg, Requested(cfg, s))
  {
    var r, ev := Requested(cfg, s), Admitted(s.now, None);
    assert r.log == s.log + [ev] && r.calls == s.calls + [Call(None, true)];
    forall e: nat ensures Probes(r.log, e) == Probes(s.log, e) { ProbesAppend(s.log, ev, e); }
    forall x | x in r.calls && x.probe.Some? ensures x.probe.value <= r.episode {
      assert x in s.calls;
    }
  }

  lemma RequestKeepsProbing(cfg: Config, s: System)
    requires Probing(cfg, s)
    ensures Probing(cfg, Requested(cfg, s))
  {
    if s.core.mode == Closed {
      PlainAdmissionProbing(cfg, s);
    } else if Requested(cfg, s).core.mode == HalfOpen {
      RequestIsProbe(cfg, s);
      ReopenedProbing(cfg, s);
      var u := if s.core.mode == Open then Reopened(s) else s;
      if Reserve(cfg, u.core).1 == Allowed { AdmittedProbing(cfg, u); }
    }
  }

  lemma StoppedCalls(s: System, id: nat)
    requires id < |s.calls| && s.calls[id].running
    ensures InFlight(Stopped(s.calls, id), s.episode)
         == InFlight(s.calls, s.episode) - (if s.calls[id].probe == Some(s.episode) then 1 else 0)
    ensures (forall c :: c in s.calls && c.probe.Some? ==> c.probe.value <= s.episode) ==>
              forall c :: c in Stopped(s.calls, id) && c.probe.Some? ==> c.probe.value <= s.episode
  {
    var stopped := s.calls[id].(running := false);
    InFlightUpdate(s.calls, id, stopped, s.episode);
    assert s.calls[id] in s.calls;
    assert forall c :: c in Stopped(s.calls, id) ==> c in s.calls || c == stopped;
  }

  lemma SuccessKeepsProbing(cfg: Config, s: System, id: nat)
    requires Probing(cfg, s) && id < |s.calls| && s.calls[id].running
    ensures Probing(cfg, FinishedWell(cfg, s, id))
  {
    StoppedCalls(s, id);
    forall e: nat ensures Probes(FinishedWell(cfg, s, id).log, e) == Probes(s.log, e) {
      ProbesAppend(s.log, Succeeded, e);
      ProbesAppend(s.log + [Succeeded], ClosedAgain, e);
    }
  }

  lemma FailureKeepsProbing(cfg: Config, s: System, id: nat)
    requires Probing(cfg, s) && id < |s.calls| && s.calls[id].running
    ensures Probing(cfg, FinishedBadly(cfg, s, id))
  {
    StoppedCalls(s, id);
    forall e: nat ensures Probes(FinishedBadly(cfg, s, id).log, e) == Probes(s.log, e) {
      ProbesAppend(s.log, Failed(s.now), e);
      ProbesAppend(s.log + [Failed(s.now)], Opened(s.now), e);
    }
  }

  lemma RequestKeepsTallied(cfg: Config, s: System)
    requires Tallied(s)
    ensures Tallied(Requested(cfg, s))
  {
    var r := Requested(cfg, s);
    if Allow(cfg, s.core, s.now).1 == Allowed {
      var ev := r.log[|s.log|];
      forall e: nat ensures Probes(r.log, e) == Probes(s.log, e) + (if ev.probe == Some(e) then 1 else 0) {
        ProbesAppend(s.log, ev, e);
      }
      GoodAppend(s.log, ev, r.episode);
      if r.episode > s.episode { GoodStartsAtZero(s.log, r.episode); }
    }
  }

  lemma QuietEvent(log: seq<Event>, ev: Event, e: nat)
    requires !ev.Admitted?
    ensures Probes(log + [ev], e) == Probes(log, e)
    ensures !ev.Succeeded? ==> Good(log + [ev], e) == Good(log, e)
  {
    ProbesAppend(log, ev, e);
    GoodAppend(log, ev, e);
  }

  lemma SuccessKeepsTallied(cfg: Config, s: System, id: nat)
    requires Tallied(s) && id < |s.calls|
    ensures Tallied(FinishedWell(cfg, s, id))
  {
    forall e: nat ensures Probes(FinishedWell(cfg, s, id).log, e) == Probes(s.log, e) {
      QuietEvent(s.log, Succeeded, e);
      QuietEvent(s.log + [Succeeded], ClosedAgain, e);
    }
    GoodAppend(s.log, Succeeded, s.episode);
  }

  lemma FailureKeepsTallied(cfg: Config, s: System, id: nat)
    requires Tallied(s) && id < |s.calls|
    ensures Tallied(FinishedBadly(cfg, s, id))
  {
    forall e: nat ensures Probes(FinishedBadly(cfg, s, id).log, e) == Probes(s.log, e) {
      QuietEvent(s.log, Failed(s.now), e);
      QuietEvent(s.log + [Failed(s.now)], Opened(s.now), e);
    }
  }

  /** The breaker's fields say what its history says. */
  ghost predicate Chronicled(cfg: Config, c: Core, log: seq<Event>) {
    && c.mode == LogMode(log)
    && c.lastFailure == (if LatestMark(log).Some? then Millis(LatestMark(log).value) else 0)
    && (c.mode == Open ==> SinceOpening(log) == 0 && LatestMark(log).Some?)
    && (c.mode != HalfOpen ==> c.halfOpenCount == 0)
    && (c.mode == HalfOpen && cfg.maxRequests > 0 ==> c.halfOpenCount == SinceOpening(log))
  }

  lemma HistoryAppend(log: seq<Event>, ev: Event)
    ensures LogMode(log + [ev]) == match ev
              case Opened(_) => Open
              case Admitted(_, Some(_)) => HalfOpen
              case ClosedAgain => Closed
              case WasReset => Closed
              case _ => LogMode(log)
    ensures LatestMark(log + [ev])
         == match ev case Opened(at) => Some(at) case Failed(at) => Some(at) case _ => LatestMark(log)
    ensures SinceOpening(log + [ev])
         == match ev case Opened(_) => 0 case Admitted(_, _) => SinceOpening(log) + 1 case _ => SinceOpening(log)
  {
    assert (log + [ev])[..|log|] == log;
  }

  lemma RequestChronicled(cfg: Config, s: System)
    requires Chronicled(cfg, s.core, s.log)
    ensures Chronicled(cfg, Requested(cfg, s).core, Requested(cfg, s).log)
  {
    var r := Requested(cfg, s);
    if |r.log| > |s.log| { HistoryAppend(s.log, r.log[|s.log|]); }
  }

  lemma SuccessChronicled(cfg: Config, s: System, id: nat)
    requires Chronicled(cfg, s.core, s.log) && id < |s.calls|
    ensures Chronicled(cfg, FinishedWell(cfg, s, id).core, FinishedWell(cfg, s, id).log)
  {
    HistoryAppend(s.log, Succeeded);
    HistoryAppend(s.log + [Succeeded], ClosedAgain);
  }

  lemma FailureChronicled(cfg: Config, s: System, id: nat)
    requires Chronicled(cfg, s.core, s.log) && id < |s.calls|
    ensures Chronicled(cfg, FinishedBadly(cfg, s, id).core, FinishedBadly(cfg, s, id).log)
  {
    HistoryAppend(s.log, Failed(s.now));
    HistoryAppend(s.log + [Failed(s.now)], Opened(s.now));
  }

  lemma StepChronicled(cfg: Config, s: System, step: Step)
    requires Chronicled(cfg, s.core, s.log) && Enabled(s, step)
    ensures Chronicled(cfg, Apply(cfg, s, step).core, Apply(cfg, s, step).log)
  {
    match step
    case Tick(_) =>
    case Request => RequestChronicled(cfg, s);
    case Finish(id, _) =>
      SuccessChronicled(cfg, s, id);
      FailureChronicled(cfg, s, id);
    case ResetStep => HistoryAppend(s.log, WasReset);
    case ForceOpenStep => HistoryAppend(s.log, Opened(s.now));
  }

  ghost predicate Inv(cfg: Config, s: System) {
    Counting(cfg, s) && Probing(cfg, s) && Timed(cfg, s) && Tallied(s)
  }

  lemma StepKeeps(cfg: Config, s: System, step: Step)
    requires Inv(cfg, s) && Enabled(s, step)
    ensures Inv(cfg, Apply(cfg, s, step))
  {
    match step
    case Tick(_) =>
    case Request =>
      RequestKeepsCounting(cfg, s);
      RequestKeepsProbing(cfg, s);
      RequestKeepsTimed(cfg, s);
      RequestKeepsTallied(cfg, s);
    case Finish(id, _) =>
      FinishKeepsCounting(cfg, s, id);
      SuccessKeepsProbing(cfg, s, id);
      FailureKeepsProbing(cfg, s, id);
      FinishKeepsTimed(cfg, s, id);
      SuccessKeepsTallied(cfg, s, id);
      FailureKeepsTallied(cfg, s, id);
    case ResetStep =>
      LogAppend(s.log, WasReset);
      TimedAppend(cfg, s.log, WasReset);
    case ForceOpenStep =>
      LogAppend(s.log, Opened(s.now));
      TimedAppend(cfg, s.log, Opened(s.now));
  }

  // ----- Runs -----

  /** The state after a run, or None if some step was not possible when it was taken. */
  ghost function Run(cfg: Config, start: nat, steps: seq<Step>): Option<System> {
    if steps == [] then Some(Initial(start))
    else
      var before, step := Run(cfg, start, steps[..|steps| - 1]), steps[|steps| - 1];
      if before.Some? && Enabled(before.value, step) then Some(Apply(cfg, before.value, step)) else None
  }

  lemma {:induction false} RunInv(cfg: Config, start: nat, steps: seq<Step>)
    requires Run(cfg, start, steps).Some?
    ensures Inv(cfg, Run(cfg, start, steps).value)
  {
    if steps == [] {
    } else {
      RunInv(cfg, start, steps[..|steps| - 1]);
      StepKeeps(cfg, Run(cfg, start, steps[..|steps| - 1]).value, steps[|steps| - 1]);
    }
  }

  lemma RunMore(cfg: Config, start: nat, steps: seq<Step>, step: Step)
    requires Run(cfg, start, steps).Some? && Enabled(Run(cfg, start, steps).value, step)
    ensures Run(cfg, start, steps + [step]) == Some(Apply(cfg, Run(cfg, start, steps).value, step))
  {
    assert (steps + [step])[..|steps|] == steps;
  }

  lemma {:induction false} RunChronicled(cfg: Config, start: nat, steps: seq<Step>)
    requires Run(cfg, start, steps).Some?
    ensures var s := Run(cfg, start, steps).value; Chronicled(cfg, s.core, s.log)
  {
    if steps == [] {
    } else {
      RunChronicled(cfg, start, steps[..|steps| - 1]);
      StepChronicled(cfg, Run(cfg, start, steps[..|steps| - 1]).value, steps[|steps| - 1]);
    }
  }

  datatype Report = Went(ok: bool) | Cleared

  function Reported(step: Step): seq<Report> {
    match step
    case Finish(_, ok) => [Went(ok)]
    case ResetStep => [Cleared]
    case _ => []
  }

  /** What the callers reported to the breaker, by the steps of a run. */
  function Told(steps: seq<Step>): seq<Report> {
    if steps == [] then [] else Told(steps[..|steps| - 1]) + Reported(steps[|steps| - 1])
  }

  function Recorded(ev: Event): seq<Report> {
    match ev
    case Succeeded => [Went(true)]
    case Failed(_) => [Went(false)]
    case WasReset => [Cleared]
    case _ => []
  }

  /** What the history recorded. */
  function Heard(log: seq<Event>): seq<Report> {
    if log == [] then [] else Heard(log[..|log| - 1]) + Recorded(log[|log| - 1])
  }

  lemma HeardAppend(log: seq<Event>, ev: Event)
    ensures Heard(log + [ev]) == Heard(log) + Recorded(ev)
  {
    assert (log + [ev])[..|log|] == log;
  }

  lemma HeardTwice(log: seq<Event>, a: Event, b: Event)
    requires Recorded(b) == []
    ensures Heard(log + [a]) == Heard(log) + Recorded(a)
    ensures Heard(log + [a] + [b]) == Heard(log) + Recorded(a)
  {
    HeardAppend(log, a);
    HeardAppend(log + [a], b);
  }

  lemma RequestHeard(cfg: Config, s: System)
    ensures Heard(Requested(cfg, s).log) == Heard(s.log)
  {
    var r := Requested(cfg, s);
    if |r.log| > |s.log| { HeardAppend(s.log, r.log[|s.log|]); }
  }

  lemma FinishHeard(cfg: Config, s: System, id: nat)
    requires id < |s.calls|
    ensures Heard(FinishedWell(cfg, s, id).log) == Heard(s.log) + [Went(true)]
    ensures Heard(FinishedBadly(cfg, s, id).log) == Heard(s.log) + [Went(false)]
  {
    HeardTwice(s.log, Succeeded, ClosedAgain);
    HeardTwice(s.log, Failed(s.now), Opened(s.now));
  }

  lemma StepHeard(cfg: Config, s: System, step: Step)
    requires Enabled(s, step)
    ensures Heard(Apply(cfg, s, step).log) == Heard(s.log) + Reported(step)
  {
    var none: seq<Report> := [];
    assert Heard(s.log) + none == Heard(s.log);
    match step
    case Tick(_) =>
    case Request => RequestHeard(cfg, s);
    case Finish(id, _) => FinishHeard(cfg, s, id);
    case ResetStep => HeardAppend(s.log, WasReset);
    case ForceOpenStep => HeardAppend(s.log, Opened(s.now));
  }

  /** The history of every run records every outcome and every Reset, in order, and no other. */
  lemma {:induction false} HistoryIsTrue(cfg: Config, start: nat, steps: seq<Step>)
    requires Run(cfg, start, steps).Some?
    ensures Heard(Run(cfg, start, steps).value.log) == Told(steps)
  {
    if steps == [] {
    } else {
      HistoryIsTrue(cfg, start, steps[..|steps| - 1]);
      StepHeard(cfg, Run(cfg, start, steps[..|steps| - 1]).value, steps[|steps| - 1]);
    }
  }

  /** The calls a run has ended, by its steps. */
  ghost function Ended(steps: seq<Step>): set<nat> {
    set i | 0 <= i < |steps| && steps[i].Finish? :: steps[i].id
  }

  /** In every run exactly the calls that were reported as ended, well or badly, are no longer running. */
  lemma {:induction false} EndedIff(cfg: Config, start: nat, steps: seq<Step>)
    requires Run(cfg, start, steps).Some?
    ensures var s := Run(cfg, start, steps).value;
            forall id :: 0 <= id < |s.calls| ==> (s.calls[id].running <==> id !in Ended(steps))
    ensures forall id :: id in Ended(steps) ==> id < |Run(cfg, start, steps).value.calls|
  {
    if steps == [] {
    } else {
      var init, step := steps[..|steps| - 1], steps[|steps| - 1];
      EndedIff(cfg, start, init);
      var s := Run(cfg, start, init).value;
      assert steps == init + [step];
      EndedMore(init, step);
      assert |Apply(cfg, s, step).calls| >= |s.calls|;
    }
  }

  lemma EndedMore(steps: seq<Step>, step: Step)
    ensures Ended(steps + [step]) == if step.Finish? then Ended(steps) + {step.id} else Ended(steps)
  {
    var all := steps + [step];
    assert forall i :: 0 <= i < |steps| ==> all[i] == steps[i];
    assert all[|steps|] == step;
  }

  /** Whether a request is to be admitted, judging by the history alone. */
  predicate Due(cfg: Config, log: seq<Event>, now: nat) {
    match LogMode(log)
    case Closed => true
    case Open => LatestMark(log).Some? && now - Floor(LatestMark(log).value) > cfg.timeout
    case HalfOpen => cfg.maxRequests <= 0 || SinceOpening(log) < cfg.maxRequests
  }

  /** In every run a request is admitted, and recorded as such, if and only if the history says closed, or
      open with more than the timeout gone since the millisecond of the latest failure or opening, or
      half-open with a probe left. The verdict says which. */
  lemma AdmittedIff(cfg: Config, start: nat, steps: seq<Step>)
    requires Run(cfg, start, steps).Some?
    ensures var s := Run(cfg, start, steps).value;
            var v, r := Allow(cfg, s.core, s.now).1, Apply(cfg, s, Request);
            && (v == Allowed <==> Due(cfg, s.log, s.now))
            && (v == CircuitOpen <==> LogMode(s.log) == Open && !Due(cfg, s.log, s.now))
            && (v == TooManyRequests <==> LogMode(s.log) == HalfOpen && !Due(cfg, s.log, s.now))
            && (v != Allowed ==> r.log == s.log && r.calls == s.calls)
            && (v == Allowed ==> exists probe: Option<nat> ::
                  && (probe.None? <==> LogMode(s.log) == Closed)
                  && r.log == s.log + [Admitted(s.now, probe)] && r.calls == s.calls + [Call(probe, true)])
  {
    var s := Run(cfg, start, steps).value;
    RunChronicled(cfg, start, steps);
    if LatestMark(s.log).Some? { FloorIsMillis(LatestMark(s.log).value); }
    if Allow(cfg, s.core, s.now).1 == Allowed {
      var r := Apply(cfg, s, Request);
      var probe := r.log[|s.log|].probe;
      assert r.log == s.log + [Admitted(s.now, probe)] && r.calls == s.calls + [Call(probe, true)];
    }
  }

  /** In every run a closed breaker's count is the current streak of failures, below the threshold, and
      recording one more failure opens it exactly when the streak reaches the threshold. */
  lemma OpensAtThreshold(cfg: Config, start: nat, steps: seq<Step>, id: nat)
    requires Run(cfg, start, steps).Some?
    requires var s := Run(cfg, start, steps).value; s.core.mode == Closed && Enabled(s, Finish(id, false))
    ensures var s := Run(cfg, start, steps).value;
            && s.core.failures == Streak(s.log) < AtLeastOne(cfg.failureThreshold)
            && (Apply(cfg, s, Finish(id, false)).core.mode == Open
                <==> Streak(s.log + [Failed(s.now)]) == AtLeastOne(cfg.failureThreshold))
            && Apply(cfg, s, Finish(id, false)).core.failures == Streak(s.log + [Failed(s.now)])
            && Apply(cfg, s, Finish(id, true)).core.mode == Closed
  {
    RunInv(cfg, start, steps);
    var s := Run(cfg, start, steps).value;
    LogAppend(s.log, Failed(s.now));
  }

  /** In every run a half-open breaker closes on exactly the success that completes the threshold,
      counted from the first probe of its episode, and any failure opens it again. */
  lemma ClosesAtThreshold(cfg: Config, start: nat, steps: seq<Step>, id: nat)
    requires Run(cfg, start, steps).Some?
    requires var s := Run(cfg, start, steps).value; s.core.mode == HalfOpen && Enabled(s, Finish(id, true))
    ensures var s := Run(cfg, start, steps).value;
            && Good(s.log, s.episode) < AtLeastOne(cfg.successThreshold)
            && (Apply(cfg, s, Finish(id, true)).core.mode == Closed
                <==> Good(s.log + [Succeeded], s.episode) == AtLeastOne(cfg.successThreshold))
            && Apply(cfg, s, Finish(id, true)).core.successes == Good(s.log + [Succeeded], s.episode)
            && Apply(cfg, s, Finish(id, false)).core.mode == Open
  {
    RunInv(cfg, start, steps);
    var s := Run(cfg, start, steps).value;
    GoodAppend(s.log, Succeeded, s.episode);
  }

  /** In every run, each admission comes more than the timeout after the start of the millisecond of
      the latest opening, unless a Reset intervened. */
  lemma NoAdmissionBeforeTimeout(cfg: Config, start: nat, steps: seq<Step>, j: nat)
    requires Run(cfg, start, steps).Some?
    requires var log := Run(cfg, start, steps).value.log;
             j < |log| && log[j].Admitted? && LastOpening(log[..j]).Some?
    ensures var log := Run(cfg, start, steps).value.log;
            && log[j].at >= LastOpening(log[..j]).value
            && log[j].at > Floor(LastOpening(log[..j]).value) + cfg.timeout
  {
    RunInv(cfg, start, steps);
  }

  /** Opening by hand at o, and a request at the last instant of the timeout. */
  lemma LastInstant(cfg: Config, o: nat)
    requires o % MILLI > 0 && cfg.timeout >= 0
    ensures var s := Run(cfg, o, [ForceOpenStep, Tick(cfg.timeout), Request]);
            s.Some? && s.value.log == [Opened(o), Admitted(o + cfg.timeout, Some(1))]
  {
    FloorIsMillis(o);
    RunMore(cfg, o, [], ForceOpenStep);
    assert [] + [ForceOpenStep] == [ForceOpenStep];
    RunMore(cfg, o, [ForceOpenStep], Tick(cfg.timeout));
    assert [ForceOpenStep] + [Tick(cfg.timeout)] == [ForceOpenStep, Tick(cfg.timeout)];
    RunMore(cfg, o, [ForceOpenStep, Tick(cfg.timeout)], Request);
    assert [ForceOpenStep, Tick(cfg.timeout)] + [Request] == [ForceOpenStep, Tick(cfg.timeout), Request];
  }

  /** No run admits a request within the timeout of an opening at o. */
  ghost predicate Honoured(cfg: Config, o: nat) {
    forall start: nat, steps, j :: Run(cfg, start, steps).Some? ==>
      AdmitsLate(cfg, Run(cfg, start, steps).value.log, j, o)
  }

  ghost predicate AdmitsLate(cfg: Config, log: seq<Event>, j: int, o: nat) {
    0 <= j < |log| && log[j].Admitted? && LastOpening(log[..j]) == Some(o) ==> log[j].at > o + cfg.timeout
  }

  /** Exactly when the full timeout is honoured: no run admits a request up to and including o + timeout
      after an opening at o if and only if o falls on a whole millisecond (or the timeout is negative). */
  lemma FullTimeoutIff(cfg: Config, o: nat)
    ensures Honoured(cfg, o) <==> (o % MILLI == 0 || cfg.timeout < 0)
  {
    if o % MILLI == 0 || cfg.timeout < 0 {
      forall start: nat, steps, j | Run(cfg, start, steps).Some?
        ensures AdmitsLate(cfg, Run(cfg, start, steps).value.log, j, o)
      {
        var log := Run(cfg, start, steps).value.log;
        if 0 <= j < |log| && log[j].Admitted? && LastOpening(log[..j]) == Some(o) {
          NoAdmissionBeforeTimeout(cfg, start, steps, j);
        }
      }
    } else {
      LastInstant(cfg, o);
      var log := [Opened(o), Admitted(o + cfg.timeout, Some(1))];
      assert log[..1] == [Opened(o)];
      assert !AdmitsLate(cfg, log, 1, o);
    }
  }

  /** How much the rounding can matter: with a timeout of a whole millisecond, a breaker can admit a
      request two nanoseconds after it opened. */
  lemma EarlyAdmission()
    ensures var cfg := Config(5, 2, MILLI, 0);
            var s := Run(cfg, 999_999, [ForceOpenStep, Tick(2), Request]);
            s.Some? && s.value.log == [Opened(999_999), Admitted(1_000_001, Some(1))]
  {
    var cfg := Config(5, 2, MILLI, 0);
    RunMore(cfg, 999_999, [], ForceOpenStep);
    RunMore(cfg, 999_999, [ForceOpenStep], Tick(2));
    RunMore(cfg, 999_999, [ForceOpenStep, Tick(2)], Request);
    assert [] + [ForceOpenStep] == [ForceOpenStep];
    assert [ForceOpenStep] + [Tick(2)] == [ForceOpenStep, Tick(2)];
    assert [ForceOpenStep, Tick(2)] + [Request] == [ForceOpenStep, Tick(2), Request];
  }

  /** In every run, at most maxRequests probes are admitted in any half-open episode. */
  lemma ProbesPerEpisode(cfg: Config, start: nat, steps: seq<Step>, e: nat)
    requires Run(cfg, start, steps).Some? && cfg.maxRequests > 0
    ensures Probes(Run(cfg, start, steps).value.log, e) <= cfg.maxRequests
  {
    RunInv(cfg, start, steps);
  }

  /** A reservation is never returned, so half-open reservations are bounded by recorded successes plus
      probes still running. */
  lemma HalfOpenAccounting(cfg: Config, start: nat, steps: seq<Step>)
    requires Run(cfg, start, steps).Some?
    ensures var s := Run(cfg, start, steps).value;
            s.core.mode == HalfOpen ==>
              && s.core.halfOpenCount <= s.core.successes + InFlight(s.calls, s.episode)
              && s.core.successes < AtLeastOne(cfg.successThreshold)
  {
    RunInv(cfg, start, steps);
  }

  // ----- Can a half-open breaker get stuck? -----

  ghost predicate Idle(s: System) {
    forall c :: c in s.calls ==> !c.running
  }

  /** Half-open, nothing running, and the next request is turned away. */
  ghost predicate Wedged(cfg: Config, s: System) {
    s.core.mode == HalfOpen && Idle(s) && Allow(cfg, s.core, s.now).1 != Allowed
  }

  predicate EnoughProbes(cfg: Config) {
    cfg.maxRequests <= 0 || cfg.maxRequests >= AtLeastOne(cfg.successThreshold)
  }

  /** With enough probes per episode, a half-open breaker none of whose probes is running admits the
      next request, in every run. */
  lemma NextProbeAdmitted(cfg: Config, start: nat, steps: seq<Step>)
    requires Run(cfg, start, steps).Some? && EnoughProbes(cfg)
    requires var s := Run(cfg, start, steps).value;
             s.core.mode == HalfOpen && InFlight(s.calls, s.episode) == 0
    ensures var s := Run(cfg, start, steps).value; Allow(cfg, s.core, s.now).1 == Allowed
  {
    RunInv(cfg, start, steps);
  }

  lemma {:induction false} IdleMeansNoneInFlight(calls: seq<Call>, e: nat)
    requires forall c :: c in calls ==> !c.running
    ensures InFlight(calls, e) == 0
  {
    if calls == [] {
    } else {
      IdleMeansNoneInFlight(calls[..|calls| - 1], e);
      assert calls[|calls| - 1] in calls;
    }
  }

  /** Nothing but Reset or ForceOpen gets a wedged breaker out of it. */
  lemma WedgedStays(cfg: Config, s: System, step: Step)
    requires Wedged(cfg, s) && Enabled(s, step) && !step.ResetStep? && !step.ForceOpenStep?
    ensures Wedged(cfg, Apply(cfg, s, step)) && Apply(cfg, s, step).core == s.core
  {
    assert forall i :: 0 <= i < |s.calls| ==> s.calls[i] in s.calls;
  }

  /** One probe admitted and answered well; the breaker stays half-open below the success threshold. */
  lemma ProbeRound(cfg: Config, start: nat, steps: seq<Step>)
    requires Run(cfg, start, steps).Some? && 0 < cfg.maxRequests < cfg.successThreshold
    requires var s := Run(cfg, start, steps).value;
             && Idle(s) && s.core.mode == HalfOpen
             && s.core.successes == s.core.halfOpenCount < cfg.maxRequests
    ensures var s := Run(cfg, start, steps).value;
            var r := Run(cfg, start, steps + [Request] + [Finish(|s.calls|, true)]);
            && r.Some? && Idle(r.value) && r.value.core.mode == HalfOpen
            && r.value.core.successes == r.value.core.halfOpenCount == s.core.halfOpenCount + 1
  {
    var s := Run(cfg, start, steps).value;
    RunMore(cfg, start, steps, Request);
    var u := Apply(cfg, s, Request);
    assert u.calls == s.calls + [Call(Some(s.episode), true)];
    RunMore(cfg, start, steps + [Request], Finish(|s.calls|, true));
    var r := FinishedWell(cfg, u, |s.calls|);
    forall c | c in r.calls ensures !c.running {
      var i :| 0 <= i < |r.calls| && r.calls[i] == c;
      if i < |s.calls| { assert s.calls[i] in s.calls; }
    }
  }

  lemma {:induction false} ProbeRounds(cfg: Config, start: nat, steps: seq<Step>) returns (more: seq<Step>)
    requires Run(cfg, start, steps).Some? && 0 < cfg.maxRequests < cfg.successThreshold
    requires var s := Run(cfg, start, steps).value;
             && Idle(s) && s.core.mode == HalfOpen
             && s.core.successes == s.core.halfOpenCount <= cfg.maxRequests
    ensures Run(cfg, start, more).Some? && Wedged(cfg, Run(cfg, start, more).value)
    decreases cfg.maxRequests - Run(cfg, start, steps).value.core.halfOpenCount
  {
    var s := Run(cfg, start, steps).value;
    if s.core.halfOpenCount == cfg.maxRequests {
      more := steps;
    } else {
      ProbeRound(cfg, start, steps);
      more := ProbeRounds(cfg, start, steps + [Request] + [Finish(|s.calls|, true)]);
    }
  }

  /** Opening by hand, waiting out the timeout and one good probe. */
  lemma FirstRound(cfg: Config) returns (steps: seq<Step>)
    requires 0 < cfg.maxRequests < cfg.successThreshold
    ensures Run(cfg, 0, steps).Some?
    ensures var s := Run(cfg, 0, steps).value;
            && Idle(s) && s.core.mode == HalfOpen
            && s.core.successes == s.core.halfOpenCount == 1
  {
    var wait := if cfg.timeout < 0 then 0 else cfg.timeout + 1;
    RunMore(cfg, 0, [], ForceOpenStep);
    RunMore(cfg, 0, [] + [ForceOpenStep], Tick(wait));
    RunMore(cfg, 0, [] + [ForceOpenStep] + [Tick(wait)], Request);
    RunMore(cfg, 0, [] + [ForceOpenStep] + [Tick(wait)] + [Request], Finish(0, true));
    steps := [] + [ForceOpenStep] + [Tick(wait)] + [Request] + [Finish(0, true)];
  }

  /** A breaker can never get stuck half-open if and only if its configuration allows at least as many
      probes per episode as successes are needed to close. */
  lemma NeverWedgedIff(cfg: Config)
    ensures EnoughProbes(cfg) <==>
            forall start: nat, steps :: Run(cfg, start, steps).Some? ==> !Wedged(cfg, Run(cfg, start, steps).value)
  {
    if EnoughProbes(cfg) {
      forall start: nat, steps | Run(cfg, start, steps).Some?
        ensures !Wedged(cfg, Run(cfg, start, steps).value)
      {
        var s := Run(cfg, start, steps).value;
        if Idle(s) && s.core.mode == HalfOpen {
          IdleMeansNoneInFlight(s.calls, s.episode);
          NextProbeAdmitted(cfg, start, steps);
        }
      }
    } else {
      var first := FirstRound(cfg);
      var more := ProbeRounds(cfg, 0, first);
    }
  }
}
