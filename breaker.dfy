/** `CircuitBreakerPipelineBehavior.Handle`. A message that is
    `ICircuitBreakerConfigurable` runs through a breaker taken from the shared
    `ICircuitBreakerState` store, keyed by the message type's short name and
    created on first use from that message's settings. The breaker itself is
    Polly's consecutive-count breaker; its state machine is modelled here as the
    library's documented contract:
      - closed, a failure raises the consecutive count; reaching
        `ExceptionsAllowedBeforeBreaking` opens the circuit for
        `BreakDurationInSeconds` seconds; a success resets the count;
      - open, calls are refused with `BrokenCircuitException` until the break
        has elapsed; then one trial call runs (half-open): its success closes
        the circuit, its failure opens it again for a full break.
    Every exception counts as a failure, and the exception of an admitted call
    propagates unchanged. Time is whole seconds, passed in as `now`. */
module CircuitBreakerPipelineBehavior {
  import opened Kernel

  datatype Circuit = Closed(consecutiveFailures: nat) | Open(reopensAt: int)

  datatype Breaker = Breaker(threshold: nat, breakSeconds: nat, circuit: Circuit)

  /** What the store's factory yields: a breaker, or the exception thrown by
      Polly's argument checks (in which case nothing is stored). */
  datatype Made = Made(breaker: Breaker) | Refused(error: Exception)

  /** `Policy.Handle<Exception>().CircuitBreakerAsync(allowed, duration, ...)` */
  function Create(s: BreakerSettings): (r: Made)
    ensures r.Made? <==> s.exceptionsAllowedBeforeBreaking > 0 && s.breakDurationInSeconds >= 0
    ensures r.Made? ==> r.breaker.threshold == s.exceptionsAllowedBeforeBreaking
                        && r.breaker.breakSeconds == s.breakDurationInSeconds
                        && r.breaker.circuit == Closed(0)
    ensures s.exceptionsAllowedBeforeBreaking <= 0 ==>
              r == Refused(ArgumentOutOfRange("exceptionsAllowedBeforeBreaking"))
    ensures s.exceptionsAllowedBeforeBreaking > 0 && s.breakDurationInSeconds < 0 ==>
              r == Refused(ArgumentOutOfRange("durationOfBreak"))
  {
    if s.exceptionsAllowedBeforeBreaking <= 0 then Refused(ArgumentOutOfRange("exceptionsAllowedBeforeBreaking"))
    else if s.breakDurationInSeconds < 0 then Refused(ArgumentOutOfRange("durationOfBreak"))
    else Made(Breaker(s.exceptionsAllowedBeforeBreaking, s.breakDurationInSeconds, Closed(0)))
  }

  /** Whether the breaker lets a call through at time `now`. */
  predicate Admits(b: Breaker, now: int)
    ensures b.circuit.Closed? ==> Admits(b, now)
    ensures b.circuit.Open? && now < b.circuit.reopensAt ==> !Admits(b, now)
  {
    b.circuit.Closed? || b.circuit.reopensAt <= now
  }

  /** The breaker after an admitted call at `now` that failed or succeeded. */
  function Record(b: Breaker, now: int, failed: bool): (r: Breaker)
    requires Admits(b, now)
    ensures r.threshold == b.threshold && r.breakSeconds == b.breakSeconds
    ensures !failed ==> r.circuit == Closed(0)
    ensures r.circuit.Open? ==> failed && r.circuit.reopensAt == now + b.breakSeconds
    ensures failed && b.circuit.Open? ==> r.circuit.Open?
    ensures failed && b.circuit.Closed? ==>
              (r.circuit.Open? <==> b.circuit.consecutiveFailures + 1 >= b.threshold)
  {
    if !failed then b.(circuit := Closed(0))
    else match b.circuit
      case Open(_) => b.(circuit := Open(now + b.breakSeconds))
      case Closed(k) =>
        if k + 1 >= b.threshold then b.(circuit := Open(now + b.breakSeconds))
        else b.(circuit := Closed(k + 1))
  }

  /** The breaker after `n` admitted failures in a row at time `now`. */
  function Failures(b: Breaker, now: int, n: nat): Breaker
  {
    if n == 0 then b
    else
      var before := Failures(b, now, n - 1);
      if Admits(before, now) then Record(before, now, true) else before
  }

  lemma {:induction false} FailuresStayClosed(b: Breaker, now: int, n: nat)
    requires b.circuit == Closed(0) && n < b.threshold
    ensures Failures(b, now, n) == b.(circuit := Closed(n))
  {
    if n > 0 {
      FailuresStayClosed(b, now, n - 1);
    }
  }

  /** Fewer than `ExceptionsAllowedBeforeBreaking` consecutive failures leave
      the circuit closed; exactly that many open it for the break duration. */
  lemma {:induction false} ThresholdOpensCircuit(b: Breaker, now: int, n: nat)
    requires b.circuit == Closed(0) && 0 < b.threshold && n <= b.threshold
    ensures n < b.threshold ==> Failures(b, now, n).circuit == Closed(n)
    ensures n == b.threshold ==> Failures(b, now, n).circuit == Open(now + b.breakSeconds)
  {
    if n < b.threshold {
      FailuresStayClosed(b, now, n);
    } else {
      FailuresStayClosed(b, now, n - 1);
    }
  }

  /** An open circuit refuses exactly the calls made before its break ends. */
  lemma OpenRefusesUntilBreakEnds(b: Breaker, now: int, t: int)
    requires Admits(b, now)
    requires Record(b, now, true).circuit.Open?
    ensures !Admits(Record(b, now, true), t) <==> t < now + b.breakSeconds
  {
  }

  /** The notifications a breaker raises around one admitted call: half-open
      before a trial call; after it, break when the circuit opens and reset when
      a trial succeeds. */
  function Notifications(key: string, before: Breaker, after: Breaker, inner: seq<Event>): (trace: seq<Event>)
    ensures |trace| == |inner| + (if before.circuit.Open? then 1 else 0)
                              + (if after.circuit.Open? || before.circuit.Open? then 1 else 0)
  {
    (if before.circuit.Open? then [BreakerHalfOpened(key)] else [])
    + inner
    + (if after.circuit.Open? then [BreakerOpened(key, after.breakSeconds)]
       else if before.circuit.Open? then [BreakerReset(key)]
       else [])
  }

  /** The breaker a configurable message runs through: the stored one for its
      type name, else the one the factory makes from its settings. */
  function InUse(breakers: map<string, Breaker>, m: Message): (r: Made)
    requires m.breaker.Some?
    ensures m.TypeName() in breakers ==> r == Made(breakers[m.TypeName()])
    ensures m.TypeName() !in breakers ==> r == Create(m.breaker.value)
  {
    if m.TypeName() in breakers then Made(breakers[m.TypeName()]) else Create(m.breaker.value)
  }

  /** One `Handle` call: the response and the store afterwards. */
  function Step(breakers: map<string, Breaker>, m: Message, next: Next, now: int): (r: (Run, map<string, Breaker>))
    ensures m.breaker.None? ==> r == (next(m), breakers)
    ensures m.breaker.Some? ==> breakers.Keys <= r.1.Keys <= breakers.Keys + {m.TypeName()}
    ensures m.breaker.Some? && m.TypeName() !in breakers ==>
              (m.TypeName() in r.1 <==> Create(m.breaker.value).Made?)
    ensures forall k :: k in breakers && k != m.TypeName() ==> k in r.1 && r.1[k] == breakers[k]
    ensures m.breaker.Some? && m.TypeName() in breakers ==>
              m.TypeName() in r.1
              && r.1[m.TypeName()].threshold == breakers[m.TypeName()].threshold
              && r.1[m.TypeName()].breakSeconds == breakers[m.TypeName()].breakSeconds
    ensures r.0.outcome == next(m).outcome
            || r.0 == Run(Fault(BrokenCircuit), [])
            || (r.0.trace == [] && r.0.outcome.Fault? && r.0.outcome.error.ArgumentOutOfRange?)
    ensures m.breaker.Some? && InUse(breakers, m).Made? && Admits(InUse(breakers, m).breaker, now) ==>
              var b := InUse(breakers, m).breaker;
              var after := Record(b, now, next(m).outcome.Fault?);
              && r.1 == breakers[m.TypeName() := after]
              && r.0 == Run(next(m).outcome, Notifications(m.TypeName(), b, after, next(m).trace))
  {
    if m.breaker.None? then (next(m), breakers)
    else
      var key := m.TypeName();
      match InUse(breakers, m)
      case Refused(e) => (Run(Fault(e), []), breakers)
      case Made(b) =>
        if !Admits(b, now) then (Run(Fault(BrokenCircuit), []), breakers[key := b])
        else
          var run := next(m);
          var after := Record(b, now, run.outcome.Fault?);
          (Run(run.outcome, Notifications(key, b, after, run.trace)), breakers[key := after])
  }

  /** The first configurable message of a short type name fixes the breaker's
      settings: a later message with the same short name, whatever its runtime
      type or settings, runs through that breaker. */
  lemma FirstSettingsWin(breakers: map<string, Breaker>, m1: Message, m2: Message, next: Next, now: int, later: int)
    requires m1.breaker.Some? && m2.breaker.Some? && m1.TypeName() == m2.TypeName()
    requires m1.TypeName() !in breakers && Create(m1.breaker.value).Made?
    ensures var s1 := Step(breakers, m1, next, now).1;
            var s2 := Step(s1, m2, next, later).1;
            && m2.TypeName() in s2
            && s2[m2.TypeName()].threshold == m1.breaker.value.exceptionsAllowedBeforeBreaking
            && s2[m2.TypeName()].breakSeconds == m1.breaker.value.breakDurationInSeconds
  {
  }

  /** An admitted call runs `next` once and returns its outcome unchanged; a
      refused one does not run it and fails with `BrokenCircuitException`. */
  lemma AdmittedCallsPassThrough(breakers: map<string, Breaker>, m: Message, next: Next, now: int)
    requires m.breaker.Some? && m.TypeName() in breakers
    ensures Admits(breakers[m.TypeName()], now) ==>
              Step(breakers, m, next, now).0.outcome == next(m).outcome
    ensures !Admits(breakers[m.TypeName()], now) ==>
              Step(breakers, m, next, now) == (Run(Fault(BrokenCircuit), []), breakers)
  {
    var key := m.TypeName();
    assert breakers[key := breakers[key]] == breakers;
  }

  /** The store after `n` calls with the same message. */
  function Repeat(breakers: map<string, Breaker>, m: Message, next: Next, now: int, n: nat): map<string, Breaker>
  {
    if n == 0 then breakers else Step(Repeat(breakers, m, next, now, n - 1), m, next, now).1
  }

  /** Calls whose handler fails drive the stored breaker exactly as `n`
      admitted failures do: refused calls leave it as it is. */
  lemma {:induction false} RepeatedFailuresAreFailures(breakers: map<string, Breaker>, m: Message, next: Next, now: int, n: nat)
    requires m.breaker.Some? && InUse(breakers, m).Made? && next(m).outcome.Fault?
    requires n > 0 || m.TypeName() in breakers
    ensures var after := Repeat(breakers, m, next, now, n);
            m.TypeName() in after && after[m.TypeName()] == Failures(InUse(breakers, m).breaker, now, n)
  {
    var key := m.TypeName();
    var b0 := InUse(breakers, m).breaker;
    if n > 0 {
      var before := Repeat(breakers, m, next, now, n - 1);
      if n - 1 > 0 || key in breakers {
        RepeatedFailuresAreFailures(breakers, m, next, now, n - 1);
        var b := before[key];
        assert InUse(before, m) == Made(b);
        if !Admits(b, now) {
          assert before[key := b] == before;
        }
      } else {
        assert before == breakers;
        assert Failures(b0, now, 0) == b0;
      }
    }
  }

  /** From a fresh store, `ExceptionsAllowedBeforeBreaking` failing calls open
      the circuit, and the next call within the break is refused without
      running the handler. */
  lemma ThresholdFailingCallsOpenCircuit(breakers: map<string, Breaker>, m: Message, next: Next, now: int)
    requires m.breaker.Some? && m.TypeName() !in breakers && Create(m.breaker.value).Made?
    requires next(m).outcome.Fault?
    ensures var s := m.breaker.value;
            var after := Repeat(breakers, m, next, now, s.exceptionsAllowedBeforeBreaking);
            && m.TypeName() in after
            && after[m.TypeName()].circuit == Open(now + s.breakDurationInSeconds)
            && (s.breakDurationInSeconds > 0 ==> Step(after, m, next, now) == (Run(Fault(BrokenCircuit), []), after))
  {
    var s := m.breaker.value;
    var b0 := Create(s).breaker;
    RepeatedFailuresAreFailures(breakers, m, next, now, s.exceptionsAllowedBeforeBreaking);
    ThresholdOpensCircuit(b0, now, s.exceptionsAllowedBeforeBreaking);
    var after := Repeat(breakers, m, next, now, s.exceptionsAllowedBeforeBreaking);
    assert after[m.TypeName() := after[m.TypeName()]] == after;
  }

  /** The shared `ICircuitBreakerState` store. */
  class BreakerStore {
    var breakers: map<string, Breaker>

    constructor()
      ensures breakers == map[]
    {
      breakers := map[];
    }

    /** `GetOrAdd(key, factory)`: the factory runs only when `key` is absent,
        and a factory that throws stores nothing. */
    method GetOrAdd(key: string, settings: BreakerSettings) returns (made: Made)
      modifies this
      ensures key in old(breakers) ==> made == Made(old(breakers)[key]) && breakers == old(breakers)
      ensures key !in old(breakers) ==> made == Create(settings)
      ensures key !in old(breakers) && made.Made? ==> breakers == old(breakers)[key := made.breaker]
      ensures key !in old(breakers) && made.Refused? ==> breakers == old(breakers)
    {
      if key in breakers {
        made := Made(breakers[key]);
      } else {
        made := Create(settings);
        if made.Made? {
          breakers := breakers[key := made.breaker];
        }
      }
    }

    method Handle(m: Message, next: Next, now: int) returns (r: Run)
      modifies this
      ensures (r, breakers) == Step(old(breakers), m, next, now)
    {
      if m.breaker.None? {
        r := next(m);
        return;
      }
      var key := m.TypeName();
      var made := GetOrAdd(key, m.breaker.value);
      if made.Refused? {
        r := Run(Fault(made.error), []);
        return;
      }
      var b := made.breaker;
      if !Admits(b, now) {
        assert breakers == old(breakers)[key := b];
        r := Run(Fault(BrokenCircuit), []);
        return;
      }
      var run := next(m);
      var after := Record(b, now, run.outcome.Fault?);
      assert breakers == old(breakers)[key := b];
      breakers := breakers[key := after];
      assert breakers == old(breakers)[key := after];
      r := Run(run.outcome, Notifications(key, b, after, run.trace));
    }
  }
}
