/** `TransactionPipelineBehavior.Handle`. For an `ITransactional` message a
    database transaction is begun before the rest of the pipeline runs; the
    commit sits inside the same try block as the call, so a fault from either
    rolls the transaction back and is rethrown; the transaction is disposed on
    every path once it was begun. The database is external: `script` says
    which of its calls throw. */
module TransactionPipelineBehavior {
  import opened Kernel

  /** Which database calls fault, and with what. */
  datatype TxScript = TxScript(beginFault: Option<Exception>, commitFault: Option<Exception>, rollbackFault: Option<Exception>)

  /** The events of `r` after the begin event and the inner pipeline's own. */
  function Tail(r: Run, inner: seq<Event>): seq<Event>
    requires 1 + |inner| <= |r.trace|
  {
    r.trace[1 + |inner|..]
  }

  method Handle(m: Message, next: Next, script: TxScript) returns (r: Run)
    ensures !m.transactional ==> r == next(m)
    ensures m.transactional && script.beginFault.Some? ==> r == Run(Fault(script.beginFault.value), [])
    ensures m.transactional && script.beginFault.None? ==>
              && |r.trace| >= |next(m).trace| + 2
              && r.trace[0] == TxBegun
              && r.trace[1..1 + |next(m).trace|] == next(m).trace
              && r.trace[|r.trace| - 1] == TxDisposed
              && (r.outcome.Ok? <==> next(m).outcome.Ok? && script.commitFault.None?)
              && (r.outcome.Ok? ==> r.outcome == next(m).outcome
                                    && Tail(r, next(m).trace) == [TxCommitted, TxDisposed])
              && (r.outcome.Fault? ==>
                    && r.outcome.error == (if script.rollbackFault.Some? then script.rollbackFault.value
                                           else if next(m).outcome.Fault? then next(m).outcome.error
                                           else script.commitFault.value)
                    && Tail(r, next(m).trace) ==
                         (if script.rollbackFault.None? then [TxRolledBack, TxDisposed] else [TxDisposed]))
  {
    if !m.transactional {
      r := next(m);
      return;
    }
    if script.beginFault.Some? {
      r := Run(Fault(script.beginFault.value), []);
      return;
    }
    var inner := next(m);
    var outcome := inner.outcome;
    if outcome.Ok? && script.commitFault.Some? {
      outcome := Fault(script.commitFault.value);
    }
    var tail: seq<Event> := [];
    if outcome.Ok? {
      tail := tail + [TxCommitted];
    } else if script.rollbackFault.Some? {
      outcome := Fault(script.rollbackFault.value);
    } else {
      tail := tail + [TxRolledBack];
    }
    tail := tail + [TxDisposed];
    r := Run(outcome, [TxBegun] + inner.trace + tail);
    assert r.trace[1..1 + |inner.trace|] == inner.trace;
    assert Tail(r, inner.trace) == tail;
  }
}
