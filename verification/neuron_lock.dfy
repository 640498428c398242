/** The `lock_neuron` decorator: while the wrapped function runs, the
    neuron given as first argument carries a `_lock` counter one higher than
    before, and the counter is decremented again whether the function returns
    or raises. The wrapped function is a parameter that sees the neuron and
    reports its outcome and the counter it leaves. */
module NeuronLock {

  import opened Errors

  /** The first argument: a neuron, whose `_lock` attribute may be unset, or
      any other object. */
  datatype Subject = Neuron(lock: Option<int>) | NotNeuron

  /** How a call ends: with a value or with an exception. */
  datatype Outcome<R> = Returned(value: R) | Raised(error: Error)

  /** What the wrapped function does with the first argument it is given:
      its outcome and the `_lock` value it leaves behind. */
  datatype Effect<R> = Effect(outcome: Outcome<R>, lock: int)

  /** The outcome of the wrapped call and the first argument afterwards. */
  datatype Locked<R> = Locked(outcome: Outcome<R>, after: Option<Subject>)

  /** The `_lock` counter of a neuron, reading 0 when it is unset (or when
      the object is not a neuron). */
  function LockOf(s: Subject): int
  {
    match s
    case Neuron(Some(l)) => l
    case _ => 0
  }

  /** The decorated call on first argument `first` (`None` when there are no
      positional arguments, where `args[0]` raises `IndexError`). A neuron
      is handed to the function with its counter one higher than it was,
      and afterwards the counter has moved by exactly as much as the
      function moved it, whether the function returned or raised; the
      outcome is the function's own. Any other object is handed over and
      left as it is. */
  function LockedCall<R>(first: Option<Subject>, body: Subject -> Effect<R>): (r: Locked<R>)
    ensures first.None? <==> r.after.None?
    ensures first.None? ==> r.outcome == Raised(IndexError)
    ensures r.after.Some? ==> r.after.value.Neuron? == first.value.Neuron?
    ensures first.Some? && first.value.Neuron? ==>
              var inside := Neuron(Some(LockOf(first.value) + 1));
              var e := body(inside);
              && r.outcome == e.outcome
              && r.after.value.lock.Some?
              && LockOf(r.after.value) - LockOf(first.value) == e.lock - LockOf(inside)
    ensures first.Some? && first.value.NotNeuron? ==>
              r.outcome == body(NotNeuron).outcome && r.after == first
  {
    match first
    case None => Locked(Raised(IndexError), None)
    case Some(NotNeuron) => Locked(body(NotNeuron).outcome, Some(NotNeuron))
    case Some(Neuron(_)) =>
      var inside := Neuron(Some(LockOf(first.value) + 1));
      var e := body(inside);
      Locked(e.outcome, Some(Neuron(Some(e.lock - 1))))
  }

  /** A wrapped function that leaves the counter as it found it. */
  ghost predicate Balanced<R>(body: Subject -> Effect<R>) {
    forall l: int :: body(Neuron(Some(l))).lock == l
  }

  /** With a balanced function, the counter after the call equals the
      counter before (an unset one reads as 0), on the return path and on the
      exception path alike, and the outcome is the function's own. */
  lemma LockRestored<R>(s: Subject, body: Subject -> Effect<R>)
    requires Balanced(body)
    ensures var r := LockedCall(Some(s), body);
            && r.after.Some?
            && LockOf(r.after.value) == LockOf(s)
            && (s.Neuron? ==> r.outcome == body(Neuron(Some(LockOf(s) + 1))).outcome)
            && (r.outcome.Raised? ==> s.Neuron? ==> body(Neuron(Some(LockOf(s) + 1))).outcome.Raised?)
  {
    if s.Neuron? {
      assert body(Neuron(Some(LockOf(s) + 1))).lock == LockOf(s) + 1;
    }
  }

  /** The decorated function seen as a function of its first argument. */
  function AsBody<R>(body: Subject -> Effect<R>): Subject -> Effect<R>
  {
    s => var r := LockedCall(Some(s), body);
         Effect(r.outcome, if r.after.Some? then LockOf(r.after.value) else 0)
  }

  /** Decorating a balanced function gives a balanced function, so nested
      decorated calls leave the counter balanced too. */
  lemma NestedBalanced<R>(body: Subject -> Effect<R>)
    requires Balanced(body)
    ensures Balanced(AsBody(body))
  {
    forall l: int
      ensures AsBody(body)(Neuron(Some(l))).lock == l
    {
      LockRestored(Neuron(Some(l)), body);
    }
  }
}
