/**
 * The `debounce(func, wait)` combinator of assets/js/app.js.
 *
 * The returned wrapper owns one timeout handle. Every call clears that
 * timeout and schedules a new one `wait` time units later; when a timeout
 * runs, `func` is invoked with the arguments of the call that scheduled it.
 * Time is an abstract integer clock that only `Elapse` moves forward; the
 * callback is not called from here, the wrapper hands the arguments it fires
 * with back to its caller.
 */
module Debounce {
  import opened Optional

  /** A scheduled run of `later`: when it is due and the arguments it forwards. */
  datatype Pending<A> = Pending(deadline: int, args: A)

  /** One debounced wrapper: its fixed wait, the clock, and the one timeout it may hold. */
  datatype Timer<A> = Timer(wait: nat, now: int, pending: Option<Pending<A>>)

  /** A timer together with the arguments `func` was invoked with, in order. */
  datatype Outcome<A> = Outcome(timer: Timer<A>, fired: seq<A>)

  /** `debounce(func, wait)`: nothing is scheduled yet. */
  function Start<A>(wait: nat, now: int): Timer<A> {
    Timer(wait, now, None)
  }

  /** A call of the wrapper: `clearTimeout(timeout); timeout = setTimeout(later, wait)`. */
  function AfterCall<A>(t: Timer<A>, args: A): Timer<A> {
    t.(pending := Some(Pending(t.now + t.wait, args)))
  }

  /** `dt` time units pass; a timeout whose deadline is reached runs `later` once and is gone. */
  function AfterElapse<A>(t: Timer<A>, dt: nat): Outcome<A> {
    var now := t.now + dt;
    if t.pending.Some? && t.pending.value.deadline <= now then
      Outcome(Timer(t.wait, now, None), [t.pending.value.args])
    else
      Outcome(t.(now := now), [])
  }

  /** What happens to a wrapper: it is called, or time passes. */
  datatype Event<A> = Invoke(args: A) | Elapse(dt: nat)

  function Apply<A>(t: Timer<A>, e: Event<A>): Outcome<A> {
    match e
    case Invoke(args) => Outcome(AfterCall(t, args), [])
    case Elapse(dt) => AfterElapse(t, dt)
  }

  /** A sequence of events applied in order, collecting every invocation of `func`. */
  function Run<A>(t: Timer<A>, evs: seq<Event<A>>): Outcome<A>
    decreases |evs|
  {
    if evs == [] then Outcome(t, [])
    else
      var first := Apply(t, evs[0]);
      var rest := Run(first.timer, evs[1..]);
      Outcome(rest.timer, first.fired + rest.fired)
  }

  /** A call made `gap` time units after the event before it. */
  datatype Spaced<A> = Spaced(gap: nat, args: A)

  function Burst<A>(calls: seq<Spaced<A>>): seq<Event<A>> {
    if calls == [] then []
    else [Elapse(calls[0].gap), Invoke(calls[0].args)] + Burst(calls[1..])
  }

  /** The time from the start of a burst to its last call. */
  function Span<A>(calls: seq<Spaced<A>>): nat {
    if calls == [] then 0 else calls[0].gap + Span(calls[1..])
  }

  function ArgsOf<A>(calls: seq<Spaced<A>>): seq<A> {
    if calls == [] then [] else [calls[0].args] + ArgsOf(calls[1..])
  }

  function Invocations<A>(evs: seq<Event<A>>): nat {
    if evs == [] then 0 else (if evs[0].Invoke? then 1 else 0) + Invocations(evs[1..])
  }

  function PendingArgs<A>(t: Timer<A>): seq<A> {
    if t.pending.Some? then [t.pending.value.args] else []
  }

  /** The wrapper returned by `debounce`, with the captured `timeout` as a field. */
  class Debouncer<A> {
    const wait: nat
    var now: int
    var pending: Option<Pending<A>>

    function Model(): Timer<A>
      reads this
    {
      Timer(wait, now, pending)
    }

    constructor (wait: nat, now: int)
      ensures Model() == Start(wait, now)
    {
      this.wait := wait;
      this.now := now;
      this.pending := None;
    }

    /** `executedFunction`: the pending timeout is replaced by one due `wait` from now. */
    method Call(args: A)
      modifies this`pending
      ensures pending == Some(Pending(now + wait, args))
      ensures Model() == AfterCall(old(Model()), args)
    {
      pending := Some(Pending(now + wait, args));
    }

    /**
     * The clock moves `dt` forward; `fired` holds the arguments `func` runs
     * with, if the pending timeout came due.
     */
    method Elapse(dt: nat) returns (fired: seq<A>)
      modifies this`now, this`pending
      ensures |fired| <= 1 && now == old(now) + dt
      ensures fired != [] <==> old(pending).Some? && old(pending).value.deadline <= now
      ensures fired != [] ==> fired[0] == old(pending).value.args && pending == None
      ensures Outcome(Model(), fired) == AfterElapse(old(Model()), dt)
    {
      now := now + dt;
      fired := [];
      if pending.Some? && pending.value.deadline <= now {
        fired := [pending.value.args];
        pending := None;
      }
    }
  }

  /** Running two event sequences one after the other. */
  lemma {:induction false} RunAppend<A>(t: Timer<A>, xs: seq<Event<A>>, ys: seq<Event<A>>)
    ensures Run(t, xs + ys).timer == Run(Run(t, xs).timer, ys).timer
    ensures Run(t, xs + ys).fired == Run(t, xs).fired + Run(Run(t, xs).timer, ys).fired
    decreases |xs|
  {
    if xs == [] {
      assert xs + ys == ys;
    } else {
      assert (xs + ys)[0] == xs[0];
      assert (xs + ys)[1..] == xs[1..] + ys;
      RunAppend(Apply(t, xs[0]).timer, xs[1..], ys);
    }
  }

  /** The two events of one spaced call. */
  lemma RunSpacedCall<A>(t: Timer<A>, c: Spaced<A>, rest: seq<Spaced<A>>)
    ensures Run(t, Burst([c] + rest)).timer == Run(AfterCall(AfterElapse(t, c.gap).timer, c.args), Burst(rest)).timer
    ensures Run(t, Burst([c] + rest)).fired
         == AfterElapse(t, c.gap).fired + Run(AfterCall(AfterElapse(t, c.gap).timer, c.args), Burst(rest)).fired
  {
    var evs := [Elapse(c.gap), Invoke(c.args)];
    assert ([c] + rest)[1..] == rest;
    assert Burst([c] + rest) == evs + Burst(rest);
    RunAppend(t, evs, Burst(rest));
    assert evs[1..] == [Invoke(c.args)];
    assert evs[1..][1..] == [];
  }

  /**
   * During a burst whose calls follow each other by less than `wait`, and
   * which starts before an earlier pending timeout is due, nothing runs: one
   * timeout is pending, due `wait` after the last call, with its arguments.
   */
  lemma {:induction false} BurstLeavesOnePending<A>(t: Timer<A>, calls: seq<Spaced<A>>)
    requires calls != []
    requires t.pending.None? || t.now + calls[0].gap < t.pending.value.deadline
    requires forall i :: 0 < i < |calls| ==> calls[i].gap < t.wait
    ensures Run(t, Burst(calls)).fired == []
    ensures Run(t, Burst(calls)).timer
         == Timer(t.wait, t.now + Span(calls), Some(Pending(t.now + Span(calls) + t.wait, calls[|calls| - 1].args)))
    decreases |calls|
  {
    var c, rest := calls[0], calls[1..];
    assert calls == [c] + rest;
    RunSpacedCall(t, c, rest);
    var t1 := AfterCall(AfterElapse(t, c.gap).timer, c.args);
    if rest != [] {
      assert rest[0] == calls[1];
      forall i | 0 < i < |rest| ensures rest[i].gap < t1.wait {
        assert rest[i] == calls[i + 1];
      }
      BurstLeavesOnePending(t1, rest);
    }
  }

  /**
   * A burst followed by a quiet period: `func` runs exactly once, with the
   * last call's arguments, when the quiet period lasts at least `wait`, and
   * not at all otherwise.
   */
  lemma BurstCollapses<A>(t: Timer<A>, calls: seq<Spaced<A>>, quiet: nat)
    requires calls != []
    requires t.pending.None? || t.now + calls[0].gap < t.pending.value.deadline
    requires forall i :: 0 < i < |calls| ==> calls[i].gap < t.wait
    ensures Run(t, Burst(calls) + [Elapse(quiet)]).fired
         == if quiet >= t.wait then [calls[|calls| - 1].args] else []
    ensures Run(t, Burst(calls) + [Elapse(quiet)]).timer.pending.None? <==> quiet >= t.wait
  {
    BurstLeavesOnePending(t, calls);
    RunAppend(t, Burst(calls), [Elapse(quiet)]);
  }

  /**
   * Calls spaced at least `wait` apart: each earlier call's timeout runs
   * before the next call, so `func` has run for all but the last call, whose
   * timeout is pending.
   */
  lemma {:induction false} SpacedCallsRun<A>(t: Timer<A>, calls: seq<Spaced<A>>)
    requires calls != []
    requires t.pending.None? || t.pending.value.deadline <= t.now + calls[0].gap
    requires forall i :: 0 < i < |calls| ==> calls[i].gap >= t.wait
    ensures Run(t, Burst(calls)).fired + [calls[|calls| - 1].args] == PendingArgs(t) + ArgsOf(calls)
    ensures Run(t, Burst(calls)).timer
         == Timer(t.wait, t.now + Span(calls), Some(Pending(t.now + Span(calls) + t.wait, calls[|calls| - 1].args)))
    decreases |calls|
  {
    var c, rest := calls[0], calls[1..];
    assert calls == [c] + rest;
    RunSpacedCall(t, c, rest);
    var t1 := AfterCall(AfterElapse(t, c.gap).timer, c.args);
    if rest != [] {
      assert rest[0] == calls[1];
      forall i | 0 < i < |rest| ensures rest[i].gap >= t1.wait {
        assert rest[i] == calls[i + 1];
      }
      SpacedCallsRun(t1, rest);
      assert ArgsOf(calls) == [c.args] + ArgsOf(rest);
    }
  }

  /** Calls spaced at least `wait` apart each produce their own invocation, in order. */
  lemma SpacedCallsEachFire<A>(t: Timer<A>, calls: seq<Spaced<A>>)
    requires calls != []
    requires t.pending.None?
    requires forall i :: 0 < i < |calls| ==> calls[i].gap >= t.wait
    ensures Run(t, Burst(calls) + [Elapse(t.wait)]).fired == ArgsOf(calls)
    ensures Run(t, Burst(calls) + [Elapse(t.wait)]).timer.pending.None?
  {
    SpacedCallsRun(t, calls);
    RunAppend(t, Burst(calls), [Elapse(t.wait)]);
    var burst := Run(t, Burst(calls));
    var last := Run(burst.timer, [Elapse(t.wait)]);
    assert last.fired == [calls[|calls| - 1].args];
    assert PendingArgs(t) == [];
    assert burst.fired + last.fired == ArgsOf(calls);
  }

  /**
   * At most one timeout is ever pending, so `func` runs at most once per
   * call of the wrapper: invocations plus the pending one never exceed the
   * calls made plus the one pending at the start.
   */
  lemma {:induction false} AtMostOneInvocationPerCall<A>(t: Timer<A>, evs: seq<Event<A>>)
    ensures |Run(t, evs).fired| + |PendingArgs(Run(t, evs).timer)| <= Invocations(evs) + |PendingArgs(t)|
    decreases |evs|
  {
    if evs != [] {
      AtMostOneInvocationPerCall(Apply(t, evs[0]).timer, evs[1..]);
    }
  }
}
