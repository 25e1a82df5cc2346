/**
 * What the validation hook guarantees over whole sequences of events: the
 * validated flag never reverts, nothing is sent before the first qualifying
 * blur, a typing burst collapses to one report carrying the last value, and
 * what teardown does and does not stop.
 */
module InputValidationProperties {
  import opened Optional
  import opened Whitespace
  import Debounce
  import opened InputValidation

  /** Inputs typed `gap` time units after the event before each. */
  function Typing(inputs: seq<Debounce.Spaced<string>>): seq<Event> {
    if inputs == [] then []
    else [Tick(inputs[0].gap), Input(inputs[0].args)] + Typing(inputs[1..])
  }

  /** No time passes during `evs`. */
  predicate NoTicks(evs: seq<Event>) {
    forall i :: 0 <= i < |evs| ==> !evs[i].Tick?
  }

  /** Running two event sequences one after the other. */
  lemma {:induction false} RunAppend(h: Hook, xs: seq<Event>, ys: seq<Event>)
    ensures Run(h, xs + ys) == Run(Run(h, xs), ys)
    decreases |xs|
  {
    if xs == [] {
      assert xs + ys == ys;
    } else {
      assert (xs + ys)[0] == xs[0];
      assert (xs + ys)[1..] == xs[1..] + ys;
      RunAppend(Step(h, xs[0]), xs[1..], ys);
    }
  }

  /**
   * `isValidatedOnce` never goes back to false, it only becomes true through
   * a blur, and no event changes the element's name or the debounce wait.
   */
  lemma {:induction false} ValidatedNeverReverts(h: Hook, evs: seq<Event>)
    ensures h.validatedOnce ==> Run(h, evs).validatedOnce
    ensures Run(h, evs).validatedOnce && !h.validatedOnce ==> Event.Blur in evs
    ensures Run(h, evs).name == h.name && Run(h, evs).timer.wait == h.timer.wait
    decreases |evs|
  {
    if evs != [] {
      ValidatedNeverReverts(Step(h, evs[0]), evs[1..]);
      if Run(h, evs).validatedOnce && !h.validatedOnce && !Step(h, evs[0]).validatedOnce {
        assert Event.Blur in evs[1..];
        assert evs == [evs[0]] + evs[1..];
      }
    }
  }

  /**
   * A blur changes the hook exactly when the listeners are attached, the
   * hook is not yet validated and the value is not blank; it then sets the
   * flag and sends one report with the current value, and schedules nothing.
   */
  lemma BlurReportsOnlyFirstNonBlank(h: Hook)
    ensures Step(h, Blur) != h <==> h.attached && !h.validatedOnce && !AllWhitespace(h.value)
    ensures Step(h, Blur) != h ==>
      Step(h, Blur) == h.(validatedOnce := true, reports := h.reports + [Report(h.name, h.value)])
  {
    TrimEmptyIffBlank(h.value);
  }

  /**
   * Until the hook is validated nothing is sent and nothing is scheduled:
   * if the flag is still false after a run that started with no timeout
   * pending, no report was sent and none is pending.
   */
  lemma {:induction false} SilentUntilValidated(h: Hook, evs: seq<Event>)
    requires !Run(h, evs).validatedOnce
    requires h.timer.pending.None?
    ensures Run(h, evs).reports == h.reports
    ensures Run(h, evs).timer.pending.None?
    decreases |evs|
  {
    ValidatedNeverReverts(h, evs);
    if evs != [] {
      var h1 := Step(h, evs[0]);
      ValidatedNeverReverts(h1, evs[1..]);
      assert !h1.validatedOnce;
      SilentUntilValidated(h1, evs[1..]);
    }
  }

  /** A blur, input or teardown sends at most the first blur's report. */
  lemma UntimedStep(h: Hook, e: Event)
    requires !e.Tick?
    ensures Step(h, e).name == h.name && (h.validatedOnce ==> Step(h, e).validatedOnce)
    ensures Step(h, e).reports == h.reports
         || (!h.validatedOnce && Step(h, e).validatedOnce && !AllWhitespace(h.value)
             && Step(h, e).reports == h.reports + [Report(h.name, h.value)])
  {
    TrimEmptyIffBlank(h.value);
  }

  /**
   * Without time passing the debounced reporter never runs, so the only
   * report that can be sent is the first blur's: at most one, only if the
   * hook was not validated, and never with a blank value.
   */
  lemma {:induction false} AtMostOneImmediateReport(h: Hook, evs: seq<Event>)
    requires NoTicks(evs)
    ensures h.reports <= Run(h, evs).reports
    ensures |Run(h, evs).reports| <= |h.reports| + (if h.validatedOnce then 0 else 1)
    ensures |Run(h, evs).reports| > |h.reports| ==>
      Run(h, evs).reports[|h.reports|].name == h.name
      && !AllWhitespace(Run(h, evs).reports[|h.reports|].value)
    decreases |evs|
  {
    if evs != [] {
      var h1 := Step(h, evs[0]);
      assert NoTicks(evs[1..]) by {
        forall i | 0 <= i < |evs[1..]| ensures !evs[1..][i].Tick? {
          assert evs[1..][i] == evs[i + 1];
        }
      }
      assert Run(h, evs) == Run(h1, evs[1..]);
      UntimedStep(h, evs[0]);
      AtMostOneImmediateReport(h1, evs[1..]);
      if h1.reports != h.reports {
        assert Run(h, evs).reports == h1.reports;
      }
    }
  }

  /** The tick and input of one typed value. */
  lemma RunTypedInput(h: Hook, c: Debounce.Spaced<string>, rest: seq<Debounce.Spaced<string>>)
    ensures Run(h, Typing([c] + rest)) == Run(Step(Step(h, Tick(c.gap)), Input(c.args)), Typing(rest))
  {
    var evs := [Tick(c.gap), Input(c.args)];
    assert ([c] + rest)[1..] == rest;
    assert Typing([c] + rest) == evs + Typing(rest);
    RunAppend(h, evs, Typing(rest));
    assert evs[1..] == [Input(c.args)];
    assert evs[1..][1..] == [];
  }

  /**
   * While a validated hook is attached, typing whose inputs follow each
   * other by less than the debounce wait sends nothing: the value is the
   * last one typed and one report is pending, due a wait after the last input.
   */
  lemma {:induction false} TypingLeavesOnePending(h: Hook, inputs: seq<Debounce.Spaced<string>>)
    requires inputs != [] && h.attached && h.validatedOnce
    requires h.timer.pending.None? || h.timer.now + inputs[0].gap < h.timer.pending.value.deadline
    requires forall i :: 0 < i < |inputs| ==> inputs[i].gap < h.timer.wait
    ensures Run(h, Typing(inputs)) == h.(
      value := inputs[|inputs| - 1].args,
      timer := Debounce.Timer(h.timer.wait, h.timer.now + Debounce.Span(inputs),
        Some(Debounce.Pending(h.timer.now + Debounce.Span(inputs) + h.timer.wait, ()))))
    decreases |inputs|
  {
    var c, rest := inputs[0], inputs[1..];
    assert inputs == [c] + rest;
    RunTypedInput(h, c, rest);
    var h1 := Step(Step(h, Tick(c.gap)), Input(c.args));
    if rest != [] {
      assert rest[0] == inputs[1];
      forall i | 0 < i < |rest| ensures rest[i].gap < h1.timer.wait {
        assert rest[i] == inputs[i + 1];
      }
      TypingLeavesOnePending(h1, rest);
    }
  }

  /**
   * A typing burst on a validated, attached hook collapses into one report,
   * carrying the last value typed, sent when the quiet period after the
   * last input reaches the 300-unit wait, and into none before that.
   */
  lemma TypingBurstReportsLastValue(h: Hook, inputs: seq<Debounce.Spaced<string>>, quiet: nat)
    requires inputs != [] && h.attached && h.validatedOnce && h.timer.wait == DebounceWait
    requires h.timer.pending.None? || h.timer.now + inputs[0].gap < h.timer.pending.value.deadline
    requires forall i :: 0 < i < |inputs| ==> inputs[i].gap < DebounceWait
    ensures Run(h, Typing(inputs) + [Tick(quiet)]).reports
         == h.reports + if quiet >= DebounceWait then [Report(h.name, inputs[|inputs| - 1].args)] else []
  {
    TypingLeavesOnePending(h, inputs);
    RunAppend(h, Typing(inputs), [Tick(quiet)]);
  }

  /**
   * A report sent when the debounced timeout runs carries the value the
   * element has at that moment: the debounced call captured no value.
   */
  lemma DebouncedReportReadsValueWhenFired(h: Hook, dt: nat)
    ensures Step(h, Tick(dt)).reports != h.reports <==>
      h.timer.pending.Some? && h.timer.pending.value.deadline <= h.timer.now + dt
    ensures Step(h, Tick(dt)).reports != h.reports ==>
      Step(h, Tick(dt)).reports == h.reports + [Report(h.name, h.value)]
  {
  }

  /**
   * Once the listeners are gone, blur and input events no longer reach the
   * hook: the flag stays as it is and nothing new is scheduled. Time still
   * runs the timeout that was pending, so at most that one report is sent.
   */
  lemma {:induction false} DetachedHookOnlyRunsPendingTimeout(h: Hook, evs: seq<Event>)
    requires !h.attached
    ensures !Run(h, evs).attached && Run(h, evs).validatedOnce == h.validatedOnce
    ensures Run(h, evs).timer.pending.None? || Run(h, evs).timer.pending == h.timer.pending
    ensures h.reports <= Run(h, evs).reports
    ensures |Run(h, evs).reports| + |Debounce.PendingArgs(Run(h, evs).timer)|
         <= |h.reports| + |Debounce.PendingArgs(h.timer)|
    decreases |evs|
  {
    if evs != [] {
      DetachedHookOnlyRunsPendingTimeout(Step(h, evs[0]), evs[1..]);
    }
  }

  /**
   * `destroyed()` does not cancel the debounced timeout: a report pending
   * at teardown is still sent when it comes due, after the listeners are gone.
   */
  lemma PendingReportOutlivesDestroy(h: Hook)
    requires h.timer.pending.Some?
    ensures var d := h.timer.pending.value.deadline;
            var dt := if d <= h.timer.now then 0 else d - h.timer.now;
            Run(h, [Destroy, Tick(dt)]).reports == h.reports + [Report(h.name, h.value)]
  {
    var d := h.timer.pending.value.deadline;
    var dt := if d <= h.timer.now then 0 else d - h.timer.now;
    var evs := [Destroy, Tick(dt)];
    assert evs[1..] == [Tick(dt)] && evs[1..][1..] == [];
    var h1 := Step(h, Destroy);
    assert Run(h, evs) == Run(h1, [Tick(dt)]);
    assert Run(h1, [Tick(dt)]) == Step(h1, Tick(dt));
  }

  /** One trace: a report goes out 300 units after a mounted field is destroyed. */
  lemma ReportAfterDestroyExample()
    ensures Run(Mount("email", "", 0), [Input("a@b.c"), Blur, Input("a@b.co"), Destroy, Tick(300)]).reports
         == [Report("email", "a@b.c"), Report("email", "a@b.co")]
  {
    var evs := [Input("a@b.c"), Blur, Input("a@b.co"), Destroy, Tick(300)];
    var h0 := Mount("email", "", 0);
    var h1 := h0.(value := "a@b.c");
    assert Step(h0, Input("a@b.c")) == h1;
    assert !AllWhitespace("a@b.c") by {
      assert !IsWhitespace("a@b.c"[0]);
    }
    BlurReportsOnlyFirstNonBlank(h1);
    var h2 := h1.(validatedOnce := true, reports := [Report("email", "a@b.c")]);
    assert Step(h1, Blur) == h2;
    var h3 := h2.(value := "a@b.co", timer := Debounce.AfterCall(h2.timer, ()));
    assert Step(h2, Input("a@b.co")) == h3;
    var h4 := h3.(attached := false);
    assert Step(h3, Destroy) == h4;
    var h5 := Step(h4, Tick(300));
    assert h5.reports == [Report("email", "a@b.c"), Report("email", "a@b.co")];
    assert evs[1..][1..] == evs[2..] && evs[2..][1..] == evs[3..] && evs[3..][1..] == evs[4..];
    assert evs[4..] == [Tick(300)] && evs[4..][1..] == [];
    calc {
      Run(h0, evs);
      Run(h1, evs[1..]);
      Run(h2, evs[2..]);
      Run(h3, evs[3..]);
      Run(h4, evs[4..]);
      Run(h5, []);
    }
  }

  /**
   * With a teardown that does cancel the timeout, nothing is ever sent after
   * it, whatever events follow.
   */
  lemma {:induction false} CancellingDestroyIsSilent(h: Hook, evs: seq<Event>)
    ensures Run(DetachedCancelling(h), evs).reports == h.reports
  {
    DetachedAndIdleStaysSilent(DetachedCancelling(h), evs);
  }

  lemma {:induction false} DetachedAndIdleStaysSilent(h: Hook, evs: seq<Event>)
    requires !h.attached && h.timer.pending.None?
    ensures Run(h, evs).reports == h.reports && Run(h, evs).timer.pending.None?
    decreases |evs|
  {
    if evs != [] {
      DetachedAndIdleStaysSilent(Step(h, evs[0]), evs[1..]);
    }
  }
}
