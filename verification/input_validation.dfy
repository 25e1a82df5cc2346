/**
 * The `Hooks.InputValidation` hook of assets/js/app.js.
 *
 * The hook is attached to one input element. It reports the element's name
 * and value to its owning server component (`pushEventTo(el,
 * "validate_input", {name, value})`), immediately on the first blur that
 * finds a non-blank value, and through a 300-unit debounce on every input
 * event after that. The `Hook` datatype and `Step` say what each event does;
 * the `InputValidationHook` class is the hook object itself, with the same
 * fields the source keeps on `this`, and each of its methods is proved to
 * follow `Step`.
 */
module InputValidation {
  import opened Optional
  import opened Whitespace
  import Debounce

  /** The wait given to `debounce` when the hook is mounted. */
  const DebounceWait: nat := 300

  /** The payload of one `validate_input` event sent to the server component. */
  datatype Report = Report(name: string, value: string)

  /**
   * The state of one mounted hook: the element's name and current value,
   * `isValidatedOnce`, whether the blur and input listeners are attached, the
   * debounced reporter's timer, and every report sent so far, in order.
   */
  datatype Hook = Hook(
    name: string,
    value: string,
    validatedOnce: bool,
    attached: bool,
    timer: Debounce.Timer<()>,
    reports: seq<Report>)

  /** What can happen to a mounted hook. `Input` carries the element's new value. */
  datatype Event = Blur | Input(newValue: string) | Tick(dt: nat) | Destroy

  /** `mounted()`: not validated, both listeners attached, nothing scheduled or sent. */
  function Mount(name: string, value: string, now: int): Hook {
    Hook(name, value, false, true, Debounce.Start(DebounceWait, now), [])
  }

  /** `pushValidation`: one report carrying the element's value as it is now. */
  function Pushed(h: Hook): Hook {
    h.(reports := h.reports + [Report(h.name, h.value)])
  }

  /** The blur listener, `handleBlur`. */
  function BlurHandled(h: Hook): Hook {
    if !h.validatedOnce && Trim(h.value) != "" then Pushed(h.(validatedOnce := true)) else h
  }

  /** The input listener, `handleInput`: the debounced reporter is called with no arguments. */
  function InputHandled(h: Hook): Hook {
    if h.validatedOnce then h.(timer := Debounce.AfterCall(h.timer, ())) else h
  }

  /** Time passes; when the debounced timeout comes due, `pushValidation` runs then. */
  function Elapsed(h: Hook, dt: nat): Hook {
    var o := Debounce.AfterElapse(h.timer, dt);
    if o.fired != [] then Pushed(h.(timer := o.timer)) else h.(timer := o.timer)
  }

  /**
   * `destroyed()`: both listeners are removed. Its `clearTimeout` is guarded
   * by `this.debounceTimer`, which is `null` from mount on, so the debounced
   * reporter's timeout is left as it is.
   */
  function Detached(h: Hook): Hook {
    h.(attached := false)
  }

  /**
   * What a teardown that also cancels the debounced timeout would do; the
   * source's `destroyed()` means to, but its guard never lets it.
   */
  function DetachedCancelling(h: Hook): Hook {
    h.(attached := false, timer := h.timer.(pending := None))
  }

  /**
   * One event. A blur or input event reaches its listener only while the
   * listeners are attached; an input event changes the element's value
   * either way.
   */
  function Step(h: Hook, e: Event): Hook {
    match e
    case Blur => if h.attached then BlurHandled(h) else h
    case Input(v) => if h.attached then InputHandled(h.(value := v)) else h.(value := v)
    case Tick(dt) => Elapsed(h, dt)
    case Destroy => Detached(h)
  }

  function Run(h: Hook, evs: seq<Event>): Hook
    decreases |evs|
  {
    if evs == [] then h else Run(Step(h, evs[0]), evs[1..])
  }

  /**
   * The hook object. The fields the source keeps on `this` keep their names;
   * `attached` stands for the two registered listeners and `reports` for the
   * events sent.
   */
  class InputValidationHook {
    /** `this.el.name` */
    const name: string
    /** `this.el.value` */
    var value: string
    var isValidatedOnce: bool
    /** `this.debounceTimer`: a `setTimeout` handle, or `null`. */
    var debounceTimer: Option<nat>
    /** Whether `handleBlur` and `handleInput` are registered on the element. */
    var attached: bool
    /** The wrapper `debounce(pushValidation, 300)` returns. */
    const debouncedPushValidation: Debounce.Debouncer<()>
    /** The `validate_input` events sent by `pushEventTo`, in order. */
    var reports: seq<Report>

    ghost predicate Valid()
      reads this, debouncedPushValidation
    {
      debouncedPushValidation.wait == DebounceWait && debounceTimer == None
    }

    ghost function Model(): Hook
      reads this, debouncedPushValidation
    {
      Hook(name, value, isValidatedOnce, attached, debouncedPushValidation.Model(), reports)
    }

    /** `mounted()` on an element with the given name and value, at time `now`. */
    constructor Mounted(name: string, value: string, now: int)
      ensures Valid() && fresh(debouncedPushValidation)
      ensures Model() == Mount(name, value, now)
    {
      this.name := name;
      this.value := value;
      isValidatedOnce := false;
      debounceTimer := None;
      debouncedPushValidation := new Debounce.Debouncer(DebounceWait, now);
      attached := true;
      reports := [];
    }

    /** `pushValidation` */
    method PushValidation()
      modifies this`reports
      ensures reports == old(reports) + [Report(name, value)]
    {
      reports := reports + [Report(name, value)];
    }

    /** `handleBlur` */
    method HandleBlur()
      requires Valid()
      modifies this`isValidatedOnce, this`reports
      ensures Valid()
      ensures Model() == BlurHandled(old(Model()))
    {
      if !isValidatedOnce && Trim(value) != "" {
        isValidatedOnce := true;
        PushValidation();
      }
    }

    /** `handleInput` */
    method HandleInput()
      requires Valid()
      modifies debouncedPushValidation
      ensures Valid()
      ensures Model() == InputHandled(old(Model()))
    {
      if isValidatedOnce {
        debouncedPushValidation.Call(());
      }
    }

    /** The element loses focus. */
    method BlurEvent()
      requires Valid()
      modifies this
      ensures Valid()
      ensures Model() == Step(old(Model()), Event.Blur)
    {
      if attached {
        HandleBlur();
      }
    }

    /** The user changes the element's value to `v`. */
    method InputEvent(v: string)
      requires Valid()
      modifies this, debouncedPushValidation
      ensures Valid()
      ensures Model() == Step(old(Model()), Event.Input(v))
    {
      value := v;
      if attached {
        HandleInput();
      }
    }

    /** `dt` time units pass; the debouncedPushValidation `pushValidation` runs if it comes due. */
    method Elapse(dt: nat)
      requires Valid()
      modifies this, debouncedPushValidation
      ensures Valid()
      ensures Model() == Step(old(Model()), Event.Tick(dt))
    {
      var fired := debouncedPushValidation.Elapse(dt);
      if fired != [] {
        PushValidation();
      }
    }

    /** `destroyed()` */
    method Destroyed()
      requires Valid()
      modifies this
      ensures Valid()
      ensures Model() == Step(old(Model()), Event.Destroy)
    {
      attached := false;
      if debounceTimer.Some? {
        // `clearTimeout(this.debounceTimer)`: never reached, nothing stores a handle here
        assert false;
      }
    }
  }
}
