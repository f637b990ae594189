/** Nested atomic sections over the process signal mask, interrupted by signal handlers
    wherever the mask allows, and the sleep that opens the mask inside a section. */
module AtomicSections {
  type Signal = nat
  type Mask = set<Signal>

  /** Places inside the two primitives, named after what comes next; `Inside` is a section's own code. */
  datatype Phase =
    | Blocking               // before the mask change of __nesc_disable_interrupt
    | Testing(temp: Mask)    // before its test of the flag
    | Saving(temp: Mask)     // before it stores the previous mask
    | Clearing               // before it clears the flag
    | Inside
    | Ending                 // before the test of __nesc_atomic_end
    | Enabling               // before __nesc_enable_interrupt sets the flag
    | Restoring              // before its mask change

  datatype Frame =
    | Starting                                // an atomic section, before the flag is read
    | Section(prev: bool, at: Phase)          // after that
    | Sleep(at: Phase)                        // opened in the code of a section; it waits at `Blocking`
    | Handler(blocked: Mask, resume: Mask)    // a signal handler; the system puts `resume` back at its end

  datatype Stack = Bottom | Push(top: Frame, rest: Stack)

  /** The flag, the saved mask, the mask in force, and the code in progress. */
  datatype State = State(enabled: bool, saved: Mask, mask: Mask, stack: Stack)

  datatype Event =
    | CallStart
    | CallEnd
    | CallSleep
    | Go                                        // the next step of the code in progress
    | Deliver(signal: Signal, blocked: Mask)    // a signal, and what its handler blocks
    | Return

  predicate InSection(st: Stack) {
    st.Push? && st.top.Section? && st.top.at.Inside?
  }

  /** Code that may begin an atomic section: the program, a handler, or the code of a section. */
  predicate CanCall(st: Stack) {
    st.Bottom? || st.top.Handler? || InSection(st)
  }

  predicate Enabled(all: Mask, s: State, e: Event) {
    match e
    case CallStart => CanCall(s.stack)
    case CallEnd => InSection(s.stack)
    case CallSleep => InSection(s.stack)
    case Go => s.stack.Push? && !s.stack.top.Handler? && !InSection(s.stack)
    case Deliver(signal, blocked) => signal in all && signal !in s.mask && blocked <= all
    case Return => s.stack.Push? && s.stack.top.Handler?
  }

  function At(st: Stack, at: Phase): Stack
    requires st.Push? && (st.top.Section? || st.top.Sleep?)
  {
    Push(if st.top.Section? then Section(st.top.prev, at) else Sleep(at), st.rest)
  }

  /** One step of the primitives. */
  function Go1(all: Mask, s: State): State
    requires Enabled(all, s, Go)
  {
    var st := s.stack;
    if st.top.Starting? then s.(stack := Push(Section(s.enabled, Blocking), st.rest))
    else
      match st.top.at
      case Blocking => s.(mask := s.mask + all, stack := At(st, Testing(s.mask)))
      case Testing(temp) => s.(stack := if s.enabled then At(st, Saving(temp)) else Disabled(st))
      case Saving(temp) => s.(saved := temp, stack := At(st, Clearing))
      case Clearing => s.(enabled := false, stack := Disabled(st))
      case Inside => s
      case Ending => s.(stack := if st.top.Section? && st.top.prev then At(st, Enabling) else st.rest)
      case Enabling => s.(enabled := true, stack := At(st, Restoring))
      case Restoring => s.(mask := s.saved, stack := if st.top.Section? then st.rest else At(st, Blocking))
  }

  /** After __nesc_disable_interrupt a section runs its code, and a sleep is over. */
  function Disabled(st: Stack): Stack
    requires st.Push? && (st.top.Section? || st.top.Sleep?)
  {
    if st.top.Section? then At(st, Inside) else st.rest
  }

  function Step(all: Mask, s: State, e: Event): State
    requires Enabled(all, s, e)
  {
    match e
    case CallStart => s.(stack := Push(Starting, s.stack))
    case CallEnd => s.(stack := At(s.stack, Ending))
    case CallSleep => s.(stack := Push(Sleep(Enabling), s.stack))
    case Go => Go1(all, s)
    case Deliver(_, blocked) => s.(mask := s.mask + blocked, stack := Push(Handler(blocked, s.mask), s.stack))
    case Return => s.(mask := s.stack.top.resume, stack := s.stack.rest)
  }

  predicate Possible(all: Mask, s: State, events: seq<Event>)
    decreases |events|
  {
    events == [] || (Enabled(all, s, events[0]) && Possible(all, Step(all, s, events[0]), events[1..]))
  }

  function Run(all: Mask, s: State, events: seq<Event>): State
    requires Possible(all, s, events)
    decreases |events|
  {
    if events == [] then s else Run(all, Step(all, s, events[0]), events[1..])
  }

  /** Before anything has run, under a mask `base`. */
  function Start(base: Mask): State {
    State(true, {}, base, Bottom)
  }

  // ---- What the flag and the masks are, from the code in progress alone

  function FlagOf(st: Stack): bool {
    if st.Bottom? then true
    else
      match st.top
      case Starting => FlagOf(st.rest)
      case Handler(_, _) => FlagOf(st.rest)
      case Sleep(at) => !at.Enabling?
      case Section(_, at) =>
        if at.Blocking? || at.Testing? then FlagOf(st.rest) else at.Saving? || at.Clearing? || at.Restoring?
  }

  function MaskOf(all: Mask, base: Mask, st: Stack): Mask {
    if st.Bottom? then base
    else
      match st.top
      case Starting => MaskOf(all, base, st.rest)
      case Handler(blocked, _) => MaskOf(all, base, st.rest) + blocked
      case Sleep(at) => if at.Blocking? then Outside(all, base, st.rest) else all
      case Section(_, at) => if at.Blocking? then MaskOf(all, base, st.rest) else all
  }

  /** The mask outside the outermost of the sections that have the interrupts disabled. */
  function Outside(all: Mask, base: Mask, st: Stack): Mask {
    if st.Bottom? then base
    else if !st.top.Sleep? && FlagOf(st.rest) then MaskOf(all, base, st.rest)
    else Outside(all, base, st.rest)
  }

  predicate NeedsSaved(st: Stack) {
    !FlagOf(st) || (st.Push? && (st.top.Section? || st.top.Sleep?) && (st.top.at.Clearing? || st.top.at.Restoring?))
  }

  predicate Temp(at: Phase, mask: Mask) {
    at.Testing? || at.Saving? ==> at.temp == mask
  }

  predicate WellStacked(all: Mask, base: Mask, st: Stack) {
    st.Push? ==>
      && WellStacked(all, base, st.rest)
      && match st.top
         case Starting => CanCall(st.rest)
         case Section(prev, at) =>
           && CanCall(st.rest) && prev == FlagOf(st.rest) && Temp(at, MaskOf(all, base, st.rest))
           && (at.Saving? || at.Clearing? || at.Enabling? || at.Restoring? ==> prev)
         case Sleep(at) => InSection(st.rest) && Temp(at, Outside(all, base, st.rest)) && !at.Inside? && !at.Ending?
         case Handler(blocked, resume) =>
           blocked <= all && resume == MaskOf(all, base, st.rest) && FlagOf(st.rest) && !NeedsSaved(st.rest)
  }

  predicate Inv(all: Mask, base: Mask, s: State) {
    && base <= all && WellStacked(all, base, s.stack)
    && s.enabled == FlagOf(s.stack)
    && s.mask == MaskOf(all, base, s.stack)
    && (NeedsSaved(s.stack) ==> s.saved == Outside(all, base, s.stack))
  }

  lemma {:induction false} MasksWithin(all: Mask, base: Mask, st: Stack)
    requires base <= all && WellStacked(all, base, st)
    ensures MaskOf(all, base, st) <= all && Outside(all, base, st) <= all
    decreases st
  {
    if st.Push? { MasksWithin(all, base, st.rest); }
  }

  /** A signal finds the flag set and the saved mask not needed. */
  lemma OpenMeansEnabled(all: Mask, base: Mask, st: Stack)
    requires base <= all && WellStacked(all, base, st) && MaskOf(all, base, st) != all
    ensures FlagOf(st) && !NeedsSaved(st)
    decreases st
  {
  }

  lemma StepKeeps(all: Mask, base: Mask, s: State, e: Event)
    requires Inv(all, base, s) && Enabled(all, s, e)
    ensures Inv(all, base, Step(all, s, e))
  {
    MasksWithin(all, base, s.stack);
    if e.Deliver? {
      OpenMeansEnabled(all, base, s.stack);
    } else if e.Go? {
      assert s.mask + all == all;
    }
  }

  lemma {:induction false} RunKeeps(all: Mask, base: Mask, s: State, events: seq<Event>)
    requires Inv(all, base, s) && Possible(all, s, events)
    ensures Inv(all, base, Run(all, s, events))
    decreases |events|
  {
    if events != [] {
      StepKeeps(all, base, s, events[0]);
      RunKeeps(all, base, Step(all, s, events[0]), events[1..]);
    }
  }

  /** Whatever was in progress at one moment, and whatever has run since, sections nested to any depth,
      sleeps, and handlers with sections of their own: once the same code is in progress again, the mask
      and the flag are what they were. */
  lemma NestingRestores(all: Mask, base: Mask, before: seq<Event>, between: seq<Event>)
    requires base <= all && Possible(all, Start(base), before)
    requires Possible(all, Run(all, Start(base), before), between)
    ensures var s := Run(all, Start(base), before);
            var t := Run(all, s, between);
            t.stack == s.stack ==>
              t.mask == s.mask && t.enabled == s.enabled && (!s.enabled ==> t.saved == s.saved)
  {
    RunKeeps(all, base, Start(base), before);
    RunKeeps(all, base, Run(all, Start(base), before), between);
  }

  /** Some section has made its mask change and not yet undone it, and no sleep has opened the mask since. */
  predicate Covered(st: Stack) {
    st.Push? &&
    match st.top
    case Starting => Covered(st.rest)
    case Handler(_, _) => Covered(st.rest)
    case Sleep(at) => !at.Blocking?
    case Section(_, at) => !at.Blocking? || Covered(st.rest)
  }

  lemma {:induction false} CoveredBlocksAll(all: Mask, base: Mask, st: Stack)
    requires base <= all && WellStacked(all, base, st) && Covered(st)
    ensures MaskOf(all, base, st) == all
    decreases st
  {
    MasksWithin(all, base, st);
    if !st.top.Sleep? && Covered(st.rest) { CoveredBlocksAll(all, base, st.rest); }
  }

  /** From the mask change of the outermost start to that of its end every signal is blocked:
      in no run can one be delivered there, except while a sleep waits. */
  lemma NoSignalInside(all: Mask, base: Mask, events: seq<Event>, signal: Signal, blocked: Mask)
    requires base <= all && Possible(all, Start(base), events)
    ensures var s := Run(all, Start(base), events);
            Covered(s.stack) ==> s.mask == all && !Enabled(all, s, Deliver(signal, blocked))
  {
    RunKeeps(all, base, Start(base), events);
    var s := Run(all, Start(base), events);
    if Covered(s.stack) { CoveredBlocksAll(all, base, s.stack); }
  }

  /** What the handlers in progress block. */
  function HandlersBlock(st: Stack): Mask {
    if st.Bottom? then {}
    else if st.top.Handler? then HandlersBlock(st.rest) + st.top.blocked
    else HandlersBlock(st.rest)
  }

  predicate NoneBlocks(st: Stack) {
    st.Push? ==> NoneBlocks(st.rest) && !st.top.Sleep? && (st.top.Section? ==> st.top.at.Blocking?)
  }

  lemma {:induction false} OpenMask(all: Mask, base: Mask, st: Stack)
    requires NoneBlocks(st)
    ensures MaskOf(all, base, st) == base + HandlersBlock(st)
    decreases st
  {
    if st.Push? { OpenMask(all, base, st.rest); }
  }

  /** Outside all sections no signal stays blocked: one can be delivered exactly when neither the program's
      first mask nor a handler in progress blocks it. */
  lemma OpenOutside(all: Mask, base: Mask, events: seq<Event>, signal: Signal)
    requires base <= all && Possible(all, Start(base), events) && signal in all
    ensures var s := Run(all, Start(base), events);
            NoneBlocks(s.stack) ==>
              (Enabled(all, s, Deliver(signal, {})) <==> signal !in base && signal !in HandlersBlock(s.stack))
  {
    RunKeeps(all, base, Start(base), events);
    var s := Run(all, Start(base), events);
    if NoneBlocks(s.stack) { OpenMask(all, base, s.stack); }
  }

  // ---- The four calls, undisturbed

  function Disable(all: Mask, s: State): State {
    State(false, if s.enabled then s.mask else s.saved, s.mask + all, s.stack)
  }

  function Enable(s: State): State {
    State(true, s.saved, s.saved, s.stack)
  }

  /** __nesc_atomic_start, step by step without a signal, has the effect the whole call has. */
  lemma StartAlone(all: Mask, s: State)
    requires CanCall(s.stack)
    ensures var events := if s.enabled then [CallStart, Go, Go, Go, Go, Go] else [CallStart, Go, Go, Go];
            Possible(all, s, events) &&
            Run(all, s, events) == Disable(all, s).(stack := Push(Section(s.enabled, Inside), s.stack))
  {
    var s1 := Step(all, s, CallStart);
    var s2 := Step(all, s1, Go);
    var s3 := Step(all, s2, Go);
    var s4 := Step(all, s3, Go);
    if s.enabled {
      var s5 := Step(all, s4, Go);
      var s6 := Step(all, s5, Go);
      Last(all, s5, Go);
      Before(all, s4, Go, [Go]);
      Before(all, s3, Go, [Go, Go]);
      Before(all, s2, Go, [Go, Go, Go]);
      Before(all, s1, Go, [Go, Go, Go, Go]);
      Before(all, s, CallStart, [Go, Go, Go, Go, Go]);
    } else {
      Last(all, s3, Go);
      Before(all, s2, Go, [Go]);
      Before(all, s1, Go, [Go, Go]);
      Before(all, s, CallStart, [Go, Go, Go]);
    }
  }

  /** And so has __nesc_atomic_end. */
  lemma EndAlone(all: Mask, s: State)
    requires InSection(s.stack)
    ensures var prev := s.stack.top.prev;
            var events := if prev then [CallEnd, Go, Go, Go] else [CallEnd, Go];
            Possible(all, s, events) &&
            Run(all, s, events) == (if prev then Enable(s) else s).(stack := s.stack.rest)
  {
    var s1 := Step(all, s, CallEnd);
    if s.stack.top.prev {
      var s2 := Step(all, s1, Go);
      var s3 := Step(all, s2, Go);
      Last(all, s3, Go);
      Before(all, s2, Go, [Go]);
      Before(all, s1, Go, [Go, Go]);
      Before(all, s, CallEnd, [Go, Go, Go]);
    } else {
      Last(all, s1, Go);
      Before(all, s, CallEnd, [Go]);
    }
  }

  lemma Last(all: Mask, s: State, e: Event)
    requires Enabled(all, s, e)
    ensures Possible(all, s, [e]) && Run(all, s, [e]) == Step(all, s, e)
  {
  }

  lemma Before(all: Mask, s: State, e: Event, events: seq<Event>)
    requires Enabled(all, s, e) && Possible(all, Step(all, s, e), events)
    ensures Possible(all, s, [e] + events) && Run(all, s, [e] + events) == Run(all, Step(all, s, e), events)
  {
  }

  class Interrupts {
    const all: Mask
    var interruptsEnabled: bool
    var globalSigmask: Mask
    var mask: Mask    // of the process

    ghost function View(): State
      reads this
    {
      State(interruptsEnabled, globalSigmask, mask, Bottom)
    }

    constructor (all: Mask, mask: Mask)
      ensures this.all == all && View() == Start(mask)
    {
      this.all, this.mask := all, mask;
      interruptsEnabled, globalSigmask := true, {};
    }

    method DisableInterrupt()
      modifies this
      ensures View() == Disable(all, old(View()))
    {
      var tempSigmask := mask;
      mask := mask + all;
      if interruptsEnabled {
        globalSigmask := tempSigmask;
        interruptsEnabled := false;
      }
    }

    method EnableInterrupt()
      modifies this
      ensures View() == Enable(old(View()))
    {
      interruptsEnabled := true;
      mask := globalSigmask;
    }

    method AtomicStart() returns (prev: bool)
      modifies this
      ensures prev == old(interruptsEnabled) && View() == Disable(all, old(View()))
    {
      prev := interruptsEnabled;
      DisableInterrupt();
    }

    method AtomicEnd(reenable: bool)
      modifies this
      ensures View() == if reenable then Enable(old(View())) else old(View())
    {
      if reenable {
        EnableInterrupt();
      }
    }
  }
}
