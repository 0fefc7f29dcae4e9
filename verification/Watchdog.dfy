/** AbsTimeout's handshake between a caller of `getDelay` (or the destructor) and the
    watchdog thread, as interleaved steps over two mutexes and two condition variables.
    A wait on a condition variable gives up its mutex and falls asleep in one step; a
    notification moves a sleeper to where it asks for the mutex again. */
module Watchdog {

  datatype Thread = Nobody | Caller | Dog

  datatype CallerAt =
    | Idle
    // getDelay
    | LockDone | ResetProvided | NotifyDone | LockDelay | UnlockDone
    | CheckProvided | WaitDelay | RelockDelay | ReadDelay | ClearProvided | UnlockDelay
    // destructor
    | StopLock | StopSet | StopNotify | StopUnlock | Join | Gone

  datatype DogAt =
    | Start
    | Head | SampleStart
    // wait_for with its predicate; `timedOut` is how the inner wait ended
    | CheckWait(timedOut: bool) | Asleep | Relock(timedOut: bool)
    | TakeDelay | SampleNow | AddDelay | SetProvided | NotifyDelay | GiveDelay
    | Exited

  /** One finished `getDelay`: the value returned, the moment at which the call reset
      `_delayProvided`, the delay that was due at that moment, the moment of the clock
      sample behind the value, and the moment at which the value was read. */
  datatype Answer = Answer(delay: nat, resetAt: nat, due: nat, sampledAt: nat, readAt: nat)

  datatype State = State(
    caller: CallerAt, dog: DogAt,
    doneMutex: Thread, delayMutex: Thread,
    done: bool, delayProvided: bool, delay: nat,
    clock: nat, start: nat, sample: nat,    // the clock and the watchdog's two samples
    copy: nat,                              // the caller's local copy of the delay
    moment: nat,                            // counts the steps taken so far
    resetAt: nat, dueAtReset: nat, sampledAt: nat, writtenAt: nat, readAt: nat,
    answers: seq<Answer>)

  const PERIOD: nat := 100_000_000

  datatype Action =
    | CallerStep | DogStep
    | BeginGetDelay | BeginDestructor
    | Tick(ticks: nat)
    | Timeout
    | SpuriousDog | SpuriousCaller

  // ------------------------------------------------------------------------ what is due

  /** The watchdog has sampled the start of its wait and not yet the end. */
  predicate Started(at: DogAt) {
    at.CheckWait? || at.Asleep? || at.Relock? || at.TakeDelay? || at.SampleNow?
  }

  /** What the watchdog adds to the delay after a wait. */
  function Excess(slept: int): nat { if slept > PERIOD then slept - PERIOD else 0 }

  /** By how much more than the 100 milliseconds of its period a wait took. */
  function Overrun(start: nat, end: nat): nat {
    if end <= start + 100_000_000 then 0 else end - start - 100_000_000
  }

  /** By how much the wait in progress has gone beyond its period, which is how long the
      program was stopped, and has not been added to the delay yet. */
  function Pending(s: State): nat {
    if Started(s.dog) then Overrun(s.start, s.clock)
    else if s.dog.AddDelay? then Overrun(s.start, s.sample)
    else 0
  }

  function Due(s: State): nat { s.delay + Pending(s) }

  // --------------------------------------------------------------------------- steps

  predicate CallerEnabled(s: State) {
    match s.caller
    case LockDone => s.doneMutex == Nobody
    case StopLock => s.doneMutex == Nobody
    case LockDelay => s.delayMutex == Nobody
    case RelockDelay => s.delayMutex == Nobody
    case Join => s.dog == Exited
    case Idle => false
    case Gone => false
    case WaitDelay => false
    case _ => true
  }

  function Woken(dog: DogAt): DogAt { if dog == Asleep then Relock(false) else dog }

  function CallerNext(s: State): State {
    match s.caller
    case LockDone => s.(caller := ResetProvided, doneMutex := Caller)
    case ResetProvided => s.(caller := NotifyDone, delayProvided := false, resetAt := s.moment, dueAtReset := Due(s))
    case NotifyDone => s.(caller := LockDelay, dog := Woken(s.dog))
    case LockDelay => s.(caller := UnlockDone, delayMutex := Caller)
    case UnlockDone => s.(caller := CheckProvided, doneMutex := Nobody)
    case CheckProvided =>
      if s.delayProvided then s.(caller := ReadDelay)
      else s.(caller := WaitDelay, delayMutex := Nobody)
    case RelockDelay => s.(caller := CheckProvided, delayMutex := Caller)
    case ReadDelay => s.(caller := ClearProvided, copy := s.delay, readAt := s.moment)
    case ClearProvided => s.(caller := UnlockDelay, delayProvided := false)
    case UnlockDelay =>
      s.(caller := Idle, delayMutex := Nobody,
         answers := s.answers + [Answer(s.copy, s.resetAt, s.dueAtReset, s.writtenAt, s.readAt)])
    case StopLock => s.(caller := StopSet, doneMutex := Caller)
    case StopSet => s.(caller := StopNotify, done := true)
    case StopNotify => s.(caller := StopUnlock, dog := Woken(s.dog))
    case StopUnlock => s.(caller := Join, doneMutex := Nobody)
    case Join => s.(caller := Gone)
    case _ => s
  }

  predicate DogEnabled(s: State) {
    match s.dog
    case Start => s.doneMutex == Nobody
    case Relock(_) => s.doneMutex == Nobody
    case TakeDelay => s.delayMutex == Nobody
    case Asleep => false
    case Exited => false
    case _ => true
  }

  function DogNext(s: State): State {
    match s.dog
    case Start => s.(dog := Head, doneMutex := Dog)
    case Head =>
      if s.done then s.(dog := Exited, doneMutex := Nobody) else s.(dog := SampleStart)
    case SampleStart => s.(dog := CheckWait(false), start := s.clock)
    case CheckWait(timedOut) =>
      if timedOut || s.done || !s.delayProvided then s.(dog := TakeDelay)
      else s.(dog := Asleep, doneMutex := Nobody)
    case Relock(timedOut) => s.(dog := CheckWait(timedOut), doneMutex := Dog)
    case TakeDelay => s.(dog := SampleNow, delayMutex := Dog)
    case SampleNow => s.(dog := AddDelay, sample := s.clock, sampledAt := s.moment)
    case AddDelay =>
      s.(dog := SetProvided, writtenAt := s.sampledAt, delay := s.delay + Excess(s.sample - s.start))
    case SetProvided => s.(dog := NotifyDelay, delayProvided := true)
    case NotifyDelay =>
      s.(dog := GiveDelay, caller := if s.caller == WaitDelay then RelockDelay else s.caller)
    case GiveDelay => s.(dog := Head, delayMutex := Nobody)
    case _ => s
  }

  predicate Enabled(s: State, a: Action) {
    match a
    case CallerStep => CallerEnabled(s)
    case DogStep => DogEnabled(s)
    case BeginGetDelay => s.caller == Idle
    case BeginDestructor => s.caller == Idle
    case Tick(_) => true
    case Timeout => s.dog == Asleep
    case SpuriousDog => s.dog == Asleep
    case SpuriousCaller => s.caller == WaitDelay
  }

  function Perform(s: State, a: Action): State {
    match a
    case CallerStep => CallerNext(s)
    case DogStep => DogNext(s)
    case BeginGetDelay => s.(caller := LockDone)
    case BeginDestructor => s.(caller := StopLock)
    case Tick(ticks) => s.(clock := s.clock + ticks)
    case Timeout => s.(dog := Relock(true))
    case SpuriousDog => s.(dog := Relock(false))
    case SpuriousCaller => s.(caller := RelockDelay)
  }

  function Next(s: State, a: Action): State { Perform(s, a).(moment := s.moment + 1) }

  /** The watchdog thread has been asked for but has not run yet. */
  const Initial: State :=
    State(Idle, Start, Nobody, Nobody, false, false, 0, 0, 0, 0, 0, 1, 0, 0, 0, 0, 0, [])

  predicate Possible(s: State, actions: seq<Action>)
    decreases |actions|
  {
    actions == [] || (Enabled(s, actions[0]) && Possible(Next(s, actions[0]), actions[1..]))
  }

  function After(s: State, actions: seq<Action>): State
    requires Possible(s, actions)
    decreases |actions|
  {
    if actions == [] then s else After(Next(s, actions[0]), actions[1..])
  }

  // ----------------------------------------------------------------------- invariant

  predicate DogHoldsDelay(at: DogAt) {
    at.SampleNow? || at.AddDelay? || at.SetProvided? || at.NotifyDelay? || at.GiveDelay?
  }

  predicate DogHoldsDone(at: DogAt) {
    at.Head? || at.SampleStart? || at.CheckWait? || at.TakeDelay? || DogHoldsDelay(at)
  }

  predicate CallerHoldsDone(at: CallerAt) {
    || at.ResetProvided? || at.NotifyDone? || at.LockDelay? || at.UnlockDone?
    || at.StopSet? || at.StopNotify? || at.StopUnlock?
  }

  predicate CallerHoldsDelay(at: CallerAt) {
    at.UnlockDone? || at.CheckProvided? || at.ReadDelay? || at.ClearProvided? || at.UnlockDelay?
  }

  /** Inside `getDelay`, after it has told the watchdog. */
  predicate Waiting(at: CallerAt) {
    at.LockDelay? || at.UnlockDone? || at.CheckProvided? || at.WaitDelay? || at.RelockDelay?
  }

  predicate InGetDelay(at: CallerAt) {
    || at.LockDone? || at.ResetProvided? || at.NotifyDone? || Waiting(at)
    || at.ReadDelay? || at.ClearProvided? || at.UnlockDelay?
  }

  /** The call has reset `_delayProvided` and has not returned. */
  predicate HasReset(at: CallerAt) {
    at.NotifyDone? || Waiting(at) || at.ReadDelay? || at.ClearProvided? || at.UnlockDelay?
  }

  predicate Stopping(at: CallerAt) {
    at.StopLock? || at.StopSet? || at.StopNotify? || at.StopUnlock? || at.Join?
  }

  predicate Locks(s: State) {
    && (s.doneMutex == Dog <==> DogHoldsDone(s.dog))
    && (s.doneMutex == Caller <==> CallerHoldsDone(s.caller))
    && (s.delayMutex == Dog <==> DogHoldsDelay(s.dog))
    && (s.delayMutex == Caller <==> CallerHoldsDelay(s.caller))
  }

  /** No thread sleeps through what it is waiting for. */
  predicate NoLostWakeUp(s: State) {
    && (s.dog.Asleep? && Waiting(s.caller) ==> s.delayProvided)
    && (s.dog.Asleep? ==> !s.caller.StopUnlock? && !s.caller.Join? && !s.caller.Gone?)
    && (s.caller.WaitDelay? && s.delayProvided ==> s.dog.NotifyDelay?)
    && (s.dog.NotifyDelay? ==> s.delayProvided)
    && (s.done <==> s.caller.StopNotify? || s.caller.StopUnlock? || s.caller.Join? || s.caller.Gone?)
    && (s.dog.Exited? ==> s.done)
    && (s.caller.Gone? ==> s.dog.Exited?)
  }

  /** What the caller can read was measured after it asked. */
  predicate Freshness(s: State) {
    && s.resetAt < s.moment && s.sampledAt < s.moment
    && (HasReset(s.caller) && DogHoldsDelay(s.dog) && !s.dog.SampleNow? ==> s.resetAt < s.sampledAt)
    && (s.dog.SetProvided? || s.dog.NotifyDelay? || s.dog.GiveDelay? ==> s.writtenAt == s.sampledAt)
    && (HasReset(s.caller) && s.delayProvided ==> s.resetAt < s.writtenAt)
    && (s.caller.ReadDelay? ==> s.delayProvided)
    && (s.caller.ClearProvided? || s.caller.UnlockDelay? ==> s.resetAt < s.writtenAt)
    && (s.caller.UnlockDelay? ==> !s.delayProvided)
  }

  /** The delay only ever accounts for time that has passed. */
  predicate Accounting(s: State) {
    && s.delay <= s.clock && s.start <= s.clock
    && (Started(s.dog) ==> s.delay <= s.start)
    && (s.dog.AddDelay? ==> s.delay <= s.start <= s.sample <= s.clock)
    && (s.caller.ClearProvided? || s.caller.UnlockDelay? ==> s.copy <= s.clock)
  }

  /** What was due when the caller asked is in what it can read. */
  predicate BreakCounted(s: State) {
    && (HasReset(s.caller) ==> s.dueAtReset <= Due(s))
    && (HasReset(s.caller) && s.delayProvided ==> s.dueAtReset <= s.delay)
    && (s.caller.ClearProvided? || s.caller.UnlockDelay? ==> s.dueAtReset <= s.copy)
  }

  /** The value was measured after the call asked, counts what was due then, and no more
      than the time that has passed. */
  predicate Right(a: Answer, clock: nat) {
    a.resetAt < a.sampledAt && a.due <= a.delay <= clock
  }

  predicate AllRight(s: State) { forall i | 0 <= i < |s.answers| :: Right(s.answers[i], s.clock) }

  predicate Inv(s: State) {
    Locks(s) && NoLostWakeUp(s) && Freshness(s) && Accounting(s) && BreakCounted(s) && AllRight(s)
  }

  lemma CallerKeepsLocks(s: State)
    requires Locks(s) && CallerEnabled(s)
    ensures Locks(Next(s, CallerStep))
  {}

  lemma CallerKeepsNoLostWakeUp(s: State)
    requires Locks(s) && NoLostWakeUp(s) && CallerEnabled(s)
    ensures NoLostWakeUp(Next(s, CallerStep))
  {}

  lemma CallerKeepsFreshness(s: State)
    requires Locks(s) && NoLostWakeUp(s) && Freshness(s) && CallerEnabled(s)
    ensures Freshness(Next(s, CallerStep))
  {}

  lemma CallerKeepsAccounting(s: State)
    requires Locks(s) && Accounting(s) && CallerEnabled(s)
    ensures Accounting(Next(s, CallerStep))
  {}

  lemma CallerKeepsBreakCounted(s: State)
    requires Locks(s) && Freshness(s) && BreakCounted(s) && CallerEnabled(s)
    ensures BreakCounted(Next(s, CallerStep))
  {}

  lemma CallerKeepsAllRight(s: State)
    requires Freshness(s) && Accounting(s) && BreakCounted(s) && AllRight(s) && CallerEnabled(s)
    ensures AllRight(Next(s, CallerStep))
  {}

  lemma DogKeepsLocks(s: State)
    requires Locks(s) && DogEnabled(s)
    ensures Locks(Next(s, DogStep))
  {}

  lemma DogKeepsNoLostWakeUp(s: State)
    requires Locks(s) && NoLostWakeUp(s) && DogEnabled(s)
    ensures NoLostWakeUp(Next(s, DogStep))
  {}

  lemma DogKeepsFreshness(s: State)
    requires Locks(s) && NoLostWakeUp(s) && Freshness(s) && DogEnabled(s)
    ensures Freshness(Next(s, DogStep))
  {}

  lemma DogKeepsAccounting(s: State)
    requires Accounting(s) && DogEnabled(s)
    ensures Accounting(Next(s, DogStep))
  {}

  lemma DogKeepsBreakCounted(s: State)
    requires Locks(s) && Accounting(s) && BreakCounted(s) && DogEnabled(s)
    ensures BreakCounted(Next(s, DogStep))
  {}

  lemma DogKeepsAllRight(s: State)
    requires AllRight(s) && DogEnabled(s)
    ensures AllRight(Next(s, DogStep))
  {
    hide Right, Locks, NoLostWakeUp;
  }

  lemma CallerKeepsInv(s: State)
    requires Inv(s) && CallerEnabled(s)
    ensures Inv(Next(s, CallerStep))
  {
    hide Next, CallerEnabled, Locks, NoLostWakeUp, Freshness, Accounting, BreakCounted, AllRight;
    CallerKeepsLocks(s);
    CallerKeepsNoLostWakeUp(s);
    CallerKeepsFreshness(s);
    CallerKeepsAccounting(s);
    CallerKeepsBreakCounted(s);
    CallerKeepsAllRight(s);
  }

  lemma DogKeepsInv(s: State)
    requires Inv(s) && DogEnabled(s)
    ensures Inv(Next(s, DogStep))
  {
    hide Next, DogEnabled, Locks, NoLostWakeUp, Freshness, Accounting, BreakCounted, AllRight;
    DogKeepsLocks(s);
    DogKeepsNoLostWakeUp(s);
    DogKeepsFreshness(s);
    DogKeepsAccounting(s);
    DogKeepsBreakCounted(s);
    DogKeepsAllRight(s);
  }

  /** Calls beginning, time passing, timeouts and spurious wake-ups. */
  lemma OthersKeepInv(s: State, a: Action)
    requires Inv(s) && Enabled(s, a) && a != CallerStep && a != DogStep
    ensures Inv(Next(s, a))
  {
    hide CallerNext, DogNext, CallerEnabled, DogEnabled;
  }

  lemma StepKeepsInv(s: State, a: Action)
    requires Inv(s) && Enabled(s, a)
    ensures Inv(Next(s, a))
  {
    hide Next, Inv, CallerEnabled, DogEnabled;
    match a
    case CallerStep => CallerKeepsInv(s);
    case DogStep => DogKeepsInv(s);
    case _ => OthersKeepInv(s, a);
  }

  lemma {:induction false} RunKeepsInv(s: State, actions: seq<Action>)
    requires Inv(s) && Possible(s, actions)
    ensures Inv(After(s, actions))
    decreases |actions|
  {
    hide Inv, Enabled, Next;
    if actions != [] {
      StepKeepsInv(s, actions[0]);
      RunKeepsInv(Next(s, actions[0]), actions[1..]);
    }
  }

  /** Main result: in every interleaving, each finished `getDelay` returned a delay whose
      clock sample was taken after that call reset `_delayProvided`. So it counts a break
      that the watchdog's wait was in when the call came, and no more than time passed. */
  lemma AnswersAreFresh(actions: seq<Action>)
    requires Possible(Initial, actions)
    ensures var s := After(Initial, actions);
            forall i | 0 <= i < |s.answers| ::
              Right(s.answers[i], s.clock)
  {
    RunKeepsInv(Initial, actions);
  }

  // ------------------------------------------------------ what the answers add up to

  /** A completed wait of the watchdog, by the clock at its two samples. */
  datatype Wait = Wait(start: nat, end: nat)

  lemma {:induction false} Appended(s: State, a: seq<Action>, b: seq<Action>)
    ensures Possible(s, a + b) <==> Possible(s, a) && Possible(After(s, a), b)
    ensures Possible(s, a + b) ==> After(s, a + b) == After(After(s, a), b)
    decreases |a|
  {
    hide Enabled, Next;
    if a == [] {
      assert a + b == b;
    } else {
      assert (a + b)[0] == a[0] && (a + b)[1..] == a[1..] + b;
      if Enabled(s, a[0]) { Appended(Next(s, a[0]), a[1..], b); }
    }
  }

  /** Every run without its last action is a run. */
  lemma PrefixPossible(actions: seq<Action>, n: nat)
    requires Possible(Initial, actions) && n <= |actions|
    ensures Possible(Initial, actions[..n])
  {
    hide Possible, After;
    Appended(Initial, actions[..n], actions[n..]);
    assert actions == actions[..n] + actions[n..];
  }

  /** The state before action `n` of a run. */
  function StateAt(actions: seq<Action>, n: nat): State
    requires Possible(Initial, actions) && n <= |actions|
  {
    PrefixPossible(actions, n);
    After(Initial, actions[..n])
  }

  lemma LastAction(actions: seq<Action>)
    requires Possible(Initial, actions) && actions != []
    ensures var n := |actions| - 1;
            && Possible(Initial, actions[..n]) && StateAt(actions, n) == After(Initial, actions[..n])
            && Enabled(StateAt(actions, n), actions[n])
            && After(Initial, actions) == Next(StateAt(actions, n), actions[n])
  {
    var n := |actions| - 1;
    Appended(Initial, actions[..n], [actions[n]]);
    assert actions == actions[..n] + [actions[n]];
    PrefixPossible(actions, n);
    OneAction(StateAt(actions, n), actions[n]);
  }

  lemma OneAction(s: State, a: Action)
    ensures Possible(s, [a]) <==> Enabled(s, a)
    ensures Enabled(s, a) ==> After(s, [a]) == Next(s, a)
  {
    hide Enabled, Next;
    assert [a][1..] == [];
  }

  lemma OneBefore(s: State, a: Action, rest: seq<Action>)
    ensures Possible(s, [a] + rest) <==> Enabled(s, a) && Possible(Next(s, a), rest)
    ensures Possible(s, [a] + rest) ==> After(s, [a] + rest) == After(Next(s, a), rest)
  {
    hide Enabled, Next;
    assert ([a] + rest)[1..] == rest;
  }

  /** The clock when the watchdog last began a wait. */
  function LastStart(actions: seq<Action>): nat
    requires Possible(Initial, actions)
    decreases |actions|
  {
    if actions == [] then 0
    else
      var n := |actions| - 1;
      PrefixPossible(actions, n);
      if actions[n] == DogStep && StateAt(actions, n).dog.SampleStart? then StateAt(actions, n).clock
      else LastStart(actions[..n])
  }

  /** All waits that the watchdog completed in a run. */
  function Waits(actions: seq<Action>): seq<Wait>
    requires Possible(Initial, actions)
    decreases |actions|
  {
    if actions == [] then []
    else
      var n := |actions| - 1;
      PrefixPossible(actions, n);
      Waits(actions[..n])
      + if actions[n] == DogStep && StateAt(actions, n).dog.SampleNow?
        then [Wait(LastStart(actions[..n]), StateAt(actions, n).clock)] else []
  }

  /** How long the program was stopped in these waits. */
  function TotalOverrun(waits: seq<Wait>): nat {
    if waits == [] then 0
    else TotalOverrun(waits[..|waits| - 1]) + Overrun(waits[|waits| - 1].start, waits[|waits| - 1].end)
  }

  lemma OverrunOneMore(waits: seq<Wait>, w: Wait)
    ensures TotalOverrun(waits + [w]) == TotalOverrun(waits) + Overrun(w.start, w.end)
  {
    assert (waits + [w])[..|waits|] == waits;
  }

  /** What was added to the delay and what is just being added. */
  function Counted(s: State): nat { s.delay + if s.dog.AddDelay? then Overrun(s.start, s.sample) else 0 }

  ghost predicate Counts(s: State, a: Action, t: State) {
    && t.moment == s.moment + 1
    && Counted(t) == Counted(s) + (if a == DogStep && s.dog.SampleNow? then Overrun(s.start, s.clock) else 0)
    && t.start == if a == DogStep && s.dog.SampleStart? then s.clock else s.start
  }

  lemma StepCounts(s: State, a: Action)
    requires Inv(s) && Enabled(s, a)
    ensures Counts(s, a, Next(s, a))
  {
    hide Next, Enabled, Inv, Counts;
    match a
    case DogStep => DogCounts(s);
    case CallerStep => CallerCounts(s);
    case _ => OthersCount(s, a);
  }

  lemma DogCounts(s: State)
    requires Inv(s)
    ensures Counts(s, DogStep, Next(s, DogStep))
  {
    hide Locks, NoLostWakeUp, Freshness, BreakCounted, AllRight;
  }

  lemma CallerCounts(s: State)
    ensures Counts(s, CallerStep, Next(s, CallerStep))
  {}

  lemma OthersCount(s: State, a: Action)
    requires Enabled(s, a) && a != DogStep && a != CallerStep
    ensures Counts(s, a, Next(s, a))
  {
    hide CallerNext, DogNext, CallerEnabled, DogEnabled;
  }

  lemma {:induction false} DelayIsOverrun(actions: seq<Action>)
    requires Possible(Initial, actions)
    ensures var s := After(Initial, actions);
            && s.moment == |actions| + 1 && s.start == LastStart(actions)
            && Counted(s) == TotalOverrun(Waits(actions))
    decreases |actions|
  {
    if actions != [] {
      var n := |actions| - 1;
      hide Possible, After, Next, Enabled, Inv, Counted, TotalOverrun;
      LastAction(actions);
      DelayIsOverrun(actions[..n]);
      ReachableInv(actions[..n]);
      var s := StateAt(actions, n);
      StepCounts(s, actions[n]);
      OverrunOneMore(Waits(actions[..n]), Wait(LastStart(actions[..n]), s.clock));
      assert Waits(actions[..n]) + [] == Waits(actions[..n]);
    }
  }

  /** While a wait is in progress when a call resets `_delayProvided`, what it has overrun
      its period by till then. */
  function DueAt(actions: seq<Action>, moment: nat): nat
    requires Possible(Initial, actions) && 0 < moment <= |actions|
  {
    Due(StateAt(actions, moment - 1))
  }

  /** The overrun of all waits that were completed before some moment. */
  function OverrunAt(actions: seq<Action>, moment: nat): nat
    requires Possible(Initial, actions) && 0 < moment <= |actions|
  {
    PrefixPossible(actions, moment - 1);
    TotalOverrun(Waits(actions[..moment - 1]))
  }

  /** When the wait began that was the last one to begin before some moment. */
  function StartAt(actions: seq<Action>, moment: nat): nat
    requires Possible(Initial, actions) && 0 < moment <= |actions|
  {
    PrefixPossible(actions, moment - 1);
    LastStart(actions[..moment - 1])
  }

  /** `delay`, read at `readAt` by a call that reset `_delayProvided` at `resetAt`, is the
      overrun of all waits completed till then, and `due` is what was due at the reset. */
  ghost predicate Adds(actions: seq<Action>, delay: nat, due: nat, resetAt: nat, readAt: nat)
    requires Possible(Initial, actions)
  {
    && 0 < resetAt <= |actions| && 0 < readAt <= |actions|
    && due == DueAt(actions, resetAt) && delay == OverrunAt(actions, readAt)
  }

  ghost predicate AllAdd(actions: seq<Action>)
    requires Possible(Initial, actions)
  {
    var s := After(Initial, actions);
    && (HasReset(s.caller) ==> 0 < s.resetAt <= |actions| && s.dueAtReset == DueAt(actions, s.resetAt))
    && (s.caller.ClearProvided? || s.caller.UnlockDelay? ==>
          Adds(actions, s.copy, s.dueAtReset, s.resetAt, s.readAt))
    && forall i | 0 <= i < |s.answers| ::
         Adds(actions, s.answers[i].delay, s.answers[i].due, s.answers[i].resetAt, s.answers[i].readAt)
  }

  lemma AddsLater(actions: seq<Action>, n: nat, delay: nat, due: nat, resetAt: nat, readAt: nat)
    requires Possible(Initial, actions) && n <= |actions|
    requires Possible(Initial, actions[..n]) && Adds(actions[..n], delay, due, resetAt, readAt)
    ensures Adds(actions, delay, due, resetAt, readAt)
  {
    hide Possible, After, Waits, TotalOverrun, Due;
    assert actions[..n][..resetAt - 1] == actions[..resetAt - 1];
    assert actions[..n][..readAt - 1] == actions[..readAt - 1];
    PrefixPossible(actions, readAt - 1);
  }

  lemma DueLater(actions: seq<Action>, n: nat, moment: nat)
    requires Possible(Initial, actions) && 0 < moment <= n <= |actions|
    requires Possible(Initial, actions[..n])
    ensures DueAt(actions, moment) == DueAt(actions[..n], moment)
  {
    hide Possible, After, Due;
    assert actions[..n][..moment - 1] == actions[..moment - 1];
  }

  /** How one action changes what a call has noted. */
  ghost predicate NotesReset(s: State, a: Action, t: State) {
    HasReset(t.caller) ==>
      if a == CallerStep && s.caller.ResetProvided? then t.resetAt == s.moment && t.dueAtReset == Due(s)
      else HasReset(s.caller) && t.resetAt == s.resetAt && t.dueAtReset == s.dueAtReset
  }

  ghost predicate NotesRead(s: State, a: Action, t: State) {
    t.caller.ClearProvided? || t.caller.UnlockDelay? ==>
      && HasReset(s.caller) && t.resetAt == s.resetAt && t.dueAtReset == s.dueAtReset
      && if a == CallerStep && s.caller.ReadDelay? then t.readAt == s.moment && t.copy == Counted(s)
         else (s.caller.ClearProvided? || s.caller.UnlockDelay?) && t.readAt == s.readAt && t.copy == s.copy
  }

  ghost predicate NotesAnswer(s: State, a: Action, t: State) {
    if a == CallerStep && s.caller.UnlockDelay?
    then t.answers == s.answers + [Answer(s.copy, s.resetAt, s.dueAtReset, s.writtenAt, s.readAt)]
    else t.answers == s.answers
  }

  ghost predicate Notes(s: State, a: Action, t: State) {
    NotesReset(s, a, t) && NotesRead(s, a, t) && NotesAnswer(s, a, t)
  }

  lemma StepNotes(s: State, a: Action)
    requires Inv(s) && Enabled(s, a)
    ensures Notes(s, a, Next(s, a))
  {
    hide Next, Enabled, Inv, Notes;
    match a
    case DogStep => DogNotes(s);
    case CallerStep => CallerNotes(s);
    case _ => OthersNote(s, a);
  }

  lemma CallerNotes(s: State)
    requires Inv(s)
    ensures Notes(s, CallerStep, Next(s, CallerStep))
  {
    hide NotesReset, NotesRead, NotesAnswer, Next, NoLostWakeUp, Freshness, Accounting, BreakCounted, AllRight;
    CallerNotesReset(s);
    CallerNotesRead(s);
    CallerNotesAnswer(s);
  }

  lemma CallerNotesReset(s: State)
    ensures NotesReset(s, CallerStep, Next(s, CallerStep))
  {
    hide Due;
  }

  lemma CallerNotesRead(s: State)
    requires Locks(s)
    ensures NotesRead(s, CallerStep, Next(s, CallerStep))
  {
    hide Due, Overrun;
  }

  lemma CallerNotesAnswer(s: State)
    ensures NotesAnswer(s, CallerStep, Next(s, CallerStep))
  {
    hide Due;
  }

  lemma DogNotes(s: State)
    ensures Notes(s, DogStep, Next(s, DogStep))
  {
    hide NotesReset, NotesRead, NotesAnswer, Next;
    DogKeepsNotes(s);
    SameNotes(s, DogStep, Next(s, DogStep));
  }

  /** The watchdog changes nothing of what the caller noted, and the caller only wakes up. */
  lemma DogKeepsNotes(s: State)
    ensures KeepsNotes(s, Next(s, DogStep))
  {
    hide Excess;
  }

  ghost predicate KeepsNotes(s: State, t: State) {
    && t.resetAt == s.resetAt && t.dueAtReset == s.dueAtReset && t.readAt == s.readAt && t.copy == s.copy
    && t.answers == s.answers
    && (t.caller == s.caller || (s.caller.WaitDelay? && t.caller.RelockDelay?))
  }

  lemma SameNotes(s: State, a: Action, t: State)
    requires KeepsNotes(s, t) && a != CallerStep
    ensures Notes(s, a, t)
  {
    hide Due, Counted;
  }

  lemma OthersNote(s: State, a: Action)
    requires Enabled(s, a) && a != DogStep && a != CallerStep
    ensures Notes(s, a, Next(s, a))
  {
    hide CallerNext, DogNext, CallerEnabled, DogEnabled, Due, Counted;
  }

  lemma {:induction false} AnswersAdd(actions: seq<Action>)
    requires Possible(Initial, actions)
    ensures AllAdd(actions)
    decreases |actions|
  {
    hide Possible, Next, Enabled, Inv, Counted, TotalOverrun, Waits, Due, DueAt, Adds;
    if actions != [] {
      var n := |actions| - 1;
      LastAction(actions);
      hide After;
      AnswersAdd(actions[..n]);
      ReachableInv(actions[..n]);
      DelayIsOverrun(actions[..n]);
      var s, t := StateAt(actions, n), After(Initial, actions);
      StepNotes(s, actions[n]);
      forall i | 0 <= i < |s.answers|
        ensures Adds(actions, s.answers[i].delay, s.answers[i].due, s.answers[i].resetAt, s.answers[i].readAt)
      {
        AddsLater(actions, n, s.answers[i].delay, s.answers[i].due, s.answers[i].resetAt, s.answers[i].readAt);
      }
      NotesAdd(actions);
    }
  }

  /** The part of it that is about the call in progress. */
  lemma NotesAdd(actions: seq<Action>)
    requires Possible(Initial, actions) && actions != []
    requires Possible(Initial, actions[..|actions| - 1]) && AllAdd(actions[..|actions| - 1])
    ensures var s, t := StateAt(actions, |actions| - 1), After(Initial, actions);
            && (HasReset(t.caller) ==> 0 < t.resetAt <= |actions| && t.dueAtReset == DueAt(actions, t.resetAt))
            && (t.caller.ClearProvided? || t.caller.UnlockDelay? ==>
                  Adds(actions, t.copy, t.dueAtReset, t.resetAt, t.readAt))
            && (s.caller.UnlockDelay? ==> Adds(actions, s.copy, s.dueAtReset, s.resetAt, s.readAt))
  {
    hide Possible, After, Next, Enabled, Inv, Counted, TotalOverrun, Waits, Due;
    var n := |actions| - 1;
    LastAction(actions);
    ReachableInv(actions[..n]);
    DelayIsOverrun(actions[..n]);
    var s, t := StateAt(actions, n), After(Initial, actions);
    StepNotes(s, actions[n]);
    if HasReset(s.caller) { DueLater(actions, n, s.resetAt); }
    if s.caller.ClearProvided? || s.caller.UnlockDelay? {
      AddsLater(actions, n, s.copy, s.dueAtReset, s.resetAt, s.readAt);
    }
  }

  /** Main result, in clock values: each answer is the sum, over all waits that the watchdog
      completed before the answer was read, of the time beyond 100 milliseconds between the
      two clock samples of the wait. One of these waits ended after the call reset
      `_delayProvided`, so if that found the watchdog in a wait, what this wait had overrun
      its period by is in the answer. */
  lemma AnswersAreOverruns(actions: seq<Action>, i: nat)
    requires Possible(Initial, actions) && i < |After(Initial, actions).answers|
    ensures var a := After(Initial, actions).answers[i];
            && 0 < a.resetAt < a.sampledAt && a.resetAt <= |actions| && 0 < a.readAt <= |actions|
            && a.delay == OverrunAt(actions, a.readAt)
            && var r := StateAt(actions, a.resetAt - 1);
               Started(r.dog) ==>
                 a.delay >= r.delay + (r.clock - StartAt(actions, a.resetAt)) - 100_000_000
  {
    hide Possible, After, TotalOverrun, Waits, Inv, LastStart;
    AnswersAdd(actions);
    AnswersAreFresh(actions);
    var a := After(Initial, actions).answers[i];
    assert Right(a, After(Initial, actions).clock);
    PrefixPossible(actions, a.resetAt - 1);
    DelayIsOverrun(actions[..a.resetAt - 1]);
  }

  // A first round, after which the watchdog sleeps; ten seconds; and one `getDelay`.

  /** `n` steps of one thread. */
  function Times(n: nat, a: Action): seq<Action> { seq(n, _ => a) }

  lemma TimesMore(m: nat, n: nat, a: Action)
    ensures Times(m + n, a) == Times(m, a) + Times(n, a)
    ensures Times(1, a) == [a]
  {}

  lemma InTwoParts(s: State, m: nat, n: nat, a: Action)
    requires Possible(s, Times(m, a)) && Possible(After(s, Times(m, a)), Times(n, a))
    ensures Possible(s, Times(m + n, a))
    ensures After(s, Times(m + n, a)) == After(After(s, Times(m, a)), Times(n, a))
  {
    hide Possible, After;
    TimesMore(m, n, a);
    Appended(s, Times(m, a), Times(n, a));
  }

  lemma Twice(s: State, a: Action)
    requires Enabled(s, a) && Enabled(Next(s, a), a)
    ensures Possible(s, Times(2, a)) && After(s, Times(2, a)) == Next(Next(s, a), a)
  {
    hide Possible, After, Enabled, Next;
    TimesMore(1, 1, a);
    OneAction(Next(s, a), a);
    OneBefore(s, a, [a]);
  }

  /** From the start of the thread to its first wait, which is none. */
  lemma StartsUp(s: State)
    requires !s.done && s.doneMutex == Nobody && s.dog.Start?
    ensures Possible(s, Times(2, DogStep))
    ensures After(s, Times(2, DogStep)) == s.(dog := SampleStart, doneMutex := Dog, moment := s.moment + 2)
  {
    hide Possible, After;
    Twice(s, DogStep);
  }

  lemma DoesNotWait(s: State)
    requires !s.delayProvided && s.dog.SampleStart?
    ensures Possible(s, Times(2, DogStep))
    ensures After(s, Times(2, DogStep)) == s.(dog := TakeDelay, start := s.clock, moment := s.moment + 2)
  {
    hide Possible, After;
    Twice(s, DogStep);
  }

  lemma WakesUp(s: State)
    requires !s.delayProvided && s.doneMutex == Nobody && s.dog == Relock(false)
    ensures Possible(s, Times(2, DogStep))
    ensures After(s, Times(2, DogStep)) == s.(dog := TakeDelay, doneMutex := Dog, moment := s.moment + 2)
  {
    hide Possible, After;
    Twice(s, DogStep);
  }

  lemma SamplesEnd(s: State)
    requires s.dog.TakeDelay? && s.delayMutex == Nobody
    ensures Possible(s, Times(2, DogStep))
    ensures After(s, Times(2, DogStep))
         == s.(dog := AddDelay, delayMutex := Dog, sample := s.clock, sampledAt := s.moment + 1, moment := s.moment + 2)
  {
    hide Possible, After;
    Twice(s, DogStep);
  }

  lemma AddsDelay(s: State)
    requires s.dog.AddDelay?
    ensures Possible(s, Times(2, DogStep))
    ensures After(s, Times(2, DogStep))
         == s.(dog := NotifyDelay, delayProvided := true, writtenAt := s.sampledAt, moment := s.moment + 2,
               delay := s.delay + Overrun(s.start, s.sample))
  {
    hide Possible, After;
    Twice(s, DogStep);
  }

  lemma Notifies(s: State)
    requires s.dog.NotifyDelay?
    ensures Possible(s, Times(2, DogStep))
    ensures After(s, Times(2, DogStep))
         == s.(dog := Head, delayMutex := Nobody, moment := s.moment + 2,
               caller := if s.caller == WaitDelay then RelockDelay else s.caller)
  {
    hide Possible, After;
    Twice(s, DogStep);
  }

  /** From the end of a wait to the next one. */
  lemma Provides(s: State)
    requires s.dog.TakeDelay? && s.delayMutex == Nobody
    ensures Possible(s, Times(6, DogStep))
    ensures After(s, Times(6, DogStep))
         == s.(dog := Head, delayProvided := true, delay := s.delay + Overrun(s.start, s.clock),
               sample := s.clock, sampledAt := s.moment + 1, writtenAt := s.moment + 1, moment := s.moment + 6,
               caller := if s.caller == WaitDelay then RelockDelay else s.caller)
  {
    hide Possible, After, Times, Overrun;
    SamplesEnd(s);
    var t := After(s, Times(2, DogStep));
    AddsDelay(t);
    Notifies(After(t, Times(2, DogStep)));
    InTwoParts(t, 2, 2, DogStep);
    InTwoParts(s, 2, 4, DogStep);
  }

  lemma FallsAsleep(s: State)
    requires s.dog.Head? && !s.done && s.delayProvided
    ensures Possible(s, Times(3, DogStep))
    ensures After(s, Times(3, DogStep))
         == s.(dog := Asleep, doneMutex := Nobody, start := s.clock, moment := s.moment + 3)
  {
    hide Possible, After;
    var t := Next(s, DogStep);
    Twice(t, DogStep);
    TimesMore(1, 2, DogStep);
    OneBefore(s, DogStep, Times(2, DogStep));
  }

  lemma SleepsAfterFirstRound(s: State)
    requires s.dog.Start? && s.doneMutex == s.delayMutex == Nobody && !s.done && !s.delayProvided && s.caller.Idle?
    ensures Possible(s, Times(13, DogStep))
    ensures var t := After(s, Times(13, DogStep));
            && t.dog == Asleep && t.caller == Idle && t.doneMutex == t.delayMutex == Nobody
            && t.start == t.clock == s.clock && t.delay == s.delay && t.answers == s.answers
  {
    hide Possible, After, Times;
    StartsUp(s);
    var s1 := After(s, Times(2, DogStep));
    DoesNotWait(s1);
    var s2 := After(s1, Times(2, DogStep));
    Provides(s2);
    FallsAsleep(After(s2, Times(6, DogStep)));
    InTwoParts(s2, 6, 3, DogStep);
    InTwoParts(s1, 2, 9, DogStep);
    InTwoParts(s, 2, 11, DogStep);
  }

  /** `getDelay` up to the notification, and from there to its wait. */
  lemma Asks(s: State)
    requires s.caller.LockDone? && s.dog.Asleep? && s.doneMutex == Nobody
    ensures Possible(s, Times(2, CallerStep))
    ensures var t := After(s, Times(2, CallerStep));
            t == s.(caller := NotifyDone, doneMutex := Caller, delayProvided := false, resetAt := s.moment + 1,
                    dueAtReset := t.dueAtReset, moment := s.moment + 2)
  {
    hide Possible, After, Due;
    Twice(s, CallerStep);
  }

  lemma Wakes(s: State)
    requires s.caller.NotifyDone? && s.dog.Asleep? && s.delayMutex == Nobody
    ensures Possible(s, Times(2, CallerStep))
    ensures After(s, Times(2, CallerStep))
         == s.(caller := UnlockDone, dog := Relock(false), delayMutex := Caller, moment := s.moment + 2)
  {
    hide Possible, After;
    Twice(s, CallerStep);
  }

  lemma GoesToWait(s: State)
    requires s.caller.UnlockDone? && !s.delayProvided
    ensures Possible(s, Times(2, CallerStep))
    ensures After(s, Times(2, CallerStep))
         == s.(caller := WaitDelay, doneMutex := Nobody, delayMutex := Nobody, moment := s.moment + 2)
  {
    hide Possible, After;
    Twice(s, CallerStep);
  }

  lemma AsksAsleep(s: State)
    requires s.caller.LockDone? && s.dog.Asleep? && s.doneMutex == s.delayMutex == Nobody
    ensures Possible(s, Times(6, CallerStep))
    ensures var t := After(s, Times(6, CallerStep));
            && t.caller == WaitDelay && t.dog == Relock(false) && t.doneMutex == t.delayMutex == Nobody
            && !t.delayProvided && t.clock == s.clock && t.start == s.start && t.delay == s.delay
            && t.answers == s.answers
  {
    hide Possible, After, Times;
    Asks(s);
    var t := After(s, Times(2, CallerStep));
    Wakes(t);
    GoesToWait(After(t, Times(2, CallerStep)));
    InTwoParts(t, 2, 2, CallerStep);
    InTwoParts(s, 2, 4, CallerStep);
  }

  lemma AnswersAfterWait(s: State)
    requires s.caller.WaitDelay? && s.dog == Relock(false) && s.doneMutex == s.delayMutex == Nobody && !s.delayProvided
    ensures Possible(s, Times(8, DogStep))
    ensures var t := After(s, Times(8, DogStep));
            && t.caller == RelockDelay && t.delayProvided && t.delayMutex == Nobody
            && t.delay == s.delay + Overrun(s.start, s.clock) && t.answers == s.answers
  {
    hide Possible, After, Times, Overrun;
    WakesUp(s);
    Provides(After(s, Times(2, DogStep)));
    InTwoParts(s, 2, 6, DogStep);
  }

  lemma Rechecks(s: State)
    requires s.caller.RelockDelay? && s.delayProvided && s.delayMutex == Nobody
    ensures Possible(s, Times(2, CallerStep))
    ensures After(s, Times(2, CallerStep)) == s.(caller := ReadDelay, delayMutex := Caller, moment := s.moment + 2)
  {
    hide Possible, After;
    Twice(s, CallerStep);
  }

  lemma ReadsDelay(s: State)
    requires s.caller.ReadDelay?
    ensures Possible(s, Times(3, CallerStep))
    ensures var t := After(s, Times(3, CallerStep));
            |t.answers| == |s.answers| + 1 && t.answers[|s.answers|].delay == s.delay
  {
    hide Possible, After;
    var t := Next(s, CallerStep);
    Twice(t, CallerStep);
    TimesMore(1, 2, CallerStep);
    OneBefore(s, CallerStep, Times(2, CallerStep));
  }

  lemma Reads(s: State)
    requires s.caller.RelockDelay? && s.delayProvided && s.delayMutex == Nobody
    ensures Possible(s, Times(5, CallerStep))
    ensures var t := After(s, Times(5, CallerStep));
            |t.answers| == |s.answers| + 1 && t.answers[|s.answers|].delay == s.delay
  {
    hide Possible, After, Times;
    Rechecks(s);
    ReadsDelay(After(s, Times(2, CallerStep)));
    InTwoParts(s, 2, 3, CallerStep);
  }

  const TenSeconds: Action := Tick(10_000_000_000)
  const Call: seq<Action> := Times(6, CallerStep) + (Times(8, DogStep) + Times(5, CallerStep))

  /** For instance, ten seconds of which the program was stopped for all but one period. */
  lemma StoppedForTenSeconds()
    ensures var run := Times(13, DogStep) + ([TenSeconds] + ([BeginGetDelay] + Call));
            && Possible(Initial, run)
            && |After(Initial, run).answers| == 1 && After(Initial, run).answers[0].delay == 9_900_000_000
  {
    hide Possible, After, Times;
    SleepsAfterFirstRound(Initial);
    var s := After(Initial, Times(13, DogStep));
    var slept := Next(s, TenSeconds);
    var called := Next(slept, BeginGetDelay);
    AsksAsleep(called);
    var asked := After(called, Times(6, CallerStep));
    AnswersAfterWait(asked);
    Reads(After(asked, Times(8, DogStep)));
    Appended(asked, Times(8, DogStep), Times(5, CallerStep));
    Appended(called, Times(6, CallerStep), Times(8, DogStep) + Times(5, CallerStep));
    OneBefore(slept, BeginGetDelay, Call);
    OneBefore(s, TenSeconds, [BeginGetDelay] + Call);
    Appended(Initial, Times(13, DogStep), [TenSeconds] + ([BeginGetDelay] + Call));
  }

  // -------------------------------------------------------------- progress, no deadlock

  predicate Active(s: State) { InGetDelay(s.caller) || Stopping(s.caller) }

  /** Main result: while a call or the destructor is in progress, one of the two threads
      can move without waiting for a timeout or a spurious wake-up. */
  lemma NoDeadlock(actions: seq<Action>)
    requires Possible(Initial, actions) && Active(After(Initial, actions))
    ensures var s := After(Initial, actions); CallerEnabled(s) || DogEnabled(s)
  {
    RunKeepsInv(Initial, actions);
    SomeoneMoves(After(Initial, actions));
  }

  lemma SomeoneMoves(s: State)
    requires Inv(s) && Active(s)
    ensures CallerEnabled(s) || DogEnabled(s)
  {}

  /** How far the caller is from returning, given whether the delay is there. */
  function CallerDistance(at: CallerAt, provided: bool): nat {
    match at
    case LockDone => 20
    case ResetProvided => 19
    case NotifyDone => 18
    case LockDelay => 17
    case UnlockDone => 16
    case RelockDelay => if provided then 6 else 15
    case CheckProvided => if provided then 5 else 14
    case WaitDelay => if provided then 7 else 13
    case ReadDelay => 4
    case ClearProvided => 3
    case UnlockDelay => 2
    case StopLock => 6
    case StopSet => 5
    case StopNotify => 4
    case StopUnlock => 3
    case Join => 2
    case _ => 0
  }

  /** How far the watchdog is from falling asleep or leaving. */
  function DogDistance(at: DogAt, round: bool): nat {
    match at
    case Start => if round then 13 else 4
    case Head => if round then 12 else 3
    case SampleStart => if round then 11 else 2
    case Relock(t) => if round || t then 11 else 2
    case CheckWait(t) => if round || t then 10 else 1
    case TakeDelay => 9
    case SampleNow => 8
    case AddDelay => 7
    case SetProvided => 6
    case NotifyDelay => if round then 14 else 5
    case GiveDelay => if round then 13 else 4
    case _ => 0
  }

  function LeavingDistance(at: DogAt): nat {
    match at
    case Start => 2
    case Head => 1
    case SampleStart => 9
    case Relock(_) => 9
    case CheckWait(_) => 8
    case TakeDelay => 7
    case SampleNow => 6
    case AddDelay => 5
    case SetProvided => 4
    case NotifyDelay => 3
    case GiveDelay => 2
    case _ => 0
  }

  function Rank(s: State): nat {
    16 * CallerDistance(s.caller, s.delayProvided)
    + if s.done then LeavingDistance(s.dog) else DogDistance(s.dog, !s.delayProvided)
  }

  predicate ThreadStep(a: Action) { a == CallerStep || a == DogStep }

  lemma CallerGetsCloser(s: State)
    requires Locks(s) && NoLostWakeUp(s) && CallerEnabled(s)
    ensures Rank(Next(s, CallerStep)) < Rank(s)
  {}

  lemma DogGetsCloser(s: State)
    requires Locks(s) && NoLostWakeUp(s) && DogEnabled(s)
    ensures Rank(Next(s, DogStep)) < Rank(s)
  {}

  lemma ThreadStepGetsCloser(s: State, a: Action)
    requires Inv(s) && Enabled(s, a) && ThreadStep(a)
    ensures Rank(Next(s, a)) < Rank(s)
  {
    hide Rank, Next, CallerEnabled, DogEnabled, Locks, NoLostWakeUp;
    if a == CallerStep { CallerGetsCloser(s); } else { DogGetsCloser(s); }
  }

  /** A wait that ends by itself sends its thread on another round: this is how much. */
  function RoundOf(a: Action): nat {
    match a
    case Timeout => 11
    case SpuriousDog => 11
    case SpuriousCaller => 32
    case _ => 0
  }

  lemma OtherActionCosts(s: State, a: Action)
    requires Inv(s) && Active(s) && Enabled(s, a) && !ThreadStep(a)
    ensures Rank(Next(s, a)) <= Rank(s) + RoundOf(a)
  {
    hide CallerNext, DogNext, CallerEnabled, DogEnabled, Freshness, Accounting, BreakCounted, AllRight;
  }

  /** How often the threads move in a run, and how long the rounds are that it allows them. */
  function ThreadSteps(actions: seq<Action>): nat {
    if actions == [] then 0 else (if ThreadStep(actions[0]) then 1 else 0) + ThreadSteps(actions[1..])
  }

  function Rounds(actions: seq<Action>): nat {
    if actions == [] then 0 else RoundOf(actions[0]) + Rounds(actions[1..])
  }

  /** The call or the destructor is still in progress at each action of the run. */
  predicate StaysActive(s: State, actions: seq<Action>)
    requires Possible(s, actions)
    decreases |actions|
  {
    actions == [] || (Active(s) && StaysActive(Next(s, actions[0]), actions[1..]))
  }

  lemma {:induction false} StepsAreBounded(s: State, actions: seq<Action>)
    requires Inv(s) && Possible(s, actions) && StaysActive(s, actions)
    ensures ThreadSteps(actions) + Rank(After(s, actions)) <= Rank(s) + Rounds(actions)
    decreases |actions|
  {
    hide Inv, Rank, Active, Next, Enabled, RoundOf;
    if actions != [] {
      StepKeepsInv(s, actions[0]);
      StepsAreBounded(Next(s, actions[0]), actions[1..]);
      if ThreadStep(actions[0]) { ThreadStepGetsCloser(s, actions[0]); } else { OtherActionCosts(s, actions[0]); }
    }
  }

  lemma RankAtMost(s: State)
    requires Inv(s)
    ensures Rank(s) < 334
  {
    hide Locks, Freshness, Accounting, BreakCounted, AllRight;
  }

  lemma ReachableInv(history: seq<Action>)
    requires Possible(Initial, history)
    ensures Inv(After(Initial, history))
  {
    InitialInv();
    hide Inv;
    RunKeepsInv(Initial, history);
  }

  lemma InitialInv()
    ensures Inv(Initial)
  {}

  /** Main result: a call or the destructor ends after a bounded number of steps of the two
      threads, whatever the schedule. In any run from any reachable state through which it
      stays in progress, with clock ticks, timeouts and spurious wake-ups, the threads take
      fewer than 334 steps and 11 or 32 more for each wait that ended by itself. */
  lemma CallEnds(history: seq<Action>, actions: seq<Action>)
    requires Possible(Initial, history) && Possible(After(Initial, history), actions)
    requires StaysActive(After(Initial, history), actions)
    ensures ThreadSteps(actions) < 334 + Rounds(actions)
  {
    hide Inv, Rank, Active, Possible, After, StaysActive, ThreadSteps, Rounds;
    ReachableInv(history);
    RankAtMost(After(Initial, history));
    StepsAreBounded(After(Initial, history), actions);
  }

  predicate AllThreadSteps(actions: seq<Action>) {
    forall i | 0 <= i < |actions| :: ThreadStep(actions[i])
  }

  lemma {:induction false} ThreadsAloneAreBounded(s: State, actions: seq<Action>)
    requires Inv(s) && Possible(s, actions) && AllThreadSteps(actions)
    ensures |actions| + Rank(After(s, actions)) <= Rank(s)
    decreases |actions|
  {
    hide Inv, Rank, Next, Enabled;
    if actions != [] {
      ThreadStepGetsCloser(s, actions[0]);
      StepKeepsInv(s, actions[0]);
      ThreadsAloneAreBounded(Next(s, actions[0]), actions[1..]);
    }
  }

  /** Main result: with no clock, timeout or spurious wake-up to help, the two threads come
      to rest within 333 steps from any reachable state, and then no call and no destructor
      is in progress any more. */
  lemma ThreadsComeToRest(history: seq<Action>, actions: seq<Action>)
    requires Possible(Initial, history) && Possible(After(Initial, history), actions)
    requires AllThreadSteps(actions)
    ensures |actions| < 334
    ensures var s := After(After(Initial, history), actions);
            !CallerEnabled(s) && !DogEnabled(s) ==> !Active(s)
  {
    hide Inv, Rank, Active, Possible, After, CallerEnabled, DogEnabled;
    ReachableInv(history);
    var s := After(Initial, history);
    RankAtMost(s);
    ThreadsAloneAreBounded(s, actions);
    RunKeepsInv(s, actions);
    if Active(After(s, actions)) { SomeoneMoves(After(s, actions)); }
  }

  lemma {:induction false} WayToEnd(s: State) returns (actions: seq<Action>)
    requires Inv(s)
    ensures Possible(s, actions) && AllThreadSteps(actions) && StaysActive(s, actions)
    ensures !Active(After(s, actions))
    decreases Rank(s)
  {
    hide Inv, Rank, Active, Next, CallerEnabled, DogEnabled;
    if !Active(s) {
      actions := [];
    } else {
      SomeoneMoves(s);
      var a := if CallerEnabled(s) then CallerStep else DogStep;
      ThreadStepGetsCloser(s, a);
      StepKeepsInv(s, a);
      var rest := WayToEnd(Next(s, a));
      actions := [a] + rest;
      assert actions[1..] == rest;
    }
  }

  /** And they can always do so: from any reachable state the two threads alone have a way
      to end what is in progress, of fewer than 334 steps. */
  lemma CallCanEnd(history: seq<Action>) returns (actions: seq<Action>)
    requires Possible(Initial, history)
    ensures var s := After(Initial, history);
            && Possible(s, actions) && AllThreadSteps(actions) && StaysActive(s, actions) && |actions| < 334
            && !Active(After(s, actions))
  {
    hide Inv, Rank, Active, Possible, After, StaysActive;
    ReachableInv(history);
    actions := WayToEnd(After(Initial, history));
    ThreadsComeToRest(history, actions);
  }

  // ------------------------------------------------------------------- both isExpired

  const MAX_CLOCK: nat := 0xffff_ffff_ffff_ffff

  /** Clock addition does not wrap. */
  function Plus(a: nat, b: nat): nat { if MAX_CLOCK - a <= b then MAX_CLOCK else a + b }

  /** `isExpired()`; without a watchdog the delay is zero. */
  predicate IsExpired(deadline: nat, now: nat, delay: nat)
    requires deadline <= MAX_CLOCK
  {
    if deadline == MAX_CLOCK then false
    else if deadline == 0 then true
    else now > Plus(deadline, delay)
  }

  /** `isExpired(remaining)`. */
  function IsExpiredRemaining(deadline: nat, now: nat, delay: nat): (r: (bool, nat))
    requires deadline <= MAX_CLOCK
    ensures r.0 <==> r.1 == 0
  {
    if deadline == MAX_CLOCK then (false, MAX_CLOCK)
    else if deadline == 0 then (true, 0)
    else if now < Plus(deadline, delay) then (false, Plus(deadline, delay) - now)
    else (true, 0)
  }

  /** What each form says, for a clock that stops at its maximum: the timeout is over right
      away for a deadline of zero, never for the maximum, and else once the deadline and the
      delay have passed; the second form does not wait for the next instant, and gives up
      when the clock has stopped. */
  lemma ExpiryMeans(deadline: nat, now: nat, delay: nat)
    requires deadline <= MAX_CLOCK && now <= MAX_CLOCK
    ensures IsExpired(deadline, now, delay) <==> deadline == 0 || (deadline < MAX_CLOCK && now > deadline + delay)
    ensures var (expired, remaining) := IsExpiredRemaining(deadline, now, delay);
            && (expired <==> deadline == 0 || (deadline < MAX_CLOCK && (now >= deadline + delay || now == MAX_CLOCK)))
            && (expired ==> remaining == 0)
            && (deadline == MAX_CLOCK ==> remaining == MAX_CLOCK)
            && (!expired && deadline < MAX_CLOCK && deadline + delay <= MAX_CLOCK ==>
                  now + remaining == deadline + delay)
            && (!expired && deadline < MAX_CLOCK && deadline + delay > MAX_CLOCK ==> now + remaining == MAX_CLOCK)
  {}

  /** The two forms disagree at one instant only: exactly at the shifted deadline. */
  lemma ExpiryFormsAgree(deadline: nat, now: nat, delay: nat)
    requires deadline <= MAX_CLOCK
    ensures IsExpired(deadline, now, delay) == IsExpiredRemaining(deadline, now, delay).0
       <==> !(0 < deadline < MAX_CLOCK && now == Plus(deadline, delay))
  {}

  /** For instance at 7, for a deadline of 5 and a delay of 2. */
  lemma ExpiryFormsDisagree()
    ensures !IsExpired(5, 7, 2) && IsExpiredRemaining(5, 7, 2).0
  {}
}
