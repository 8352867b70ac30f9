/**
 Start and stop where the sampling thread sets and clears the running flag itself, as
 in the thermal and CPU backends: before its first statement, and on its way out after
 a failed allocation, the flag does not tell that the thread exists. A call made then
 misses the thread; at any other time the flag tells the truth.
 */
module FlagProtocol {
  import opened Common
  import opened Runs
  import opened Threads

  datatype Client = Idle | Joining | Destroying

  /** A thread sets the flag by its first statement and clears it by its last. */
  datatype State = State(flag: bool, handle: Option<nat>, threads: map<nat, Pc>, callback: bool, client: Client)

  datatype Action =
    | SetCallback
    | Start(t: nat)    // creates thread t, its request being valid
    | Stop
    | JoinReturns
    | Destroy
    | Disconnect
    | AllocationFails(t: nat)
    | Advance(t: nat, due: bool)

  const INITIAL := State(false, None, map[], false, Idle)

  /** Whether an API call of this kind gets past its checks; a start or stop that does not changes nothing. */
  predicate Enabled(s: State, a: Action) {
    match a
    case SetCallback => s.client == Idle
    case Start(t) => s.client == Idle && s.callback && !s.flag && t !in s.threads
    case Stop => s.client == Idle && s.flag
    case JoinReturns =>
      s.client == Joining && s.handle.Some? && s.handle.value in s.threads && !IsLive(s.threads, s.handle.value)
    case Destroy => s.client == Destroying
    case Disconnect => s.client == Idle
    case AllocationFails(t) => t in s.threads && s.threads[t] == Allocating
    case Advance(t, due) => IsLive(s.threads, t)
  }

  function NextFlag(pc: Pc, flag: bool): bool {
    if pc == Created then true else if pc == Leaving then false else flag
  }

  function Apply(s: State, a: Action): State
    requires Enabled(s, a)
  {
    match a
    case SetCallback => s.(callback := true)
    case Start(t) => s.(handle := Some(t), threads := s.threads[t := Created])
    case Stop => s.(flag := false, client := Joining)
    case JoinReturns => s.(client := Destroying)
    case Destroy => s.(handle := None, client := Idle)
    case Disconnect => s.(callback := false)
    case AllocationFails(t) => s.(flag := false, threads := s.threads[t := Leaving])
    case Advance(t, due) =>
      s.(flag := NextFlag(s.threads[t], s.flag), threads := s.threads[t := NextPc(s.threads[t], s.flag, due)])
  }

  function Step(s: State, a: Action): Option<State> {
    if Enabled(s, a) then Some(Apply(s, a)) else None
  }

  // ----- How a call misses a thread

  /** Stopping at once: stop finds the flag clear and returns; the thread then sets it and samples on. */
  lemma StopAtOnceIsIgnored()
    ensures var started := After(Step, INITIAL, [SetCallback, Start(0)]);
            && started.Some? && !Enabled(started.value, Stop)
            && var s := Step(started.value, Advance(0, false));
               s.Some? && s.value.client == Idle && s.value.flag && IsLive(s.value.threads, 0)
  {
    RunThrough(Step, [INITIAL, State(false, None, map[], true, Idle), State(false, Some(0), map[0 := Created], true, Idle)],
               [SetCallback, Start(0)]);
  }

  /** Starting twice at once: both starts find the flag clear, and two threads share the backend's state. */
  lemma StartTwiceMakesTwoCollectors()
    ensures var run := [SetCallback, Start(0), Start(1)];
            After(Step, INITIAL, run).Some? && Live(After(Step, INITIAL, run).value.threads) == {0, 1}
  {
    var one := map[0 := Created];
    RunThrough(Step, [INITIAL, State(false, None, map[], true, Idle), State(false, Some(0), one, true, Idle),
                      State(false, Some(1), one[1 := Created], true, Idle)],
               [SetCallback, Start(0), Start(1)]);
  }

  /** Starting over a thread that is leaving: its last statement clears the flag of the new session, which nobody stopped. */
  lemma LateExitEndsTheNextSession()
    ensures var run := [SetCallback, Start(0), Advance(0, false), AllocationFails(0), Start(1), Advance(1, false), Advance(0, false)];
            After(Step, INITIAL, run).Some?
            && var s := After(Step, INITIAL, run).value;
               s.client == Idle && !s.flag && Live(s.threads) == {1} && s.threads[1] == Allocating
  {
    var run := [SetCallback, Start(0), Advance(0, false), AllocationFails(0), Start(1), Advance(1, false), Advance(0, false)];
    var created := map[0 := Created];
    var allocating := created[0 := Allocating];
    var leaving := allocating[0 := Leaving];
    var second := leaving[1 := Created];
    var both := second[1 := Allocating];
    var states := [
      INITIAL, State(false, None, map[], true, Idle), State(false, Some(0), created, true, Idle),
      State(true, Some(0), allocating, true, Idle), State(false, Some(0), leaving, true, Idle),
      State(false, Some(1), second, true, Idle), State(true, Some(1), both, true, Idle),
      State(false, Some(1), both[0 := Exited], true, Idle)];
    RunThrough(Step, states, run);
  }

  // ----- Runs in which calls avoid those moments

  /** Between its first statement and its last, a thread is visible through the flag. */
  predicate Visible(pc: Pc) {
    pc != Created && pc != Leaving && pc != Exited
  }

  predicate AllVisible(threads: map<nat, Pc>) {
    forall t :: t in threads && threads[t] != Exited ==> Visible(threads[t])
  }

  /** Start and stop come while every live thread is visible; disconnect only over no thread. */
  predicate Patient(s: State, a: Action) {
    match a
    case Start(_) => AllVisible(s.threads)
    case Stop => AllVisible(s.threads)
    case Disconnect => Live(s.threads) == {}
    case _ => true
  }

  function PatientStep(s: State, a: Action): Option<State> {
    if Patient(s, a) then Step(s, a) else None
  }

  ghost predicate Inv(s: State) {
    && (forall t: nat :: IsLive(s.threads, t) ==> s.handle == Some(t) && s.callback)
    && (s.handle.Some? ==> s.handle.value in s.threads)
    && (s.client == Idle ==> (s.flag <==> s.handle.Some? && Visible(s.threads[s.handle.value])))
    && (s.client != Idle ==> s.handle.Some? && !s.flag && s.threads[s.handle.value] != Created)
    && (s.client == Destroying ==> Live(s.threads) == {})
  }

  lemma StepKeepsInv(s: State, a: Action)
    requires Inv(s) && PatientStep(s, a).Some?
    ensures Inv(PatientStep(s, a).value)
  {
    NoneLive(s.threads);
    NoneLive(Apply(s, a).threads);
    if a.AllocationFails? || a.Advance? {
      assert IsLive(s.threads, a.t);
    }
    if a.Start? {
      assert s.handle.Some? ==> !IsLive(s.threads, s.handle.value);
    }
  }

  lemma {:induction false} RunKeepsInv(s: State, run: seq<Action>)
    requires Inv(s) && After(PatientStep, s, run).Some?
    ensures Inv(After(PatientStep, s, run).value)
  {
    forall t, a | Inv(t) && PatientStep(t, a).Some? ensures Inv(PatientStep(t, a).value) {
      StepKeepsInv(t, a);
    }
    InvariantHolds(PatientStep, Inv, s, run);
  }

  /**
   After any patient run and between calls: stop takes effect on a live thread, and
   start is refused because of it, exactly if the thread is past its first statement
   and not at its last. It is the only one, the stored one, and has a callback.
   */
  lemma {:induction false} CallsSeeTheThreadIffVisible(run: seq<Action>, t: nat, u: nat)
    requires After(PatientStep, INITIAL, run).Some?
    requires var s := After(PatientStep, INITIAL, run).value; s.client == Idle && IsLive(s.threads, t) && u !in s.threads
    ensures var s := After(PatientStep, INITIAL, run).value;
            && (Enabled(s, Stop) <==> Visible(s.threads[t]))
            && (!Enabled(s, Start(u)) <==> Visible(s.threads[t]))
            && s.callback && s.handle == Some(t) && Live(s.threads) == {t}
  {
    RunKeepsInv(INITIAL, run);
  }

  /** A stop that takes effect returns only when no thread is left. */
  lemma {:induction false} StopLeavesNoThread(run: seq<Action>)
    requires After(PatientStep, INITIAL, run).Some?
    ensures var s := After(PatientStep, INITIAL, run).value; s.client == Destroying ==> Live(s.threads) == {}
  {
    RunKeepsInv(INITIAL, run);
  }
}
