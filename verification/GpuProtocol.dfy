/**
 Start and stop of the GPU sampling thread, as the interleaving of one client with
 the threads it creates. The client owns a thread through its handle; the thread
 lives on the running flag, which is set before the thread exists.
 */
module GpuProtocol {
  import opened Common
  import opened Runs
  import opened Threads

  /** Where the client stands inside an API call. */
  datatype Client =
    | Idle
    | Creating           // start: the flag is set, the thread is not there yet
    | Storing(t: nat)    // start: the thread runs, its handle is not stored yet
    | Joining            // stop: the flag is cleared
    | Destroying         // stop: the join has returned

  /** callback: whether g_data_callback is non-NULL. A thread does nothing with the flag but read it. */
  datatype State = State(flag: bool, handle: Option<nat>, threads: map<nat, Pc>, callback: bool, client: Client)

  datatype Action =
    | SetCallback
    | Start            // with a valid request, a callback and no handle; otherwise start changes nothing
    | CreateFails
    | Create(t: nat)
    | Store
    | Stop             // with a handle; otherwise stop changes nothing
    | JoinReturns      // successfully, once the thread has exited
    | JoinFails
    | Destroy
    | Disconnect       // qcom_linux_gpu_deinit
    | AllocationFails(t: nat)
    | Advance(t: nat, due: bool)   // any other step of thread t

  const INITIAL := State(false, None, map[], false, Idle)

  predicate Enabled(s: State, a: Action) {
    match a
    case SetCallback => s.client == Idle
    case Start => s.client == Idle && s.callback && s.handle.None?
    case CreateFails => s.client == Creating
    case Create(t) => s.client == Creating && t !in s.threads
    case Store => s.client.Storing?
    case Stop => s.client == Idle && s.handle.Some?
    case JoinReturns =>
      s.client == Joining && s.handle.Some? && s.handle.value in s.threads && !IsLive(s.threads, s.handle.value)
    case JoinFails => s.client == Joining
    case Destroy => s.client == Destroying
    case Disconnect => s.client == Idle
    case AllocationFails(t) => t in s.threads && s.threads[t] == Allocating
    case Advance(t, due) => IsLive(s.threads, t)
  }

  function Apply(s: State, a: Action): State
    requires Enabled(s, a)
  {
    match a
    case SetCallback => s.(callback := true)
    case Start => s.(flag := true, client := Creating)
    case CreateFails => s.(flag := false, client := Idle)
    case Create(t) => s.(threads := s.threads[t := Allocating], client := Storing(t))
    case Store => s.(handle := Some(s.client.t), client := Idle)
    case Stop => s.(flag := false, client := Joining)
    case JoinReturns => s.(client := Destroying)
    case JoinFails => s.(client := Destroying)
    case Destroy => s.(handle := None, client := Idle)
    case Disconnect => s.(callback := false)
    case AllocationFails(t) => s.(flag := false, threads := s.threads[t := Leaving])
    case Advance(t, due) => s.(threads := s.threads[t := NextPc(s.threads[t], s.flag, due)])
  }

  function Step(s: State, a: Action): Option<State> {
    if Enabled(s, a) then Some(Apply(s, a)) else None
  }

  /** Joins succeed as long as the thread is there, and no disconnect is issued over a live thread. */
  predicate Orderly(s: State, a: Action) {
    a == JoinFails || a == Disconnect ==> Live(s.threads) == {}
  }

  function OrderlyStep(s: State, a: Action): Option<State> {
    if Orderly(s, a) then Step(s, a) else None
  }

  /** The thread the client owns, or is about to own. */
  function Owned(s: State): Option<nat> {
    if s.client.Storing? then Some(s.client.t) else s.handle
  }

  ghost predicate Inv(s: State) {
    && (forall t: nat :: IsLive(s.threads, t) ==> Owned(s) == Some(t) && s.callback)
    && (Owned(s).Some? ==> Owned(s).value in s.threads)
    && (s.client == Creating ==> s.handle.None? && s.flag && s.callback)
    && (s.client.Storing? ==> s.handle.None?)
    && (s.client == Joining || s.client == Destroying ==> s.handle.Some? && !s.flag)
    && (s.client == Destroying ==> Live(s.threads) == {})
    // a thread starts past its creation, and one that has not been told to stop finds the flag set, however early it looks
    && (forall t: nat :: IsLive(s.threads, t) ==>
          s.threads[t] != Created && (s.threads[t] != Leaving && s.client != Joining ==> s.flag))
  }

  lemma StepKeepsInv(s: State, a: Action)
    requires Inv(s) && OrderlyStep(s, a).Some?
    ensures Inv(OrderlyStep(s, a).value)
  {
    NoneLive(s.threads);
    NoneLive(Apply(s, a).threads);
    if a.AllocationFails? || a.Advance? {
      assert IsLive(s.threads, a.t);
    }
  }

  /** Every interleaving keeps the invariant. */
  lemma {:induction false} RunKeepsInv(s: State, run: seq<Action>)
    requires Inv(s) && After(OrderlyStep, s, run).Some?
    ensures Inv(After(OrderlyStep, s, run).value)
  {
    forall t, a | Inv(t) && OrderlyStep(t, a).Some? ensures Inv(OrderlyStep(t, a).value) {
      StepKeepsInv(t, a);
    }
    InvariantHolds(OrderlyStep, Inv, s, run);
  }

  // ----- Safety, in every interleaving

  /** At most one sampling thread is live, and while it is, the callback it will call is not NULL. */
  lemma {:induction false} OneCollectorWithACallback(run: seq<Action>)
    requires After(OrderlyStep, INITIAL, run).Some?
    ensures var s := After(OrderlyStep, INITIAL, run).value;
            |Live(s.threads)| <= 1
            && (Live(s.threads) != {} ==> s.callback)
            && (s.client == Idle && s.handle.None? ==> Live(s.threads) == {})
  {
    RunKeepsInv(INITIAL, run);
    var s := After(OrderlyStep, INITIAL, run).value;
    NoneLive(s.threads);
    assert Live(s.threads) <= if Owned(s).Some? then {Owned(s).value} else {};
    AtMostASingleton(Live(s.threads), if Owned(s).Some? then Owned(s).value else 0);
  }

  /** A thread exits only after it was stopped or could not allocate; looking early does not make it exit. */
  lemma {:induction false} OnlyStopEndsTheLoop(run: seq<Action>, a: Action)
    requires After(OrderlyStep, INITIAL, run).Some?
    requires var s := After(OrderlyStep, INITIAL, run).value;
             Enabled(s, a) && a.Advance? && s.threads[a.t] != Leaving && Apply(s, a).threads[a.t] == Leaving
    ensures After(OrderlyStep, INITIAL, run).value.client == Joining
  {
    RunKeepsInv(INITIAL, run);
    assert IsLive(After(OrderlyStep, INITIAL, run).value.threads, a.t);
  }

  // ----- Termination of stop

  /** Steps a thread can still take once the flag is cleared. */
  function Rank(pc: Pc): nat {
    match pc
    case Exited => 0
    case Leaving => 1
    case Testing => 2
    case Pausing => 3
    case Allocating => 3
    case Delivering => 4
    case Created => 4
    case Reading => 5
  }

  /** What the pending join still waits for. */
  function Remaining(s: State): nat {
    if s.handle.Some? && s.handle.value in s.threads then Rank(s.threads[s.handle.value]) else 0
  }

  /** While the join is pending, only the thread can move, and every move brings it closer to its exit. */
  lemma WaitingStepDecreases(s: State, a: Action)
    requires Inv(s) && s.client == Joining && OrderlyStep(s, a).Some?
    ensures var t := OrderlyStep(s, a).value;
            t.client == Destroying || (t.client == Joining && Remaining(t) < Remaining(s))
  {
    NoneLive(s.threads);
    if a.AllocationFails? || a.Advance? {
      assert IsLive(s.threads, a.t);
    }
  }

  /** Nothing blocks the thread, and once it has exited nothing blocks the join. */
  lemma JoinIsNeverStuck(s: State)
    requires Inv(s) && s.client == Joining
    ensures if IsLive(s.threads, s.handle.value) then Enabled(s, Advance(s.handle.value, false)) else Enabled(s, JoinReturns)
  {
  }

  /** A step that leaves the join pending. */
  function WaitingStep(s: State, a: Action): Option<State> {
    var t := OrderlyStep(s, a);
    if s.client == Joining && t.Some? && t.value.client == Joining then t else None
  }

  /** Under any schedule the join returns after at most five steps of the thread, also when stop follows start at once. */
  lemma {:induction false} JoinReturnsSoon(s: State, run: seq<Action>)
    requires Inv(s) && s.client == Joining && After(WaitingStep, s, run).Some?
    ensures |run| <= Remaining(s) <= 5
    decreases |run|
  {
    if run != [] {
      StepKeepsInv(s, run[0]);
      WaitingStepDecreases(s, run[0]);
      JoinReturnsSoon(WaitingStep(s, run[0]).value, run[1..]);
    }
  }

  // ----- Why both conditions of Orderly are needed

  /** A join that fails over a live thread: its handle is released all the same, and start creates a second collector. */
  lemma FailedJoinAllowsTwoCollectors()
    ensures var run := [SetCallback, Start, Create(0), Store, Stop, JoinFails, Destroy, Start, Create(1)];
            After(Step, INITIAL, run).Some? && Live(After(Step, INITIAL, run).value.threads) == {0, 1}
  {
    var run := [SetCallback, Start, Create(0), Store, Stop, JoinFails, Destroy, Start, Create(1)];
    var one := map[0 := Allocating];
    var states := [
      INITIAL, State(false, None, map[], true, Idle), State(true, None, map[], true, Creating),
      State(true, None, one, true, Storing(0)), State(true, Some(0), one, true, Idle),
      State(false, Some(0), one, true, Joining), State(false, Some(0), one, true, Destroying),
      State(false, None, one, true, Idle), State(true, None, one, true, Creating),
      State(true, None, one[1 := Allocating], true, Storing(1))];
    RunThrough(Step, states, run);
  }

  /** A disconnect over a thread that is reading: its next delivery would go through a NULL callback. */
  lemma DisconnectOverALiveThread()
    ensures var run := [SetCallback, Start, Create(0), Store, Advance(0, false), Advance(0, false), Disconnect, Advance(0, true)];
            After(Step, INITIAL, run).Some?
            && var s := After(Step, INITIAL, run).value;
               0 in s.threads && s.threads[0] == Delivering && !s.callback
  {
    var run := [SetCallback, Start, Create(0), Store, Advance(0, false), Advance(0, false), Disconnect, Advance(0, true)];
    var allocating := map[0 := Allocating];
    var testing := allocating[0 := Testing];
    var reading := testing[0 := Reading];
    var states := [
      INITIAL, State(false, None, map[], true, Idle), State(true, None, map[], true, Creating),
      State(true, None, allocating, true, Storing(0)), State(true, Some(0), allocating, true, Idle),
      State(true, Some(0), testing, true, Idle), State(true, Some(0), reading, true, Idle),
      State(true, Some(0), reading, false, Idle), State(true, Some(0), reading[0 := Delivering], false, Idle)];
    RunThrough(Step, states, run);
  }
}
