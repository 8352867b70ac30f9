/**
 The language of calls that the core may make to one backend, as an automaton and
 as the two statements it stands for.
 */
module Trace {

  /** A call of the core to a backend; ok is what the backend's init returned. */
  datatype Call = SetMessage | Init(ok: bool) | Info | SetData | Start | Stop | Deinit

  datatype Event = Event(backend: nat, call: Call)

  datatype Phase =
    | Down     // not initialized, nothing owed
    | Owing    // init failed; the deinit is still to come
    | Up       // initialized
    | Broken

  function Next(p: Phase, c: Call): Phase {
    match p
    case Down => if c == SetMessage then Down else if c == Init(true) then Up else if c == Init(false) then Owing else Broken
    case Owing => if c == Deinit then Down else Broken
    case Up => if c == Deinit then Down else if c in {Info, SetData, Start, Stop} then Up else Broken
    case Broken => Broken
  }

  /** Where the calls to backend b have led. */
  function PhaseOf(trace: seq<Event>, b: nat): Phase {
    if trace == [] then Down
    else
      var e, p := trace[|trace| - 1], PhaseOf(trace[..|trace| - 1], b);
      if e.backend == b then Next(p, e.call) else p
  }

  lemma {:induction false} PhaseSnoc(trace: seq<Event>, e: Event, b: nat)
    ensures PhaseOf(trace + [e], b) == if e.backend == b then Next(PhaseOf(trace, b), e.call) else PhaseOf(trace, b)
  {
    assert (trace + [e])[..|trace|] == trace;
  }

  /** The init and deinit calls to b, in order: true for an init. */
  function Lifecycle(trace: seq<Event>, b: nat): seq<bool> {
    if trace == [] then []
    else
      var e, rest := trace[|trace| - 1], Lifecycle(trace[..|trace| - 1], b);
      if e.backend == b && e.call.Init? then rest + [true]
      else if e.backend == b && e.call.Deinit? then rest + [false]
      else rest
  }

  /** init, deinit, init, deinit, ... */
  ghost predicate Alternates(s: seq<bool>) {
    forall i :: 0 <= i < |s| ==> s[i] == (i % 2 == 0)
  }

  /** The last init or deinit of b in the trace is an init that succeeded. */
  ghost predicate Initialized(trace: seq<Event>, b: nat) {
    exists i ::
      0 <= i < |trace| && trace[i] == Event(b, Init(true))
      && forall j :: i < j < |trace| && trace[j].backend == b ==> !trace[j].call.Init? && !trace[j].call.Deinit?
  }

  predicate IsUse(c: Call) {
    c in {Info, SetData, Start, Stop}
  }

  lemma {:induction false} UnbrokenBefore(trace: seq<Event>, b: nat)
    requires trace != [] && PhaseOf(trace, b) != Broken
    ensures PhaseOf(trace[..|trace| - 1], b) != Broken
  {
  }

  /** An unbroken trace alternates, and has as many deinits as inits unless the backend is up or owed one. */
  lemma {:induction false} UnbrokenAlternates(trace: seq<Event>, b: nat)
    requires PhaseOf(trace, b) != Broken
    ensures Alternates(Lifecycle(trace, b))
    ensures |Lifecycle(trace, b)| % 2 == if PhaseOf(trace, b) == Down then 0 else 1
  {
    if trace != [] {
      UnbrokenBefore(trace, b);
      UnbrokenAlternates(trace[..|trace| - 1], b);
    }
  }

  lemma InitializedSnoc(trace: seq<Event>, e: Event, b: nat)
    requires Initialized(trace, b) && !(e.backend == b && (e.call.Init? || e.call.Deinit?))
    ensures Initialized(trace + [e], b)
  {
    var i :| 0 <= i < |trace| && trace[i] == Event(b, Init(true))
             && forall j :: i < j < |trace| && trace[j].backend == b ==> !trace[j].call.Init? && !trace[j].call.Deinit?;
    assert (trace + [e])[i] == Event(b, Init(true));
    forall j | i < j < |trace + [e]| && (trace + [e])[j].backend == b
      ensures !(trace + [e])[j].call.Init? && !(trace + [e])[j].call.Deinit?
    {
      assert j < |trace| ==> (trace + [e])[j] == trace[j];
    }
  }

  /** The backend is up only after an init that succeeded. */
  lemma {:induction false} UpIsInitialized(trace: seq<Event>, b: nat)
    requires PhaseOf(trace, b) == Up
    ensures Initialized(trace, b)
  {
    var n := |trace| - 1;
    assert trace == trace[..n] + [trace[n]];
    if trace[n] == Event(b, Init(true)) {
      assert trace[n] == Event(b, Init(true));
    } else {
      UpIsInitialized(trace[..n], b);
      InitializedSnoc(trace[..n], trace[n], b);
    }
  }

  /** In an unbroken trace a backend is used only between a successful init and its deinit. */
  lemma {:induction false} UsesAreBetweenInitAndDeinit(trace: seq<Event>, b: nat, k: nat)
    requires PhaseOf(trace, b) != Broken && k < |trace| && trace[k].backend == b && IsUse(trace[k].call)
    ensures Initialized(trace[..k], b)
  {
    var n := |trace| - 1;
    UnbrokenBefore(trace, b);
    if k < n {
      UsesAreBetweenInitAndDeinit(trace[..n], b, k);
      assert trace[..n][..k] == trace[..k];
    } else {
      UpIsInitialized(trace[..n], b);
    }
  }

  /** Inits and deinits of b take turns, starting with an init, and every use falls between a good init and its deinit. */
  ghost predicate InTurn(trace: seq<Event>, b: nat) {
    && Alternates(Lifecycle(trace, b))
    && forall k :: 0 <= k < |trace| && trace[k].backend == b && IsUse(trace[k].call) ==> Initialized(trace[..k], b)
  }

  lemma {:induction false} UnbrokenIsInTurn(trace: seq<Event>, b: nat)
    requires PhaseOf(trace, b) != Broken
    ensures InTurn(trace, b)
  {
    UnbrokenAlternates(trace, b);
    forall k | 0 <= k < |trace| && trace[k].backend == b && IsUse(trace[k].call)
      ensures Initialized(trace[..k], b)
    {
      UsesAreBetweenInitAndDeinit(trace, b, k);
    }
  }
}
