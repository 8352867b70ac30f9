/**
 The core of the library: the table of backend entry points, the connection flags,
 and the public calls that dispatch through them. The thermal backend stands behind
 its entry with its own state; the other backends answer arbitrarily.
 */
module Core {
  import opened Common
  import opened SensorSpec
  import opened ThermalBackends
  import opened Trace

  const MAX: nat := 8       // QC_PERF_BACKEND_MAX
  const THERMAL: nat := 6   // QC_PERF_BACKEND_LINUX_THERMAL

  /** struct QcPerfBackendPrivate: which entry points are not NULL. */
  datatype Entries = Entries(setMessage: bool, init: bool, info: bool, setData: bool, start: bool, stop: bool, deinit: bool)

  const NO_ENTRIES := Entries(false, false, false, false, false, false, false)
  const ALL_ENTRIES := Entries(true, true, true, true, true, true, true)

  function EntryOf(e: Entries, c: Call): bool {
    match c
    case SetMessage => e.setMessage
    case Init(_) => e.init
    case Info => e.info
    case SetData => e.setData
    case Start => e.start
    case Stop => e.stop
    case Deinit => e.deinit
  }

  /** The calls that connecting makes up to the backend's init. */
  function OpeningCalls(id: nat, message: bool, ok: bool): seq<Event> {
    (if message then [Event(id, Call.SetMessage)] else []) + [Event(id, Call.Init(ok))]
  }

  /** The calls made by connecting a backend whose entries are complete. */
  function ConnectCalls(id: nat, message: bool, ok: bool): seq<Event> {
    OpeningCalls(id, message, ok) + if ok then [] else [Event(id, Call.Deinit)]
  }

  lemma ConnectingCalls(before: seq<Event>, id: nat, message: bool)
    ensures before + OpeningCalls(id, message, true) == before + ConnectCalls(id, message, true)
    ensures before + OpeningCalls(id, message, false) + [Event(id, Call.Deinit)] == before + ConnectCalls(id, message, false)
  {
  }

  /**
   What the connection flags, the table of entries and the calls so far say of every
   backend but one: connected backends have all their entries and are up, any other
   is down and owed nothing. The table is empty while it is not allocated.
   */
  ghost predicate SettledBut(connected: seq<bool>, table: seq<Entries>, trace: seq<Event>, except: int)
    requires |connected| == MAX && (table == [] || |table| == MAX)
  {
    forall b :: 0 <= b < MAX && b != except ==>
      && (connected[b] ==> table != [] && table[b] == ALL_ENTRIES)
      && PhaseOf(trace, b) == if connected[b] then Up else Down
  }

  const NOBODY: int := -1

  /** Between calls every backend has been called in turn, and is even if it is not connected. */
  lemma {:induction false} SettledIsInTurn(connected: seq<bool>, table: seq<Entries>, trace: seq<Event>)
    requires |connected| == MAX && (table == [] || |table| == MAX) && SettledBut(connected, table, trace, NOBODY)
    ensures forall b :: 0 <= b < MAX ==> InTurn(trace, b) && (!connected[b] ==> |Lifecycle(trace, b)| % 2 == 0)
    ensures table == [] ==> forall b :: 0 <= b < MAX ==> !connected[b]
  {
    forall b | 0 <= b < MAX
      ensures InTurn(trace, b) && (!connected[b] ==> |Lifecycle(trace, b)| % 2 == 0)
    {
      UnbrokenIsInTurn(trace, b);
      UnbrokenAlternates(trace, b);
    }
  }

  /** One more call to backend id. */
  lemma {:induction false} CallLeavesOthers(connected: seq<bool>, table: seq<Entries>, trace: seq<Event>, id: nat, c: Call)
    requires |connected| == MAX && (table == [] || |table| == MAX) && id < MAX
    requires SettledBut(connected, table, trace, id)
    ensures SettledBut(connected, table, trace + [Event(id, c)], id)
    ensures PhaseOf(trace + [Event(id, c)], id) == Next(PhaseOf(trace, id), c)
  {
    forall b: nat {
      PhaseSnoc(trace, Event(id, c), b);
    }
  }

  /** A call of the public interface, with what the backend's create function answers to a connect. */
  datatype Api =
    | Initialize(granted: bool)
    | Attach(id: int, message: bool, created: ReturnCode, entries: Entries, dir: Option<seq<Entry>>)
    | Request(call: Call, id: int, given: bool)
    | Detach(id: int)
    | Shutdown

  /** Ids other than the sentinel; the thermal backend's create function always succeeds. */
  predicate Legal(a: Api) {
    match a
    case Attach(id, _, created, entries, _) => id != MAX && (id == THERMAL ==> created == Success && entries == ALL_ENTRIES)
    case Request(call, id, _) => id != MAX && IsUse(call)
    case Detach(id) => id != MAX
    case _ => true
  }

  /** One deinit for each of the first n backends that is connected. */
  function Deinits(connected: seq<bool>, n: nat): seq<Event>
    requires n <= |connected|
  {
    if n == 0 then [] else Deinits(connected, n - 1) + if connected[n - 1] then [Event(n - 1, Call.Deinit)] else []
  }

  /** The flags after the first n have been cleared. */
  function Cleared(connected: seq<bool>, n: nat): (r: seq<bool>)
    requires n <= |connected|
    ensures |r| == |connected|
  {
    seq(n, _ => false) + connected[n..]
  }

  lemma ReleasedNext(connected: seq<bool>, events: seq<Event>, b: nat)
    requires b < |connected|
    ensures Cleared(connected, 0) == connected && events + Deinits(connected, 0) == events
    ensures Cleared(connected, b)[b] == connected[b] && Cleared(connected, b)[b := false] == Cleared(connected, b + 1)
    ensures connected[b] ==> events + Deinits(connected, b) + [Event(b, Call.Deinit)] == events + Deinits(connected, b + 1)
    ensures !connected[b] ==>
      Cleared(connected, b) == Cleared(connected, b + 1) && events + Deinits(connected, b) == events + Deinits(connected, b + 1)
  {
  }

  /** The core as its client and the backends see it. */
  datatype View = View(up: bool, connected: seq<bool>, trace: seq<Event>)

  /** The whole effect of a public call on v, with its return code; compiled are the backends that are compiled in. */
  ghost predicate Answers(compiled: seq<bool>, v: View, a: Api, code: ReturnCode, w: View)
    requires |compiled| == MAX == |v.connected| && Legal(a)
  {
    match a
    case Initialize(granted) =>
      && code == (if v.up then AlreadyInitialized else if granted then Success else CallocFailed)
      && w == v.(up := v.up || granted)
    case Attach(id, message, created, entries, _) =>
      if !v.up then code == NotInitialized && w == v
      else if !(0 <= id < MAX) then code == InvalidBackendId && w == v
      else if v.connected[id] then code == BackendAlreadyConnected && w == v
      else if !compiled[id] then code == InvalidBackendId && w == v
      else if created != Success then code == created && w == v
      else if entries != ALL_ENTRIES then code == NullPointer && w == v
      else
        && w.up && w.connected == v.connected[id := code == Success]
        && w.trace == v.trace + (if message then [Event(id, Call.SetMessage)] else [])
                        + (if code == Success then [Event(id, Call.Init(true))] else [Event(id, Call.Init(false)), Event(id, Call.Deinit)])
    case Request(call, id, given) =>
      if !v.up then code == NotInitialized && w == v
      else if !(0 <= id < MAX && given) then code == InvalidArguments && w == v
      else if !v.connected[id] then code == BackendNotConnected && w == v
      else w == v.(trace := v.trace + [Event(id, call)])
    case Detach(id) =>
      if !v.up then code == NotInitialized && w == v
      else if !(0 <= id < MAX) then code == InvalidArguments && w == v
      else if !v.connected[id] then code == BackendNotConnected && w == v
      else code == Success && w == v.(connected := v.connected[id := false], trace := v.trace + [Event(id, Call.Deinit)])
    case Shutdown =>
      if !v.up then code == NotInitialized && w == v
      else code == Success && w == View(false, Cleared(v.connected, MAX), v.trace + Deinits(v.connected, MAX))
  }

  /** The views before, between and after the calls of a script that returned these codes. */
  ghost predicate IsHistory(compiled: seq<bool>, script: seq<Api>, codes: seq<ReturnCode>, views: seq<View>)
    requires |compiled| == MAX && |codes| == |script| && forall i :: 0 <= i < |script| ==> Legal(script[i])
  {
    && |views| == |script| + 1 && (forall k :: 0 <= k < |views| ==> |views[k].connected| == MAX)
    && forall k :: 0 <= k < |script| ==> Answers(compiled, views[k], script[k], codes[k], views[k + 1])
  }

  lemma HistoryGrows(compiled: seq<bool>, script: seq<Api>, codes: seq<ReturnCode>, views: seq<View>, code: ReturnCode, last: View)
    requires |compiled| == MAX && |codes| < |script| && forall i :: 0 <= i < |script| ==> Legal(script[i])
    requires IsHistory(compiled, script[..|codes|], codes, views) && |last.connected| == MAX
    requires Answers(compiled, views[|codes|], script[|codes|], code, last)
    ensures IsHistory(compiled, script[..|codes| + 1], codes + [code], views + [last])
  {
    var n := |codes|;
    forall k | 0 <= k <= n
      ensures Answers(compiled, (views + [last])[k], script[..n + 1][k], (codes + [code])[k], (views + [last])[k + 1])
    {
      if k < n {
        assert Answers(compiled, views[k], script[..n][k], codes[k], views[k + 1]);
      }
    }
  }

  class QcPerf {
    var info: array?<Entries>          // g_qcperf_backend_info
    const connected: array<bool>       // g_backends_connected
    const compiled: seq<bool>          // backend_init_fns[]: which backends are compiled in
    const thermal: ThermalBackend
    ghost var trace: seq<Event>        // every call made to a backend

    ghost predicate Layout()
      reads this
    {
      && connected.Length == MAX == |compiled|
      && this !in thermal.footprint && connected !in thermal.footprint
      && (info != null ==> info.Length == MAX && info !in thermal.footprint)
    }

    ghost function Table(): (t: seq<Entries>)
      reads this, info
      requires Layout()
      ensures t == [] || |t| == MAX
    {
      if info == null then [] else info[..]
    }

    /** The flag of the core agrees with the state of the thermal backend. */
    ghost predicate Agrees()
      reads this, connected, thermal, thermal.lib
      requires Layout()
    {
      && (connected[THERMAL] <==> thermal.lib.initialized)
      && (!connected[THERMAL] ==> !thermal.callback)
    }

    ghost predicate ThermalValid()
      reads thermal, thermal.env, thermal.lib, thermal.lib.temp, thermal.lib.cool, thermal.lib.temp.env, thermal.lib.cool.env
    {
      thermal.Valid()
    }

    /** What holds between any two calls of the public interface. */
    ghost predicate Valid()
      reads this, connected, info, thermal, thermal.env, thermal.lib, thermal.lib.temp, thermal.lib.cool,
            thermal.lib.temp.env, thermal.lib.cool.env
    {
      Layout() && ThermalValid() && Agrees() && SettledBut(connected[..], Table(), trace, NOBODY)
    }

    /** As Valid, except that backend id, while marked connected, may be in any of the given phases. */
    ghost predicate Ready(id: int, phases: set<Phase>)
      reads this, connected, info, thermal, thermal.env, thermal.lib, thermal.lib.temp, thermal.lib.cool,
            thermal.lib.temp.env, thermal.lib.cool.env
    {
      && Layout() && ThermalValid()
      && (!(id == THERMAL && connected[id]) ==> Agrees())
      && SettledBut(connected[..], Table(), trace, id)
      && (0 <= id < MAX ==>
            if connected[id] then info != null && info[id] == ALL_ENTRIES && PhaseOf(trace, id) in phases
            else PhaseOf(trace, id) == Down)
    }

    constructor (compiled: seq<bool>, thermal: ThermalBackend)
      requires |compiled| == MAX && thermal.Valid() && !thermal.lib.initialized && !thermal.callback
      ensures Valid() && this.thermal == thermal && info == null && trace == [] && fresh(connected)
    {
      info, connected, this.compiled, this.thermal := null, new bool[MAX](_ => false), compiled, thermal;
      trace := [];
    }

    /** How the thermal backend comes up: not without its directory, and if memory is never refused, always with it. */
    predicate Boots(dir: Option<seq<Entry>>, code: ReturnCode) {
      (dir.None? ==> code == Failed) && (dir.Some? && thermal.lib.grants.memory ==> code == Success)
    }

    // ----- Calls through the table

    /** A call to a backend other than its init: the entry must not be NULL. */
    method Dispatch(b: nat, c: Call) returns (code: ReturnCode)
      requires Layout() && ThermalValid() && b < MAX && !c.Init?
      requires info != null && EntryOf(info[b], c)
      modifies this`trace, thermal.footprint
      ensures Layout() && ThermalValid() && trace == old(trace) + [Event(b, c)]
      ensures b == THERMAL && c == Call.Deinit ==> !thermal.lib.initialized && !thermal.callback
      ensures !(b == THERMAL && c == Call.Deinit) ==> thermal.lib.initialized == old(thermal.lib.initialized)
      ensures !(b == THERMAL && c in {Call.Deinit, Call.SetData}) ==> thermal.callback == old(thermal.callback)
      ensures b == THERMAL && c == Call.SetData ==>
        thermal.callback && code == if old(thermal.callback) then CallbackAlreadySet else Success
    {
      code := *;
      trace := trace + [Event(b, c)];
      if b == THERMAL && c == Call.Deinit {
        code := thermal.Deinit();
      } else if b == THERMAL && c == Call.SetData {
        code := thermal.SetDataCallback(true);
      } else if b == THERMAL && c == Call.Start {
        code := StartThermal();
      }
    }

    /** The session that a start begins, with whatever it is asked for. */
    method StartThermal() returns (code: ReturnCode)
      requires Layout() && ThermalValid()
      modifies thermal.footprint
      ensures Layout() && ThermalValid()
      ensures thermal.lib.initialized == old(thermal.lib.initialized) && thermal.callback == old(thermal.callback)
    {
      var request: ThermalBackends.Request, running: bool, created: bool := *, *, *;
      var start: nat, ticks: seq<Tick> := *, *;
      var ran, batches;
      code, ran, batches := thermal.Session(request, running, created, start, ticks);
    }

    /** The call of a backend's init, on whatever the system presents; dir is the directory as a thermal backend first sees it. */
    method DispatchInit(b: nat, dir: Option<seq<Entry>>) returns (code: ReturnCode)
      requires Layout() && ThermalValid() && b < MAX && info != null && info[b].init
      modifies this`trace, thermal.footprint
      ensures Layout() && ThermalValid() && trace == old(trace) + [Event(b, Call.Init(code == Success))]
      ensures b == THERMAL ==> (thermal.lib.initialized <==> code == Success)
      ensures b == THERMAL && !old(thermal.lib.initialized) ==> Boots(dir, code)
      ensures b != THERMAL ==> thermal.lib.initialized == old(thermal.lib.initialized)
      ensures thermal.callback == old(thermal.callback)
    {
      if b == THERMAL {
        var zoneDir: Option<seq<Entry>>, deviceDir: Option<seq<Entry>> := *, *;
        var zones: Snapshot, devices: Snapshot, limits: Snapshot := *, *, *;
        code := thermal.Init(dir, zoneDir, deviceDir, zones, devices, limits);
      } else {
        code := *;
      }
      trace := trace + [Event(b, Call.Init(code == Success))];
    }

    // ----- The public interface

    ghost function Seen(): (v: View)
      reads this, connected
      ensures |v.connected| == connected.Length
    {
      View(info != null, connected[..], trace)
    }

    /** qcperf_init */
    method Init(granted: bool) returns (code: ReturnCode)
      requires Valid()
      modifies this`info
      ensures Valid() && (info == old(info) || fresh(info))
      ensures code == if old(info) != null then AlreadyInitialized else if granted then Success else CallocFailed
      ensures info != null <==> old(info) != null || granted
      ensures Answers(compiled, old(Seen()), Initialize(granted), code, Seen())
    {
      if info != null {
        return AlreadyInitialized;
      }
      if !granted {
        return CallocFailed;
      }
      info := new Entries[MAX](_ => NO_ENTRIES);
      return Success;
    }

    /** Whether a public call reaches the backend: the checks that every call makes first. */
    method Check(id: int, given: bool) returns (code: ReturnCode)
      requires Layout() && id != MAX
      ensures code == Success <==> info != null && 0 <= id < MAX && given && connected[id]
      ensures code == NotInitialized <==> info == null
      ensures code == InvalidArguments <==> info != null && !(0 <= id < MAX && given)
      ensures code in {Success, NotInitialized, InvalidArguments, BackendNotConnected}
    {
      if info == null {
        return NotInitialized;
      }
      if 0 > id || MAX < id || !given {
        return InvalidArguments;
      }
      return if connected[id] then Success else BackendNotConnected;
    }

    /**
     qcperf_get_capabilities_info, qcperf_set_data_callback, qcperf_start and qcperf_stop:
     a connected backend is called through its table entry; nothing else is.
     given tells whether the argument is non-NULL.
     */
    method Use(c: Call, id: int, given: bool) returns (code: ReturnCode)
      requires Valid() && id != MAX && IsUse(c)
      modifies this`trace, thermal.footprint
      ensures Valid()
      ensures var reached := info != null && 0 <= id < MAX && given && connected[id];
              && trace == (if reached then old(trace) + [Event(id, c)] else old(trace))
              && (!reached ==>
                    code == if info == null then NotInitialized
                            else if 0 <= id < MAX && given then BackendNotConnected else InvalidArguments)
      ensures Answers(compiled, old(Seen()), Api.Request(c, id, given), code, Seen())
    {
      code := Check(id, given);
      if code == Success {
        code := CallThrough(id, c);
      }
    }

    /** The call through the table of a connected backend. */
    method CallThrough(id: nat, c: Call) returns (code: ReturnCode)
      requires Valid() && info != null && id < MAX && connected[id] && IsUse(c)
      modifies this`trace, thermal.footprint
      ensures Valid() && trace == old(trace) + [Event(id, c)]
    {
      CallLeavesOthers(connected[..], Table(), trace, id, c);
      code := Dispatch(id, c);
    }

    /**
     qcperf_connect_backend. created and entries are what the backend's create function
     returns and stores; message tells whether a message callback is passed.
     */
    method Connect(id: int, message: bool, created: ReturnCode, entries: Entries, dir: Option<seq<Entry>>) returns (code: ReturnCode)
      requires Valid() && id != MAX
      requires id == THERMAL ==> created == Success && entries == ALL_ENTRIES
      modifies this`trace, connected, info, thermal.footprint
      ensures Valid()
      ensures
        if info != null && 0 <= id < MAX && !old(connected[id]) && compiled[id] && created == Success && entries == ALL_ENTRIES then
          && connected[..] == old(connected[..])[id := code == Success]
          && trace == old(trace) + (if message then [Event(id, Call.SetMessage)] else [])
                      + (if code == Success then [Event(id, Call.Init(true))] else [Event(id, Call.Init(false)), Event(id, Call.Deinit)])
        else
          && connected[..] == old(connected[..]) && trace == old(trace)
          && code == if info == null then NotInitialized
                     else if !(0 <= id < MAX) then InvalidBackendId
                     else if old(connected[id]) then BackendAlreadyConnected
                     else if !compiled[id] then InvalidBackendId
                     else if created != Success then created
                     else NullPointer
      ensures info != null && id == THERMAL && !old(connected[id]) && compiled[id] ==> Boots(dir, code)
    {
      if info == null {
        return NotInitialized;
      }
      if 0 > id || MAX <= id {
        return InvalidBackendId;
      }
      if connected[id] {
        return BackendAlreadyConnected;
      }
      if !compiled[id] {
        return InvalidBackendId;
      }
      code := CreateAndEnter(id, message, created, entries, dir);
    }

    /** The backend's create function, the check of the entries it stored, and the calls through them. */
    method CreateAndEnter(id: nat, message: bool, created: ReturnCode, entries: Entries, dir: Option<seq<Entry>>) returns (code: ReturnCode)
      requires Valid() && info != null && id < MAX && !connected[id]
      modifies this`trace, connected, info, thermal.footprint
      ensures Valid()
      ensures
        if created == Success && entries == ALL_ENTRIES then
          connected[..] == old(connected[..])[id := code == Success] && trace == old(trace) + ConnectCalls(id, message, code == Success)
        else
          connected[..] == old(connected[..]) && trace == old(trace) && code == if created != Success then created else NullPointer
      ensures id == THERMAL && created == Success && entries == ALL_ENTRIES ==> Boots(dir, code)
    {
      Store(id, entries);
      code := created;
      if code == Success {
        code := if info[id] == ALL_ENTRIES then Success else NullPointer;
        if code == Success {
          code := Enter(id, message, dir);
        }
      }
    }

    /** The part of connecting that calls a verified backend; what its message callback returns is dropped. */
    method Enter(id: nat, message: bool, dir: Option<seq<Entry>>) returns (code: ReturnCode)
      requires Valid() && info != null && id < MAX && !connected[id] && info[id] == ALL_ENTRIES
      modifies this`trace, connected, info, thermal.footprint
      ensures Valid() && connected[..] == old(connected[..])[id := code == Success]
      ensures trace == old(trace) + ConnectCalls(id, message, code == Success)
      ensures id == THERMAL ==> Boots(dir, code)
    {
      connected[id] := true;
      code := OpenOrLeave(id, message, dir);
    }

    method OpenOrLeave(id: nat, message: bool, dir: Option<seq<Entry>>) returns (code: ReturnCode)
      requires id == THERMAL ==> !thermal.lib.initialized
      requires Ready(id, {Down}) && id < MAX && connected[id]
      modifies this`trace, connected, info, thermal.footprint
      ensures Valid() && connected[..] == old(connected[..])[id := code == Success]
      ensures trace == old(trace) + ConnectCalls(id, message, code == Success)
      ensures id == THERMAL ==> Boots(dir, code)
    {
      ConnectingCalls(trace, id, message);
      code := Open(id, message, dir);
      if code != Success {
        var _ := Disconnect(id);
      }
    }

    /** The calls that may lead up to the backend being initialized. */
    method Open(id: nat, message: bool, dir: Option<seq<Entry>>) returns (code: ReturnCode)
      requires id == THERMAL ==> !thermal.lib.initialized
      requires Ready(id, {Down}) && id < MAX && connected[id]
      modifies this`trace, thermal.footprint
      ensures Ready(id, {Up, Owing}) && (code == Success ==> Valid())
      ensures trace == old(trace) + OpeningCalls(id, message, code == Success)
      ensures id == THERMAL ==> Boots(dir, code)
    {
      if message {
        Announce(id);
      }
      code := Boot(id, dir);
    }

    method Boot(id: nat, dir: Option<seq<Entry>>) returns (code: ReturnCode)
      requires id == THERMAL ==> !thermal.lib.initialized
      requires Ready(id, {Down}) && id < MAX && connected[id]
      modifies this`trace, thermal.footprint
      ensures Ready(id, {Up, Owing}) && (code == Success ==> Valid())
      ensures trace == old(trace) + [Event(id, Call.Init(code == Success))]
      ensures id == THERMAL ==> Boots(dir, code)
    {
      ghost var before := trace;
      code := DispatchInit(id, dir);
      CallLeavesOthers(connected[..], Table(), before, id, Call.Init(code == Success));
    }

    method Announce(id: nat)
      requires Ready(id, {Down}) && id < MAX && connected[id]
      modifies this`trace, thermal.footprint
      ensures Ready(id, {Down}) && trace == old(trace) + [Event(id, Call.SetMessage)]
      ensures thermal.lib.initialized == old(thermal.lib.initialized)
    {
      CallLeavesOthers(connected[..], Table(), trace, id, Call.SetMessage);
      var _ := Dispatch(id, Call.SetMessage);
    }

    /** qcperf_disconnect_backend */
    method Disconnect(id: int) returns (code: ReturnCode)
      requires id != MAX && Ready(id, {Up, Owing})
      modifies this`trace, connected, info, thermal.footprint
      ensures Valid()
      ensures var reached := info != null && 0 <= id < MAX && old(connected[id]);
              && code == (if reached then Success else if info == null then NotInitialized
                          else if 0 <= id < MAX then BackendNotConnected else InvalidArguments)
              && trace == (if reached then old(trace) + [Event(id, Call.Deinit)] else old(trace))
              && connected[..] == if reached then old(connected[..])[id := false] else old(connected[..])
      ensures Answers(compiled, old(Seen()), Detach(id), code, Seen())
    {
      code := Check(id, true);
      if code == Success {
        Leave(id);
      }
    }

    /** The part of disconnecting that calls the backend and resets its entries. */
    method Leave(id: nat)
      requires Ready(id, {Up, Owing}) && id < MAX && connected[id]
      modifies this`trace, connected, info, thermal.footprint
      ensures Valid() && trace == old(trace) + [Event(id, Call.Deinit)]
      ensures connected[..] == old(connected[..])[id := false]
    {
      connected[id] := false;
      CallLeavesOthers(connected[..], Table(), trace, id, Call.Deinit);
      if info[id].deinit {
        var _ := Dispatch(id, Call.Deinit);
      }
      Store(id, NO_ENTRIES);
    }

    /** The entries of a backend that is not connected may be anything. */
    method Store(id: nat, entries: Entries)
      requires Valid() && info != null && id < MAX && !connected[id]
      modifies info
      ensures Valid() && info[..] == old(info[..])[id := entries]
    {
      info[id] := entries;
    }

    /** The disconnect loop of qcperf_deinit. */
    method DisconnectAll()
      requires Valid() && info != null
      modifies this`trace, connected, info, thermal.footprint
      ensures Valid() && Released(old(connected[..]), old(trace), MAX)
    {
      ghost var before, events := connected[..], trace;
      ReleasedNext(before, events, 0);
      for b := 0 to MAX
        invariant Valid() && Released(before, events, b)
      {
        DisconnectNext(before, events, b);
      }
    }

    /** The first n backends that were connected are disconnected; events were made before that. */
    ghost predicate Released(before: seq<bool>, events: seq<Event>, n: nat)
      reads this, connected
      requires n <= |before|
    {
      connected[..] == Cleared(before, n) && trace == events + Deinits(before, n)
    }

    method DisconnectNext(ghost before: seq<bool>, ghost events: seq<Event>, b: nat)
      requires Valid() && info != null && b < MAX == |before| && Released(before, events, b)
      modifies this`trace, connected, info, thermal.footprint
      ensures Valid() && Released(before, events, b + 1)
    {
      ReleasedNext(before, events, b);
      if connected[b] {
        var _ := Disconnect(b);
      }
    }

    /** The table is freed; nobody is connected any more. */
    method Discard()
      requires Valid() && forall b :: 0 <= b < MAX ==> !connected[..][b]
      modifies this`info
      ensures Valid() && info == null
    {
      info := null;
    }

    /** qcperf_deinit: afterwards nothing is connected and no backend is owed a deinit. */
    method Deinit() returns (code: ReturnCode)
      requires Valid()
      modifies this`info, this`trace, connected, info, thermal.footprint
      ensures Valid() && info == null
      ensures code == if old(info) == null then NotInitialized else Success
      ensures forall b :: 0 <= b < MAX ==> !connected[b] && PhaseOf(trace, b) == Down
      ensures old(info) == null ==> connected[..] == old(connected[..]) && trace == old(trace)
      ensures old(info) != null ==>
        connected[..] == Cleared(old(connected[..]), MAX) && trace == old(trace) + Deinits(old(connected[..]), MAX)
      ensures Answers(compiled, old(Seen()), Shutdown, code, Seen())
      ensures !thermal.lib.initialized && thermal.caps.None? && thermal.env.live == map[]
    {
      if info == null {
        code := NotInitialized;
      } else {
        DisconnectAll();
        Discard();
        code := Success;
      }
    }

    // ----- Whole runs

    /** The three layers are all up or all down. */
    ghost predicate ThreeLayersAgree()
      reads this, connected, thermal, thermal.lib, thermal.env
      requires Layout()
    {
      if connected[THERMAL] then
        && thermal.lib.initialized && thermal.capsLen == 1 && thermal.caps.Some?
        && |thermal.caps.value.streaming| == 4 && |thermal.caps.value.sampling| == 5
      else
        !thermal.lib.initialized && thermal.capsLen == 0 && thermal.caps.None? && thermal.env.live == map[]
    }

    method PerformAttach(id: int, message: bool, created: ReturnCode, entries: Entries, dir: Option<seq<Entry>>) returns (code: ReturnCode)
      requires Valid() && Legal(Attach(id, message, created, entries, dir))
      modifies this`trace, connected, info, thermal.footprint
      ensures Valid() && Answers(compiled, old(Seen()), Attach(id, message, created, entries, dir), code, Seen())
    {
      code := Connect(id, message, created, entries, dir);
    }

    /** One call of the public interface. */
    method Perform(a: Api) returns (code: ReturnCode)
      requires Valid() && Legal(a)
      modifies this`info, this`trace, connected, info, thermal.footprint
      ensures Valid() && (info == old(info) || info == null || fresh(info))
      ensures Answers(compiled, old(Seen()), a, code, Seen())
    {
      match a
      case Initialize(granted) => code := Init(granted);
      case Attach(id, message, created, entries, dir) => code := PerformAttach(id, message, created, entries, dir);
      case Request(call, id, given) => code := Use(call, id, given);
      case Detach(id) => code := Disconnect(id);
      case Shutdown => code := Deinit();
    }

    method PerformAll(script: seq<Api>) returns (codes: seq<ReturnCode>, ghost views: seq<View>)
      requires Valid() && forall i :: 0 <= i < |script| ==> Legal(script[i])
      modifies this`info, this`trace, connected, info, thermal.footprint
      ensures Valid() && |codes| == |script| && IsHistory(compiled, script, codes, views)
      ensures views[0] == old(Seen()) && views[|script|] == Seen()
    {
      codes, views := [], [Seen()];
      for k := 0 to |script|
        invariant Valid() && (info == old(info) || info == null || fresh(info))
        invariant |codes| == k && IsHistory(compiled, script[..k], codes, views)
        invariant views[0] == old(Seen()) && views[k] == Seen()
      {
        var code := Perform(script[k]);
        HistoryGrows(compiled, script, codes, views, code, Seen());
        codes, views := codes + [code], views + [Seen()];
      }
      assert script[..|script|] == script;
    }

    /**
     Any sequence of public calls, each of which has exactly the effect of Answers.
     Between any two of them the layers agree and no backend has been called out of
     turn; after a final qcperf_deinit every backend is disconnected and none is owed
     a deinit.
     */
    method RunAll(script: seq<Api>) returns (codes: seq<ReturnCode>, ghost views: seq<View>)
      requires Valid() && forall i :: 0 <= i < |script| ==> Legal(script[i])
      modifies this`info, this`trace, connected, info, thermal.footprint
      ensures |codes| == |script| && IsHistory(compiled, script, codes, views)
      ensures views[0] == old(Seen()) && views[|script|] == Seen()
      ensures Valid() && ThreeLayersAgree() && forall b :: 0 <= b < MAX ==> InTurn(trace, b)
      ensures script != [] && script[|script| - 1] == Shutdown ==>
        info == null && forall b :: 0 <= b < MAX ==> !connected[b] && |Lifecycle(trace, b)| % 2 == 0
    {
      codes, views := PerformAll(script);
      SettledIsInTurn(connected[..], Table(), trace);
      if script != [] && script[|script| - 1] == Shutdown {
        assert Answers(compiled, views[|script| - 1], Shutdown, codes[|script| - 1], Seen());
        assert forall b :: 0 <= b < MAX ==> !connected[..][b];
      }
    }
  }
}
