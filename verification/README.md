# QcPerf: verified model of the Linux profiling core

QcPerf is a profiling library. A core keeps a table of backends and dispatches the
public calls (init, connect, set callback, start, stop, disconnect, deinit) to them;
each backend runs a sampling thread that collects readings in a fixed response array
and hands the array to the client's callback once per streaming interval.

This project models the parts that carry state and arithmetic, and proves what they
promise. `dafny verify dfyconfig.toml` checks all of it.

- **Thermal pipeline** (`Classification`, `Resources`, `SensorSpec`, `SensorTables`,
  `SensorViews`, `ThermalLibrary`, `ThermalReport`, `ThermalBackend`). The directory is
  passed over twice, to count and to fill; values are refreshed through persistent
  handles; each sample reports one maximum per domain. The two metrics views of the
  library differ only in their kind and are one class, `SensorView`. `SensorSpec` and
  `ThermalReport` say what a sample should be in terms of the directory, the nodes that
  could be opened and the readings; `ThermalBackend.Session` is proved to deliver exactly
  that, whatever listings the passes see and whatever is refused, and every allocation and
  open file is accounted for.
- **Batching** (`Responses`, `Stream`, `HandOver`). One discipline with two flush rules: the
  counters restart with every due window (thermal, CPU, NPU, dummy), or only with a delivery (GPU). The loops
  in `ThermalBackend`, `CpuCollector`, `GpuCollector`, `NpuCollector` and
  `DummyCollector` are proved to follow it; that it loses nothing, and hands every window
  over neither late nor early, is proved about it once.
- **Thread protocols** (`Runs`, `Threads`, `GpuProtocol`, `FlagProtocol`). Start, stop and the collector as
  interleaved steps, first where the client sets the running flag before the thread
  exists, then where the thread sets it itself.
- **Core lifecycle** (`Trace`, `Core`). The class `QcPerf` dispatches through the table to
  a real thermal backend and to arbitrary other backends, over any sequence of calls.
- **CPU arithmetic** (`CpuLoad`, `CpuCollector`). Loads from pairs of /proc/stat
  snapshots in which cores come and go, and their capacity-weighted total.
- **Bounded strings** (`BoundedString`). `strlcpy`, `strlcat` and the URI built with them.

What comes from outside is a parameter of the method that reads it: the directory as
each pass sees it, the nodes that could be read in a pass (`Snapshot`), the clock, and
which allocations succeed. A directory entry is its name, the number parsed from it and
its type text. A sampling thread that finds its flag set n times is a loop over n ticks,
so "for every list of ticks" is "for every run". `double` is `real`; the 64-bit elapsed
time and the 32-bit sample counter wrap as in C.

Where code and documentation disagree, the model follows the code:

- `qcperf/backends/linux-thermal/src/linux_thermal_lib.c:35` calls the bodies stubs; they
  are complete.
- `qcperf/core/inc/qcperf.h:108` promises an invalid-arguments code for a bad id in
  connect; the code returns the invalid-backend-id code.
- `qcperf/core/inc/qcperf.h:210` promises that disconnect stops running sessions; the code
  only calls deinit. `GpuProtocol.DisconnectOverALiveThread` shows the consequence.
- Init of a thermal backend that is already initialized reports that, and then tears the
  running backend down.
- The dummy backend pauses for the streaming interval, not the sampling interval
  (`qcperf/backends/dummy/src/dummy.c:618`); pauses are not visible in the model.

## Model

| member | source | states |
|---|---|---|
| `Classification.Classify` | qcperf/backends/linux-thermal/src/linux_thermal_lib.c:131-152 | the loop returns the index of the first entry that is a prefix of the type, -1 if none is or the type is excluded |
| `Classification.DomainInRange` | qcperf/backends/linux-thermal/src/linux_thermal_lib.c:134-151 | every string classifies to -1 or to an index of the per-domain arrays; "-bcl-", "-ibat-" and "vbat" types always to -1 |
| `Classification.CurrentsAndVoltagesAreLeftOut` | qcperf/backends/linux-thermal/src/linux_thermal_lib.c:134-142 | a type with "-bcl-" or "-ibat-" anywhere in it, or beginning with "vbat", belongs to no domain |
| `Classification.OtherTypesGetTheirFirstMatch` | qcperf/backends/linux-thermal/src/linux_thermal_lib.c:143-151 | any type of none of these shapes gets the index of the first entry it begins with, and -1 only if it begins with none |
| `Classification.FirstIsLongest` | qcperf/backends/linux-thermal/src/linux_thermal_lib.c:144-149 | in a table with one competing pair, the longer of the two first, first match is longest match, for every string |
| `Classification.LongestMatchIsUnique` | qcperf/backends/linux-thermal/src/linux_thermal_lib.c:144-149 | in the order required, no string has two different longest-match answers |
| `Classification.TemperatureMatchIsLongest` | qcperf/backends/linux-thermal/src/linux_thermal_lib.c:105-111 | the temperature table as written answers every string with its longest matching entry |
| `Classification.CoolingOrderIsIrrelevant` | qcperf/backends/linux-thermal/src/linux_thermal_lib.c:116-120 | every permutation of the cooling table gives every string the same answer, its longest match |
| `Classification.SdramFirstIsLongestMatch` | qcperf/backends/linux-thermal/src/linux_thermal_lib.c:100-111 | every permutation of the temperature table that keeps "sdram" before "sdr" is still longest match |
| `Classification.OnlySdramMustComeFirst` | qcperf/backends/linux-thermal/src/linux_thermal_lib.c:100-111 | a permutation of the temperature table classifies every string as before if and only if it keeps "sdram" before "sdr" |
| `Classification.SdramBehindSdrIsMisread` | qcperf/backends/linux-thermal/src/linux_thermal_lib.c:103-107 | the input that shows why: with "sdr" first, "sdram" is read as RF |
| `SensorTables.AcquireKeepsBalance` | qcperf/backends/linux-thermal/src/linux_thermal_lib.c:250-295 | storing a freshly granted block, or NULL, in an empty owning pointer keeps live blocks equal to reachable blocks and open files equal to stored handles |
| `SensorTables.ReleaseKeepsBalance` | qcperf/backends/linux-thermal/src/linux_thermal_lib.c:422-478 | freeing an owning pointer that has no children left keeps both equalities |
| `SensorViews.StoringAHandle` | qcperf/backends/linux-thermal/src/linux_thermal_lib.c:686-689 | storing an opened node in an empty slot keeps open files equal to stored handles: no handle is overwritten |
| `SensorViews.ClosingAHandle` | qcperf/backends/linux-thermal/src/linux_thermal_lib.c:488-539 | closing and clearing a slot removes exactly its file |
| `SensorViews.NothingHeldNothingLive` | qcperf/backends/linux-thermal/src/linux_thermal_lib.c:602-620 | tables that hold nothing mean no live block and no open file |
| `SensorViews.SensorView.Count` | qcperf/backends/linux-thermal/src/linux_thermal_lib.c:358-378 | one counted entry: the domain has a block with one more entry, at most 32; a refused block stays absent; no other domain changes |
| `SensorViews.SensorView.CountEntry` | qcperf/backends/linux-thermal/src/linux_thermal_lib.c:346-379 | after any prefix of the directory, a domain's len is at most the capped number of entries that classify to it, and exactly that number if memory is never refused |
| `SensorViews.SensorView.AllocateAll` | qcperf/backends/linux-thermal/src/linux_thermal_lib.c:381-394 | after counting, every populated domain owns its arrays, arena and node array as far as granted, all zero and NULL |
| `SensorViews.SensorView.Fill` | qcperf/backends/linux-thermal/src/linux_thermal_lib.c:678-697 | id, name, value and handle of one entry go to the same slot of the parallel arrays; every other slot is unchanged and everything stays owned |
| `SensorViews.SensorView.Visit` | qcperf/backends/linux-thermal/src/linux_thermal_lib.c:663-698 | one entry of the fill pass, for any directory: writes stay below len, and slots hold the first entries that feed the domain |
| `SensorViews.SensorView.Discover` | qcperf/backends/linux-thermal/src/linux_thermal_lib.c:632-707 | the whole fill pass over any listing, unrelated to the counted one if need be: the tables are faithful to that listing, lengths unchanged; a second call changes nothing |
| `SensorViews.SensorView.Refresh` | qcperf/backends/linux-thermal/src/linux_thermal_lib.c:813-847 | one refresh: every stored value is the last good reading of its own entry over all passes so far; apart from values the tables, handles included, are unchanged |
| `SensorViews.SensorView.CloseNodes` | qcperf/backends/linux-thermal/src/linux_thermal_lib.c:488-539 | every open node is closed once and its array freed; nothing else is released |
| `SensorViews.SensorView.FreeMetrics` | qcperf/backends/linux-thermal/src/linux_thermal_lib.c:547-600 | every block is freed once and the metrics pointer is NULL |
| `SensorViews.FillMakesProgress` | qcperf/backends/linux-thermal/src/linux_thermal_lib.c:674-697 | an accepted entry extends the roster of its domain by one and of no other |
| `SensorViews.RefreshExtendsHistory` | qcperf/backends/linux-thermal/src/linux_thermal_lib.c:829-841 | a refresh turns "last good reading so far" into the same statement with one more pass |
| `SensorSpec.LatestIsTheLastGood` | qcperf/backends/linux-thermal/src/linux_thermal_lib.c:829-841 | the stored value is the reading of the last pass that succeeded, however many failed since; a cooling state is its low byte |
| `ThermalLibraries.ThermalLibrary.Init` | qcperf/backends/linux-thermal/src/linux_thermal_lib.c:307-412 | return code for every case; on success both views are counted from the directory; on any failure nothing stays allocated |
| `ThermalLibraries.ThermalLibrary.Scan` | qcperf/backends/linux-thermal/src/linux_thermal_lib.c:346-379 | the single counting pass serves both views: afterwards each has counted exactly its own entries |
| `ThermalLibraries.ThermalLibrary.DiscoverZones` | qcperf/backends/linux-thermal/src/linux_thermal_lib.c:632-707 | which return code when, including the NULL out-argument, which changes nothing; otherwise the temperature view is filled from the directory and its shape is unchanged |
| `ThermalLibraries.ThermalLibrary.DiscoverDevices` | qcperf/backends/linux-thermal/src/linux_thermal_lib.c:719-801 | the same for cooling devices, with max_state read once |
| `ThermalLibraries.ThermalLibrary.ZonesInfo` | qcperf/backends/linux-thermal/src/linux_thermal_lib.c:813-847 | which return code when; on success one more reading pass is taken into the values and nothing else changes |
| `ThermalLibraries.ThermalLibrary.DevicesInfo` | qcperf/backends/linux-thermal/src/linux_thermal_lib.c:859-892 | the same for cooling devices |
| `ThermalLibraries.ThermalLibrary.Cleanup` | qcperf/backends/linux-thermal/src/linux_thermal_lib.c:602-620 | whatever allocations and opens failed before: afterwards nothing is live or open and init can be called again |
| `ThermalReport.PeakIsOverOpenSlots` | qcperf/backends/linux-thermal/src/linux_thermal.c:545-549 | the maximum over a block's values is the maximum of the last good readings of the entries with an open node: slots that are unfilled or could not be opened never matter |
| `ThermalReport.ThrottleIsOverOpenSlots` | qcperf/backends/linux-thermal/src/linux_thermal.c:571-578 | the same for the highest cur/max percentage, over devices with a positive max_state |
| `ThermalReport.SettledDomain` | qcperf/backends/linux-thermal/src/linux_thermal_lib.c:346-394 | for equal listings of numbered, readable entries with allocations granted: a domain has a block iff it has a sensor, and every slot is filled and open |
| `ThermalReport.ComputedIsReported` | qcperf/backends/linux-thermal/src/linux_thermal.c:531-585 | for any two listings and under any failures, the sample computed from the tables equals the specification: per domain with its arrays, the maximum of the last good readings of the sensors with an open node among the first entries that feed it |
| `ThermalReport.OutfitIsFromTheListing` | qcperf/backends/linux-thermal/src/linux_thermal_lib.c:663-698 | those sensors are at most 32 entries of the listing that classify to the domain |
| `ThermalReport.SettledOutfitIsIdeal` | qcperf/backends/linux-thermal/src/linux_thermal_lib.c:346-394 | when nothing is refused, every domain with a sensor reports from the first 32 entries that classify to it |
| `ThermalReport.SampleIsIntended` | qcperf/backends/linux-thermal/src/linux_thermal.c:531-585 | so then the computed sample is, per domain, the maximum over the first 32 entries that classify to it of their last good readings |
| `ThermalReport.SampleMeans` | qcperf/backends/linux-thermal/src/linux_thermal.c:539-584 | a response is in a sample if and only if its domain is reported and it carries that domain's value |
| `ThermalReport.PeakIsTheMaximum` | qcperf/backends/linux-thermal/src/linux_thermal.c:545-549 | the reported reading is one of the sensors' last good readings and none is higher |
| `ThermalReport.ThrottleIsTheMaximum` | qcperf/backends/linux-thermal/src/linux_thermal.c:571-578 | the reported throttle is cur/max * 100 of one of the sensors with a positive max_state, or 0, and none is higher |
| `ThermalReport.OnlyOwnSensorsMatter` | qcperf/backends/linux-thermal/src/linux_thermal.c:531-585 | two samples over histories that agree on the sensors of one domain, and on nothing else, have the same response for that domain, for temperatures and for cooling |
| `ThermalReport.LatestWithinLimit` | qcperf/backends/linux-thermal/src/linux_thermal_lib.c:777-791 | with sane states in a byte, the stored level never exceeds the stored limit, whatever reads fail |
| `ThermalReport.CoolingIsAPercentage` | qcperf/backends/linux-thermal/src/linux_thermal.c:565-584 | then every cooling response of a sample is in [0, 100] |
| `ThermalBackends.EveryThrottleIsAPercentage` | qcperf/backends/linux-thermal/src/linux_thermal.c:565-584 | and so is every cooling response of every sample of a run |
| `ThermalReport.PackingKeepsExactly` | qcperf/backends/linux-thermal/src/linux_thermal_info.c:181-199 | an id is advertised iff its presence flag is set |
| `ThermalReport.PackingIsIncreasing` | qcperf/backends/linux-thermal/src/linux_thermal_info.c:181-199 | advertised ids are strictly increasing |
| `ThermalReport.PackingCounts` | qcperf/backends/linux-thermal/src/linux_thermal_info.c:181-199 | their number is the number of flags set |
| `ThermalReport.SampleMatchesAdvertisement` | qcperf/backends/linux-thermal/src/linux_thermal.c:539-584 | a sample has at most as many readings as metrics are advertised; if every advertised domain has its arrays it has exactly those ids in that order |
| `ThermalReport.GrantedIsUnabridged` | qcperf/backends/linux-thermal/src/linux_thermal.c:542-568 | if memory is never refused, every advertised domain has its arrays, whatever could not be opened or read |
| `ThermalBackends.ThermalBackend.SamplesCarryTheAdvertisedIds` | qcperf/backends/linux-thermal/src/linux_thermal.c:539-584 | so every sample of every run carries exactly the advertised ids, in advertised order |
| `ThermalBackends.ThermalBackend.MarkPresent` | qcperf/backends/linux-thermal/src/linux_thermal.c:185-216 | the flags are those of the domains with a non-empty block |
| `ThermalBackends.ThermalBackend.PackMetrics` | qcperf/backends/linux-thermal/src/linux_thermal_info.c:181-199 | the filled prefix of the metric list is the packing of the flags |
| `ThermalBackends.ThermalBackend.RebuildSupported` | qcperf/backends/linux-thermal/src/linux_thermal.c:499-504 | the collector's flags, rebuilt from the list, equal the presence vector: the round trip of the packing |
| `ThermalBackends.ThermalBackend.Advertise` | qcperf/backends/linux-thermal/src/linux_thermal.c:248-285 | success iff both blocks are granted; then one capability with 4 streaming and 5 sampling rates and the packed ids; a half-built one is still owned |
| `ThermalBackends.ThermalBackend.Init` | qcperf/backends/linux-thermal/src/linux_thermal.c:229-294 | library initialized iff success; every failure, also a repeated init, leaves library and advertisement empty |
| `ThermalBackends.ThermalBackend.Deinit` | qcperf/backends/linux-thermal/src/linux_thermal.c:439-446 | nothing stays allocated, no callback stays set |
| `ThermalBackends.ThermalBackend.SetDataCallback` | qcperf/backends/linux-thermal/src/linux_thermal.c:325-337 | the callback is set once; NULL and a second one are refused |
| `ThermalBackends.ThermalBackend.ValidateRequest` | qcperf/backends/linux-thermal/src/linux_thermal.c:113-165 | success iff the capability is advertised and both rates are listed; which error otherwise |
| `ThermalBackends.ThermalBackend.MaxLevel` | qcperf/backends/linux-thermal/src/linux_thermal.c:540-549 | the result is one of the values, or 0, and none is higher |
| `ThermalBackends.ThermalBackend.MaxThrottle` | qcperf/backends/linux-thermal/src/linux_thermal.c:566-578 | the result is cur/max in percent of one device with a positive max_state, or 0, and none is higher |
| `ThermalBackends.ThermalBackend.EmitZones` | qcperf/backends/linux-thermal/src/linux_thermal.c:531-556 | the array holds the pending readings followed by the temperature report, cut only at the array's end |
| `ThermalBackends.ThermalBackend.EmitDevices` | qcperf/backends/linux-thermal/src/linux_thermal.c:558-585 | the same for the cooling report |
| `ThermalBackends.ThermalBackend.Sample` | qcperf/backends/linux-thermal/src/linux_thermal.c:525-585 | one iteration, under any failures: both views take one more pass, and what is written behind the pending readings is the sample of the last good readings of the open sensors, as far as it fits |
| `ThermalBackends.ThermalBackend.CollectData` | qcperf/backends/linux-thermal/src/linux_thermal.c:465-616 | every run, under any failures: the batches handed to the callback are the closed windows of the streaming discipline over exactly these samples |
| `ThermalBackends.ThermalBackend.Session` | qcperf/backends/linux-thermal/src/linux_thermal.c:351-392 | start accepts exactly the valid requests with a callback and no running thread; then delivered plus pending readings are all samples' readings in order, each window handed over on time, the samples being those of the open sensors, in a steady system of the first 32 sensors of each domain |
| `ThermalBackends.EveryTemperatureIsTheHottest` | qcperf/backends/linux-thermal/src/linux_thermal.c:531-556 | every temperature response of every run: times 1000 it is at least the last good raw reading of each open sensor of its domain up to then, and equal to one of them, or 0 |
| `ThermalBackends.EveryThrottleIsTheHighest` | qcperf/backends/linux-thermal/src/linux_thermal.c:558-585 | every cooling response of every run: it is at least the percentage of each open device whose max_state was read as positive, from its last good cur_state up to then, and equal to one of them, or 0 |
| `ThermalBackends.NothingIsLost` | qcperf/backends/linux-thermal/src/linux_thermal.c:506-599 | for every accepted request and every clock: nothing lost, duplicated, reordered or cut; every window is 1 to ceil(streaming/sampling) whole samples and is handed over with the first sample that covers the streaming interval |
| `Stream.SamplesPerStream` | qcperf/backends/linux-thermal/src/linux_thermal.c:507 | the integer quotient is the least number of samples that covers the streaming interval |
| `Stream.ArraysAreSpacious` | qcperf/backends/linux-thermal/src/linux_thermal.c:506-508 | for every accepted pair of rates the array holds a full window and a window has at least one sample |
| `Stream.StepKeepsRoom` | qcperf/backends/qcom-linux-gpu/src/qcom_linux_gpu.c:249-270 | the invariant behind losslessness: a window that holds a reading is younger than a full window, though an empty one may be arbitrarily old |
| `Stream.WindowsPartitionTheRun` | qcperf/backends/linux-thermal/src/linux_thermal.c:587-599 | the windows cut the run into consecutive whole samples |
| `Stream.Lossless` | qcperf/backends/qcom-dsp-npu/src/qcom_dsp_npu.c:438-496 | under both flush rules, delivered plus pending readings are all readings in order |
| `Stream.LosslessIffFitted` | qcperf/backends/qcom-linux-cpu/src/qcom_linux_cpu.c:617-692 | for samples of any size and runs of any length: all readings are reported if and only if no sample met an array too full for it |
| `Stream.WindowSizes` | qcperf/backends/dummy/src/dummy.c:596-613 | where the counter restarts with every due window, windows have 1 to samples-per-stream samples |
| `Stream.BatchesFit` | qcperf/backends/qcom-linux-cpu/src/qcom_linux_cpu.c:617-692 | a batch holds at least one reading and never more than the array |
| `Stream.PendingIsNotDue` | qcperf/backends/qcom-linux-gpu/src/qcom_linux_gpu.c:264-270 | a reading still pending after an iteration was due neither by count nor by time |
| `HandOver.RunIsInTime` | qcperf/backends/linux-thermal/src/linux_thermal.c:506-599 | for every request, run and clock: each window is handed over with the first sample that covers the streaming interval, by count * sampling or by the time passed, and with no earlier one; the open window does not cover it |
| `HandOver.WindowIsFullOrOld` | qcperf/backends/linux-thermal/src/linux_thermal.c:587-599 | a closed window has exactly the samples of one streaming interval, or that many milliseconds passed between the previous hand-over and its last sample |
| `HandOver.PendingIsYoung` | qcperf/backends/qcom-linux-gpu/src/qcom_linux_gpu.c:264-270 | a reading that is still pending belongs to a window with fewer samples than the streaming interval has, and younger than it |
| `Stream.FlushWhenDue` | qcperf/backends/linux-thermal/src/linux_thermal.c:587-599 | the end of a thermal or CPU iteration takes one step of the discipline |
| `Stream.FlushIfDelivered` | qcperf/backends/qcom-dsp-npu/src/qcom_dsp_npu.c:479-496 | the end of an NPU or dummy iteration, whose position is reset only by a delivery, takes the same step when a callback is set |
| `GpuProtocol.RunKeepsInv` | qcperf/backends/qcom-linux-gpu/src/qcom_linux_gpu.c:200-351 | every interleaving of the client with the threads keeps the ownership invariant |
| `GpuProtocol.OneCollectorWithACallback` | qcperf/backends/qcom-linux-gpu/src/qcom_linux_gpu.c:266-311 | in every orderly run at most one collector is live, its callback is not NULL, and none is live without a handle |
| `GpuProtocol.OnlyStopEndsTheLoop` | qcperf/backends/qcom-linux-gpu/src/qcom_linux_gpu.c:234-309 | a thread never finds the flag clear unless a stop is waiting for it |
| `GpuProtocol.WaitingStepDecreases` | qcperf/backends/qcom-linux-gpu/src/qcom_linux_gpu.c:324-333 | while a join waits, every enabled step brings the thread closer to its exit |
| `GpuProtocol.JoinIsNeverStuck` | qcperf/backends/qcom-linux-gpu/src/qcom_linux_gpu.c:324-333 | while a join waits, either the thread can move or the join can return |
| `GpuProtocol.JoinReturnsSoon` | qcperf/backends/qcom-linux-gpu/src/qcom_linux_gpu.c:307-333 | under every schedule the join waits for at most five thread steps, also when stop follows start at once |
| `GpuProtocol.FailedJoinAllowsTwoCollectors` | qcperf/backends/qcom-linux-gpu/src/qcom_linux_gpu.c:329-338 | the run that shows why joins must succeed: after a failed one, the released handle admits a second collector |
| `GpuProtocol.DisconnectOverALiveThread` | qcperf/backends/qcom-linux-gpu/src/qcom_linux_gpu.c:344-351 | the run that shows why stop must precede disconnect: a live thread is about to call a NULL callback |
| `FlagProtocol.StopAtOnceIsIgnored` | qcperf/backends/linux-thermal/src/linux_thermal.c:401-431 | where the thread sets its own flag, a stop right after start returns without effect and the thread samples on |
| `FlagProtocol.StartTwiceMakesTwoCollectors` | qcperf/backends/linux-thermal/src/linux_thermal.c:351-392 | two starts in a row create two collectors |
| `FlagProtocol.LateExitEndsTheNextSession` | qcperf/backends/linux-thermal/src/linux_thermal.c:510-614 | a run with a start over a thread leaving after a failed allocation: its last statement clears the new session's flag |
| `FlagProtocol.CallsSeeTheThreadIffVisible` | qcperf/backends/qcom-linux-cpu/src/qcom_linux_cpu.c:368-450 | after every run whose calls avoid those moments: stop acts on the thread, and start is refused, if and only if the thread is past its first and before its last statement; it is the only one and has a callback |
| `FlagProtocol.StopLeavesNoThread` | qcperf/backends/linux-thermal/src/linux_thermal.c:409-417 | in such a run a stop that acts returns only when no thread is live |
| `GpuCollector.CollectGpuData` | qcperf/backends/qcom-linux-gpu/src/qcom_linux_gpu.c:200-284 | every run, of any length: the batches are the closed windows of the GPU rule over what each iteration takes, all its valid readings or, without room for both metrics, none |
| `GpuCollector.EveryWindowIsOnTime` | qcperf/backends/qcom-linux-gpu/src/qcom_linux_gpu.c:264-270 | in every run a window is handed over with the first iteration after which it holds a reading and covers the streaming interval, by the iterations counted since the last delivery or by time, and never before |
| `GpuCollector.MovingClockLosesNothing` | qcperf/backends/qcom-linux-gpu/src/qcom_linux_gpu.c:234-275 | whatever reads fail, in runs of any length: while the clock advances with the pauses no valid reading is dropped, however often the sample counter wraps |
| `GpuCollector.ReportedIsRead` | qcperf/backends/qcom-linux-gpu/src/qcom_linux_gpu.c:234-275 | then the responses delivered or pending are exactly the values read: utilization as metric 0, clock as metric 1, with the time of their iteration |
| `GpuCollector.EveryReadingArrives` | qcperf/backends/qcom-linux-gpu/src/qcom_linux_gpu.c:234-275 | with any clock, in fewer than 2^32 iterations no valid reading is dropped for lack of room, and what is pending was not due |
| `GpuCollector.LosslessIffRoom` | qcperf/backends/qcom-linux-gpu/src/qcom_linux_gpu.c:249-270 | for any clock and any length: every reading is reported if and only if each iteration with a reading found room for both metrics |
| `GpuCollector.LongSilenceLosesReadings` | qcperf/backends/qcom-linux-gpu/src/qcom_linux_gpu.c:264-270 | a run that loses readings, its clock standing still throughout: 2^32 - 1 silent iterations wrap the sample counter, so a full array is not due |
| `NpuCollector.CollectNpuData` | qcperf/backends/qcom-dsp-npu/src/qcom_dsp_npu.c:398-525 | every run: the batches are the closed windows over the answered queries |
| `NpuCollector.EveryAnswerArrives` | qcperf/backends/qcom-dsp-npu/src/qcom_dsp_npu.c:438-496 | whatever queries fail, every answer arrives whole and in order, in windows of 1 to samples-per-stream iterations, none handed over late or early |
| `NpuCollector.ReportedIsAnswered` | qcperf/backends/qcom-dsp-npu/src/qcom_dsp_npu.c:441-472 | the responses delivered or pending are exactly the numbers of the answers, each under its own metric id and with the time of its iteration |
| `DummyCollector.Fill` | qcperf/backends/dummy/src/dummy.c:557-594 | a sample lands behind the pending readings; the overrun branch is dead and every string metric meets a slot with a buffer |
| `DummyCollector.CollectDummyData` | qcperf/backends/dummy/src/dummy.c:498-649 | every run: the batches are the closed windows over the counted samples, and all string buffers are freed at the end |
| `DummyCollector.PendingIsWholeSamples` | qcperf/backends/dummy/src/dummy.c:554-594 | at every iteration of every run the fill position is a multiple of 5 |
| `DummyCollector.EveryBatchIsWellPlaced` | qcperf/backends/dummy/src/dummy.c:540-613 | in every delivered batch the string responses are exactly those on slots that own a buffer, all with text; nothing is lost, and no batch is late or early |
| `DummyCollector.EveryMetricCounts` | qcperf/backends/dummy/src/dummy.c:554-594 | by its place in the run, every response has the next value of its type's counter, which counts the metrics of that type over the whole run without gaps |
| `CpuLoad.GetProcStat` | qcperf/backends/qcom-linux-cpu/src/qcom_linux_cpu_utils.c:107-146 | the loop moves exactly the slots of the cores it meets, until as many lines as cores were taken; the others stay stale; success iff it met one |
| `CpuLoad.SnapshotIsFromTrace` | qcperf/backends/qcom-linux-cpu/src/qcom_linux_cpu_utils.c:128-137 | every slot always holds counters of one line of its own core, or the initial zeros |
| `CpuLoad.SlotHoldsTheLastLine` | qcperf/backends/qcom-linux-cpu/src/qcom_linux_cpu_utils.c:107-146 | a core's slot holds the last of its lines among the first lines of cores, as many as there are cores; with no such line it is left alone |
| `CpuLoad.ComparableReadingsAreSound` | qcperf/backends/qcom-linux-cpu/src/qcom_linux_cpu.c:579-596 | for two readings of one core in either order: 0 <= effective <= utilization <= 100 and effective = utilization - steal |
| `CpuLoad.UsageIsTheBusyShare` | qcperf/backends/qcom-linux-cpu/src/qcom_linux_cpu.c:579-596 | on the raw counters: utilization times the time passed is 100 times the busy time, and likewise for steal and effective; all are 0 if no time passed |
| `CpuLoad.TotalIsConvex` | qcperf/backends/qcom-linux-cpu/src/qcom_linux_cpu.c:599-604 | capacities adding up to the total: the total load lies between the least and the greatest core load |
| `CpuLoad.TotalIsAPercentage` | qcperf/backends/qcom-linux-cpu/src/qcom_linux_cpu.c:523-526 | with capacities missing it still lies in [0, 100] |
| `CpuLoad.WeightedIsMonotone` | qcperf/backends/qcom-linux-cpu/src/qcom_linux_cpu.c:599-604 | core by core smaller loads give a smaller total |
| `CpuLoad.TotalIsLinear` | qcperf/backends/qcom-linux-cpu/src/qcom_linux_cpu.c:599-604 | x more load on one core is x times that core's capacity share more in the total |
| `CpuCollector.TotalCapacity` | qcperf/backends/qcom-linux-cpu/src/qcom_linux_cpu_utils.c:81-105 | success iff the core count and every capacity are read and their sum is positive; then the sum |
| `CpuCollector.LaterCapacitiesFit` | qcperf/backends/qcom-linux-cpu/src/qcom_linux_cpu.c:519-526 | re-read capacities, some of them failing, never exceed the total and equal it if none fails |
| `CpuCollector.InitMetrics` | qcperf/backends/qcom-linux-cpu/src/qcom_linux_cpu_info.c:115-168 | the list is the two totals and, core by core, four ids plus the DCVS id where its node is readable |
| `CpuCollector.IdsAreIncreasing` | qcperf/backends/qcom-linux-cpu/src/qcom_linux_cpu_info.c:115-168 | the advertised ids are strictly increasing, hence distinct, and fit the allocated list |
| `CpuCollector.IdsAreUnambiguous` | qcperf/backends/qcom-linux-cpu/src/qcom_linux_cpu_info.c:117-157 | 2 + 5c + o determines core and offset and is never 0 or 1 |
| `CpuCollector.AdvertisedMeans` | qcperf/backends/qcom-linux-cpu/src/qcom_linux_cpu_info.c:115-168 | an id is advertised iff it is 0 or 1, one of the first four of a core, or the fifth of a core whose DCVS node is readable |
| `CpuCollector.SampleEmitsAdvertisedIds` | qcperf/backends/qcom-linux-cpu/src/qcom_linux_cpu.c:611-674 | a sample's ids are, in order, those that would be advertised for the DCVS nodes it could read |
| `CpuCollector.ReadingsMean` | qcperf/backends/qcom-linux-cpu/src/qcom_linux_cpu.c:611-674 | which value goes out under which id: the totals as 0 and 1, then per core load, frequency, steal, effective load and the DCVS limit |
| `CpuCollector.SamplesCarryTheAdvertisedIds` | qcperf/backends/qcom-linux-cpu/src/qcom_linux_cpu.c:557-674 | with the same DCVS nodes readable as at init, every sample of a run carries exactly the advertised ids in order |
| `CpuCollector.Measure` | qcperf/backends/qcom-linux-cpu/src/qcom_linux_cpu.c:572-605 | usage of every core and the two capacity-weighted totals, as the specification functions say |
| `CpuCollector.Emit` | qcperf/backends/qcom-linux-cpu/src/qcom_linux_cpu.c:607-674 | pending readings followed by the sample, cut only at the array's end |
| `CpuCollector.CollectCpuData` | qcperf/backends/qcom-linux-cpu/src/qcom_linux_cpu.c:475-720 | every run: the batches are the closed windows over the samples of the completed iterations; a stop during the sleep drops the half-taken sample |
| `CpuCollector.LoadIsMeasured` | qcperf/backends/qcom-linux-cpu/src/qcom_linux_cpu.c:557-625 | from /proc/stat to the response, in every iteration of every run: the load of a core met by both snapshots is the percentage of time its counters say it was busy |
| `CpuCollector.HotPlugIsSound` | qcperf/backends/qcom-linux-cpu/src/qcom_linux_cpu.c:557-596 | cores may be missing from any snapshot: after every iteration of every run over monotone counters, each core's usage is sound |
| `CpuCollector.TotalsAreSound` | qcperf/backends/qcom-linux-cpu/src/qcom_linux_cpu.c:598-605 | then 0 <= effective total <= total <= 100, for capacities that do not exceed the total |
| `CpuCollector.ReadCapacitiesKeepTotalsSound` | qcperf/backends/qcom-linux-cpu/src/qcom_linux_cpu.c:519-526 | the capacities as the thread reads them, some re-reads failing, satisfy that; with none failing the total lies among the core loads |
| `CpuCollector.NothingIsLost` | qcperf/backends/qcom-linux-cpu/src/qcom_linux_cpu.c:611-692 | with no more DCVS nodes readable than at init, nothing is lost, and the windows cut the run into 1 to samples-per-stream whole samples each |
| `CpuCollector.AnyDcvsIsContained` | qcperf/backends/qcom-linux-cpu/src/qcom_linux_cpu.c:611-692 | with arbitrary DCVS changes the array is never overrun, nothing is lost if and only if every sample met enough room, and every window is handed over on time |
| `CpuCollector.LateDcvsIsCut` | qcperf/backends/qcom-linux-cpu/src/qcom_linux_cpu.c:667-674 | the run whose reported readings differ from its samples: a DCVS node that becomes readable after init |
| `Trace.UnbrokenAlternates` | qcperf/core/src/qcperf.c:109-138 | in a trace that never leaves the automaton, inits and deinits of a backend alternate, and are even in number when it is down |
| `Trace.UsesAreBetweenInitAndDeinit` | qcperf/core/src/qcperf.c:140-194 | in such a trace every info, set-data, start and stop has a successful init before it and no init or deinit in between |
| `Core.QcPerf.Dispatch` | qcperf/core/src/qcperf.c:150-192 | a call through the table needs a non-NULL entry, is recorded, and leaves the thermal backend in the state the call implies; a data callback gets through to it |
| `Core.QcPerf.Init` | qcperf/core/src/qcperf.c:79-92 | return code and table for every case |
| `Core.QcPerf.Use` | qcperf/core/src/qcperf.c:140-194 | the backend is reached iff the library is initialized, the id valid, the argument not NULL and the backend connected; otherwise which error code when, and no call is made |
| `Core.QcPerf.Connect` | qcperf/core/src/qcperf.c:109-138 | whenever the library is up, the id valid and the backend not connected but compiled in, created and complete: the calls message?, init and, if that failed, deinit are made, and it ends up connected iff init succeeded; in every other case which return code, and nothing is called or changed; a thermal backend with its directory and all memory always connects |
| `Core.QcPerf.Disconnect` | qcperf/core/src/qcperf.c:196-212 | success iff it was connected; exactly one deinit is called; no other connection changes |
| `Core.QcPerf.Deinit` | qcperf/core/src/qcperf.c:214-230 | every connected backend gets exactly one deinit, in the order of ids; afterwards nothing is connected, no backend is owed a deinit, and the thermal backend holds no memory |
| `Core.QcPerf.Perform` | qcperf/core/src/qcperf.c:79-230 | the whole effect of each public call on connections and backend calls, with its return code in every case |
| `Core.QcPerf.RunAll` | qcperf/core/src/qcperf.c:76-230 | after every sequence of public calls, each of which has exactly the effect and return code that `Answers` spells out: core flag, library flag and advertisement (1 capability, 4 and 5 rates) are all up or all down, and every backend was called in turn |
| `BoundedString.Strlcpy` | qcperf/backends/qcom-dsp/src/fastrpc_runtime.c:205-213 | the buffer holds the first size - 1 characters and a terminator, nothing beyond is written, and the result is at least size iff the text was cut |
| `BoundedString.Strlcat` | qcperf/backends/qcom-dsp/src/fastrpc_runtime.c:215-225 | the same for the concatenation; an unterminated or empty buffer is left alone; the result is at least size iff the concatenation was cut |
| `BoundedString.GetFullUri` | qcperf/backends/qcom-dsp/src/qcom_dsp.c:43-53 | the buffer is the first size - 1 characters of the URI and "&_dom=adsp" for domain 0 or "&_dom=cdsp" for domain 3, zero-padded; all zero for other domains; nothing beyond size is written |
| `BoundedString.SessionUri` | qcperf/backends/qcom-dsp/src/qcom_dsp.c:72-82 | in the 256-byte buffer of the caller a URI that leaves room for the suffix is never cut |

## Left out

- GpuCollector.EveryReadingArrives: bounded only for a clock that need not advance. With one that advances with the pauses `GpuCollector.MovingClockLosesNothing` covers every length; the loss in `GpuCollector.LongSilenceLosesReadings` is one of a clock that stands still through 2^32 pauses in a row, which a running loop does not meet.
- GpuCollector.CollectGpuData: the callback is taken as set throughout; that is the result of `GpuProtocol`, under its two conditions.
- DummyCollector.CollectDummyData: the callback is taken as set throughout; start insists on it, and nothing clears it once it is set.
- DummyCollector.CollectDummyData: the capability with ten metrics is modelled, though it is registered with the id of the first one (`qcperf/backends/dummy/src/dummy.c:157`) and so cannot be requested.
- CpuCollector.TotalCapacity: the 32-bit wrap of the capacity sum, which real capacities do not reach.
- CpuCollector.CollectCpuData: a core's frequency is a value of its sample, 0.0 where the read failed.
- Core.QcPerf.RunAll: a session runs to its end inside the start that begins it; what other calls do while its thread samples is the subject of the two protocol modules. The id that equals the number of backends is excluded, as no backend has it.
- Core.QcPerf.Dispatch: the arguments of a start and what its session delivers are the contract of `ThermalBackends.ThermalBackend.Session`, which it calls; the core passes nothing of it on.
- GpuProtocol.OneCollectorWithACallback: joins succeed and no disconnect is issued over a live thread, as the header asks; without either it is false, as two lemmas show. Thread creation and destruction behave as their names say.
- FlagProtocol.CallsSeeTheThreadIffVisible: the NPU and dummy backends, which keep the flag set when an allocation fails before their loop.
- ThermalReport.SampleIsIntended: the equality with raw sensor values holds as stored: cooling states are kept in a byte, temperatures are taken as non-negative.
- ThermalBackends.ThermalBackend.CollectData: the request's lifetime and callbacks that call back into the library.
- SensorViews.SensorView.Fill: the C arrays of a block are sequences inside a field of the view, and the blocks are tracked by address in a ledger; aliasing between arrays is ruled out by that representation. Files are identified by zone number, one value per node and pass.
- Resources: each view and the advertisement has its own ledger of blocks and files, so that a block freed by the wrong owner cannot be expressed.
- sysfs and /proc text parsing, directory and file I/O, the clock and the pauses: inputs.
- Message callbacks, logging, names, descriptions and units, version and error texts: no property of interest.
- The queue, mutex and thread wrappers, the Windows backends, FastRPC stubs and DLL loading: their code rests on libraries that are not part of this model.
- Floating-point rounding.
- Concurrent API calls by several clients.
