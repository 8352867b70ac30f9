/** The thermal library: the two metrics views behind one initialization flag. */
module ThermalLibraries {
  import opened Common
  import opened Classification
  import opened Resources
  import opened SensorSpec
  import opened SensorViews

  class ThermalLibrary {
    const temp: SensorView
    const cool: SensorView
    const grants: Grants
    var initialized: bool

    ghost const footprint: set<object>

    ghost predicate Layout()
      reads this
    {
      && temp.kind == Temperature && cool.kind == Cooling
      && temp != cool && temp.env != cool.env
      && temp.env.grants == grants == cool.env.grants
      && footprint == {this, temp, cool, temp.env, cool.env}
    }

    ghost predicate Valid()
      reads this, temp, cool, temp.env, cool.env
    {
      && Layout()
      && if initialized
         then temp.Valid() && cool.Valid() && temp.tab.metrics.Some? && cool.tab.metrics.Some?
         else temp.Clean() && cool.Clean()
    }

    constructor (grants: Grants)
      ensures Valid() && !initialized && fresh(footprint) && this.grants == grants
    {
      var e1 := new Environment(grants);
      var e2 := new Environment(grants);
      var t := new SensorView(Temperature, e1);
      var c := new SensorView(Cooling, e2);
      this.grants, initialized := grants, false;
      temp, cool := t, c;
      footprint := {this, t, c, e1, e2};
    }

    /** linux_thermal_lib_init; dir is None if the sysfs root cannot be opened. */
    method Init(dir: Option<seq<Entry>>) returns (code: ReturnCode)
      requires Valid()
      modifies footprint
      ensures Valid()
      ensures code in {Success, AlreadyInitialized, Failed, CallocFailed}
      ensures code == AlreadyInitialized <==> old(initialized)
      ensures code == Failed <==> !old(initialized) && dir.None?
      ensures code == CallocFailed ==> !grants.memory
      ensures initialized <==> old(initialized) || code == Success
      ensures code == AlreadyInitialized ==> unchanged(footprint)
      ensures code == Success ==>
        !temp.discovered && !cool.discovered && temp.counted == dir.value && cool.counted == dir.value
    {
      if initialized {
        return AlreadyInitialized;
      }
      if dir.None? {
        return Failed;
      }
      temp.AllocateMetrics();
      cool.AllocateMetrics();
      if temp.tab.metrics.None? || cool.tab.metrics.None? {
        temp.FreeMetrics();
        cool.FreeMetrics();
        return CallocFailed;
      }
      SizeAndAllocate(dir.value);
      initialized := true;
      return Success;
    }

    /** The counting pass, and the buffers it asks for. */
    method SizeAndAllocate(entries: seq<Entry>)
      requires Layout() && temp.Sized([]) && cool.Sized([])
      modifies temp`tab, temp`counted, temp.env, cool`tab, cool`counted, cool.env
      ensures temp.Valid() && cool.Valid() && temp.tab.metrics.Some? && cool.tab.metrics.Some?
      ensures temp.counted == entries == cool.counted
    {
      Scan(entries);
      temp.AllocateAll();
      cool.AllocateAll();
    }

    /** The counting pass over the directory. */
    method Scan(entries: seq<Entry>)
      requires Layout() && temp.Sized([]) && cool.Sized([])
      modifies temp`tab, temp`counted, temp.env, cool`tab, cool`counted, cool.env
      ensures temp.Sized(entries) && cool.Sized(entries) && temp.counted == entries == cool.counted
    {
      for k := 0 to |entries|
        invariant temp.Sized(entries[..k]) && cool.Sized(entries[..k])
      {
        var e := entries[k];
        assert entries[..k] + [e] == entries[..k + 1];
        var isZone := StartsWith(e.name, ZONE_PREFIX);
        var isDevice := StartsWith(e.name, DEVICE_PREFIX);
        AnEntryHasOneKind(e);
        if (isZone || isDevice) && e.typ.Some? {
          if isZone {
            temp.CountEntry(e, entries[..k]);
            NotCounted(Cooling, cool.tab, entries[..k], e, grants.memory);
          } else {
            cool.CountEntry(e, entries[..k]);
            NotCounted(Temperature, temp.tab, entries[..k], e, grants.memory);
          }
        } else {
          NotCounted(Temperature, temp.tab, entries[..k], e, grants.memory);
          NotCounted(Cooling, cool.tab, entries[..k], e, grants.memory);
        }
      }
      assert entries[..|entries|] == entries;
      temp.counted := entries;
      cool.counted := entries;
    }

    /** linux_thermal_lib_cleanup: after it, nothing is allocated and nothing is open. */
    method Cleanup() returns (code: ReturnCode)
      requires Valid()
      modifies footprint
      ensures Valid() && !initialized
      ensures code == if old(initialized) then Success else NotInitialized
    {
      if !initialized {
        return NotInitialized;
      }
      temp.CloseNodes();
      cool.CloseNodes();
      temp.FreeMetrics();
      cool.FreeMetrics();
      temp.Reset();
      cool.Reset();
      initialized := false;
      return Success;
    }

    /** linux_thermal_lib_discover_thermal_zones; given tells whether the out-argument is non-NULL. */
    method DiscoverZones(given: bool, dir: Option<seq<Entry>>, snap: Snapshot) returns (code: ReturnCode)
      requires Valid()
      modifies temp, temp.env
      ensures Valid()
      ensures code == if !initialized then NotInitialized else if !given then NullPointer else Success
      ensures code != Success ==> unchanged(temp) && unchanged(temp.env)
      ensures code == Success ==>
        temp.discovered && SameShape(old(temp.tab), temp.tab) && temp.counted == old(temp.counted)
      ensures code == Success && !old(temp.discovered) ==>
        temp.listing == (if dir.Some? then dir.value else []) && temp.history == [snap]
    {
      if !initialized {
        return NotInitialized;
      }
      if !given {
        return NullPointer;
      }
      temp.Discover(dir, snap, map[]);
      return Success;
    }

    /** linux_thermal_lib_discover_cooling_devices */
    method DiscoverDevices(given: bool, dir: Option<seq<Entry>>, snap: Snapshot, limits: Snapshot) returns (code: ReturnCode)
      requires Valid()
      modifies cool, cool.env
      ensures Valid()
      ensures code == if !initialized then NotInitialized else if !given then NullPointer else Success
      ensures code != Success ==> unchanged(cool) && unchanged(cool.env)
      ensures code == Success ==>
        cool.discovered && SameShape(old(cool.tab), cool.tab) && cool.counted == old(cool.counted)
      ensures code == Success && !old(cool.discovered) ==>
        cool.listing == (if dir.Some? then dir.value else []) && cool.history == [snap] && cool.limits == limits
    {
      if !initialized {
        return NotInitialized;
      }
      if !given {
        return NullPointer;
      }
      cool.Discover(dir, snap, limits);
      return Success;
    }

    /** linux_thermal_lib_thermal_zones_info */
    method ZonesInfo(given: bool, snap: Snapshot) returns (code: ReturnCode)
      requires Valid()
      modifies temp`tab, temp`history
      ensures Valid()
      ensures code == if !initialized then NotInitialized else if !given then NullPointer else Success
      ensures code != Success ==> temp.tab == old(temp.tab) && temp.history == old(temp.history)
      ensures code == Success ==> Relevelled(old(temp.tab), temp.tab)
      ensures code == Success ==> temp.history == if temp.discovered then old(temp.history) + [snap] else []
    {
      if !initialized {
        return NotInitialized;
      }
      if !given {
        return NullPointer;
      }
      temp.Refresh(snap);
      return Success;
    }

    /** linux_thermal_lib_cooling_devices_info */
    method DevicesInfo(given: bool, snap: Snapshot) returns (code: ReturnCode)
      requires Valid()
      modifies cool`tab, cool`history
      ensures Valid()
      ensures code == if !initialized then NotInitialized else if !given then NullPointer else Success
      ensures code != Success ==> cool.tab == old(cool.tab) && cool.history == old(cool.history)
      ensures code == Success ==> Relevelled(old(cool.tab), cool.tab)
      ensures code == Success ==> cool.history == if cool.discovered then old(cool.history) + [snap] else []
    {
      if !initialized {
        return NotInitialized;
      }
      if !given {
        return NullPointer;
      }
      cool.Refresh(snap);
      return Success;
    }
  }

  lemma AnEntryHasOneKind(e: Entry)
    ensures !(IsEntryOf(Temperature, e) && IsEntryOf(Cooling, e))
  {
    if IsEntryOf(Temperature, e) {
      assert e.name[0] == ZONE_PREFIX[0];
    }
  }
}
