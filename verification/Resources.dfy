/**
 The C allocator and file table, as far as one owner of resources uses them.

 Every block and every open file is tagged with the one place that owns it, so
 that "what is live" can be compared with "what is reachable" after any run.
 Failures of calloc and fopen are arbitrary, except as far as they are ruled out.
 */
module Resources {
  import opened Common

  /** The owning pointers: of a metrics view, d being a domain, and of the backend's advertisement. */
  datatype Slot =
    | MetricsSlot
    | BlockSlot(d: nat)
    | IdSlot(d: nat)
    | NameSlot(d: nat)
    | ArenaSlot(d: nat)
    | LevelSlot(d: nat)
    | LimitSlot(d: nat)
    | NodeSlot(d: nat)
    | CapabilitySlot
    | MetricListSlot

  /** Entry i of domain d's array of file handles. */
  datatype Place = Place(d: nat, i: nat)

  /** What the system never refuses: memory, and opening a node. */
  datatype Grants = Grants(memory: bool, files: bool)

  function Acquired<T>(table: map<nat, T>, tag: T, p: Option<nat>): map<nat, T> {
    if p.Some? then table[p.value := tag] else table
  }

  class Environment {
    const grants: Grants
    ghost var live: map<nat, Slot>
    ghost var open: map<nat, Place>
    var next: nat

    ghost predicate Valid()
      reads this
    {
      (forall p :: p in live ==> p < next) && (forall h :: h in open ==> h < next)
    }

    constructor (grants: Grants)
      ensures Valid() && live == map[] && open == map[] && this.grants == grants
    {
      this.grants := grants;
      live, open, next := map[], map[], 0;
    }

    method Calloc(ghost slot: Slot) returns (p: Option<nat>)
      requires Valid()
      modifies this
      ensures Valid() && open == old(open)
      ensures grants.memory ==> p.Some?
      ensures p.Some? ==> p.value !in old(live)
      ensures live == Acquired(old(live), slot, p)
    {
      var granted: bool := *;
      if grants.memory || granted {
        p := Some(next);
        live := live[next := slot];
        next := next + 1;
      } else {
        p := None;
      }
    }

    /** A block can be freed only while it is live: a second free is not expressible. */
    method Free(p: nat)
      requires Valid() && p in live
      modifies this`live
      ensures Valid() && live == old(live) - {p}
    {
      live := live - {p};
    }

    method Fopen(ghost place: Place) returns (h: Option<nat>)
      requires Valid()
      modifies this
      ensures Valid() && live == old(live)
      ensures grants.files ==> h.Some?
      ensures h.Some? ==> h.value !in old(open)
      ensures open == Acquired(old(open), place, h)
    {
      var granted: bool := *;
      if grants.files || granted {
        h := Some(next);
        open := open[next := place];
        next := next + 1;
      } else {
        h := None;
      }
    }

    /** A file can be closed only while it is open. */
    method Fclose(h: nat)
      requires Valid() && h in open
      modifies this`open
      ensures Valid() && open == old(open) - {h}
    {
      open := open - {h};
    }
  }
}
