/**
 What one metrics view of the thermal library - the thermal zones or the cooling
 devices - is meant to hold: which directory entries feed which domain, what was
 last read from each of them, and what a domain reports.
 */
module SensorSpec {
  import opened Common
  import opened Classification

  datatype Kind = Temperature | Cooling

  /** LINUX_THERMAL_MAX_NAMES */
  const MAX_NAMES: nat := 32

  const ZONE_PREFIX: string := "thermal_zone"
  const DEVICE_PREFIX: string := "cooling_device"

  function DomainCount(kind: Kind): nat {
    match kind
    case Temperature => TEMP_DOMAIN_COUNT
    case Cooling => COOL_DOMAIN_COUNT
  }

  function PrefixTable(kind: Kind): seq<Prefix> {
    match kind
    case Temperature => TEMP_PREFIXES
    case Cooling => COOL_PREFIXES
  }

  /**
   A directory entry under /sys/class/thermal: its name, the number that follows
   the name's prefix if one parses, and its type text if the type node is readable.
   */
  datatype Entry = Entry(name: string, number: Option<nat>, typ: Option<string>)

  predicate IsEntryOf(kind: Kind, e: Entry) {
    match kind
    case Temperature => StartsWith(e.name, ZONE_PREFIX)
    case Cooling => StartsWith(e.name, DEVICE_PREFIX)
  }

  /** e is counted for domain d by the first directory pass. */
  predicate CountsFor(kind: Kind, e: Entry, d: nat) {
    IsEntryOf(kind, e) && e.typ.Some? && Domain(e.typ.value, PrefixTable(kind)) == d
  }

  /** e is a candidate for a slot of domain d in the second pass, which also needs its number. */
  predicate Feeds(kind: Kind, e: Entry, d: nat) {
    CountsFor(kind, e, d) && e.number.Some?
  }

  function CountedFor(kind: Kind, listing: seq<Entry>, d: nat): nat {
    if listing == [] then 0
    else
      var n := |listing| - 1;
      CountedFor(kind, listing[..n], d) + if CountsFor(kind, listing[n], d) then 1 else 0
  }

  /** The entries feeding d, in listing order. */
  function Feeding(kind: Kind, listing: seq<Entry>, d: nat): (r: seq<Entry>)
    ensures forall e :: e in r ==> Feeds(kind, e, d)
  {
    if listing == [] then []
    else
      var n := |listing| - 1;
      var rest := Feeding(kind, listing[..n], d);
      if Feeds(kind, listing[n], d) then rest + [listing[n]] else rest
  }

  /** The entries that own the slots of a domain with len slots. */
  function Roster(kind: Kind, listing: seq<Entry>, d: nat, len: nat): (r: seq<Entry>)
    ensures |r| <= len
    ensures forall e :: e in r ==> e.number.Some? && e.typ.Some?
  {
    Take(Feeding(kind, listing, d), len)
  }

  lemma RosterSnoc(kind: Kind, listing: seq<Entry>, e: Entry, d: nat, len: nat)
    ensures var r := Roster(kind, listing, d, len);
            Roster(kind, listing + [e], d, len) == if Feeds(kind, e, d) && |r| < len then r + [e] else r
  {
    assert (listing + [e])[..|listing|] == listing;
  }

  /** Readings that succeeded in one pass over the value nodes, by entry number. */
  type Snapshot = map<nat, nat>

  /** Cooling states are stored in a byte, temperatures are kept whole. */
  function Stored(kind: Kind, raw: nat): nat {
    match kind
    case Temperature => raw
    case Cooling => raw % 256
  }

  /** The last successful reading, 0 if there was none. */
  function Latest(kind: Kind, history: seq<Snapshot>, number: nat): nat {
    if history == [] then 0
    else
      var n := |history| - 1;
      if number in history[n] then Stored(kind, history[n][number]) else Latest(kind, history[..n], number)
  }

  /** Pass i is the last one in which the number could be read. */
  ghost predicate LastGood(history: seq<Snapshot>, number: nat, i: int) {
    0 <= i < |history| && number in history[i] && forall j :: i < j < |history| ==> number !in history[j]
  }

  /** Failed reads in between do not matter: what counts is the last pass that succeeded, a cooling state by its low byte. */
  lemma {:induction false} LatestIsTheLastGood(history: seq<Snapshot>, number: nat, i: int)
    requires LastGood(history, number, i)
    ensures Latest(Temperature, history, number) == history[i][number]
    ensures Latest(Cooling, history, number) == history[i][number] % 256
  {
    var n := |history| - 1;
    if i < n {
      LatestIsTheLastGood(history[..n], number, i);
    }
  }

  /** A sensor that was never read counts as 0. */
  lemma {:induction false} NeverReadIsZero(kind: Kind, history: seq<Snapshot>, number: nat)
    requires forall j :: 0 <= j < |history| ==> number !in history[j]
    ensures Latest(kind, history, number) == 0
  {
    if history != [] {
      NeverReadIsZero(kind, history[..|history| - 1], number);
    }
  }

  /** A value other than 0 was read in some pass. */
  lemma {:induction false} SourceOfLatest(kind: Kind, history: seq<Snapshot>, number: nat) returns (i: int)
    ensures i == -1 || LastGood(history, number, i)
    ensures i == -1 ==> Latest(kind, history, number) == 0
  {
    if history == [] {
      i := -1;
    } else {
      var n := |history| - 1;
      if number in history[n] {
        i := n;
      } else {
        i := SourceOfLatest(kind, history[..n], number);
      }
    }
  }

  lemma {:induction false} LatestSnoc(kind: Kind, history: seq<Snapshot>, snap: Snapshot, number: nat)
    ensures Latest(kind, history + [snap], number)
         == if number in snap then Stored(kind, snap[number]) else Latest(kind, history, number)
  {
    assert (history + [snap])[..|history|] == history;
  }
}
