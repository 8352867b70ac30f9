/**
 The library-owned tables of one metrics view: the metrics structure, one block
 per domain with its parallel arrays, and the parallel array of open value nodes.
 */
module SensorTables {
  import opened Common
  import opened Resources
  import opened SensorSpec

  /** A calloc'ed array: its address and its cells. */
  datatype Cells<T> = Cells(ptr: nat, at: seq<T>)

  /** An open value node, and the number of the zone or device it belongs to. */
  datatype File = File(handle: nat, number: nat)

  /**
   struct LinuxThermalTempData / LinuxThermalCoolingData. level is temp[] or
   cur_state[]; limit is max_state[], which temperatures do not have. arena is
   the one block behind all name pointers, NULL when they are.
   */
  datatype Block = Block(
    ptr: nat, len: nat,
    id: Option<Cells<nat>>, name: Option<Cells<string>>, arena: Option<nat>,
    level: Option<Cells<nat>>, limit: Option<Cells<nat>>)

  /** The globals of one view: g_*_metrics with its domain pointers, and g_*_node. */
  datatype Tables = Tables(metrics: Option<nat>, domain: seq<Option<Block>>, node: seq<Option<Cells<Option<File>>>>)

  function Empty(kind: Kind): Tables {
    Tables(None, seq(DomainCount(kind), _ => None), seq(DomainCount(kind), _ => None))
  }

  predicate Present(t: Tables, d: nat) {
    d < |t.domain| && t.domain[d].Some?
  }

  function Addr<T>(c: Option<Cells<T>>): Option<nat> {
    if c.Some? then Some(c.value.ptr) else None
  }

  /** The address stored in an owning pointer. */
  function Held(t: Tables, slot: Slot): Option<nat> {
    match slot
    case MetricsSlot => t.metrics
    case BlockSlot(d) => if Present(t, d) then Some(t.domain[d].value.ptr) else None
    case IdSlot(d) => if Present(t, d) then Addr(t.domain[d].value.id) else None
    case NameSlot(d) => if Present(t, d) then Addr(t.domain[d].value.name) else None
    case ArenaSlot(d) => if Present(t, d) then t.domain[d].value.arena else None
    case LevelSlot(d) => if Present(t, d) then Addr(t.domain[d].value.level) else None
    case LimitSlot(d) => if Present(t, d) then Addr(t.domain[d].value.limit) else None
    case NodeSlot(d) => if d < |t.node| then Addr(t.node[d]) else None
    case CapabilitySlot => None
    case MetricListSlot => None
  }

  function HandleAt(t: Tables, d: nat, i: nat): Option<nat> {
    if d < |t.node| && t.node[d].Some? && i < |t.node[d].value.at| && t.node[d].value.at[i].Some?
    then Some(t.node[d].value.at[i].value.handle) else None
  }

  /** Live blocks are exactly the ones some owning pointer holds, each held once. */
  ghost predicate Balanced(live: map<nat, Slot>, t: Tables) {
    && (forall s: Slot :: Held(t, s).Some? ==> Held(t, s).value in live && live[Held(t, s).value] == s)
    && (forall p :: p in live ==> Held(t, live[p]) == Some(p))
  }

  /** Open files are exactly the non-NULL entries of the node arrays, each stored once. */
  ghost predicate HandlesBalanced(open: map<nat, Place>, t: Tables) {
    && (forall d: nat, i: nat :: HandleAt(t, d, i).Some? ==>
          HandleAt(t, d, i).value in open && open[HandleAt(t, d, i).value] == Place(d, i))
    && (forall h :: h in open ==> HandleAt(t, open[h].d, open[h].i) == Some(h))
  }

  ghost predicate BlockOk(kind: Kind, b: Block) {
    && 1 <= b.len <= MAX_NAMES
    && (b.id.Some? ==> |b.id.value.at| == b.len)
    && (b.name.Some? ==> |b.name.value.at| == b.len)
    && (b.level.Some? ==> |b.level.value.at| == b.len)
    && (b.limit.Some? ==> |b.limit.value.at| == b.len && kind == Cooling)
    && (b.arena.Some? ==> b.name.Some?)
  }

  ghost predicate WellFormed(kind: Kind, t: Tables) {
    && |t.domain| == DomainCount(kind) == |t.node|
    && (forall d :: 0 <= d < |t.domain| && t.domain[d].Some? ==> t.metrics.Some? && BlockOk(kind, t.domain[d].value))
    && (forall d :: 0 <= d < |t.node| && t.node[d].Some? ==>
          t.domain[d].Some? && |t.node[d].value.at| == t.domain[d].value.len)
  }

  /** Every buffer of the block, and its node array, was granted. */
  predicate Complete(kind: Kind, b: Block, node: Option<Cells<Option<File>>>) {
    && b.id.Some? && b.name.Some? && b.arena.Some? && b.level.Some? && node.Some?
    && (kind == Cooling ==> b.limit.Some?)
  }

  // ----- Installing a pointer

  /** Whether the slot exists in t: its enclosing structure has been allocated. */
  predicate Exists(kind: Kind, t: Tables, slot: Slot) {
    match slot
    case MetricsSlot => true
    case BlockSlot(d) => t.metrics.Some? && d < |t.domain|
    case NodeSlot(d) => Present(t, d)
    case LimitSlot(d) => Present(t, d) && kind == Cooling
    case IdSlot(d) => Present(t, d)
    case NameSlot(d) => Present(t, d)
    case ArenaSlot(d) => Present(t, d)
    case LevelSlot(d) => Present(t, d)
    case CapabilitySlot => false
    case MetricListSlot => false
  }

  function Fresh<T>(p: Option<nat>, len: nat, zero: T): Option<Cells<T>> {
    if p.Some? then Some(Cells(p.value, seq(len, _ => zero))) else None
  }

  function WithBlock(t: Tables, d: nat, b: Option<Block>): Tables
    requires d < |t.domain|
  {
    t.(domain := t.domain[d := b])
  }

  /** t after the zero-filled block at p - or NULL - is stored in the slot. */
  function Install(kind: Kind, t: Tables, slot: Slot, p: Option<nat>): Tables
    requires Exists(kind, t, slot) && |t.domain| == |t.node|
  {
    match slot
    case MetricsSlot => t.(metrics := p)
    case BlockSlot(d) => WithBlock(t, d, if p.Some? then Some(Block(p.value, 0, None, None, None, None, None)) else None)
    case IdSlot(d) => var b := t.domain[d].value; WithBlock(t, d, Some(b.(id := Fresh(p, b.len, 0))))
    case NameSlot(d) => var b := t.domain[d].value; WithBlock(t, d, Some(b.(name := Fresh(p, b.len, ""))))
    case ArenaSlot(d) => var b := t.domain[d].value; WithBlock(t, d, Some(b.(arena := p)))
    case LevelSlot(d) => var b := t.domain[d].value; WithBlock(t, d, Some(b.(level := Fresh(p, b.len, 0))))
    case LimitSlot(d) => var b := t.domain[d].value; WithBlock(t, d, Some(b.(limit := Fresh(p, b.len, 0))))
    case NodeSlot(d) => t.(node := t.node[d := Fresh(p, t.domain[d].value.len, None)])
  }

  /** Whether clearing or setting the slot loses no other owning pointer or handle. */
  predicate Childless(t: Tables, slot: Slot) {
    match slot
    case BlockSlot(d) =>
      Present(t, d) ==>
        var b := t.domain[d].value;
        b.id.None? && b.name.None? && b.arena.None? && b.level.None? && b.limit.None?
    case NodeSlot(d) =>
      d < |t.node| && t.node[d].Some? ==> forall i :: 0 <= i < |t.node[d].value.at| ==> t.node[d].value.at[i].None?
    case _ => true
  }

  lemma InstallHolds(kind: Kind, t: Tables, slot: Slot, p: Option<nat>, other: Slot)
    requires Exists(kind, t, slot) && |t.domain| == |t.node| && Childless(t, slot)
    ensures Held(Install(kind, t, slot, p), other) == if other == slot then p else Held(t, other)
  {
  }

  lemma InstallKeepsHandles(kind: Kind, t: Tables, slot: Slot, p: Option<nat>, d: nat, i: nat)
    requires Exists(kind, t, slot) && |t.domain| == |t.node| && Childless(t, slot)
    ensures HandleAt(Install(kind, t, slot, p), d, i) == HandleAt(t, d, i)
  {
  }

  lemma AcquireKeepsBalance(kind: Kind, t: Tables, slot: Slot, p: Option<nat>, live: map<nat, Slot>, open: map<nat, Place>)
    requires Exists(kind, t, slot) && |t.domain| == |t.node| && Childless(t, slot)
    requires Balanced(live, t) && HandlesBalanced(open, t)
    requires Held(t, slot).None? && (p.Some? ==> p.value !in live)
    ensures Balanced(Acquired(live, slot, p), Install(kind, t, slot, p))
    ensures HandlesBalanced(open, Install(kind, t, slot, p))
  {
    forall s { InstallHolds(kind, t, slot, p, s); }
    forall d: nat, i: nat { InstallKeepsHandles(kind, t, slot, p, d, i); }
  }

  lemma ReleaseKeepsBalance(kind: Kind, t: Tables, slot: Slot, live: map<nat, Slot>, open: map<nat, Place>)
    requires Exists(kind, t, slot) && |t.domain| == |t.node| && Childless(t, slot)
    requires Balanced(live, t) && HandlesBalanced(open, t)
    requires Held(t, slot).Some?
    ensures Held(t, slot).value in live
    ensures Balanced(live - {Held(t, slot).value}, Install(kind, t, slot, None))
    ensures HandlesBalanced(open, Install(kind, t, slot, None))
  {
    forall s { InstallHolds(kind, t, slot, None, s); }
    forall d: nat, i: nat { InstallKeepsHandles(kind, t, slot, None, d, i); }
  }
}
