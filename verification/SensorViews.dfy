/**
 One metrics view as the library maintains it: allocation, the fill pass, the
 refresh pass and the release of everything it owns.
 */
module SensorViews {
  import opened Common
  import opened Classification
  import opened Resources
  import opened SensorSpec
  import opened SensorTables

  // ----- What the tables say about the directory

  function Reading(kind: Kind, snap: Snapshot, number: nat): nat {
    if number in snap then Stored(kind, snap[number]) else 0
  }

  /** Slots 0..|r| belong to the entries r, slot by slot in every array; the rest is zero and NULL. */
  ghost predicate Holds(kind: Kind, b: Block, node: Option<Cells<Option<File>>>, r: seq<Entry>,
                        history: seq<Snapshot>, limits: Snapshot)
    requires BlockOk(kind, b) && (node.Some? ==> |node.value.at| == b.len)
    requires forall e :: e in r ==> e.number.Some? && e.typ.Some?
  {
    && |r| <= b.len
    && (b.id.Some? ==> forall i :: 0 <= i < b.len ==>
          b.id.value.at[i] == if i < |r| then r[i].number.value % 256 else 0)
    && (b.name.Some? && b.arena.Some? ==> forall i :: 0 <= i < b.len ==>
          b.name.value.at[i] == if i < |r| then r[i].typ.value else "")
    && (node.Some? ==> forall i :: 0 <= i < b.len ==>
          (node.value.at[i].Some? ==> i < |r| && node.value.at[i].value.number == r[i].number.value))
    && (b.level.Some? ==> forall i :: 0 <= i < b.len ==>
          b.level.value.at[i] == if node.Some? && node.value.at[i].Some?
                                 then Latest(kind, history, node.value.at[i].value.number) else 0)
    && (b.limit.Some? ==> forall i :: 0 <= i < b.len ==>
          b.limit.value.at[i] == if i < |r| then Reading(kind, limits, r[i].number.value) else 0)
  }

  /** Domain d holds the first entries of the listing that feed it; what was never refused is there. */
  ghost predicate Faithful(kind: Kind, d: nat, b: Block, node: Option<Cells<Option<File>>>, listing: seq<Entry>,
                           history: seq<Snapshot>, limits: Snapshot, grants: Grants)
    requires BlockOk(kind, b) && (node.Some? ==> |node.value.at| == b.len)
  {
    var r := Roster(kind, listing, d, b.len);
    && Holds(kind, b, node, r, history, limits)
    && (grants.memory ==> Complete(kind, b, node))
    && (grants.memory && grants.files ==> forall i :: 0 <= i < |r| ==> node.value.at[i].Some?)
  }

  ghost predicate Populated(kind: Kind, t: Tables, listing: seq<Entry>, history: seq<Snapshot>, limits: Snapshot, grants: Grants)
    requires WellFormed(kind, t)
  {
    forall d :: 0 <= d < |t.domain| && t.domain[d].Some? ==>
      Faithful(kind, d, t.domain[d].value, t.node[d], listing, history, limits, grants)
  }

  // ----- One step of the fill pass, on values

  function Set<T>(c: Option<Cells<T>>, i: nat, x: T): (r: Option<Cells<T>>)
    requires c.Some? ==> i < |c.value.at|
    ensures Addr(r) == Addr(c) && (c.Some? ==> |r.value.at| == |c.value.at|)
  {
    if c.Some? then Some(c.value.(at := c.value.at[i := x])) else None
  }

  /** Block b after entry e was stored in slot i and its node read, if it could be opened. */
  function WithEntry(kind: Kind, b: Block, i: nat, e: Entry, readable: bool, snap: Snapshot, limits: Snapshot): (c: Block)
    requires i < b.len && BlockOk(kind, b) && e.number.Some? && e.typ.Some?
    ensures BlockOk(kind, c) && c.len == b.len
  {
    var n := e.number.value;
    b.(id := Set(b.id, i, n % 256),
       name := if b.arena.Some? then Set(b.name, i, e.typ.value) else b.name,
       level := if readable && n in snap then Set(b.level, i, Stored(kind, snap[n])) else b.level,
       limit := if n in limits then Set(b.limit, i, Stored(kind, limits[n])) else b.limit)
  }

  lemma EntryExtendsRoster(kind: Kind, b: Block, node: Option<Cells<Option<File>>>, r: seq<Entry>, e: Entry,
                           file: Option<File>, snap: Snapshot, limits: Snapshot)
    requires BlockOk(kind, b) && (node.Some? ==> |node.value.at| == b.len)
    requires forall x :: x in r ==> x.number.Some? && x.typ.Some?
    requires e.number.Some? && e.typ.Some? && |r| < b.len
    requires Holds(kind, b, node, r, [snap], limits)
    requires file.Some? ==> node.Some? && file.value.number == e.number.value
    ensures Holds(kind, WithEntry(kind, b, |r|, e, file.Some?, snap, limits), Set(node, |r|, file), r + [e], [snap], limits)
  {
    LatestSnoc(kind, [], snap, e.number.value);
    assert [] + [snap] == [snap];
  }

  // ----- The counting pass, on values

  function LenOf(b: Option<Block>): nat {
    if b.Some? then b.value.len else 0
  }

  /** Domain d after the counting pass over the listing; a refused block loses counts, it never adds any. */
  ghost predicate CountedAt(kind: Kind, d: nat, b: Option<Block>, listing: seq<Entry>, reliable: bool) {
    var n := Min(MAX_NAMES, CountedFor(kind, listing, d));
    LenOf(b) <= n && (b.Some? ==> n > 0) && (reliable ==> LenOf(b) == n && (b.Some? <==> n > 0))
  }

  ghost predicate Counted(kind: Kind, t: Tables, listing: seq<Entry>, reliable: bool) {
    forall d :: 0 <= d < |t.domain| ==> CountedAt(kind, d, t.domain[d], listing, reliable)
  }

  lemma {:induction false} CountedForSnoc(kind: Kind, listing: seq<Entry>, e: Entry, d: nat)
    ensures CountedFor(kind, listing + [e], d) == CountedFor(kind, listing, d) + if CountsFor(kind, e, d) then 1 else 0
  {
    assert (listing + [e])[..|listing|] == listing;
  }

  /** An entry that counts for no domain of this view leaves the counts as they are. */
  lemma NotCounted(kind: Kind, t: Tables, listing: seq<Entry>, e: Entry, reliable: bool)
    requires Counted(kind, t, listing, reliable)
    requires forall d: nat :: !CountsFor(kind, e, d)
    ensures Counted(kind, t, listing + [e], reliable)
  {
    forall d | 0 <= d < |t.domain|
      ensures CountedAt(kind, d, t.domain[d], listing + [e], reliable)
    {
      CountedForSnoc(kind, listing, e, d);
    }
  }

  /** An entry that counts for domain idx extends the count of that domain. */
  lemma OneMoreCounted(kind: Kind, t: Tables, u: Tables, listing: seq<Entry>, e: Entry, idx: nat, reliable: bool)
    requires Counted(kind, t, listing, reliable) && idx < |t.domain| == |u.domain|
    requires forall d :: 0 <= d < |t.domain| && d != idx ==> u.domain[d] == t.domain[d]
    requires forall d: nat :: CountsFor(kind, e, d) <==> d == idx
    requires u.domain[idx].Some? ==> u.domain[idx].value.len == Min(MAX_NAMES, LenOf(t.domain[idx]) + 1)
    requires u.domain[idx].None? ==> !reliable && t.domain[idx].None?
    ensures Counted(kind, u, listing + [e], reliable)
  {
    forall d | 0 <= d < |u.domain|
      ensures CountedAt(kind, d, u.domain[d], listing + [e], reliable)
    {
      assert CountedAt(kind, d, t.domain[d], listing, reliable);
      CountedForSnoc(kind, listing, e, d);
    }
  }

  // ----- The refresh pass, on values

  /** The levels after one pass in which the nodes in snap could be read. */
  function Refreshed(kind: Kind, level: seq<nat>, node: seq<Option<File>>, snap: Snapshot): (r: seq<nat>)
    requires |level| == |node|
    ensures |r| == |level|
    ensures forall i :: 0 <= i < |r| ==>
      r[i] == if node[i].Some? && node[i].value.number in snap then Stored(kind, snap[node[i].value.number]) else level[i]
  {
    seq(|level|, i requires 0 <= i < |level| =>
      if node[i].Some? && node[i].value.number in snap then Stored(kind, snap[node[i].value.number]) else level[i])
  }

  lemma RefreshExtendsHistory(kind: Kind, b: Block, node: Option<Cells<Option<File>>>, r: seq<Entry>,
                              history: seq<Snapshot>, limits: Snapshot, snap: Snapshot, after: Block)
    requires BlockOk(kind, b) && (node.Some? ==> |node.value.at| == b.len)
    requires forall x :: x in r ==> x.number.Some? && x.typ.Some?
    requires Holds(kind, b, node, r, history, limits)
    requires after == if b.level.Some? && node.Some?
                      then b.(level := Some(b.level.value.(at := Refreshed(kind, b.level.value.at, node.value.at, snap))))
                      else b
    ensures BlockOk(kind, after) && Holds(kind, after, node, r, history + [snap], limits)
  {
    if b.level.Some? && node.Some? {
      forall i | 0 <= i < b.len && node.value.at[i].Some?
        ensures after.level.value.at[i] == Latest(kind, history + [snap], node.value.at[i].value.number)
      {
        LatestSnoc(kind, history, snap, node.value.at[i].value.number);
      }
    }
  }

  /** No buffer of domain d has been allocated yet. */
  ghost predicate BareAt(t: Tables, d: nat)
    requires d < |t.domain| == |t.node|
  {
    t.node[d].None? && (t.domain[d].Some? ==>
      var b := t.domain[d].value;
      b.id.None? && b.name.None? && b.arena.None? && b.level.None? && b.limit.None?)
  }

  ghost predicate Bare(t: Tables)
    requires |t.domain| == |t.node|
  {
    forall d :: 0 <= d < |t.domain| ==> BareAt(t, d)
  }

  /** t with another block and node array in domain d. */
  function WithDomain(t: Tables, d: nat, b: Option<Block>, n: Option<Cells<Option<File>>>): Tables
    requires d < |t.domain| == |t.node|
  {
    t.(domain := t.domain[d := b], node := t.node[d := n])
  }

  lemma WithDomainIsWellFormed(kind: Kind, t: Tables, d: nat, b: Option<Block>, n: Option<Cells<Option<File>>>)
    requires WellFormed(kind, t) && d < |t.domain|
    requires b.Some? ==> t.metrics.Some? && BlockOk(kind, b.value)
    requires n.Some? ==> b.Some? && |n.value.at| == b.value.len
    ensures WellFormed(kind, WithDomain(t, d, b, n))
  {
  }

  lemma LengthIsNotOwned(t: Tables, d: nat, live: map<nat, Slot>, open: map<nat, Place>)
    requires Balanced(live, t) && HandlesBalanced(open, t) && Present(t, d)
    ensures var b := t.domain[d].value;
            var u := WithBlock(t, d, Some(b.(len := b.len + 1)));
            Balanced(live, u) && HandlesBalanced(open, u)
  {
    var b := t.domain[d].value;
    var u := WithBlock(t, d, Some(b.(len := b.len + 1)));
    assert forall s: Slot :: Held(u, s) == Held(t, s);
    assert forall e: nat, i: nat :: HandleAt(u, e, i) == HandleAt(t, e, i);
  }

  /** The same blocks with the same lengths. */
  ghost predicate SameShape(t: Tables, u: Tables) {
    && t.metrics == u.metrics && |t.domain| == |u.domain|
    && forall d :: 0 <= d < |t.domain| ==>
         t.domain[d].Some? == u.domain[d].Some? && LenOf(t.domain[d]) == LenOf(u.domain[d])
  }

  /** c is b with other values in its level array. */
  predicate RelevelledAt(b: Option<Block>, c: Option<Block>) {
    b.Some? == c.Some?
    && (b.Some? ==> c.value == b.value.(level := c.value.level) && c.value.level.Some? == b.value.level.Some?)
  }

  /** u differs from t at most in the values of the level arrays. */
  ghost predicate Relevelled(t: Tables, u: Tables) {
    && t.metrics == u.metrics && t.node == u.node && |t.domain| == |u.domain|
    && forall d :: 0 <= d < |t.domain| ==> RelevelledAt(t.domain[d], u.domain[d])
  }

  lemma RelevelledKeepsCounts(kind: Kind, t: Tables, u: Tables, listing: seq<Entry>, reliable: bool)
    requires Relevelled(t, u) && Counted(kind, t, listing, reliable)
    ensures Counted(kind, u, listing, reliable)
  {
    assert SameShape(t, u) by {
      forall d | 0 <= d < |t.domain|
        ensures t.domain[d].Some? == u.domain[d].Some? && LenOf(t.domain[d]) == LenOf(u.domain[d])
      {
        assert RelevelledAt(t.domain[d], u.domain[d]);
      }
    }
    SameShapeSameCounts(kind, t, u, listing, reliable);
  }

  lemma StoringAHandle(t: Tables, u: Tables, d: nat, i: nat, file: Option<File>,
                       open: map<nat, Place>, live: map<nat, Slot>)
    requires Present(t, d) && |t.domain| == |t.node| == |u.domain| == |u.node|
    requires t.node[d].Some? ==> i < |t.node[d].value.at| && t.node[d].value.at[i].None?
    requires file.Some? ==> t.node[d].Some? && file.value.handle !in open
    requires forall s: Slot :: Held(u, s) == Held(t, s)
    requires u.node == t.node[d := Set(t.node[d], i, file)]
    requires Balanced(live, t) && HandlesBalanced(open, t)
    ensures Balanced(live, u)
    ensures HandlesBalanced(Acquired(open, Place(d, i), if file.Some? then Some(file.value.handle) else None), u)
  {
    var h := if file.Some? then Some(file.value.handle) else None;
    forall e: nat, j: nat
      ensures HandleAt(u, e, j) == if e == d && j == i && h.Some? then h else HandleAt(t, e, j)
    {
      HandleStored(t, u, d, i, file, e, j);
    }
    OneMoreHandle(t, u, Place(d, i), h, open);
  }

  lemma HandleStored(t: Tables, u: Tables, d: nat, i: nat, file: Option<File>, e: nat, j: nat)
    requires d < |t.node| == |u.node| && (t.node[d].Some? ==> i < |t.node[d].value.at| && t.node[d].value.at[i].None?)
    requires file.Some? ==> t.node[d].Some?
    requires u.node == t.node[d := Set(t.node[d], i, file)]
    ensures HandleAt(u, e, j) == if e == d && j == i && file.Some? then Some(file.value.handle) else HandleAt(t, e, j)
  {
    if e == d && t.node[d].Some? {
      assert u.node[d].value.at == t.node[d].value.at[i := file];
    }
  }

  /** Handles that change at one place, from NULL to a new one, stay balanced. */
  lemma OneMoreHandle(t: Tables, u: Tables, place: Place, h: Option<nat>, open: map<nat, Place>)
    requires HandlesBalanced(open, t) && (h.Some? ==> h.value !in open)
    requires forall e: nat, j: nat :: HandleAt(u, e, j) == if Place(e, j) == place && h.Some? then h else HandleAt(t, e, j)
    requires HandleAt(t, place.d, place.i).None?
    ensures HandlesBalanced(Acquired(open, place, h), u)
  {
  }

  /** The tables after entry e took slot i of domain d. */
  function Placed(kind: Kind, t: Tables, d: nat, i: nat, e: Entry, file: Option<File>, snap: Snapshot, limits: Snapshot): Tables
    requires WellFormed(kind, t) && Present(t, d) && i < t.domain[d].value.len && e.number.Some? && e.typ.Some?
  {
    WithDomain(t, d, Some(WithEntry(kind, t.domain[d].value, i, e, file.Some?, snap, limits)), Set(t.node[d], i, file))
  }

  /** Tables that differ only in the cells of domain d hold the same addresses. */
  lemma SameAddresses(t: Tables, u: Tables, d: nat, s: Slot)
    requires Present(t, d) && Present(u, d) && |t.domain| == |t.node| && t.metrics == u.metrics
    requires u.domain == t.domain[d := u.domain[d]] && |u.node| == |t.node| && u.node == t.node[d := u.node[d]]
    requires Addr(t.node[d]) == Addr(u.node[d])
    requires var b, c := t.domain[d].value, u.domain[d].value;
             && b.ptr == c.ptr && b.arena == c.arena && Addr(b.id) == Addr(c.id) && Addr(b.name) == Addr(c.name)
             && Addr(b.level) == Addr(c.level) && Addr(b.limit) == Addr(c.limit)
    ensures Held(u, s) == Held(t, s)
  {
    match s {
      case MetricsSlot =>
      case BlockSlot(e) => assert e < |t.domain| && e != d ==> u.domain[e] == t.domain[e];
      case NodeSlot(e) => assert e < |t.node| && e != d ==> u.node[e] == t.node[e];
      case IdSlot(e) => assert e < |t.domain| && e != d ==> u.domain[e] == t.domain[e];
      case NameSlot(e) => assert e < |t.domain| && e != d ==> u.domain[e] == t.domain[e];
      case ArenaSlot(e) => assert e < |t.domain| && e != d ==> u.domain[e] == t.domain[e];
      case LevelSlot(e) => assert e < |t.domain| && e != d ==> u.domain[e] == t.domain[e];
      case LimitSlot(e) => assert e < |t.domain| && e != d ==> u.domain[e] == t.domain[e];
      case CapabilitySlot =>
      case MetricListSlot =>
    }
  }

  lemma EntryOwnsNothing(kind: Kind, t: Tables, d: nat, i: nat, e: Entry, file: Option<File>, snap: Snapshot, limits: Snapshot)
    requires WellFormed(kind, t) && Present(t, d) && i < t.domain[d].value.len && e.number.Some? && e.typ.Some?
    ensures var u := Placed(kind, t, d, i, e, file, snap, limits);
            WellFormed(kind, u) && SameShape(t, u) && forall s: Slot :: Held(u, s) == Held(t, s)
  {
    var b := WithEntry(kind, t.domain[d].value, i, e, file.Some?, snap, limits);
    WithDomainIsWellFormed(kind, t, d, Some(b), Set(t.node[d], i, file));
    var u := Placed(kind, t, d, i, e, file, snap, limits);
    forall s: Slot ensures Held(u, s) == Held(t, s) {
      SameAddresses(t, u, d, s);
    }
  }

  /** The fill pass after the entries before: filled counts the slots taken in each domain. */
  ghost predicate Progress(kind: Kind, t: Tables, filled: seq<nat>, before: seq<Entry>,
                           snap: Snapshot, limits: Snapshot, grants: Grants)
    requires WellFormed(kind, t)
  {
    && Populated(kind, t, before, [snap], limits, grants)
    && |filled| == |t.domain|
    && (forall d :: 0 <= d < |t.domain| && t.domain[d].Some? ==>
          filled[d] == |Roster(kind, before, d, t.domain[d].value.len)|)
  }

  /** Before the first entry. */
  lemma NothingYet(kind: Kind, t: Tables, filled: seq<nat>, snap: Snapshot, limits: Snapshot, grants: Grants)
    requires WellFormed(kind, t) && Populated(kind, t, [], [], map[], grants)
    requires |filled| == |t.domain| && forall d :: 0 <= d < |filled| ==> filled[d] == 0
    ensures Progress(kind, t, filled, [], snap, limits, grants)
  {
  }

  lemma SkipMakesProgress(kind: Kind, t: Tables, filled: seq<nat>, before: seq<Entry>, e: Entry,
                          snap: Snapshot, limits: Snapshot, grants: Grants)
    requires WellFormed(kind, t) && Progress(kind, t, filled, before, snap, limits, grants)
    requires forall d :: 0 <= d < |t.domain| && t.domain[d].Some? && Feeds(kind, e, d) ==> filled[d] >= t.domain[d].value.len
    ensures Progress(kind, t, filled, before + [e], snap, limits, grants)
  {
    forall d | 0 <= d < |t.domain| && t.domain[d].Some?
      ensures Roster(kind, before + [e], d, t.domain[d].value.len) == Roster(kind, before, d, t.domain[d].value.len)
    {
      RosterSnoc(kind, before, e, d, t.domain[d].value.len);
    }
  }

  lemma FillIsFaithful(kind: Kind, d: nat, b: Block, node: Option<Cells<Option<File>>>, before: seq<Entry>, e: Entry,
                       file: Option<File>, snap: Snapshot, limits: Snapshot, grants: Grants)
    requires BlockOk(kind, b) && (node.Some? ==> |node.value.at| == b.len)
    requires Faithful(kind, d, b, node, before, [snap], limits, grants)
    requires Feeds(kind, e, d) && |Roster(kind, before, d, b.len)| < b.len
    requires file.Some? ==> node.Some? && file.value.number == e.number.value
    requires grants.memory && grants.files ==> file.Some?
    ensures var i := |Roster(kind, before, d, b.len)|;
            var c := WithEntry(kind, b, i, e, file.Some?, snap, limits);
            Faithful(kind, d, c, Set(node, i, file), before + [e], [snap], limits, grants)
            && |Roster(kind, before + [e], d, b.len)| == i + 1
  {
    RosterSnoc(kind, before, e, d, b.len);
    var r := Roster(kind, before, d, b.len);
    var c := WithEntry(kind, b, |r|, e, file.Some?, snap, limits);
    EntryExtendsRoster(kind, b, node, r, e, file, snap, limits);
    assert Complete(kind, b, node) ==> Complete(kind, c, Set(node, |r|, file));
  }

  /** A slot of domain idx took the entry; the other domains have nothing to do with it. */
  lemma FillMakesProgress(kind: Kind, t: Tables, filled: seq<nat>, before: seq<Entry>, e: Entry, idx: nat,
                          file: Option<File>, snap: Snapshot, limits: Snapshot, grants: Grants, u: Tables)
    requires WellFormed(kind, t) && Progress(kind, t, filled, before, snap, limits, grants)
    requires Present(t, idx) && Feeds(kind, e, idx) && filled[idx] < t.domain[idx].value.len
    requires file.Some? ==> t.node[idx].Some? && file.value.number == e.number.value
    requires grants.memory && grants.files ==> file.Some?
    requires WellFormed(kind, u) && u == Placed(kind, t, idx, filled[idx], e, file, snap, limits)
    ensures Progress(kind, u, filled[idx := filled[idx] + 1], before + [e], snap, limits, grants)
  {
    forall d | 0 <= d < |u.domain| && u.domain[d].Some?
      ensures Faithful(kind, d, u.domain[d].value, u.node[d], before + [e], [snap], limits, grants)
      ensures filled[idx := filled[idx] + 1][d] == |Roster(kind, before + [e], d, u.domain[d].value.len)|
    {
      assert Faithful(kind, d, t.domain[d].value, t.node[d], before, [snap], limits, grants);
      if d == idx {
        FillIsFaithful(kind, d, t.domain[d].value, t.node[d], before, e, file, snap, limits, grants);
      } else {
        RosterSnoc(kind, before, e, d, t.domain[d].value.len);
      }
    }
  }

  lemma LevelsOwnNothing(kind: Kind, t: Tables, u: Tables, d: nat, live: map<nat, Slot>, open: map<nat, Place>)
    requires WellFormed(kind, t) && Balanced(live, t) && HandlesBalanced(open, t) && Present(t, d)
    requires u.metrics == t.metrics && u.node == t.node && |u.domain| == |t.domain|
    requires forall e :: 0 <= e < |t.domain| && e != d ==> u.domain[e] == t.domain[e]
    requires u.domain[d].Some? && BlockOk(kind, u.domain[d].value)
    requires u.domain[d].value == t.domain[d].value.(level := u.domain[d].value.level)
    requires Addr(u.domain[d].value.level) == Addr(t.domain[d].value.level)
    ensures WellFormed(kind, u) && Balanced(live, u) && HandlesBalanced(open, u)
  {
    assert u.node == t.node[d := u.node[d]];
    forall s: Slot { SameAddresses(t, u, d, s); }
    assert forall e: nat, i: nat :: HandleAt(u, e, i) == HandleAt(t, e, i);
  }

  lemma ClosingAHandle(t: Tables, d: nat, i: nat, open: map<nat, Place>)
    requires Present(t, d) && |t.domain| == |t.node| && t.node[d].Some? && i < |t.node[d].value.at|
    requires t.node[d].value.at[i].Some? && HandlesBalanced(open, t)
    ensures var u := WithDomain(t, d, t.domain[d], Set(t.node[d], i, None));
            var h := t.node[d].value.at[i].value.handle;
            h in open && HandlesBalanced(open - {h}, u)
  {
    var u := WithDomain(t, d, t.domain[d], Set(t.node[d], i, None));
    assert HandleAt(t, d, i).Some?;
    forall e: nat, j: nat
      ensures HandleAt(u, e, j) == if e == d && j == i then None else HandleAt(t, e, j)
    {
    }
  }

  lemma HandlesOwnNothing(kind: Kind, t: Tables, d: nat, i: nat, live: map<nat, Slot>)
    requires WellFormed(kind, t) && Present(t, d) && t.node[d].Some? && i < |t.node[d].value.at| && Balanced(live, t)
    ensures var u := WithDomain(t, d, t.domain[d], Set(t.node[d], i, None));
            WellFormed(kind, u) && Balanced(live, u)
  {
    var u := WithDomain(t, d, t.domain[d], Set(t.node[d], i, None));
    WithDomainIsWellFormed(kind, t, d, t.domain[d], Set(t.node[d], i, None));
    forall s: Slot { SameAddresses(t, u, d, s); }
  }

  lemma NothingHeldNothingLive(kind: Kind, live: map<nat, Slot>, open: map<nat, Place>)
    requires Balanced(live, Empty(kind)) && HandlesBalanced(open, Empty(kind))
    ensures live == map[] && open == map[]
  {
    assert forall p :: p in live ==> Held(Empty(kind), live[p]).None?;
    assert forall h :: h in open ==> HandleAt(Empty(kind), open[h].d, open[h].i).None?;
  }

  /** A block as calloc returns it, if it was granted. */
  ghost predicate IsFresh<T>(c: Option<Cells<T>>, len: nat, zero: T) {
    c.Some? ==> |c.value.at| == len && AllCells(c, zero)
  }

  ghost predicate AllCells<T>(c: Option<Cells<T>>, zero: T) {
    c.Some? ==> forall i :: 0 <= i < |c.value.at| ==> c.value.at[i] == zero
  }

  /** Whatever buffers there are hold nothing yet. */
  ghost predicate Blank(b: Block, node: Option<Cells<Option<File>>>) {
    && AllCells(b.id, 0) && AllCells(b.name, "") && AllCells(b.level, 0) && AllCells(b.limit, 0)
    && AllCells(node, None)
  }

  lemma BlankIsFaithful(kind: Kind, d: nat, b: Block, node: Option<Cells<Option<File>>>, grants: Grants)
    requires BlockOk(kind, b) && (node.Some? ==> |node.value.at| == b.len)
    requires Blank(b, node) && (grants.memory ==> Complete(kind, b, node))
    ensures Faithful(kind, d, b, node, [], [], map[], grants)
  {
  }

  lemma SameShapeSameCounts(kind: Kind, t: Tables, u: Tables, listing: seq<Entry>, reliable: bool)
    requires SameShape(t, u) && Counted(kind, t, listing, reliable)
    ensures Counted(kind, u, listing, reliable)
  {
    forall d | 0 <= d < |u.domain|
      ensures CountedAt(kind, d, u.domain[d], listing, reliable)
    {
      assert CountedAt(kind, d, t.domain[d], listing, reliable);
    }
  }

  /** The file-scope state of one view, and a ghost record of what it was filled from. */
  class SensorView {
    const kind: Kind
    const env: Environment
    var tab: Tables
    var discovered: bool
    ghost var counted: seq<Entry>      // the directory the blocks were sized from
    ghost var listing: seq<Entry>      // the directory the slots were filled from
    ghost var history: seq<Snapshot>   // the reading passes since then, oldest first
    ghost var limits: Snapshot         // the max_state readings of the fill pass

    /** Holds at every point: what is owned is what is live, and what is open is what is stored. */
    ghost predicate Owned()
      reads this, env
    {
      env.Valid() && WellFormed(kind, tab) && Balanced(env.live, tab) && HandlesBalanced(env.open, tab)
    }

    ghost predicate Valid()
      reads this, env
    {
      && Owned()
      && Counted(kind, tab, counted, env.grants.memory)
      && Populated(kind, tab, listing, history, limits, env.grants)
      && (!discovered ==> listing == [] && history == [] && limits == map[])
    }

    /** The state before init and after cleanup. */
    ghost predicate Clean()
      reads this, env
    {
      && env.Valid() && env.live == map[] && env.open == map[]
      && tab == Empty(kind) && !discovered && counted == [] && listing == [] && history == [] && limits == map[]
    }

    constructor (kind: Kind, env: Environment)
      requires env.Valid() && env.live == map[] && env.open == map[]
      ensures this.kind == kind && this.env == env && Clean()
    {
      this.kind, this.env := kind, env;
      tab, discovered := Empty(kind), false;
      counted, listing, history, limits := [], [], [], map[];
    }

    // ----- Allocation and release of one slot

    method Allocate(slot: Slot)
      requires env.Valid() && |tab.domain| == |tab.node| && Balanced(env.live, tab) && HandlesBalanced(env.open, tab)
      requires Exists(kind, tab, slot) && Childless(tab, slot) && Held(tab, slot).None?
      modifies this`tab, env
      ensures env.Valid() && Balanced(env.live, tab) && HandlesBalanced(env.open, tab)
      ensures tab == Install(kind, old(tab), slot, Held(tab, slot))
      ensures env.grants.memory ==> Held(tab, slot).Some?
    {
      var p := env.Calloc(slot);
      AcquireKeepsBalance(kind, tab, slot, p, old(env.live), env.open);
      InstallHolds(kind, tab, slot, p, slot);
      tab := Install(kind, tab, slot, p);
    }

    /** free of an owning pointer, which may be NULL, followed by clearing it. */
    method Release(slot: Slot)
      requires env.Valid() && |tab.domain| == |tab.node| && Balanced(env.live, tab) && HandlesBalanced(env.open, tab)
      requires Exists(kind, tab, slot) && Childless(tab, slot)
      modifies this`tab, env`live
      ensures env.Valid() && Balanced(env.live, tab) && HandlesBalanced(env.open, tab)
      ensures tab == Install(kind, old(tab), slot, None)
    {
      var p := Held(tab, slot);
      if p.Some? {
        ReleaseKeepsBalance(kind, tab, slot, env.live, env.open);
        env.Free(p.value);
      } else {
        AcquireKeepsBalance(kind, tab, slot, None, env.live, env.open);
      }
      tab := Install(kind, tab, slot, None);
    }

    // ----- Initialization

    /** The metrics structure exists and its blocks are sized from the entries before; no buffer exists. */
    ghost predicate Sized(before: seq<Entry>)
      reads this, env
    {
      && Owned() && Bare(tab) && tab.metrics.Some? && Counted(kind, tab, before, env.grants.memory)
      && !discovered && listing == [] && history == [] && limits == map[]
    }

    method AllocateMetrics()
      requires Clean()
      modifies this`tab, env
      ensures Owned() && (env.grants.memory ==> tab.metrics.Some?)
      ensures tab == Empty(kind).(metrics := tab.metrics)
      ensures tab.metrics.Some? ==> Sized([])
    {
      Allocate(MetricsSlot);
    }

    /** The counting pass meets an entry of domain d. */
    method Count(d: nat)
      requires Owned() && Bare(tab) && tab.metrics.Some? && d < |tab.domain|
      modifies this`tab, env
      ensures Owned() && Bare(tab) && tab.metrics == old(tab.metrics)
      ensures forall e :: 0 <= e < |tab.domain| && e != d ==> tab.domain[e] == old(tab.domain[e])
      ensures tab.domain[d].Some? ==> tab.domain[d].value.len == Min(MAX_NAMES, LenOf(old(tab.domain[d])) + 1)
      ensures tab.domain[d].None? ==> !env.grants.memory && old(tab.domain[d]).None?
    {
      ghost var t0 := tab;
      assert BareAt(tab, d);
      if tab.domain[d].None? {
        Allocate(BlockSlot(d));
      }
      if tab.domain[d].Some? && tab.domain[d].value.len < MAX_NAMES {
        Lengthen(d);
      }
      WithDomainIsWellFormed(kind, t0, d, tab.domain[d], None);
      assert tab == WithDomain(t0, d, tab.domain[d], None);
      assert forall e :: 0 <= e < |tab.domain| && e != d ==> BareAt(tab, e) == BareAt(t0, e);
      assert BareAt(tab, d);
    }

    method Lengthen(d: nat)
      requires env.Valid() && Balanced(env.live, tab) && HandlesBalanced(env.open, tab) && Present(tab, d)
      modifies this`tab
      ensures Balanced(env.live, tab) && HandlesBalanced(env.open, tab)
      ensures var b := old(tab).domain[d].value; tab == WithBlock(old(tab), d, Some(b.(len := b.len + 1)))
    {
      LengthIsNotOwned(tab, d, env.live, env.open);
      var b := tab.domain[d].value;
      tab := WithBlock(tab, d, Some(b.(len := b.len + 1)));
    }

    /** The counting pass meets an entry of this view whose type is readable. */
    method CountEntry(e: Entry, ghost before: seq<Entry>)
      requires Owned() && Bare(tab) && tab.metrics.Some? && IsEntryOf(kind, e) && e.typ.Some?
      requires Counted(kind, tab, before, env.grants.memory)
      modifies this`tab, env
      ensures Owned() && Bare(tab) && tab.metrics == old(tab.metrics)
      ensures Counted(kind, tab, before + [e], env.grants.memory)
    {
      var idx := Classify(e.typ.value, PrefixTable(kind));
      DomainInRange(e.typ.value);
      if idx >= 0 {
        ghost var t0 := tab;
        Count(idx);
        OneMoreCounted(kind, t0, tab, before, e, idx, env.grants.memory);
      } else {
        NotCounted(kind, tab, before, e, env.grants.memory);
      }
    }

    /** Counting is complete: allocate the buffers of every populated domain. */
    method AllocateAll()
      requires Owned() && Bare(tab) && !discovered && listing == [] && history == [] && limits == map[]
      requires Counted(kind, tab, counted, env.grants.memory)
      modifies this`tab, env
      ensures Valid() && tab.metrics == old(tab.metrics)
    {
      for d := 0 to |tab.domain|
        invariant Owned() && SameShape(old(tab), tab)
        invariant forall e :: 0 <= e < d && tab.domain[e].Some? ==>
          Faithful(kind, e, tab.domain[e].value, tab.node[e], [], [], map[], env.grants)
        invariant forall e :: d <= e < |tab.domain| ==> BareAt(tab, e)
      {
        assert BareAt(tab, d);
        ghost var t := tab;
        AllocateBuffers(d);
        assert forall e :: d < e < |tab.domain| ==> BareAt(tab, e) == BareAt(t, e);
      }
      SameShapeSameCounts(kind, old(tab), tab, counted, env.grants.memory);
    }

    /** linux_thermal_alloc_*_buffers, and the node array beside them. */
    method AllocateBuffers(d: nat)
      requires Owned() && d < |tab.domain| && BareAt(tab, d)
      modifies this`tab, env
      ensures Owned() && tab.metrics == old(tab.metrics)
      ensures forall e :: 0 <= e < |tab.domain| && e != d ==> tab.domain[e] == old(tab.domain[e]) && tab.node[e] == old(tab.node[e])
      ensures tab.domain[d].Some? <==> old(tab.domain[d]).Some?
      ensures tab.domain[d].Some? ==>
        var b := tab.domain[d].value;
        b.len == old(tab.domain[d]).value.len
        && Faithful(kind, d, b, tab.node[d], [], [], map[], env.grants)
    {
      if tab.domain[d].Some? {
        ghost var t0 := tab;
        AllocateArrays(d);
        Allocate(NodeSlot(d));
        WithDomainIsWellFormed(kind, t0, d, tab.domain[d], tab.node[d]);
        assert tab == WithDomain(t0, d, tab.domain[d], tab.node[d]);
        BlankIsFaithful(kind, d, tab.domain[d].value, tab.node[d], env.grants);
      }
    }

    method AllocateArrays(d: nat)
      requires Owned() && d < |tab.domain| && BareAt(tab, d) && tab.domain[d].Some?
      modifies this`tab, env
      ensures env.Valid() && Balanced(env.live, tab) && HandlesBalanced(env.open, tab)
      ensures |tab.domain| == old(|tab.domain|) && tab.domain[d].Some? && tab == WithBlock(old(tab), d, tab.domain[d])
      ensures var b := tab.domain[d].value;
              b.len == old(tab.domain[d]).value.len && BlockOk(kind, b) && Blank(b, None)
              && (env.grants.memory ==> Complete(kind, b, Some(Cells(0, []))))
    {
      Allocate(ArenaSlot(d));
      AllocateNumbers(d);
      AttachNames(d);
    }

    /** The array of names; the arena behind it is freed again unless both were granted. */
    method AttachNames(d: nat)
      requires env.Valid() && |tab.domain| == |tab.node| && Balanced(env.live, tab) && HandlesBalanced(env.open, tab)
      requires Present(tab, d) && tab.domain[d].value.name.None?
      modifies this`tab, env
      ensures env.Valid() && Balanced(env.live, tab) && HandlesBalanced(env.open, tab)
      ensures Present(tab, d)
      ensures var b, c := old(tab).domain[d].value, tab.domain[d].value;
              && tab == WithBlock(old(tab), d, Some(b.(name := c.name, arena := c.arena)))
              && IsFresh(c.name, b.len, "")
              && c.arena == (if c.name.Some? then b.arena else None)
              && (env.grants.memory ==> c.name.Some?)
    {
      Allocate(NameSlot(d));
      if tab.domain[d].value.name.None? || tab.domain[d].value.arena.None? {
        Release(ArenaSlot(d));
      }
    }

    /** The id and value arrays. */
    method AllocateNumbers(d: nat)
      requires env.Valid() && |tab.domain| == |tab.node| && Balanced(env.live, tab) && HandlesBalanced(env.open, tab)
      requires Present(tab, d)
      requires tab.domain[d].value.id.None? && tab.domain[d].value.level.None? && tab.domain[d].value.limit.None?
      modifies this`tab, env
      ensures env.Valid() && Balanced(env.live, tab) && HandlesBalanced(env.open, tab)
      ensures Present(tab, d)
      ensures var b, c := old(tab).domain[d].value, tab.domain[d].value;
              && tab == WithBlock(old(tab), d, Some(b.(id := c.id, level := c.level, limit := c.limit)))
              && IsFresh(c.id, b.len, 0) && IsFresh(c.level, b.len, 0) && IsFresh(c.limit, b.len, 0)
              && (c.limit.Some? ==> kind == Cooling)
              && (env.grants.memory ==> c.id.Some? && c.level.Some? && (kind == Cooling ==> c.limit.Some?))
    {
      Allocate(IdSlot(d));
      Allocate(LevelSlot(d));
      if kind == Cooling {
        Allocate(LimitSlot(d));
      }
    }

    // ----- The fill pass

    /**
     Store entry e in one slot of domain d: its number, its type, an open value
     node, and the first readings. The slot's handle is NULL beforehand.
     */
    method Fill(d: nat, slot: nat, e: Entry, snap: Snapshot, lims: Snapshot) returns (file: Option<File>)
      requires Owned() && Present(tab, d) && e.number.Some? && e.typ.Some?
      requires slot < tab.domain[d].value.len
      requires tab.node[d].Some? ==> tab.node[d].value.at[slot].None?
      modifies this`tab, env
      ensures Owned() && SameShape(old(tab), tab)
      ensures file.Some? ==> old(tab).node[d].Some? && file.value.number == e.number.value
      ensures env.grants.files && old(tab).node[d].Some? ==> file.Some?
      ensures tab == Placed(kind, old(tab), d, slot, e, file, snap, lims)
    {
      ghost var t0, open0 := tab, env.open;
      file := OpenNode(d, slot, e.number.value);
      var b := StoreEntry(tab.domain[d].value, slot, e, file.Some?, snap, lims);
      tab := WithDomain(tab, d, Some(b), Set(tab.node[d], slot, file));
      EntryOwnsNothing(kind, t0, d, slot, e, file, snap, lims);
      StoringAHandle(t0, tab, d, slot, file, open0, env.live);
    }

    /** The fopen of a value node, if its domain has an array for the handle. */
    method OpenNode(d: nat, slot: nat, number: nat) returns (file: Option<File>)
      requires env.Valid() && d < |tab.node|
      modifies env
      ensures env.Valid() && env.live == old(env.live)
      ensures env.open == Acquired(old(env.open), Place(d, slot), if file.Some? then Some(file.value.handle) else None)
      ensures file.Some? ==> tab.node[d].Some? && file.value.number == number && file.value.handle !in old(env.open)
      ensures env.grants.files && tab.node[d].Some? ==> file.Some?
    {
      file := None;
      if tab.node[d].Some? {
        var h := env.Fopen(Place(d, slot));
        file := if h.Some? then Some(File(h.value, number)) else None;
      }
    }

    /** The stores into the arrays of a block that exist; readable tells whether the node could be opened. */
    method StoreEntry(block: Block, slot: nat, e: Entry, readable: bool, snap: Snapshot, lims: Snapshot) returns (b: Block)
      requires slot < block.len && BlockOk(kind, block) && e.number.Some? && e.typ.Some?
      ensures b == WithEntry(kind, block, slot, e, readable, snap, lims)
    {
      var n := e.number.value;
      b := block.(id := Set(block.id, slot, n % 256));
      if b.arena.Some? {
        b := b.(name := Set(b.name, slot, e.typ.value));
      }
      if readable && n in snap {
        b := b.(level := Set(b.level, slot, Stored(kind, snap[n])));
      }
      if n in lims {
        b := b.(limit := Set(b.limit, slot, Stored(kind, lims[n])));
      }
    }

    /** One directory entry of the fill pass. */
    method Visit(e: Entry, ghost before: seq<Entry>, filled: array<nat>, snap: Snapshot, lims: Snapshot)
      requires Owned() && Progress(kind, tab, filled[..], before, snap, lims, env.grants)
      modifies this`tab, env, filled
      ensures Owned() && SameShape(old(tab), tab)
      ensures Progress(kind, tab, filled[..], before + [e], snap, lims, env.grants)
    {
      var idx := Locate(e);
      if idx < 0 || tab.domain[idx].None? || filled[idx] >= tab.domain[idx].value.len {
        SkipMakesProgress(kind, tab, filled[..], before, e, snap, lims, env.grants);
      } else {
        Accept(e, before, idx, filled, snap, lims);
      }
    }

    /** The domain an entry feeds, or -1. */
    method Locate(e: Entry) returns (idx: int)
      ensures -1 <= idx < DomainCount(kind)
      ensures forall d: nat :: Feeds(kind, e, d) <==> d == idx
    {
      idx := -1;
      if IsEntryOf(kind, e) && e.number.Some? && e.typ.Some? {
        idx := Classify(e.typ.value, PrefixTable(kind));
        DomainInRange(e.typ.value);
      }
    }

    /** The next free slot of domain idx takes the entry. */
    method Accept(e: Entry, ghost before: seq<Entry>, idx: nat, filled: array<nat>, snap: Snapshot, lims: Snapshot)
      requires Owned() && Progress(kind, tab, filled[..], before, snap, lims, env.grants)
      requires Present(tab, idx) && Feeds(kind, e, idx) && filled[idx] < tab.domain[idx].value.len
      modifies this`tab, env, filled
      ensures Owned() && SameShape(old(tab), tab)
      ensures Progress(kind, tab, filled[..], before + [e], snap, lims, env.grants)
    {
      ghost var f0 := filled[..];
      FillNext(e, before, idx, filled[idx], f0, snap, lims);
      filled[idx] := filled[idx] + 1;
      assert filled[..] == f0[idx := f0[idx] + 1];
    }

    method FillNext(e: Entry, ghost before: seq<Entry>, idx: nat, slot: nat, ghost filled: seq<nat>, snap: Snapshot, lims: Snapshot)
      requires Owned() && Progress(kind, tab, filled, before, snap, lims, env.grants)
      requires Present(tab, idx) && Feeds(kind, e, idx) && filled[idx] == slot < tab.domain[idx].value.len
      modifies this`tab, env
      ensures Owned() && SameShape(old(tab), tab)
      ensures Progress(kind, tab, filled[idx := slot + 1], before + [e], snap, lims, env.grants)
    {
      ghost var t0 := tab;
      assert Faithful(kind, idx, tab.domain[idx].value, tab.node[idx], before, [snap], lims, env.grants);
      var file := Fill(idx, slot, e, snap, lims);
      FillMakesProgress(kind, t0, filled, before, e, idx, file, snap, lims, env.grants, tab);
    }

    /** linux_thermal_lib_discover_*: dir is None if the directory cannot be opened. */
    method Discover(dir: Option<seq<Entry>>, snap: Snapshot, lims: Snapshot)
      requires Valid() && tab.metrics.Some?
      modifies this, env
      ensures Valid() && discovered && SameShape(old(tab), tab) && counted == old(counted)
      ensures old(discovered) ==> tab == old(tab) && listing == old(listing) && history == old(history) && limits == old(limits)
      ensures !old(discovered) ==> listing == (if dir.Some? then dir.value else []) && history == [snap] && limits == lims
    {
      if discovered {
        return;
      }
      ghost var t0 := tab;
      var entries := if dir.Some? then dir.value else [];
      FillAll(entries, snap, lims);
      SameShapeSameCounts(kind, t0, tab, counted, env.grants.memory);
      discovered := true;
      listing, history, limits := entries, [snap], lims;
    }

    /** The fill pass over the whole directory. */
    method FillAll(entries: seq<Entry>, snap: Snapshot, lims: Snapshot)
      requires Owned() && Populated(kind, tab, [], [], map[], env.grants)
      modifies this`tab, env
      ensures Owned() && SameShape(old(tab), tab)
      ensures Populated(kind, tab, entries, [snap], lims, env.grants)
    {
      ghost var t0 := tab;
      var filled := new nat[|tab.domain|](_ => 0);
      NothingYet(kind, tab, filled[..], snap, lims, env.grants);
      for k := 0 to |entries|
        invariant Owned() && SameShape(t0, tab)
        invariant Progress(kind, tab, filled[..], entries[..k], snap, lims, env.grants)
      {
        Visit(entries[k], entries[..k], filled, snap, lims);
        assert entries[..k] + [entries[k]] == entries[..k + 1];
      }
      assert entries[..|entries|] == entries;
    }

    // ----- The refresh pass

    /** linux_thermal_lib_*_info: re-read every open node; a failed read keeps the old value. */
    method Refresh(snap: Snapshot)
      requires Valid() && tab.metrics.Some?
      modifies this`tab, this`history
      ensures Valid() && Relevelled(old(tab), tab)
      ensures history == if discovered then old(history) + [snap] else []
    {
      ghost var t0 := tab;
      RefreshDomains(snap);
      RelevelledKeepsCounts(kind, t0, tab, counted, env.grants.memory);
      if discovered {
        history := history + [snap];
      }
    }

    /** The pass over all domains. */
    method RefreshDomains(snap: Snapshot)
      requires Owned() && Populated(kind, tab, listing, history, limits, env.grants)
      modifies this`tab
      ensures Owned() && Relevelled(old(tab), tab)
      ensures Populated(kind, tab, listing, history + [snap], limits, env.grants)
    {
      ghost var t0 := tab;
      for d := 0 to |tab.domain|
        invariant Owned() && Relevelled(t0, tab)
        invariant forall e :: d <= e < |tab.domain| ==> tab.domain[e] == t0.domain[e]
        invariant forall e :: 0 <= e < d && tab.domain[e].Some? ==>
          Faithful(kind, e, tab.domain[e].value, tab.node[e], listing, history + [snap], limits, env.grants)
      {
        RefreshDomain(d, snap);
      }
    }

    method RefreshDomain(d: nat, snap: Snapshot)
      requires Owned() && d < |tab.domain|
      requires tab.domain[d].Some? ==> Faithful(kind, d, tab.domain[d].value, tab.node[d], listing, history, limits, env.grants)
      modifies this`tab
      ensures Owned() && tab == old(tab).(domain := old(tab).domain[d := tab.domain[d]])
      ensures RelevelledAt(old(tab).domain[d], tab.domain[d])
      ensures tab.domain[d].Some? ==>
        Faithful(kind, d, tab.domain[d].value, tab.node[d], listing, history + [snap], limits, env.grants)
    {
      if tab.domain[d].None? {
        return;
      }
      ghost var t0 := tab;
      var b, node := tab.domain[d].value, tab.node[d];
      if b.level.Some? && node.Some? {
        var at := Reread(b.level.value.at, node.value.at, snap);
        tab := WithBlock(tab, d, Some(b.(level := Some(b.level.value.(at := at)))));
      }
      RefreshExtendsHistory(kind, b, node, Roster(kind, listing, d, b.len), history, limits, snap, tab.domain[d].value);
      LevelsOwnNothing(kind, t0, tab, d, env.live, env.open);
    }

    /** The inner loop: the values of one domain after the pass. */
    method Reread(level: seq<nat>, node: seq<Option<File>>, snap: Snapshot) returns (at: seq<nat>)
      requires |level| == |node|
      ensures at == Refreshed(kind, level, node, snap)
    {
      at := level;
      ghost var after := Refreshed(kind, level, node, snap);
      for i := 0 to |level|
        invariant |at| == |level|
        invariant forall j :: 0 <= j < i ==> at[j] == after[j]
        invariant forall j :: i <= j < |at| ==> at[j] == level[j]
      {
        if node[i].Some? && node[i].value.number in snap {
          at := at[i := Stored(kind, snap[node[i].value.number])];
        }
      }
    }

    // ----- Cleanup

    /** linux_thermal_close_*_nodes */
    method CloseNodes()
      requires Owned()
      modifies this`tab, env
      ensures Owned() && tab.metrics == old(tab.metrics) && tab.domain == old(tab.domain)
      ensures forall d :: 0 <= d < |tab.node| ==> tab.node[d].None?
    {
      for d := 0 to |tab.node|
        invariant Owned() && tab.metrics == old(tab.metrics) && tab.domain == old(tab.domain)
        invariant forall e :: 0 <= e < d ==> tab.node[e].None?
      {
        if tab.node[d].Some? {
          CloseNode(d);
        }
      }
    }

    method CloseNode(d: nat)
      requires Owned() && d < |tab.node| && tab.node[d].Some?
      modifies this`tab, env
      ensures Owned() && tab == old(tab).(node := old(tab).node[d := None])
    {
      var len := tab.domain[d].value.len;
      for i := 0 to len
        invariant Owned() && d < |tab.node| && tab.node[d].Some? && |tab.node[d].value.at| == len
        invariant tab == old(tab).(node := old(tab).node[d := tab.node[d]])
        invariant forall j :: 0 <= j < i ==> tab.node[d].value.at[j].None?
      {
        if tab.node[d].value.at[i].Some? {
          CloseSlot(d, i);
        }
      }
      Release(NodeSlot(d));
    }

    method CloseSlot(d: nat, i: nat)
      requires Owned() && d < |tab.node| && tab.node[d].Some? && i < |tab.node[d].value.at| && tab.node[d].value.at[i].Some?
      modifies this`tab, env`open
      ensures Owned() && tab == old(tab).(node := old(tab).node[d := Set(old(tab).node[d], i, None)])
    {
      ClosingAHandle(tab, d, i, env.open);
      HandlesOwnNothing(kind, tab, d, i, env.live);
      env.Fclose(tab.node[d].value.at[i].value.handle);
      tab := WithDomain(tab, d, tab.domain[d], Set(tab.node[d], i, None));
    }

    /** linux_thermal_free_*_metrics: every block with its buffers, then the structure. */
    method FreeMetrics()
      requires Owned() && forall d :: 0 <= d < |tab.node| ==> tab.node[d].None?
      modifies this`tab, env
      ensures env.Valid() && env.live == map[] && env.open == map[] && tab == Empty(kind)
    {
      for d := 0 to |tab.domain|
        invariant Owned() && forall e :: 0 <= e < |tab.node| ==> tab.node[e].None?
        invariant forall e :: 0 <= e < d ==> tab.domain[e].None?
      {
        if tab.domain[d].Some? {
          FreeBlock(d);
        }
      }
      Release(MetricsSlot);
      assert tab == Empty(kind);
      NothingHeldNothingLive(kind, env.live, env.open);
    }

    method FreeBlock(d: nat)
      requires Owned() && d < |tab.domain| && tab.domain[d].Some? && tab.node[d].None?
      modifies this`tab, env
      ensures Owned() && tab == old(tab).(domain := old(tab).domain[d := None])
    {
      ghost var t0 := tab;
      FreeNumbers(d);
      FreeNames(d);
      Release(BlockSlot(d));
      WithDomainIsWellFormed(kind, t0, d, None, None);
      assert tab == WithDomain(t0, d, None, None);
    }

    /** The id and value arrays. */
    method FreeNumbers(d: nat)
      requires env.Valid() && |tab.domain| == |tab.node| && Balanced(env.live, tab) && HandlesBalanced(env.open, tab)
      requires Present(tab, d) && (tab.domain[d].value.limit.Some? ==> kind == Cooling)
      modifies this`tab, env`live
      ensures env.Valid() && Balanced(env.live, tab) && HandlesBalanced(env.open, tab)
      ensures tab == WithBlock(old(tab), d, Some(old(tab).domain[d].value.(id := None, level := None, limit := None)))
    {
      Release(IdSlot(d));
      Release(LevelSlot(d));
      if kind == Cooling {
        Release(LimitSlot(d));
      }
    }

    /** The name arena and the array of names. */
    method FreeNames(d: nat)
      requires env.Valid() && |tab.domain| == |tab.node| && Balanced(env.live, tab) && HandlesBalanced(env.open, tab)
      requires Present(tab, d)
      modifies this`tab, env`live
      ensures env.Valid() && Balanced(env.live, tab) && HandlesBalanced(env.open, tab)
      ensures tab == WithBlock(old(tab), d, Some(old(tab).domain[d].value.(arena := None, name := None)))
    {
      Release(ArenaSlot(d));
      Release(NameSlot(d));
    }

    /** After the nodes are closed and the metrics freed, the view is as it was before init. */
    method Reset()
      requires env.Valid() && env.live == map[] && env.open == map[] && tab == Empty(kind)
      modifies this
      ensures Clean()
    {
      discovered := false;
      counted, listing, history, limits := [], [], [], map[];
    }
  }
}
